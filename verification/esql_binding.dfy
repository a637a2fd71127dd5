/**
 What the runtime binds for a statement the precompiler generated: the j-th marker of the text gets the
 j-th host variable, and the j-th result column the j-th variable of the INTO list.
 */
module EsqlBinding {
  import opened Texts
  import opened EsqlMarkers
  import P = EsqlPasses
  import M = MoveTables

  /** The host variable of a name, its indicator taken off. */
  function HostOf(name: string): P.Cell {
    P.NameCells(name)[0]
  }

  /** Rows of the parameter table, from row lo on, hold these types. */
  predicate Filled(rows: seq<M.Cell>, lo: nat, types: string) {
    lo + |types| <= |rows| && forall k :: 0 <= k < |types| ==> rows[lo + k].kind == types[k]
  }

  /** No variable is declared with the type letter of indicator rows. */
  predicate Proper(sym: map<string, P.Holder>) {
    forall name :: name in sym ==> sym[name].kind != 'i'
  }

  /** The rows at these positions, counted from lo, are the hosts of the names, in order. */
  predicate AreHosts(at: seq<nat>, lo: nat, names: seq<string>) {
    |at| == |names|
    && forall j :: 0 <= j < |at| ==>
         lo <= at[j] < lo + |P.AllCells(names)| && P.AllCells(names)[at[j] - lo] == HostOf(names[j])
  }

  lemma MoreHosts(at: seq<nat>, lo: nat, names: seq<string>)
    requires |names| > 0 && AreHosts(at, lo + Cells(names[0]), names[1..])
    ensures AreHosts([lo] + at, lo, names)
  {
    hide P.NameCells, Cells, HostOf;
    var first, rest := P.NameCells(names[0]), P.AllCells(names[1..]);
    assert P.AllCells(names) == first + rest;
    HostFirst(names[0]);
    forall j | 0 <= j < |at| + 1
      ensures lo <= ([lo] + at)[j] < lo + |P.AllCells(names)|
      ensures P.AllCells(names)[([lo] + at)[j] - lo] == HostOf(names[j])
    {
      if j > 0 {
        assert ([lo] + at)[j] == at[j - 1] && names[1..][j - 1] == names[j];
        assert (first + rest)[at[j - 1] - lo] == rest[at[j - 1] - lo - |first|];
      }
    }
  }

  lemma HostFirst(name: string)
    ensures P.NameCells(name)[0] == HostOf(name) && Cells(name) == |P.NameCells(name)| >= 1
  {
  }

  /** The types of a name's rows: its own, and that of the indicator row if it has one. */
  lemma RowsOfName(names: seq<string>, sym: map<string, P.Holder>, rows: seq<M.Cell>, lo: nat)
    requires |names| > 0 && Proper(sym) && Filled(rows, lo, P.TypesOf(P.AllCells(names), sym))
    ensures var n := Cells(names[0]);
      && (n == 1 || n == 2) && lo + n <= |rows| && rows[lo].kind != 'i' && (n == 2 ==> rows[lo + 1].kind == 'i')
      && Filled(rows, lo + n, P.TypesOf(P.AllCells(names[1..]), sym))
  {
    hide *;
    var first, rest := P.NameCells(names[0]), P.AllCells(names[1..]);
    CellsHead(names);
    SplitRows(rows, lo, first, rest, sym);
    TypesOfName(names[0], sym);
    FilledStarts(rows, lo, P.TypesOf(first, sym));
  }

  lemma CellsHead(names: seq<string>)
    requires |names| > 0
    ensures P.AllCells(names) == P.NameCells(names[0]) + P.AllCells(names[1..])
  {
  }

  lemma SplitRows(rows: seq<M.Cell>, lo: nat, a: seq<P.Cell>, b: seq<P.Cell>, sym: map<string, P.Holder>)
    requires Filled(rows, lo, P.TypesOf(a + b, sym))
    ensures Filled(rows, lo, P.TypesOf(a, sym)) && Filled(rows, lo + |a|, P.TypesOf(b, sym))
  {
    hide *;
    P.MoreTypes(a, b, sym);
    SplitFilled(rows, lo, P.TypesOf(a, sym), P.TypesOf(b, sym));
  }

  lemma TypesOfName(name: string, sym: map<string, P.Holder>)
    requires Proper(sym)
    ensures var n, t := Cells(name), P.TypesOf(P.NameCells(name), sym);
      && (n == 1 || n == 2) && |t| == n && t[0] != 'i' && (n == 2 ==> t[1] == 'i')
  {
  }

  lemma FilledStarts(rows: seq<M.Cell>, lo: nat, t: string)
    requires Filled(rows, lo, t)
    ensures lo + |t| <= |rows| && (|t| >= 1 ==> rows[lo].kind == t[0]) && (|t| >= 2 ==> rows[lo + 1].kind == t[1])
  {
    assert |t| >= 1 ==> rows[lo + 0].kind == t[0];
  }

  /** Does a row of these types follow with something else than an indicator? */
  lemma NoIndicatorFirst(names: seq<string>, sym: map<string, P.Holder>, rows: seq<M.Cell>, lo: nat)
    requires Proper(sym) && Filled(rows, lo, P.TypesOf(P.AllCells(names), sym)) && |rows| == lo + |P.AllCells(names)|
    ensures lo < |rows| ==> rows[lo].kind != 'i'
  {
    if |names| > 0 {
      RowsOfName(names, sym, rows, lo);
    }
  }

  /** Markers are bound to the host variables of the text, all of them, in order. */
  lemma {:induction false} MarkersAreHosts(names: seq<string>, sym: map<string, P.Holder>, rows: seq<M.Cell>, lo: nat)
    requires Proper(sym) && Filled(rows, lo, P.TypesOf(P.AllCells(names), sym)) && |rows| == lo + |P.AllCells(names)|
    ensures AreHosts(M.Markers(rows, lo), lo, names)
  {
    hide P.NameCells, Cells, AreHosts, Filled, Proper, P.TypesOf;
    if |names| == 0 {
      NoHosts(lo);
    } else {
      var n := Cells(names[0]);
      HostFirst(names[0]);
      RowsOfName(names, sym, rows, lo);
      MarkersAreHosts(names[1..], sym, rows, lo + n);
      NoIndicatorFirst(names[1..], sym, rows, lo + n);
      assert M.Markers(rows, lo) == [lo] + M.Markers(rows, lo + n);
      MoreHosts(M.Markers(rows, lo + n), lo, names);
    }
  }

  lemma NoHosts(lo: nat)
    ensures AreHosts([], lo, [])
  {
  }

  /** Result columns are bound to the host variables of the INTO list, all of them, in order. */
  lemma {:induction false} ColumnsAreHosts(names: seq<string>, sym: map<string, P.Holder>, rows: seq<M.Cell>,
                                           lo: nat, hi: nat)
    requires Proper(sym) && Filled(rows, lo, P.TypesOf(P.AllCells(names), sym))
    requires hi == lo + |P.AllCells(names)| <= |rows|
    ensures AreHosts(M.Columns(rows, lo, hi), lo, names)
  {
    hide P.NameCells, Cells, AreHosts, Filled, Proper, P.TypesOf;
    if |names| == 0 {
      NoHosts(lo);
    } else {
      var n := Cells(names[0]);
      HostFirst(names[0]);
      RowsOfName(names, sym, rows, lo);
      ColumnsAreHosts(names[1..], sym, rows, lo + n, hi);
      M.NextColumn(rows, lo, hi);
      if n == 2 {
        M.NextColumn(rows, lo + 1, hi);
        assert M.Columns(rows, lo + 1, hi) == M.Columns(rows, lo + 2, hi);
      }
      assert M.Columns(rows, lo, hi) == [lo] + M.Columns(rows, lo + n, hi);
      MoreHosts(M.Columns(rows, lo + n, hi), lo, names);
    }
  }

  /** The rows that are bound as markers, the last parms of them, and as result columns, those in front. */
  predicate Binds(rows: seq<M.Cell>, parms: nat, into: seq<string>, vars: seq<string>) {
    && parms <= |rows|
    && AreHosts(M.Markers(rows, |rows| - parms), |rows| - parms, vars)
    && AreHosts(M.Columns(rows, 0, |rows| - parms), 0, into)
  }

  /**
   The generated table of any statement: the runtime binds as many parameters as there are variables behind the
   INTO list, and as many columns as the list has variables, each to its own variable.
   */
  lemma GeneratedTableBinds(into: seq<string>, vars: seq<string>, sym: map<string, P.Holder>, rows: seq<M.Cell>)
    requires Proper(sym) && |rows| == |P.AllCells(into)| + |P.AllCells(vars)|
    requires Filled(rows, 0, P.TypesOf(P.AllCells(into) + P.AllCells(vars), sym))
    ensures Binds(rows, |P.AllCells(vars)|, into, vars)
  {
    hide P.AllCells, AreHosts, Filled;
    P.MoreTypes(P.AllCells(into), P.AllCells(vars), sym);
    var t1, t2 := P.TypesOf(P.AllCells(into), sym), P.TypesOf(P.AllCells(vars), sym);
    SplitFilled(rows, 0, t1, t2);
    MarkersAreHosts(vars, sym, rows, |t1|);
    ColumnsAreHosts(into, sym, rows, 0, |t1|);
  }

  lemma SplitFilled(rows: seq<M.Cell>, lo: nat, t1: string, t2: string)
    requires Filled(rows, lo, t1 + t2)
    ensures Filled(rows, lo, t1) && Filled(rows, lo + |t1|, t2)
  {
    forall k | 0 <= k < |t2| ensures rows[lo + |t1| + k].kind == t2[k] {
      assert (t1 + t2)[|t1| + k] == t2[k];
      assert rows[lo + (|t1| + k)].kind == (t1 + t2)[|t1| + k];
    }
    forall k | 0 <= k < |t1| ensures rows[lo + k].kind == t1[k] {
      assert (t1 + t2)[k] == t1[k];
    }
  }

  // ---------- from the statement to what is bound ----------

  /**
   INSERT, UPDATE and DELETE, precompiled: whatever table the generated code fills as it says, the runtime finds
   SQL-PARMS rows of parameters, and its j-th marker gets the variable the j-th marker of the text stands for.
   */
  method CompiledChangeBinds(text: string, sym: map<string, P.Holder>)
      returns (sql: string, parms: nat, g: P.Generated)
    requires Proper(sym)
    ensures sql == Marked(Tokens(text, false))
    ensures g.Table? <==> P.AllDeclared(P.AllCells(P.VarNames(Tokens(text, false))), sym)
    ensures g.Table? ==> forall rows :: |rows| == g.sqlCount && Filled(rows, 0, g.types) ==>
      Binds(rows, parms, [], P.VarNames(Tokens(text, false)))
  {
    hide *;
    sql, parms, g := P.CompileChange(text, sym);
    if g.Table? {
      ghost var vars := P.VarNames(Tokens(text, false));
      forall rows | |rows| == g.sqlCount && Filled(rows, 0, g.types) ensures Binds(rows, parms, [], vars) {
        ChangeRows(text, sym, rows);
      }
    }
  }

  lemma ChangeRows(text: string, sym: map<string, P.Holder>, rows: seq<M.Cell>)
    requires var cells := P.AllCells(P.VarNames(Tokens(text, false)));
      Proper(sym) && |rows| == |P.TypesOf(cells, sym)| && Filled(rows, 0, P.TypesOf(cells, sym))
    ensures Binds(rows, |rows|, [], P.VarNames(Tokens(text, false)))
  {
    hide *;
    var vars := P.VarNames(Tokens(text, false));
    P.NoCells();
    assert P.AllCells([]) + P.AllCells(vars) == P.AllCells(vars);
    GeneratedTableBinds([], vars, sym, rows);
  }

  /** The variables of the INTO list. */
  function IntoNames(text: string, i: P.Into): seq<string>
    requires P.Holds(i, text)
  {
    if i.NoInto? then [] else P.VarNames(Tokens(P.ListOf(text, i), false))
  }

  /**
   SELECT, precompiled, with a list that closes its literals: the markers get the variables of the query, and the
   result columns those of the list, in order.
   */
  method CompiledSelectBinds(text: string, sym: map<string, P.Holder>)
      returns (i: P.Into, sql: string, parms: nat, g: P.Generated)
    requires Proper(sym)
    ensures i == P.IntoAt(text) && P.Holds(i, text) && sql == Marked(Tokens(P.QueryOf(text, i), false))
    ensures g.Table? <==> P.AllDeclared(P.SelectCells(text, i), sym)
    ensures g.Table? && P.Closed(text, i) ==> forall rows :: |rows| == g.sqlCount && Filled(rows, 0, g.types) ==>
      Binds(rows, parms, IntoNames(text, i), P.VarNames(Tokens(P.QueryOf(text, i), false)))
  {
    hide *;
    i, sql, parms, g := P.CompileSelect(text, sym);
    if g.Table? && P.Closed(text, i) {
      ghost var into, vars := IntoNames(text, i), P.VarNames(Tokens(P.QueryOf(text, i), false));
      forall rows | |rows| == g.sqlCount && Filled(rows, 0, g.types) ensures Binds(rows, parms, into, vars) {
        SelectRows(text, i, sym, rows);
      }
    }
  }

  lemma SelectRows(text: string, i: P.Into, sym: map<string, P.Holder>, rows: seq<M.Cell>)
    requires P.Holds(i, text) && P.Closed(text, i)
    requires var cells := P.SelectCells(text, i);
      Proper(sym) && |rows| == |P.TypesOf(cells, sym)| && Filled(rows, 0, P.TypesOf(cells, sym))
    ensures var vars := P.VarNames(Tokens(P.QueryOf(text, i), false));
      Binds(rows, CountCells(Tokens(P.QueryOf(text, i), false)), IntoNames(text, i), vars)
  {
    hide Tokens, P.VarNames, P.TypesOf, AreHosts, Filled, CountCells, CountVars, QuoteAfter, P.ListOf;
    var into, vars := IntoNames(text, i), P.VarNames(Tokens(P.QueryOf(text, i), false));
    assert P.AllCells([]) + P.AllCells(vars) == P.AllCells(vars);
    assert P.SelectCells(text, i) == P.AllCells(into) + P.AllCells(vars);
    P.CellsOfTokens(Tokens(P.QueryOf(text, i), false));
    GeneratedTableBinds(into, vars, sym, rows);
  }

  /** There are as many columns as variables in the list, and as many markers as there are in the query. */
  lemma BoundNumbers(rows: seq<M.Cell>, parms: nat, into: seq<string>, ts: seq<Token>)
    requires Binds(rows, parms, into, P.VarNames(ts))
    ensures |M.Markers(rows, |rows| - parms)| == CountVars(ts) && |M.Columns(rows, 0, |rows| - parms)| == |into|
  {
    hide M.Markers, M.Columns, CountVars, CountCells, P.VarNames;
    P.CellsOfTokens(ts);
  }

  /** A table of one row and no parameters, as for a list that cuts a literal: the row is bound as a result column. */
  lemma ParameterBoundAsColumn(name: string, sym: map<string, P.Holder>, rows: seq<M.Cell>)
    requires Proper(sym) && Cells(name) == 1 && |rows| == 1 && Filled(rows, 0, P.TypesOf(P.AllCells([name]), sym))
    ensures M.Columns(rows, 0, 1) == [0] && M.Markers(rows, 1) == []
  {
    hide P.TypesOf, Filled, Proper;
    RowsOfName([name], sym, rows, 0);
    M.NextColumn(rows, 0, 1);
  }
}
