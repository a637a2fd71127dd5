/**
 The independent passes of the precompiler and the runtime over one SQL statement: substitution of
 markers, generation of the parameter table, and binding. They read the text in different ways and
 have to agree on how many parameters there are, and in which order.
 */
module EsqlPasses {
  import opened Texts
  import opened EsqlMarkers

  // ---------- the parameter table the generated code fills ----------

  /** One row of the table. */
  datatype Cell = Host(name: string) | Indicator(name: string)

  function NameCells(name: string): (cs: seq<Cell>)
    ensures |cs| == Cells(name)
  {
    var x := IndexOf(name, COLON);
    if x > 0 then [Host(name[..x]), Indicator(name[x + 1..])] else [Host(name)]
  }

  function AllCells(names: seq<string>): seq<Cell> {
    if |names| == 0 then [] else NameCells(names[0]) + AllCells(names[1..])
  }

  /** The host variables of a statement in upper case, in order. */
  function VarNames(ts: seq<Token>): seq<string> {
    if |ts| == 0 then []
    else (match ts[0] case Var(name) => [Upper(name)] case _ => []) + VarNames(ts[1..])
  }

  lemma {:induction false} CellsOfTokens(ts: seq<Token>)
    ensures |AllCells(VarNames(ts))| == CountCells(ts) && |VarNames(ts)| == CountVars(ts)
  {
    hide NameCells, Cells, Upper;
    if |ts| > 0 {
      CellsOfTokens(ts[1..]);
      if ts[0].Var? {
        CellsInCapitals(ts[0].name);
        assert VarNames(ts)[1..] == VarNames(ts[1..]);
      } else {
        assert VarNames(ts) == VarNames(ts[1..]);
      }
    }
  }

  lemma CellsInCapitals(name: string)
    ensures |NameCells(Upper(name))| == Cells(name)
  {
    UpperKeepsColons(name);
  }

  // ---------- the text without its literals ----------

  /** The text with everything inside literals removed, the quotation marks kept. */
  function WithoutLiterals(s: string, inQ: bool): string
    decreases |s|
  {
    if |s| == 0 then ""
    else if s[0] == QUOTE then [QUOTE] + WithoutLiterals(s[1..], !inQ)
    else (if inQ then "" else [s[0]]) + WithoutLiterals(s[1..], inQ)
  }

  lemma {:induction false} WithoutLiteralsConcat(a: string, b: string, inQ: bool)
    ensures WithoutLiterals(a + b, inQ) == WithoutLiterals(a, inQ) + WithoutLiterals(b, QuoteAfter(a, inQ))
    decreases |a|
  {
    if |a| == 0 {
      assert a + b == b;
    } else {
      assert (a + b)[1..] == a[1..] + b;
      WithoutLiteralsConcat(a[1..], b, if a[0] == QUOTE then !inQ else inQ);
    }
  }

  method RemoveInQ(p: string) returns (sql: string)
    ensures sql == Upper(WithoutLiterals(p, false))
  {
    hide WithoutLiterals, QuoteAfter, Upper;
    sql := "";
    var bQ := false;
    var k := 0;
    NothingRemoved(p);
    while k < |p|
      invariant 0 <= k <= |p| && bQ == QuoteAfter(p[..k], false)
      invariant sql == WithoutLiterals(p[..k], false)
    {
      NextRemoved(p, k);
      if p[k] == QUOTE {
        bQ := !bQ;
        sql := sql + [p[k]];
        k := k + 1;
        continue;
      }
      if !bQ {
        sql := sql + [p[k]];
      }
      k := k + 1;
    }
    assert p[..k] == p;
    sql := Upper(sql);
  }

  lemma NothingRemoved(p: string)
    ensures WithoutLiterals(p[..0], false) == "" && QuoteAfter(p[..0], false) == false
  {
  }

  lemma NextRemoved(p: string, k: nat)
    requires k < |p|
    ensures var q := QuoteAfter(p[..k], false);
      && QuoteAfter(p[..k + 1], false) == (if p[k] == QUOTE then !q else q)
      && WithoutLiterals(p[..k + 1], false)
         == WithoutLiterals(p[..k], false) + if p[k] == QUOTE || !q then [p[k]] else []
  {
    assert p[..k + 1] == p[..k] + [p[k]];
    WithoutLiteralsConcat(p[..k], [p[k]], false);
    QuoteAfterConcat(p[..k], [p[k]], false);
    assert [p[k]][1..] == "";
  }

  /** The variables found in text without literals: from colon to delimiter, again and again. */
  function Names(s: string): seq<string>
    decreases |s|
  {
    var x := IndexOf(s, COLON);
    if x < 0 then []
    else
      var ib := x + 1 + NameLength(s[x + 1..]);
      [s[x + 1..ib]] + Names(s[ib..])
  }

  lemma NamesAt(s: string)
    ensures var x := IndexOf(s, COLON);
      if x < 0 then Names(s) == []
      else
        var ib := x + 1 + NameLength(s[x + 1..]);
        Names(s) == [s[x + 1..ib]] + Names(s[ib..])
  {
    hide NameLength, IndexOf;
  }

  lemma NamesSkip(c: char, t: string)
    requires c != COLON
    ensures Names([c] + t) == Names(t)
  {
    hide NameLength, IndexOf, Names;
    var s := [c] + t;
    var x := IndexOf(t, COLON);
    ColonShifted(c, t);
    NamesAt(s);
    NamesAt(t);
    if x >= 0 {
      assert s[x + 2..] == t[x + 1..];
      var n := NameLength(t[x + 1..]);
      assert s[x + 2..x + 2 + n] == t[x + 1..x + 1 + n] && s[x + 2 + n..] == t[x + 1 + n..];
    }
  }

  lemma ColonShifted(c: char, t: string)
    requires c != COLON
    ensures IndexOf([c] + t, COLON) == if IndexOf(t, COLON) < 0 then -1 else IndexOf(t, COLON) + 1
  {
    assert ([c] + t)[1..] == t;
  }

  lemma NamesOfVar(t: string)
    ensures Names([COLON] + t) == [t[..NameLength(t)]] + Names(t[NameLength(t)..])
  {
    hide NameLength, Names;
    var s, n := [COLON] + t, NameLength(t);
    NamesAt(s);
    assert s[1..] == t && s[1..1 + n] == t[..n] && s[1 + n..] == t[n..];
  }

  /** A name that is followed by a delimiter or by nothing ends there. */
  lemma {:induction false} NameEnds(name: string, rest: string)
    requires forall i :: 0 <= i < |name| ==> !IsDelim(name[i])
    requires |rest| > 0 ==> IsDelim(rest[0])
    ensures NameLength(name + rest) == |name|
  {
    if |name| == 0 {
      assert name + rest == rest;
    } else {
      assert (name + rest)[1..] == name[1..] + rest;
      NameEnds(name[1..], rest);
    }
  }

  lemma {:induction false} NameKept(name: string)
    requires forall i :: 0 <= i < |name| ==> !IsDelim(name[i])
    ensures WithoutLiterals(name, false) == name && QuoteAfter(name, false) == false
    ensures forall i :: 0 <= i < |name| ==> !IsDelim(Upper(name)[i])
  {
    if |name| > 0 {
      NameKept(name[1..]);
      assert name == [name[0]] + name[1..];
      UpperCharFacts(name[0]);
      assert Upper(name) == [UpperChar(name[0])] + Upper(name[1..]);
    }
  }

  lemma FirstKept(rest: string)
    requires |rest| > 0 ==> IsDelim(rest[0])
    ensures var u := Upper(WithoutLiterals(rest, false));
      |u| > 0 ==> |rest| > 0 && IsDelim(u[0])
  {
    if |rest| > 0 {
      UpperCharFacts(rest[0]);
    }
  }

  /** Scanning the text without literals finds the host variables of the statement and nothing else. */
  lemma {:induction false} NamesAreVars(s: string, inQ: bool)
    ensures Names(Upper(WithoutLiterals(s, inQ))) == VarNames(Tokens(s, inQ))
    decreases |s|
  {
    hide Names, Tokens, VarNames, Upper;
    if |s| == 0 {
      NothingNamed(inQ);
    } else if !inQ && s[0] == COLON {
      NamesAreVarsAtVar(s[1..]);
      assert s == [COLON] + s[1..];
    } else {
      var q := if s[0] == QUOTE then !inQ else inQ;
      var kept := if inQ && s[0] != QUOTE then "" else [s[0]];
      var more := WithoutLiterals(s[1..], q);
      NamesAreVars(s[1..], q);
      assert WithoutLiterals(s, inQ) == kept + more;
      TokensOfOther(s, inQ);
      if kept == "" {
        assert kept + more == more;
      } else {
        UpperConcat(kept, more);
        UpperCharFacts(s[0]);
        UpperOne(s[0]);
        NamesSkip(UpperChar(s[0]), Upper(more));
      }
    }
  }

  lemma NothingNamed(inQ: bool)
    ensures Names(Upper(WithoutLiterals("", inQ))) == [] && VarNames(Tokens("", inQ)) == []
  {
  }

  lemma UpperOne(c: char)
    ensures Upper([c]) == [UpperChar(c)]
  {
  }

  lemma TokensOfOther(s: string, inQ: bool)
    requires |s| > 0 && (inQ || s[0] != COLON)
    ensures VarNames(Tokens(s, inQ)) == VarNames(Tokens(s[1..], if s[0] == QUOTE then !inQ else inQ))
  {
    var ts := Tokens(s, inQ);
    assert !ts[0].Var? && ts[1..] == Tokens(s[1..], if s[0] == QUOTE then !inQ else inQ);
  }

  lemma {:induction false} NamesAreVarsAtVar(t: string)
    ensures Names(Upper(WithoutLiterals([COLON] + t, false))) == VarNames(Tokens([COLON] + t, false))
    decreases |t| + 1, 0
  {
    hide Names, WithoutLiterals, Tokens, VarNames;
    var n := NameLength(t);
    var name, rest := t[..n], t[n..];
    var u := Upper(WithoutLiterals(rest, false));
    assert [COLON] + t == ([COLON] + name) + rest && t == name + rest;
    NameKept(name);
    ColonKept(name, rest);
    FirstKept(rest);
    NameEnds(Upper(name), u);
    NamesOfVar(Upper(name) + u);
    assert (Upper(name) + u)[..n] == Upper(name) && (Upper(name) + u)[n..] == u;
    NamesAreVars(rest, false);
    TokensOfVar(t);
    VarNamesOfVar(name, Tokens(rest, false));
  }

  lemma ColonKept(name: string, rest: string)
    requires WithoutLiterals(name, false) == name && QuoteAfter(name, false) == false
    ensures Upper(WithoutLiterals([COLON] + (name + rest), false))
         == [COLON] + (Upper(name) + Upper(WithoutLiterals(rest, false)))
  {
    var more := WithoutLiterals(rest, false);
    assert ([COLON] + (name + rest))[1..] == name + rest;
    WithoutLiteralsConcat(name, rest, false);
    UpperConcat([COLON], name + more);
    UpperConcat(name, more);
    assert Upper([COLON]) == [COLON];
  }

  lemma VarNamesOfVar(name: string, ts: seq<Token>)
    ensures VarNames([Var(name)] + ts) == [Upper(name)] + VarNames(ts)
  {
    assert ([Var(name)] + ts)[1..] == ts;
  }

  // ---------- generating the table ----------

  /** A declared variable: its type letter and size; overlaid variables are given by their temporaries. */
  datatype Holder = Holder(kind: char, size: int)

  predicate IsIndicator(name: string, sym: map<string, Holder>) {
    name in sym && sym[name].kind == 'I' && sym[name].size == 2
  }

  /** Is a row's variable declared, and usable as what it is used for? */
  predicate Declared(c: Cell, sym: map<string, Holder>) {
    match c
    case Host(name) => name in sym
    case Indicator(name) => IsIndicator(name, sym)
  }

  predicate AllDeclared(cs: seq<Cell>, sym: map<string, Holder>) {
    forall i :: 0 <= i < |cs| ==> Declared(cs[i], sym)
  }

  function CellType(c: Cell, sym: map<string, Holder>): char {
    match c
    case Host(name) => if name in sym then sym[name].kind else ' '
    case Indicator(_) => 'i'
  }

  function TypesOf(cs: seq<Cell>, sym: map<string, Holder>): (t: string)
    ensures |t| == |cs|
  {
    seq(|cs|, i requires 0 <= i < |cs| => CellType(cs[i], sym))
  }

  datatype Generated = Refused | Table(types: string, sqlCount: nat)

  /**
   The rows that the generated code fills for a statement, in order, and the SQL-COUNT it sets.
   Refused when a variable or an indicator is not declared as such.
   */
  method Generate(text: string, sym: map<string, Holder>) returns (g: Generated)
    ensures var cs := AllCells(VarNames(Tokens(text, false)));
      if AllDeclared(cs, sym) then g == Table(TypesOf(cs, sym), CountCells(Tokens(text, false))) else g == Refused
  {
    hide *;
    var sql := RemoveInQ(text);
    NamesAreVars(text, false);
    CellsOfTokens(Tokens(text, false));
    ghost var goal := AllCells(Names(sql));
    ghost var done: seq<Cell> := [];
    var parmnum, types := 0, "";
    NoTypes(sym);
    var ix := IndexOf(sql, COLON);
    NothingDone(Names(sql));
    while ix >= 0
      invariant ix == IndexOf(sql, COLON)
      invariant goal == done + AllCells(Names(sql))
      invariant AllDeclared(done, sym) && types == TypesOf(done, sym) && parmnum == |done|
      decreases |sql|
    {
      var ib := IndexEndVar(sql, ix);
      var svar := sql[ix + 1..ib];
      NamesAt(sql);
      NextCells(svar, Names(sql[ib..]));
      assert done + (NameCells(svar) + AllCells(Names(sql[ib..])))
          == (done + NameCells(svar)) + AllCells(Names(sql[ib..]));
      var ok, t := GenerateRows(svar, sym);
      if !ok {
        UndeclaredRow(done, NameCells(svar), AllCells(Names(sql[ib..])), sym);
        return Refused;
      }
      MoreTypes(done, NameCells(svar), sym);
      done := done + NameCells(svar);
      types := types + t;
      parmnum := parmnum + |t|;
      sql := sql[ib..];
      ix := IndexOf(sql, COLON);
    }
    NamesAt(sql);
    NoCells();
    assert goal == done;
    g := Table(types, parmnum);
  }

  /** The row or two rows of one variable. */
  method GenerateRows(svar: string, sym: map<string, Holder>) returns (ok: bool, types: string)
    ensures ok == AllDeclared(NameCells(svar), sym)
    ensures ok ==> types == TypesOf(NameCells(svar), sym)
  {
    var ix := IndexOf(svar, COLON);
    var name := svar;
    if ix > 0 {
      var ivar := svar[ix + 1..];
      name := svar[..ix];
      if !IsIndicator(ivar, sym) {
        assert !Declared(NameCells(svar)[1], sym);
        return false, "";
      }
    }
    if name !in sym {
      assert !Declared(NameCells(svar)[0], sym);
      return false, "";
    }
    types := [sym[name].kind];
    if ix > 0 {
      types := types + ['i'];
    }
    ok := true;
  }

  lemma NoTypes(sym: map<string, Holder>)
    ensures AllDeclared([], sym) && TypesOf([], sym) == ""
  {
  }

  lemma NoCells()
    ensures AllCells([]) == []
  {
  }

  lemma NothingDone(names: seq<string>)
    ensures AllCells(names) == [] + AllCells(names)
  {
  }

  lemma NextCells(name: string, names: seq<string>)
    ensures AllCells([name] + names) == NameCells(name) + AllCells(names)
  {
    assert ([name] + names)[1..] == names;
  }

  lemma MoreTypes(a: seq<Cell>, b: seq<Cell>, sym: map<string, Holder>)
    ensures TypesOf(a + b, sym) == TypesOf(a, sym) + TypesOf(b, sym)
    ensures AllDeclared(a, sym) && AllDeclared(b, sym) ==> AllDeclared(a + b, sym)
  {
  }

  lemma UndeclaredRow(a: seq<Cell>, b: seq<Cell>, c: seq<Cell>, sym: map<string, Holder>)
    requires !AllDeclared(b, sym)
    ensures !AllDeclared((a + b) + c, sym)
  {
    var i :| 0 <= i < |b| && !Declared(b[i], sym);
    assert ((a + b) + c)[|a| + i] == b[i];
  }

  // ---------- room in the table ----------

  function Colons(s: string): nat {
    if |s| == 0 then 0 else (if s[0] == COLON then 1 else 0) + Colons(s[1..])
  }

  /** The table has room for as many rows as any statement has colons, wherever they are, and for two at least. */
  method Reserve(sql: string, maxparmnum0: nat) returns (maxparmnum: nat)
    ensures maxparmnum >= maxparmnum0 && maxparmnum >= Colons(sql)
    ensures maxparmnum == maxparmnum0 || maxparmnum == Colons(sql)
  {
    hide Colons;
    maxparmnum := maxparmnum0;
    var ct := 0;
    assert sql[0..] == sql;
    for i := 0 to |sql|
      invariant ct + Colons(sql[i..]) == Colons(sql)
    {
      ColonsHead(sql[i..]);
      assert sql[i..][1..] == sql[i + 1..];
      if sql[i] == COLON {
        ct := ct + 1;
      }
    }
    NoColons();
    if ct > maxparmnum {
      maxparmnum := ct;
    }
  }

  lemma NoColons()
    ensures Colons("") == 0
  {
  }

  lemma ColonsHead(s: string)
    requires |s| > 0
    ensures Colons(s) == (if s[0] == COLON then 1 else 0) + Colons(s[1..])
  {
  }

  lemma {:induction false} ColonsConcat(a: string, b: string)
    ensures Colons(a + b) == Colons(a) + Colons(b)
  {
    if |a| == 0 {
      assert a + b == b;
    } else {
      assert (a + b)[1..] == a[1..] + b;
      ColonsConcat(a[1..], b);
    }
  }

  lemma {:induction false} SomeColon(s: string)
    requires COLON in s
    ensures Colons(s) >= 1
  {
    if s[0] != COLON {
      SomeColon(s[1..]);
    }
  }

  /** Colons that get no row of their own: those in literals, and those in a name behind its indicator. */
  function Idle(ts: seq<Token>): nat {
    if |ts| == 0 then 0
    else (match ts[0]
      case Var(name) => Colons(name) - (if IndexOf(name, COLON) > 0 then (SomeColon(name); 1) else 0)
      case Quoted(c) => if c == COLON then 1 else 0
      case Plain(c) => 0) + Idle(ts[1..])
  }

  lemma {:induction false} RowsAndIdle(s: string, inQ: bool)
    ensures Colons(s) == CountCells(Tokens(s, inQ)) + Idle(Tokens(s, inQ))
    decreases |s|
  {
    if |s| == 0 {
    } else if !inQ && s[0] == COLON {
      var n := NameLength(s[1..]);
      var name, rest := s[1..n + 1], s[n + 1..];
      assert s[1..] == name + rest;
      ColonsConcat(name, rest);
      RowsAndIdle(rest, false);
      assert ([Var(name)] + Tokens(rest, false))[1..] == Tokens(rest, false);
    } else {
      var q := if s[0] == QUOTE then !inQ else inQ;
      RowsAndIdle(s[1..], q);
      var t := if s[0] == QUOTE || inQ then Quoted(s[0]) else Plain(s[0]);
      assert ([t] + Tokens(s[1..], q))[1..] == Tokens(s[1..], q);
    }
  }

  /** A statement never has more rows than colons, read from inside a literal or from outside. */
  lemma RowsHaveColons(s: string, inQ: bool)
    ensures CountCells(Tokens(s, inQ)) <= Colons(s)
  {
    RowsAndIdle(s, inQ);
  }

  /**
   INSERT, UPDATE and DELETE: the markers come from one pass over the text and the table from another.
   When the table is made at all, SQL-PARMS, SQL-COUNT and the number of its rows are the same, and the rows
   are those of the host variables that were replaced, in order.
   */
  method CompileChange(text: string, sym: map<string, Holder>) returns (sql: string, parms: nat, g: Generated)
    ensures sql == Marked(Tokens(text, false))
    ensures g.Table? <==> AllDeclared(AllCells(VarNames(Tokens(text, false))), sym)
    ensures g.Table? ==> g.types == TypesOf(AllCells(VarNames(Tokens(text, false))), sym)
    ensures g.Table? ==> g.sqlCount == parms == |g.types| == CountCells(Tokens(text, false)) <= Colons(text)
  {
    hide *;
    sql, parms := Substitute(text);
    g := Generate(text, sym);
    CellsOfTokens(Tokens(text, false));
    RowsHaveColons(text, false);
  }

  // ---------- SELECT ... INTO ----------

  predicate TextAt(s: string, i: nat, p: string) {
    i + |p| <= |s| && s[i..i + |p|] == p
  }

  /** The first place of a text from i on, or -1. */
  function FirstFrom(s: string, p: string, i: nat): (x: int)
    ensures x == -1 || (i <= x < |s| && TextAt(s, x, p))
    ensures forall k :: i <= k < (if x >= 0 then x else |s|) ==> !TextAt(s, k, p)
    decreases |s| - i
  {
    if i >= |s| then -1 else if TextAt(s, i, p) then i else FirstFrom(s, p, i + 1)
  }

  function FirstText(s: string, p: string): int {
    FirstFrom(s, p, 0)
  }

  method FindText(s: string, p: string) returns (x: int)
    ensures x == FirstText(s, p)
  {
    hide TextAt;
    for i := 0 to |s|
      invariant FirstText(s, p) == FirstFrom(s, p, i)
    {
      if TextAt(s, i, p) {
        return i;
      }
    }
    return -1;
  }

  /** Where the INTO list of a SELECT stands: its INTO is at `at`, the text goes on at `rest`. */
  datatype Into = NoInto | Into(at: nat, rest: nat)

  predicate Holds(i: Into, sql: string) {
    i.Into? ==> i.at + 6 <= |sql| && i.at + 5 <= i.rest <= |sql|
  }

  /** The list itself; a FROM that shares its blank with INTO makes it everything behind INTO. */
  function ListOf(sql: string, i: Into): string
    requires i.Into? && Holds(i, sql)
  {
    if i.rest == i.at + 5 then sql[i.at + 6..] else sql[i.at + 6..i.rest]
  }

  function QueryOf(sql: string, i: Into): string
    requires Holds(i, sql)
  {
    if i.NoInto? then sql else sql[..i.at] + sql[i.rest..]
  }

  function StoredOf(sql: string, i: Into): string
    requires Holds(i, sql)
  {
    if i.NoInto? then sql else ListOf(sql, i) + (" *" + QueryOf(sql, i))
  }

  /**
   The INTO of a statement: of a SELECT, the first INTO anywhere; its list ends at the first FROM of the
   statement, or, when that stands in front of INTO or nowhere, at the first WHERE, or else at the end.
   */
  function IntoAt(sql: string): Into {
    var u := Upper(sql);
    var ix, iy, iw := FirstText(u, " INTO "), FirstText(u, " FROM "), FirstText(u, " WHERE ");
    if !TextAt(u, 0, "SELECT ") || ix <= 0 then NoInto
    else Into(ix, if iy >= ix then iy else if iw >= ix then iw else |sql|)
  }

  lemma IntoHolds(sql: string)
    ensures Holds(IntoAt(sql), sql)
    ensures var i := IntoAt(sql);
      i.Into? ==> (
        && TextAt(Upper(sql), i.at, " INTO ")
        && (TextAt(Upper(sql), i.rest, " FROM ") || TextAt(Upper(sql), i.rest, " WHERE ") || i.rest == |sql|))
  {
    hide Upper;
    var i := IntoAt(sql);
    if i.Into? {
      BehindInto(Upper(sql), i.at, i.rest);
    }
  }

  /** Find the INTO list of a SELECT. */
  method ExtractInto(sql: string) returns (i: Into)
    ensures i == IntoAt(sql) && Holds(i, sql)
  {
    hide Upper, FirstText, Holds;
    IntoHolds(sql);
    var sqlu := Upper(sql);
    if !(|sqlu| >= 7 && sqlu[..7] == "SELECT ") {
      return NoInto;
    }
    var ix := FindText(sqlu, " INTO ");
    if ix <= 0 {
      return NoInto;
    }
    var iy := FindText(sqlu, " FROM ");
    if iy < ix {
      iy := FindText(sqlu, " WHERE ");
    }
    if iy < ix {
      iy := |sql|;
    }
    return Into(ix, iy);
  }

  lemma BehindInto(s: string, ix: nat, iy: nat)
    requires TextAt(s, ix, " INTO ") && ix <= iy
    requires TextAt(s, iy, " FROM ") || TextAt(s, iy, " WHERE ") || iy == |s|
    ensures ix + 5 <= iy
  {
    if iy < |s| {
      KeywordStarts(s, iy);
      if iy < ix + 5 {
        InsideInto(s, ix, iy - ix);
      }
    }
  }

  lemma KeywordStarts(s: string, i: nat)
    requires TextAt(s, i, " FROM ") || TextAt(s, i, " WHERE ")
    ensures i + 1 < |s| && s[i] == ' ' && s[i + 1] != 'I'
  {
    var n := if TextAt(s, i, " FROM ") then 6 else 7;
    assert s[i] == s[i..i + n][0] && s[i + 1] == s[i..i + n][1];
  }

  lemma InsideInto(s: string, i: nat, k: nat)
    requires TextAt(s, i, " INTO ") && k < 5
    ensures s[i + k] == ' ' ==> s[i + k + 1] == 'I'
  {
    assert s[i + k] == s[i..i + 6][k] && s[i + k + 1] == s[i..i + 6][k + 1];
  }

  /** Text with a delimiter behind it can be read on its own, host variables and all. */
  lemma {:induction false} TokensSplitAtDelim(a: string, b: string, inQ: bool)
    requires |b| > 0 && IsDelim(b[0])
    ensures Tokens(a + b, inQ) == Tokens(a, inQ) + Tokens(b, QuoteAfter(a, inQ))
    decreases |a|
  {
    hide Tokens, QuoteAfter, NameLength, IsDelim;
    if |a| == 0 {
      NothingRead(inQ);
      assert a + b == b && [] + Tokens(b, inQ) == Tokens(b, inQ);
    } else {
      var c, t := a[0], a[1..];
      assert a == [c] + t && a + b == [c] + (t + b);
      if !inQ && c == COLON {
        var n := NameLength(t);
        NameStopsAtDelim(t, b);
        assert (t + b)[..n] == t[..n] && (t + b)[n..] == t[n..] + b;
        TokensOfVar(t);
        TokensOfVar(t + b);
        NameHasNoQuote(t);
        QuoteStep(c, t, inQ);
        TokensSplitAtDelim(t[n..], b, false);
      } else {
        OtherToken(c, t, inQ);
        OtherToken(c, t + b, inQ);
        QuoteStep(c, t, inQ);
        TokensSplitAtDelim(t, b, if c == QUOTE then !inQ else inQ);
      }
    }
  }

  lemma NothingRead(inQ: bool)
    ensures Tokens("", inQ) == [] && QuoteAfter("", inQ) == inQ
  {
  }

  lemma QuoteStep(c: char, t: string, inQ: bool)
    ensures QuoteAfter([c] + t, inQ) == QuoteAfter(t, if c == QUOTE then !inQ else inQ)
  {
    assert ([c] + t)[1..] == t;
  }

  lemma {:induction false} NameStopsAtDelim(a: string, b: string)
    requires |b| > 0 && IsDelim(b[0])
    ensures NameLength(a + b) == NameLength(a)
  {
    if |a| == 0 {
      assert a + b == b;
    } else {
      assert (a + b)[1..] == a[1..] + b;
      if !IsDelim(a[0]) {
        NameStopsAtDelim(a[1..], b);
      }
    }
  }

  lemma NameHasNoQuote(a: string)
    ensures QuoteAfter(a, false) == QuoteAfter(a[NameLength(a)..], false)
  {
    var n := NameLength(a);
    NameKept(a[..n]);
    QuoteAfterConcat(a[..n], a[n..], false);
    assert a == a[..n] + a[n..];
  }

  /** The cells of the stored text: those of the list, then those of the query as it reads behind the list. */
  lemma StoredCells(list: string, query: string)
    ensures CountCells(Tokens(list + (" *" + query), false))
         == CountCells(Tokens(list, false)) + CountCells(Tokens(query, QuoteAfter(list, false)))
    ensures VarNames(Tokens(list + (" *" + query), false))
         == VarNames(Tokens(list, false)) + VarNames(Tokens(query, QuoteAfter(list, false)))
  {
    hide Tokens, CountCells, VarNames, QuoteAfter, NoColon;
    var q := QuoteAfter(list, false);
    TokensSplitAtDelim(list, " *" + query, false);
    GlueTokens(q);
    TokensSplit(" *", query, q);
    Around(Tokens(list, false), Tokens(" *", q), Tokens(query, q));
  }

  lemma Around(a: seq<Token>, b: seq<Token>, c: seq<Token>)
    requires CountCells(b) == 0 && VarNames(b) == []
    ensures CountCells(a + (b + c)) == CountCells(a) + CountCells(c)
    ensures VarNames(a + (b + c)) == VarNames(a) + VarNames(c)
  {
    hide CountCells, VarNames;
    MarkedConcat(a, b + c);
    MarkedConcat(b, c);
    VarNamesConcat(a, b + c);
    VarNamesConcat(b, c);
  }

  lemma GlueTokens(q: bool)
    ensures NoColon(" *", q) && QuoteAfter(" *", q) == q
    ensures CountCells(Tokens(" *", q)) == 0 && VarNames(Tokens(" *", q)) == []
  {
    assert " *"[1..] == "*" && "*"[1..] == "";
    assert Tokens("*", q) == if q then [Quoted('*')] else [Plain('*')];
    assert Tokens(" *", q) == if q then [Quoted(' '), Quoted('*')] else [Plain(' '), Plain('*')];
    NoColonNoVar(" *", q);
    CellsOfTokens(Tokens(" *", q));
  }

  lemma {:induction false} VarNamesConcat(s: seq<Token>, t: seq<Token>)
    ensures VarNames(s + t) == VarNames(s) + VarNames(t)
  {
    if |s| == 0 {
      assert s + t == t;
    } else {
      assert (s + t)[1..] == s[1..] + t;
      VarNamesConcat(s[1..], t);
    }
  }

  /** The cells a SELECT receives results in. */
  function IntoCells(sql: string, i: Into): nat
    requires Holds(i, sql)
  {
    if i.NoInto? then 0 else CountCells(Tokens(ListOf(sql, i), false))
  }

  /** Does the INTO list close every literal it opens? */
  predicate Closed(sql: string, i: Into)
    requires Holds(i, sql)
  {
    i.Into? ==> !QuoteAfter(ListOf(sql, i), false)
  }

  /** The rows the table gets for a SELECT: those of its list, then those of the query as it reads behind it. */
  function SelectCells(sql: string, i: Into): seq<Cell>
    requires Holds(i, sql)
  {
    if i.NoInto? then AllCells(VarNames(Tokens(sql, false)))
    else
      AllCells(VarNames(Tokens(ListOf(sql, i), false)))
      + AllCells(VarNames(Tokens(QueryOf(sql, i), QuoteAfter(ListOf(sql, i), false))))
  }

  lemma StoredRows(sql: string, i: Into)
    requires Holds(i, sql)
    ensures SelectCells(sql, i) == AllCells(VarNames(Tokens(StoredOf(sql, i), false)))
    ensures |SelectCells(sql, i)| == CountCells(Tokens(StoredOf(sql, i), false))
  {
    hide CountCells, Tokens, QuoteAfter, VarNames, AllCells, ListOf;
    if i.Into? {
      var list, query := ListOf(sql, i), QueryOf(sql, i);
      StoredCells(list, query);
      AllCellsConcat(VarNames(Tokens(list, false)), VarNames(Tokens(query, QuoteAfter(list, false))));
    }
    CellsOfTokens(Tokens(StoredOf(sql, i), false));
  }

  /**
   SELECT ... INTO: SQL-COUNT exceeds SQL-PARMS by the cells of the INTO list, indicators counted, when
   the list closes its literals. When it does not, the table pass reads the rest of the statement inside
   out, and the difference is off by the host variables this hides or uncovers. Either way the rows fit the
   table reserved for the statement, unless FROM follows INTO at once.
   */
  method CompileSelect(text: string, sym: map<string, Holder>) returns (i: Into, sql: string, parms: nat, g: Generated)
    ensures i == IntoAt(text) && Holds(i, text)
    ensures sql == Marked(Tokens(QueryOf(text, i), false)) && parms == CountCells(Tokens(QueryOf(text, i), false))
    ensures g.Table? <==> AllDeclared(SelectCells(text, i), sym)
    ensures g.Table? ==> g.types == TypesOf(SelectCells(text, i), sym) && g.sqlCount == |g.types|
    ensures g.Table? && Closed(text, i) ==> g.sqlCount == IntoCells(text, i) + parms
    ensures g.Table? && !Closed(text, i) ==>
      g.sqlCount - parms - IntoCells(text, i)
      == CountCells(Tokens(QueryOf(text, i), true)) - CountCells(Tokens(QueryOf(text, i), false))
    ensures g.Table? ==> (parms <= g.sqlCount <==> EnoughRows(text, i))
    ensures g.Table? && (i.Into? ==> i.rest != i.at + 5) ==> g.sqlCount <= Colons(text)
  {
    hide Colons, CountCells, Tokens, QuoteAfter, VarNames, AllCells, Marked, AllDeclared, TypesOf, ListOf,
      SelectCells, IntoAt, EnoughRows;
    i := ExtractInto(text);
    sql, parms := Substitute(QueryOf(text, i));
    g := Generate(StoredOf(text, i), sym);
    StoredFits(text, i);
    StoredRows(text, i);
    EnoughRowsIff(text, i);
    if i.Into? {
      StoredCells(ListOf(text, i), QueryOf(text, i));
    }
  }

  /**
   Does the table of a SELECT get a row for every parameter that is counted? It does when the list closes its
   literals, and otherwise when the query read inside out, with the rows of the list, has as many as read plainly.
   */
  predicate EnoughRows(sql: string, i: Into)
    requires Holds(i, sql)
  {
    Closed(sql, i)
    || IntoCells(sql, i) + CountCells(Tokens(QueryOf(sql, i), true)) >= CountCells(Tokens(QueryOf(sql, i), false))
  }

  lemma EnoughRowsIff(sql: string, i: Into)
    requires Holds(i, sql)
    ensures CountCells(Tokens(QueryOf(sql, i), false)) <= |SelectCells(sql, i)| <==> EnoughRows(sql, i)
  {
    hide CountCells, Tokens, QuoteAfter, SelectCells, ListOf, QueryOf;
    StoredRows(sql, i);
    if i.Into? {
      StoredCells(ListOf(sql, i), QueryOf(sql, i));
    } else {
      AllOfIt(sql, i);
    }
  }

  lemma AllOfIt(sql: string, i: Into)
    requires i.NoInto?
    ensures Holds(i, sql) && QueryOf(sql, i) == StoredOf(sql, i) == sql
  {
  }

  lemma {:induction false} InsideOut(s: string)
    ensures QuoteAfter(s, true) == !QuoteAfter(s, false)
  {
    if |s| > 0 {
      InsideOut(s[1..]);
    }
  }

  /**
   The list closes its literals if and only if INTO and the word behind the list stand both outside literals,
   or both inside.
   */
  lemma ClosedIff(sql: string)
    ensures var i := IntoAt(sql);
      && Holds(i, sql)
      && (i.Into? && i.rest != i.at + 5 ==>
          (Closed(sql, i) <==> QuoteAfter(sql[..i.at], false) == QuoteAfter(sql[..i.rest], false)))
  {
    hide QuoteAfter, Upper;
    var i := IntoAt(sql);
    IntoHolds(sql);
    if i.Into? && i.rest != i.at + 5 {
      var front, into, list := sql[..i.at], sql[i.at..i.at + 6], ListOf(sql, i);
      assert sql[..i.rest] == front + (into + list);
      IntoUnquoted(sql, i.at, QuoteAfter(front, false));
      QuoteAfterConcat(front, into + list, false);
      QuoteAfterConcat(into, list, QuoteAfter(front, false));
      InsideOut(list);
    }
  }

  lemma IntoUnquoted(sql: string, at: nat, q: bool)
    requires TextAt(Upper(sql), at, " INTO ")
    ensures QuoteAfter(sql[at..at + 6], q) == q
  {
    hide QuoteAfter;
    var into := sql[at..at + 6];
    forall k | 0 <= k < 6 ensures into[k] != QUOTE && into[k] != COLON {
      assert UpperChar(sql[at + k]) == Upper(sql)[at..at + 6][k];
    }
    PlainText(into, q);
  }

  /** The stored text of a statement has no more rows than the statement has colons. */
  lemma StoredFits(sql: string, i: Into)
    requires Holds(i, sql)
    ensures (i.Into? ==> i.rest != i.at + 5) ==> CountCells(Tokens(StoredOf(sql, i), false)) <= Colons(sql)
  {
    hide Colons, CountCells, Tokens, QuoteAfter;
    if i.NoInto? {
      RowsHaveColons(sql, false);
    } else if i.rest != i.at + 5 {
      var front, into, list, rest := sql[..i.at], sql[i.at..i.at + 6], ListOf(sql, i), sql[i.rest..];
      StoredCells(list, front + rest);
      RowsHaveColons(list, false);
      RowsHaveColons(front + rest, QuoteAfter(list, false));
      FourParts(sql, i.at, i.at + 6, i.rest);
      ColonsOfParts(front, into, list, rest);
    }
  }

  lemma FourParts(s: string, a: nat, b: nat, c: nat)
    requires a <= b <= c <= |s|
    ensures s == s[..a] + (s[a..b] + (s[b..c] + s[c..]))
  {
  }

  lemma ColonsOfParts(front: string, into: string, list: string, rest: string)
    ensures Colons(front + (into + (list + rest))) == Colons(list) + Colons(front + rest) + Colons(into)
  {
    hide Colons;
    ColonsConcat(front, into + (list + rest));
    ColonsConcat(into, list + rest);
    ColonsConcat(list, rest);
    ColonsConcat(front, rest);
  }

  /**
   With FROM or WHERE right behind INTO the rest of the statement is taken for the list and kept as well: its
   host variables get their rows twice. The rows fit what is reserved, two rows or one for each colon, if and
   only if there are two at most, or the query has as many colons without a row as the list has rows. The
   text that is stored is longer than the statement it is copied over.
   */
  lemma ListTakenTwice(sql: string)
    requires IntoAt(sql).Into? && IntoAt(sql).rest == IntoAt(sql).at + 5
    ensures Holds(IntoAt(sql), sql)
    ensures var i := IntoAt(sql);
      var list, query := ListOf(sql, i), QueryOf(sql, i);
      var q := QuoteAfter(list, false);
      var rows := |SelectCells(sql, i)|;
      && query == sql[..i.at] + (" " + list)
      && rows == CountCells(Tokens(list, false)) + CountCells(Tokens(query, q))
      && (rows <= (if Colons(sql) > 2 then Colons(sql) else 2)
          <==> rows <= 2 || CountCells(Tokens(list, false)) <= Idle(Tokens(query, q)))
  {
    hide CountCells, Tokens, QuoteAfter, Idle, Colons, SelectCells, IntoAt;
    var i := IntoAt(sql);
    QueryTaken(sql);
    var list, query := ListOf(sql, i), QueryOf(sql, i);
    StoredRows(sql, i);
    StoredCells(list, query);
    RowsAndIdle(query, QuoteAfter(list, false));
  }

  lemma QueryTaken(sql: string)
    requires IntoAt(sql).Into? && IntoAt(sql).rest == IntoAt(sql).at + 5
    ensures Holds(IntoAt(sql), sql)
    ensures var i := IntoAt(sql);
      && QueryOf(sql, i) == sql[..i.at] + (" " + ListOf(sql, i))
      && Colons(QueryOf(sql, i)) == Colons(sql)
  {
    hide Colons, Upper;
    IntoHolds(sql);
    var i := IntoAt(sql);
    var front, into, list := sql[..i.at], sql[i.at..i.at + 6], ListOf(sql, i);
    IntoEnds(sql, i.at);
    assert sql[i.rest..] == " " + list;
    ThreeParts(sql, i.at, i.at + 6);
    IntoHasNoColon(sql, i.at);
    BlankForInto(front, into, list);
  }

  lemma BlankForInto(front: string, into: string, list: string)
    requires Colons(into) == 0
    ensures Colons(front + (" " + list)) == Colons(front + (into + list))
  {
    hide Colons;
    BlankHasNoColon();
    ColonsConcat(front, into + list);
    ColonsConcat(into, list);
    ColonsConcat(front, " " + list);
    ColonsConcat(" ", list);
  }

  lemma ThreeParts(s: string, a: nat, b: nat)
    requires a <= b <= |s|
    ensures s == s[..a] + (s[a..b] + s[b..])
  {
  }

  lemma IntoEnds(sql: string, at: nat)
    requires TextAt(Upper(sql), at, " INTO ")
    ensures sql[at + 5] == ' '
  {
    assert Upper(sql)[at + 5] == Upper(sql)[at..at + 6][5];
  }

  lemma IntoHasNoColon(sql: string, at: nat)
    requires TextAt(Upper(sql), at, " INTO ")
    ensures Colons(sql[at..at + 6]) == 0
  {
    hide Colons;
    var into := sql[at..at + 6];
    forall k | 0 <= k < 6 ensures into[k] != COLON {
      assert UpperChar(sql[at + k]) == Upper(sql)[at..at + 6][k];
    }
    NoColonsIn(into);
  }

  lemma {:induction false} NoColonsIn(s: string)
    requires COLON !in s
    ensures Colons(s) == 0
  {
    if |s| > 0 {
      NoColonsIn(s[1..]);
    }
  }

  lemma BlankHasNoColon()
    ensures Colons(" ") == 0
  {
  }

  /** How long the text is that is stored over the statement: shorter by four, or else always longer. */
  lemma StoredLength(sql: string)
    requires IntoAt(sql).Into?
    ensures Holds(IntoAt(sql), sql)
    ensures var i := IntoAt(sql);
      var stored := |StoredOf(sql, i)|;
      if i.rest == i.at + 5 then stored == |sql| + |ListOf(sql, i)| - 3 > |sql| else stored == |sql| - 4
  {
    IntoHolds(sql);
  }

  /** One statement whose rows do not fit: SELECT A INTO FROM T WHERE K=:X AND L=:Y has four, with room for two. */
  lemma RowsOverflow()
    ensures var s := "SELECT A" + (" INTO " + ("FROM T WHERE K=" + (OneVar('X') + (" AND L=" + OneVar('Y')))));
      && IntoAt(s) == Into(8, 13) && Colons(s) == 2
      && Holds(IntoAt(s), s) && |SelectCells(s, IntoAt(s))| == 4
  {
    hide Tokens, CountCells, QuoteAfter, Colons, SelectCells, IntoAt, Idle, OneVar;
    var list := "FROM T WHERE K=" + (OneVar('X') + (" AND L=" + OneVar('Y')));
    var s := "SELECT A" + (" INTO " + list);
    OverflowInto(s);
    ListTakenTwice(s);
    assert ListOf(s, Into(8, 13)) == list;
    TwoVars("FROM T WHERE K=", 'X', " AND L=", 'Y');
    BehindPlainText("SELECT A", " " + list, false);
    BehindPlainText(" ", list, false);
    ColonsConcat("SELECT A", " INTO " + list);
    ColonsConcat(" INTO ", list);
    NoColonsIn("SELECT A");
    NoColonsIn(" INTO ");
  }

  lemma OverflowInto(s: string)
    requires s == "SELECT A" + (" INTO " + ("FROM T WHERE K=" + (OneVar('X') + (" AND L=" + OneVar('Y')))))
    ensures IntoAt(s) == Into(8, 13)
  {
    hide FirstText, OneVar, Upper;
    var u := Upper(s);
    OverflowUpper(s);
    assert u[..19] == "SELECT A INTO FROM ";
    forall i | 0 <= i < 8 ensures !TextAt(u, i, " INTO ") {
      NotAt(u, i, " INTO ");
    }
    forall i | 0 <= i < 13 ensures !TextAt(u, i, " FROM ") {
      NotAt(u, i, " FROM ");
    }
    FirstTextIs(u, " INTO ", 8);
    FirstTextIs(u, " FROM ", 13);
  }

  lemma OverflowUpper(s: string)
    requires |s| >= 19 && s[..19] == "SELECT A INTO FROM "
    ensures TextAt(Upper(s), 0, "SELECT ") && TextAt(Upper(s), 8, " INTO ") && TextAt(Upper(s), 13, " FROM ")
    ensures "SELECT A INTO FROM " <= Upper(s)
  {
    var t := "SELECT A INTO FROM ";
    CapitalsStay(s, t);
    assert t[0..7] == "SELECT ";
    assert t[8..14] == " INTO ";
    assert t[13..19] == " FROM ";
  }

  /** Plain text with two host variables in it. */
  lemma TwoVars(a: string, x: char, b: string, y: char)
    requires COLON !in a && QUOTE !in a && COLON !in b && QUOTE !in b
    requires |b| > 0 && IsDelim(b[0]) && !IsDelim(x) && !IsDelim(y) && x != COLON && y != COLON
    ensures var s := a + (OneVar(x) + (b + OneVar(y)));
      CountCells(Tokens(s, false)) == 2 && Colons(s) == 2 && !QuoteAfter(s, false)
  {
    hide Tokens, CountCells, QuoteAfter, Colons, OneVar;
    var more := b + OneVar(y);
    CellsOfOne(x);
    CellsOfOne(y);
    BehindPlainText(a, OneVar(x) + more, false);
    assert more[0] == b[0];
    CellsSplit(OneVar(x), more, false);
    QuoteAfterConcat(OneVar(x), more, false);
    BehindPlainText(b, OneVar(y), false);
    ColonsConcat(a, OneVar(x) + more);
    ColonsConcat(OneVar(x), more);
    ColonsConcat(b, OneVar(y));
    NoColonsIn(a);
    NoColonsIn(b);
  }

  /** A host variable with a name of one letter. */
  function OneVar(c: char): string {
    [COLON] + [c]
  }

  lemma FirstTextIs(s: string, p: string, x: nat)
    requires TextAt(s, x, p) && |p| > 0 && forall i :: 0 <= i < x ==> !TextAt(s, i, p)
    ensures FirstText(s, p) == x
  {
  }

  /** A place with another first or second letter. */
  lemma NotAt(s: string, i: nat, p: string)
    requires |p| >= 2 && (i + 1 >= |s| || s[i] != p[0] || s[i + 1] != p[1])
    ensures !TextAt(s, i, p)
  {
    assert i + |p| <= |s| ==> s[i..i + |p|][0] == s[i] && s[i..i + |p|][1] == s[i + 1];
  }

  lemma {:induction false} AllCellsConcat(a: seq<string>, b: seq<string>)
    ensures AllCells(a + b) == AllCells(a) + AllCells(b)
  {
    if |a| == 0 {
      assert a + b == b;
    } else {
      assert (a + b)[1..] == a[1..] + b;
      AllCellsConcat(a[1..], b);
    }
  }

  lemma {:induction false} PlainText(a: string, q: bool)
    requires COLON !in a && QUOTE !in a
    ensures NoColon(a, q) && QuoteAfter(a, q) == q
    decreases |a|
  {
    if |a| > 0 {
      PlainText(a[1..], q);
    }
  }

  lemma BehindPlainText(a: string, b: string, q: bool)
    requires COLON !in a && QUOTE !in a
    ensures CountCells(Tokens(a + b, q)) == CountCells(Tokens(b, q)) && QuoteAfter(a + b, q) == QuoteAfter(b, q)
  {
    hide Tokens, CountCells, QuoteAfter;
    PlainText(a, q);
    TokensSplit(a, b, q);
    NoColonNoVar(a, q);
    MarkedConcat(Tokens(a, q), Tokens(b, q));
    QuoteAfterConcat(a, b, q);
  }

  /**
   A list that does not close its literals: the markers are made of what is behind the list as it reads in front
   of INTO, the rows of both parts of the query the other way round.
   */
  lemma ReadInsideOut(sql: string)
    requires IntoAt(sql).Into? && Holds(IntoAt(sql), sql) && !Closed(sql, IntoAt(sql))
    ensures var i := IntoAt(sql);
      var front, rest := sql[..i.at], sql[i.rest..];
      var inQ := QuoteAfter(front, false);
      && CountCells(Tokens(QueryOf(sql, i), false)) == CountCells(Tokens(front, false)) + CountCells(Tokens(rest, inQ))
      && |SelectCells(sql, i)|
         == IntoCells(sql, i) + CountCells(Tokens(front, true)) + CountCells(Tokens(rest, !inQ))
  {
    hide CountCells, Tokens, QuoteAfter, SelectCells, Upper, VarNames, AllCells, IntoAt;
    var i := IntoAt(sql);
    var front, rest := sql[..i.at], sql[i.rest..];
    StoredRows(sql, i);
    StoredCells(ListOf(sql, i), QueryOf(sql, i));
    InsideOut(front);
    RestStarts(sql);
    CellsSplit(front, rest, false);
    CellsSplit(front, rest, true);
  }

  /**
   An INTO that stands inside a literal, with the word behind the list outside: the list begins with the rest
   of the literal and does not close it. What is behind the list is read as literal when the markers are made,
   and as text when the rows are, what is in front of INTO the other way round.
   */
  lemma IntoInsideLiteral(sql: string)
    requires IntoAt(sql).Into? && IntoAt(sql).rest != IntoAt(sql).at + 5
    requires QuoteAfter(sql[..IntoAt(sql).at], false) && !QuoteAfter(sql[..IntoAt(sql).rest], false)
    ensures Holds(IntoAt(sql), sql)
    ensures var i := IntoAt(sql);
      var front, rest := sql[..i.at], sql[i.rest..];
      && !Closed(sql, i)
      && CountCells(Tokens(QueryOf(sql, i), false)) == CountCells(Tokens(front, false)) + CountCells(Tokens(rest, true))
      && |SelectCells(sql, i)|
         == IntoCells(sql, i) + CountCells(Tokens(front, true)) + CountCells(Tokens(rest, false))
      && (QUOTE !in rest ==> CountCells(Tokens(rest, true)) == 0)
  {
    hide CountCells, Tokens, QuoteAfter, SelectCells, IntoAt, QueryOf, IntoCells;
    ClosedIff(sql);
    ReadInsideOut(sql);
    if QUOTE !in sql[IntoAt(sql).rest..] {
      QuotedRest(sql[IntoAt(sql).rest..]);
    }
  }

  lemma RestStarts(sql: string)
    requires IntoAt(sql).Into?
    ensures Holds(IntoAt(sql), sql)
    ensures IntoAt(sql).rest == |sql| || sql[IntoAt(sql).rest] == ' '
  {
    IntoHolds(sql);
    var u, i := Upper(sql), IntoAt(sql).rest;
    if i < |sql| {
      KeywordStarts(u, i);
    }
  }

  lemma CellsSplit(a: string, b: string, q: bool)
    requires |b| > 0 ==> IsDelim(b[0])
    ensures CountCells(Tokens(a + b, q)) == CountCells(Tokens(a, q)) + CountCells(Tokens(b, QuoteAfter(a, q)))
  {
    hide CountCells, Tokens, QuoteAfter;
    if |b| == 0 {
      assert a + b == a;
      NoCellsInNothing(QuoteAfter(a, q));
    } else {
      TokensSplitAtDelim(a, b, q);
      MarkedConcat(Tokens(a, q), Tokens(b, QuoteAfter(a, q)));
    }
  }

  lemma NoCellsInNothing(q: bool)
    ensures CountCells(Tokens("", q)) == 0 && QuoteAfter("", q) == q
  {
  }

  lemma {:induction false} QuotedRest(s: string)
    requires QUOTE !in s
    ensures CountCells(Tokens(s, true)) == 0
    decreases |s|
  {
    if |s| > 0 {
      QuotedRest(s[1..]);
      assert ([Quoted(s[0])] + Tokens(s[1..], true))[1..] == Tokens(s[1..], true);
    }
  }

  lemma BehindQuote(t: string, q: bool)
    ensures CountCells(Tokens([QUOTE] + t, q)) == CountCells(Tokens(t, !q))
    ensures QuoteAfter([QUOTE] + t, q) == QuoteAfter(t, !q)
  {
    assert ([QUOTE] + t)[1..] == t;
    var ts := Tokens(t, !q);
    assert ([Quoted(QUOTE)] + ts)[1..] == ts;
  }

  /** One such statement: SELECT 'A INTO B' FROM T WHERE K=:X has no marker and a table of one row. */
  lemma IntoInsideLiteralExample()
    ensures var s := ("SELECT " + ([QUOTE] + "A"))
      + (" INTO " + (("B" + [QUOTE]) + (" FROM T WHERE K=" + OneVar('X'))));
      var i := IntoAt(s);
      && i == Into(9, 17) && Holds(i, s)
      && IntoCells(s, i) == 0 && CountCells(Tokens(QueryOf(s, i), false)) == 0 && |SelectCells(s, i)| == 1
  {
    hide Tokens, CountCells, QuoteAfter, SelectCells, IntoAt, Holds, ListOf, QueryOf, OneVar;
    var front, list, rest := "SELECT " + ([QUOTE] + "A"), "B" + [QUOTE], " FROM T WHERE K=" + OneVar('X');
    LiteralInto(front + (" INTO " + (list + rest)));
    HalfLiteral("SELECT ", "A", false);
    HalfLiteral("SELECT ", "A", true);
    assert list == "B" + ([QUOTE] + "");
    HalfLiteral("B", "", false);
    HalfLiteral("B", "", true);
    BehindPlainText(" FROM T WHERE K=", OneVar('X'), false);
    CellsOfOne('X');
    NoQuoteInRest();
    CutInTwo(front, list, rest);
  }

  lemma NoQuoteInRest()
    ensures QUOTE !in " FROM T WHERE K=" + OneVar('X')
  {
  }

  lemma FourSlices(a: string, b: string, c: string, d: string)
    ensures var s := a + (b + (c + d));
      && s[..|a|] == a && s[|a| + |b|..|a| + |b| + |c|] == c && s[|a| + |b| + |c|..] == d
      && s[..|a| + |b| + |c|] == a + (b + c)
  {
  }

  lemma CutInTwo(front: string, list: string, rest: string)
    requires var s := front + (" INTO " + (list + rest));
      IntoAt(s) == Into(|front|, |front| + 6 + |list|)
    requires |list| > 0 && QuoteAfter(front, false) && !QuoteAfter(list, true)
    ensures var s := front + (" INTO " + (list + rest));
      && Holds(IntoAt(s), s) && IntoCells(s, IntoAt(s)) == CountCells(Tokens(list, false))
      && CountCells(Tokens(QueryOf(s, IntoAt(s)), false))
         == CountCells(Tokens(front, false)) + CountCells(Tokens(rest, true))
      && |SelectCells(s, IntoAt(s))|
         == CountCells(Tokens(list, false)) + CountCells(Tokens(front, true)) + CountCells(Tokens(rest, false))
      && (QUOTE !in rest ==> CountCells(Tokens(rest, true)) == 0)
  {
    hide Tokens, CountCells, QuoteAfter, SelectCells, IntoAt;
    var s, n := front + (" INTO " + (list + rest)), |front| + 6 + |list|;
    FourSlices(front, " INTO ", list, rest);
    QuoteAfterConcat(front, " INTO " + list, false);
    PlainText(" INTO ", true);
    QuoteAfterConcat(" INTO ", list, true);
    IntoInsideLiteral(s);
  }

  lemma LiteralInto(s: string)
    requires s == ("SELECT " + ([QUOTE] + "A")) + (" INTO " + (("B" + [QUOTE]) + (" FROM T WHERE K=" + OneVar('X'))))
    ensures IntoAt(s) == Into(9, 17)
  {
    hide FirstText, OneVar, Upper;
    var u := Upper(s);
    LiteralUpper(s);
    assert u[..23] == "SELECT 'A INTO B' FROM ";
    forall i | 0 <= i < 9 ensures !TextAt(u, i, " INTO ") {
      NotAt(u, i, " INTO ");
    }
    forall i | 0 <= i < 17 ensures !TextAt(u, i, " FROM ") {
      NotAt(u, i, " FROM ");
    }
    FirstTextIs(u, " INTO ", 9);
    FirstTextIs(u, " FROM ", 17);
  }

  lemma LiteralUpper(s: string)
    requires |s| >= 23 && s[..23] == "SELECT 'A INTO B' FROM "
    ensures TextAt(Upper(s), 0, "SELECT ") && TextAt(Upper(s), 9, " INTO ") && TextAt(Upper(s), 17, " FROM ")
    ensures "SELECT 'A INTO B' FROM " <= Upper(s)
  {
    var t := "SELECT 'A INTO B' FROM ";
    CapitalsStay(s, t);
    assert t[0..7] == "SELECT ";
    assert t[9..15] == " INTO ";
    assert t[17..23] == " FROM ";
  }

  lemma CapitalsStay(s: string, t: string)
    requires t <= s && forall i :: 0 <= i < |t| ==> UpperChar(t[i]) == t[i]
    ensures t <= Upper(s) && forall a, b :: 0 <= a <= b <= |t| ==> Upper(s)[a..b] == t[a..b]
  {
    assert forall i :: 0 <= i < |t| ==> Upper(s)[i] == UpperChar(s[i]) == UpperChar(t[i]);
  }

  /** A literal that is opened and not closed, and one that is closed and was not opened. */
  lemma HalfLiteral(a: string, b: string, q: bool)
    requires COLON !in a + b && QUOTE !in a + b
    ensures var s := a + ([QUOTE] + b);
      QuoteAfter(s, q) == !q && CountCells(Tokens(s, q)) == 0
  {
    hide Tokens, CountCells, QuoteAfter;
    BehindPlainText(a, [QUOTE] + b, q);
    BehindQuote(b, q);
    assert b + "" == b;
    BehindPlainText(b, "", !q);
    NoCellsInNothing(!q);
  }

  lemma CellsOfOne(c: char)
    requires !IsDelim(c) && c != COLON
    ensures CountCells(Tokens(OneVar(c), false)) == 1 && Colons(OneVar(c)) == 1 && !QuoteAfter(OneVar(c), false)
  {
    assert OneVar(c)[1..] == [c] && [c][1..] == "";
    assert Colons([c]) == 0 && !QuoteAfter([c], false);
    assert NameLength([c]) == 1;
    assert OneVar(c)[2..] == "" && OneVar(c)[1..2] == [c];
    assert Tokens(OneVar(c), false) == [Var([c])];
    assert IndexOf([c], COLON) == -1;
  }
}
