/**
 Host variables in embedded SQL, and their replacement by parameter markers.

 A statement is a sequence of tokens: characters of single-quoted literals, host variables (a colon
 and everything up to a delimiter, an attached indicator included), and all other characters.
 `Substitute` is the precompiler's loop over the text and a copy of it with the literals blanked out;
 it is proved to replace exactly the host variables of the token view.
 */
module EsqlMarkers {
  import opened Texts

  const QUOTE := APOSTROPHE
  const COLON := ':'
  const MARKER := '?'

  // ---------- the text ----------

  /** The characters that end the name of a host variable. */
  const DELIMITERS := " ,)'\"<>!=;\t"

  predicate IsDelim(c: char) {
    c == ' ' || c == ',' || c == ')' || IsQuote(c) || c == '<' || c == '>' || c == '!' || c == '='
    || c == ';' || c == '\t'
  }

  lemma DelimitersAre(c: char)
    ensures IsDelim(c) <==> c in DELIMITERS
  {
    assert forall i :: 0 <= i < |DELIMITERS| ==> IsDelim(DELIMITERS[i]);
    assert DELIMITERS[0] == ' ' && DELIMITERS[1] == ',' && DELIMITERS[2] == ')' && DELIMITERS[3] == APOSTROPHE;
    assert DELIMITERS[4] == QUOTATION_MARK && DELIMITERS[5] == '<' && DELIMITERS[6] == '>' && DELIMITERS[7] == '!';
    assert DELIMITERS[8] == '=' && DELIMITERS[9] == ';' && DELIMITERS[10] == '\t';
  }

  function UpperChar(c: char): char {
    if 'a' <= c <= 'z' then (c as int - 32) as char else c
  }

  function Upper(s: string): (u: string)
    ensures |u| == |s|
  {
    seq(|s|, i requires 0 <= i < |s| => UpperChar(s[i]))
  }

  /** Length of the text in front of the first delimiter. */
  function NameLength(s: string): (n: nat)
    ensures n <= |s|
    ensures n < |s| ==> IsDelim(s[n])
    ensures forall i :: 0 <= i < n ==> !IsDelim(s[i])
  {
    if |s| == 0 || IsDelim(s[0]) then 0
    else
      var n := NameLength(s[1..]);
      assert forall i :: 1 <= i < n + 1 ==> s[i] == s[1..][i - 1];
      n + 1
  }

  /** The end of the variable whose colon is at ix. */
  method IndexEndVar(sql: string, ix: int) returns (ie: int)
    requires 0 <= ix < |sql|
    ensures ie == ix + 1 + NameLength(sql[ix + 1..])
    ensures ix < ie <= |sql| && (ie < |sql| ==> sql[ie] in DELIMITERS)
    ensures forall k :: ix < k < ie ==> sql[k] !in DELIMITERS
  {
    hide IsDelim;
    ie := ix + 1;
    while ie < |sql|
      invariant ix + 1 <= ie <= |sql|
      invariant NameLength(sql[ix + 1..]) == ie - (ix + 1) + NameLength(sql[ie..])
      invariant forall k :: ix < k < ie ==> sql[k] !in DELIMITERS
    {
      DelimitersAre(sql[ie]);
      if IsDelim(sql[ie]) {
        return;
      }
      assert sql[ie..][1..] == sql[ie + 1..];
      ie := ie + 1;
    }
  }

  // ---------- tokens ----------

  datatype Token = Plain(c: char) | Quoted(c: char) | Var(name: string)

  function Tokens(s: string, inQ: bool): seq<Token>
    decreases |s|
  {
    if |s| == 0 then []
    else if s[0] == QUOTE then [Quoted(QUOTE)] + Tokens(s[1..], !inQ)
    else if inQ then [Quoted(s[0])] + Tokens(s[1..], true)
    else if s[0] == COLON then
      var n := NameLength(s[1..]);
      [Var(s[1..n + 1])] + Tokens(s[n + 1..], false)
    else [Plain(s[0])] + Tokens(s[1..], false)
  }

  /** The text the tokens were read from. */
  function Source(ts: seq<Token>): string {
    if |ts| == 0 then ""
    else match ts[0]
      case Plain(c) => [c] + Source(ts[1..])
      case Quoted(c) => [c] + Source(ts[1..])
      case Var(name) => [COLON] + name + Source(ts[1..])
  }

  /** The text with a marker in place of every host variable. */
  function Marked(ts: seq<Token>): string {
    if |ts| == 0 then ""
    else match ts[0]
      case Plain(c) => [c] + Marked(ts[1..])
      case Quoted(c) => [c] + Marked(ts[1..])
      case Var(_) => [MARKER] + Marked(ts[1..])
  }

  /** A variable takes one parameter cell, and another one for an indicator behind a second colon. */
  function Cells(name: string): nat {
    if IndexOf(name, COLON) > 0 then 2 else 1
  }

  function CountCells(ts: seq<Token>): nat {
    if |ts| == 0 then 0
    else (match ts[0] case Var(name) => Cells(name) case _ => 0) + CountCells(ts[1..])
  }

  function CountVars(ts: seq<Token>): nat {
    if |ts| == 0 then 0
    else (if ts[0].Var? then 1 else 0) + CountVars(ts[1..])
  }

  lemma OtherToken(c: char, t: string, inQ: bool)
    requires inQ || c != COLON
    ensures Tokens([c] + t, inQ)
         == [if c == QUOTE || inQ then Quoted(c) else Plain(c)] + Tokens(t, if c == QUOTE then !inQ else inQ)
  {
    assert ([c] + t)[1..] == t;
  }

  /** Reading tokens loses nothing. */
  lemma {:induction false} SourceOfTokens(s: string, inQ: bool)
    ensures Source(Tokens(s, inQ)) == s
    decreases |s|
  {
    hide Tokens, Source, NameLength;
    if |s| == 0 {
      NothingToRead(inQ);
    } else {
      var c, t := s[0], s[1..];
      assert s == [c] + t;
      if !inQ && c == COLON {
        SourceOfTokens(t[NameLength(t)..], false);
        SourceOfVar(t);
      } else {
        OtherToken(c, t, inQ);
        var q := if c == QUOTE then !inQ else inQ;
        SourceOfTokens(t, q);
        SourceNext(if c == QUOTE || inQ then Quoted(c) else Plain(c), Tokens(t, q));
      }
    }
  }

  lemma SourceOfVar(t: string)
    requires Source(Tokens(t[NameLength(t)..], false)) == t[NameLength(t)..]
    ensures Source(Tokens([COLON] + t, false)) == [COLON] + t
  {
    hide Tokens, Source, NameLength;
    var n := NameLength(t);
    TokensOfVar(t);
    SourceNext(Var(t[..n]), Tokens(t[n..], false));
    assert t == t[..n] + t[n..];
  }

  lemma NothingToRead(inQ: bool)
    ensures Tokens("", inQ) == [] && Source([]) == ""
  {
  }

  lemma SourceNext(t: Token, ts: seq<Token>)
    ensures Source([t] + ts)
         == (match t case Var(name) => [COLON] + name case Plain(c) => [c] case Quoted(c) => [c]) + Source(ts)
  {
    assert ([t] + ts)[1..] == ts;
  }

  /** Is the end of the text inside a literal? */
  function QuoteAfter(s: string, inQ: bool): bool
    decreases |s|
  {
    if |s| == 0 then inQ else QuoteAfter(s[1..], if s[0] == QUOTE then !inQ else inQ)
  }

  /** No colon outside literals. */
  predicate NoColon(s: string, inQ: bool)
    decreases |s|
  {
    |s| == 0 || ((inQ || s[0] != COLON) && NoColon(s[1..], if s[0] == QUOTE then !inQ else inQ))
  }

  /** Text without host variables can be read on its own. */
  lemma {:induction false} TokensSplit(a: string, b: string, inQ: bool)
    requires NoColon(a, inQ)
    ensures Tokens(a + b, inQ) == Tokens(a, inQ) + Tokens(b, QuoteAfter(a, inQ))
    decreases |a|
  {
    hide Tokens;
    if |a| == 0 {
      NothingToRead(inQ);
      assert a + b == b && [] + Tokens(b, inQ) == Tokens(b, inQ);
    } else {
      var c, t := a[0], a[1..];
      assert a == [c] + t && a + b == [c] + (t + b);
      OtherToken(c, t, inQ);
      OtherToken(c, t + b, inQ);
      TokensSplit(t, b, if c == QUOTE then !inQ else inQ);
    }
  }

  lemma {:induction false} NoColonNoVar(a: string, inQ: bool)
    requires NoColon(a, inQ)
    ensures CountCells(Tokens(a, inQ)) == 0 && CountVars(Tokens(a, inQ)) == 0 && Marked(Tokens(a, inQ)) == a
    decreases |a|
  {
    if |a| == 0 {
    } else {
      NoColonNoVar(a[1..], if a[0] == QUOTE then !inQ else inQ);
      assert a == [a[0]] + a[1..];
    }
  }

  lemma {:induction false} MarkedConcat(s: seq<Token>, t: seq<Token>)
    ensures Marked(s + t) == Marked(s) + Marked(t)
    ensures CountCells(s + t) == CountCells(s) + CountCells(t)
    ensures CountVars(s + t) == CountVars(s) + CountVars(t)
  {
    if |s| == 0 {
      assert s + t == t;
    } else {
      assert (s + t)[1..] == s[1..] + t;
      MarkedConcat(s[1..], t);
    }
  }

  // ---------- the blanked copy ----------

  /** The text with everything inside literals blanked out, the quotation marks kept. */
  function Blanked(s: string, inQ: bool): (r: string)
    ensures |r| == |s|
    decreases |s|
  {
    if |s| == 0 then ""
    else if s[0] == QUOTE then [QUOTE] + Blanked(s[1..], !inQ)
    else [if inQ then ' ' else s[0]] + Blanked(s[1..], inQ)
  }

  lemma {:induction false} BlankedConcat(a: string, b: string, inQ: bool)
    ensures Blanked(a + b, inQ) == Blanked(a, inQ) + Blanked(b, QuoteAfter(a, inQ))
    decreases |a|
  {
    if |a| == 0 {
      assert a + b == b;
    } else {
      assert (a + b)[1..] == a[1..] + b;
      BlankedConcat(a[1..], b, if a[0] == QUOTE then !inQ else inQ);
    }
  }

  /** A colon shows in the blanked copy exactly where the text has one outside literals. */
  lemma {:induction false} BlankedColon(s: string, inQ: bool)
    ensures NoColon(s, inQ) <==> COLON !in Blanked(s, inQ)
    decreases |s|
  {
    if |s| == 0 {
    } else {
      BlankedColon(s[1..], if s[0] == QUOTE then !inQ else inQ);
    }
  }

  /** The upper-cased copy of a statement with its literals blanked out. */
  function Shadow(s: string, inQ: bool): (t: string)
    ensures |t| == |s|
  {
    Blanked(Upper(s), inQ)
  }

  lemma UpperCharFacts(c: char)
    ensures UpperChar(c) == QUOTE <==> c == QUOTE
    ensures UpperChar(c) == COLON <==> c == COLON
    ensures IsDelim(UpperChar(c)) <==> IsDelim(c)
  {
  }

  lemma UpperConcat(a: string, b: string)
    ensures Upper(a + b) == Upper(a) + Upper(b)
  {
  }

  lemma {:induction false} UpperKeepsShape(s: string, inQ: bool)
    ensures QuoteAfter(Upper(s), inQ) == QuoteAfter(s, inQ)
    ensures NoColon(Upper(s), inQ) == NoColon(s, inQ)
    decreases |s|
  {
    if |s| == 0 {
    } else {
      UpperCharFacts(s[0]);
      assert Upper(s)[1..] == Upper(s[1..]);
      UpperKeepsShape(s[1..], if s[0] == QUOTE then !inQ else inQ);
    }
  }

  lemma {:induction false} UpperKeepsColons(s: string)
    ensures IndexOf(Upper(s), COLON) == IndexOf(s, COLON)
  {
    if |s| == 0 {
    } else {
      UpperCharFacts(s[0]);
      assert Upper(s)[1..] == Upper(s[1..]);
      UpperKeepsColons(s[1..]);
    }
  }

  lemma ShadowConcat(a: string, b: string, inQ: bool)
    ensures Shadow(a + b, inQ) == Shadow(a, inQ) + Shadow(b, QuoteAfter(a, inQ))
  {
    UpperConcat(a, b);
    BlankedConcat(Upper(a), Upper(b), inQ);
    UpperKeepsShape(a, inQ);
  }

  /** Names end in the copy where they end in the text, and read the same but for upper case. */
  lemma {:induction false} ShadowName(s: string)
    ensures NameLength(Shadow(s, false)) == NameLength(s)
    ensures var n := NameLength(s);
      Shadow(s[..n], false) == Upper(s[..n]) && QuoteAfter(s[..n], false) == false
    decreases |s|
  {
    var n := NameLength(s);
    if n == 0 {
      if |s| > 0 {
        UpperCharFacts(s[0]);
        assert Upper(s)[1..] == Upper(s[1..]);
      }
    } else {
      UpperCharFacts(s[0]);
      assert Upper(s)[1..] == Upper(s[1..]) && Upper(s[..n])[1..] == Upper(s[1..][..n - 1]);
      assert s[..n][1..] == s[1..][..n - 1];
      assert Shadow(s, false)[1..] == Shadow(s[1..], false);
      ShadowName(s[1..]);
    }
  }

  // ---------- substitution ----------

  /** What the loop finds at the first colon of the blanked copy. */
  lemma ColonFound(s: string, ix: int)
    requires ix == IndexOf(Shadow(s, false), COLON) && ix >= 0
    ensures NoColon(s[..ix], false) && QuoteAfter(s[..ix], false) == false && s[ix] == COLON
    ensures NameLength(Shadow(s, false)[ix + 1..]) == NameLength(s[ix + 1..])
  {
    var a, b := s[..ix], s[ix..];
    assert s == a + b;
    ShadowConcat(a, b, false);
    BlankedColon(Upper(a), false);
    UpperKeepsShape(a, false);
    assert Shadow(s, false)[..ix] == Shadow(a, false);
    assert Shadow(b, QuoteAfter(a, false))[0] == COLON;
    UpperCharFacts(b[0]);
    assert Upper(b)[1..] == Upper(b[1..]);
    assert Shadow(s, false)[ix + 1..] == Shadow(b, false)[1..] == Shadow(s[ix + 1..], false);
    ShadowName(s[ix + 1..]);
  }

  /** The text with the variable at ix replaced by a marker. */
  function Replaced(s: string, ix: nat, ib: nat): string
    requires ix <= ib <= |s|
  {
    s[..ix] + [MARKER] + s[ib..]
  }

  /** Replacing a variable keeps the text and its blanked copy aligned. */
  lemma ShadowReplaced(s: string, ix: nat, ib: nat)
    requires ix < |s| && s[ix] == COLON && QuoteAfter(s[..ix], false) == false
    requires ib == ix + 1 + NameLength(s[ix + 1..])
    ensures Replaced(Shadow(s, false), ix, ib) == Shadow(Replaced(s, ix, ib), false)
    ensures Shadow(s, false)[ix + 1..ib] == Upper(s[ix + 1..ib])
  {
    hide Shadow, Upper, QuoteAfter, NameLength;
    var a, name, rest := s[..ix], s[ix + 1..ib], s[ib..];
    assert s == a + ([COLON] + (name + rest));
    assert Replaced(s, ix, ib) == a + ([MARKER] + rest);
    ShadowName(s[ix + 1..]);
    assert s[ix + 1..][..NameLength(s[ix + 1..])] == name;
    ShadowConcat(name, rest, false);
    ShadowConcat([COLON], name + rest, false);
    ShadowConcat([MARKER], rest, false);
    ShadowConcat(a, [COLON] + (name + rest), false);
    ShadowConcat(a, [MARKER] + rest, false);
    SingleShadow();
    assert Shadow(s, false) == Shadow(a, false) + ([COLON] + (Upper(name) + Shadow(rest, false)));
  }

  lemma SingleShadow()
    ensures Shadow([COLON], false) == [COLON] && QuoteAfter([COLON], false) == false
    ensures Shadow([MARKER], false) == [MARKER] && QuoteAfter([MARKER], false) == false
  {
    assert Upper([COLON]) == [COLON] && Upper([MARKER]) == [MARKER];
    assert [COLON][1..] == "" && [MARKER][1..] == "";
  }

  /** Replacing a variable changes its token into a plain marker and no other token. */
  lemma TokensReplaced(s: string, ix: nat, ib: nat)
    requires ix < |s| && s[ix] == COLON && NoColon(s[..ix], false) && QuoteAfter(s[..ix], false) == false
    requires ib == ix + 1 + NameLength(s[ix + 1..])
    ensures var a, b := Tokens(s[..ix], false), Tokens(s[ib..], false);
      && Tokens(s, false) == a + ([Var(s[ix + 1..ib])] + b)
      && Tokens(Replaced(s, ix, ib), false) == a + ([Plain(MARKER)] + b)
  {
    hide Tokens, NoColon, QuoteAfter, NameLength;
    var front, t := s[..ix], s[ix + 1..];
    assert s == front + ([COLON] + t);
    assert t[..NameLength(t)] == s[ix + 1..ib] && t[NameLength(t)..] == s[ib..];
    TokensOfVarBehind(front, t);
    assert Replaced(s, ix, ib) == front + ([MARKER] + s[ib..]);
    TokensSplit(front, [MARKER] + s[ib..], false);
    TokensOfMarker(s[ib..]);
  }

  lemma TokensOfVarBehind(front: string, t: string)
    requires NoColon(front, false) && QuoteAfter(front, false) == false
    ensures Tokens(front + ([COLON] + t), false)
         == Tokens(front, false) + ([Var(t[..NameLength(t)])] + Tokens(t[NameLength(t)..], false))
  {
    hide Tokens, NoColon, QuoteAfter, NameLength;
    TokensSplit(front, [COLON] + t, false);
    TokensOfVar(t);
  }

  lemma TokensOfVar(t: string)
    ensures Tokens([COLON] + t, false) == [Var(t[..NameLength(t)])] + Tokens(t[NameLength(t)..], false)
  {
    hide NameLength;
    var s := [COLON] + t;
    assert s[1..] == t && s[1..NameLength(t) + 1] == t[..NameLength(t)] && s[NameLength(t) + 1..] == t[NameLength(t)..];
  }

  lemma TokensOfMarker(t: string)
    ensures Tokens([MARKER] + t, false) == [Plain(MARKER)] + Tokens(t, false)
  {
    assert ([MARKER] + t)[1..] == t;
  }

  lemma CountsReplaced(a: seq<Token>, name: string, b: seq<Token>)
    ensures Marked(a + ([Var(name)] + b)) == Marked(a + ([Plain(MARKER)] + b))
    ensures CountCells(a + ([Var(name)] + b)) == CountCells(a + ([Plain(MARKER)] + b)) + Cells(name)
    ensures CountVars(a + ([Var(name)] + b)) == CountVars(a + ([Plain(MARKER)] + b)) + 1
  {
    MarkedConcat(a, [Var(name)] + b);
    MarkedConcat(a, [Plain(MARKER)] + b);
    assert ([Var(name)] + b)[1..] == b && ([Plain(MARKER)] + b)[1..] == b;
  }

  /** Replace all host variables by markers, counting the parameter cells they need. */
  method Substitute(text: string) returns (sql: string, parmnum: nat)
    ensures sql == Marked(Tokens(text, false))
    ensures parmnum == CountCells(Tokens(text, false))
  {
    hide Tokens, Marked, CountCells, CountVars, Shadow, NoColon, QuoteAfter, Replaced, NameLength, Cells, IndexOf;
    sql := text;
    var sqlu := BlankedCopy(text);
    parmnum := 0;
    var ix := IndexOf(sqlu, COLON);
    while ix >= 0
      invariant sqlu == Shadow(sql, false) && ix == IndexOf(sqlu, COLON)
      invariant Marked(Tokens(sql, false)) == Marked(Tokens(text, false))
      invariant parmnum + CountCells(Tokens(sql, false)) == CountCells(Tokens(text, false))
      decreases CountVars(Tokens(sql, false))
    {
      var ib := IndexEndVar(sqlu, ix);
      ColonFound(sql, ix);
      TokensReplaced(sql, ix, ib);
      ShadowReplaced(sql, ix, ib);
      ghost var name := sql[ix + 1..ib];
      CountsReplaced(Tokens(sql[..ix], false), name, Tokens(sql[ib..], false));
      UpperKeepsColons(name);
      CellsOf(name);
      var varn := sqlu[ix + 1..ib];
      sql := Replaced(sql, ix, ib);
      sqlu := Replaced(sqlu, ix, ib);
      parmnum := parmnum + 1;
      if IndexOf(varn, COLON) > 0 {
        parmnum := parmnum + 1;
      }
      ix := IndexOf(sqlu, COLON);
    }
    NothingToReplace(sql);
  }

  lemma CellsOf(name: string)
    ensures Cells(name) == if IndexOf(name, COLON) > 0 then 2 else 1
  {
  }

  lemma NothingToReplace(s: string)
    requires IndexOf(Shadow(s, false), COLON) < 0
    ensures Marked(Tokens(s, false)) == s && CountCells(Tokens(s, false)) == 0
  {
    BlankedColon(Upper(s), false);
    UpperKeepsShape(s, false);
    NoColonNoVar(s, false);
  }

  /** The copy the loop searches: upper case, literals blanked character by character. */
  method BlankedCopy(text: string) returns (sqlu: string)
    ensures sqlu == Shadow(text, false)
  {
    hide Blanked, QuoteAfter;
    sqlu := Upper(text);
    ghost var u := sqlu;
    var bQ := false;
    NothingBlanked();
    assert u[..0] == "" && u[0..] == u;
    for k := 0 to |sqlu|
      invariant |sqlu| == |u| && bQ == QuoteAfter(u[..k], false)
      invariant sqlu == Blanked(u[..k], false) + u[k..]
    {
      BlankedNext(u, k);
      UpdateAt(Blanked(u[..k], false), u, k, ' ');
      if sqlu[k] == QUOTE {
        bQ := !bQ;
        continue;
      }
      if bQ {
        sqlu := sqlu[k := ' '];
      }
    }
    assert u[..|u|] == u;
  }

  lemma UpdateAt(front: string, u: string, k: nat, c: char)
    requires |front| == k < |u|
    ensures (front + u[k..])[k] == u[k]
    ensures (front + u[k..])[k := c] == front + [c] + u[k + 1..]
    ensures front + u[k..] == front + [u[k]] + u[k + 1..]
  {
  }

  lemma NothingBlanked()
    ensures Blanked("", false) == "" && QuoteAfter("", false) == false
  {
  }

  lemma BlankedNext(u: string, k: nat)
    requires k < |u|
    ensures var q := QuoteAfter(u[..k], false);
      && QuoteAfter(u[..k + 1], false) == (if u[k] == QUOTE then !q else q)
      && Blanked(u[..k + 1], false) == Blanked(u[..k], false) + [if u[k] != QUOTE && q then ' ' else u[k]]
  {
    assert u[..k + 1] == u[..k] + [u[k]];
    BlankedConcat(u[..k], [u[k]], false);
    QuoteAfterConcat(u[..k], [u[k]], false);
    assert [u[k]][1..] == "";
  }

  lemma {:induction false} QuoteAfterConcat(a: string, b: string, inQ: bool)
    ensures QuoteAfter(a + b, inQ) == QuoteAfter(b, QuoteAfter(a, inQ))
    decreases |a|
  {
    if |a| == 0 {
      assert a + b == b;
    } else {
      assert (a + b)[1..] == a[1..] + b;
      QuoteAfterConcat(a[1..], b, if a[0] == QUOTE then !inQ else inQ);
    }
  }

  // ---------- what is left ----------

  function Settled(ts: seq<Token>): seq<Token> {
    if |ts| == 0 then []
    else [if ts[0].Var? then Plain(MARKER) else ts[0]] + Settled(ts[1..])
  }

  /**
   Read again, the text with markers has the tokens it had before, markers in place of the variables:
   literals and all other text are as they were and in order, and no colon is left outside literals.
   */
  lemma {:induction false} MarkedReadsBack(s: string, inQ: bool)
    ensures Tokens(Marked(Tokens(s, inQ)), inQ) == Settled(Tokens(s, inQ))
    ensures NoColon(Marked(Tokens(s, inQ)), inQ)
    decreases |s|
  {
    if |s| == 0 {
    } else if s[0] == QUOTE {
      MarkedReadsBack(s[1..], !inQ);
    } else if inQ {
      MarkedReadsBack(s[1..], true);
    } else if s[0] == COLON {
      MarkedReadsBack(s[NameLength(s[1..]) + 1..], false);
    } else {
      MarkedReadsBack(s[1..], false);
    }
  }
}
