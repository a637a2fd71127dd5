/**
 Where host variables end, and what becomes of the text around them, with the delimiters written out as one text.
 */
module EsqlVariables {
  import opened Texts
  import opened EsqlMarkers
  import opened EsqlPasses

  const SMALL := "abcdefghijklmnopqrstuvwxyz"
  const CAPITAL := "ABCDEFGHIJKLMNOPQRSTUVWXYZ"

  /** The 26 small letters become capitals, and nothing else changes. */
  lemma CapitalsAre(c: char)
    ensures forall i :: 0 <= i < 26 && SMALL[i] == c ==> UpperChar(c) == CAPITAL[i]
    ensures c !in SMALL ==> UpperChar(c) == c
  {
    assert |SMALL| == |CAPITAL| == 26;
    if 'a' <= c <= 'z' {
      assert SMALL[c as int - 97] == c;
    }
  }

  /** A name as it can stand behind a colon, with the indicator's behind a second one. */
  predicate IsName(name: string) {
    forall i :: 0 <= i < |name| ==> name[i] !in DELIMITERS
  }

  /** Text that holds neither a colon nor the mark that opens a literal. */
  predicate IsPlain(text: string) {
    ':' !in text && '\'' !in text
  }

  /** The parameters a variable takes. */
  function Parameters(name: string): nat {
    if ':' in name && name[0] != ':' then 2 else 1
  }

  lemma CellsAre(name: string)
    ensures Cells(name) == Parameters(name)
  {
    var x := IndexOf(name, COLON);
    if x > 0 {
      assert name[0] == name[..x][0];
    }
  }

  lemma {:induction false} SecondColon(host: string, indicator: string)
    requires ':' !in host
    ensures IndexOf(host, COLON) == -1 && IndexOf(host + (":" + indicator), COLON) == |host|
  {
    if |host| == 0 {
      assert host + (":" + indicator) == ":" + indicator;
    } else {
      assert (host + (":" + indicator))[1..] == host[1..] + (":" + indicator);
      SecondColon(host[1..], indicator);
    }
  }

  /** The rows of a variable: its host, and its indicator if a second colon stands behind it. */
  lemma RowsAre(host: string, indicator: string)
    requires |host| > 0 && ':' !in host
    ensures NameCells(host) == [Host(host)]
    ensures NameCells(host + (":" + indicator)) == [Host(host), Indicator(indicator)]
  {
    hide IndexOf;
    SecondColon(host, indicator);
    var name := host + (":" + indicator);
    assert name[..|host|] == host && name[|host| + 1..] == indicator;
  }

  lemma NameEndsHere(name: string, rest: string)
    requires IsName(name) && (|rest| > 0 ==> rest[0] in DELIMITERS)
    ensures NameLength(name + rest) == |name|
  {
    hide IsDelim;
    forall i | 0 <= i < |name| ensures !IsDelim(name[i]) {
      DelimitersAre(name[i]);
    }
    if |rest| > 0 {
      DelimitersAre(rest[0]);
    }
    NameEnds(name, rest);
  }

  /**
   A variable behind plain text and in front of a delimiter, or at the end: it becomes a marker, the text in front
   stays, and what is behind is treated on its own.
   */
  lemma VariableReplaced(front: string, name: string, rest: string)
    requires IsPlain(front) && IsName(name) && (|rest| > 0 ==> rest[0] in DELIMITERS)
    ensures var text := front + (":" + (name + rest));
      && Marked(Tokens(text, false)) == front + ("?" + Marked(Tokens(rest, false)))
      && CountCells(Tokens(text, false)) == Parameters(name) + CountCells(Tokens(rest, false))
      && VarNames(Tokens(text, false)) == [Upper(name)] + VarNames(Tokens(rest, false))
  {
    hide Tokens, Marked, CountCells, VarNames, NameLength, NoColon, QuoteAfter, Cells;
    var a, b := Tokens(front, false), Tokens(rest, false);
    PlainText(front, false);
    NoColonNoVar(front, false);
    CellsOfTokens(a);
    NameEndsHere(name, rest);
    TokensOfVarBehind(front, name + rest);
    assert (name + rest)[..|name|] == name && (name + rest)[|name|..] == rest;
    MarkedConcat(a, [Var(name)] + b);
    VarNamesConcat(a, [Var(name)] + b);
    VarNamesOfVar(name, b);
    MarkerOfVar(name, b);
    CellsAre(name);
  }

  lemma MarkerOfVar(name: string, ts: seq<Token>)
    ensures Marked([Var(name)] + ts) == "?" + Marked(ts)
    ensures CountCells([Var(name)] + ts) == Cells(name) + CountCells(ts)
  {
    assert ([Var(name)] + ts)[1..] == ts;
  }

  /** Text without variables and literals stays. */
  lemma PlainStays(text: string)
    requires IsPlain(text)
    ensures Marked(Tokens(text, false)) == text && CountCells(Tokens(text, false)) == 0
    ensures VarNames(Tokens(text, false)) == []
  {
    hide Tokens, Marked, CountCells, VarNames, NoColon;
    PlainText(text, false);
    NoColonNoVar(text, false);
    CellsOfTokens(Tokens(text, false));
  }

  /** A literal stays as it is, whatever is in it. */
  lemma LiteralStays(front: string, literal: string, rest: string)
    requires IsPlain(front) && '\'' !in literal
    ensures var text := front + ("'" + (literal + ("'" + rest)));
      && Marked(Tokens(text, false)) == front + ("'" + (literal + ("'" + Marked(Tokens(rest, false)))))
      && CountCells(Tokens(text, false)) == CountCells(Tokens(rest, false))
      && VarNames(Tokens(text, false)) == VarNames(Tokens(rest, false))
  {
    hide Tokens, Marked, CountCells, VarNames, NoColon, QuoteAfter;
    var quoted := "'" + (literal + "'");
    var text := front + ("'" + (literal + ("'" + rest)));
    assert text == (front + quoted) + rest;
    PlainText(front, false);
    LiteralReads(literal);
    ColonsConcatenate(front, quoted, false);
    QuoteAfterConcat(front, quoted, false);
    TokensSplit(front + quoted, rest, false);
    NoColonNoVar(front + quoted, false);
    CellsOfTokens(Tokens(front + quoted, false));
    MarkedConcat(Tokens(front + quoted, false), Tokens(rest, false));
    VarNamesConcat(Tokens(front + quoted, false), Tokens(rest, false));
  }

  lemma LiteralReads(literal: string)
    requires '\'' !in literal
    ensures NoColon("'" + (literal + "'"), false) && !QuoteAfter("'" + (literal + "'"), false)
  {
    hide NoColon, QuoteAfter;
    InsideLiteral(literal);
    assert "'" + (literal + "'") == ["'"[0]] + (literal + "'");
    OpensLiteral(literal + "'");
  }

  lemma OpensLiteral(t: string)
    ensures NoColon(['\''] + t, false) == NoColon(t, true) && QuoteAfter(['\''] + t, false) == QuoteAfter(t, true)
  {
    assert (['\''] + t)[1..] == t;
  }

  lemma {:induction false} InsideLiteral(literal: string)
    requires '\'' !in literal
    ensures NoColon(literal + "'", true) && !QuoteAfter(literal + "'", true)
  {
    if |literal| == 0 {
      assert literal + "'" == "'" && "'"[1..] == "";
    } else {
      assert (literal + "'")[1..] == literal[1..] + "'";
      InsideLiteral(literal[1..]);
    }
  }

  lemma {:induction false} ColonsConcatenate(a: string, b: string, q: bool)
    requires NoColon(a, q) && NoColon(b, QuoteAfter(a, q))
    ensures NoColon(a + b, q)
    decreases |a|
  {
    if |a| == 0 {
      assert a + b == b;
    } else {
      assert (a + b)[1..] == a[1..] + b;
      ColonsConcatenate(a[1..], b, if a[0] == QUOTE then !q else q);
    }
  }

  /** INSERT INTO T VALUES (:A,:B:I) is sent as INSERT INTO T VALUES (?,?), with three parameters. */
  lemma InsertExample()
    ensures var text := "INSERT INTO T VALUES (:A,:B:I)";
      && Marked(Tokens(text, false)) == "INSERT INTO T VALUES (?,?)" && CountCells(Tokens(text, false)) == 3
      && AllCells(VarNames(Tokens(text, false))) == [Host("A"), Host("B"), Indicator("I")]
  {
    hide Tokens, Marked, CountCells, VarNames, NameCells, AllCells, Upper, Parameters;
    var text := "INSERT INTO T VALUES (:A,:B:I)";
    assert text == "INSERT INTO T VALUES (" + (":" + ("A" + ",:B:I)"));
    VariableReplaced("INSERT INTO T VALUES (", "A", ",:B:I)");
    assert ",:B:I)" == "," + (":" + ("B:I" + ")"));
    VariableReplaced(",", "B:I", ")");
    PlainStays(")");
    ExampleParameters();
    ExampleRows();
    assert ["A"] + (["B:I"] + []) == ["A", "B:I"];
  }

  lemma ExampleParameters()
    ensures Parameters("A") == 1 && Parameters("B:I") == 2
  {
    assert "B:I"[1] == ':';
  }

  lemma ExampleRows()
    ensures Upper("A") == "A" && Upper("B:I") == "B:I"
    ensures AllCells(["A", "B:I"]) == [Host("A"), Host("B"), Indicator("I")]
  {
    hide NameCells;
    RowsAre("A", "");
    RowsAre("B", "I");
    assert "B:I" == "B" + (":" + "I");
    assert ["A", "B:I"][1..] == ["B:I"] && ["B:I"][1..] == [];
  }
}
