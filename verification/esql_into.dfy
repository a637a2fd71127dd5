/**
 What taking the INTO list out of a SELECT makes of the statement: what is sent to the database, and which
 statements count more parameters than their table has rows.
 */
module EsqlInto {
  import opened Texts
  import opened EsqlMarkers
  import opened EsqlPasses

  // ---------- which statements have a list ----------

  /** The word stands at place k of the statement, in capitals or small letters. */
  predicate StandsAt(sql: string, word: string, k: nat) {
    k <= |sql| && word <= Upper(sql)[k..]
  }

  lemma StandsIff(sql: string, word: string, k: nat)
    ensures TextAt(Upper(sql), k, word) <==> StandsAt(sql, word, k)
  {
    hide Upper;
    var u := Upper(sql);
    if k + |word| <= |u| {
      assert u[k..][..|word|] == u[k..k + |word|];
    }
  }

  /** The word stands at place n, and nowhere in front of it. */
  ghost predicate FirstStands(sql: string, word: string, n: nat) {
    StandsAt(sql, word, n) && forall k :: 0 <= k < n ==> !StandsAt(sql, word, k)
  }

  /** The word stands somewhere in front of place n, or nowhere at all. */
  ghost predicate FrontOrNowhere(sql: string, word: string, n: nat) {
    (exists k :: 0 <= k < n && StandsAt(sql, word, k)) || forall k :: 0 <= k <= |sql| ==> !StandsAt(sql, word, k)
  }

  lemma FirstFound(sql: string, word: string)
    requires |word| > 0
    ensures var x := FirstText(Upper(sql), word);
      && (x >= 0 ==> FirstStands(sql, word, x))
      && (x < 0 ==> forall k :: 0 <= k <= |sql| ==> !StandsAt(sql, word, k))
  {
    hide Upper, FirstText, StandsAt, TextAt;
    var u, x := Upper(sql), FirstText(Upper(sql), word);
    WordFound(u, word, 0);
    SearchedAll(u, word);
    forall k | 0 <= k <= |sql| ensures StandsAt(sql, word, k) <==> TextAt(u, k, word) {
      StandsIff(sql, word, k);
    }
    BehindTheEnd(u, word);
  }

  lemma SearchedAll(s: string, p: string)
    ensures var x := FirstText(s, p);
      && (x >= 0 ==> TextAt(s, x, p)) && forall k :: 0 <= k < (if x >= 0 then x else |s|) ==> !TextAt(s, k, p)
  {
  }

  lemma BehindTheEnd(s: string, p: string)
    requires |p| > 0
    ensures !TextAt(s, |s|, p)
  {
  }

  lemma FirstOfAll(sql: string, word: string, n: nat)
    requires |word| > 0 && FirstStands(sql, word, n)
    ensures FirstText(Upper(sql), word) == n
  {
    hide Upper, FirstText, StandsAt;
    FirstFound(sql, word);
    StandsInside(sql, word, n);
    SamePlace(sql, word, FirstText(Upper(sql), word), n);
  }

  lemma SamePlace(sql: string, word: string, x: int, n: nat)
    requires FirstStands(sql, word, n) && n <= |sql|
    requires x >= 0 ==> FirstStands(sql, word, x)
    requires x < 0 ==> forall k :: 0 <= k <= |sql| ==> !StandsAt(sql, word, k)
    ensures x == n
  {
    hide StandsAt;
  }

  lemma StandsInside(sql: string, word: string, k: nat)
    requires StandsAt(sql, word, k)
    ensures k <= |sql|
  {
  }

  lemma FoundInFront(sql: string, word: string, n: nat)
    requires |word| > 0 && FrontOrNowhere(sql, word, n)
    ensures FirstText(Upper(sql), word) < n
  {
    hide Upper, FirstText, StandsAt;
    FirstFound(sql, word);
    var x := FirstText(Upper(sql), word);
    if x >= 0 {
      StandsInside(sql, word, x);
    }
  }

  /** Of statements that do not begin with SELECT or hold no INTO, and of no others, nothing is taken out. */
  lemma NoListIff(sql: string)
    ensures IntoAt(sql).NoInto? <==>
      !StandsAt(sql, "SELECT ", 0) || forall k :: 0 <= k <= |sql| ==> !StandsAt(sql, " INTO ", k)
    ensures IntoAt(sql).NoInto? ==> QueryOf(sql, IntoAt(sql)) == StoredOf(sql, IntoAt(sql)) == sql
  {
    hide FirstText, Upper, StandsAt, TextAt;
    StandsIff(sql, "SELECT ", 0);
    FirstFound(sql, " INTO ");
    if StandsAt(sql, "SELECT ", 0) {
      BeginsOnlyOnce(sql);
      var x := FirstText(Upper(sql), " INTO ");
      if x >= 0 {
        StandsInside(sql, " INTO ", x);
      }
    }
  }

  lemma BeginsOnlyOnce(sql: string)
    requires StandsAt(sql, "SELECT ", 0)
    ensures !StandsAt(sql, " INTO ", 0)
  {
    assert Upper(sql)[0..][0] == 'S';
  }

  /** How the text behind a list begins: the first FROM, or the first WHERE if no FROM counts, or nothing. */
  ghost predicate BehindList(sql: string, at: nat, n: nat) {
    || FirstStands(sql, " FROM ", n)
    || (FrontOrNowhere(sql, " FROM ", at) && FirstStands(sql, " WHERE ", n))
    || (FrontOrNowhere(sql, " FROM ", at) && FrontOrNowhere(sql, " WHERE ", at) && n == |sql|)
  }

  /**
   A SELECT with an INTO, the first, a list, and a rest that begins as it has to: the text in front and the rest are
   sent, and the list is read on its own.
   */
  lemma ListTakenOut(front: string, into: string, list: string, rest: string)
    requires Upper(into) == " INTO "
    requires var sql := front + (into + (list + rest));
      && StandsAt(sql, "SELECT ", 0) && (forall k :: 0 <= k < |front| ==> !StandsAt(sql, " INTO ", k))
      && BehindList(sql, |front|, |front| + 6 + |list|)
    ensures var sql := front + (into + (list + rest));
      && IntoAt(sql) == Into(|front|, |front| + 6 + |list|) && Holds(IntoAt(sql), sql)
      && ListOf(sql, IntoAt(sql)) == list && QueryOf(sql, IntoAt(sql)) == front + rest
  {
    hide FirstText, Upper, StandsAt, TextAt;
    var sql, n := front + (into + (list + rest)), |front| + 6 + |list|;
    IntoStands(front, into, list + rest);
    FirstOfAll(sql, " INTO ", |front|);
    StandsIff(sql, "SELECT ", 0);
    BeginsOnlyOnce(sql);
    if FirstStands(sql, " FROM ", n) {
      FirstOfAll(sql, " FROM ", n);
    } else {
      FoundInFront(sql, " FROM ", |front|);
      if FirstStands(sql, " WHERE ", n) {
        FirstOfAll(sql, " WHERE ", n);
      } else {
        FoundInFront(sql, " WHERE ", |front|);
      }
    }
    FourSlices(front, into, list, rest);
  }

  lemma IntoStands(front: string, into: string, more: string)
    requires Upper(into) == " INTO "
    ensures |into| == 6 && StandsAt(front + (into + more), " INTO ", |front|)
  {
    assert |Upper(into)| == 6;
    UpperConcat(front, into + more);
    UpperConcat(into, more);
    var u := Upper(front + (into + more));
    assert u[|front|..] == Upper(into) + Upper(more);
  }

  /**
   One statement without FROM and WHERE: of SELECT LAST_INSERT_ID() INTO :ID the list is :ID, which reaches to the end,
   and what is sent has no parameter.
   */
  lemma WithoutFromExample()
    ensures var s := "SELECT LAST_INSERT_ID() INTO :ID";
      && IntoAt(s) == Into(23, |s|) && Holds(IntoAt(s), s)
      && ListOf(s, IntoAt(s)) == ":ID" && QueryOf(s, IntoAt(s)) == "SELECT LAST_INSERT_ID()"
  {
    hide FirstText, FirstFrom, Upper, StandsAt;
    var front := "SELECT LAST_INSERT_ID()";
    var s := front + (" INTO " + (":ID" + ""));
    assert s == "SELECT LAST_INSERT_ID() INTO :ID";
    CapitalsStay(s, s);
    CapitalsStay(" INTO ", " INTO ");
    LastIdWords(s);
    assert |s| == 32 && front + "" == front;
    ListTakenOut(front, " INTO ", ":ID", "");
  }

  lemma LastIdWords(s: string)
    requires s == "SELECT LAST_INSERT_ID() INTO :ID" && Upper(s) == s
    ensures StandsAt(s, "SELECT ", 0) && forall k :: 0 <= k < 23 ==> !StandsAt(s, " INTO ", k)
    ensures FrontOrNowhere(s, " FROM ", 23) && FrontOrNowhere(s, " WHERE ", 23)
  {
    hide StandsAt;
    BeginsSelect(s);
    NoFromNorWhere(s);
    assert forall k :: 0 <= k < 23 && s[k] == ' ' ==> s[k + 1] == 'L';
    forall k | 0 <= k < 23 ensures !StandsAt(s, " INTO ", k) {
      NotThere(s, " INTO ", k);
    }
  }

  lemma NoFromNorWhere(s: string)
    requires s == "SELECT LAST_INSERT_ID() INTO :ID" && Upper(s) == s
    ensures forall k :: 0 <= k <= |s| ==> !StandsAt(s, " FROM ", k) && !StandsAt(s, " WHERE ", k)
  {
    hide StandsAt;
    assert 'F' !in s && 'W' !in s;
    forall k | 0 <= k <= |s| ensures !StandsAt(s, " FROM ", k) && !StandsAt(s, " WHERE ", k) {
      NotThere(s, " FROM ", k);
      NotThere(s, " WHERE ", k);
    }
  }

  lemma BeginsSelect(s: string)
    requires s == "SELECT LAST_INSERT_ID() INTO :ID" && Upper(s) == s
    ensures StandsAt(s, "SELECT ", 0)
  {
    assert s[0..] == s && s[..7] == "SELECT ";
  }

  /** A place with another first or second letter. */
  lemma NotThere(s: string, word: string, k: nat)
    requires Upper(s) == s && |word| >= 2 && k <= |s|
    requires k + 1 >= |s| || s[k] != word[0] || s[k + 1] != word[1]
    ensures !StandsAt(s, word, k)
  {
    assert k + 1 < |s| ==> s[k..][0] == s[k] && s[k..][1] == s[k + 1];
  }

  // ---------- the statement without its list ----------

  /** Where the list of an INTO ends: at the first FROM behind INTO, or the first WHERE, or else at the end. */
  function ListEnd(sql: string): int
    requires IntoAt(sql).Into?
  {
    var u, at := Upper(sql), IntoAt(sql).at;
    var f, w := FirstFrom(u, " FROM ", at), FirstFrom(u, " WHERE ", at);
    if f >= 0 then f else if w >= 0 then w else |sql|
  }

  /** Does a word stand in front of place i? */
  predicate InFront(s: string, p: string, i: nat) {
    0 <= FirstText(s, p) < i
  }

  predicate Behind(s: string, p: string, i: nat) {
    FirstFrom(s, p, i) >= 0
  }

  lemma FirstBehind(s: string, p: string, i: nat)
    requires !InFront(s, p, i) && i <= |s|
    ensures FirstText(s, p) == FirstFrom(s, p, i)
  {
    var x, y := FirstText(s, p), FirstFrom(s, p, i);
    assert x >= 0 && y >= 0 ==> TextAt(s, x, p) && TextAt(s, y, p);
  }

  lemma ListEnds(sql: string)
    requires IntoAt(sql).Into?
    ensures Holds(IntoAt(sql), sql) && IntoAt(sql).at <= ListEnd(sql) <= |sql|
  {
    hide Upper;
    IntoHolds(sql);
  }

  /**
   The text sent to the database is the statement without its INTO list if and only if no FROM in front of INTO
   hides the FROM behind it; where there is none behind it, no WHERE in front may hide the WHERE behind.
   */
  lemma SentWithoutList(sql: string)
    requires IntoAt(sql).Into?
    ensures Holds(IntoAt(sql), sql) && IntoAt(sql).at <= ListEnd(sql) <= |sql|
    ensures var i, u := IntoAt(sql), Upper(sql);
      QueryOf(sql, i) == sql[..i.at] + sql[ListEnd(sql)..] <==>
      if Behind(u, " FROM ", i.at) then !InFront(u, " FROM ", i.at)
      else !(InFront(u, " WHERE ", i.at) && Behind(u, " WHERE ", i.at))
  {
    ListEnds(sql);
    RestIff(sql);
    var i, e := IntoAt(sql), ListEnd(sql);
    if QueryOf(sql, i) == sql[..i.at] + sql[e..] {
      assert |sql[..i.at] + sql[i.rest..]| == |sql[..i.at] + sql[e..]|;
    }
  }

  lemma RestIff(sql: string)
    requires IntoAt(sql).Into?
    ensures var i, u := IntoAt(sql), Upper(sql);
      i.rest == ListEnd(sql) <==>
      if Behind(u, " FROM ", i.at) then !InFront(u, " FROM ", i.at)
      else !(InFront(u, " WHERE ", i.at) && Behind(u, " WHERE ", i.at))
  {
    hide Upper, TextAt, FirstText, FirstFrom;
    var u, at := Upper(sql), IntoAt(sql).at;
    IntoHolds(sql);
    WordFound(u, " FROM ", at);
    WordFound(u, " WHERE ", at);
    NotBoth(u, at);
  }

  /** The first such word of a text, and the first behind place i. */
  lemma WordFound(s: string, p: string, i: nat)
    requires i <= |s|
    ensures var x, y := FirstText(s, p), FirstFrom(s, p, i);
      && -1 <= x < |s| && (y == -1 || i <= y < |s|)
      && (!InFront(s, p, i) ==> x == y)
      && (InFront(s, p, i) <==> 0 <= x < i) && (Behind(s, p, i) <==> y >= 0)
  {
    if !InFront(s, p, i) {
      FirstBehind(s, p, i);
    }
  }

  lemma SecondLetter(s: string, p: string, x: nat)
    requires TextAt(s, x, p) && |p| >= 2
    ensures s[x + 1] == p[1]
  {
    assert s[x..x + |p|][1] == s[x + 1];
  }

  /** No FROM stands where a WHERE stands. */
  lemma NotBoth(s: string, i: nat)
    ensures var f, w := FirstFrom(s, " FROM ", i), FirstText(s, " WHERE "); f >= 0 && w >= 0 ==> f != w
  {
    hide TextAt;
    var f, w := FirstFrom(s, " FROM ", i), FirstText(s, " WHERE ");
    if f >= 0 && w >= 0 {
      SecondLetter(s, " FROM ", f);
      SecondLetter(s, " WHERE ", w);
    }
  }

  /**
   One statement with a FROM in front of INTO: SELECT EXTRACT(YEAR FROM D) INTO :Y FROM T is sent without its
   FROM, which is taken for the list.
   */
  lemma FromInFrontExample()
    ensures var s := "SELECT EXTRACT(YEAR FROM D) INTO :Y FROM T";
      && IntoAt(s) == Into(27, 42) && ListEnd(s) == 35
      && ListOf(s, IntoAt(s)) == ":Y FROM T" && QueryOf(s, IntoAt(s)) == "SELECT EXTRACT(YEAR FROM D)"
  {
    hide FirstText, FirstFrom, Upper;
    var s := "SELECT EXTRACT(YEAR FROM D) INTO :Y FROM T";
    ExtractUpper(s);
    ExtractWords(Upper(s));
    assert s[33..] == ":Y FROM T" && s[42..] == "" && s[..27] == "SELECT EXTRACT(YEAR FROM D)";
  }

  lemma ExtractUpper(s: string)
    requires s == "SELECT EXTRACT(YEAR FROM D) INTO :Y FROM T"
    ensures Upper(s) == s
  {
    CapitalsStay(s, s);
  }

  lemma ExtractWords(u: string)
    requires u == "SELECT EXTRACT(YEAR FROM D) INTO :Y FROM T"
    ensures TextAt(u, 0, "SELECT ") && FirstText(u, " INTO ") == 27 && FirstText(u, " FROM ") == 19
    ensures FirstFrom(u, " FROM ", 27) == 35 && FirstText(u, " WHERE ") == FirstFrom(u, " WHERE ", 27) == -1
  {
    hide FirstText, FirstFrom, TextAt;
    BeginsWithSelect(u);
    FirstInto(u);
    FromInFront(u);
    FromBehind(u);
    NoWhere(u);
  }

  lemma BeginsWithSelect(u: string)
    requires u == "SELECT EXTRACT(YEAR FROM D) INTO :Y FROM T"
    ensures TextAt(u, 0, "SELECT ")
  {
    assert |u| == 42 && u[0] == 'S' && u[1] == 'E' && u[2] == 'L' && u[3] == 'E' && u[4] == 'C' && u[5] == 'T'
        && u[6] == ' ';
    SelectAt(u);
  }

  lemma SelectAt(u: string)
    requires |u| >= 7 && u[0] == 'S' && u[1] == 'E' && u[2] == 'L' && u[3] == 'E' && u[4] == 'C' && u[5] == 'T'
    requires u[6] == ' '
    ensures TextAt(u, 0, "SELECT ")
  {
    assert u[0..7] == ['S', 'E', 'L', 'E', 'C', 'T', ' '];
  }

  lemma NoWhere(u: string)
    requires u == "SELECT EXTRACT(YEAR FROM D) INTO :Y FROM T"
    ensures FirstText(u, " WHERE ") == FirstFrom(u, " WHERE ", 27) == -1
  {
    hide FirstText, FirstFrom;
    assert 'W' !in u;
    Missing(u, " WHERE ", 0);
    Missing(u, " WHERE ", 27);
  }

  lemma PieceAt(a: string, p: string, b: string)
    ensures TextAt(a + (p + b), |a|, p)
  {
  }

  lemma FirstInto(u: string)
    requires u == "SELECT EXTRACT(YEAR FROM D) INTO :Y FROM T"
    ensures FirstText(u, " INTO ") == 27
  {
    hide FirstText, TextAt;
    assert u == "SELECT EXTRACT(YEAR FROM D)" + (" INTO " + ":Y FROM T");
    PieceAt("SELECT EXTRACT(YEAR FROM D)", " INTO ", ":Y FROM T");
    assert 'I' !in u[..28];
    forall i | 0 <= i < 27 ensures !TextAt(u, i, " INTO ") {
      assert u[i + 1] == u[..28][i + 1];
      NotAt(u, i, " INTO ");
    }
    FirstTextIs(u, " INTO ", 27);
  }

  lemma FromInFront(u: string)
    requires u == "SELECT EXTRACT(YEAR FROM D) INTO :Y FROM T"
    ensures FirstText(u, " FROM ") == 19
  {
    hide FirstText, TextAt;
    assert u == "SELECT EXTRACT(YEAR" + (" FROM " + "D) INTO :Y FROM T");
    PieceAt("SELECT EXTRACT(YEAR", " FROM ", "D) INTO :Y FROM T");
    assert 'F' !in u[..20];
    forall i | 0 <= i < 19 ensures !TextAt(u, i, " FROM ") {
      assert u[i + 1] == u[..20][i + 1];
      NotAt(u, i, " FROM ");
    }
    FirstTextIs(u, " FROM ", 19);
  }

  lemma FromBehind(u: string)
    requires u == "SELECT EXTRACT(YEAR FROM D) INTO :Y FROM T"
    ensures FirstFrom(u, " FROM ", 27) == 35
  {
    hide FirstFrom, TextAt;
    assert u == "SELECT EXTRACT(YEAR FROM D) INTO :Y" + (" FROM " + "T");
    PieceAt("SELECT EXTRACT(YEAR FROM D) INTO :Y", " FROM ", "T");
    assert 'F' !in u[27..36];
    forall i | 27 <= i < 35 ensures !TextAt(u, i, " FROM ") {
      assert u[i + 1] == u[27..36][i + 1 - 27];
      NotAt(u, i, " FROM ");
    }
    FirstFromIs(u, " FROM ", 27, 35);
  }

  lemma FirstFromIs(s: string, p: string, i: nat, x: nat)
    requires i <= x && TextAt(s, x, p) && |p| > 0 && forall k :: i <= k < x ==> !TextAt(s, k, p)
    ensures FirstFrom(s, p, i) == x
  {
  }

  /** A word whose second letter occurs nowhere. */
  lemma Missing(s: string, p: string, i: nat)
    requires |p| >= 2 && p[1] !in s
    ensures FirstFrom(s, p, i) == -1 && (i == 0 ==> FirstText(s, p) == -1)
  {
    var x := FirstFrom(s, p, i);
    if x >= 0 {
      SecondLetter(s, p, x);
    }
  }

  // ---------- more parameters than rows ----------

  lemma {:induction false} QuotedText(a: string)
    requires QUOTE !in a
    ensures NoColon(a, true) && QuoteAfter(a, true)
  {
    if |a| > 0 {
      QuotedText(a[1..]);
    }
  }

  /**
   One statement with fewer rows than parameters: SELECT :A, 'X INTO Y' FROM T has one marker, and no row in
   its table.
   */
  lemma MoreParmsThanRows()
    ensures var s := CutFront() + (" INTO " + (("Y" + [QUOTE]) + " FROM T"));
      var i := IntoAt(s);
      && i == Into(13, 21) && Holds(i, s) && !EnoughRows(s, i)
      && CountCells(Tokens(QueryOf(s, i), false)) == 1 && |SelectCells(s, i)| == 0
  {
    hide CutFront, Tokens, CountCells, QuoteAfter, SelectCells, IntoAt, QueryOf, IntoCells, Holds, EnoughRows;
    var front, list, rest := CutFront(), "Y" + [QUOTE], " FROM T";
    var s := front + (" INTO " + (list + rest));
    CutInto(s);
    FrontCells();
    assert list == "Y" + ([QUOTE] + "");
    HalfLiteral("Y", "", false);
    HalfLiteral("Y", "", true);
    assert rest + "" == rest;
    BehindPlainText(rest, "", false);
    NoCellsInNothing(false);
    CutInTwo(front, list, rest);
    EnoughRowsIff(s, IntoAt(s));
  }

  /** The text in front of INTO: SELECT :A, 'X */
  function CutFront(): string {
    "SELECT " + (OneVar('A') + (", " + ([QUOTE] + "X")))
  }

  lemma FrontCells()
    ensures |CutFront()| == 13 && QuoteAfter(CutFront(), false)
    ensures CountCells(Tokens(CutFront(), false)) == 1 && CountCells(Tokens(CutFront(), true)) == 0
  {
    hide Tokens, CountCells, QuoteAfter, OneVar;
    var more := ", " + ([QUOTE] + "X");
    CellsOfOne('A');
    BehindPlainText("SELECT ", OneVar('A') + more, false);
    CellsSplit(OneVar('A'), more, false);
    QuoteAfterConcat(OneVar('A'), more, false);
    HalfLiteral(", ", "X", false);
    OneVarPlain();
    InsideFirst("SELECT " + (OneVar('A') + ", "), "X");
    assert CutFront() == ("SELECT " + (OneVar('A') + ", ")) + ([QUOTE] + "X");
  }

  lemma OneVarPlain()
    ensures |OneVar('A')| == 2 && QUOTE !in "SELECT " + (OneVar('A') + ", ")
  {
  }

  lemma InsideFirst(a: string, b: string)
    requires QUOTE !in a && COLON !in b && QUOTE !in b
    ensures CountCells(Tokens(a + ([QUOTE] + b), true)) == 0
  {
    hide Tokens, CountCells, QuoteAfter;
    QuotedText(a);
    TokensSplit(a, [QUOTE] + b, true);
    NoColonNoVar(a, true);
    MarkedConcat(Tokens(a, true), Tokens([QUOTE] + b, true));
    HalfLiteral("", b, true);
    assert "" + ([QUOTE] + b) == [QUOTE] + b;
  }

  lemma CutInto(s: string)
    requires s == CutFront() + (" INTO " + (("Y" + [QUOTE]) + " FROM T"))
    ensures IntoAt(s) == Into(13, 21)
  {
    hide FirstText, Upper;
    assert s == "SELECT :A, 'X INTO Y' FROM T";
    CutUpper(s);
    CutWords(Upper(s));
  }

  lemma CutUpper(s: string)
    requires s == "SELECT :A, 'X INTO Y' FROM T"
    ensures Upper(s) == s
  {
    CapitalsStay(s, s);
  }

  lemma CutWords(u: string)
    requires u == "SELECT :A, 'X INTO Y' FROM T"
    ensures TextAt(u, 0, "SELECT ") && FirstText(u, " INTO ") == 13 && FirstText(u, " FROM ") == 21
  {
    hide FirstText;
    assert u[0..7] == "SELECT " && u[13..19] == " INTO " && u[21..27] == " FROM ";
    forall i | 0 <= i < 13 ensures !TextAt(u, i, " INTO ") {
      NotAt(u, i, " INTO ");
    }
    forall i | 0 <= i < 21 ensures !TextAt(u, i, " FROM ") {
      NotAt(u, i, " FROM ");
    }
    FirstTextIs(u, " INTO ", 13);
    FirstTextIs(u, " FROM ", 21);
  }
}
