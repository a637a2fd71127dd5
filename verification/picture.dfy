/**
 Picture clauses of packed host variables: counting the digits in front of and behind the point, the size of
 the packed field, and the picture of the temporary that stands in for a variable the runtime cannot use.
 */
module Picture {
  import opened Texts
  import opened DecimalDigits
  import opened PackedDecimal
  import L = PackedDecimalLaws

  datatype Counted = Invalid | Counted(whole: int, fraction: int)

  predicate IsDigit(c: char) {
    '0' <= c <= '9'
  }

  /** The number at the beginning of a text, v being what stands in front of it. */
  function Leading(s: string, v: nat): nat {
    if |s| == 0 || !IsDigit(s[0]) then v else Leading(s[1..], 10 * v + (s[0] as int - '0' as int))
  }

  predicate IsSpace(c: char) {
    c == ' ' || 9 <= c as int <= 13
  }

  /** Blanks, a sign, digits; anything else ends the number. */
  function Atoi(s: string): int {
    if |s| == 0 then 0
    else if IsSpace(s[0]) then Atoi(s[1..])
    else if s[0] == '-' then 0 - Leading(s[1..], 0)
    else if s[0] == '+' then Leading(s[1..], 0)
    else Leading(s, 0)
  }

  function Finish(ct9: int, ctb9: int): Counted {
    if ctb9 >= 0 then Counted(ctb9, ct9) else if ct9 == 0 then Invalid else Counted(ct9, 0)
  }

  /** What counting the rest of a picture comes to. */
  function Scan(p: string, ct9: int, ctb9: int, wasdot: bool): Counted
    decreases |p|
  {
    if |p| == 0 || p[0] == ' ' then Finish(ct9, ctb9)
    else if p[0] == 'S' || p[0] == '+' || p[0] == '-' || p[0] == ',' then Scan(p[1..], ct9, ctb9, wasdot)
    else if p[0] == '9' || p[0] == 'Z' then Scan(p[1..], ct9 + 1, ctb9, wasdot)
    else if p[0] == 'V' || p[0] == '.' then
      if wasdot then Finish(ct9, ctb9) else Scan(p[1..], 0, ct9, true)
    else if p[0] == '(' && ct9 > 0 then
      var q := IndexOf(p, ')');
      if q < 2 || q > 5 then Invalid else Scan(p[q + 1..], ct9 + (Atoi(p[1..q]) - 1), ctb9, wasdot)
    else Invalid
  }

  method CountPrec(pic: string) returns (r: Counted)
    ensures r == Scan(pic, 0, -1, false)
  {
    hide IndexOf, Atoi;
    var ct9, ctb9, wasdot := 0, -1, false;
    var i := 0;
    assert pic[0..] == pic;
    while i < |pic| && pic[i] != ' '
      invariant 0 <= i <= |pic| && Scan(pic[i..], ct9, ctb9, wasdot) == Scan(pic, 0, -1, false)
    {
      assert pic[i..][1..] == pic[i + 1..];
      if pic[i] == 'S' || pic[i] == '+' || pic[i] == '-' || pic[i] == ',' {
        i := i + 1;
        continue;
      }
      if pic[i] == '9' || pic[i] == 'Z' {
        ct9 := ct9 + 1;
        i := i + 1;
        continue;
      }
      if pic[i] == 'V' || pic[i] == '.' {
        if wasdot {
          break;
        }
        wasdot := true;
        ctb9 := ct9;
        ct9 := 0;
        i := i + 1;
        continue;
      }
      if pic[i] == '(' && ct9 > 0 {
        var q := IndexOf(pic[i..], ')');
        if q < 0 || q > 5 || q < 2 {
          return Invalid;
        }
        assert pic[i..][q + 1..] == pic[i + q + 1..];
        var rct := Atoi(pic[i..][1..q]);
        ct9 := ct9 + (rct - 1);
        i := i + q + 1;
        continue;
      }
      return Invalid;
    }
    r := Counted(ctb9, ct9);
    if ctb9 < 0 {
      if ct9 == 0 {
        return Invalid;
      }
      r := Counted(ct9, 0);
    }
  }

  // ---------- pictures by their meaning ----------

  /** An element of a picture: a sign or comma, a digit position, or a repeat count for the position before. */
  datatype Item = Mark(c: char) | Position(c: char) | Repeat(count: string)

  predicate Proper(i: Item) {
    match i
    case Mark(c) => c == 'S' || c == '+' || c == '-' || c == ','
    case Position(c) => c == '9' || c == 'Z'
    case Repeat(count) => 1 <= |count| <= 4 && ')' !in count
  }

  predicate AllProper(items: seq<Item>) {
    forall i :: 0 <= i < |items| ==> Proper(items[i])
  }

  function PrintItem(i: Item): string {
    match i
    case Mark(c) => [c]
    case Position(c) => [c]
    case Repeat(count) => "(" + (count + ")")
  }

  function Print(items: seq<Item>): string {
    if |items| == 0 then "" else PrintItem(items[0]) + Print(items[1..])
  }

  /** What an item adds to the digits: one for a position, and for a repeat count what exceeds one. */
  function Adds(i: Item): int {
    match i
    case Mark(_) => 0
    case Position(_) => 1
    case Repeat(count) => Atoi(count) - 1
  }

  function Digits(items: seq<Item>): int {
    if |items| == 0 then 0 else Adds(items[0]) + Digits(items[1..])
  }

  /** Does every repeat count stand behind a positive number of digits, n of them in front of the items? */
  predicate Repeatable(items: seq<Item>, n: int) {
    |items| > 0 ==> (items[0].Repeat? ==> n > 0) && Repeatable(items[1..], n + Adds(items[0]))
  }

  predicate IsPoint(c: char) {
    c == 'V' || c == '.'
  }

  /** A picture without a point, or with one. */
  datatype Clause = Whole(items: seq<Item>) | Pointed(front: seq<Item>, point: char, back: seq<Item>)

  predicate ProperClause(c: Clause) {
    match c
    case Whole(items) => AllProper(items)
    case Pointed(front, point, back) => AllProper(front) && IsPoint(point) && AllProper(back)
  }

  function PrintClause(c: Clause): string {
    match c
    case Whole(items) => Print(items)
    case Pointed(front, point, back) => Print(front) + ([point] + Print(back))
  }

  /** What may follow: nothing, a blank and anything, or a second point and anything. */
  predicate Ends(c: Clause, rest: string) {
    |rest| > 0 ==> rest[0] == ' ' || (c.Pointed? && IsPoint(rest[0]))
  }

  /** The digits a picture counts. */
  function Meaning(c: Clause): Counted {
    match c
    case Whole(items) =>
      if !Repeatable(items, 0) || Digits(items) == 0 then Invalid else Counted(Digits(items), 0)
    case Pointed(front, _, back) =>
      var a, b := Digits(front), Digits(back);
      if !Repeatable(front, 0) || !Repeatable(back, 0) then Invalid
      else if a >= 0 then Counted(a, b)
      else if b == 0 then Invalid
      else Counted(b, 0)
  }

  lemma {:induction false} CloseAt(a: string, b: string)
    requires ')' !in a
    ensures IndexOf(a + (")" + b), ')') == |a|
  {
    if |a| == 0 {
      assert a + (")" + b) == ")" + b;
    } else {
      assert (a + (")" + b))[1..] == a[1..] + (")" + b);
      CloseAt(a[1..], b);
    }
  }

  lemma ScanRepeat(count: string, rest: string, ct9: int, ctb9: int, wasdot: bool)
    requires 1 <= |count| <= 4 && ')' !in count
    ensures Scan("(" + (count + ")") + rest, ct9, ctb9, wasdot)
         == if ct9 > 0 then Scan(rest, ct9 + (Atoi(count) - 1), ctb9, wasdot) else Invalid
  {
    hide IndexOf, Atoi;
    var open := "(" + count;
    var p := "(" + (count + ")") + rest;
    assert p == open + (")" + rest);
    CloseAt(open, rest);
    assert p[1..|open|] == count && p[|open| + 1..] == rest;
  }

  lemma ScanItem(i: Item, rest: string, ct9: int, ctb9: int, wasdot: bool)
    requires Proper(i)
    ensures Scan(PrintItem(i) + rest, ct9, ctb9, wasdot)
         == if i.Repeat? && ct9 <= 0 then Invalid else Scan(rest, ct9 + Adds(i), ctb9, wasdot)
  {
    hide Atoi, IndexOf;
    if i.Repeat? {
      ScanRepeat(i.count, rest, ct9, ctb9, wasdot);
    } else {
      assert ([i.c] + rest)[1..] == rest;
    }
  }

  /** Counting goes over the items one by one, and refuses a repeat count behind no digits. */
  lemma {:induction false} ScanItems(items: seq<Item>, rest: string, ct9: int, ctb9: int, wasdot: bool)
    requires AllProper(items)
    ensures Scan(Print(items) + rest, ct9, ctb9, wasdot)
         == if Repeatable(items, ct9) then Scan(rest, ct9 + Digits(items), ctb9, wasdot) else Invalid
    decreases |items|
  {
    hide Scan, PrintItem, Adds;
    if |items| == 0 {
      assert Print(items) + rest == rest;
    } else {
      var more := Print(items[1..]) + rest;
      assert Print(items) + rest == PrintItem(items[0]) + more;
      ScanItem(items[0], more, ct9, ctb9, wasdot);
      ScanItems(items[1..], rest, ct9 + Adds(items[0]), ctb9, wasdot);
    }
  }

  lemma ScanPoint(point: char, more: string, ct9: int)
    requires IsPoint(point)
    ensures Scan([point] + more, ct9, -1, false) == Scan(more, 0, ct9, true)
  {
    assert ([point] + more)[1..] == more;
  }

  /** Any picture counts what it means, repeat counts of nought and negative ones included. */
  lemma PictureCounts(c: Clause, rest: string)
    requires ProperClause(c) && Ends(c, rest)
    ensures Scan(PrintClause(c) + rest, 0, -1, false) == Meaning(c)
  {
    hide Print, Digits, Repeatable, Scan;
    match c
    case Whole(items) =>
      ScanItems(items, rest, 0, -1, false);
      ScanEnd(rest, Digits(items), -1, false);
    case Pointed(front, point, back) =>
      var more := Print(back) + rest;
      assert PrintClause(c) + rest == Print(front) + ([point] + more);
      ScanItems(front, [point] + more, 0, -1, false);
      ScanPoint(point, more, Digits(front));
      ScanItems(back, rest, 0, Digits(front), true);
      ScanEnd(rest, Digits(back), Digits(front), true);
  }

  lemma ScanEnd(rest: string, ct9: int, ctb9: int, wasdot: bool)
    requires |rest| > 0 ==> rest[0] == ' ' || (wasdot && IsPoint(rest[0]))
    ensures Scan(rest, ct9, ctb9, wasdot) == Finish(ct9, ctb9)
  {
  }

  lemma FirstItem(p: string, ct9: int, ctb9: int, wasdot: bool) returns (first: Item, n: nat, ct: int)
    requires Scan(p, ct9, ctb9, wasdot).Counted? && |p| > 0 && p[0] != ' ' && !IsPoint(p[0])
    ensures Proper(first) && 0 < n <= |p| && p[..n] == PrintItem(first)
    ensures Scan(p[n..], ct, ctb9, wasdot).Counted?
  {
    hide Atoi;
    if p[0] == '(' {
      var q := IndexOf(p, ')');
      first, n, ct := Repeat(p[1..q]), q + 1, ct9 + (Atoi(p[1..q]) - 1);
      assert p[..q][1..] == p[1..q];
      assert p[..n] == "(" + (p[1..q] + ")");
    } else if p[0] == '9' || p[0] == 'Z' {
      first, n, ct := Position(p[0]), 1, ct9 + 1;
    } else {
      first, n, ct := Mark(p[0]), 1, ct9;
    }
  }

  /** The items at the beginning of an accepted text. */
  lemma {:induction false} ItemsOf(p: string, ct9: int, ctb9: int, wasdot: bool)
      returns (items: seq<Item>, rest: string)
    requires Scan(p, ct9, ctb9, wasdot).Counted?
    ensures AllProper(items) && p == Print(items) + rest
    ensures |rest| > 0 ==> rest[0] == ' ' || IsPoint(rest[0])
    decreases |p|
  {
    hide Scan, PrintItem, Proper;
    if |p| == 0 || p[0] == ' ' || IsPoint(p[0]) {
      items, rest := [], p;
    } else {
      var first, n, ct := FirstItem(p, ct9, ctb9, wasdot);
      var more;
      more, rest := ItemsOf(p[n..], ct, ctb9, wasdot);
      items := [first] + more;
      PrintNext(first, more);
      assert p == p[..n] + (Print(more) + rest);
    }
  }

  lemma PrintNext(i: Item, items: seq<Item>)
    ensures Print([i] + items) == PrintItem(i) + Print(items)
    ensures Digits([i] + items) == Adds(i) + Digits(items)
    ensures AllProper([i] + items) <==> Proper(i) && AllProper(items)
    ensures forall n :: Repeatable([i] + items, n) <==> (i.Repeat? ==> n > 0) && Repeatable(items, n + Adds(i))
  {
    hide PrintItem, Adds;
    assert ([i] + items)[1..] == items && ([i] + items)[0] == i;
    if AllProper([i] + items) {
      assert Proper(([i] + items)[0]);
      forall k | 0 <= k < |items| ensures Proper(items[k]) {
        assert items[k] == ([i] + items)[k + 1];
      }
    }
  }

  /** Every text that is accepted is such a picture. */
  lemma AcceptedIsPicture(pic: string) returns (c: Clause, rest: string)
    requires Scan(pic, 0, -1, false).Counted?
    ensures ProperClause(c) && Ends(c, rest) && pic == PrintClause(c) + rest && Meaning(c) == Scan(pic, 0, -1, false)
  {
    hide Scan, Print, Meaning;
    var front;
    front, rest := ItemsOf(pic, 0, -1, false);
    c := Whole(front);
    if |rest| > 0 && IsPoint(rest[0]) {
      var point, more := rest[0], rest[1..];
      assert rest == [point] + more;
      ScanItems(front, rest, 0, -1, false);
      ScanPoint(point, more, Digits(front));
      var back;
      back, rest := ItemsOf(more, 0, Digits(front), true);
      c := Pointed(front, point, back);
      assert Print(front) + ([point] + (Print(back) + rest)) == PrintClause(c) + rest;
    }
    PictureCounts(c, rest);
  }

  // ---------- repeat counts below one ----------

  /** The digits on both sides of the point come to something a picture can have. */
  predicate Sensible(c: Clause) {
    match c
    case Whole(items) => Digits(items) >= 0
    case Pointed(front, _, back) => if Digits(front) >= 0 then Digits(back) >= 0 else Digits(back) > 0
  }

  /** An accepted picture counts a negative number of digits if and only if its repeat counts take away too much. */
  lemma NegativeIff(c: Clause, rest: string)
    requires ProperClause(c) && Ends(c, rest) && Scan(PrintClause(c) + rest, 0, -1, false).Counted?
    ensures var r := Scan(PrintClause(c) + rest, 0, -1, false);
      r.whole >= 0 && r.fraction >= 0 <==> Sensible(c)
  {
    hide Print, Digits, Repeatable, Scan;
    PictureCounts(c, rest);
  }

  predicate HonestItems(items: seq<Item>) {
    forall i :: 0 <= i < |items| && items[i].Repeat? ==> Atoi(items[i].count) >= 1
  }

  /** Repeat counts of one and more never take away. */
  lemma {:induction false} HonestDigits(items: seq<Item>)
    requires HonestItems(items)
    ensures Digits(items) >= 0
  {
    if |items| > 0 {
      HonestDigits(items[1..]);
    }
  }

  lemma HonestIsSensible(c: Clause)
    requires match c
      case Whole(items) => HonestItems(items)
      case Pointed(front, _, back) => HonestItems(front) && HonestItems(back)
    ensures Sensible(c)
  {
    match c
    case Whole(items) => HonestDigits(items);
    case Pointed(front, _, back) => HonestDigits(front); HonestDigits(back);
  }

  /** Minus nine digits; and repeat counts of nought that do no harm. */
  lemma NegativeRepeat()
    ensures Scan("S9(-9)", 0, -1, false) == Counted(-9, 0)
    ensures Scan("99(0)", 0, -1, false) == Counted(1, 0) && Scan("9V9(0)", 0, -1, false) == Counted(1, 0)
  {
    hide Scan, Print, Digits, Repeatable;
    SmallCounts();
    ThreeItems(Mark('S'), Position('9'), Repeat("-9"));
    ThreeItems(Position('9'), Position('9'), Repeat("0"));
    TwoItems(Position('9'), Repeat("0"));
    OneItem(Position('9'));
    assert "S" + ("9" + ("(" + ("-9" + ")"))) == "S9(-9)" && "9" + ("9" + ("(" + ("0" + ")"))) == "99(0)";
    assert "9" + (['V'] + ("9" + ("(" + ("0" + ")")))) == "9V9(0)";
    PictureCounts(Whole([Mark('S'), Position('9'), Repeat("-9")]), "");
    PictureCounts(Whole([Position('9'), Position('9'), Repeat("0")]), "");
    PictureCounts(Pointed([Position('9')], 'V', [Position('9'), Repeat("0")]), "");
    assert "S9(-9)" + "" == "S9(-9)" && "99(0)" + "" == "99(0)" && "9V9(0)" + "" == "9V9(0)";
  }

  lemma SmallCounts()
    ensures Atoi("-9") == -9 && Atoi("0") == 0
  {
    assert "-9"[1..] == "9" && "9"[1..] == "" && "0"[1..] == "";
  }

  lemma OneItem(i: Item)
    ensures Print([i]) == PrintItem(i) && Digits([i]) == Adds(i)
    ensures AllProper([i]) <==> Proper(i)
    ensures forall n :: Repeatable([i], n) <==> (i.Repeat? ==> n > 0)
  {
    hide PrintItem, Adds;
    assert [i][1..] == [];
    assert AllProper([i]) ==> Proper([i][0]);
  }

  lemma TwoItems(i: Item, j: Item)
    ensures Print([i, j]) == PrintItem(i) + PrintItem(j) && Digits([i, j]) == Adds(i) + Adds(j)
    ensures AllProper([i, j]) <==> Proper(i) && Proper(j)
    ensures forall n :: Repeatable([i, j], n) <==> (i.Repeat? ==> n > 0) && (j.Repeat? ==> n + Adds(i) > 0)
  {
    hide PrintItem, Adds, Print, Digits, Repeatable, AllProper, Proper;
    OneItem(j);
    PrintNext(i, [j]);
    assert [i] + [j] == [i, j];
  }

  lemma ThreeItems(i: Item, j: Item, k: Item)
    ensures Print([i, j, k]) == PrintItem(i) + (PrintItem(j) + PrintItem(k))
    ensures Digits([i, j, k]) == Adds(i) + Adds(j) + Adds(k)
    ensures AllProper([i, j, k]) <==> Proper(i) && Proper(j) && Proper(k)
    ensures forall n :: Repeatable([i, j, k], n) <==>
      (i.Repeat? ==> n > 0) && (j.Repeat? ==> n + Adds(i) > 0) && (k.Repeat? ==> n + Adds(i) + Adds(j) > 0)
  {
    hide PrintItem, Adds, Print, Digits, Repeatable, AllProper, Proper;
    TwoItems(j, k);
    PrintNext(i, [j, k]);
    assert [i] + [j, k] == [i, j, k];
  }

  // ---------- repeat counts in digits ----------

  lemma {:induction false} LeadingDigits(a: string, b: string, v: nat)
    requires forall i :: 0 <= i < |a| ==> IsDigit(a[i])
    ensures Leading(a + b, v) == Leading(b, Leading(a, v))
  {
    if |a| == 0 {
      assert a + b == b;
    } else {
      assert (a + b)[1..] == a[1..] + b;
      LeadingDigits(a[1..], b, 10 * v + (a[0] as int - '0' as int));
    }
  }

  /** A numeral reads back as its number. */
  lemma {:induction false} NumeralReads(n: nat)
    ensures Leading(Numeral(n), 0) == n && Atoi(Numeral(n)) == n
  {
    if n < 10 {
      assert Numeral(n)[1..] == "";
    } else {
      NumeralReads(n / 10);
      var d := [('0' as int + n % 10) as char];
      assert d[1..] == "";
      LeadingDigits(Numeral(n / 10), d, 0);
    }
  }

  lemma NumeralShort(n: nat)
    requires n < 10000
    ensures 1 <= |Numeral(n)| <= 4 && ')' !in Numeral(n)
  {
    assert n >= 10 ==> |Numeral(n)| == |Numeral(n / 10)| + 1;
    assert n >= 100 ==> |Numeral(n / 10)| == |Numeral(n / 10 / 10)| + 1;
    assert n >= 1000 ==> |Numeral(n / 10 / 10)| == |Numeral(n / 10 / 10 / 10)| + 1;
    assert n / 10 / 10 / 10 < 10;
  }

  /** So many digits. */
  function Nines(n: nat): seq<Item> {
    [Position('9'), Repeat(Numeral(n))]
  }

  lemma NinesCount(n: nat)
    requires 1 <= n < 10000
    ensures AllProper(Nines(n)) && Repeatable(Nines(n), 0) && Digits(Nines(n)) == n
    ensures Print(Nines(n)) == "9(" + Numeral(n) + ")"
  {
    hide Numeral, Print, Digits, Repeatable, Atoi, AllProper;
    NumeralReads(n);
    NumeralShort(n);
    TwoItems(Position('9'), Repeat(Numeral(n)));
  }

  lemma SignedCount(n: nat)
    requires 1 <= n < 10000
    ensures var items := [Mark('S')] + Nines(n);
      AllProper(items) && Repeatable(items, 0) && Digits(items) == n && Print(items) == "S9(" + Numeral(n) + ")"
  {
    hide Numeral, Print, Digits, Repeatable, AllProper, Nines;
    NinesCount(n);
    PrintNext(Mark('S'), Nines(n));
  }

  // ---------- the packed field ----------

  /** Bytes of the field for so many digits; division cuts toward zero. */
  function FieldSize(whole: int, fraction: int): int {
    var n := whole + fraction + 2;
    if n >= 0 then n / 2 else 0 - (0 - n) / 2
  }

  /** It is the least number of bytes whose digits hold the declared ones, unless they are less than none. */
  lemma LeastField(whole: int, fraction: int, n: int)
    ensures FieldSize(whole, fraction) >= 1 <==> whole + fraction >= 0
    ensures whole + fraction >= 0 ==> 2 * FieldSize(whole, fraction) - 1 >= whole + fraction
    ensures n >= 1 && 2 * n - 1 >= whole + fraction >= 0 ==> FieldSize(whole, fraction) <= n
  {
  }

  /** All digits of a picture. */
  function AllDigitsOf(c: Clause): int {
    match c
    case Whole(items) => Digits(items)
    case Pointed(front, _, back) => if Digits(front) >= 0 then Digits(front) + Digits(back) else Digits(back)
  }

  /**
   The field of an accepted picture has a byte if and only if the picture has not less than no digits, and then
   it is the least that holds them.
   */
  lemma FieldOfPicture(c: Clause, rest: string, n: int)
    requires ProperClause(c) && Ends(c, rest) && Scan(PrintClause(c) + rest, 0, -1, false).Counted?
    ensures var r := Scan(PrintClause(c) + rest, 0, -1, false);
      var size, d := FieldSize(r.whole, r.fraction), AllDigitsOf(c);
      && (size >= 1 <==> d >= 0)
      && (d >= 0 ==> 2 * size - 1 >= d && (n >= 1 && 2 * n - 1 >= d ==> size <= n))
  {
    hide Print, Digits, Repeatable, Scan, FieldSize;
    PictureCounts(c, rest);
    var r := Scan(PrintClause(c) + rest, 0, -1, false);
    LeastField(r.whole, r.fraction, n);
  }

  /** The picture of the temporary for a field of this size and precision. */
  function Temporary(size: nat, precision: nat): string
    requires 1 <= size && precision <= 2 * size - 1
  {
    var nd := size + size - 1 - precision;
    if nd == 0 then "SV9(" + Numeral(precision) + ")"
    else if precision == 0 then "S9(" + Numeral(nd) + ")"
    else "S9(" + Numeral(nd) + ")V9(" + Numeral(precision) + ")"
  }

  /** Its picture counts back to all the digits of the field, as many of them behind the point. */
  lemma TemporaryCounts(size: nat, precision: nat)
    requires 1 <= size < 5000 && precision <= 2 * size - 1
    ensures Scan(Temporary(size, precision), 0, -1, false) == Counted(2 * size - 1 - precision, precision)
  {
    hide Numeral, Print, Digits, Repeatable, AllProper, Scan, Nines;
    var nd := 2 * size - 1 - precision;
    assert Temporary(size, precision) + "" == Temporary(size, precision);
    OneItem(Mark('S'));
    if nd > 0 {
      SignedCount(nd);
    }
    if precision > 0 {
      NinesCount(precision);
    }
    if nd == 0 {
      PictureCounts(Pointed([Mark('S')], 'V', Nines(precision)), "");
      JoinedFraction(Numeral(precision));
    } else if precision == 0 {
      PictureCounts(Whole([Mark('S')] + Nines(nd)), "");
    } else {
      PictureCounts(Pointed([Mark('S')] + Nines(nd), 'V', Nines(precision)), "");
      JoinedBoth(Numeral(nd), Numeral(precision));
    }
  }

  lemma JoinedFraction(p: string)
    ensures "SV9(" + p + ")" == "S" + (['V'] + ("9(" + p + ")"))
  {
  }

  lemma JoinedBoth(n: string, p: string)
    ensures "S9(" + n + ")V9(" + p + ")" == "S9(" + n + ")" + (['V'] + ("9(" + p + ")"))
  {
    var left, right := "S9(" + n + ")V9(" + p + ")", "S9(" + n + ")" + (['V'] + ("9(" + p + ")"));
    assert |left| == |right|;
  }

  /** A value with the declared digits is packed into the field as it is: neither rounded nor cut. */
  lemma DeclaredValueKept(text: Text, whole: nat, fraction: nat)
    requires IsDecimal(text) && |WholePart(text)| == whole && |FractionPart(text)| == fraction
    ensures var n := FieldSize(whole, fraction);
      n >= 1 && (
      var ns := PackedNibbles(text, n, fraction);
      && L.WellFormed(ns) && (L.SignOf(ns) == NEGATIVE <==> IsNegative(text))
      && Value(L.DigitsOf(ns)) == Value(Masked(WholePart(text)) + Masked(FractionPart(text))))
  {
    hide WholePart, FractionPart, Value, Pow10, Rounded, PackedNibbles, FieldSize;
    var w, f, n := Masked(WholePart(text)), Masked(FractionPart(text)), FieldSize(whole, fraction);
    LeastField(whole, fraction, n);
    L.PackedValue(text, n, fraction);
    NothingLost(w, f, 2 * n - 1);
  }

  /** A number is neither rounded nor cut when all its digits are kept. */
  lemma NothingLost(w: Digits, f: Digits, m: nat)
    requires AllDigits(w) && AllDigits(f) && |w| + |f| <= m
    ensures Rounded(w, f, |f|) % Pow10(m) == Value(w + f)
  {
    hide Value, Rounded, Pow10, RoundsUp;
    RoundingByOneDigit(w, f, |f|);
    NothingScaled(f);
    ValueBound(w + f);
    PowersGrow(|w + f|, m);
    Below(Value(w + f), Pow10(m));
  }

  lemma NothingScaled(f: Digits)
    ensures Scale(f, |f|) == f && !RoundsUp(f, |f|)
  {
    assert f[..|f|] == f;
  }

  lemma Below(x: nat, p: nat)
    requires x < p
    ensures x % p == x
  {
  }

  lemma {:induction false} PowersGrow(a: nat, b: nat)
    requires a <= b
    ensures Pow10(a) <= Pow10(b)
  {
    if a < b {
      PowersGrow(a, b - 1);
    }
  }
}
