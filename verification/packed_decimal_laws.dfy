/**
 What the packed-decimal codec computes, and how its two directions undo each other.
 */
module PackedDecimalLaws {
  import opened Arithmetic
  import opened Texts
  import opened DecimalDigits
  import opened PackedDecimal

  function DigitsOf(ns: Digits): Digits
    requires |ns| >= 1
  {
    ns[..|ns| - 1]
  }

  function SignOf(ns: Digits): int
    requires |ns| >= 1
  {
    ns[|ns| - 1]
  }

  ghost predicate WellFormed(ns: Digits) {
    && |ns| >= 2 && |ns| % 2 == 0
    && AllDigits(DigitsOf(ns))
    && (SignOf(ns) == POSITIVE || SignOf(ns) == NEGATIVE)
  }

  /**
   Packing is rounding: the digits left in the field are those of the magnitude times 10^s, rounded
   to nearest with halves away from zero, modulo the capacity of the field. This covers carries
   through every digit and the wrap from 99..9 to 00..0.
   */
  lemma PackedValue(text: Text, n: nat, s: nat)
    requires n >= 1 && s <= 2 * n - 1 && IsDecimal(text)
    ensures var ns := PackedNibbles(text, n, s);
      && WellFormed(ns)
      && Value(DigitsOf(ns))
         == Rounded(Masked(WholePart(text)), Masked(FractionPart(text)), s) % Pow10(2 * n - 1)
      && SignOf(ns) == if |text| > 0 && text[0] == 0x2D then 0x0D else 0x0C
  {
    hide Rounded, Pow10, Value, KeptDigits, WholePart, FractionPart, Masked;
    var whole, fraction := Masked(WholePart(text)), Masked(FractionPart(text));
    KeptValue(whole, fraction, 2 * n - 1, s);
    SignedDigits(KeptDigits(whole, fraction, 2 * n - 1, s), IsNegative(text));
  }

  lemma SignedDigits(ds: Digits, negative: bool)
    requires AllDigits(ds) && |ds| % 2 == 1
    ensures var ns := ds + [SignNibble(negative)];
      WellFormed(ns) && DigitsOf(ns) == ds && (SignOf(ns) == NEGATIVE <==> negative)
  {
    var ns := ds + [SignNibble(negative)];
    assert DigitsOf(ns) == ds;
  }

  /** In characters: -12.5 packs into the two bytes 12 5D, +12.5 into 12 5C, and they print as that. */
  lemma CodecExample()
    ensures PackedNibbles([0x2D, 0x31, 0x32, 0x2E, 0x35], 2, 1) == [1, 2, 5, 13]
    ensures PackedNibbles([0x2B, 0x31, 0x32, 0x2E, 0x35], 2, 1) == [1, 2, 5, 12]
    ensures UnpackedText([1, 2, 5, 13], 1) == [0x2D, 0x31, 0x32, 0x2E, 0x35]
    ensures UnpackedText([1, 2, 5, 12], 1) == [0x2B, 0x31, 0x32, 0x2E, 0x35]
  {
    PackedExample(MINUS);
    PackedExample(PLUS);
    PrintedExample(13);
    PrintedExample(12);
  }

  lemma PackedExample(sign: bv8)
    requires sign == PLUS || sign == MINUS
    ensures PackedNibbles([sign, 0x31, 0x32, 0x2E, 0x35], 2, 1) == [1, 2, 5, if sign == 0x2D then 13 else 12]
  {
    hide KeptDigits, Masked, WholePart, FractionPart;
    var text, a, b := [sign, 0x31, 0x32, 0x2E, 0x35], [0x31, 0x32], [0x35];
    assert text == [sign] + a + [POINT] + b;
    PartsOf(sign, a, b);
    ExampleDigits();
    KeptExample();
  }

  lemma ExampleDigits()
    ensures Masked([0x31, 0x32]) == [1, 2] && Masked([0x35]) == [5]
  {
    assert Lo(0x31) == 1 && Lo(0x32) == 2 && Lo(0x35) == 5;
  }

  lemma KeptExample()
    ensures KeptDigits([1, 2], [5], 3, 1) == [1, 2, 5]
  {
    assert [1, 2] + [5] == [1, 2, 5];
  }

  lemma PrintedExample(sign: int)
    requires sign == 12 || sign == 13
    ensures UnpackedText([1, 2, 5, sign], 1) == [if sign == 13 then 0x2D else 0x2B, 0x31, 0x32, 0x2E, 0x35]
  {
    var ns := [1, 2, 5, sign];
    assert ns[..2] == [1, 2] && ns[2..3] == [5];
    assert CharOf(1) == 0x31 && CharOf(2) == 0x32 && CharOf(5) == 0x35;
    assert Printed([1, 2]) == [0x31, 0x32] && Printed([5]) == [0x35];
  }

  lemma KeptValue(whole: Digits, fraction: Digits, m: nat, s: nat)
    requires AllDigits(whole) && AllDigits(fraction)
    ensures AllDigits(KeptDigits(whole, fraction, m, s))
    ensures Value(KeptDigits(whole, fraction, m, s)) == Rounded(whole, fraction, s) % Pow10(m)
  {
    hide Rounded, Pow10, Value;
    RoundingByOneDigit(whole, fraction, s);
    FittedValue(whole + Scale(fraction, s), m, RoundsUp(fraction, s));
  }

  lemma FittedValue(all: Digits, m: nat, up: bool)
    requires AllDigits(all)
    ensures var digits := if up then Increment(Fit(all, m)) else Fit(all, m);
      AllDigits(digits) && Value(digits) == (Value(all) + if up then 1 else 0) % Pow10(m)
  {
    hide Pow10, Value, Fit;
    FitValue(all, m);
    if up {
      IncrementValue(Fit(all, m));
      ModOfSuccessor(Value(all), Pow10(m));
    }
  }

  lemma ModOfSuccessor(v: int, p: nat)
    requires p > 0
    ensures (v % p + 1) % p == (v + 1) % p
  {
    var q, r := v / p, v % p;
    assert v == q * p + r;
    if r + 1 == p {
      MulDistributes(q, 1, p);
      DivModUnique(v + 1, p, q + 1, 0);
      DivModUnique(p, p, 1, 0);
    } else {
      DivModUnique(v + 1, p, q, r + 1);
      DivModUnique(r + 1, p, 0, r + 1);
    }
  }

  // ---------- reading back printed fields ----------

  lemma DigitChar(d: int)
    requires 0 <= d <= 9
    ensures Lo(CharOf(d)) as int == d && CharOf(d) != POINT
  {
  }

  lemma MaskedPrinted(ds: Digits)
    requires AllDigits(ds)
    ensures Masked(Printed(ds)) == ds && POINT !in Printed(ds)
  {
    forall i | 0 <= i < |ds|
      ensures Masked(Printed(ds))[i] == ds[i] && Printed(ds)[i] != POINT
    {
      DigitChar(ds[i]);
    }
  }

  lemma MaskedBlanks(k: nat)
    ensures Masked(Copies(BLANK, k)) == Zeros(k) && POINT !in Copies(BLANK, k)
  {
  }

  lemma {:induction false} PointIsAt(a: Text, b: Text)
    requires POINT !in a
    ensures PointAt(a) == |a| && PointAt(a + [POINT] + b) == |a|
  {
    if |a| == 0 {
    } else {
      PointIsAt(a[1..], b);
      assert (a + [POINT] + b)[1..] == a[1..] + [POINT] + b;
    }
  }

  lemma PartsOf(sign: bv8, a: Text, b: Text)
    requires sign == PLUS || sign == MINUS
    requires POINT !in a
    ensures var text := [sign] + a + [POINT] + b;
      WholePart(text) == a && FractionPart(text) == b
    ensures WholePart([sign] + a) == a && FractionPart([sign] + a) == []
  {
    PointIsAt(a, b);
    assert Unsigned([sign] + a + [POINT] + b) == a + [POINT] + b;
    assert Unsigned([sign] + a) == a;
  }

  /** The digits before and behind the point of a field with s decimal places. */
  function WholeOf(ns: Digits, s: nat): Digits
    requires s < |ns|
  {
    ns[..|ns| - 1 - s]
  }

  function FractionOf(ns: Digits, s: nat): Digits
    requires s < |ns|
  {
    ns[|ns| - 1 - s..|ns| - 1]
  }

  /** What the packing direction sees of a printed field with k blanks behind it. */
  lemma PartsOfUnpacked(ns: Digits, s: nat, k: nat)
    requires WellFormed(ns) && s < |ns|
    ensures var text := UnpackedText(ns, s) + Copies(BLANK, k);
      && IsDecimal(text)
      && PackedNibbles(text, |ns| / 2, s) ==
         if s == 0 then PackedParts(WholeOf(ns, 0) + Zeros(k), [], SignOf(ns) == NEGATIVE, |ns| / 2, 0)
         else PackedParts(WholeOf(ns, s), FractionOf(ns, s) + Zeros(k), SignOf(ns) == NEGATIVE, |ns| / 2, s)
  {
    hide Printed, Masked, WholePart, FractionPart, IsNegative, PackedParts, UnpackedText, WellFormed;
    var front, back := WholeOf(ns, s), FractionOf(ns, s);
    TextOfUnpacked(ns, s);
    if s == 0 {
      PartsOfInteger(front, ns[|ns| - 1], k);
      assert UnpackedText(ns, s) + Copies(BLANK, k) == [SignChar(ns[|ns| - 1])] + Printed(front) + Copies(BLANK, k);
    } else {
      PartsOfDecimal(front, back, ns[|ns| - 1], k);
      assert UnpackedText(ns, s) + Copies(BLANK, k)
          == [SignChar(ns[|ns| - 1])] + Printed(front) + [POINT] + Printed(back) + Copies(BLANK, k);
    }
  }

  lemma TextOfUnpacked(ns: Digits, s: nat)
    requires WellFormed(ns) && s < |ns|
    ensures AllDigits(WholeOf(ns, s)) && AllDigits(FractionOf(ns, s))
    ensures UnpackedText(ns, s) == [SignChar(ns[|ns| - 1])] + Printed(WholeOf(ns, s))
                                   + if s == 0 then [] else [POINT] + Printed(FractionOf(ns, s))
  {
    hide Printed;
    var digits := ns[..|ns| - 1];
    assert forall i :: 0 <= i < |ns| - 1 - s ==> WholeOf(ns, s)[i] == digits[i];
    assert forall i :: 0 <= i < s ==> FractionOf(ns, s)[i] == digits[|ns| - 1 - s + i];
  }

  lemma PartsOfInteger(front: Digits, sign: int, k: nat)
    requires AllDigits(front)
    ensures var text := [SignChar(sign)] + Printed(front) + Copies(BLANK, k);
      && Masked(WholePart(text)) == front + Zeros(k) && Masked(FractionPart(text)) == []
      && (IsNegative(text) <==> sign == NEGATIVE)
  {
    MaskedPrinted(front);
    MaskedBlanks(k);
    var a := Printed(front) + Copies(BLANK, k);
    assert [SignChar(sign)] + Printed(front) + Copies(BLANK, k) == [SignChar(sign)] + a;
    PartsOf(SignChar(sign), a, []);
    assert Masked(a) == Masked(Printed(front)) + Masked(Copies(BLANK, k));
  }

  lemma PartsOfDecimal(front: Digits, back: Digits, sign: int, k: nat)
    requires AllDigits(front) && AllDigits(back)
    ensures var text := [SignChar(sign)] + Printed(front) + [POINT] + Printed(back) + Copies(BLANK, k);
      && Masked(WholePart(text)) == front && Masked(FractionPart(text)) == back + Zeros(k)
      && (IsNegative(text) <==> sign == NEGATIVE)
  {
    MaskedPrinted(front);
    MaskedPrinted(back);
    MaskedBlanks(k);
    var b := Printed(back) + Copies(BLANK, k);
    assert [SignChar(sign)] + Printed(front) + [POINT] + Printed(back) + Copies(BLANK, k)
        == [SignChar(sign)] + Printed(front) + [POINT] + b;
    PartsOf(SignChar(sign), Printed(front), b);
    assert Masked(b) == Masked(Printed(back)) + Masked(Copies(BLANK, k));
  }

  /**
   Unpacking then packing gives a well-formed field back, with any number of blanks behind the text
   when there are decimal places, and with none when there are not.
   */
  lemma UnpackThenPack(ns: Digits, s: nat, k: nat)
    requires WellFormed(ns) && s < |ns|
    requires s > 0 || k == 0
    ensures IsDecimal(UnpackedText(ns, s) + Copies(BLANK, k))
    ensures PackedNibbles(UnpackedText(ns, s) + Copies(BLANK, k), |ns| / 2, s) == ns
  {
    PartsOfUnpacked(ns, s, k);
    if s == 0 {
      assert WholeOf(ns, 0) + Zeros(0) == WholeOf(ns, 0);
      PackedAgain(ns, 0, 0);
      assert FractionOf(ns, 0) + Zeros(0) == [];
    } else {
      PackedAgain(ns, s, k);
    }
  }

  lemma PackedAgain(ns: Digits, s: nat, k: nat)
    requires WellFormed(ns) && s < |ns|
    ensures PackedParts(WholeOf(ns, s), FractionOf(ns, s) + Zeros(k), SignOf(ns) == NEGATIVE, |ns| / 2, s) == ns
  {
    var fraction := FractionOf(ns, s) + Zeros(k);
    assert WholeOf(ns, s) + Scale(fraction, s) == ns[..|ns| - 1];
    assert !RoundsUp(fraction, s);
    assert ns == ns[..|ns| - 1] + [ns[|ns| - 1]];
  }

  /**
   Blanks behind an integer shift it to the left: packed unstripped, a field with no decimal places
   comes back unchanged exactly when all its digits are zero.
   */
  lemma UnpackThenPackUnstripped(ns: Digits, s: nat, k: nat)
    requires WellFormed(ns) && s < |ns|
    ensures PackedNibbles(UnpackedText(ns, s) + Copies(BLANK, k), |ns| / 2, s) == ns
       <==> s > 0 || k == 0 || forall i :: 0 <= i < |ns| - 1 ==> ns[i] == 0
  {
    if s > 0 || k == 0 {
      UnpackThenPack(ns, s, k);
    } else {
      PartsOfUnpacked(ns, 0, k);
      PackedShifted(ns, k);
    }
  }

  lemma PackedShifted(ns: Digits, k: nat)
    requires WellFormed(ns) && k > 0
    ensures PackedParts(WholeOf(ns, 0) + Zeros(k), [], SignOf(ns) == NEGATIVE, |ns| / 2, 0) == ns
       <==> forall i :: 0 <= i < |ns| - 1 ==> ns[i] == 0
  {
    var m := |ns| - 1;
    var all := WholeOf(ns, 0) + Zeros(k);
    assert all + Scale([], 0) == all;
    var digits := all[k..];
    assert PackedParts(all, [], SignOf(ns) == NEGATIVE, |ns| / 2, 0) == digits + [SignOf(ns)];
    assert ns == DigitsOf(ns) + [SignOf(ns)];
    ShiftedDigits(ns, digits, k);
  }

  lemma ShiftedDigits(ns: Digits, digits: Digits, k: nat)
    requires |ns| >= 1 && k > 0 && digits == (DigitsOf(ns) + Zeros(k))[k..]
    ensures digits == DigitsOf(ns) <==> forall i :: 0 <= i < |ns| - 1 ==> ns[i] == 0
  {
    var m := |ns| - 1;
    assert forall i :: 0 <= i < m ==> digits[i] == DigitAt(ns, m, i + k);
    if digits == DigitsOf(ns) {
      assert forall i :: 0 <= i < m ==> digits[i] == ns[i];
      forall i | 0 <= i < m
        ensures ns[i] == 0
      {
        ShiftFixpoint(ns, m, k, i);
      }
    }
  }

  function DigitAt(ns: Digits, m: nat, i: nat): int
    requires m <= |ns|
  {
    if i < m then ns[i] else 0
  }

  lemma {:induction false} ShiftFixpoint(ns: Digits, m: nat, k: nat, i: nat)
    requires m <= |ns| && k > 0
    requires forall j: nat :: j < m ==> DigitAt(ns, m, j) == DigitAt(ns, m, j + k)
    ensures DigitAt(ns, m, i) == 0
    decreases m - i
  {
    if i < m {
      ShiftFixpoint(ns, m, k, i + k);
    }
  }

  // ---------- canonical text ----------

  /** The text of a number given by its sign and all the digits of its field, s of them behind the point. */
  function CanonicalText(negative: bool, ds: Digits, s: nat): Text
    requires s <= |ds|
  {
    UnpackedText(ds + [SignNibble(negative)], s)
  }

  /**
   Packing then unpacking prints the rounded number, whatever text it was packed from: ds is the one
   numeral of 2n-1 digits that has its value.
   */
  lemma PackThenUnpack(text: Text, n: nat, s: nat, ds: Digits)
    requires n >= 1 && s <= 2 * n - 1 && IsDecimal(text)
    requires |ds| == 2 * n - 1 && AllDigits(ds)
    requires Value(ds) == Rounded(Masked(WholePart(text)), Masked(FractionPart(text)), s) % Pow10(2 * n - 1)
    ensures UnpackedText(PackedNibbles(text, n, s), s) == CanonicalText(IsNegative(text), ds, s)
  {
    var ns := PackedNibbles(text, n, s);
    PackedValue(text, n, s);
    ValueInjective(DigitsOf(ns), ds);
  }

  /**
   A field sent out as text and fetched back from the whole buffer keeps its bytes if and only if it has decimal
   places, or all its digits are zero: the blanks behind an integer shift it.
   */
  method SendAndFetch(comp3: array<bv8>, bytelen: int, precision: int, num: array<bv8>)
    requires comp3 != num && num.Length == 22
    requires 1 <= bytelen <= 10 && bytelen <= comp3.Length && 0 <= precision <= 2 * bytelen - 1
    requires WellFormed(Nibbles(comp3[..bytelen]))
    modifies comp3, num
    ensures comp3[..bytelen] == old(comp3[..bytelen]) <==>
      precision > 0 || forall i :: 0 <= i < 2 * bytelen - 1 ==> old(Nibbles(comp3[..bytelen]))[i] == 0
    ensures forall k :: bytelen <= k < comp3.Length ==> comp3[k] == old(comp3[k])
  {
    hide WellFormed, Nibbles, UnpackedText, PackedNibbles, IsDecimal;
    ghost var field := comp3[..bytelen];
    UnpackComp3(comp3, bytelen, precision, num);
    ghost var ns := Nibbles(field);
    SentText(ns, precision, UnpackedText(ns, precision), num[..]);
    assert num[..][..21] == num[..21];
    MoveComp3(comp3, bytelen, precision, num[..21]);
    SameNibbles(comp3[..bytelen], field);
  }

  lemma SameNibbles(a: seq<bv8>, b: seq<bv8>)
    ensures Nibbles(a) == Nibbles(b) <==> a == b
  {
    if Nibbles(a) == Nibbles(b) {
      NibblesDetermineBytes(a, b);
    }
  }

  lemma SentText(ns: Digits, s: nat, t: Text, num: seq<bv8>)
    requires WellFormed(ns) && s < |ns| <= 20
    requires t == UnpackedText(ns, s) && num == t + Copies(BLANK, 21 - |t|) + [0]
    ensures IsDecimal(num[..21])
    ensures PackedNibbles(num[..21], |ns| / 2, s) == ns <==> s > 0 || forall i :: 0 <= i < |ns| - 1 ==> ns[i] == 0
  {
    hide *;
    TextLength(ns, s);
    DropTerminator(t, num);
    IsText(ns, s, 21 - |t|);
    UnpackThenPackUnstripped(ns, s, 21 - |t|);
  }

  lemma TextLength(ns: Digits, s: nat)
    requires WellFormed(ns) && s < |ns| <= 20
    ensures |UnpackedText(ns, s)| <= 21 && (s == 0 ==> |UnpackedText(ns, s)| < 21)
  {
  }

  lemma IsText(ns: Digits, s: nat, k: nat)
    requires WellFormed(ns) && s < |ns|
    ensures IsDecimal(UnpackedText(ns, s) + Copies(BLANK, k))
  {
    hide WellFormed, IsDecimal, UnpackedText;
    PartsOfUnpacked(ns, s, k);
  }

  lemma DropTerminator(t: Text, num: Text)
    requires |t| <= 21 && num == t + Copies(BLANK, 21 - |t|) + [0]
    ensures num[..21] == t + Copies(BLANK, 21 - |t|)
  {
  }
}
