/**
 The packed-decimal (COMP-3) codec of the ESQL runtime.

 A field of n bytes is 2n nibbles: 2n-1 decimal digits, most significant first, then a sign nibble.
 `MoveComp3` packs decimal text into such a field and `UnpackComp3` prints a field as text; both
 work in place on bytes. `PackedNibbles` and `UnpackedText` say what they produce, and the lemmas
 relate those to numbers and to each other.
 */
module PackedDecimal {
  import opened Texts
  import opened DecimalDigits

  type Text = seq<bv8>

  const PLUS: bv8 := 0x2B
  const MINUS: bv8 := 0x2D
  const POINT: bv8 := 0x2E
  const ZERO: bv8 := 0x30
  const BLANK: bv8 := 0x20
  const POSITIVE := 0x0C
  const NEGATIVE := 0x0D

  // ---------- nibbles of bytes ----------

  function Hi(b: bv8): bv8 { b >> 4 }

  function Lo(b: bv8): bv8 { b & 0x0F }

  /** The nibbles of a byte sequence, high nibble first. */
  function Nibbles(bytes: seq<bv8>): (ns: Digits)
    ensures |ns| == 2 * |bytes|
  {
    if |bytes| == 0 then []
    else Nibbles(bytes[..|bytes| - 1]) + [Hi(bytes[|bytes| - 1]) as int, Lo(bytes[|bytes| - 1]) as int]
  }

  ghost predicate HasNibbles(bytes: seq<bv8>, ns: Digits) {
    && |ns| == 2 * |bytes|
    && forall i :: 0 <= i < |bytes| ==> Hi(bytes[i]) as int == ns[2 * i] && Lo(bytes[i]) as int == ns[2 * i + 1]
  }

  lemma {:induction false} NibblesAre(bytes: seq<bv8>, ns: Digits)
    requires HasNibbles(bytes, ns)
    ensures Nibbles(bytes) == ns
  {
    if |bytes| == 0 {
    } else {
      var k := |bytes| - 1;
      NibblesAre(bytes[..k], ns[..2 * k]);
      assert ns == ns[..2 * k] + [ns[2 * k], ns[2 * k + 1]];
    }
  }

  lemma {:induction false} HasItsNibbles(bytes: seq<bv8>)
    ensures HasNibbles(bytes, Nibbles(bytes))
  {
    if |bytes| == 0 {
    } else {
      HasItsNibbles(bytes[..|bytes| - 1]);
    }
  }

  lemma ByteOfNibbles(a: bv8, b: bv8)
    requires Hi(a) == Hi(b) && Lo(a) == Lo(b)
    ensures a == b
  {
  }

  lemma NibblesDetermineBytes(a: seq<bv8>, b: seq<bv8>)
    requires Nibbles(a) == Nibbles(b)
    ensures a == b
  {
    assert |Nibbles(a)| == |Nibbles(b)|;
    HasItsNibbles(a);
    HasItsNibbles(b);
    forall i | 0 <= i < |a|
      ensures a[i] == b[i]
    {
      assert Nibbles(a)[2 * i] == Nibbles(b)[2 * i] && Nibbles(a)[2 * i + 1] == Nibbles(b)[2 * i + 1];
      ByteOfNibbles(a[i], b[i]);
    }
  }

  // The byte expressions the codec writes with, each with its effect on the two nibbles.

  method HighNibble(c: bv8) returns (b: bv8)
    ensures Hi(b) == Lo(c) && Lo(b) == 0
  {
    b := (c & 0x0F) << 4;
  }

  method LowNibble(c: bv8) returns (b: bv8)
    ensures Hi(b) == 0 && Lo(b) == Lo(c)
  {
    b := c & 0x0F;
  }

  method OrHigh(b: bv8, c: bv8) returns (r: bv8)
    requires Hi(b) == 0
    ensures Hi(r) == Lo(c) && Lo(r) == Lo(b)
  {
    r := b | ((c & 0x0F) << 4);
  }

  method OrLow(b: bv8, c: bv8) returns (r: bv8)
    requires Lo(b) == 0
    ensures Hi(r) == Hi(b) && Lo(r) == Lo(c)
  {
    r := b | (c & 0x0F);
  }

  method ClearLow(b: bv8) returns (r: bv8)
    ensures Hi(r) == Hi(b) && Lo(r) == 0
  {
    r := b & 0xF0;
  }

  method AddHigh(b: bv8) returns (r: bv8)
    ensures Hi(b) as int < 9 ==> Hi(r) as int == Hi(b) as int + 1 && Lo(r) == Lo(b)
  {
    r := b + 0x10;
  }

  method AddLow(b: bv8) returns (r: bv8)
    ensures Lo(b) as int < 9 ==> Hi(r) == Hi(b) && Lo(r) as int == Lo(b) as int + 1
  {
    r := b + 0x01;
  }

  // ---------- decimal text ----------

  predicate HasSign(text: Text) {
    |text| > 0 && (text[0] == PLUS || text[0] == MINUS)
  }

  predicate IsNegative(text: Text) {
    |text| > 0 && text[0] == MINUS
  }

  function Unsigned(text: Text): Text {
    if HasSign(text) then text[1..] else text
  }

  /** Index of the first decimal point, or the length when there is none. */
  function PointAt(text: Text): (k: nat)
    ensures k <= |text|
    ensures k < |text| ==> text[k] == POINT
    ensures POINT !in text[..k]
  {
    if |text| == 0 || text[0] == POINT then 0
    else
      var k := PointAt(text[1..]);
      assert text[..k + 1] == [text[0]] + text[1..][..k];
      k + 1
  }

  function WholePart(text: Text): Text {
    var u := Unsigned(text);
    u[..PointAt(u)]
  }

  function FractionPart(text: Text): Text {
    var u := Unsigned(text);
    if PointAt(u) < |u| then u[PointAt(u) + 1..] else []
  }

  /** Characters enter the codec through their low nibble; a blank counts as the digit 0. */
  function Masked(text: Text): (ds: Digits)
    ensures |ds| == |text|
  {
    seq(|text|, i requires 0 <= i < |text| => Lo(text[i]) as int)
  }

  /** Optional sign, digits (or blanks), and optionally a point and more digits (or blanks). */
  ghost predicate IsDecimal(text: Text) {
    AllDigits(Masked(WholePart(text))) && AllDigits(Masked(FractionPart(text)))
  }

  function SignNibble(negative: bool): int {
    if negative then NEGATIVE else POSITIVE
  }

  /** The m digits, s of them behind the point, that a number in two parts is rounded to. */
  function KeptDigits(whole: Digits, fraction: Digits, m: nat, s: nat): (ds: Digits)
    ensures |ds| == m
  {
    var kept := Fit(whole + Scale(fraction, s), m);
    if RoundsUp(fraction, s) then Increment(kept) else kept
  }

  /** The nibbles of a field of n bytes, s of its digits behind the point, for a number in two parts. */
  function PackedParts(whole: Digits, fraction: Digits, negative: bool, n: nat, s: nat): (ns: Digits)
    requires n >= 1
    ensures |ns| == 2 * n
  {
    KeptDigits(whole, fraction, 2 * n - 1, s) + [SignNibble(negative)]
  }

  /** What packing `text` into n bytes with s decimal places leaves in the field. */
  function PackedNibbles(text: Text, n: nat, s: nat): (ns: Digits)
    requires n >= 1
    ensures |ns| == 2 * n
  {
    PackedParts(Masked(WholePart(text)), Masked(FractionPart(text)), IsNegative(text), n, s)
  }

  // ---------- packing ----------

  /** Digit at position j when `whole` is right-aligned before position ctf. */
  function WholeDigit(whole: Digits, ctf: int, j: int): int {
    if 0 <= j < ctf && j + |whole| >= ctf then whole[j + |whole| - ctf] else 0
  }

  /** Digit at position j when `fraction` starts at position ctf. */
  function FractionDigit(fraction: Digits, ctf: int, j: int): int {
    if 0 <= j - ctf < |fraction| then fraction[j - ctf] else 0
  }

  /** The two parts laid out around nibble position ctf, before rounding. */
  function PlacedDigit(whole: Digits, fraction: Digits, ctf: int, j: int): int {
    if j < ctf then WholeDigit(whole, ctf, j) else FractionDigit(fraction, ctf, j)
  }

  function Placed(whole: Digits, fraction: Digits, ctf: nat, len: nat): (ns: Digits)
    ensures |ns| == len
  {
    seq(len, j requires 0 <= j < len => PlacedDigit(whole, fraction, ctf, j))
  }

  lemma PlacedIsFitted(whole: Digits, fraction: Digits, n: nat, s: nat)
    requires n >= 1 && s <= 2 * n - 1
    ensures Placed(whole, fraction, 2 * n - 1 - s, 2 * n)
         == Fit(whole + Scale(fraction, s), 2 * n - 1) + [if s < |fraction| then fraction[s] else 0]
  {
  }

  ghost predicate ByteIs(b: bv8, hi: int, lo: int) {
    Hi(b) as int == hi && Lo(b) as int == lo
  }

  /** Byte i of a field whose nibbles are those of `Placed`. */
  ghost predicate BytePlaced(b: bv8, i: int, whole: Digits, fraction: Digits, ctf: int) {
    ByteIs(b, PlacedDigit(whole, fraction, ctf, 2 * i), PlacedDigit(whole, fraction, ctf, 2 * i + 1))
  }

  method ClearField(comp3: array<bv8>, bytelen: int)
    requires 0 <= bytelen <= comp3.Length
    modifies comp3
    ensures forall k :: 0 <= k < bytelen ==> comp3[k] == 0
    ensures forall k :: bytelen <= k < comp3.Length ==> comp3[k] == old(comp3[k])
  {
    for i := 0 to bytelen
      invariant forall k :: 0 <= k < i ==> comp3[k] == 0
      invariant forall k :: bytelen <= k < comp3.Length ==> comp3[k] == old(comp3[k])
    {
      comp3[i] := 0;
    }
  }

  /** Fill the digit positions before nibble ctf from the right end of the whole part. */
  method PlaceWhole(comp3: array<bv8>, bytelen: int, ctf: int, whole: Text)
    requires 1 <= bytelen <= comp3.Length && 0 <= ctf <= 2 * bytelen - 1
    requires forall k :: 0 <= k < bytelen ==> comp3[k] == 0
    modifies comp3
    ensures forall i :: 0 <= i < bytelen ==> BytePlaced(comp3[i], i, Masked(whole), [], ctf)
    ensures forall k :: bytelen <= k < comp3.Length ==> comp3[k] == old(comp3[k])
  {
    ghost var w := Masked(whole);
    assert ByteIs(0, 0, 0);
    var pw := |whole|;
    var ctb := ctf / 2;
    var px := ctb;
    if ctf % 2 != 0 {
      if pw > 0 {
        pw := pw - 1;
        comp3[px] := HighNibble(whole[pw]);
      }
    }
    assert BytePlaced(comp3[px], px, w, [], ctf);
    PlaceWholePairs(comp3, bytelen, ctf, whole, pw, ctb);
  }

  /** The two-digits-per-byte loop of `PlaceWhole`, from text position pw0 and byte ctb0 down. */
  method PlaceWholePairs(comp3: array<bv8>, bytelen: int, ctf: int, whole: Text, pw0: int, ctb0: int)
    requires 0 <= ctb0 < bytelen <= comp3.Length && 2 * ctb0 <= ctf <= 2 * ctb0 + 1
    requires pw0 == if |whole| >= ctf - 2 * ctb0 then |whole| - (ctf - 2 * ctb0) else 0
    requires forall i :: ctb0 <= i < bytelen ==> BytePlaced(comp3[i], i, Masked(whole), [], ctf)
    requires forall i :: 0 <= i < ctb0 ==> comp3[i] == 0
    modifies comp3
    ensures forall i :: 0 <= i < bytelen ==> BytePlaced(comp3[i], i, Masked(whole), [], ctf)
    ensures forall k :: bytelen <= k < comp3.Length ==> comp3[k] == old(comp3[k])
  {
    ghost var w := Masked(whole);
    var pw, ctb := pw0, ctb0;
    var px := ctb - 1;
    assert ByteIs(0, 0, 0);
    while ctb > 0
      invariant 0 <= ctb <= ctb0 && px == ctb - 1
      invariant pw == if |whole| >= ctf - 2 * ctb then |whole| - (ctf - 2 * ctb) else 0
      invariant forall i :: ctb <= i < bytelen ==> BytePlaced(comp3[i], i, w, [], ctf)
      invariant forall i :: 0 <= i < ctb ==> comp3[i] == 0
      invariant forall k :: bytelen <= k < comp3.Length ==> comp3[k] == old(comp3[k])
    {
      if pw <= 0 { break; }
      pw := pw - 1;
      comp3[px] := LowNibble(whole[pw]);
      assert ByteIs(comp3[px], 0, PlacedDigit(w, [], ctf, 2 * px + 1));
      if pw <= 0 { break; }
      pw := pw - 1;
      comp3[px] := OrHigh(comp3[px], whole[pw]);
      px := px - 1;
      ctb := ctb - 1;
    }
  }

  /** Fill positions from nibble ctf on; `full` says that the last nibble (the sign's) was passed. */
  method PlaceFraction(comp3: array<bv8>, bytelen: int, ctf: int, fraction: Text, ghost whole: Digits)
      returns (full: bool)
    requires 1 <= bytelen <= comp3.Length && 0 <= ctf <= 2 * bytelen - 1
    requires forall i :: 0 <= i < bytelen ==> BytePlaced(comp3[i], i, whole, [], ctf)
    modifies comp3
    ensures forall i :: 0 <= i < bytelen ==> BytePlaced(comp3[i], i, whole, Masked(fraction), ctf)
    ensures forall k :: bytelen <= k < comp3.Length ==> comp3[k] == old(comp3[k])
    ensures |fraction| > 2 * bytelen - 1 - ctf ==> full
  {
    ghost var f := Masked(fraction);
    var pt := 0;
    var px := ctf / 2;
    if ctf % 2 != 0 {
      if pt < |fraction| {
        comp3[px] := OrLow(comp3[px], fraction[pt]);
        pt := pt + 1;
      }
      assert BytePlaced(comp3[px], px, whole, f, ctf);
      px := px + 1;
    }
    px := PlaceFractionPairs(comp3, bytelen, ctf, fraction, whole, pt, px);
    full := px == bytelen;
  }

  /** The two-digits-per-byte loop of `PlaceFraction`, from text position pt0 and byte px0 on. */
  method PlaceFractionPairs(comp3: array<bv8>, bytelen: int, ctf: int, fraction: Text, ghost whole: Digits,
                            pt0: int, px0: int) returns (px: int)
    requires 0 <= px0 <= bytelen <= comp3.Length && 2 * px0 - 1 <= ctf <= 2 * px0
    requires pt0 == if |fraction| <= 2 * px0 - ctf then |fraction| else 2 * px0 - ctf
    requires forall i :: 0 <= i < px0 ==> BytePlaced(comp3[i], i, whole, Masked(fraction), ctf)
    requires forall i :: px0 <= i < bytelen ==> ByteIs(comp3[i], 0, 0)
    modifies comp3
    ensures forall i :: 0 <= i < bytelen ==> BytePlaced(comp3[i], i, whole, Masked(fraction), ctf)
    ensures forall k :: bytelen <= k < comp3.Length ==> comp3[k] == old(comp3[k])
    ensures px <= bytelen && (|fraction| >= 2 * bytelen - ctf ==> px == bytelen)
  {
    ghost var f := Masked(fraction);
    px := px0;
    var pt := pt0;
    while px < bytelen
      invariant px0 <= px <= bytelen
      invariant pt == if |fraction| <= 2 * px - ctf then |fraction| else 2 * px - ctf
      invariant forall i :: 0 <= i < px ==> BytePlaced(comp3[i], i, whole, f, ctf)
      invariant forall i :: px <= i < bytelen ==> ByteIs(comp3[i], 0, 0)
      invariant forall k :: bytelen <= k < comp3.Length ==> comp3[k] == old(comp3[k])
    {
      if pt == |fraction| { break; }
      comp3[px] := HighNibble(fraction[pt]);
      pt := pt + 1;
      assert ByteIs(comp3[px], PlacedDigit(whole, f, ctf, 2 * px), 0);
      if pt == |fraction| { break; }
      comp3[px] := OrLow(comp3[px], fraction[pt]);
      pt := pt + 1;
      px := px + 1;
    }
  }

  /** All nibbles of a field but the last, rounded by looking at the last. */
  function RoundedNibbles(ns: Digits): (r: Digits)
    requires |ns| > 0
    ensures |r| == |ns|
  {
    var kept, cut := ns[..|ns| - 1], ns[|ns| - 1];
    (if cut >= 5 then Increment(kept) else kept) + [cut]
  }

  /** One byte of the carry chain: what becomes of its two digits, and of those before it. */
  lemma CarryStep(ns: Digits, goal: Digits, px: int)
    requires 0 <= px && 2 * px + 2 <= |ns| && 2 * px + 2 <= |goal|
    requires goal[..2 * px + 2] == Increment(ns[..2 * px + 2])
    ensures ns[2 * px + 1] != 9 ==>
      goal[..2 * px] == ns[..2 * px] && goal[2 * px] == ns[2 * px] && goal[2 * px + 1] == ns[2 * px + 1] + 1
    ensures ns[2 * px + 1] == 9 && ns[2 * px] != 9 ==>
      goal[..2 * px] == ns[..2 * px] && goal[2 * px] == ns[2 * px] + 1 && goal[2 * px + 1] == 0
    ensures ns[2 * px + 1] == 9 && ns[2 * px] == 9 ==>
      goal[..2 * px] == Increment(ns[..2 * px]) && goal[2 * px] == 0 && goal[2 * px + 1] == 0
  {
    var m := 2 * px + 2;
    assert ns[..m][..m - 1] == ns[..m - 1] && ns[..m - 1][..m - 2] == ns[..m - 2];
    assert goal[..m][m - 2] == goal[m - 2] && goal[..m][m - 1] == goal[m - 1];
    assert goal[..m - 2] == goal[..m][..m - 2];
  }

  /** Add one to the low digit of a byte, carrying into its high digit; `more` is the carry out. */
  method CarryByte(b: bv8) returns (r: bv8, more: bool)
    ensures more <==> ByteIs(b, 9, 9)
    ensures more ==> ByteIs(r, 0, 0)
    ensures Lo(b) as int < 9 ==> ByteIs(r, Hi(b) as int, Lo(b) as int + 1)
    ensures Lo(b) as int == 9 && Hi(b) as int < 9 ==> ByteIs(r, Hi(b) as int + 1, 0)
  {
    more := false;
    if Lo(b) == 9 {
      r := ClearLow(b);
      if Hi(r) == 9 {
        return 0, true;
      }
      r := AddHigh(r);
    } else {
      r := AddLow(b);
    }
  }

  ghost predicate ByteFrom(b: bv8, i: int, ns: Digits) {
    0 <= 2 * i < |ns| - 1 && ByteIs(b, ns[2 * i], ns[2 * i + 1])
  }

  /** The carry out of the last byte's high digit, run leftwards through the bytes. */
  method Carry(comp3: array<bv8>, bytelen: int, ghost ns: Digits, ghost goal: Digits)
    requires 1 <= bytelen <= comp3.Length && |ns| == |goal| == 2 * bytelen
    requires goal == Increment(ns[..2 * bytelen - 1]) + [ns[2 * bytelen - 1]]
    requires ns[2 * bytelen - 2] == 9 && ByteIs(comp3[bytelen - 1], 0, ns[2 * bytelen - 1])
    requires forall i :: 0 <= i < bytelen - 1 ==> ByteFrom(comp3[i], i, ns)
    modifies comp3
    ensures AllDigits(ns) ==> forall i :: 0 <= i < bytelen ==> ByteFrom(comp3[i], i, goal)
    ensures forall k :: bytelen <= k < comp3.Length ==> comp3[k] == old(comp3[k])
  {
    hide Increment;
    var px := bytelen - 1;
    LastDigitIsNine(ns, goal, bytelen);
    while px > 0
      invariant 0 <= px < bytelen
      invariant forall k :: bytelen <= k < comp3.Length ==> comp3[k] == old(comp3[k])
      invariant forall i :: 0 <= i < px ==> ByteFrom(comp3[i], i, ns)
      invariant forall i :: px <= i < bytelen ==> ByteFrom(comp3[i], i, goal)
      invariant goal[..2 * px] == Increment(ns[..2 * px])
    {
      px := px - 1;
      CarryStep(ns, goal, px);
      assert ByteFrom(comp3[px], px, ns);
      var more;
      comp3[px], more := CarryByte(comp3[px]);
      if !more {
        UnchangedBefore(ns, goal, px);
        break;
      }
    }
  }

  lemma LastDigitIsNine(ns: Digits, goal: Digits, n: int)
    requires n >= 1 && |ns| == |goal| == 2 * n && ns[2 * n - 2] == 9
    requires goal == Increment(ns[..2 * n - 1]) + [ns[2 * n - 1]]
    ensures goal[2 * n - 2] == 0 && goal[..2 * n - 2] == Increment(ns[..2 * n - 2])
  {
    assert ns[..2 * n - 1][..2 * n - 2] == ns[..2 * n - 2];
  }

  lemma UnchangedBefore(ns: Digits, goal: Digits, px: int)
    requires |ns| == |goal| && 0 <= 2 * px < |ns| - 1
    requires goal[..2 * px] == ns[..2 * px]
    ensures forall b, i :: 0 <= i < px && ByteFrom(b, i, ns) ==> ByteFrom(b, i, goal)
  {
    forall b: bv8, i | 0 <= i < px && ByteFrom(b, i, ns)
      ensures ByteFrom(b, i, goal)
    {
      assert goal[2 * i] == goal[..2 * px][2 * i] && goal[2 * i + 1] == goal[..2 * px][2 * i + 1];
    }
  }

  /** Half-up rounding by the digit that sits in the sign position. */
  method RoundHalfUp(comp3: array<bv8>, bytelen: int, ghost ns: Digits)
    requires 1 <= bytelen <= comp3.Length && |ns| == 2 * bytelen
    requires forall i :: 0 <= i < bytelen ==> ByteFrom(comp3[i], i, ns)
    modifies comp3
    ensures AllDigits(ns) ==> forall i :: 0 <= i < bytelen ==> ByteFrom(comp3[i], i, RoundedNibbles(ns))
    ensures forall k :: bytelen <= k < comp3.Length ==> comp3[k] == old(comp3[k])
  {
    ghost var goal := RoundedNibbles(ns);
    var px := bytelen - 1;
    assert ByteFrom(comp3[px], px, ns);
    if Lo(comp3[px]) >= 5 {
      if Hi(comp3[px]) == 9 {
        comp3[px] := LowNibble(comp3[px]);
        Carry(comp3, bytelen, ns, goal);
      } else {
        comp3[px] := AddHigh(comp3[px]);
        assert goal[..2 * px] == ns[..2 * px];
        UnchangedBefore(ns, goal, px);
      }
    } else {
      assert goal == ns;
    }
  }

  /** Two fields that differ in nothing but the sign nibble, which `after` has as `sign`. */
  ghost predicate SignSet(before: seq<bv8>, after: seq<bv8>, sign: int) {
    && |before| == |after| > 0
    && (forall i :: 0 <= i < |before| - 1 ==> after[i] == before[i])
    && ByteIs(after[|after| - 1], Hi(before[|before| - 1]) as int, sign)
  }

  method SetSign(comp3: array<bv8>, bytelen: int, positive: bool)
    requires 1 <= bytelen <= comp3.Length
    modifies comp3
    ensures SignSet(old(comp3[..bytelen]), comp3[..bytelen], SignNibble(!positive))
    ensures forall k :: bytelen <= k < comp3.Length ==> comp3[k] == old(comp3[k])
  {
    var pw := bytelen - 1;
    comp3[pw] := ClearLow(comp3[pw]);
    if positive {
      comp3[pw] := OrLow(comp3[pw], 0x0C);
    } else {
      comp3[pw] := OrLow(comp3[pw], 0x0D);
    }
  }

  /** The nibbles of a number before rounding; the digit behind the last kept one is in the sign position. */
  function LaidOut(text: Text, n: nat, s: nat): (ns: Digits)
    requires n >= 1 && s <= 2 * n - 1
    ensures |ns| == 2 * n
  {
    Placed(Masked(WholePart(text)), Masked(FractionPart(text)), 2 * n - s - 1, 2 * n)
  }

  ghost predicate DigitsPlaced(bytes: seq<bv8>, ns: Digits) {
    |ns| > 0 && (AllDigits(ns) ==> forall i :: 0 <= i < |bytes| ==> ByteFrom(bytes[i], i, RoundedNibbles(ns)))
  }

  /** Rounding the laid-out nibbles and putting the sign in place gives `PackedNibbles`. */
  lemma RoundedThenSigned(text: Text, n: nat, s: nat)
    requires n >= 1 && s <= 2 * n - 1
    ensures var ns := LaidOut(text, n, s);
      && PackedNibbles(text, n, s) == RoundedNibbles(ns)[..2 * n - 1] + [SignNibble(IsNegative(text))]
      && (IsDecimal(text) ==> AllDigits(ns))
      && (|FractionPart(text)| <= s ==> RoundedNibbles(ns) == ns)
  {
    hide WholePart, FractionPart, Masked, SignNibble, Increment;
    var whole, fraction := Masked(WholePart(text)), Masked(FractionPart(text));
    PlacedIsFitted(whole, fraction, n, s);
  }

  lemma PlacedBytes(bytes: seq<bv8>, whole: Digits, fraction: Digits, ctf: nat)
    requires forall i :: 0 <= i < |bytes| ==> BytePlaced(bytes[i], i, whole, fraction, ctf)
    ensures forall i :: 0 <= i < |bytes| ==> ByteFrom(bytes[i], i, Placed(whole, fraction, ctf, 2 * |bytes|))
  {
  }

  /** Lay out and round the digits of a number given in two parts; the sign nibble is left over. */
  method PlaceDigits(comp3: array<bv8>, bytelen: int, precision: int, whole: Text, hasPoint: bool, fraction: Text,
                     ghost text: Text)
    requires 1 <= bytelen <= comp3.Length && 0 <= precision <= 2 * bytelen - 1
    requires whole == WholePart(text) && fraction == FractionPart(text)
    requires !hasPoint ==> fraction == []
    modifies comp3
    ensures DigitsPlaced(comp3[..bytelen], LaidOut(text, bytelen, precision))
    ensures forall k :: bytelen <= k < comp3.Length ==> comp3[k] == old(comp3[k])
  {
    hide WholePart, FractionPart, Increment, AllDigits;
    ClearField(comp3, bytelen);
    var ctf := 2 * bytelen - precision - 1;
    PlaceWhole(comp3, bytelen, ctf, whole);
    ghost var ns := LaidOut(text, bytelen, precision);
    var full := false;
    if hasPoint {
      full := PlaceFraction(comp3, bytelen, ctf, fraction, Masked(whole));
    }
    PlacedBytes(comp3[..bytelen], Masked(whole), Masked(fraction), ctf);
    assert forall i :: 0 <= i < bytelen ==> comp3[i] == comp3[..bytelen][i];
    if full {
      RoundHalfUp(comp3, bytelen, ns);
    } else {
      assert RoundedNibbles(ns) == ns;
    }
  }

  method FindPoint(text: Text, p: nat) returns (pw: nat)
    requires p <= |text|
    ensures p <= pw <= |text| && pw == p + PointAt(text[p..])
  {
    pw := p;
    while pw < |text| && text[pw] != POINT
      invariant p <= pw <= |text|
      invariant PointAt(text[p..]) == pw - p + PointAt(text[pw..])
    {
      assert text[pw..][1..] == text[pw + 1..];
      pw := pw + 1;
    }
  }

  method SkipSign(text: Text) returns (p: nat, positive: bool)
    ensures p <= |text| && text[p..] == Unsigned(text) && positive == !IsNegative(text)
  {
    if |text| > 0 && text[0] == PLUS {
      return 1, true;
    } else if |text| > 0 && text[0] == MINUS {
      return 1, false;
    }
    return 0, true;
  }

  /**
   Pack decimal text into `bytelen` bytes with `precision` decimal places. Digits that do not fit
   on the left are dropped, digits behind the last decimal place round half up.
   */
  method MoveComp3(comp3: array<bv8>, bytelen: int, precision: int, text: Text)
    requires 1 <= bytelen <= comp3.Length && 0 <= precision <= 2 * bytelen - 1
    modifies comp3
    ensures IsDecimal(text) ==> Nibbles(comp3[..bytelen]) == PackedNibbles(text, bytelen, precision)
    ensures forall k :: bytelen <= k < comp3.Length ==> comp3[k] == old(comp3[k])
  {
    var p, positive := SkipSign(text);
    var pw := FindPoint(text, p);
    var whole, fraction := text[p..pw], if pw < |text| then text[pw + 1..] else [];
    assert whole == WholePart(text) && fraction == FractionPart(text);
    PlaceDigits(comp3, bytelen, precision, whole, pw < |text|, fraction, text);
    ghost var digits := comp3[..bytelen];
    SetSign(comp3, bytelen, positive);
    FieldComplete(text, precision, digits, comp3[..bytelen]);
  }

  /** Rounded digit bytes that get the sign nibble are the packed field. */
  lemma FieldComplete(text: Text, s: nat, before: seq<bv8>, after: seq<bv8>)
    requires |before| >= 1 && s <= 2 * |before| - 1
    requires DigitsPlaced(before, LaidOut(text, |before|, s))
    requires SignSet(before, after, SignNibble(IsNegative(text)))
    ensures IsDecimal(text) ==> Nibbles(after) == PackedNibbles(text, |after|, s)
  {
    RoundedThenSigned(text, |before|, s);
    if IsDecimal(text) {
      SignedBytes(before, after, RoundedNibbles(LaidOut(text, |before|, s)), SignNibble(IsNegative(text)));
      NibblesAre(after, PackedNibbles(text, |after|, s));
    }
  }

  lemma SignedBytes(before: seq<bv8>, after: seq<bv8>, ns: Digits, sign: int)
    requires |before| >= 1 && |ns| == 2 * |before| && SignSet(before, after, sign)
    requires forall i :: 0 <= i < |before| ==> ByteFrom(before[i], i, ns)
    ensures HasNibbles(after, ns[..|ns| - 1] + [sign])
  {
    var k := |before| - 1;
    forall i | 0 <= i < k
      ensures Hi(after[i]) as int == ns[2 * i] && Lo(after[i]) as int == ns[2 * i + 1]
    {
      assert ByteFrom(before[i], i, ns);
    }
    assert ByteFrom(before[k], k, ns);
  }

  // ---------- unpacking ----------

  function CharOf(d: int): bv8 {
    ZERO + (d % 16) as bv8
  }

  function Printed(ds: Digits): (t: Text)
    ensures |t| == |ds|
  {
    seq(|ds|, i requires 0 <= i < |ds| => CharOf(ds[i]))
  }

  function SignChar(sign: int): bv8 {
    if sign == NEGATIVE then MINUS else PLUS
  }

  /** The text of a field with s decimal places: sign, whole digits, and a point and s digits if s > 0. */
  function UnpackedText(ns: Digits, s: nat): (t: Text)
    requires s < |ns|
    ensures |t| == |ns| + if s == 0 then 0 else 1
  {
    var ctf := |ns| - 1 - s;
    [SignChar(ns[|ns| - 1])] + Printed(ns[..ctf]) + if s == 0 then [] else [POINT] + Printed(ns[ctf..|ns| - 1])
  }

  /** Text position of the character printed for digit j of a field with ctf whole digits. */
  function PrintedAt(j: int, ctf: int): int {
    if j < ctf then 1 + j else 2 + j
  }

  lemma CharOfNibble(b: bv8)
    ensures CharOf(Hi(b) as int) == ZERO + Hi(b) && CharOf(Lo(b) as int) == ZERO + Lo(b)
  {
    hide Hi, Lo;
    NibblesSmall(b);
    CharOfSmall(Hi(b));
    CharOfSmall(Lo(b));
  }

  lemma NibblesSmall(b: bv8)
    ensures Hi(b) < 16 && Lo(b) < 16
  {
  }

  lemma CharOfSmall(x: bv8)
    requires x < 16
    ensures CharOf(x as int) == ZERO + x
  {
  }

  lemma TextOfDigit(ns: Digits, s: nat, j: nat)
    requires s < |ns| && j < |ns| - 1
    ensures UnpackedText(ns, s)[PrintedAt(j, |ns| - 1 - s)] == CharOf(ns[j])
  {
  }

  /** The digit characters of the text, read off the bytes. */
  lemma TextOfHigh(bytes: seq<bv8>, s: nat, i: nat)
    requires s < 2 * |bytes| && i < |bytes|
    ensures UnpackedText(Nibbles(bytes), s)[PrintedAt(2 * i, 2 * |bytes| - 1 - s)] == ZERO + Hi(bytes[i])
  {
    NibblesAt(bytes, i);
    CharOfNibble(bytes[i]);
    TextOfDigit(Nibbles(bytes), s, 2 * i);
  }

  lemma TextOfLow(bytes: seq<bv8>, s: nat, i: nat)
    requires s < 2 * |bytes| && i < |bytes| - 1
    ensures UnpackedText(Nibbles(bytes), s)[PrintedAt(2 * i + 1, 2 * |bytes| - 1 - s)] == ZERO + Lo(bytes[i])
  {
    NibblesAt(bytes, i);
    CharOfNibble(bytes[i]);
    TextOfDigit(Nibbles(bytes), s, 2 * i + 1);
  }

  lemma NibblesAt(bytes: seq<bv8>, i: nat)
    requires i < |bytes|
    ensures Nibbles(bytes)[2 * i] == Hi(bytes[i]) as int && Nibbles(bytes)[2 * i + 1] == Lo(bytes[i]) as int
  {
    HasItsNibbles(bytes);
  }

  lemma TextSign(bytes: seq<bv8>, s: nat)
    requires s < 2 * |bytes|
    ensures UnpackedText(Nibbles(bytes), s)[0] == if Lo(bytes[|bytes| - 1]) == 0x0D then MINUS else PLUS
  {
    NibblesAt(bytes, |bytes| - 1);
    SignOfNibble(Lo(bytes[|bytes| - 1]));
  }

  lemma SignOfNibble(b: bv8)
    ensures SignChar(b as int) == if b == 0x0D then MINUS else PLUS
  {
  }

  lemma TextPoint(ns: Digits, s: nat)
    requires 0 < s < |ns|
    ensures UnpackedText(ns, s)[|ns| - s] == POINT
  {
  }

  ghost predicate Starts(num: seq<bv8>, b: int, t: Text) {
    0 <= b <= |num| && b <= |t| && num[..b] == t[..b]
  }

  /** Append one character of the expected text. */
  method Emit(num: array<bv8>, b: int, c: bv8, ghost t: Text)
    requires 0 <= b < num.Length && b < |t| && Starts(num[..], b, t) && t[b] == c
    modifies num
    ensures Starts(num[..], b + 1, t)
  {
    num[b] := c;
    assert num[..b + 1] == num[..b] + [c];
    assert t[..b + 1] == t[..b] + [c];
  }

  /** Print a field of at most ten bytes into a 22-byte buffer, blank-padded to 21 and terminated. */
  method UnpackComp3(comp3: array<bv8>, bytelen: int, precision: int, num: array<bv8>)
    requires comp3 != num && num.Length == 22
    requires 1 <= bytelen <= 10 && bytelen <= comp3.Length && 0 <= precision <= 2 * bytelen - 1
    modifies num
    ensures var t := UnpackedText(Nibbles(comp3[..bytelen]), precision);
      num[..] == t + Copies(BLANK, 21 - |t|) + [0]
  {
    ghost var t := UnpackedText(Nibbles(comp3[..bytelen]), precision);
    var b := UnpackWhole(comp3, bytelen, precision, num, t);
    b := UnpackFraction(comp3, bytelen, precision, num, b, t);
    Pad(num, b, t);
    num[21] := 0;
    assert num[..] == num[..21] + [0];
  }

  method Pad(num: array<bv8>, b0: int, ghost t: Text)
    requires num.Length == 22 && b0 == |t| <= 21 && Starts(num[..], b0, t)
    modifies num
    ensures num[..21] == t + Copies(BLANK, 21 - |t|)
  {
    var b := b0;
    while b < 21
      invariant |t| <= b <= 21
      invariant num[..b] == t + Copies(BLANK, b - |t|)
    {
      num[b] := BLANK;
      b := b + 1;
      assert num[..b] == num[..b - 1] + [BLANK];
    }
  }

  /** The sign and the digits before the point. */
  method UnpackWhole(comp3: array<bv8>, bytelen: int, precision: int, num: array<bv8>, ghost t: Text) returns (b: int)
    requires comp3 != num && num.Length == 22
    requires 1 <= bytelen <= 10 && bytelen <= comp3.Length && 0 <= precision <= 2 * bytelen - 1
    requires t == UnpackedText(Nibbles(comp3[..bytelen]), precision)
    modifies num
    ensures b == 2 * bytelen - precision && Starts(num[..], b, t)
  {
    ghost var field := comp3[..bytelen];
    TextSign(field, precision);
    var ctf := 2 * bytelen - precision - 1;
    var ctb := ctf / 2;
    b := 0;
    Emit(num, b, if Lo(comp3[bytelen - 1]) == 0x0D then MINUS else PLUS, t);
    b := b + 1;
    var c3 := 0;
    while ctb > 0
      invariant 0 <= ctb && c3 == ctf / 2 - ctb && b == 1 + 2 * c3
      invariant Starts(num[..], b, t)
    {
      TextOfHigh(field, precision, c3);
      Emit(num, b, ZERO + Hi(comp3[c3]), t);
      b := b + 1;
      TextOfLow(field, precision, c3);
      Emit(num, b, ZERO + Lo(comp3[c3]), t);
      b := b + 1;
      c3 := c3 + 1;
      ctb := ctb - 1;
    }
    if ctf % 2 != 0 {
      TextOfHigh(field, precision, c3);
      Emit(num, b, ZERO + Hi(comp3[c3]), t);
      b := b + 1;
    }
  }

  /** The point and the digits behind it; an odd number of whole digits leaves half a byte to start with. */
  method UnpackFraction(comp3: array<bv8>, bytelen: int, precision: int, num: array<bv8>, b0: int, ghost t: Text)
    returns (b: int)
    requires comp3 != num && num.Length == 22
    requires 1 <= bytelen <= 10 && bytelen <= comp3.Length && 0 <= precision <= 2 * bytelen - 1
    requires t == UnpackedText(Nibbles(comp3[..bytelen]), precision)
    requires b0 == 2 * bytelen - precision && Starts(num[..], b0, t)
    modifies num
    ensures b == |t| && Starts(num[..], b, t)
  {
    hide UnpackedText, Nibbles;
    ghost var field := comp3[..bytelen];
    var ctf := 2 * bytelen - precision - 1;
    var c3 := ctf / 2;
    var iprec := precision;
    b := b0;
    if iprec != 0 {
      TextPoint(Nibbles(field), precision);
      Emit(num, b, POINT, t);
      b := b + 1;
    }
    if ctf % 2 != 0 {
      if iprec != 0 {
        TextOfLow(field, precision, c3);
        Emit(num, b, ZERO + Lo(comp3[c3]), t);
        b := b + 1;
        iprec := iprec - 1;
      }
      c3 := c3 + 1;
    }
    b := UnpackFractionPairs(comp3, bytelen, precision, num, b, c3, iprec, t);
  }

  /** The two-digits-per-byte loop of `UnpackFraction`, with iprec0 digits to go from byte c30 on. */
  method UnpackFractionPairs(comp3: array<bv8>, bytelen: int, precision: int, num: array<bv8>,
                             b0: int, c30: int, iprec0: int, ghost t: Text) returns (b: int)
    requires comp3 != num && num.Length == 22
    requires 1 <= bytelen <= 10 && bytelen <= comp3.Length && 0 <= precision <= 2 * bytelen - 1
    requires t == UnpackedText(Nibbles(comp3[..bytelen]), precision)
    requires 0 <= iprec0 <= precision && (iprec0 > 0 ==> 2 * c30 == 2 * bytelen - 1 - iprec0)
    requires b0 == |t| - iprec0 && Starts(num[..], b0, t)
    modifies num
    ensures b == |t| && Starts(num[..], b, t)
  {
    ghost var field := comp3[..bytelen];
    var c3, iprec := c30, iprec0;
    b := b0;
    while iprec > 0
      invariant 0 <= iprec <= iprec0 && b == |t| - iprec
      invariant iprec > 0 ==> 2 * c3 == 2 * bytelen - 1 - iprec
      invariant Starts(num[..], b, t)
    {
      TextOfHigh(field, precision, c3);
      Emit(num, b, ZERO + Hi(comp3[c3]), t);
      b := b + 1;
      iprec := iprec - 1;
      if iprec == 0 { break; }
      TextOfLow(field, precision, c3);
      Emit(num, b, ZERO + Lo(comp3[c3]), t);
      b := b + 1;
      iprec := iprec - 1;
      c3 := c3 + 1;
    }
  }
}
