/**
 Decimal digit sequences, most significant digit first, and the numbers they denote.
 */
module DecimalDigits {
  import opened Arithmetic

  type Digits = seq<int>

  ghost predicate AllDigits(ds: Digits) {
    forall i :: 0 <= i < |ds| ==> 0 <= ds[i] <= 9
  }

  function Pow10(n: nat): (p: nat)
    ensures p >= 1
  {
    if n == 0 then 1 else 10 * Pow10(n - 1)
  }

  function Value(ds: Digits): int {
    if |ds| == 0 then 0 else 10 * Value(ds[..|ds| - 1]) + ds[|ds| - 1]
  }

  function Zeros(n: nat): (z: Digits)
    ensures |z| == n && forall i :: 0 <= i < n ==> z[i] == 0
  {
    seq(n, _ => 0)
  }

  /** The rightmost m digits, extended with zeros on the left when there are fewer. */
  function Fit(ds: Digits, m: nat): (r: Digits)
    ensures |r| == m
  {
    if m <= |ds| then ds[|ds| - m..] else Zeros(m - |ds|) + ds
  }

  /** The leftmost s digits, extended with zeros on the right when there are fewer. */
  function Scale(ds: Digits, s: nat): (r: Digits)
    ensures |r| == s
  {
    if s <= |ds| then ds[..s] else ds + Zeros(s - |ds|)
  }

  /** Add one in the last place, carrying leftwards; a carry out of the first digit is lost. */
  function Increment(ds: Digits): (r: Digits)
    ensures |r| == |ds|
  {
    if |ds| == 0 then []
    else if ds[|ds| - 1] == 9 then Increment(ds[..|ds| - 1]) + [0]
    else ds[..|ds| - 1] + [ds[|ds| - 1] + 1]
  }

  // ---------- powers of ten ----------

  lemma {:induction false} Pow10Add(a: nat, b: nat)
    ensures Pow10(a + b) == Pow10(a) * Pow10(b)
  {
    if a == 0 {
    } else {
      Pow10Add(a - 1, b);
      MulAssoc(10, Pow10(a - 1), Pow10(b));
    }
  }

  // ---------- value ----------

  lemma {:induction false} ValueBound(ds: Digits)
    requires AllDigits(ds)
    ensures 0 <= Value(ds) < Pow10(|ds|)
  {
    if |ds| == 0 {
    } else {
      ValueBound(ds[..|ds| - 1]);
    }
  }

  lemma {:induction false} ValueConcat(a: Digits, b: Digits)
    ensures Value(a + b) == Value(a) * Pow10(|b|) + Value(b)
  {
    if |b| == 0 {
      assert a + b == a;
    } else {
      var b' := b[..|b| - 1];
      assert (a + b)[..|a + b| - 1] == a + b';
      ValueConcat(a, b');
      MulAssoc(10, Value(a), Pow10(|b'|));
      MulAssoc(Value(a), 10, Pow10(|b'|));
    }
  }

  lemma {:induction false} ValueZeros(n: nat)
    ensures Value(Zeros(n)) == 0
  {
    if n == 0 {
    } else {
      assert Zeros(n)[..n - 1] == Zeros(n - 1);
      ValueZeros(n - 1);
    }
  }

  lemma {:induction false} ValueInjective(a: Digits, b: Digits)
    requires |a| == |b| && AllDigits(a) && AllDigits(b) && Value(a) == Value(b)
    ensures a == b
  {
    if |a| == 0 {
    } else {
      ValueInjective(a[..|a| - 1], b[..|b| - 1]);
      assert a == a[..|a| - 1] + [a[|a| - 1]];
      assert b == b[..|b| - 1] + [b[|b| - 1]];
    }
  }

  lemma CarriedOn(v: nat, p: nat)
    requires v < p
    ensures 10 * ((v + 1) % p) == (10 * v + 10) % (10 * p)
  {
    if v + 1 == p {
      DivModUnique(p, p, 1, 0);
      DivModUnique(10 * p, 10 * p, 1, 0);
    } else {
      DivModUnique(v + 1, p, 0, v + 1);
      DivModUnique(10 * v + 10, 10 * p, 0, 10 * v + 10);
    }
  }

  /** Increment adds one, modulo the capacity of the digit sequence. */
  lemma {:induction false} IncrementValue(ds: Digits)
    requires AllDigits(ds)
    ensures AllDigits(Increment(ds))
    ensures Value(Increment(ds)) == (Value(ds) + 1) % Pow10(|ds|)
  {
    if |ds| > 0 {
      var front, last := ds[..|ds| - 1], ds[|ds| - 1];
      var r, p := Increment(ds), Pow10(|ds| - 1);
      ValueBound(front);
      if last == 9 {
        IncrementValue(front);
        assert r[..|r| - 1] == Increment(front);
        CarriedOn(Value(front), p);
      } else {
        assert r[..|r| - 1] == front;
        DivModUnique(Value(ds) + 1, 10 * p, 0, Value(ds) + 1);
      }
    }
  }

  /** Keeping the rightmost m digits is reduction modulo 10^m. */
  lemma FitValue(ds: Digits, m: nat)
    requires AllDigits(ds)
    ensures AllDigits(Fit(ds, m))
    ensures Value(Fit(ds, m)) == Value(ds) % Pow10(m)
  {
    var r := Fit(ds, m);
    if m <= |ds| {
      var a := ds[..|ds| - m];
      assert ds == a + r;
      ValueConcat(a, r);
      ValueBound(r);
      DivModUnique(Value(ds), Pow10(m), Value(a), Value(r));
    } else {
      ValueConcat(Zeros(m - |ds|), ds);
      ValueZeros(m - |ds|);
      ValueBound(r);
      DivModUnique(Value(ds), Pow10(m), 0, Value(ds));
    }
  }

  // ---------- rounding ----------

  /** The number whole.fraction times 10^s, rounded to the nearest integer, halves upwards. */
  function Rounded(whole: Digits, fraction: Digits, s: nat): int {
    (2 * Value(whole + fraction) * Pow10(s) + Pow10(|fraction|)) / (2 * Pow10(|fraction|))
  }

  predicate RoundsUp(fraction: Digits, s: nat) {
    s < |fraction| && fraction[s] >= 5
  }

  /** Looking at one digit behind the kept ones is enough to round to nearest. */
  lemma RoundingByOneDigit(whole: Digits, fraction: Digits, s: nat)
    requires AllDigits(whole) && AllDigits(fraction)
    ensures Rounded(whole, fraction, s)
         == Value(whole + Scale(fraction, s)) + if RoundsUp(fraction, s) then 1 else 0
  {
    if |fraction| <= s {
      NothingCut(whole, fraction, s);
    } else {
      DigitsCut(whole, fraction, s);
    }
  }

  lemma NothingCut(whole: Digits, fraction: Digits, s: nat)
    requires |fraction| <= s
    ensures Rounded(whole, fraction, s) == Value(whole + Scale(fraction, s))
  {
    var all, h, q := whole + fraction, s - |fraction|, Pow10(|fraction|);
    assert whole + Scale(fraction, s) == all + Zeros(h);
    ValueConcat(all, Zeros(h));
    ValueZeros(h);
    Pow10Add(h, |fraction|);
    HalfAway(Value(all), Pow10(h), q);
  }

  lemma HalfAway(v: int, w: nat, q: nat)
    requires q > 0
    ensures (2 * v * (w * q) + q) / (2 * q) == v * w
  {
    MulAssoc(2 * v, w, q);
    MulAssoc(2, v, w);
    MulAssoc(v * w, 2, q);
    MulCommutes(v * w, 2);
    DivModUnique(2 * v * (w * q) + q, 2 * q, v * w, q);
  }

  lemma DigitsCut(whole: Digits, fraction: Digits, s: nat)
    requires AllDigits(whole) && AllDigits(fraction) && s < |fraction|
    ensures Rounded(whole, fraction, s)
         == Value(whole + Scale(fraction, s)) + if RoundsUp(fraction, s) then 1 else 0
  {
    var kept, cut := whole + fraction[..s], fraction[s..];
    var p, t := Pow10(s), Pow10(|cut|);
    assert whole + fraction == kept + cut;
    ValueConcat(kept, cut);
    Pow10Add(|cut|, s);
    LeadingDigit(cut);
    NearestMultiple(Value(kept), t, Value(cut), cut[0] >= 5);
    var up := if cut[0] >= 5 then 1 else 0;
    var n := 2 * (Value(kept) * t + Value(cut)) + t;
    ScaledDivision(n, 2 * t, Value(kept) + up, n - (Value(kept) + up) * (2 * t), p);
    ScaledNumerator(Value(whole + fraction), p, t);
  }

  lemma ScaledNumerator(v: int, p: int, t: int)
    ensures 2 * v * p + t * p == (2 * v + t) * p
    ensures 2 * (t * p) == (2 * t) * p
  {
    MulDistributes(2 * v, t, p);
    MulAssoc(2, t, p);
  }

  lemma NearestMultiple(v: int, t: nat, c: int, high: bool)
    requires 0 <= c < t && (high <==> 2 * c >= t)
    ensures var up := if high then 1 else 0;
      0 <= 2 * (v * t + c) + t - (v + up) * (2 * t) < 2 * t
  {
    MulAssoc(v, 2, t);
    MulAssoc(2, v, t);
    MulCommutes(v, 2);
    MulDistributes(v, 1, 2 * t);
  }

  lemma LeadingDigit(ds: Digits)
    requires AllDigits(ds) && |ds| > 0
    ensures 0 <= Value(ds) < Pow10(|ds|)
    ensures ds[0] >= 5 <==> 2 * Value(ds) >= Pow10(|ds|)
  {
    var tail := ds[1..];
    assert ds == ds[..1] + tail && ds[..1][..0] == [];
    assert Value(ds[..1]) == ds[0];
    ValueConcat(ds[..1], tail);
    ValueBound(tail);
    ValueBound(ds);
    LeadingMultiple(ds[0], Pow10(|tail|), Value(tail));
  }

  lemma LeadingMultiple(d: int, p: nat, t: int)
    requires 0 <= d <= 9 && 0 <= t < p
    ensures d >= 5 <==> 2 * (d * p + t) >= 10 * p
  {
    if d >= 5 {
      MulDistributes(5, d - 5, p);
    } else {
      MulDistributes(5, 5 - d, p);
      MulAtLeast(5 - d, p);
    }
  }

  lemma ScaledDivision(n: int, d: nat, q: int, r: int, p: nat)
    requires d > 0 && p > 0 && n == q * d + r && 0 <= r < d
    ensures n * p == q * (d * p) + r * p && (n * p) / (d * p) == q
  {
    MulDistributes(q * d, r, p);
    MulAssoc(q, d, p);
    MulAtLeast(d - r, p);
    MulDistributes(d, r, p);
    if r == 0 { assert r * p == 0; } else { MulAtLeast(r, p); }
    DivModUnique(n * p, d * p, q, r * p);
  }
}
