/**
 Removing blanks from an SQL text, in place: after a colon, next to another blank, in front of a comma or
 a closing parenthesis, behind a comma or an opening one, and between a host variable and its indicator.
 */
module Deblank {
  import opened EsqlMarkers

  const NUL := '\0'

  predicate IsNameChar(c: char) {
    '0' <= c <= '9' || 'a' <= c <= 'z' || 'A' <= c <= 'Z' || c == '-'
  }

  /** Do the name characters that end at j begin behind a colon? */
  predicate BehindColon(s: string, j: int)
    requires -1 <= j < |s|
    decreases j + 1
  {
    j >= 0 && (if IsNameChar(s[j]) then BehindColon(s, j - 1) else s[j] == COLON)
  }

  /** The blank behind position i is to go. */
  predicate BlankBehind(s: string, i: nat)
    requires i + 1 < |s|
  {
    s[i] == COLON && s[i + 1] == ' '
  }

  /** The blank at position i is to go. */
  predicate BlankAt(s: string, i: nat)
    requires i + 1 < |s|
  {
    s[i] == ' ' && (
      s[i + 1] == ' ' || s[i + 1] == ',' || s[i + 1] == ')' || (i > 0 && (s[i - 1] == ',' || s[i - 1] == '('))
      || (s[i + 1] == COLON && BehindColon(s, i - 1)))
  }

  function Without(s: string, k: nat): string
    requires k < |s|
  {
    s[..k] + s[k + 1..]
  }

  /** The text that is left when positions from i on have been treated; q tells whether i is inside a literal. */
  function From(s: string, i: nat, q: bool): string
    decreases |s| - i
  {
    if i + 1 >= |s| then s
    else
      var q1 := if s[i] == QUOTE then !q else q;
      if q1 then From(s, i + 1, q1)
      else if BlankBehind(s, i) then From(Without(s, i + 1), i, q1)
      else if BlankAt(s, i) then From(Without(s, i), i, q1)
      else From(s, i + 1, q1)
  }

  /** A string of the precompiler: a buffer that holds the text and a zero byte behind it. */
  class Text {
    var v: array<char>
    var length: int

    ghost predicate Valid()
      reads this, v
    {
      0 <= length < v.Length && v[length] == NUL && NUL !in v[..length]
    }

    ghost function Contents(): string
      requires 0 <= length <= v.Length
      reads this, v
    {
      v[..length]
    }

    /** Move everything behind position k one place down, the zero byte last. */
    method MoveDown(k: int)
      requires Valid() && 0 <= k < length
      modifies v, `length
      ensures Valid() && v == old(v) && length == old(length) - 1 && Contents() == Without(old(Contents()), k)
    {
      ghost var s := Contents();
      assert forall j :: 0 <= j < |s| ==> s[j] != NUL;
      var d := k;
      v[d] := v[d + 1];
      while v[d] != NUL
        invariant k <= d < length
        invariant forall j :: 0 <= j < k ==> v[j] == s[j]
        invariant forall j :: k <= j <= d ==> v[j] == if j + 1 < length then s[j + 1] else NUL
        invariant forall j :: d < j < length ==> v[j] == s[j]
        invariant v[length] == NUL
        decreases length - d
        modifies v
      {
        d := d + 1;
        v[d] := v[d + 1];
      }
      length := length - 1;
      forall j | 0 <= j < length ensures v[j] != NUL {
        assert v[j] in s;
      }
    }

    /** Does the blank at i stand between a host variable and its indicator? */
    method ScanBack(i: int) returns (found: bool)
      requires Valid() && 0 <= i < length
      ensures found == BehindColon(Contents(), i - 1)
    {
      var j := i - 1;
      while j >= 0
        invariant -1 <= j < i && BehindColon(Contents(), j) == BehindColon(Contents(), i - 1)
      {
        if IsNameChar(v[j]) {
          j := j - 1;
          continue;
        }
        return v[j] == COLON;
      }
      return false;
    }

    /** The index steps back after every deletion; what shrinks is the text from the index on. */
    method Deblank()
      requires Valid()
      modifies v, `length
      ensures Valid() && v == old(v) && Contents() == From(old(Contents()), 0, false)
    {
      hide From, BehindColon;
      if length == 0 {
        Treated(Contents(), 0, false);
        return;
      }
      var bQ := false;
      var i := 0;
      while i < length - 1
        invariant Valid() && v == old(v) && 0 <= i
        invariant From(Contents(), i, bQ) == From(old(Contents()), 0, false)
        decreases length - i
        modifies v, `length
      {
        ghost var s := Contents();
        Treat(s, i, bQ);
        if v[i] == QUOTE {
          bQ := !bQ;
        }
        if bQ {
          i := i + 1;
          continue;
        }
        if v[i] == COLON && v[i + 1] == ' ' {
          MoveDown(i + 1);
          continue;
        }
        if v[i] == ' ' {
          if v[i + 1] == ' ' || v[i + 1] == ',' || v[i + 1] == ')' || (i > 0 && (v[i - 1] == ',' || v[i - 1] == '(')) {
            MoveDown(i);
            continue;
          }
          if v[i + 1] == COLON {
            var found := ScanBack(i);
            if found {
              MoveDown(i);
              continue;
            }
          }
        }
        i := i + 1;
      }
      Treated(Contents(), i, bQ);
    }
  }

  lemma Treated(s: string, i: nat, q: bool)
    requires i + 1 >= |s|
    ensures From(s, i, q) == s
  {
  }

  lemma Treat(s: string, i: nat, q: bool)
    requires i + 1 < |s|
    ensures var q1 := if s[i] == QUOTE then !q else q;
      From(s, i, q) ==
        if q1 then From(s, i + 1, q1)
        else if BlankBehind(s, i) then From(Without(s, i + 1), i, q1)
        else if BlankAt(s, i) then From(Without(s, i), i, q1)
        else From(s, i + 1, q1)
  {
  }

  // ---------- what survives ----------

  /** Everything but the blanks outside literals, in order. */
  function Solid(s: string, q: bool): string
    decreases |s|
  {
    if |s| == 0 then ""
    else if s[0] == QUOTE then [QUOTE] + Solid(s[1..], !q)
    else (if !q && s[0] == ' ' then "" else [s[0]]) + Solid(s[1..], q)
  }

  lemma NothingSolid(q: bool)
    ensures Solid("", q) == ""
  {
  }

  lemma SolidHead(c: char, t: string, q: bool)
    ensures Solid([c] + t, q)
      == if c == QUOTE then [QUOTE] + Solid(t, !q) else (if !q && c == ' ' then "" else [c]) + Solid(t, q)
  {
    assert ([c] + t)[1..] == t;
  }

  lemma {:induction false} SolidConcat(a: string, b: string, q: bool)
    ensures Solid(a + b, q) == Solid(a, q) + Solid(b, QuoteAfter(a, q))
    decreases |a|
  {
    hide Solid;
    if |a| == 0 {
      assert a + b == b;
      assert Solid("", q) == "" by { NothingSolid(q); }
    } else {
      var c, t := a[0], a[1..];
      assert a == [c] + t && a + b == [c] + (t + b);
      SolidHead(c, t, q);
      SolidHead(c, t + b, q);
      var q1 := if c == QUOTE then !q else q;
      SolidConcat(t, b, q1);
      assert QuoteAfter(a, q) == QuoteAfter(t, q1);
    }
  }

  lemma SolidWithout(s: string, k: nat)
    requires k < |s| && s[k] == ' ' && !QuoteAfter(s[..k], false)
    ensures Solid(Without(s, k), false) == Solid(s, false)
  {
    hide Solid, QuoteAfter;
    var a, b := s[..k], s[k + 1..];
    assert s == a + ([' '] + b);
    SolidConcat(a, [' '] + b, false);
    SolidConcat(a, b, false);
    SolidHead(' ', b, false);
  }

  lemma QuoteNext(s: string, i: nat)
    requires i < |s|
    ensures QuoteAfter(s[..i + 1], false)
         == if s[i] == QUOTE then !QuoteAfter(s[..i], false) else QuoteAfter(s[..i], false)
  {
    assert s[..i + 1] == s[..i] + [s[i]];
    QuoteAfterConcat(s[..i], [s[i]], false);
    assert [s[i]][1..] == "";
  }

  /** Only blanks outside literals are removed. */
  lemma {:induction false} SolidSurvives(s: string, i: nat, q: bool)
    requires i <= |s| && q == QuoteAfter(s[..i], false)
    ensures Solid(From(s, i, q), false) == Solid(s, false)
    decreases |s| - i
  {
    hide From, Solid, QuoteAfter, BehindColon;
    if i + 1 >= |s| {
      Treated(s, i, q);
    } else {
      Treat(s, i, q);
      QuoteNext(s, i);
      var q1 := QuoteAfter(s[..i + 1], false);
      if q1 {
        SolidSurvives(s, i + 1, q1);
      } else if BlankBehind(s, i) {
        SolidWithout(s, i + 1);
        assert Without(s, i + 1)[..i] == s[..i];
        SolidSurvives(Without(s, i + 1), i, q1);
      } else if BlankAt(s, i) {
        SolidWithout(s, i);
        assert Without(s, i)[..i] == s[..i];
        SolidSurvives(Without(s, i), i, q1);
      } else {
        SolidSurvives(s, i + 1, q1);
      }
    }
  }

  /**
   The text with one blank left between two words and no other blank outside literals; p was in front, after a gap or
   not.
   */
  function Words(s: string, q: bool, p: char, gap: bool): string
    decreases |s|
  {
    if |s| == 0 then ""
    else if s[0] == ' ' && !q then Words(s[1..], q, p, true)
    else
      var first := if gap && IsNameChar(p) && IsNameChar(s[0]) then [' ', s[0]] else [s[0]];
      first + Words(s[1..], if s[0] == QUOTE then !q else q, s[0], false)
  }

  /** Words do not begin or end with such a character. */
  predicate Parts(c: char) {
    c == ',' || c == '(' || c == ')' || c == COLON || c == ' '
  }

  /** A blank that is not between two words can go. */
  lemma {:induction false} WordsWithout(s: string, k: nat, q: bool, p: char, gap: bool)
    requires k < |s| && s[k] == ' ' && !QuoteAfter(s[..k], q)
    requires (k + 1 < |s| && Parts(s[k + 1])) || (if k == 0 then Parts(p) else Parts(s[k - 1]) && s[k - 1] != ' ')
    ensures Words(Without(s, k), q, p, gap) == Words(s, q, p, gap)
    decreases |s|
  {
    if k == 0 {
      assert s[..0] == "" && Without(s, 0) == s[1..];
      GapCloses(s[1..], p, gap);
    } else {
      var q1 := if s[0] == QUOTE then !q else q;
      assert Without(s, k)[0] == s[0] && Without(s, k)[1..] == Without(s[1..], k - 1);
      assert s[..k][1..] == s[1..][..k - 1] && s[..k][0] == s[0];
      if s[0] == ' ' && !q {
        if k > 1 || Parts(s[k + 1]) {
          WordsWithout(s[1..], k - 1, q1, p, true);
        }
      } else {
        WordsWithout(s[1..], k - 1, q1, s[0], false);
      }
    }
  }

  lemma GapCloses(t: string, p: char, gap: bool)
    requires (|t| > 0 && Parts(t[0])) || Parts(p)
    ensures Words(t, false, p, gap) == Words(t, false, p, true)
    decreases |t|
  {
    if |t| > 0 && t[0] == ' ' {
    }
  }

  /** No words are run together and none is split. */
  lemma {:induction false} WordsSurvive(s: string, i: nat, q: bool)
    requires i <= |s| && q == QuoteAfter(s[..i], false)
    ensures Words(From(s, i, q), false, ' ', false) == Words(s, false, ' ', false)
    decreases |s| - i
  {
    hide From, Words, QuoteAfter, BehindColon;
    if i + 1 >= |s| {
      Treated(s, i, q);
    } else {
      Treat(s, i, q);
      QuoteNext(s, i);
      var q1 := QuoteAfter(s[..i + 1], false);
      if q1 {
        WordsSurvive(s, i + 1, q1);
      } else if BlankBehind(s, i) {
        WordsWithout(s, i + 1, false, ' ', false);
        assert Without(s, i + 1)[..i] == s[..i];
        WordsSurvive(Without(s, i + 1), i, q1);
      } else if BlankAt(s, i) {
        WordsWithout(s, i, false, ' ', false);
        assert Without(s, i)[..i] == s[..i];
        WordsSurvive(Without(s, i), i, q1);
      } else {
        WordsSurvive(s, i + 1, q1);
      }
    }
  }

  // ---------- a second pass ----------

  /** Position i is outside literals and its treatment would delete a blank. */
  predicate Deletes(s: string, i: nat)
    requires i + 1 < |s|
  {
    !QuoteAfter(s[..i + 1], false) && (BlankBehind(s, i) || BlankAt(s, i))
  }

  predicate CleanTo(s: string, n: nat) {
    forall i :: 0 <= i < n && i + 1 < |s| ==> !Deletes(s, i)
  }

  lemma {:induction false} BehindColonPrefix(s: string, t: string, j: int)
    requires -1 <= j < |s| && j < |t| && s[..j + 1] == t[..j + 1]
    ensures BehindColon(s, j) == BehindColon(t, j)
    decreases j + 1
  {
    if j >= 0 {
      assert s[j] == s[..j + 1][j] && t[j] == t[..j + 1][j];
      if IsNameChar(s[j]) {
        assert s[..j] == s[..j + 1][..j] && t[..j] == t[..j + 1][..j];
        BehindColonPrefix(s, t, j - 1);
      }
    }
  }

  /** Removing the blank at k leaves the positions in front of it clean. */
  lemma CleanWithout(s: string, i: nat, k: nat)
    requires i + 1 < |s| && CleanTo(s, i)
    requires (k == i && s[k] == ' ') || (k == i + 1 && s[k] == ' ' && s[i] == COLON)
    ensures CleanTo(Without(s, k), i)
  {
    hide QuoteAfter, BehindColon;
    var t := Without(s, k);
    forall j | 0 <= j < i && j + 1 < |t| ensures !Deletes(t, j) {
      assert t[..j + 1] == s[..j + 1] && t[j] == s[j];
      assert !Deletes(s, j);
      assert t[..j] == t[..j + 1][..j] && s[..j] == s[..j + 1][..j];
      BehindColonPrefix(s, t, j - 1);
      if j + 1 < k {
        assert t[j + 1] == s[j + 1];
      } else {
        assert j + 1 == k && s[j + 1] == ' ';
      }
    }
  }

  lemma {:induction false} LeftClean(s: string, i: nat, q: bool)
    requires i <= |s| && q == QuoteAfter(s[..i], false) && CleanTo(s, i)
    ensures var t := From(s, i, q); CleanTo(t, |t|)
    decreases |s| - i
  {
    hide From, QuoteAfter, BehindColon;
    if i + 1 >= |s| {
      Treated(s, i, q);
    } else {
      Treat(s, i, q);
      QuoteNext(s, i);
      var q1 := QuoteAfter(s[..i + 1], false);
      if !q1 && BlankBehind(s, i) {
        CleanWithout(s, i, i + 1);
        assert Without(s, i + 1)[..i] == s[..i];
        LeftClean(Without(s, i + 1), i, q1);
      } else if !q1 && BlankAt(s, i) {
        CleanWithout(s, i, i);
        assert Without(s, i)[..i] == s[..i];
        LeftClean(Without(s, i), i, q1);
      } else {
        assert !Deletes(s, i);
        LeftClean(s, i + 1, q1);
      }
    }
  }

  lemma {:induction false} CleanStays(s: string, i: nat, q: bool)
    requires i <= |s| && q == QuoteAfter(s[..i], false) && CleanTo(s, |s|)
    ensures From(s, i, q) == s
    decreases |s| - i
  {
    hide From, QuoteAfter, BehindColon;
    if i + 1 >= |s| {
      Treated(s, i, q);
    } else {
      Treat(s, i, q);
      QuoteNext(s, i);
      assert !Deletes(s, i);
      CleanStays(s, i + 1, QuoteAfter(s[..i + 1], false));
    }
  }

  /**
   On any text: nothing but blanks outside literals is lost, words stay as far apart as they have to, and a
   second pass changes nothing.
   */
  lemma DeblankTwice(s: string)
    ensures var t := From(s, 0, false);
      && Solid(t, false) == Solid(s, false)
      && Words(t, false, ' ', false) == Words(s, false, ' ', false)
      && From(t, 0, false) == t
  {
    var t := From(s, 0, false);
    assert s[..0] == "" && t[..0] == "";
    SolidSurvives(s, 0, false);
    WordsSurvive(s, 0, false);
    LeftClean(s, 0, false);
    CleanStays(t, 0, false);
  }
}
