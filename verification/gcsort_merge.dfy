/**
 What the final merge of multithreaded GCSORT works on, one stream of records for each non-empty job, and the
 optional removal of records with equal keys (SUM FIELDS=NONE).
 */
module GcsortMerge {
  import opened GcsortOrder

  const MAX_HANDLE_THREAD := 256

  // ---------- what is still to come from the streams ----------

  type Streams = seq<seq<Record>>

  function Pool(rest: Streams): multiset<Record> {
    if |rest| == 0 then multiset{} else Pool(rest[..|rest| - 1]) + multiset(rest[|rest| - 1])
  }

  function Total(rest: Streams): nat {
    if |rest| == 0 then 0 else Total(rest[..|rest| - 1]) + |rest[|rest| - 1]|
  }

  function CountEmpty(rest: Streams): (n: nat)
    ensures n <= |rest|
  {
    if |rest| == 0 then 0
    else CountEmpty(rest[..|rest| - 1]) + if rest[|rest| - 1] == [] then 1 else 0
  }

  function Popped(rest: Streams, k: nat): Streams
    requires k < |rest| && rest[k] != []
  {
    rest[k := rest[k][1..]]
  }

  /** Taking the head of one stream takes one record out of the pool. */
  lemma {:induction false} PopPool(rest: Streams, k: nat)
    requires k < |rest| && rest[k] != []
    ensures Pool(rest) == Pool(Popped(rest, k)) + multiset{rest[k][0]}
  {
    var last := |rest| - 1;
    if k == last {
      assert Popped(rest, k)[..last] == rest[..last];
      assert rest[k] == [rest[k][0]] + rest[k][1..];
    } else {
      assert Popped(rest, k)[..last] == Popped(rest[..last], k);
      PopPool(rest[..last], k);
    }
  }

  lemma {:induction false} PopTotal(rest: Streams, k: nat)
    requires k < |rest| && rest[k] != []
    ensures Total(rest) == Total(Popped(rest, k)) + 1
  {
    var last := |rest| - 1;
    if k == last {
      assert Popped(rest, k)[..last] == rest[..last];
    } else {
      assert Popped(rest, k)[..last] == Popped(rest[..last], k);
      PopTotal(rest[..last], k);
    }
  }

  lemma {:induction false} PopCount(rest: Streams, k: nat)
    requires k < |rest| && rest[k] != []
    ensures CountEmpty(Popped(rest, k)) == CountEmpty(rest) + if |rest[k]| == 1 then 1 else 0
  {
    var last := |rest| - 1;
    if k == last {
      assert Popped(rest, k)[..last] == rest[..last];
    } else {
      assert Popped(rest, k)[..last] == Popped(rest[..last], k);
      PopCount(rest[..last], k);
    }
  }

  lemma {:induction false} SomeStreamLeft(rest: Streams) returns (k: nat)
    requires CountEmpty(rest) < |rest|
    ensures k < |rest| && rest[k] != []
  {
    var last := |rest| - 1;
    if rest[last] == [] {
      k := SomeStreamLeft(rest[..last]);
    } else {
      k := last;
    }
  }

  // ---------- which job feeds which stream ----------

  /** The indices of the non-empty streams, in order. */
  function NonEmpty(buffers: Streams): (idx: seq<int>)
    ensures |idx| <= |buffers|
    ensures forall k :: 0 <= k < |idx| ==> 0 <= idx[k] < |buffers| && buffers[idx[k]] != []
    ensures forall k, l :: 0 <= k < l < |idx| ==> idx[k] < idx[l]
  {
    if |buffers| == 0 then []
    else
      var s := |buffers| - 1;
      NonEmpty(buffers[..s]) + if buffers[s] == [] then [] else [s]
  }

  /** Every non-empty stream is among them, so each is fed by exactly one slot. */
  lemma {:induction false} NonEmptyComplete(buffers: Streams, s: nat)
    requires s < |buffers| && buffers[s] != []
    ensures s in NonEmpty(buffers)
  {
    if s < |buffers| - 1 {
      NonEmptyComplete(buffers[..|buffers| - 1], s);
    }
  }

  /** The streams before the first read: one for every non-empty job, and unused ones behind them. */
  function StreamsOf(buffers: Streams, n: nat): (rest: Streams)
    ensures |rest| == n
    ensures forall k :: 0 <= k < n && rest[k] != [] ==> rest[k] in buffers
  {
    var idx := NonEmpty(buffers);
    seq(n, k requires 0 <= k < n => if k < |idx| then buffers[idx[k]] else [])
  }

  lemma {:induction false} PoolOfStreams(buffers: Streams, n: nat)
    requires |NonEmpty(buffers)| <= n
    ensures Pool(StreamsOf(buffers, n)) == Pool(buffers)
    decreases n, |buffers|
  {
    hide StreamsOf, NonEmpty, Pool;
    var last := |buffers| - 1;
    if n > |NonEmpty(buffers)| {
      PoolOfStreams(buffers, n - 1);
      UnusedStream(buffers, n);
      PoolLast(StreamsOf(buffers, n));
    } else if |buffers| == 0 {
    } else if buffers[last] == [] {
      SkippedJob(buffers, n);
      PoolOfStreams(buffers[..last], n);
      PoolLast(buffers);
    } else {
      LastStream(buffers);
      PoolLast(buffers);
      PoolLast(StreamsOf(buffers, n));
      PoolOfStreams(buffers[..last], n - 1);
    }
  }

  lemma PoolLast(rest: Streams)
    requires |rest| > 0
    ensures Pool(rest) == Pool(rest[..|rest| - 1]) + multiset(rest[|rest| - 1])
  {
  }

  lemma UnusedStream(buffers: Streams, n: nat)
    requires |NonEmpty(buffers)| < n
    ensures StreamsOf(buffers, n)[..n - 1] == StreamsOf(buffers, n - 1) && StreamsOf(buffers, n)[n - 1] == []
  {
  }

  lemma SkippedJob(buffers: Streams, n: nat)
    requires |buffers| > 0 && buffers[|buffers| - 1] == []
    ensures |NonEmpty(buffers)| == |NonEmpty(buffers[..|buffers| - 1])|
    ensures StreamsOf(buffers, n) == StreamsOf(buffers[..|buffers| - 1], n)
  {
  }

  lemma LastStream(buffers: Streams)
    requires |buffers| > 0 && buffers[|buffers| - 1] != []
    ensures var n := |NonEmpty(buffers)|;
      && n == |NonEmpty(buffers[..|buffers| - 1])| + 1 && StreamsOf(buffers, n)[n - 1] == buffers[|buffers| - 1]
      && StreamsOf(buffers, n)[..n - 1] == StreamsOf(buffers[..|buffers| - 1], n - 1)
  {
  }

  lemma NoneNonEmpty(buffers: Streams)
    ensures NonEmpty(buffers[..0]) == []
  {
  }

  lemma NextNonEmpty(buffers: Streams, s: nat)
    requires s < |buffers|
    ensures NonEmpty(buffers[..s + 1]) == NonEmpty(buffers[..s]) + if buffers[s] == [] then [] else [s]
  {
    assert buffers[..s + 1][..s] == buffers[..s];
  }

  lemma StreamAt(buffers: Streams, n: nat, k: nat)
    requires k < n
    ensures k < |NonEmpty(buffers)| ==> StreamsOf(buffers, n)[k] == buffers[NonEmpty(buffers)[k]] != []
    ensures k >= |NonEmpty(buffers)| ==> StreamsOf(buffers, n)[k] == []
  {
  }

  /** Streams with records stand in front of those without. */
  ghost predicate FilledFirst(buffers: Streams) {
    forall i, j :: 0 <= i < j < |buffers| && buffers[j] != [] ==> buffers[i] != []
  }

  lemma {:induction false} NonEmptyAreFirst(buffers: Streams)
    requires FilledFirst(buffers)
    ensures forall k :: 0 <= k < |NonEmpty(buffers)| ==> NonEmpty(buffers)[k] == k
    ensures forall k :: |NonEmpty(buffers)| <= k < |buffers| ==> buffers[k] == []
  {
    if |buffers| > 0 {
      var last := |buffers| - 1;
      NonEmptyAreFirst(buffers[..last]);
      if buffers[last] != [] {
        forall k | 0 <= k < last ensures buffers[..last][k] != [] {
          assert buffers[k] != [];
        }
      }
    }
  }

  /** Then every stream has the slot of its own number. */
  lemma StreamOfItsOwn(buffers: Streams, n: nat, k: nat)
    requires FilledFirst(buffers) && |buffers| <= n && k < n
    ensures StreamsOf(buffers, n)[k] == if k < |buffers| then buffers[k] else []
  {
    hide NonEmpty;
    NonEmptyAreFirst(buffers);
    StreamAt(buffers, n, k);
  }

  lemma {:induction false} InOneOf(rest: Streams, k: nat, r: Record)
    requires k < |rest| && r in rest[k]
    ensures r in Pool(rest)
  {
    if k < |rest| - 1 {
      InOneOf(rest[..|rest| - 1], k, r);
    }
  }

  // ---------- SUM FIELDS=NONE ----------

  /** Of neighbours with equal keys only the first is kept. */
  function Kept(fields: seq<SortField>, merged: seq<Record>): seq<Record> {
    if |merged| == 0 then []
    else
      var front, r := merged[..|merged| - 1], merged[|merged| - 1];
      if |front| > 0 && CompareKeys(fields, front[|front| - 1].data, r.data) == 0 then Kept(fields, front)
      else Kept(fields, front) + [r]
  }

  function Written(fields: seq<SortField>, sumNone: bool, merged: seq<Record>): seq<Record> {
    if sumNone then Kept(fields, merged) else merged
  }

  /** No earlier record has the key of record i. */
  ghost predicate IsFirst(fields: seq<SortField>, s: seq<Record>, i: nat)
    requires i < |s|
  {
    forall j :: 0 <= j < i ==> !SameKey(fields, s[j], s[i])
  }

  /** The records whose key occurs nowhere before them, in order. */
  ghost function Firsts(fields: seq<SortField>, s: seq<Record>): seq<Record> {
    if |s| == 0 then []
    else Firsts(fields, s[..|s| - 1]) + if IsFirst(fields, s, |s| - 1) then [s[|s| - 1]] else []
  }

  /** In sorted order, looking at the neighbour is enough to find the first record of every key. */
  lemma {:induction false} KeptAreFirsts(fields: seq<SortField>, s: seq<Record>)
    requires AreOrders(fields) && KeySorted(fields, s)
    ensures Kept(fields, s) == Firsts(fields, s)
  {
    if |s| > 0 {
      var last := |s| - 1;
      KeptAreFirsts(fields, s[..last]);
      if last > 0 && !SameKey(fields, s[last - 1], s[last]) {
        forall j | 0 <= j < last
          ensures !SameKey(fields, s[j], s[last])
        {
          NeighbourDecides(fields, s[j], s[last - 1], s[last]);
        }
      }
    }
  }

  lemma NeighbourDecides(fields: seq<SortField>, a: Record, b: Record, c: Record)
    requires AreOrders(fields)
    requires CompareKeys(fields, a.data, b.data) <= 0 && CompareKeys(fields, b.data, c.data) <= 0
    ensures SameKey(fields, a, c) ==> SameKey(fields, b, c)
  {
    KeysTransitive(fields, a.data, b.data, c.data);
  }

  ghost predicate StrictlyByKey(fields: seq<SortField>, s: seq<Record>) {
    forall i, j :: 0 <= i < j < |s| ==> KeyBelow(fields, s[i], s[j])
  }

  ghost predicate HasKey(fields: seq<SortField>, s: seq<Record>, x: Record) {
    exists k :: 0 <= k < |s| && SameKey(fields, s[k], x)
  }

  lemma {:induction false} FirstsAreFromS(fields: seq<SortField>, s: seq<Record>)
    ensures forall r :: r in Firsts(fields, s) ==> r in s
  {
    if |s| > 0 {
      FirstsAreFromS(fields, s[..|s| - 1]);
    }
  }

  /** Every key of s is among the kept records. */
  lemma {:induction false} FirstsCover(fields: seq<SortField>, s: seq<Record>, i: nat)
    requires AreOrders(fields) && i < |s|
    ensures HasKey(fields, Firsts(fields, s), s[i])
  {
    hide SameKey;
    var front, last := s[..|s| - 1], |s| - 1;
    if i < last {
      FirstsCover(fields, front, i);
      KeyKept(fields, s, s[i]);
    } else if IsFirst(fields, s, last) {
      SameKeyReflexive(fields, s[last]);
      var f := Firsts(fields, s);
      assert f[|f| - 1] == s[last];
    } else {
      var j :| 0 <= j < last && SameKey(fields, s[j], s[last]);
      FirstsCover(fields, front, j);
      var k :| 0 <= k < |Firsts(fields, front)| && SameKey(fields, Firsts(fields, front)[k], front[j]);
      SameKeyTransitive(fields, Firsts(fields, front)[k], s[j], s[last]);
      KeyKept(fields, s, s[last]);
    }
  }

  lemma KeyKept(fields: seq<SortField>, s: seq<Record>, x: Record)
    requires |s| > 0 && HasKey(fields, Firsts(fields, s[..|s| - 1]), x)
    ensures HasKey(fields, Firsts(fields, s), x)
  {
    hide SameKey, IsFirst;
    var f := Firsts(fields, s[..|s| - 1]);
    var k :| 0 <= k < |f| && SameKey(fields, f[k], x);
    assert Firsts(fields, s)[k] == f[k];
  }

  lemma SameKeyReflexive(fields: seq<SortField>, r: Record)
    requires AreOrders(fields)
    ensures SameKey(fields, r, r)
  {
    KeysAntisymmetric(fields, r.data, r.data);
  }

  lemma SameKeyTransitive(fields: seq<SortField>, a: Record, b: Record, c: Record)
    requires AreOrders(fields) && SameKey(fields, a, b) && SameKey(fields, b, c)
    ensures SameKey(fields, a, c)
  {
    KeysTransitive(fields, a.data, b.data, c.data);
    KeysAntisymmetric(fields, a.data, b.data);
    KeysAntisymmetric(fields, b.data, c.data);
    KeysTransitive(fields, c.data, b.data, a.data);
    KeysAntisymmetric(fields, a.data, c.data);
  }

  /** The kept records come in strictly increasing key order. */
  lemma {:induction false} FirstsIncrease(fields: seq<SortField>, s: seq<Record>)
    requires AreOrders(fields) && KeySorted(fields, s)
    ensures StrictlyByKey(fields, Firsts(fields, s))
  {
    hide KeyBelow, SameKey, CompareKeys;
    if |s| > 0 {
      var front, last := s[..|s| - 1], |s| - 1;
      FirstsIncrease(fields, front);
      FirstsAreFromS(fields, front);
      var f := Firsts(fields, front);
      if IsFirst(fields, s, last) {
        forall i | 0 <= i < |f|
          ensures KeyBelow(fields, f[i], s[last])
        {
          assert f[i] in front;
          var j :| 0 <= j < |front| && front[j] == f[i];
          BelowIfOther(fields, s[j], s[last]);
        }
      }
    }
  }

  lemma BelowIfOther(fields: seq<SortField>, a: Record, b: Record)
    requires CompareKeys(fields, a.data, b.data) <= 0 && !SameKey(fields, a, b)
    ensures KeyBelow(fields, a, b)
  {
  }
}
