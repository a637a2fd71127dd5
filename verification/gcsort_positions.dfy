/**
 The positions the threads give to the records of one file: that they tell all records apart, and when records
 of different threads are in order.
 */
module GcsortPositions {
  import opened Arithmetic
  import opened GcsortOrder
  import opened GcsortBlocks
  import opened GcsortMerge
  import opened GcsortStability

  ghost predicate Good(st: Setup) {
    st.b >= 1 && st.threads >= 1
  }

  /** Record i of the file as its thread loads it. */
  ghost function RecordAt(file: seq<Data>, st: Setup, i: nat): Record
    requires Good(st) && i < |file|
  {
    var c := Owner(st, i);
    Record(file[i], StartOf(st, c) + Size(LoadedBy(file[..i], st, c)), c - 1)
  }

  /** The records of the file, in its order, with the positions and jobs they get. */
  ghost function FileRecords(file: seq<Data>, st: Setup): (s: seq<Record>)
    requires Good(st)
    ensures |s| == |file|
  {
    if |file| == 0 then [] else FileRecords(file[..|file| - 1], st) + [RecordAt(file, st, |file| - 1)]
  }

  lemma {:induction false} FileRecordAt(file: seq<Data>, st: Setup, i: nat)
    requires Good(st) && i < |file|
    ensures FileRecords(file, st)[i] == RecordAt(file, st, i)
  {
    hide RecordAt;
    if i < |file| - 1 {
      FileRecordAt(file[..|file| - 1], st, i);
      RecordOfPrefix(file, st, i);
    }
  }

  lemma RecordOfPrefix(file: seq<Data>, st: Setup, i: nat)
    requires Good(st) && i < |file| - 1
    ensures RecordAt(file[..|file| - 1], st, i) == RecordAt(file, st, i)
  {
    assert file[..|file| - 1][..i] == file[..i];
  }

  lemma FileDatas(file: seq<Data>, st: Setup)
    requires Good(st)
    ensures Datas(FileRecords(file, st)) == file
  {
    hide FileRecords;
    forall i | 0 <= i < |file| ensures FileRecords(file, st)[i].data == file[i] {
      FileRecordAt(file, st, i);
    }
  }

  // ---------- the threads load the file ----------

  ghost function AllLoaded(file: seq<Data>, st: Setup): (s: Streams)
    ensures |s| == st.threads
  {
    seq(st.threads, k requires 0 <= k < st.threads => LoadedBy(file, st, k + 1))
  }

  lemma {:induction false} PoolPush(s: Streams, k: nat, r: Record)
    requires k < |s|
    ensures Pool(s[k := s[k] + [r]]) == Pool(s) + multiset{r}
  {
    var last := |s| - 1;
    var t := s[k := s[k] + [r]];
    if k == last {
      assert t[..last] == s[..last];
    } else {
      assert t[..last] == s[..last][k := s[k] + [r]];
      PoolPush(s[..last], k, r);
    }
  }

  lemma {:induction false} PoolOfNothing(s: Streams)
    requires forall k :: 0 <= k < |s| ==> s[k] == []
    ensures Pool(s) == multiset{}
  {
    if |s| > 0 {
      PoolOfNothing(s[..|s| - 1]);
    }
  }

  /** One more record of the file is one more record of its owner. */
  lemma LoadedMore(file: seq<Data>, st: Setup)
    requires Good(st) && |file| > 0
    ensures var n := |file| - 1;
      var before, k := AllLoaded(file[..n], st), Owner(st, n) - 1;
      0 <= k < |before| && AllLoaded(file, st) == before[k := before[k] + [RecordAt(file, st, n)]]
  {
    hide Owner, Mine, ShareOf, StartOf;
    var n := |file| - 1;
    var before, after, k := AllLoaded(file[..n], st), AllLoaded(file, st), Owner(st, n) - 1;
    OwnerInRange(st, n);
    forall j | 0 <= j < st.threads
      ensures after[j] == if j == k then before[k] + [RecordAt(file, st, n)] else before[j]
    {
      TakenByOwnerOnly(st, n, j + 1);
    }
  }

  lemma OwnerInRange(st: Setup, i: nat)
    requires Good(st)
    ensures 1 <= Owner(st, i) <= st.threads
  {
  }

  /** All threads together load every record of the file once. */
  lemma {:induction false} PoolOfLoaded(file: seq<Data>, st: Setup)
    requires Good(st)
    ensures Pool(AllLoaded(file, st)) == multiset(FileRecords(file, st))
  {
    hide RecordAt, AllLoaded, Pool;
    if |file| == 0 {
      NothingLoaded(file, st);
      PoolOfNothing(AllLoaded(file, st));
    } else {
      PoolOfLoaded(file[..|file| - 1], st);
      LoadedMore(file, st);
      PoolPush(AllLoaded(file[..|file| - 1], st), Owner(st, |file| - 1) - 1, RecordAt(file, st, |file| - 1));
    }
  }

  lemma NothingLoaded(file: seq<Data>, st: Setup)
    requires |file| == 0
    ensures forall k :: 0 <= k < st.threads ==> AllLoaded(file, st)[k] == []
  {
  }

  // ---------- threads without records ----------

  lemma {:induction false} NothingMine(file: seq<Data>, share: Share, start: int, job: nat)
    requires forall i :: 0 <= i < |file| ==> !Mine(share, i)
    ensures Loaded(file, share, start, job) == []
  {
    hide Mine;
    if |file| > 0 {
      NothingMine(file[..|file| - 1], share, start, job);
    }
  }

  lemma {:induction false} SomethingMine(file: seq<Data>, share: Share, start: int, job: nat, i: nat)
    requires i < |file| && Mine(share, i)
    ensures Loaded(file, share, start, job) != []
  {
    hide Mine;
    if i < |file| - 1 {
      SomethingMine(file[..|file| - 1], share, start, job, i);
    }
  }

  /** The first record of the file that can be thread c's. */
  function FirstOf(st: Setup, c: nat): nat
    requires st.b >= 1 && c >= 1
  {
    if st.load == ReadRoundRobin then c - 1 else (MulMonotone(0, c - 1, st.b); (c - 1) * st.b)
  }

  /** A thread has records if and only if the file goes so far. */
  lemma LoadedIff(file: seq<Data>, st: Setup, c: nat)
    requires Good(st) && 1 <= c <= st.threads
    ensures LoadedBy(file, st, c) != [] <==> FirstOf(st, c) < |file|
  {
    hide Mine, ShareOf, StartOf, Loaded;
    if FirstOf(st, c) < |file| {
      OwnerOfFirst(st, c);
      TakenByOwnerOnly(st, FirstOf(st, c), c);
      SomethingMine(file, ShareOf(st, c), StartOf(st, c), c - 1, FirstOf(st, c));
    } else {
      forall i | 0 <= i < |file| ensures !Mine(ShareOf(st, c), i) {
        TakenByOwnerOnly(st, i, c);
        OwnedBehindFirst(st, i);
      }
      NothingMine(file, ShareOf(st, c), StartOf(st, c), c - 1);
    }
  }

  lemma OwnerOfFirst(st: Setup, c: nat)
    requires Good(st) && 1 <= c <= st.threads
    ensures Owner(st, FirstOf(st, c)) == c
  {
    if st.load == ReadRoundRobin {
      DivModUnique(c - 1, st.threads, 0, c - 1);
    } else {
      DivModUnique((c - 1) * st.b, st.b, c - 1, 0);
    }
  }

  lemma OwnedBehindFirst(st: Setup, i: nat)
    requires Good(st)
    ensures Owner(st, i) >= 1 && FirstOf(st, Owner(st, i)) <= i
  {
    if st.load == ReadRoundRobin {
      var q, r := i / st.threads, i % st.threads;
      assert i == q * st.threads + r;
      MulMonotone(0, q, st.threads);
    } else {
      DivAtLeast(i, st.b, Owner(st, i) - 1);
    }
  }

  /** Threads without records come after those with. */
  lemma LoadedFirst(file: seq<Data>, st: Setup)
    requires Good(st)
    ensures FilledFirst(AllLoaded(file, st))
  {
    hide LoadedBy, FirstOf;
    forall i, j | 0 <= i < j < st.threads && AllLoaded(file, st)[j] != [] ensures AllLoaded(file, st)[i] != [] {
      LoadedIff(file, st, i + 1);
      LoadedIff(file, st, j + 1);
      FirstsGrow(st, i + 1, j + 1);
    }
  }

  lemma FirstsGrow(st: Setup, c: nat, d: nat)
    requires Good(st) && 1 <= c <= d
    ensures FirstOf(st, c) <= FirstOf(st, d)
  {
    MulMonotone(c - 1, d - 1, st.b);
  }

  // ---------- the blocks of a file ----------

  /** What the first c threads load, one after the other. */
  ghost function Blocks(file: seq<Data>, st: Setup, c: nat): seq<Data> {
    if c == 0 then [] else Blocks(file, st, c - 1) + Datas(LoadedBy(file, st, c))
  }

  lemma {:induction false} BlockIsSlice(file: seq<Data>, skip: nat, stop: nat, start: int, job: nat)
    requires stop > 0 ==> skip <= stop
    ensures var lo := if skip <= |file| then skip else |file|;
      var hi := if 0 < stop < |file| then stop else |file|;
      Datas(Loaded(file, Bounds(skip, stop), start, job)) == file[lo..hi]
  {
    hide Datas, Size;
    if |file| == 0 {
      NothingHeld();
    } else {
      var front := file[..|file| - 1];
      var block := Loaded(front, Bounds(skip, stop), start, job);
      BlockIsSlice(front, skip, stop, start, job);
      DatasAppend(block, Record(file[|file| - 1], start + Size(block), job));
      assert block + [] == block;
      SliceGrows(file, skip, stop);
    }
  }

  /** One record more of the file is one record more of the slice, unless it is skipped or behind the stop. */
  lemma SliceGrows(file: seq<Data>, skip: nat, stop: nat)
    requires |file| > 0 && (stop > 0 ==> skip <= stop)
    ensures var n := |file|;
      var lo, hi := if skip <= n then skip else n, if 0 < stop < n then stop else n;
      var lo1, hi1 := if skip <= n - 1 then skip else n - 1, if 0 < stop < n - 1 then stop else n - 1;
      file[lo..hi] == file[..n - 1][lo1..hi1] + if Taken(n, skip, stop) then [file[n - 1]] else []
  {
  }

  lemma NothingHeld()
    ensures Datas([]) == []
  {
  }

  lemma NextSlice(file: seq<Data>, lo: nat, hi: nat)
    requires lo <= hi
    ensures var a := if lo <= |file| then lo else |file|;
      var b := if hi <= |file| then hi else |file|;
      file[..a] + file[a..b] == file[..b]
  {
  }

  lemma {:induction false} BlocksArePrefix(file: seq<Data>, st: Setup, c: nat)
    requires Good(st) && st.load == ReadBlockChunk && c < st.threads
    ensures Blocks(file, st, c) == file[..if c * st.b <= |file| then c * st.b else |file|]
  {
    hide Loaded, Datas;
    if c == 0 {
      assert 0 * st.b == 0;
    } else {
      var lo, hi := (c - 1) * st.b, c * st.b;
      assert lo + st.b == hi;
      MulMonotone(0, c - 1, st.b);
      BlocksArePrefix(file, st, c - 1);
      BlockIsSlice(file, lo, hi, StartOf(st, c), c - 1);
      NextSlice(file, lo, hi);
    }
  }

  /** Put one after the other, the blocks of all threads are the file. */
  lemma BlocksMakeFile(file: seq<Data>, st: Setup)
    requires Good(st) && st.load == ReadBlockChunk
    ensures Blocks(file, st, st.threads) == file
  {
    hide Loaded, Datas;
    var c := st.threads - 1;
    BlocksArePrefix(file, st, c);
    MulMonotone(0, c, st.b);
    BlockIsSlice(file, SkipOf(st.threads, st.b), 0, StartOf(st, st.threads), c);
  }

  // ---------- positions tell records apart ----------

  lemma {:induction false} SizeGrows(file: seq<Data>, share: Share, start: int, job: nat, i: nat, j: nat)
    requires i <= j <= |file|
    ensures Size(Loaded(file[..i], share, start, job)) <= Size(Loaded(file[..j], share, start, job))
    ensures i < j && Mine(share, i) ==>
      Size(Loaded(file[..i], share, start, job)) + |file[i]| <= Size(Loaded(file[..j], share, start, job))
    decreases j
  {
    hide Loaded, Mine, Size;
    if i < j {
      SizeGrows(file, share, start, job, i, j - 1);
      LoadedNext(file, share, start, job, j - 1);
      var front := Loaded(file[..j - 1], share, start, job);
      SizeNext(front, Record(file[j - 1], start + Size(front), job));
      assert front + [] == front;
    }
  }

  ghost predicate NoneEmpty(file: seq<Data>) {
    forall i :: 0 <= i < |file| ==> |file[i]| > 0
  }

  lemma RecordsDiffer(file: seq<Data>, st: Setup, i: nat, j: nat)
    requires Good(st) && i < j < |file| && NoneEmpty(file)
    ensures RecordAt(file, st, i).job == RecordAt(file, st, j).job ==>
      RecordAt(file, st, i).pos < RecordAt(file, st, j).pos
  {
    hide Loaded, Mine, Size, Owner, ShareOf, StartOf;
    var c := Owner(st, i);
    OwnerInRange(st, i);
    OwnerInRange(st, j);
    TakenByOwnerOnly(st, i, c);
    SizeGrows(file, ShareOf(st, c), StartOf(st, c), c - 1, i, j);
  }

  /** No two records of a file have the same position and the same job, if none is empty. */
  lemma PositionsTellApart(file: seq<Data>, st: Setup)
    requires Good(st) && NoneEmpty(file)
    ensures PositionsIdentify(multiset(FileRecords(file, st)))
  {
    hide FileRecords, RecordAt;
    var s := FileRecords(file, st);
    forall r: Record, t: Record | r in multiset(s) && t in multiset(s) && r.pos == t.pos && r.job == t.job
      ensures r == t
    {
      assert r in s && t in s;
      var i :| 0 <= i < |s| && s[i] == r;
      var j :| 0 <= j < |s| && s[j] == t;
      FileRecordAt(file, st, i);
      FileRecordAt(file, st, j);
      if i < j {
        RecordsDiffer(file, st, i, j);
      } else if j < i {
        RecordsDiffer(file, st, j, i);
      }
    }
  }

  // ---------- positions of records of one length ----------

  ghost predicate OfLength(file: seq<Data>, m: nat) {
    forall i :: 0 <= i < |file| ==> |file[i]| == m
  }

  lemma {:induction false} SizeOfLoaded(file: seq<Data>, share: Share, start: int, job: nat, m: nat)
    requires OfLength(file, m)
    ensures Size(Loaded(file, share, start, job)) == |Loaded(file, share, start, job)| * m
  {
    hide Mine, Size;
    if |file| == 0 {
      assert Size(Loaded(file, share, start, job)) == 0 by { SizeOfNothing(); }
    } else {
      var front := Loaded(file[..|file| - 1], share, start, job);
      SizeOfLoaded(file[..|file| - 1], share, start, job, m);
      SizeNext(front, Record(file[|file| - 1], start + Size(front), job));
      assert front + [] == front && |file[|file| - 1]| == m;
      MulDistributes(|front|, 1, m);
    }
  }

  /** The number of records a thread has loaded when record i of the file, its own, comes. */
  function Local(st: Setup, i: nat): int
    requires st.b >= 1 && st.threads >= 1
  {
    if st.load == ReadRoundRobin then i / st.threads else i - SkipOf(Owner(st, i), st.b)
  }

  lemma {:induction false} CountInBlock(file: seq<Data>, skip: nat, stop: int, start: int, job: nat, n: nat)
    requires n <= |file| && (stop > 0 ==> n <= stop)
    ensures |Loaded(file[..n], Bounds(skip, stop), start, job)| == if n <= skip then 0 else n - skip
  {
    if n > 0 {
      CountInBlock(file, skip, stop, start, job, n - 1);
      LoadedNext(file, Bounds(skip, stop), start, job, n - 1);
    }
  }

  lemma {:induction false} CountInTurn(file: seq<Data>, c: nat, threads: nat, start: int, job: nat, n: nat)
    requires n <= |file| && 1 <= c <= threads
    ensures |Loaded(file[..n], Every(c, threads), start, job)| == (n + threads - c) / threads
  {
    hide Loaded;
    if n > 0 {
      CountInTurn(file, c, threads, start, job, n - 1);
      LoadedNext(file, Every(c, threads), start, job, n - 1);
      TurnCounts(n - 1, c, threads);
    } else {
      DivModUnique(threads - c, threads, 0, threads - c);
      NothingFrom(file, Every(c, threads), start, job);
    }
  }

  lemma NothingFrom(file: seq<Data>, share: Share, start: int, job: nat)
    ensures Loaded(file[..0], share, start, job) == []
  {
  }

  lemma TurnCounts(n: nat, c: nat, threads: nat)
    requires 1 <= c <= threads
    ensures (n + 1 + threads - c) / threads == (n + threads - c) / threads + if n % threads + 1 == c then 1 else 0
    ensures n % threads + 1 == c ==> (n + threads - c) / threads == n / threads
  {
    var q, r := n / threads, n % threads;
    assert n == q * threads + r;
    MulDistributes(q, 1, threads);
    if r + 1 < c {
      DivModUnique(n + threads - c, threads, q, r + threads - c);
      DivModUnique(n + 1 + threads - c, threads, q, r + 1 + threads - c);
    } else if r + 1 == c {
      DivModUnique(n + threads - c, threads, q, threads - 1);
      DivModUnique(n + 1 + threads - c, threads, q + 1, 0);
    } else {
      DivModUnique(n + threads - c, threads, q + 1, r - c);
      DivModUnique(n + 1 + threads - c, threads, q + 1, r + 1 - c);
    }
  }

  lemma LocalCounts(file: seq<Data>, st: Setup, i: nat)
    requires Good(st) && i < |file|
    ensures |LoadedBy(file[..i], st, Owner(st, i))| == Local(st, i)
  {
    hide Loaded;
    var c := Owner(st, i);
    OwnerInRange(st, i);
    if st.load == ReadRoundRobin {
      CountInTurn(file, c, st.threads, StartOf(st, c), c - 1, i);
      TurnCounts(i, c, st.threads);
    } else {
      MulMonotone(0, c - 1, st.b);
      BlockOfOwner(st, i);
      CountInBlock(file, SkipOf(c, st.b), StopOf(c, st.threads, st.b), StartOf(st, c), c - 1, i);
    }
  }

  lemma BlockOfOwner(st: Setup, i: nat)
    requires Good(st) && st.load == ReadBlockChunk
    ensures var c := Owner(st, i);
      && SkipOf(c, st.b) <= i && (c < st.threads ==> i < SkipOf(c, st.b) + st.b == StopOf(c, st.threads, st.b))
  {
    var c := Owner(st, i);
    DivAtLeast(i, st.b, c - 1);
    DivAtLeast(i, st.b, c);
    MulDistributes(c - 1, 1, st.b);
  }

  /** Where a record of a file of one record length is put. */
  lemma PositionIs(file: seq<Data>, st: Setup, m: nat, i: nat)
    requires Good(st) && i < |file| && OfLength(file, m)
    ensures RecordAt(file, st, i).pos == StartOf(st, Owner(st, i)) + Local(st, i) * m
    ensures RecordAt(file, st, i).job == Owner(st, i) - 1
  {
    hide Loaded, Owner, Local, ShareOf, StartOf;
    var c := Owner(st, i);
    OwnerInRange(st, i);
    LocalCounts(file, st, i);
    SizeOfLoaded(file[..i], ShareOf(st, c), StartOf(st, c), c - 1, m);
  }

  // ---------- positions of records that are dealt out ----------

  /** The bytes that stand in front of a record in its own thread's turn, when records are dealt out. */
  function BytesBefore(file: seq<Data>, threads: nat, i: nat): nat
    requires threads >= 1 && i < |file|
  {
    if i < threads then 0 else BytesBefore(file, threads, i - threads) + |file[i - threads]|
  }

  lemma NotItsTurn(i: nat, k: nat, threads: nat)
    requires threads >= 1 && k < i < k + threads
    ensures k % threads != i % threads
  {
    var q, r := k / threads, k % threads;
    assert k == q * threads + r;
    MulDistributes(q, 1, threads);
    if r + (i - k) < threads {
      DivModUnique(i, threads, q, r + (i - k));
    } else {
      DivModUnique(i, threads, q + 1, r + (i - k) - threads);
    }
  }

  /** Between two records of its turn, a thread loads nothing. */
  lemma {:induction false} NothingBetween(file: seq<Data>, threads: nat, job: nat, from: nat, n: nat, i: nat)
    requires threads >= 1 && from <= n <= i < |file| && i < from + threads
    ensures var share := Every(i % threads + 1, threads);
      Loaded(file[..n], share, 0, job) == Loaded(file[..from], share, 0, job)
  {
    hide Loaded;
    if n > from {
      NothingBetween(file, threads, job, from, n - 1, i);
      LoadedNext(file, Every(i % threads + 1, threads), 0, job, n - 1);
      NotItsTurn(i, n - 1, threads);
    }
  }

  lemma {:induction false} DealtSize(file: seq<Data>, threads: nat, job: nat, i: nat)
    requires threads >= 1 && i < |file|
    ensures Size(Loaded(file[..i], Every(i % threads + 1, threads), 0, job)) == BytesBefore(file, threads, i)
  {
    hide Loaded, Size;
    var share := Every(i % threads + 1, threads);
    if i < threads {
      NothingBetween(file, threads, job, 0, i, i);
      NothingFrom(file, share, 0, job);
      SizeOfNothing();
    } else {
      var k := i - threads;
      SameTurn(k, threads);
      DealtSize(file, threads, job, k);
      NothingBetween(file, threads, job, k + 1, i, i);
      LoadedNext(file, share, 0, job, k);
      var front := Loaded(file[..k], share, 0, job);
      SizeNext(front, Record(file[k], 0 + Size(front), job));
    }
  }

  lemma SameTurn(k: nat, threads: nat)
    requires threads >= 1
    ensures (k + threads) % threads == k % threads
  {
    var q := k / threads;
    MulDistributes(q, 1, threads);
    DivModUnique(k + threads, threads, q + 1, k % threads);
  }

  lemma DealtPosition(file: seq<Data>, st: Setup, i: nat)
    requires Good(st) && st.load == ReadRoundRobin && i < |file|
    ensures RecordAt(file, st, i) == Record(file[i], BytesBefore(file, st.threads, i), i % st.threads)
  {
    hide Loaded, Size;
    DealtSize(file, st.threads, i % st.threads, i);
  }

  /** Dealt out, record i is earlier: it has fewer bytes in front of it, or as many and an earlier turn. */
  predicate DealtBefore(file: seq<Data>, threads: nat, i: nat, j: nat)
    requires threads >= 1 && i < |file| && j < |file|
  {
    var a, b := BytesBefore(file, threads, i), BytesBefore(file, threads, j);
    a < b || (a == b && i % threads <= j % threads)
  }

  /** Records of any lengths that are dealt out are in order if and only if the bytes in front of them are. */
  lemma DealtInOrderIff(fields: seq<SortField>, file: seq<Data>, st: Setup)
    requires Good(st) && st.load == ReadRoundRobin
    ensures var s := FileRecords(file, st);
      InOrder(ByPosition(fields), s) <==>
      forall i, j :: 0 <= i < j < |file| && SameKey(fields, s[i], s[j]) ==> DealtBefore(file, st.threads, i, j)
  {
    hide FileRecords, RecordAt, SameKey, BytesBefore, Before;
    var s := FileRecords(file, st);
    forall i, j | 0 <= i < j < |file|
      ensures Before(ByPosition(fields), s[i], s[j]) <==> DealtBefore(file, st.threads, i, j)
    {
      FileRecordAt(file, st, i);
      FileRecordAt(file, st, j);
      DealtPosition(file, st, i);
      DealtPosition(file, st, j);
      BeforeByPosition(fields, s[i], s[j]);
    }
  }

  // ---------- order within a thread ----------

  lemma {:induction false} JobOfLoaded(file: seq<Data>, share: Share, start: int, job: nat)
    ensures forall r :: r in Loaded(file, share, start, job) ==>
      r.job == job && r.pos <= start + Size(Loaded(file, share, start, job))
  {
    hide Mine, Size;
    if |file| > 0 {
      var front := Loaded(file[..|file| - 1], share, start, job);
      JobOfLoaded(file[..|file| - 1], share, start, job);
      SizeNext(front, Record(file[|file| - 1], start + Size(front), job));
      assert front + [] == front;
    }
  }

  lemma {:induction false} LoadedInOrder(fields: seq<SortField>, file: seq<Data>, share: Share, start: int, job: nat)
    ensures InOrder(ByPosition(fields), Loaded(file, share, start, job))
  {
    hide Mine, Size, SameKey, Before;
    if |file| > 0 {
      var front := Loaded(file[..|file| - 1], share, start, job);
      LoadedInOrder(fields, file[..|file| - 1], share, start, job);
      JobOfLoaded(file[..|file| - 1], share, start, job);
      assert front + [] == front;
      var last := Record(file[|file| - 1], start + Size(front), job);
      forall i | 0 <= i < |front| ensures Before(ByPosition(fields), front[i], last) {
        assert front[i] in front;
        BeforeByPosition(fields, front[i], last);
      }
    }
  }

  // ---------- order between threads ----------

  /** Dealt out record by record, records of one length are in order. */
  lemma DealtInOrder(file: seq<Data>, st: Setup, m: nat, i: nat, j: nat)
    requires Good(st) && st.load == ReadRoundRobin && m >= 1 && OfLength(file, m) && i < j < |file|
    ensures Earlier(RecordAt(file, st, i), RecordAt(file, st, j))
  {
    hide RecordAt;
    PositionIs(file, st, m, i);
    PositionIs(file, st, m, j);
    var k, l := i / st.threads, j / st.threads;
    assert i == k * st.threads + i % st.threads && j == l * st.threads + j % st.threads;
    DivAtLeast(j, st.threads, k);
    if k < l {
      FarEnough(k, l, m, 0);
    }
  }

  /** Another k records of m bytes are behind l fewer, whatever is in front of them. */
  lemma FarEnough(k: int, l: int, m: nat, start: int)
    requires k < l
    ensures start + k * m + m <= start + l * m
  {
    MulMonotone(k + 1, l, m);
    MulDistributes(k, 1, m);
  }

  /**
   When every file of so many records is in order: one thread, one block, or blocks that are not longer, up to
   their last record, than what skipping them adds to the position.
   */
  predicate Fits(st: Setup, n: nat, m: nat) {
    st.threads == 1 || n <= st.b || (st.b - 1) * m <= st.b * st.advance
  }

  lemma BlockInOrder(file: seq<Data>, st: Setup, m: nat, i: nat, j: nat)
    requires Good(st) && st.load == ReadBlockChunk && m >= 1 && OfLength(file, m) && i < j < |file|
    requires Fits(st, |file|, m)
    ensures Earlier(RecordAt(file, st, i), RecordAt(file, st, j))
  {
    hide RecordAt, Owner;
    PositionIs(file, st, m, i);
    PositionIs(file, st, m, j);
    var c, d := Owner(st, i), Owner(st, j);
    OwnersGrow(st, i, j);
    if c == d {
      FarEnough(Local(st, i), Local(st, j), m, StartOf(st, c));
    } else {
      BlockOfOwner(st, i);
      BlockOfOwner(st, j);
      MulMonotone(Local(st, i), st.b - 1, m);
      MulMonotone(0, Local(st, j), m);
      StartsGrow(st, c, d);
      if |file| <= st.b {
        OneBlock(st, j);
      }
    }
  }

  lemma OwnersGrow(st: Setup, i: nat, j: nat)
    requires Good(st) && st.load == ReadBlockChunk && i < j
    ensures Owner(st, i) <= Owner(st, j) <= st.threads
  {
    assert i / st.b * st.b <= i;
    DivAtLeast(j, st.b, i / st.b);
  }

  lemma OneBlock(st: Setup, i: nat)
    requires Good(st) && st.load == ReadBlockChunk && i < st.b
    ensures Owner(st, i) == 1
  {
    DivModUnique(i, st.b, 0, i);
  }

  lemma StartsGrow(st: Setup, c: nat, d: nat)
    requires Good(st) && st.load == ReadBlockChunk && c < d
    ensures StartOf(st, c) + st.b * st.advance <= StartOf(st, d)
  {
    MulMonotone(c, d - 1, st.b);
    MulDistributes(c - 1, 1, st.b);
    MulMonotone(SkipOf(c, st.b) + st.b, SkipOf(d, st.b), st.advance);
    MulDistributes(SkipOf(c, st.b), st.b, st.advance);
  }

  /** What the last record of the first block and the first of the second have to do with each other. */
  lemma AcrossTheCut(file: seq<Data>, st: Setup, m: nat)
    requires Good(st) && st.load == ReadBlockChunk && m >= 1 && OfLength(file, m)
    requires st.threads > 1 && st.b < |file|
    ensures Earlier(RecordAt(file, st, st.b - 1), RecordAt(file, st, st.b)) <==> (st.b - 1) * m <= st.b * st.advance
  {
    hide RecordAt;
    PositionIs(file, st, m, st.b - 1);
    PositionIs(file, st, m, st.b);
    DivModUnique(st.b - 1, st.b, 0, st.b - 1);
    DivModUnique(st.b, st.b, 1, 0);
  }

  ghost predicate OneKey(fields: seq<SortField>, s: seq<Record>) {
    forall i, j :: 0 <= i < |s| && 0 <= j < |s| ==> SameKey(fields, s[i], s[j])
  }

  /** Loaded in blocks, a file whose records have all one key is in order if and only if it fits. */
  lemma BlocksInOrderIff(fields: seq<SortField>, file: seq<Data>, st: Setup, m: nat)
    requires Good(st) && st.load == ReadBlockChunk && m >= 1 && OfLength(file, m)
    requires OneKey(fields, FileRecords(file, st))
    ensures InOrder(ByPosition(fields), FileRecords(file, st)) <==> Fits(st, |file|, m)
  {
    hide RecordAt, FileRecords, SameKey, Before, Earlier;
    if Fits(st, |file|, m) {
      FitsIsInOrder(fields, file, st, m);
    } else {
      AcrossTheCut(file, st, m);
      FileRecordAt(file, st, st.b - 1);
      FileRecordAt(file, st, st.b);
      BeforeByPosition(fields, RecordAt(file, st, st.b - 1), RecordAt(file, st, st.b));
    }
  }

  /** Whatever the keys, a file that fits is in order. */
  lemma FitsIsInOrder(fields: seq<SortField>, file: seq<Data>, st: Setup, m: nat)
    requires Good(st) && m >= 1 && OfLength(file, m) && (st.load == ReadRoundRobin || Fits(st, |file|, m))
    ensures InOrder(ByPosition(fields), FileRecords(file, st))
  {
    hide RecordAt, FileRecords, SameKey, Before, Earlier, Fits;
    var s := FileRecords(file, st);
    forall i, j | 0 <= i < j < |s| && SameKey(fields, s[i], s[j])
      ensures Before(ByPosition(fields), s[i], s[j])
    {
      FileRecordAt(file, st, i);
      FileRecordAt(file, st, j);
      BeforeByPosition(fields, s[i], s[j]);
      if st.load == ReadRoundRobin {
        DealtInOrder(file, st, m, i, j);
      } else {
        BlockInOrder(file, st, m, i, j);
      }
    }
  }

  /**
   Loaded in blocks by skipping records that do not count, as line sequential files are: in order if and only if
   no record of a key stands further back in its block than a later record of that key in the block of another thread.
   */
  lemma LinesInOrderIff(fields: seq<SortField>, file: seq<Data>, st: Setup, m: nat)
    requires Good(st) && st.load == ReadBlockChunk && st.advance == 0 && m >= 1 && OfLength(file, m)
    ensures var s := FileRecords(file, st);
      InOrder(ByPosition(fields), s) <==>
      forall i, j :: 0 <= i < j < |file| && SameKey(fields, s[i], s[j]) ==> LinesBefore(st, i, j)
  {
    hide RecordAt, FileRecords, SameKey, Before, Earlier;
    var s := FileRecords(file, st);
    forall i, j | 0 <= i < j < |file| ensures Before(ByPosition(fields), s[i], s[j]) <==> LinesBefore(st, i, j) {
      FileRecordAt(file, st, i);
      FileRecordAt(file, st, j);
      BeforeByPosition(fields, s[i], s[j]);
      LinesBeforeIs(file, st, m, i, j);
    }
  }

  predicate LinesBefore(st: Setup, i: nat, j: nat)
    requires st.b >= 1 && st.threads >= 1
  {
    Owner(st, i) == Owner(st, j) || Local(st, i) <= Local(st, j)
  }

  lemma LinesBeforeIs(file: seq<Data>, st: Setup, m: nat, i: nat, j: nat)
    requires Good(st) && st.load == ReadBlockChunk && st.advance == 0 && m >= 1 && OfLength(file, m) && i < j < |file|
    ensures Earlier(RecordAt(file, st, i), RecordAt(file, st, j)) <==> LinesBefore(st, i, j)
  {
    hide RecordAt, Owner;
    PositionIs(file, st, m, i);
    PositionIs(file, st, m, j);
    OwnersGrow(st, i, j);
    var k, l := Local(st, i), Local(st, j);
    if k < l {
      FarEnough(k, l, m, 0);
    } else if l < k {
      FarEnough(l, k, m, 0);
    }
  }
}
