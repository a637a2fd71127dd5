/**
 What multithreaded GCSORT guarantees for a whole file. The positions it merges by are read at the output length, so
 of records of any lengths only the keys are sorted, and those of each thread stably among themselves. Records of the
 output length are sorted by their positions too, and this module says which files then come out as a stable sort has
 them, whatever the number of threads. `GcsortShort` is about shorter records.
 */
module GcsortLaws {
  import opened Arithmetic
  import opened GcsortOrder
  import opened GcsortBlocks
  import opened GcsortMerge
  import opened GcsortSlots
  import opened GcsortStability
  import opened GcsortPositions

  /** The sorted buffers of all threads: buffer k is a sorted arrangement of what thread k+1 has loaded. */
  ghost predicate SortedBuffers(fields: seq<SortField>, file: seq<Data>, st: Setup, buffers: Streams) {
    |buffers| == st.threads
    && forall k :: 0 <= k < |buffers| ==>
         Sorted(ByPosition(fields), buffers[k]) && multiset(buffers[k]) == multiset(LoadedBy(file, st, k + 1))
  }

  /** As many threads as there are slots at most, and something in the areas to begin with. */
  ghost predicate Ready(st: Setup, areas: seq<Bytes>) {
    Good(st) && st.threads <= MAX_HANDLE_THREAD == |areas|
  }

  /** The slots after the first record of every stream is read into its area. */
  function FirstSlots(buffers: Streams, areas: seq<Bytes>): (slots: seq<Slot>)
    requires |areas| == MAX_HANDLE_THREAD
    ensures |slots| == MAX_HANDLE_THREAD
  {
    Opened(StreamsOf(buffers, MAX_HANDLE_THREAD), areas)
  }

  /** A run merges these buffers, for an output of records of l bytes, in areas that hold anything. */
  ghost predicate MergedOf(fields: seq<SortField>, file: seq<Data>, st: Setup, l: nat, areas: seq<Bytes>,
                           buffers: Streams, merged: seq<Record>)
    requires Ready(st, areas)
  {
    SortedBuffers(fields, file, st, buffers) && merged == MergedFrom(fields, l, FirstSlots(buffers, areas))
  }

  ghost predicate Merged(fields: seq<SortField>, file: seq<Data>, st: Setup, l: nat, areas: seq<Bytes>,
                         merged: seq<Record>) {
    Ready(st, areas) && exists buffers :: MergedOf(fields, file, st, l, areas, buffers, merged)
  }

  lemma {:induction false} PoolSame(s: Streams, t: Streams)
    requires |s| == |t| && forall k :: 0 <= k < |s| ==> multiset(s[k]) == multiset(t[k])
    ensures Pool(s) == Pool(t)
  {
    if |s| > 0 {
      PoolSame(s[..|s| - 1], t[..|t| - 1]);
    }
  }

  // ---------- what is in the slots ----------

  /** A record of a buffer is one of the file, of that thread. */
  lemma InBuffer(fields: seq<SortField>, file: seq<Data>, st: Setup, buffers: Streams, k: nat, r: Record)
      returns (i: nat)
    requires Good(st) && SortedBuffers(fields, file, st, buffers) && k < st.threads && r in buffers[k]
    ensures i < |file| && r == RecordAt(file, st, i) && r.job == k
  {
    hide Sorted, Loaded, Pool, FileRecords, StartOf, ShareOf, Size, RecordAt;
    assert r in multiset(buffers[k]);
    assert r in LoadedBy(file, st, k + 1);
    JobOfLoaded(file, ShareOf(st, k + 1), StartOf(st, k + 1), k);
    InOneOf(AllLoaded(file, st), k, r);
    PoolOfLoaded(file, st);
    var s := FileRecords(file, st);
    assert r in s;
    i :| 0 <= i < |s| && s[i] == r;
    FileRecordAt(file, st, i);
  }

  lemma BuffersFilledFirst(fields: seq<SortField>, file: seq<Data>, st: Setup, buffers: Streams)
    requires Good(st) && SortedBuffers(fields, file, st, buffers)
    ensures FilledFirst(buffers)
  {
    hide Sorted, LoadedBy;
    LoadedFirst(file, st);
    var loaded := AllLoaded(file, st);
    forall k | 0 <= k < st.threads ensures buffers[k] == [] <==> loaded[k] == [] {
      EmptyAlike(buffers[k], loaded[k]);
    }
  }

  lemma EmptyAlike(s: seq<Record>, t: seq<Record>)
    requires multiset(s) == multiset(t)
    ensures s == [] <==> t == []
  {
    assert |multiset(s)| == |s| && |multiset(t)| == |t|;
  }

  /** The buffer that is merged through slot k: every thread has the slot of its own number. */
  function BufferOf(buffers: Streams, k: nat): seq<Record> {
    if k < |buffers| then buffers[k] else []
  }

  lemma SlotOfThread(fields: seq<SortField>, file: seq<Data>, st: Setup, areas: seq<Bytes>, buffers: Streams, k: nat)
    requires Ready(st, areas) && SortedBuffers(fields, file, st, buffers) && k < MAX_HANDLE_THREAD
    ensures FirstSlots(buffers, areas)[k] == Shown(areas[k], BufferOf(buffers, k))
    ensures FirstSlots(buffers, areas)[k].records == BufferOf(buffers, k)
  {
    hide StreamsOf, Shown;
    BuffersFilledFirst(fields, file, st, buffers);
    StreamOfItsOwn(buffers, MAX_HANDLE_THREAD, k);
    ShownRecords(areas[k], BufferOf(buffers, k));
  }

  lemma SlotsOfThreads(fields: seq<SortField>, file: seq<Data>, st: Setup, areas: seq<Bytes>, buffers: Streams)
    requires Ready(st, areas) && SortedBuffers(fields, file, st, buffers)
    ensures JobsOfTheirOwn(FirstSlots(buffers, areas))
  {
    hide FirstSlots, RecordAt, Sorted, LoadedBy, Shown;
    var slots := FirstSlots(buffers, areas);
    forall k, i | 0 <= k < |slots| && 0 <= i < |slots[k].records| ensures slots[k].records[i].job == k {
      SlotOfThread(fields, file, st, areas, buffers, k);
      var _ := InBuffer(fields, file, st, buffers, k, slots[k].records[i]);
    }
  }

  // ---------- records of any lengths ----------

  lemma PoolOfFirst(fields: seq<SortField>, file: seq<Data>, st: Setup, areas: seq<Bytes>, buffers: Streams)
    requires Ready(st, areas) && SortedBuffers(fields, file, st, buffers)
    ensures Pool(Rests(FirstSlots(buffers, areas))) == multiset(FileRecords(file, st))
  {
    hide Sorted, LoadedBy, Pool, FileRecords, StreamsOf, NonEmpty;
    PoolSame(buffers, AllLoaded(file, st));
    PoolOfLoaded(file, st);
    PoolOfStreams(buffers, MAX_HANDLE_THREAD);
    assert Rests(FirstSlots(buffers, areas)) == StreamsOf(buffers, MAX_HANDLE_THREAD);
  }

  /** Whatever the number of threads and the lengths, the merged records are those of the file, each as often. */
  lemma MergedIsPermutation(fields: seq<SortField>, file: seq<Data>, st: Setup, l: nat, areas: seq<Bytes>,
                            merged: seq<Record>)
    requires Merged(fields, file, st, l, areas, merged)
    ensures multiset(merged) == multiset(FileRecords(file, st))
  {
    hide SortedBuffers, FirstSlots, Pool, FileRecords, MergedFrom;
    var buffers :| MergedOf(fields, file, st, l, areas, buffers, merged);
    PoolOfFirst(fields, file, st, areas, buffers);
    MergedPermutes(fields, l, FirstSlots(buffers, areas));
  }

  /** And they are in the order of their keys: every field counts in its direction, the earlier ones first. */
  lemma MergedByKeys(fields: seq<SortField>, file: seq<Data>, st: Setup, l: nat, areas: seq<Bytes>, merged: seq<Record>)
    requires AreOrders(fields) && Merged(fields, file, st, l, areas, merged)
    ensures KeySorted(fields, merged) && InKeyOrder(fields, merged)
  {
    hide FirstSlots, MergedFrom, KeySorted, Sorted, LoadedBy, Shown, InKeyOrder;
    var buffers :| MergedOf(fields, file, st, l, areas, buffers, merged);
    var slots := FirstSlots(buffers, areas);
    forall k | 0 <= k < |slots| ensures KeySorted(fields, slots[k].records) {
      SlotOfThread(fields, file, st, areas, buffers, k);
      NothingSorted(ByPosition(fields));
      SortedByKeys(ByPosition(fields), BufferOf(buffers, k));
    }
    MergedKeySorted(fields, l, slots);
    KeySortedIff(fields, merged);
  }

  lemma NothingSorted(rank: Ranking)
    ensures Sorted(rank, [])
  {
  }

  lemma SharePositions(file: seq<Data>, st: Setup, c: nat)
    requires Good(st) && NoneEmpty(file) && 1 <= c <= st.threads
    ensures PositionsIdentify(multiset(LoadedBy(file, st, c)))
  {
    hide FileRecords, LoadedBy, Pool;
    PositionsTellApart(file, st);
    PoolOfLoaded(file, st);
    var share := LoadedBy(file, st, c);
    forall r | r in multiset(share) ensures r in multiset(FileRecords(file, st)) {
      assert r in share;
      InOneOf(AllLoaded(file, st), c - 1, r);
    }
  }

  /** The buffer of a thread is the stable sort of its share. */
  lemma BufferIs(fields: seq<SortField>, file: seq<Data>, st: Setup, buffers: Streams, k: nat)
    requires AreOrders(fields) && Good(st) && NoneEmpty(file) && SortedBuffers(fields, file, st, buffers)
    requires k < st.threads
    ensures buffers[k] == StableSort(fields, LoadedBy(file, st, k + 1))
  {
    hide Sorted, Loaded, StableSort, ShareOf, StartOf, InOrder, PositionsIdentify;
    SharePositions(file, st, k + 1);
    LoadedInOrder(fields, file, ShareOf(st, k + 1), StartOf(st, k + 1), k);
    SortedIsStableIff(ByPosition(fields), buffers[k], LoadedBy(file, st, k + 1));
  }

  /** Whatever the lengths, the records of each thread come out among themselves as the stable sort of its share. */
  lemma ThreadsKeepOrder(fields: seq<SortField>, file: seq<Data>, st: Setup, l: nat, areas: seq<Bytes>,
                         merged: seq<Record>, k: nat)
    requires AreOrders(fields) && NoneEmpty(file) && Merged(fields, file, st, l, areas, merged) && k < st.threads
    ensures OfJob(merged, k) == StableSort(fields, LoadedBy(file, st, k + 1))
  {
    hide FirstSlots, MergedFrom, OfJob, StableSort, Sorted, LoadedBy, JobsOfTheirOwn, Shown;
    var buffers :| MergedOf(fields, file, st, l, areas, buffers, merged);
    SlotsOfThreads(fields, file, st, areas, buffers);
    SlotOfThread(fields, file, st, areas, buffers, k);
    MergedOfJob(fields, l, FirstSlots(buffers, areas), k);
    BufferIs(fields, file, st, buffers, k);
  }

  /** The records of a file before anything is done with them. */
  function Plain(file: seq<Data>): (s: seq<Record>)
    ensures |s| == |file|
  {
    seq(|file|, i requires 0 <= i < |file| => Record(file[i], 0, 0))
  }

  /** The stable sort of a file. */
  function SortedFile(fields: seq<SortField>, file: seq<Data>): seq<Data> {
    Datas(StableSort(fields, Plain(file)))
  }

  lemma SortedFileIs(fields: seq<SortField>, file: seq<Data>, st: Setup)
    requires Good(st)
    ensures Datas(StableSort(fields, FileRecords(file, st))) == SortedFile(fields, file)
  {
    hide StableSort, FileRecords;
    FileDatas(file, st);
    assert Datas(Plain(file)) == file;
    StableSortDatas(fields, FileRecords(file, st), Plain(file));
  }

  /** So one thread alone sorts stably, whatever the lengths. */
  lemma OneThreadIsStable(fields: seq<SortField>, file: seq<Data>, st: Setup, l: nat, areas: seq<Bytes>,
                          merged: seq<Record>)
    requires AreOrders(fields) && NoneEmpty(file) && Merged(fields, file, st, l, areas, merged) && st.threads == 1
    ensures merged == StableSort(fields, FileRecords(file, st)) && Datas(merged) == SortedFile(fields, file)
  {
    hide Merged, FileRecords, OfJob, StableSort, Loaded, ShareOf, StartOf;
    ReadyOf(fields, file, st, l, areas, merged);
    ThreadsKeepOrder(fields, file, st, l, areas, merged, 0);
    MergedIsPermutation(fields, file, st, l, areas, merged);
    AllOfOneThread(file, st);
    JobOfLoaded(file, ShareOf(st, 1), StartOf(st, 1), 0);
    forall r | r in merged ensures r.job == 0 {
      assert r in multiset(merged);
      assert r in LoadedBy(file, st, 1);
    }
    AllOfJob(merged, 0);
    SortedFileIs(fields, file, st);
  }

  lemma {:induction false} AllOfOneThread(file: seq<Data>, st: Setup)
    requires Good(st) && st.threads == 1
    ensures LoadedBy(file, st, 1) == FileRecords(file, st)
  {
    hide Mine, Owner, ShareOf, StartOf;
    if |file| > 0 {
      var n := |file| - 1;
      AllOfOneThread(file[..n], st);
      OwnerInRange(st, n);
      TakenByOwnerOnly(st, n, 1);
    }
  }

  lemma ReadyOf(fields: seq<SortField>, file: seq<Data>, st: Setup, l: nat, areas: seq<Bytes>, merged: seq<Record>)
    requires Merged(fields, file, st, l, areas, merged)
    ensures Ready(st, areas) && Good(st)
  {
  }

  // ---------- what the slots show decides ----------

  /** When the records are ranked by what the slots show, that is how they come out. */
  lemma MergedByRank(rank: Ranking, file: seq<Data>, st: Setup, l: nat, areas: seq<Bytes>, buffers: Streams,
                     merged: seq<Record>)
    requires AreOrders(rank.fields) && NoneEmpty(file) && Ready(st, areas)
    requires MergedOf(rank.fields, file, st, l, areas, buffers, merged)
    requires AllHonest(rank, l, FirstSlots(buffers, areas))
    ensures Sorted(rank, merged)
    ensures merged == StableSort(rank.fields, FileRecords(file, st)) <==> InOrder(rank, FileRecords(file, st))
  {
    hide AllHonest, Sorted, InOrder, SortedBuffers, FirstSlots, FileRecords, StableSort, Pool, MergedFrom;
    hide JobsOfTheirOwn, NoneEmpty, PositionsIdentify, AreOrders;
    SlotsOfThreads(rank.fields, file, st, areas, buffers);
    MergedSorted(rank, l, FirstSlots(buffers, areas));
    PoolOfFirst(rank.fields, file, st, areas, buffers);
    MergedPermutes(rank.fields, l, FirstSlots(buffers, areas));
    PositionsTellApart(file, st);
    SortedIsStableIff(rank, merged, FileRecords(file, st));
  }

  // ---------- records of the output length ----------

  /** Positions are kept in eight bytes. */
  ghost predicate PositionsFit(file: seq<Data>, st: Setup)
    requires Good(st)
  {
    forall i :: 0 <= i < |file| ==> InRange(RecordAt(file, st, i).pos)
  }

  lemma FullSlotHonest(fields: seq<SortField>, l: nat, area: Bytes, records: seq<Record>)
    requires forall r :: r in records ==> |r.data| == l && InRange(r.pos)
    ensures Honest(ByPosition(fields), l, Shown(area, records))
  {
    hide PosSeen, Filled;
    if records != [] {
      assert records[0] in records;
      SeenOfFull(area, records[0], l);
    }
  }

  lemma FullSlotsHonest(fields: seq<SortField>, file: seq<Data>, st: Setup, l: nat, areas: seq<Bytes>, buffers: Streams)
    requires Ready(st, areas) && SortedBuffers(fields, file, st, buffers) && OfLength(file, l) && PositionsFit(file, st)
    ensures AllHonest(ByPosition(fields), l, FirstSlots(buffers, areas))
  {
    hide Honest, Sorted, Shown, FirstSlots, LoadedBy, InRange, RecordAt;
    var rank, slots := ByPosition(fields), FirstSlots(buffers, areas);
    forall k | 0 <= k < |slots| ensures Honest(rank, l, slots[k]) && Sorted(rank, slots[k].records) {
      var records := BufferOf(buffers, k);
      SlotOfThread(fields, file, st, areas, buffers, k);
      forall r | r in records ensures |r.data| == l && InRange(r.pos) {
        var i := InBuffer(fields, file, st, buffers, k, r);
        DataIs(file, st, i);
      }
      FullSlotHonest(fields, l, areas[k], records);
      NothingSorted(rank);
    }
  }

  lemma DataIs(file: seq<Data>, st: Setup, i: nat)
    requires Good(st) && i < |file|
    ensures RecordAt(file, st, i).data == file[i]
  {
  }

  /**
   Records of the output length come out sorted by key and position. That is the stable sort of the file if and only
   if the records of every key are in order.
   */
  lemma MergedIsStableIff(fields: seq<SortField>, file: seq<Data>, st: Setup, l: nat, areas: seq<Bytes>,
                          merged: seq<Record>)
    requires AreOrders(fields) && Merged(fields, file, st, l, areas, merged)
    requires l >= 1 && OfLength(file, l) && PositionsFit(file, st)
    ensures Sorted(ByPosition(fields), merged)
    ensures merged == StableSort(fields, FileRecords(file, st)) <==> InOrder(ByPosition(fields), FileRecords(file, st))
  {
    hide AllHonest, Sorted, InOrder, SortedBuffers, FirstSlots, FileRecords, StableSort, MergedFrom, PositionsFit,
      AreOrders;
    var buffers :| MergedOf(fields, file, st, l, areas, buffers, merged);
    FullSlotsHonest(fields, file, st, l, areas, buffers);
    MergedByRank(ByPosition(fields), file, st, l, areas, buffers, merged);
  }

  /** Records of the output length, dealt out or loaded in blocks that fit, are sorted stably. */
  lemma MergedIsStable(fields: seq<SortField>, file: seq<Data>, st: Setup, l: nat, areas: seq<Bytes>,
                       merged: seq<Record>)
    requires AreOrders(fields) && Merged(fields, file, st, l, areas, merged)
    requires l >= 1 && OfLength(file, l) && PositionsFit(file, st)
    requires st.load == ReadRoundRobin || Fits(st, |file|, l)
    ensures Datas(merged) == SortedFile(fields, file)
  {
    hide *;
    ReadyOf(fields, file, st, l, areas, merged);
    FitsIsInOrder(fields, file, st, l);
    MergedIsStableIff(fields, file, st, l, areas, merged);
    SortedFileIs(fields, file, st);
  }

  /**
   Sequential files, and the files that are dealt out: with records of one length, not longer than they stand in
   the file, blocks always fit.
   */
  lemma SequentialFits(org: Organisation, variable: bool, threads: nat, numRecords: nat, recordLength: nat,
                       n: nat, m: nat)
    requires threads >= 1 && m <= recordLength && (org == Sequential || TypeLoadOf(org, variable) == ReadRoundRobin)
    ensures var st := SetupOf(org, variable, threads, numRecords, recordLength);
      st.load == ReadRoundRobin || Fits(st, n, m)
  {
    var b := BlockSize(numRecords, threads);
    MulMonotone(b - 1, b, m);
    MulMonotone(m, recordLength, b);
    MulCommutes(b, m);
    MulCommutes(b, recordLength);
  }

  /**
   Two runs over the same file of records of the output length, with any numbers of threads and estimates of its size,
   put out the same.
   */
  lemma ThreadsDoNotMatter(fields: seq<SortField>, file: seq<Data>, org: Organisation, variable: bool,
                           recordLength: nat, l: nat,
                           threads1: nat, numRecords1: nat, areas1: seq<Bytes>, merged1: seq<Record>,
                           threads2: nat, numRecords2: nat, areas2: seq<Bytes>, merged2: seq<Record>)
    requires AreOrders(fields) && 1 <= l <= recordLength && OfLength(file, l) && threads1 >= 1 && threads2 >= 1
    requires org == Sequential || TypeLoadOf(org, variable) == ReadRoundRobin
    requires Merged(fields, file, SetupOf(org, variable, threads1, numRecords1, recordLength), l, areas1, merged1)
    requires Merged(fields, file, SetupOf(org, variable, threads2, numRecords2, recordLength), l, areas2, merged2)
    requires PositionsFit(file, SetupOf(org, variable, threads1, numRecords1, recordLength))
    requires PositionsFit(file, SetupOf(org, variable, threads2, numRecords2, recordLength))
    ensures Datas(merged1) == Datas(merged2) == SortedFile(fields, file)
  {
    hide *;
    SequentialFits(org, variable, threads1, numRecords1, recordLength, |file|, l);
    SequentialFits(org, variable, threads2, numRecords2, recordLength, |file|, l);
    MergedIsStable(fields, file, SetupOf(org, variable, threads1, numRecords1, recordLength), l, areas1, merged1);
    MergedIsStable(fields, file, SetupOf(org, variable, threads2, numRecords2, recordLength), l, areas2, merged2);
  }

  /**
   Line sequential files of fixed format, their records of the output length: they come out in the stable order if and
   only if no record of a key stands further back in its block than a later one of that key in the block of another
   thread.
   */
  lemma LinesAreStableIff(fields: seq<SortField>, file: seq<Data>, org: Organisation, threads: nat, numRecords: nat,
                          recordLength: nat, l: nat, areas: seq<Bytes>, merged: seq<Record>)
    requires AreOrders(fields) && l >= 1 && OfLength(file, l) && threads >= 1
    requires org == LineSequential || org == LineSequentialFixed
    requires Merged(fields, file, SetupOf(org, false, threads, numRecords, recordLength), l, areas, merged)
    requires PositionsFit(file, SetupOf(org, false, threads, numRecords, recordLength))
    ensures var st := SetupOf(org, false, threads, numRecords, recordLength);
      var s := FileRecords(file, st);
      merged == StableSort(fields, s) <==>
      forall i, j :: 0 <= i < j < |file| && SameKey(fields, s[i], s[j]) ==> LinesBefore(st, i, j)
  {
    hide Merged, StableSort, FileRecords, SameKey, InOrder, BlockSize, Sorted, PositionsFit;
    var st := SetupOf(org, false, threads, numRecords, recordLength);
    MergedIsStableIff(fields, file, st, l, areas, merged);
    LinesInOrderIff(fields, file, st, l);
  }

  /**
   And records that have all one key come out in the order of the file if and only if there is one thread, or one
   block, or blocks of one record.
   */
  lemma LinesOfOneKey(fields: seq<SortField>, file: seq<Data>, org: Organisation, threads: nat, numRecords: nat,
                      recordLength: nat, l: nat, areas: seq<Bytes>, merged: seq<Record>)
    requires AreOrders(fields) && l >= 1 && OfLength(file, l) && threads >= 1
    requires org == LineSequential || org == LineSequentialFixed
    requires Merged(fields, file, SetupOf(org, false, threads, numRecords, recordLength), l, areas, merged)
    requires PositionsFit(file, SetupOf(org, false, threads, numRecords, recordLength))
    requires OneKey(fields, FileRecords(file, SetupOf(org, false, threads, numRecords, recordLength)))
    ensures var st := SetupOf(org, false, threads, numRecords, recordLength);
      merged == StableSort(fields, FileRecords(file, st)) <==>
      threads == 1 || |file| <= st.b || st.b == 1
  {
    hide Merged, StableSort, FileRecords, SameKey, InOrder, BlockSize, Sorted, PositionsFit;
    var st := SetupOf(org, false, threads, numRecords, recordLength);
    MergedIsStableIff(fields, file, st, l, areas, merged);
    BlocksInOrderIff(fields, file, st, l);
    if st.b > 1 {
      MulMonotone(1, st.b - 1, l);
    }
  }

  // ---------- a line sequential file in two threads ----------

  /** Four records of one key, two for each of two threads: the first of the second thread overtakes. */
  lemma LinesOvertake(fields: seq<SortField>, file: seq<Data>, areas: seq<Bytes>, merged: seq<Record>,
                      single: seq<Record>)
    requires AreOrders(fields) && |file| == 4 && OfLength(file, 10)
    requires forall i, j :: 0 <= i < 4 && 0 <= j < 4 ==> CompareKeys(fields, file[i], file[j]) == 0
    requires Merged(fields, file, SetupOf(LineSequential, false, 2, 4, 10), 10, areas, merged)
    requires Merged(fields, file, SetupOf(LineSequential, false, 1, 4, 10), 10, areas, single)
    ensures Datas(merged) == [file[0], file[2], file[1], file[3]]
    ensures Datas(single) == [file[0], file[1], file[2], file[3]]
  {
    hide Merged, FileRecords, CompareKeys;
    var two, one := SetupOf(LineSequential, false, 2, 4, 10), SetupOf(LineSequential, false, 1, 4, 10);
    FourRecords(file, two);
    FourRecords(file, one);
    var s, t := FileRecords(file, two), FileRecords(file, one);
    FourLines(fields, file, two, areas, merged, [s[0], s[2], s[1], s[3]]);
    FourLines(fields, file, one, areas, single, [t[0], t[1], t[2], t[3]]);
  }

  lemma FourLines(fields: seq<SortField>, file: seq<Data>, st: Setup, areas: seq<Bytes>, merged: seq<Record>,
                  s: seq<Record>)
    requires AreOrders(fields) && |file| == |s| == 4 && OfLength(file, 10)
    requires st == SetupOf(LineSequential, false, 2, 4, 10) || st == SetupOf(LineSequential, false, 1, 4, 10)
    requires Merged(fields, file, st, 10, areas, merged) && Arranged(FileRecords(file, st), s)
    requires forall i, j :: 0 <= i <= j < 4 ==> CompareKeys(fields, s[i].data, s[j].data) == 0 && Earlier(s[i], s[j])
    ensures merged == s
  {
    hide Merged, FileRecords, Sorted, CompareKeys, InOrder, PositionsFit, Arranged, AreOrders, Before, Earlier;
    FourFit(file, st);
    MergedIsStableIff(fields, file, st, 10, areas, merged);
    MergedIsPermutation(fields, file, st, 10, areas, merged);
    forall i, j | 0 <= i <= j < 4 ensures SameKey(fields, s[i], s[j]) && Before(ByPosition(fields), s[i], s[j]) {
      BeforeByPosition(fields, s[i], s[j]);
    }
    OnlyArrangement(ByPosition(fields), file, st, merged, s);
  }

  /** Four records of one key, put out in the order in which they are ranked. */
  lemma OnlyArrangement(rank: Ranking, file: seq<Data>, st: Setup, merged: seq<Record>, s: seq<Record>)
    requires AreOrders(rank.fields) && Good(st) && NoneEmpty(file) && |s| == |file| == 4
    requires Sorted(rank, merged) && multiset(merged) == multiset(FileRecords(file, st))
    requires Arranged(FileRecords(file, st), s)
    requires forall i, j :: 0 <= i <= j < 4 ==> SameKey(rank.fields, s[i], s[j]) && Before(rank, s[i], s[j])
    ensures merged == s
  {
    hide FileRecords, Before, SameKey, Le;
    PositionsTellApart(file, st);
    SameFour(FileRecords(file, st), s);
    forall i, j | 0 <= i <= j < |s| ensures Le(rank, s[i], s[j]) {
      LeOfSameKey(rank, s[i], s[j]);
    }
    SortedUnique(rank, merged, s);
  }

  /** The four records of t in one of three orders. */
  predicate Arranged(t: seq<Record>, s: seq<Record>)
    requires |t| == 4
  {
    && |s| == 4
    && (|| (s[0] == t[0] && s[1] == t[2] && s[2] == t[1] && s[3] == t[3])
        || (s[0] == t[1] && s[1] == t[3] && s[2] == t[0] && s[3] == t[2])
        || (s[0] == t[0] && s[1] == t[1] && s[2] == t[2] && s[3] == t[3]))
  }

  lemma SameFour(t: seq<Record>, s: seq<Record>)
    requires |t| == 4 && Arranged(t, s)
    ensures multiset(s) == multiset(t)
  {
    hide Exchanged;
    var u := Exchanged(t, 1, 2);
    var v := Exchanged(u, 0, 2);
    assert s == u || s == Exchanged(v, 1, 3) || s == t;
  }

  function Exchanged(s: seq<Record>, i: nat, j: nat): (t: seq<Record>)
    requires i < j < |s|
    ensures |t| == |s| && multiset(t) == multiset(s)
    ensures forall k :: 0 <= k < |s| ==> t[k] == s[if k == i then j else if k == j then i else k]
  {
    s[i := s[j]][j := s[i]]
  }

  lemma FourFit(file: seq<Data>, st: Setup)
    requires |file| == 4 && OfLength(file, 10)
    requires st == SetupOf(LineSequential, false, 2, 4, 10) || st == SetupOf(LineSequential, false, 1, 4, 10)
    ensures PositionsFit(file, st)
  {
    hide FileRecords, RecordAt;
    FourRecords(file, st);
    forall i | 0 <= i < 4 ensures InRange(RecordAt(file, st, i).pos) {
      FileRecordAt(file, st, i);
    }
  }

  lemma FourRecords(file: seq<Data>, st: Setup)
    requires |file| == 4 && OfLength(file, 10)
    requires st == SetupOf(LineSequential, false, 2, 4, 10) || st == SetupOf(LineSequential, false, 1, 4, 10)
    ensures var s := FileRecords(file, st);
      && s[0] == Record(file[0], 0, 0) && s[1] == Record(file[1], 10, 0)
      && s[2] == (if st.threads == 2 then Record(file[2], 0, 1) else Record(file[2], 20, 0))
      && s[3] == (if st.threads == 2 then Record(file[3], 10, 1) else Record(file[3], 30, 0))
  {
    hide FileRecords, RecordAt;
    OneRecord(file, st, 0);
    OneRecord(file, st, 1);
    OneRecord(file, st, 2);
    OneRecord(file, st, 3);
  }

  lemma OneRecord(file: seq<Data>, st: Setup, i: nat)
    requires Good(st) && i < |file| && OfLength(file, 10)
    ensures FileRecords(file, st)[i]
         == Record(file[i], StartOf(st, Owner(st, i)) + Local(st, i) * 10, Owner(st, i) - 1)
  {
    hide FileRecords, RecordAt;
    FileRecordAt(file, st, i);
    PositionIs(file, st, 10, i);
    DataIs(file, st, i);
  }

  // ---------- SUM FIELDS=NONE ----------

  /** Each record comes first in front of those behind it. */
  ghost predicate InStrictOrder(fields: seq<SortField>, s: seq<Record>) {
    forall i, j :: 0 <= i < j < |s| ==> ComesFirst(fields, s[i].data, s[j].data)
  }

  /** There is a record that no field tells from r. */
  ghost predicate TiesWithOne(fields: seq<SortField>, s: seq<Record>, r: Record) {
    exists k :: 0 <= k < |s| && Ties(fields, s[k].data, r.data)
  }

  /**
   With SUM FIELDS=NONE the output holds, for every key of the merged records, the first record with that key, and
   its keys strictly increase: a record that is discarded ties in every field with one that is written.
   */
  lemma SumNoneOutput(fields: seq<SortField>, merged: seq<Record>)
    requires AreOrders(fields) && KeySorted(fields, merged)
    ensures Written(fields, true, merged) == Firsts(fields, merged)
    ensures InStrictOrder(fields, Written(fields, true, merged))
    ensures forall r :: r in merged ==> TiesWithOne(fields, Written(fields, true, merged), r)
  {
    hide ComesFirst, Ties, Firsts, AreOrders, Kept;
    KeptAreFirsts(fields, merged);
    FirstsIncrease(fields, merged);
    var s := Firsts(fields, merged);
    forall i, j | 0 <= i < j < |s| ensures ComesFirst(fields, s[i].data, s[j].data) {
      assert KeyBelow(fields, s[i], s[j]);
      KeysDecide(fields, s[i].data, s[j].data);
    }
    forall r | r in merged ensures TiesWithOne(fields, s, r) {
      var i :| 0 <= i < |merged| && merged[i] == r;
      FirstsCover(fields, merged, i);
      var k :| 0 <= k < |s| && SameKey(fields, s[k], merged[i]);
      KeysDecide(fields, s[k].data, r.data);
    }
  }
}
