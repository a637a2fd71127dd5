/** A whole run of multithreaded GCSORT: every thread loads and sorts its share, and the shares are merged. */
module GcsortRun {
  import opened GcsortOrder
  import opened GcsortBlocks
  import opened GcsortMerge
  import opened GcsortSlots
  import opened GcsortFinalMerge
  import opened GcsortStability
  import opened GcsortPositions
  import opened GcsortLaws
  import opened GcsortShort

  /**
   What a thread sorts its share into. The sort itself belongs to the C library; a share has only this one sorted
   arrangement.
   */
  function SortedShare(fields: seq<SortField>, share: seq<Record>): seq<Record> {
    StableSort(fields, share)
  }

  lemma ShareSorted(fields: seq<SortField>, file: seq<Data>, st: Setup, c: nat)
    requires AreOrders(fields) && c >= 1
    ensures var s := SortedShare(fields, LoadedBy(file, st, c));
      && Sorted(ByPosition(fields), s) && multiset(s) == multiset(LoadedBy(file, st, c))
      && forall r :: r in s ==> r.job == c - 1
  {
    hide Loaded, StableSort, Sorted, InOrder;
    var s, share := SortedShare(fields, LoadedBy(file, st, c)), LoadedBy(file, st, c);
    LoadedInOrder(fields, file, ShareOf(st, c), StartOf(st, c), c - 1);
    StableSortSorted(ByPosition(fields), share);
    StableSortPermutes(fields, share);
    JobOfLoaded(file, ShareOf(st, c), StartOf(st, c), c - 1);
    forall r | r in s ensures r.job == c - 1 {
      assert r in multiset(s);
      assert r in share;
    }
  }

  /** The share of one thread, read from the file. */
  method LoadShare(file: seq<Data>, org: Organisation, variable: bool, c: nat, threads: nat,
                   fileMaxSize: nat, recordLength: nat) returns (block: seq<Record>)
    requires 1 <= c <= threads && 1 <= recordLength <= SLOT_AREA
    ensures block == LoadedBy(file, SetupOf(org, variable, threads, fileMaxSize / recordLength, recordLength), c)
  {
    hide Loaded, BlockSize;
    var job := new ThreadJob(c, threads, org, variable);
    job.SkipStop(fileMaxSize, recordLength);
    Bounded(c, threads, BlockSize(fileMaxSize / recordLength, threads));
    block := job.LoadFile(file, recordLength);
  }

  lemma Bounded(c: nat, threads: nat, b: nat)
    requires 1 <= c <= threads && b >= 1
    ensures SkipOf(c, b) >= 0 && (StopOf(c, threads, b) > 0 ==> SkipOf(c, b) <= StopOf(c, threads, b))
  {
  }

  ghost predicate LoadedJobs(jobs: seq<Job>, fields: seq<SortField>, file: seq<Data>, st: Setup)
    requires |jobs| <= st.threads
  {
    DistinctJobs(jobs)
    && forall k :: 0 <= k < |jobs| ==> jobs[k].buffertSort == SortedShare(fields, LoadedBy(file, st, k + 1))
  }

  lemma BuffersOfJobs(jobs: seq<Job>, fields: seq<SortField>, file: seq<Data>, st: Setup)
    requires AreOrders(fields) && Good(st) && |jobs| == st.threads && LoadedJobs(jobs, fields, file, st)
    ensures SortedBuffers(fields, file, st, Buffers(jobs))
  {
    hide SortedShare, LoadedBy, Sorted;
    forall k | 0 <= k < |jobs|
      ensures Sorted(ByPosition(fields), jobs[k].buffertSort)
      ensures multiset(jobs[k].buffertSort) == multiset(LoadedBy(file, st, k + 1))
    {
      ShareSorted(fields, file, st, k + 1);
    }
  }

  lemma NothingEmpty(jobs: seq<Job>, fields: seq<SortField>, file: seq<Data>, st: Setup)
    requires Good(st) && NoneEmpty(file) && SortedBuffers(fields, file, st, Buffers(jobs))
    ensures forall k, r :: 0 <= k < |jobs| && r in jobs[k].buffertSort ==> |r.data| > 0
  {
    hide Sorted, LoadedBy, RecordAt;
    forall k, r | 0 <= k < |jobs| && r in jobs[k].buffertSort ensures |r.data| > 0 {
      assert Buffers(jobs)[k] == jobs[k].buffertSort;
      var i := InBuffer(fields, file, st, Buffers(jobs), k, r);
      DataIs(file, st, i);
    }
  }

  /**
   What holds of the records merged: they are those of the file, sorted by key; those of one thread are sorted stably;
   and all are, with one thread, for records of the output length if their positions are in order and not otherwise,
   and for short records if their slots are and not otherwise.
   */
  ghost predicate RunLaws(fields: seq<SortField>, file: seq<Data>, st: Setup, l: nat, areas: seq<Bytes>,
                          merged: seq<Record>)
    requires Ready(st, areas)
  {
    var stable := merged == StableSort(fields, FileRecords(file, st));
    && multiset(merged) == multiset(FileRecords(file, st)) && KeySorted(fields, merged) && InKeyOrder(fields, merged)
    && (forall k :: 0 <= k < st.threads ==> OfJob(merged, k) == StableSort(fields, LoadedBy(file, st, k + 1)))
    && (st.threads == 1 ==> stable)
    && (l >= 1 && OfLength(file, l) && PositionsFit(file, st) ==>
          (stable <==> InOrder(ByPosition(fields), FileRecords(file, st))))
    && (Short(file, l) ==>
          SlotBySlot(fields, SeenIn(st, l, areas), merged)
          && (stable <==> SlotsInOrder(fields, file, st, SeenIn(st, l, areas))))
  }

  lemma MergedObeys(fields: seq<SortField>, file: seq<Data>, st: Setup, l: nat, areas: seq<Bytes>, merged: seq<Record>)
    requires AreOrders(fields) && NoneEmpty(file) && Merged(fields, file, st, l, areas, merged)
    ensures Ready(st, areas) && RunLaws(fields, file, st, l, areas, merged)
  {
    hide Merged, FileRecords, StableSort, LoadedBy, OfJob, KeySorted, InKeyOrder, InOrder, Short;
    hide SlotBySlot, SlotsInOrder, SeenIn;
    hide OfLength, PositionsFit, Sorted, NoneEmpty, AreOrders;
    ReadyOf(fields, file, st, l, areas, merged);
    MergedIsPermutation(fields, file, st, l, areas, merged);
    MergedByKeys(fields, file, st, l, areas, merged);
    forall k | 0 <= k < st.threads ensures OfJob(merged, k) == StableSort(fields, LoadedBy(file, st, k + 1)) {
      ThreadsKeepOrder(fields, file, st, l, areas, merged, k);
    }
    if st.threads == 1 {
      OneThreadIsStable(fields, file, st, l, areas, merged);
    }
    if l >= 1 && OfLength(file, l) && PositionsFit(file, st) {
      MergedIsStableIff(fields, file, st, l, areas, merged);
    }
    if Short(file, l) {
      ShortAreStableIff(fields, file, st, l, areas, merged);
    }
  }

  /** The output: in the order of the keys, and with SUM FIELDS=NONE without ties, one record for all that tie. */
  ghost predicate OutputInOrder(fields: seq<SortField>, sumNone: bool, merged: seq<Record>, output: seq<Record>) {
    if sumNone then InStrictOrder(fields, output) && forall r :: r in merged ==> TiesWithOne(fields, output, r)
    else InKeyOrder(fields, output) && output == merged
  }

  /**
   Sort a file in so many threads, for an output of records of outputLength bytes. The slots of the merge begin with
   whatever is in the memory they are given.
   */
  method SortFile(fields: seq<SortField>, sumNone: bool, xsum: bool, file: seq<Data>, org: Organisation, variable: bool,
                  threads: nat, fileMaxSize: nat, recordLength: nat, outputLength: nat, areas: seq<Bytes>)
      returns (output: seq<Record>, ghost merged: seq<Record>, written: nat, discarded: nat)
    requires AreOrders(fields) && NoneEmpty(file) && |areas| == MAX_HANDLE_THREAD
    requires 1 <= threads <= MAX_HANDLE_THREAD && 1 <= recordLength <= SLOT_AREA
    ensures var st := SetupOf(org, variable, threads, fileMaxSize / recordLength, recordLength);
      && Ready(st, areas) && RunLaws(fields, file, st, outputLength, areas, merged)
      && output == Written(fields, sumNone, merged)
      && OutputInOrder(fields, sumNone, merged, output)
      && (merged == StableSort(fields, FileRecords(file, st)) ==>
          Datas(output) == Datas(Written(fields, sumNone, StableSort(fields, Plain(file)))))
    ensures written == |output| && (sumNone && xsum ==> written + discarded == |file|)
  {
    hide LoadedBy, SortedShare, FileRecords, Sorted, SortedBuffers, FinalMerge.Shape;
    ghost var st := SetupOf(org, variable, threads, fileMaxSize / recordLength, recordLength);
    var jobs: seq<Job> := [];
    for c := 1 to threads + 1
      invariant |jobs| == c - 1 && LoadedJobs(jobs, fields, file, st)
      invariant forall k :: 0 <= k < |jobs| ==> fresh(jobs[k])
    {
      var block := LoadShare(file, org, variable, c, threads, fileMaxSize, recordLength);
      var job := new Job(SortedShare(fields, block));
      jobs := jobs + [job];
    }
    BuffersOfJobs(jobs, fields, file, st);
    NothingEmpty(jobs, fields, file, st);
    var m := new FinalMerge(fields, sumNone, xsum, outputLength, jobs, areas);
    m.SaveFinal();
    output, merged, written, discarded := m.output, m.merged, m.recordWriteOutTotal, m.recordDiscardXSUMTotal;
    assert MergedOf(fields, file, st, outputLength, areas, Buffers(jobs), merged);
    MergedObeys(fields, file, st, outputLength, areas, merged);
    SumNoneOutput(fields, merged);
    if merged == StableSort(fields, FileRecords(file, st)) {
      SortedFileIs(fields, file, st);
      WrittenDatas(fields, sumNone, merged, StableSort(fields, Plain(file)));
    }
    SameLength(merged, FileRecords(file, st));
  }

  lemma SameLength(s: seq<Record>, t: seq<Record>)
    requires multiset(s) == multiset(t)
    ensures |s| == |t| == |multiset(s)|
  {
    assert |multiset(s)| == |s| && |multiset(t)| == |t|;
  }

  /** What is written does not depend on positions. */
  lemma WrittenDatas(fields: seq<SortField>, sumNone: bool, s: seq<Record>, t: seq<Record>)
    requires Datas(s) == Datas(t)
    ensures Datas(Written(fields, sumNone, s)) == Datas(Written(fields, sumNone, t))
  {
    hide Datas, Kept;
    KeptDatas(fields, s, t);
  }

  lemma {:induction false} KeptDatas(fields: seq<SortField>, s: seq<Record>, t: seq<Record>)
    requires Datas(s) == Datas(t)
    ensures Datas(Kept(fields, s)) == Datas(Kept(fields, t))
  {
    hide Datas;
    if |s| > 0 {
      LastOfSame(s, t);
      var front, back := s[..|s| - 1], t[..|t| - 1];
      KeptDatas(fields, front, back);
      DatasAppend(Kept(fields, front), s[|s| - 1]);
      DatasAppend(Kept(fields, back), t[|t| - 1]);
      if |front| > 0 {
        LastOfSame(front, back);
      }
    } else {
      SameNumber(s, t);
    }
  }

  lemma SameNumber(s: seq<Record>, t: seq<Record>)
    requires Datas(s) == Datas(t)
    ensures |s| == |t|
  {
    assert |Datas(s)| == |Datas(t)|;
  }
}
