/**
 Records that are shorter than the output length by the eight bytes of a position or more. They never write where the
 merge looks for positions, so each slot shows what it showed before, and records of one key come out slot by slot.
 */
module GcsortShort {
  import opened Arithmetic
  import opened GcsortOrder
  import opened GcsortBlocks
  import opened GcsortMerge
  import opened GcsortSlots
  import opened GcsortStability
  import opened GcsortPositions
  import opened GcsortLaws

  // ---------- slot by slot ----------

  /** By keys and then by what the slot of the record's thread shows. */
  function BySlot(fields: seq<SortField>, seen: seq<int>): Ranking {
    Ranking(fields, (r: Record) => if r.job < |seen| then seen[r.job] else 0)
  }

  /** Of two slots the one that shows less comes first, and the earlier one if they show the same. */
  predicate SlotBefore(seen: seq<int>, a: nat, b: nat) {
    a < |seen| && b < |seen| && (seen[a] < seen[b] || (seen[a] == seen[b] && a <= b))
  }

  /** Records of one key come slot by slot. */
  ghost predicate SlotBySlot(fields: seq<SortField>, seen: seq<int>, s: seq<Record>) {
    forall p, q :: 0 <= p < q < |s| && SameKey(fields, s[p], s[q]) ==> SlotBefore(seen, s[p].job, s[q].job)
  }

  lemma RankedSlotBySlot(fields: seq<SortField>, seen: seq<int>, s: seq<Record>)
    requires AreOrders(fields) && Sorted(BySlot(fields, seen), s) && forall r :: r in s ==> r.job < |seen|
    ensures SlotBySlot(fields, seen, s)
  {
    hide SameKey, KeyBelow;
    forall p, q | 0 <= p < q < |s| && SameKey(fields, s[p], s[q]) ensures SlotBefore(seen, s[p].job, s[q].job) {
      assert Le(BySlot(fields, seen), s[p], s[q]);
      LeOfSameKey(BySlot(fields, seen), s[p], s[q]);
      assert s[p] in s && s[q] in s;
    }
  }

  /** Every record of a buffer but the first ends, with its position, in front of the place that is compared. */
  ghost predicate TailsShort(l: nat, buffers: Streams) {
    forall k, i :: 0 <= k < |buffers| && 1 <= i < |buffers[k]| ==> |buffers[k][i].data| + 8 <= l
  }

  /** What the slots show after the first reads. */
  ghost predicate ShowsFirst(l: nat, areas: seq<Bytes>, buffers: Streams, seen: seq<int>) {
    && |seen| == |buffers| <= |areas|
    && forall k :: 0 <= k < |buffers| && buffers[k] != [] ==> PosSeen(Shown(areas[k], buffers[k]).area, l) == seen[k]
  }

  lemma SortedWithin(fields: seq<SortField>, seen: seq<int>, s: seq<Record>, k: nat)
    requires Sorted(ByPosition(fields), s) && forall r :: r in s ==> r.job == k
    ensures Sorted(BySlot(fields, seen), s)
  {
    hide SameKey, KeyBelow;
    forall i, j | 0 <= i <= j < |s| ensures Le(BySlot(fields, seen), s[i], s[j]) {
      assert Le(ByPosition(fields), s[i], s[j]);
      assert s[i] in s && s[j] in s;
    }
  }

  lemma ShortSlotHonest(fields: seq<SortField>, l: nat, seen: seq<int>, s: Slot, k: nat)
    requires k < |seen| && (s.records != [] ==> PosSeen(s.area, l) == seen[k])
    requires forall i :: 0 <= i < |s.records| ==> s.records[i].job == k && (i > 0 ==> |s.records[i].data| + 8 <= l)
    ensures Honest(BySlot(fields, seen), l, s)
  {
    hide PosSeen;
  }

  lemma ShortSlotsHonest(fields: seq<SortField>, file: seq<Data>, st: Setup, l: nat, areas: seq<Bytes>,
                         buffers: Streams, seen: seq<int>)
    requires Ready(st, areas) && SortedBuffers(fields, file, st, buffers)
    requires TailsShort(l, buffers) && ShowsFirst(l, areas, buffers, seen)
    ensures AllHonest(BySlot(fields, seen), l, FirstSlots(buffers, areas))
  {
    hide Honest, Sorted, Shown, FirstSlots, LoadedBy, PosSeen, RecordAt;
    var rank, slots := BySlot(fields, seen), FirstSlots(buffers, areas);
    forall k | 0 <= k < |slots| ensures Honest(rank, l, slots[k]) && Sorted(rank, slots[k].records) {
      SlotOfThread(fields, file, st, areas, buffers, k);
      if k < st.threads {
        forall r | r in buffers[k] ensures r.job == k {
          var _ := InBuffer(fields, file, st, buffers, k, r);
        }
        SortedWithin(fields, seen, buffers[k], k);
        ShortSlotHonest(fields, l, seen, slots[k], k);
      } else {
        NothingSorted(rank);
        NothingHonest(rank, l, slots[k]);
      }
    }
  }

  lemma NothingHonest(rank: Ranking, l: nat, s: Slot)
    requires s.records == []
    ensures Honest(rank, l, s)
  {
  }

  lemma JobsInRange(fields: seq<SortField>, file: seq<Data>, st: Setup, l: nat, areas: seq<Bytes>, merged: seq<Record>)
    requires Merged(fields, file, st, l, areas, merged)
    ensures forall r :: r in merged ==> r.job < st.threads
  {
    hide Merged, FileRecords, Owner, Size, LoadedBy;
    ReadyOf(fields, file, st, l, areas, merged);
    MergedIsPermutation(fields, file, st, l, areas, merged);
    var s := FileRecords(file, st);
    forall r | r in merged ensures r.job < st.threads {
      assert r in multiset(merged);
      assert r in s;
      var i :| 0 <= i < |s| && s[i] == r;
      FileRecordAt(file, st, i);
      OwnerInRange(st, i);
    }
  }

  // ---------- files of short records ----------

  ghost predicate Short(file: seq<Data>, l: nat) {
    forall i :: 0 <= i < |file| ==> |file[i]| + 8 <= l
  }

  /** What is in the areas to begin with, at the place that is compared. */
  function SeenIn(st: Setup, l: nat, areas: seq<Bytes>): (seen: seq<int>)
    requires st.threads <= |areas|
    ensures |seen| == st.threads
  {
    seq(st.threads, k requires 0 <= k < st.threads => PosSeen(areas[k], l))
  }

  lemma ShortShows(fields: seq<SortField>, file: seq<Data>, st: Setup, l: nat, areas: seq<Bytes>, buffers: Streams)
    requires Ready(st, areas) && SortedBuffers(fields, file, st, buffers) && Short(file, l)
    ensures TailsShort(l, buffers) && ShowsFirst(l, areas, buffers, SeenIn(st, l, areas))
  {
    hide Sorted, LoadedBy, PosSeen, RecordAt, Filled;
    forall k, r | 0 <= k < st.threads && r in buffers[k] ensures |r.data| + 8 <= l {
      var i := InBuffer(fields, file, st, buffers, k, r);
      DataIs(file, st, i);
    }
    forall k | 0 <= k < st.threads && buffers[k] != []
      ensures PosSeen(Shown(areas[k], buffers[k]).area, l) == PosSeen(areas[k], l)
    {
      assert buffers[k][0] in buffers[k];
      SeenOfShort(areas[k], buffers[k][0], l);
    }
  }

  /** The job that record i of the file goes to. */
  function JobOf(st: Setup, i: nat): (job: nat)
    requires st.b >= 1 && st.threads >= 1
    ensures job < st.threads && job == Owner(st, i) - 1
  {
    OwnerInRange(st, i);
    Owner(st, i) - 1
  }

  /** In order, for the slots: the thread of record i has a slot that is not behind that of record j. */
  lemma BeforeBySlot(fields: seq<SortField>, file: seq<Data>, st: Setup, seen: seq<int>, i: nat, j: nat)
    requires Good(st) && NoneEmpty(file) && i < j < |file| && |seen| == st.threads
    ensures Before(BySlot(fields, seen), RecordAt(file, st, i), RecordAt(file, st, j))
        <==> SlotBefore(seen, JobOf(st, i), JobOf(st, j))
  {
    hide Owner, Loaded, Size;
    RecordsDiffer(file, st, i, j);
  }

  /** The slots of the threads that load the records of a key are, in the order of the records, in their order too. */
  ghost predicate SlotsInOrder(fields: seq<SortField>, file: seq<Data>, st: Setup, seen: seq<int>)
    requires Good(st)
  {
    var s := FileRecords(file, st);
    forall i, j :: 0 <= i < j < |file| && SameKey(fields, s[i], s[j]) ==> SlotBefore(seen, JobOf(st, i), JobOf(st, j))
  }

  /**
   Short records come out sorted by key, and those of one key slot by slot. That is the stable sort of the file if and
   only if the slots are in order.
   */
  lemma ShortAreStableIff(fields: seq<SortField>, file: seq<Data>, st: Setup, l: nat, areas: seq<Bytes>,
                          merged: seq<Record>)
    requires AreOrders(fields) && NoneEmpty(file) && Short(file, l) && Merged(fields, file, st, l, areas, merged)
    ensures SlotBySlot(fields, SeenIn(st, l, areas), merged)
    ensures merged == StableSort(fields, FileRecords(file, st)) <==>
      SlotsInOrder(fields, file, st, SeenIn(st, l, areas))
  {
    hide SortedBuffers, FirstSlots, FileRecords, StableSort, MergedFrom, AreOrders, TailsShort, ShowsFirst, SeenIn;
    hide AllHonest, Sorted, SlotBySlot, Short, NoneEmpty, SlotBefore, SameKey, Before, RecordAt, JobOf;
    var seen, s := SeenIn(st, l, areas), FileRecords(file, st);
    var rank := BySlot(fields, seen);
    var buffers :| MergedOf(fields, file, st, l, areas, buffers, merged);
    ShortShows(fields, file, st, l, areas, buffers);
    ShortSlotsHonest(fields, file, st, l, areas, buffers, seen);
    MergedByRank(rank, file, st, l, areas, buffers, merged);
    JobsInRange(fields, file, st, l, areas, merged);
    RankedSlotBySlot(fields, seen, merged);
    forall i, j | 0 <= i < j < |file|
      ensures Before(rank, s[i], s[j]) <==> SlotBefore(seen, JobOf(st, i), JobOf(st, j))
    {
      FileRecordAt(file, st, i);
      FileRecordAt(file, st, j);
      BeforeBySlot(fields, file, st, seen, i, j);
    }
  }

  /** Loaded in blocks: what the slot of an earlier thread shows must not be more, where both have records of a key. */
  lemma ShortBlocksIff(fields: seq<SortField>, file: seq<Data>, st: Setup, l: nat, areas: seq<Bytes>,
                       merged: seq<Record>)
    requires AreOrders(fields) && NoneEmpty(file) && Short(file, l) && Merged(fields, file, st, l, areas, merged)
    requires st.load == ReadBlockChunk
    ensures var s := FileRecords(file, st);
      merged == StableSort(fields, s) <==>
      forall i, j :: 0 <= i < j < |file| && SameKey(fields, s[i], s[j]) ==>
        PosSeen(areas[JobOf(st, i)], l) <= PosSeen(areas[JobOf(st, j)], l)
  {
    hide Merged, FileRecords, StableSort, PosSeen, SameKey, SlotBySlot, Short, JobOf;
    ReadyOf(fields, file, st, l, areas, merged);
    ShortAreStableIff(fields, file, st, l, areas, merged);
    forall i, j | 0 <= i < j < |file|
      ensures SlotBefore(SeenIn(st, l, areas), JobOf(st, i), JobOf(st, j))
          <==> PosSeen(areas[JobOf(st, i)], l) <= PosSeen(areas[JobOf(st, j)], l)
    {
      OwnersGrow(st, i, j);
    }
  }

  /**
   Dealt out, records of one key keep their order if and only if there is one thread, or no thread has two and the slots
   happen to show their numbers in order.
   */
  lemma ShortDealtIff(fields: seq<SortField>, file: seq<Data>, st: Setup, l: nat, areas: seq<Bytes>,
                      merged: seq<Record>)
    requires AreOrders(fields) && NoneEmpty(file) && Short(file, l) && Merged(fields, file, st, l, areas, merged)
    requires st.load == ReadRoundRobin && OneKey(fields, FileRecords(file, st))
    ensures merged == StableSort(fields, FileRecords(file, st)) <==>
      st.threads == 1
      || (|file| <= st.threads && forall i, j :: 0 <= i < j < |file| ==> PosSeen(areas[i], l) <= PosSeen(areas[j], l))
  {
    hide Merged, FileRecords, StableSort, PosSeen, SameKey, SlotBySlot, Short, SeenIn, SlotBefore;
    ReadyOf(fields, file, st, l, areas, merged);
    ShortAreStableIff(fields, file, st, l, areas, merged);
    var seen := SeenIn(st, l, areas);
    if st.threads > 1 {
      if |file| > st.threads {
        NotInTurns(st, seen);
      } else {
        forall i, j | 0 <= i < j < |file|
          ensures SlotBefore(seen, JobOf(st, i), JobOf(st, j)) <==> PosSeen(areas[i], l) <= PosSeen(areas[j], l)
        {
          FirstTurn(st, l, areas, i, j);
        }
      }
    } else {
      forall i | 0 <= i < |file| ensures JobOf(st, i) == 0 {
      }
      OneSlot(seen);
    }
  }

  lemma OneSlot(seen: seq<int>)
    requires |seen| == 1
    ensures SlotBefore(seen, 0, 0)
  {
  }

  /** Records 0, 1 and the first of the next turn cannot all be in order. */
  lemma NotInTurns(st: Setup, seen: seq<int>)
    requires Good(st) && st.load == ReadRoundRobin && |seen| == st.threads > 1
    ensures !SlotBefore(seen, JobOf(st, 0), JobOf(st, 1))
         || !SlotBefore(seen, JobOf(st, 1), JobOf(st, st.threads))
  {
    DivModUnique(0, st.threads, 0, 0);
    DivModUnique(1, st.threads, 0, 1);
    DivModUnique(st.threads, st.threads, 1, 0);
  }

  lemma FirstTurn(st: Setup, l: nat, areas: seq<Bytes>, i: nat, j: nat)
    requires Ready(st, areas) && st.load == ReadRoundRobin && i < j < st.threads
    ensures SlotBefore(SeenIn(st, l, areas), JobOf(st, i), JobOf(st, j))
        <==> PosSeen(areas[i], l) <= PosSeen(areas[j], l)
  {
    hide PosSeen;
    DivModUnique(i, st.threads, 0, i);
    DivModUnique(j, st.threads, 0, j);
  }

  // ---------- four records, dealt out to two threads ----------

  /** Four records, one in turn to each of two threads. */
  lemma DealtFour(file: seq<Data>, st: Setup)
    requires |file| == 4 && Good(st) && st.load == ReadRoundRobin && st.threads == 2
    ensures var s := FileRecords(file, st);
      && s[0] == Record(file[0], 0, 0) && s[1] == Record(file[1], 0, 1)
      && s[2] == Record(file[2], |file[0]|, 0) && s[3] == Record(file[3], |file[1]|, 1)
      && LoadedBy(file, st, 1) == [s[0], s[2]] && LoadedBy(file, st, 2) == [s[1], s[3]]
  {
    hide FileRecords, RecordAt, Loaded, Mine;
    var s := FileRecords(file, st);
    NothingFrom(file, ShareOf(st, 1), StartOf(st, 1), 0);
    NothingFrom(file, ShareOf(st, 2), StartOf(st, 2), 1);
    for i := 0 to 4
      invariant forall k :: 0 <= k < i ==> s[k] == Record(file[k], BytesBefore(file, 2, k), k % 2)
      invariant LoadedBy(file[..i], st, 1) == if i == 0 then [] else if i <= 2 then [s[0]] else [s[0], s[2]]
      invariant LoadedBy(file[..i], st, 2) == if i <= 1 then [] else if i <= 3 then [s[1]] else [s[1], s[3]]
    {
      FileRecordAt(file, st, i);
      DealtPosition(file, st, i);
      LoadedNext(file, ShareOf(st, 1), StartOf(st, 1), 0, i);
      LoadedNext(file, ShareOf(st, 2), StartOf(st, 2), 1, i);
      TakenByOwnerOnly(st, i, 1);
      TakenByOwnerOnly(st, i, 2);
      RecordOf(file, st, i);
    }
    assert file[..4] == file;
  }

  lemma RecordOf(file: seq<Data>, st: Setup, i: nat)
    requires Good(st) && i < |file|
    ensures var c := Owner(st, i);
      RecordAt(file, st, i) == Record(file[i], StartOf(st, c) + Size(LoadedBy(file[..i], st, c)), c - 1)
  {
  }

  /** Records of one key are sorted stably already. */
  lemma {:induction false} StableOfOneKey(fields: seq<SortField>, s: seq<Record>)
    requires OneKey(fields, s)
    ensures StableSort(fields, s) == s
  {
    hide SameKey, Insert;
    if |s| > 0 {
      var front, last := s[..|s| - 1], s[|s| - 1];
      StableOfOneKey(fields, front);
      if |front| > 0 {
        NotBelow(fields, front[|front| - 1], last);
      }
      InsertBehind(fields, front, last);
    }
  }

  lemma InsertBehind(fields: seq<SortField>, s: seq<Record>, r: Record)
    requires |s| == 0 || CompareKeys(fields, s[|s| - 1].data, r.data) <= 0
    ensures Insert(fields, s, r) == s + [r]
  {
  }

  lemma KeptOneKey(fields: seq<SortField>, file: seq<Data>, s: seq<Record>)
    requires FileOfOneKey(fields, file) && forall i :: 0 <= i < |s| ==> s[i].data in file
    ensures OneKey(fields, s)
  {
    hide CompareKeys;
    forall i, j | 0 <= i < |s| && 0 <= j < |s| ensures SameKey(fields, s[i], s[j]) {
      var k :| 0 <= k < |file| && file[k] == s[i].data;
      var m :| 0 <= m < |file| && file[m] == s[j].data;
      assert CompareKeys(fields, file[k], file[m]) == 0;
    }
  }

  ghost predicate FileOfOneKey(fields: seq<SortField>, file: seq<Data>) {
    forall i, j :: 0 <= i < |file| && 0 <= j < |file| ==> CompareKeys(fields, file[i], file[j]) == 0
  }

  /** What the two threads have in their buffers. */
  lemma FourBuffers(fields: seq<SortField>, file: seq<Data>, st: Setup, buffers: Streams)
    requires AreOrders(fields) && NoneEmpty(file) && |file| == 4 && FileOfOneKey(fields, file)
    requires Good(st) && st.load == ReadRoundRobin && st.threads == 2 && SortedBuffers(fields, file, st, buffers)
    ensures var s := FileRecords(file, st);
      buffers == [[s[0], s[2]], [s[1], s[3]]] && StableSort(fields, s) == s
  {
    hide FileRecords, StableSort, FileOfOneKey, Sorted, LoadedBy, OneKey, AreOrders, NoneEmpty;
    DealtFour(file, st);
    BufferIs(fields, file, st, buffers, 0);
    BufferIs(fields, file, st, buffers, 1);
    KeptOneKey(fields, file, LoadedBy(file, st, 1));
    KeptOneKey(fields, file, LoadedBy(file, st, 2));
    KeptOneKey(fields, file, FileRecords(file, st));
    StableOfOneKey(fields, LoadedBy(file, st, 1));
    StableOfOneKey(fields, LoadedBy(file, st, 2));
    StableOfOneKey(fields, FileRecords(file, st));
  }

  /** What two slots show when a record that may be longer is in the first and a short one in the second. */
  function SeenInTwo(l: nat, areas: seq<Bytes>, first: Record): (seen: seq<int>)
    requires |areas| >= 2
  {
    [PosSeen(Filled(areas[0], first), l), PosSeen(areas[1], l)]
  }

  lemma TwoShow(l: nat, areas: seq<Bytes>, s: seq<Record>, buffers: Streams)
    requires |areas| >= 2 && |s| == 4 && buffers == [[s[0], s[2]], [s[1], s[3]]]
    requires |s[1].data| + 8 <= l && |s[2].data| + 8 <= l && |s[3].data| + 8 <= l
    ensures TailsShort(l, buffers) && ShowsFirst(l, areas, buffers, SeenInTwo(l, areas, s[0]))
  {
    hide PosSeen, Filled;
    SeenOfShort(areas[1], s[1], l);
  }

  /** The two records of one thread, and then those of the other. */
  function TwoByTwo(s: seq<Record>, firstSlot: bool): (t: seq<Record>)
    requires |s| == 4
    ensures |t| == 4
  {
    if firstSlot then [s[0], s[2], s[1], s[3]] else [s[1], s[3], s[0], s[2]]
  }

  lemma TwoRanked(fields: seq<SortField>, seen: seq<int>, s: seq<Record>)
    requires |s| == 4 && |seen| == 2 && OneKey(fields, s)
    requires s[0].job == s[2].job == 0 && s[1].job == s[3].job == 1 && s[0].pos <= s[2].pos && s[1].pos <= s[3].pos
    ensures var t := TwoByTwo(s, seen[0] <= seen[1]);
      && Arranged(s, t)
      && forall i, j :: 0 <= i <= j < 4 ==> SameKey(fields, t[i], t[j]) && Before(BySlot(fields, seen), t[i], t[j])
  {
    hide SameKey;
  }

  lemma TwoByTwoMerged(fields: seq<SortField>, file: seq<Data>, st: Setup, l: nat, areas: seq<Bytes>,
                       buffers: Streams, merged: seq<Record>)
    requires AreOrders(fields) && |file| == 4 && FileOfOneKey(fields, file) && NoneEmpty(file)
    requires |file[1]| + 8 <= l && |file[2]| + 8 <= l && |file[3]| + 8 <= l
    requires Ready(st, areas) && st.load == ReadRoundRobin && st.threads == 2
    requires MergedOf(fields, file, st, l, areas, buffers, merged)
    requires multiset(merged) == multiset(FileRecords(file, st))
    ensures var s := FileRecords(file, st);
      var seen := SeenInTwo(l, areas, s[0]);
      merged == TwoByTwo(s, seen[0] <= seen[1])
  {
    hide FileRecords, Sorted, SortedBuffers, FirstSlots, MergedFrom, PosSeen, Filled, AllHonest, AreOrders, Arranged;
    hide StableSort, InOrder, FileOfOneKey, Loaded, TailsShort, ShowsFirst, OneKey, SameKey, Before;
    var s := FileRecords(file, st);
    var seen := SeenInTwo(l, areas, s[0]);
    DealtFour(file, st);
    FourBuffers(fields, file, st, buffers);
    TwoShow(l, areas, s, buffers);
    ShortSlotsHonest(fields, file, st, l, areas, buffers, seen);
    MergedByRank(BySlot(fields, seen), file, st, l, areas, buffers, merged);
    KeptOneKey(fields, file, s);
    TwoRanked(fields, seen, s);
    OnlyArrangement(BySlot(fields, seen), file, st, merged, TwoByTwo(s, seen[0] <= seen[1]));
  }

  /**
   A longer record in front of three short ones: the records of one thread come out behind those of the other, and which
   come first depends on what the slots show after the longer record is in the first.
   */
  lemma FirstLonger(fields: seq<SortField>, file: seq<Data>, st: Setup, l: nat, areas: seq<Bytes>, merged: seq<Record>)
    requires AreOrders(fields) && |file| == 4 && FileOfOneKey(fields, file) && l >= 10
    requires |file[0]| == 10 && |file[1]| == |file[2]| == |file[3]| == 1
    requires Merged(fields, file, st, l, areas, merged) && st.load == ReadRoundRobin && st.threads == 2
    ensures Datas(merged) ==
      if PosSeen(Filled(areas[0], Record(file[0], 0, 0)), l) <= PosSeen(areas[1], l)
      then [file[0], file[2], file[1], file[3]]
      else [file[1], file[3], file[0], file[2]]
  {
    hide FileRecords, MergedOf, PosSeen, Filled, AreOrders, FileOfOneKey, Loaded;
    var buffers :| MergedOf(fields, file, st, l, areas, buffers, merged);
    MergedIsPermutation(fields, file, st, l, areas, merged);
    DealtFour(file, st);
    TwoByTwoMerged(fields, file, st, l, areas, buffers, merged);
  }

  /** The third record follows the first, or the second is in front of it. */
  ghost predicate OutOfOrder(s: seq<Record>, merged: seq<Record>)
    requires |s| == 4
  {
    |merged| >= 2 && (merged[0] == s[1] || (merged[0] == s[0] && merged[1] == s[2]))
  }

  lemma LastLongerRun(fields: seq<SortField>, l: nat, slots: seq<Slot>, s: seq<Record>)
    requires AreOrders(fields) && |slots| >= 2 && |s| == 4
    requires slots[0].records == [s[0], s[2]] && slots[1].records == [s[1], s[3]]
    requires forall k :: 2 <= k < |slots| ==> slots[k].records == []
    requires SameKey(fields, s[2], s[0]) && |s[2].data| + 8 <= l
    ensures OutOfOrder(s, MergedFrom(fields, l, slots))
  {
    hide Best, CompareSlots, SameKey, Pool;
    var p := Best(fields, l, slots);
    BestNone(fields, l, slots);
    BestNonEmpty(fields, l, slots);
    if p == 0 {
      ShortFollows(fields, l, slots, 0);
    } else {
      BestNone(fields, l, GcsortSlots.Taken(slots, 1));
    }
  }

  /**
   A longer record behind three short ones: their positions are in order, and yet what comes out is never the stable
   sort, since the third record follows the first or the second comes out before it.
   */
  lemma LastLonger(fields: seq<SortField>, file: seq<Data>, st: Setup, l: nat, areas: seq<Bytes>, merged: seq<Record>)
    requires AreOrders(fields) && |file| == 4 && FileOfOneKey(fields, file) && l >= 10
    requires |file[0]| == |file[1]| == |file[2]| == 1 && |file[3]| == 10
    requires Merged(fields, file, st, l, areas, merged) && st.load == ReadRoundRobin && st.threads == 2
    ensures var s := FileRecords(file, st);
      InOrder(ByPosition(fields), s) && OutOfOrder(s, merged) && merged != StableSort(fields, s)
  {
    hide FileRecords, SortedBuffers, FirstSlots, AreOrders, Shown, FileOfOneKey, StableSort, MergedFrom, OneKey,
      InOrder;
    hide SameKey, Loaded;
    var s := FileRecords(file, st);
    var buffers :| MergedOf(fields, file, st, l, areas, buffers, merged);
    var slots := FirstSlots(buffers, areas);
    DealtFour(file, st);
    FourBuffers(fields, file, st, buffers);
    KeptOneKey(fields, file, s);
    FourInOrder(fields, s);
    forall k | 0 <= k < |slots| ensures slots[k].records == BufferOf(buffers, k) {
      SlotOfThread(fields, file, st, areas, buffers, k);
    }
    FirstAndThird(fields, s);
    LastLongerRun(fields, l, slots, s);
  }

  lemma FirstAndThird(fields: seq<SortField>, s: seq<Record>)
    requires |s| == 4 && OneKey(fields, s)
    ensures SameKey(fields, s[2], s[0])
  {
  }

  lemma FourInOrder(fields: seq<SortField>, s: seq<Record>)
    requires |s| == 4 && Earlier(s[0], s[1]) && Earlier(s[1], s[2]) && Earlier(s[2], s[3])
    ensures InOrder(ByPosition(fields), s)
  {
    hide SameKey;
  }
}
