/**
 The slots of the final merge. Every slot is an area of bytes that one stream's records are copied into one after
 the other, each with its position behind it. The comparison reads the position behind the output length, whatever
 the length of the record is; for other lengths it finds bytes of the record there, or what was left before.
 */
module GcsortSlots {
  import opened GcsortOrder
  import opened GcsortMerge

  // ---------- positions as bytes ----------

  /** Bytes, each as a number below 256. */
  type Bytes = seq<nat>

  function Codes(d: Data): (b: Bytes)
    ensures |b| == |d|
  {
    seq(|d|, i requires 0 <= i < |d| => d[i] as nat)
  }

  /** A number in so many bytes, the lowest first. */
  function LowBytes(v: nat, n: nat): (b: Bytes)
    ensures |b| == n
  {
    if n == 0 then [] else [v % 256] + LowBytes(v / 256, n - 1)
  }

  function BytesValue(b: Bytes): nat {
    if |b| == 0 then 0 else b[0] + 256 * BytesValue(b[1..])
  }

  function Power256(n: nat): nat {
    if n == 0 then 1 else 256 * Power256(n - 1)
  }

  lemma {:induction false} BytesReadBack(v: nat, n: nat)
    requires v < Power256(n)
    ensures BytesValue(LowBytes(v, n)) == v
  {
    if n > 0 {
      assert LowBytes(v, n)[1..] == LowBytes(v / 256, n - 1);
      BytesReadBack(v / 256, n - 1);
    }
  }

  /** A position as a signed number of eight bytes. */
  function PosBytes(pos: int): (b: Bytes)
    ensures |b| == 8
  {
    LowBytes(pos % 0x1_0000_0000_0000_0000, 8)
  }

  function PosOf(b: Bytes): int {
    var v := BytesValue(b);
    if v < 0x8000_0000_0000_0000 then v else v - 0x1_0000_0000_0000_0000
  }

  predicate InRange(pos: int) {
    -0x8000_0000_0000_0000 <= pos < 0x8000_0000_0000_0000
  }

  lemma PositionReadsBack(pos: int)
    requires InRange(pos)
    ensures PosOf(PosBytes(pos)) == pos
  {
    assert Power256(8) == 0x1_0000_0000_0000_0000 by {
      assert Power256(2) == 0x1_0000 && Power256(4) == 0x1_0000 * Power256(2) && Power256(6) == 0x1_0000 * Power256(4);
    }
    BytesReadBack(pos % 0x1_0000_0000_0000_0000, 8);
  }

  // ---------- areas ----------

  /**
   A record copied into an area, and its position behind it; what is further behind stays. Four bytes in front of
   the record, which nothing compares, are left out.
   */
  function Filled(area: Bytes, r: Record): Bytes {
    var image := Codes(r.data) + PosBytes(r.pos);
    image + if |image| <= |area| then area[|image|..] else []
  }

  /** The position that the comparison finds in an area. */
  function PosSeen(area: Bytes, outputLength: nat): int {
    if outputLength + 8 <= |area| then PosOf(area[outputLength..outputLength + 8]) else 0
  }

  /** For a record of the output length that is its own position. */
  lemma SeenOfFull(area: Bytes, r: Record, outputLength: nat)
    requires |r.data| == outputLength && InRange(r.pos)
    ensures PosSeen(Filled(area, r), outputLength) == r.pos
  {
    assert Filled(area, r)[outputLength..outputLength + 8] == PosBytes(r.pos);
    PositionReadsBack(r.pos);
  }

  /** For a record that ends, position and all, in front of it, it is what was found before. */
  lemma SeenOfShort(area: Bytes, r: Record, outputLength: nat)
    requires |r.data| + 8 <= outputLength
    ensures PosSeen(Filled(area, r), outputLength) == PosSeen(area, outputLength)
  {
    var filled := Filled(area, r);
    if outputLength + 8 <= |area| {
      assert filled[outputLength..outputLength + 8] == area[outputLength..outputLength + 8];
    }
  }

  /** For a record that goes on behind it, it is eight of its own bytes. */
  lemma SeenOfLong(area: Bytes, r: Record, outputLength: nat)
    requires |r.data| >= outputLength + 8
    ensures PosSeen(Filled(area, r), outputLength) == PosOf(Codes(r.data)[outputLength..outputLength + 8])
  {
    assert Filled(area, r)[outputLength..outputLength + 8] == Codes(r.data)[outputLength..outputLength + 8];
  }

  // ---------- the merge on slots ----------

  /** A slot: its area, and the records of its stream that are not merged yet, the current one first. */
  datatype Slot = Slot(area: Bytes, records: seq<Record>)

  function Rests(slots: seq<Slot>): (s: Streams)
    ensures |s| == |slots|
  {
    seq(|slots|, k requires 0 <= k < |slots| => slots[k].records)
  }

  function SlotsOf(areas: seq<Bytes>, rest: Streams): (slots: seq<Slot>)
    requires |areas| == |rest|
    ensures |slots| == |rest| && Rests(slots) == rest
  {
    seq(|rest|, k requires 0 <= k < |rest| => Slot(areas[k], rest[k]))
  }

  /** The next record of a stream comes into its slot. */
  function Shown(area: Bytes, records: seq<Record>): Slot {
    Slot(if records == [] then area else Filled(area, records[0]), records)
  }

  function Advanced(s: Slot): Slot
    requires s.records != []
  {
    Shown(s.area, s.records[1..])
  }

  function Opened(streams: Streams, areas: seq<Bytes>): (slots: seq<Slot>)
    requires |areas| == |streams|
    ensures |slots| == |streams|
  {
    seq(|streams|, k requires 0 <= k < |streams| => Shown(areas[k], streams[k]))
  }

  /** The comparison of the current records of two slots. */
  function CompareSlots(fields: seq<SortField>, outputLength: nat, a: Slot, b: Slot): int
    requires a.records != [] && b.records != []
  {
    CompareRek(fields, a.records[0].data, PosSeen(a.area, outputLength),
               b.records[0].data, PosSeen(b.area, outputLength), true)
  }

  /** The first of the slots with a smallest current record, or -1. */
  function Best(fields: seq<SortField>, outputLength: nat, slots: seq<Slot>): (p: int)
    ensures -1 <= p < |slots| && (p >= 0 ==> slots[p].records != [])
  {
    if |slots| == 0 then -1
    else
      var last := |slots| - 1;
      var p := Best(fields, outputLength, slots[..last]);
      if slots[last].records == [] then p
      else if p < 0 || CompareSlots(fields, outputLength, slots[p], slots[last]) > 0 then last
      else p
  }

  /** One slot's stream moves on: its area is filled with the next record, if there is one. */
  lemma SlotTaken(areas: seq<Bytes>, rest: Streams, areas1: seq<Bytes>, k: nat)
    requires |areas| == |rest| == |areas1| && k < |rest| && rest[k] != []
    requires areas1 == areas[k := Shown(areas[k], rest[k][1..]).area]
    ensures SlotsOf(areas1, Popped(rest, k)) == Taken(SlotsOf(areas, rest), k)
  {
    hide Shown;
    ShownRecords(areas[k], rest[k][1..]);
  }

  lemma ShownRecords(area: Bytes, records: seq<Record>)
    ensures Shown(area, records).records == records
  {
  }

  function Taken(slots: seq<Slot>, k: nat): (s: seq<Slot>)
    requires k < |slots| && slots[k].records != []
    ensures |s| == |slots| && Rests(s) == Popped(Rests(slots), k)
  {
    slots[k := Advanced(slots[k])]
  }

  /** What the merge puts out: again and again the current record of the first of the smallest slots. */
  function MergedFrom(fields: seq<SortField>, outputLength: nat, slots: seq<Slot>): seq<Record>
    decreases Total(Rests(slots))
  {
    var p := Best(fields, outputLength, slots);
    if p < 0 then []
    else
      PopTotal(Rests(slots), p);
      [slots[p].records[0]] + MergedFrom(fields, outputLength, Taken(slots, p))
  }

  // ---------- the best slot ----------

  lemma SlotsTransitive(fields: seq<SortField>, l: nat, a: Slot, b: Slot, c: Slot)
    requires AreOrders(fields) && a.records != [] && b.records != [] && c.records != []
    requires CompareSlots(fields, l, a, b) <= 0 && CompareSlots(fields, l, b, c) <= 0
    ensures CompareSlots(fields, l, a, c) <= 0
    ensures CompareSlots(fields, l, a, b) < 0 || CompareSlots(fields, l, b, c) < 0 ==> CompareSlots(fields, l, a, c) < 0
  {
    KeysTransitive(fields, a.records[0].data, b.records[0].data, c.records[0].data);
  }

  lemma SlotsAntisymmetric(fields: seq<SortField>, l: nat, a: Slot, b: Slot)
    requires AreOrders(fields) && a.records != [] && b.records != []
    ensures CompareSlots(fields, l, a, b) < 0 <==> CompareSlots(fields, l, b, a) > 0
  {
    KeysAntisymmetric(fields, a.records[0].data, b.records[0].data);
  }

  /** No slot is smaller than the best, and those in front of it are greater. */
  lemma {:induction false} BestIsFirst(fields: seq<SortField>, l: nat, slots: seq<Slot>)
    requires AreOrders(fields)
    ensures var p := Best(fields, l, slots);
      if p < 0 then forall k :: 0 <= k < |slots| ==> slots[k].records == []
      else forall k :: 0 <= k < |slots| && slots[k].records != [] ==>
        CompareSlots(fields, l, slots[p], slots[k]) <= 0 && (k < p ==> CompareSlots(fields, l, slots[p], slots[k]) < 0)
  {
    hide CompareSlots;
    if |slots| > 0 {
      var last := |slots| - 1;
      var front := slots[..last];
      var p := Best(fields, l, front);
      BestIsFirst(fields, l, front);
      if slots[last].records != [] {
        SlotsAntisymmetric(fields, l, slots[last], slots[last]);
        if p >= 0 {
          SlotsAntisymmetric(fields, l, slots[last], slots[p]);
          forall k | 0 <= k < last && slots[k].records != []
            ensures CompareSlots(fields, l, slots[p], slots[last]) > 0 ==>
              CompareSlots(fields, l, slots[last], slots[k]) < 0
          {
            assert front[k] == slots[k];
            if CompareSlots(fields, l, slots[p], slots[last]) > 0 {
              SlotsTransitive(fields, l, slots[last], slots[p], slots[k]);
            }
          }
        }
      }
    }
  }

  // ---------- records of any lengths ----------

  lemma {:induction false} NothingMerged(slots: seq<Slot>)
    requires forall k :: 0 <= k < |slots| ==> slots[k].records == []
    ensures Pool(Rests(slots)) == multiset{}
  {
    if |slots| > 0 {
      var last := |slots| - 1;
      assert Rests(slots)[..last] == Rests(slots[..last]);
      NothingMerged(slots[..last]);
    }
  }

  lemma {:induction false} BestNone(fields: seq<SortField>, l: nat, slots: seq<Slot>)
    ensures Best(fields, l, slots) < 0 <==> forall k :: 0 <= k < |slots| ==> slots[k].records == []
  {
    if |slots| > 0 {
      BestNone(fields, l, slots[..|slots| - 1]);
    }
  }

  /** Nothing is lost and nothing comes twice. */
  lemma {:induction false} MergedPermutes(fields: seq<SortField>, l: nat, slots: seq<Slot>)
    ensures multiset(MergedFrom(fields, l, slots)) == Pool(Rests(slots))
    decreases Total(Rests(slots))
  {
    hide Best, Pool, Total;
    BestNone(fields, l, slots);
    var p := Best(fields, l, slots);
    BestNonEmpty(fields, l, slots);
    if p < 0 {
      NothingMerged(slots);
    } else {
      PopTotal(Rests(slots), p);
      PopPool(Rests(slots), p);
      MergedPermutes(fields, l, Taken(slots, p));
    }
  }

  lemma BestNonEmpty(fields: seq<SortField>, l: nat, slots: seq<Slot>)
    ensures var p := Best(fields, l, slots); -1 <= p < |slots| && (p >= 0 ==> slots[p].records != [])
  {
  }

  ghost predicate AllKeySorted(fields: seq<SortField>, slots: seq<Slot>) {
    forall k :: 0 <= k < |slots| ==> KeySorted(fields, slots[k].records)
  }

  /** The head of the best slot has a smallest key. */
  lemma BestKey(fields: seq<SortField>, l: nat, slots: seq<Slot>)
    requires AreOrders(fields) && Best(fields, l, slots) >= 0 && AllKeySorted(fields, slots)
    ensures var r := slots[Best(fields, l, slots)].records[0];
      forall k, i :: 0 <= k < |slots| && 0 <= i < |slots[k].records| ==>
        CompareKeys(fields, r.data, slots[k].records[i].data) <= 0
  {
    hide Best, CompareKeys;
    BestIsFirst(fields, l, slots);
    BestNonEmpty(fields, l, slots);
    var p := Best(fields, l, slots);
    var r := slots[p].records[0];
    forall k, i | 0 <= k < |slots| && 0 <= i < |slots[k].records|
      ensures CompareKeys(fields, r.data, slots[k].records[i].data) <= 0
    {
      var head := slots[k].records[0];
      assert KeySorted(fields, slots[k].records);
      KeysTransitive(fields, r.data, head.data, slots[k].records[i].data);
    }
  }

  /** Records in the pool of the streams stand in one of them. */
  lemma {:induction false} InPool(slots: seq<Slot>, r: Record) returns (k: nat, i: nat)
    requires r in Pool(Rests(slots))
    ensures k < |slots| && i < |slots[k].records| && slots[k].records[i] == r
  {
    var last := |slots| - 1;
    assert Rests(slots)[..last] == Rests(slots[..last]);
    if r in multiset(slots[last].records) {
      assert r in slots[last].records;
      k := last;
      i :| 0 <= i < |slots[last].records| && slots[last].records[i] == r;
    } else {
      k, i := InPool(slots[..last], r);
    }
  }

  /** Whatever the lengths of the records, they come out sorted by their keys. */
  lemma {:induction false} MergedKeySorted(fields: seq<SortField>, l: nat, slots: seq<Slot>)
    requires AreOrders(fields) && AllKeySorted(fields, slots)
    ensures KeySorted(fields, MergedFrom(fields, l, slots))
    decreases Total(Rests(slots))
  {
    hide Best, CompareKeys, Pool, Total;
    BestNonEmpty(fields, l, slots);
    var p := Best(fields, l, slots);
    if p >= 0 {
      var r, more := slots[p].records[0], Taken(slots, p);
      PopTotal(Rests(slots), p);
      BestKey(fields, l, slots);
      TakenKeySorted(fields, slots, p);
      MergedKeySorted(fields, l, more);
      MergedPermutes(fields, l, more);
      var s := MergedFrom(fields, l, more);
      forall j | 0 <= j < |s| ensures CompareKeys(fields, r.data, s[j].data) <= 0 {
        assert s[j] in multiset(s);
        var k, i := InPool(more, s[j]);
        assert more[k].records[i] == slots[k].records[if k == p then i + 1 else i];
      }
    }
  }

  lemma TakenKeySorted(fields: seq<SortField>, slots: seq<Slot>, p: nat)
    requires p < |slots| && slots[p].records != [] && AllKeySorted(fields, slots)
    ensures AllKeySorted(fields, Taken(slots, p))
  {
    hide CompareKeys;
    forall k | 0 <= k < |slots| ensures KeySorted(fields, Taken(slots, p)[k].records) {
      assert KeySorted(fields, slots[k].records);
    }
  }

  /** The records of one job, in order. */
  function OfJob(s: seq<Record>, job: nat): seq<Record> {
    if |s| == 0 then [] else (if s[0].job == job then [s[0]] else []) + OfJob(s[1..], job)
  }

  /** The records of slot k are those of job k. */
  ghost predicate JobsOfTheirOwn(slots: seq<Slot>) {
    forall k, i :: 0 <= k < |slots| && 0 <= i < |slots[k].records| ==> slots[k].records[i].job == k
  }

  lemma TakenJobs(slots: seq<Slot>, p: nat)
    requires p < |slots| && slots[p].records != [] && JobsOfTheirOwn(slots)
    ensures JobsOfTheirOwn(Taken(slots, p)) && slots[p].records[0].job == p
  {
    var more := Taken(slots, p);
    forall k, i | 0 <= k < |more| && 0 <= i < |more[k].records| ensures more[k].records[i].job == k {
      LeftAt(slots, p, k, i);
    }
  }

  /** Whatever the lengths of the records, those of a stream come out in its order. */
  lemma {:induction false} MergedOfJob(fields: seq<SortField>, l: nat, slots: seq<Slot>, k: nat)
    requires k < |slots| && JobsOfTheirOwn(slots)
    ensures OfJob(MergedFrom(fields, l, slots), k) == slots[k].records
    decreases Total(Rests(slots))
  {
    hide Best, Total, JobsOfTheirOwn;
    BestNonEmpty(fields, l, slots);
    BestNone(fields, l, slots);
    var p := Best(fields, l, slots);
    if p >= 0 {
      var s := MergedFrom(fields, l, slots);
      TakenLess(slots, p);
      TakenJobs(slots, p);
      MergedOfJob(fields, l, Taken(slots, p), k);
      AdvancedRecords(slots[p]);
      assert s[1..] == MergedFrom(fields, l, Taken(slots, p));
    }
  }

  lemma {:induction false} AllOfJob(s: seq<Record>, job: nat)
    requires forall r :: r in s ==> r.job == job
    ensures OfJob(s, job) == s
  {
    if |s| > 0 {
      AllOfJob(s[1..], job);
    }
  }

  /** A record that ends in front of the place that is compared follows the record of its key before it. */
  lemma StaysBest(fields: seq<SortField>, l: nat, slots: seq<Slot>, p: nat)
    requires AreOrders(fields) && Best(fields, l, slots) == p && |slots[p].records| >= 2
    requires SameKey(fields, slots[p].records[1], slots[p].records[0]) && |slots[p].records[1].data| + 8 <= l
    ensures Best(fields, l, Taken(slots, p)) == p
  {
    hide Best, PosSeen, Filled;
    var more := Taken(slots, p);
    var q := Best(fields, l, more);
    BestIsFirst(fields, l, slots);
    BestIsFirst(fields, l, more);
    BestNonEmpty(fields, l, more);
    AdvancedRecords(slots[p]);
    SeenOfShort(slots[p].area, slots[p].records[1], l);
    assert CompareSlots(fields, l, more[p], slots[p]) == 0;
    if q >= 0 && q != p {
      SlotsTransitive(fields, l, more[p], slots[p], slots[q]);
      SlotsAntisymmetric(fields, l, more[q], more[p]);
      SlotsAntisymmetric(fields, l, more[p], more[q]);
    }
  }

  lemma ShortFollows(fields: seq<SortField>, l: nat, slots: seq<Slot>, p: nat)
    requires AreOrders(fields) && Best(fields, l, slots) == p && |slots[p].records| >= 2
    requires SameKey(fields, slots[p].records[1], slots[p].records[0]) && |slots[p].records[1].data| + 8 <= l
    ensures |MergedFrom(fields, l, slots)| >= 2 && MergedFrom(fields, l, slots)[..2] == slots[p].records[..2]
  {
    hide Best, PosSeen, Filled, CompareSlots, SameKey;
    StaysBest(fields, l, slots, p);
    AdvancedRecords(slots[p]);
    var s, more := MergedFrom(fields, l, slots), MergedFrom(fields, l, Taken(slots, p));
    assert s == [slots[p].records[0]] + more;
    assert more[0] == Taken(slots, p)[p].records[0];
  }

  // ---------- what a slot shows ----------

  /**
   The position seen in a slot is what the ranking takes for the position of its current record, now and as long
   as the slot has records: either all its records have the output length and are taken at their own positions, or
   all but the current one end in front of the place that is compared, and are taken at what stands there.
   */
  ghost predicate Honest(rank: Ranking, l: nat, s: Slot) {
    || ((forall r :: r in s.records ==> |r.data| == l && InRange(r.pos) && rank.seen(r) == r.pos)
        && (s.records != [] ==> PosSeen(s.area, l) == s.records[0].pos))
    || (forall i :: 0 <= i < |s.records| ==>
          rank.seen(s.records[i]) == PosSeen(s.area, l) && (i > 0 ==> |s.records[i].data| + 8 <= l))
  }

  lemma HonestSeen(rank: Ranking, l: nat, s: Slot)
    requires Honest(rank, l, s) && s.records != []
    ensures PosSeen(s.area, l) == rank.seen(s.records[0])
  {
  }

  lemma HonestAdvanced(rank: Ranking, l: nat, s: Slot)
    requires Honest(rank, l, s) && s.records != []
    ensures Honest(rank, l, Advanced(s))
  {
    hide PosSeen, Filled;
    var more := s.records[1..];
    if more != [] {
      if |more[0].data| == l && rank.seen(more[0]) == more[0].pos && InRange(more[0].pos) {
        SeenOfFull(s.area, more[0], l);
      }
      if |more[0].data| + 8 <= l {
        SeenOfShort(s.area, more[0], l);
      }
    }
  }

  ghost predicate AllHonest(rank: Ranking, l: nat, slots: seq<Slot>) {
    forall k :: 0 <= k < |slots| ==> Honest(rank, l, slots[k]) && Sorted(rank, slots[k].records)
  }

  /** The head of the best slot comes first of all records that are left. */
  lemma BestRecord(rank: Ranking, l: nat, slots: seq<Slot>)
    requires AreOrders(rank.fields) && Best(rank.fields, l, slots) >= 0 && AllHonest(rank, l, slots)
    requires JobsOfTheirOwn(slots)
    ensures var r := slots[Best(rank.fields, l, slots)].records[0];
      forall k, i :: 0 <= k < |slots| && 0 <= i < |slots[k].records| ==> Le(rank, r, slots[k].records[i])
  {
    hide Best, CompareKeys, Honest, Le, PosSeen, CompareSlots;
    BestIsFirst(rank.fields, l, slots);
    BestNonEmpty(rank.fields, l, slots);
    var p := Best(rank.fields, l, slots);
    var r := slots[p].records[0];
    forall k, i | 0 <= k < |slots| && 0 <= i < |slots[k].records| ensures Le(rank, r, slots[k].records[i]) {
      var head := slots[k].records[0];
      assert Sorted(rank, slots[k].records);
      if k != p {
        HonestSeen(rank, l, slots[k]);
        HonestSeen(rank, l, slots[p]);
        HeadBefore(rank, l, slots[p], slots[k], k < p);
        LeTransitive(rank, r, head, slots[k].records[i]);
      }
    }
  }

  lemma HeadBefore(rank: Ranking, l: nat, a: Slot, b: Slot, strictly: bool)
    requires AreOrders(rank.fields) && a.records != [] && b.records != []
    requires PosSeen(a.area, l) == rank.seen(a.records[0]) && PosSeen(b.area, l) == rank.seen(b.records[0])
    requires CompareSlots(rank.fields, l, a, b) <= 0 && (strictly ==> CompareSlots(rank.fields, l, a, b) < 0)
    requires !strictly ==> a.records[0].job < b.records[0].job
    ensures Le(rank, a.records[0], b.records[0])
  {
    hide PosSeen, CompareKeys;
  }

  /** When all slots are honest, the records come out sorted by key, by what is seen, and by job. */
  lemma {:induction false} MergedSorted(rank: Ranking, l: nat, slots: seq<Slot>)
    requires AreOrders(rank.fields) && AllHonest(rank, l, slots) && JobsOfTheirOwn(slots)
    ensures Sorted(rank, MergedFrom(rank.fields, l, slots))
    decreases Total(Rests(slots))
  {
    hide Best, Le, Pool, Total, AllHonest, JobsOfTheirOwn, Taken;
    var fields := rank.fields;
    BestNonEmpty(fields, l, slots);
    var p := Best(fields, l, slots);
    if p >= 0 {
      var r, more := slots[p].records[0], Taken(slots, p);
      TakenLess(slots, p);
      BestRecord(rank, l, slots);
      TakenHonest(rank, l, slots, p);
      MergedSorted(rank, l, more);
      MergedPermutes(fields, l, more);
      LeTotal(rank, r, r);
      var s := MergedFrom(fields, l, more);
      forall j | 0 <= j < |s| ensures Le(rank, r, s[j]) {
        assert s[j] in multiset(s);
        var k, i := InPool(more, s[j]);
        LeftAt(slots, p, k, i);
      }
    }
  }

  lemma TakenLess(slots: seq<Slot>, p: nat)
    requires p < |slots| && slots[p].records != []
    ensures |Taken(slots, p)| == |slots| && Total(Rests(Taken(slots, p))) < Total(Rests(slots))
  {
    hide Total;
    PopTotal(Rests(slots), p);
  }

  lemma LeftAt(slots: seq<Slot>, p: nat, k: nat, i: nat)
    requires p < |slots| && slots[p].records != [] && k < |slots| && i < |Taken(slots, p)[k].records|
    ensures var at := if k == p then i + 1 else i;
      at < |slots[k].records| && Taken(slots, p)[k].records[i] == slots[k].records[at]
  {
  }

  lemma TakenHonest(rank: Ranking, l: nat, slots: seq<Slot>, p: nat)
    requires p < |slots| && slots[p].records != [] && AllHonest(rank, l, slots) && JobsOfTheirOwn(slots)
    ensures AllHonest(rank, l, Taken(slots, p)) && JobsOfTheirOwn(Taken(slots, p))
  {
    hide Honest, Le, Advanced, JobsOfTheirOwn;
    var more := Taken(slots, p);
    TakenJobs(slots, p);
    AdvancedRecords(slots[p]);
    HonestAdvanced(rank, l, slots[p]);
    forall k | 0 <= k < |slots| ensures Honest(rank, l, more[k]) && Sorted(rank, more[k].records) {
      assert Honest(rank, l, slots[k]) && Sorted(rank, slots[k].records);
    }
  }

  lemma AdvancedRecords(s: Slot)
    requires s.records != []
    ensures Advanced(s).records == s.records[1..]
  {
  }
}
