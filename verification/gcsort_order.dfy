/**
 Records, the comparison of GCSORT, and sorted sequences of records.

 The comparison of one key field belongs to libraries that are not part of this model; it is any
 total preorder. What is modelled is how the fields, their directions and the record's position in
 the input make up the order records are merged in.
 */
module GcsortOrder {

  type Data = seq<bv8>

  /**
   A record, the position its thread has given it, and the number of the thread's job. The program does not keep
   the number with the record and does not compare it: it is where the record is found.
   */
  datatype Record = Record(data: Data, pos: int, job: nat)

  /** A key field: its three-way comparison and its direction. */
  datatype SortField = SortField(order: (Data, Data) -> int, ascending: bool)

  ghost predicate IsOrder(order: (Data, Data) -> int) {
    && (forall a, b :: order(a, b) < 0 <==> order(b, a) > 0)
    && (forall a, b, c :: order(a, b) <= 0 && order(b, c) <= 0 ==> order(a, c) <= 0)
  }

  ghost predicate AreOrders(fields: seq<SortField>) {
    forall i :: 0 <= i < |fields| ==> IsOrder(fields[i].order)
  }

  /** The first field that tells the records apart decides, reversed for a descending field. */
  function CompareKeys(fields: seq<SortField>, a: Data, b: Data): int {
    if |fields| == 0 then 0
    else
      var r := fields[0].order(a, b);
      if r != 0 then (if fields[0].ascending then r else -r) else CompareKeys(fields[1..], a, b)
  }

  /**
   The keys decide, and for equal keys the positions if they are asked for. In a merge these are not kept with the
   records: they are read from the areas the records are in.
   */
  function CompareRek(fields: seq<SortField>, first: Data, lPosA: int, second: Data, lPosB: int,
                      checkPosPnt: bool): int {
    var result := CompareKeys(fields, first, second);
    if result != 0 then result
    else if checkPosPnt then
      if lPosA < lPosB then -1 else if lPosA > lPosB then 1 else 0
    else 0
  }

  // ---------- the comparison is a total preorder ----------

  lemma {:induction false} KeysAntisymmetric(fields: seq<SortField>, a: Data, b: Data)
    requires AreOrders(fields)
    ensures CompareKeys(fields, a, b) < 0 <==> CompareKeys(fields, b, a) > 0
    ensures CompareKeys(fields, a, b) == 0 <==> CompareKeys(fields, b, a) == 0
  {
    if |fields| == 0 {
    } else {
      assert IsOrder(fields[0].order);
      KeysAntisymmetric(fields[1..], a, b);
    }
  }

  lemma {:induction false} KeysTransitive(fields: seq<SortField>, a: Data, b: Data, c: Data)
    requires AreOrders(fields)
    requires CompareKeys(fields, a, b) <= 0 && CompareKeys(fields, b, c) <= 0
    ensures CompareKeys(fields, a, c) <= 0
    ensures CompareKeys(fields, a, c) == 0 ==> CompareKeys(fields, a, b) == 0 && CompareKeys(fields, b, c) == 0
  {
    if |fields| == 0 {
    } else {
      var o := fields[0].order;
      assert IsOrder(o);
      OrderFacts(o, a, b, c);
      OrderFacts(o, c, b, a);
      if o(a, b) == 0 && o(b, c) == 0 {
        KeysTransitive(fields[1..], a, b, c);
      }
    }
  }

  lemma OrderFacts(o: (Data, Data) -> int, a: Data, b: Data, c: Data)
    requires IsOrder(o)
    ensures o(a, b) < 0 <==> o(b, a) > 0
    ensures o(b, c) < 0 <==> o(c, b) > 0
    ensures o(a, c) < 0 <==> o(c, a) > 0
    ensures o(a, b) <= 0 && o(b, c) <= 0 ==> o(a, c) <= 0
    ensures o(a, b) <= 0 && o(b, c) <= 0 && o(a, c) == 0 ==> o(a, b) == 0 && o(b, c) == 0
  {
    if o(a, b) <= 0 && o(b, c) <= 0 && o(a, c) == 0 {
      assert o(b, c) <= 0 && o(c, a) <= 0 ==> o(b, a) <= 0;
      assert o(c, a) <= 0 && o(a, b) <= 0 ==> o(c, b) <= 0;
    }
  }

  // ---------- the order the keys make ----------

  /** Field k is the first that tells the records apart. */
  ghost predicate FirstApart(fields: seq<SortField>, a: Data, b: Data, k: nat) {
    && k < |fields| && fields[k].order(a, b) != 0
    && forall j :: 0 <= j < k ==> fields[j].order(a, b) == 0
  }

  /** In the first field that tells them apart, a is below b when the field ascends, and above it when it descends. */
  ghost predicate ComesFirst(fields: seq<SortField>, a: Data, b: Data) {
    exists k: nat :: FirstApart(fields, a, b, k) && (fields[k].ascending <==> fields[k].order(a, b) < 0)
  }

  /** No field tells them apart. */
  ghost predicate Ties(fields: seq<SortField>, a: Data, b: Data) {
    forall j :: 0 <= j < |fields| ==> fields[j].order(a, b) == 0
  }

  lemma ApartInRest(fields: seq<SortField>, a: Data, b: Data, k: nat)
    requires |fields| > 0 && fields[0].order(a, b) == 0
    ensures FirstApart(fields[1..], a, b, k) <==> FirstApart(fields, a, b, k + 1)
    ensures Ties(fields[1..], a, b) <==> Ties(fields, a, b)
  {
    var rest := fields[1..];
    assert forall j :: 0 <= j < |rest| ==> rest[j] == fields[j + 1];
    assert forall j :: 1 <= j < |fields| ==> fields[j] == rest[j - 1];
  }

  /** A record is put in front of another if and only if it comes first, and they are equal if and only if they tie. */
  lemma {:induction false} KeysDecide(fields: seq<SortField>, a: Data, b: Data)
    ensures CompareKeys(fields, a, b) < 0 <==> ComesFirst(fields, a, b)
    ensures CompareKeys(fields, a, b) == 0 <==> Ties(fields, a, b)
  {
    if |fields| > 0 {
      if fields[0].order(a, b) != 0 {
        assert FirstApart(fields, a, b, 0);
      } else {
        var rest := fields[1..];
        KeysDecide(rest, a, b);
        ApartInRest(fields, a, b, 0);
        if ComesFirst(rest, a, b) {
          var k: nat :| FirstApart(rest, a, b, k) && (rest[k].ascending <==> rest[k].order(a, b) < 0);
          ApartInRest(fields, a, b, k);
        }
        if ComesFirst(fields, a, b) {
          var k: nat :| FirstApart(fields, a, b, k) && (fields[k].ascending <==> fields[k].order(a, b) < 0);
          ApartInRest(fields, a, b, k - 1);
        }
      }
    }
  }

  /** A way to put records in order: by their keys, and then by what is taken for their positions. */
  datatype Ranking = Ranking(fields: seq<SortField>, seen: Record -> int)

  /** By keys and the positions the records have. */
  function ByPosition(fields: seq<SortField>): Ranking {
    Ranking(fields, (r: Record) => r.pos)
  }

  ghost predicate SameKey(fields: seq<SortField>, a: Record, b: Record) {
    CompareKeys(fields, a.data, b.data) == 0
  }

  ghost predicate KeyBelow(fields: seq<SortField>, a: Record, b: Record) {
    CompareKeys(fields, a.data, b.data) < 0
  }

  /** For records of one key: what is taken for the position, then the job, then the position. */
  predicate Before(rank: Ranking, a: Record, b: Record) {
    || rank.seen(a) < rank.seen(b)
    || (rank.seen(a) == rank.seen(b) && (a.job < b.job || (a.job == b.job && a.pos <= b.pos)))
  }

  /** In front by its position, or at the same position in an earlier job. */
  predicate Earlier(a: Record, b: Record) {
    a.pos < b.pos || (a.pos == b.pos && a.job <= b.job)
  }

  lemma BeforeByPosition(fields: seq<SortField>, a: Record, b: Record)
    ensures Before(ByPosition(fields), a, b) <==> Earlier(a, b)
  {
  }

  ghost predicate Le(rank: Ranking, a: Record, b: Record) {
    KeyBelow(rank.fields, a, b) || (SameKey(rank.fields, a, b) && Before(rank, a, b))
  }

  lemma LeTotal(rank: Ranking, a: Record, b: Record)
    requires AreOrders(rank.fields)
    ensures Le(rank, a, b) || Le(rank, b, a)
    ensures Le(rank, a, a)
    ensures Le(rank, a, b) && Le(rank, b, a) ==> SameKey(rank.fields, a, b) && a.pos == b.pos && a.job == b.job
  {
    KeysAntisymmetric(rank.fields, a.data, b.data);
    KeysAntisymmetric(rank.fields, a.data, a.data);
  }

  lemma LeTransitive(rank: Ranking, a: Record, b: Record, c: Record)
    requires AreOrders(rank.fields) && Le(rank, a, b) && Le(rank, b, c)
    ensures Le(rank, a, c)
  {
    KeysTransitive(rank.fields, a.data, b.data, c.data);
  }

  // ---------- sorted sequences ----------

  ghost predicate Sorted(rank: Ranking, s: seq<Record>) {
    forall i, j :: 0 <= i <= j < |s| ==> Le(rank, s[i], s[j])
  }

  /** Sorted by the keys alone. */
  ghost predicate KeySorted(fields: seq<SortField>, s: seq<Record>) {
    forall i, j :: 0 <= i <= j < |s| ==> CompareKeys(fields, s[i].data, s[j].data) <= 0
  }

  /** Of any two records the first field that tells them apart has them in its direction. */
  ghost predicate InKeyOrder(fields: seq<SortField>, s: seq<Record>) {
    forall i, j :: 0 <= i < j < |s| ==> ComesFirst(fields, s[i].data, s[j].data) || Ties(fields, s[i].data, s[j].data)
  }

  lemma KeySortedIff(fields: seq<SortField>, s: seq<Record>)
    requires AreOrders(fields)
    ensures KeySorted(fields, s) <==> InKeyOrder(fields, s)
  {
    hide CompareKeys, ComesFirst, Ties, AreOrders;
    forall i, j | 0 <= i <= j < |s|
      ensures CompareKeys(fields, s[i].data, s[j].data) <= 0 <==>
        ComesFirst(fields, s[i].data, s[j].data) || Ties(fields, s[i].data, s[j].data)
    {
      KeysDecide(fields, s[i].data, s[j].data);
    }
    forall i | 0 <= i < |s| ensures CompareKeys(fields, s[i].data, s[i].data) == 0 {
      KeysAntisymmetric(fields, s[i].data, s[i].data);
    }
  }

  lemma SortedByKeys(rank: Ranking, s: seq<Record>)
    requires Sorted(rank, s)
    ensures KeySorted(rank.fields, s)
  {
    forall i, j | 0 <= i <= j < |s| ensures CompareKeys(rank.fields, s[i].data, s[j].data) <= 0 {
      assert Le(rank, s[i], s[j]);
    }
  }

  /** Every record of s may come before every record of t. */
  ghost predicate AllLe(rank: Ranking, s: seq<Record>, t: seq<Record>) {
    forall i, j :: 0 <= i < |s| && 0 <= j < |t| ==> Le(rank, s[i], t[j])
  }

  lemma SortedAppend(rank: Ranking, s: seq<Record>, r: Record)
    requires AreOrders(rank.fields) && Sorted(rank, s) && AllLe(rank, s, [r])
    ensures Sorted(rank, s + [r])
  {
    LeTotal(rank, r, r);
    forall i, j | 0 <= i <= j < |s + [r]|
      ensures Le(rank, (s + [r])[i], (s + [r])[j])
    {
      if j == |s| && i < |s| {
        assert Le(rank, s[i], [r][0]);
      }
    }
  }

  /** No two different records of the collection have the same position and the same job. */
  ghost predicate PositionsIdentify(m: multiset<Record>) {
    forall a, b :: a in m && b in m && a.pos == b.pos && a.job == b.job ==> a == b
  }

  lemma SortedHead(rank: Ranking, s: seq<Record>, t: seq<Record>)
    requires AreOrders(rank.fields) && Sorted(rank, s) && Sorted(rank, t)
    requires multiset(s) == multiset(t) && PositionsIdentify(multiset(s)) && |s| > 0 && |t| > 0
    ensures s[0] == t[0]
  {
    assert s[0] in multiset(t) && t[0] in multiset(s);
    var i :| 0 <= i < |s| && s[i] == t[0];
    var j :| 0 <= j < |t| && t[j] == s[0];
    assert Le(rank, s[0], s[i]) && Le(rank, t[0], t[j]);
    LeTotal(rank, s[0], t[0]);
  }

  lemma MultisetTail<T>(s: seq<T>)
    requires |s| > 0
    ensures s == [s[0]] + s[1..] && multiset(s[1..]) == multiset(s) - multiset{s[0]}
  {
    assert s == [s[0]] + s[1..];
  }

  /** There is only one sorted arrangement of records that their positions and jobs identify. */
  lemma {:induction false} SortedUnique(rank: Ranking, s: seq<Record>, t: seq<Record>)
    requires AreOrders(rank.fields) && Sorted(rank, s) && Sorted(rank, t)
    requires multiset(s) == multiset(t) && PositionsIdentify(multiset(s))
    ensures s == t
  {
    hide Le;
    assert |multiset(s)| == |multiset(t)|;
    if |s| > 0 {
      SortedHead(rank, s, t);
      MultisetTail(s);
      MultisetTail(t);
      SortedUnique(rank, s[1..], t[1..]);
    }
  }
}
