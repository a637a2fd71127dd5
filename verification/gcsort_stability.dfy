/** Stable sorting by key, the reference GCSORT is compared with, and when a sort by position comes to the same. */
module GcsortStability {
  import opened GcsortOrder

  /** The records of s with the key of x, in order. */
  ghost function OfKey(fields: seq<SortField>, s: seq<Record>, x: Record): seq<Record> {
    if |s| == 0 then []
    else OfKey(fields, s[..|s| - 1], x) + if SameKey(fields, s[|s| - 1], x) then [s[|s| - 1]] else []
  }

  lemma OfKeyNext(fields: seq<SortField>, s: seq<Record>, r: Record, x: Record)
    ensures OfKey(fields, s + [r], x) == OfKey(fields, s, x) + if SameKey(fields, r, x) then [r] else []
  {
    hide SameKey;
    assert (s + [r])[..|s|] == s;
  }

  lemma {:induction false} OfKeyFrom(fields: seq<SortField>, s: seq<Record>, x: Record)
    ensures forall r :: r in OfKey(fields, s, x) ==> r in s && SameKey(fields, r, x)
  {
    hide SameKey;
    if |s| > 0 {
      OfKeyFrom(fields, s[..|s| - 1], x);
    }
  }

  /** Picking the records of one key keeps a sorted sequence sorted. */
  lemma {:induction false} OfKeySorted(rank: Ranking, s: seq<Record>, x: Record)
    requires AreOrders(rank.fields) && Sorted(rank, s)
    ensures Sorted(rank, OfKey(rank.fields, s, x))
  {
    hide Le, SameKey;
    if |s| > 0 {
      var front, last := s[..|s| - 1], s[|s| - 1];
      var picked := OfKey(rank.fields, front, x);
      OfKeySorted(rank, front, x);
      OfKeyFrom(rank.fields, front, x);
      forall i, j | 0 <= i < |picked| && 0 <= j < |[last]| ensures Le(rank, picked[i], [last][j]) {
        assert picked[i] in front;
        var k :| 0 <= k < |front| && front[k] == picked[i];
        assert Le(rank, s[k], s[|s| - 1]);
      }
      SortedAppend(rank, picked, last);
    }
  }

  /** Two records of one key are picked in their order. */
  lemma {:induction false} OfKeyInOrder(fields: seq<SortField>, s: seq<Record>, x: Record, i: nat, j: nat)
      returns (p: nat, q: nat)
    requires i < j < |s| && SameKey(fields, s[i], x) && SameKey(fields, s[j], x)
    ensures p < q < |OfKey(fields, s, x)| && OfKey(fields, s, x)[p] == s[i] && OfKey(fields, s, x)[q] == s[j]
  {
    hide SameKey;
    var front := s[..|s| - 1];
    if j < |s| - 1 {
      p, q := OfKeyInOrder(fields, front, x, i, j);
    } else {
      p := OfKeyAt(fields, front, x, i);
      q := |OfKey(fields, front, x)|;
    }
  }

  lemma {:induction false} OfKeyAt(fields: seq<SortField>, s: seq<Record>, x: Record, i: nat) returns (p: nat)
    requires i < |s| && SameKey(fields, s[i], x)
    ensures p < |OfKey(fields, s, x)| && OfKey(fields, s, x)[p] == s[i]
  {
    hide SameKey;
    if i < |s| - 1 {
      p := OfKeyAt(fields, s[..|s| - 1], x, i);
    } else {
      p := |OfKey(fields, s[..|s| - 1], x)|;
    }
  }

  // ---------- the stable sort ----------

  /** Put a record behind all that its key is not below. */
  function Insert(fields: seq<SortField>, s: seq<Record>, r: Record): seq<Record> {
    if |s| == 0 || CompareKeys(fields, s[|s| - 1].data, r.data) <= 0 then s + [r]
    else Insert(fields, s[..|s| - 1], r) + [s[|s| - 1]]
  }

  /** Records by key; those of one key in the order in which they were. */
  function StableSort(fields: seq<SortField>, s: seq<Record>): seq<Record> {
    if |s| == 0 then [] else Insert(fields, StableSort(fields, s[..|s| - 1]), s[|s| - 1])
  }

  lemma {:induction false} InsertAdds(fields: seq<SortField>, s: seq<Record>, r: Record)
    ensures multiset(Insert(fields, s, r)) == multiset(s) + multiset{r}
  {
    if |s| > 0 && CompareKeys(fields, s[|s| - 1].data, r.data) > 0 {
      InsertAdds(fields, s[..|s| - 1], r);
      assert s == s[..|s| - 1] + [s[|s| - 1]];
    }
  }

  lemma {:induction false} StableSortPermutes(fields: seq<SortField>, s: seq<Record>)
    ensures multiset(StableSort(fields, s)) == multiset(s)
  {
    if |s| > 0 {
      StableSortPermutes(fields, s[..|s| - 1]);
      InsertAdds(fields, StableSort(fields, s[..|s| - 1]), s[|s| - 1]);
      assert s == s[..|s| - 1] + [s[|s| - 1]];
    }
  }

  lemma KeyOnlyOnce(fields: seq<SortField>, a: Record, b: Record, x: Record)
    requires AreOrders(fields) && SameKey(fields, a, x) && SameKey(fields, b, x)
    ensures SameKey(fields, a, b) && SameKey(fields, b, a)
  {
    KeysAntisymmetric(fields, a.data, x.data);
    KeysAntisymmetric(fields, b.data, x.data);
    KeysTransitive(fields, a.data, x.data, b.data);
    KeysTransitive(fields, b.data, x.data, a.data);
    KeysAntisymmetric(fields, a.data, b.data);
  }

  lemma {:induction false} InsertBehindKey(fields: seq<SortField>, s: seq<Record>, r: Record, x: Record)
    requires AreOrders(fields)
    ensures OfKey(fields, Insert(fields, s, r), x) == OfKey(fields, s, x) + if SameKey(fields, r, x) then [r] else []
  {
    hide SameKey;
    if |s| == 0 || CompareKeys(fields, s[|s| - 1].data, r.data) <= 0 {
      OfKeyNext(fields, s, r, x);
    } else {
      var front, last := s[..|s| - 1], s[|s| - 1];
      InsertBehindKey(fields, front, r, x);
      OfKeyNext(fields, Insert(fields, front, r), last, x);
      if SameKey(fields, last, x) && SameKey(fields, r, x) {
        KeyOnlyOnce(fields, last, r, x);
        NotBelow(fields, last, r);
      }
    }
  }

  lemma NotBelow(fields: seq<SortField>, a: Record, b: Record)
    ensures SameKey(fields, a, b) ==> CompareKeys(fields, a.data, b.data) == 0
  {
  }

  /** The stable sort leaves the records of every key in their order. */
  lemma {:induction false} StableSortKeeps(fields: seq<SortField>, s: seq<Record>, x: Record)
    requires AreOrders(fields)
    ensures OfKey(fields, StableSort(fields, s), x) == OfKey(fields, s, x)
  {
    hide SameKey, Insert;
    if |s| > 0 {
      StableSortKeeps(fields, s[..|s| - 1], x);
      InsertBehindKey(fields, StableSort(fields, s[..|s| - 1]), s[|s| - 1], x);
    }
  }

  // ---------- records in order ----------

  /** Records of one key stand in the order in which the sort puts them. */
  ghost predicate InOrder(rank: Ranking, s: seq<Record>) {
    forall i, j :: 0 <= i < j < |s| && SameKey(rank.fields, s[i], s[j]) ==> Before(rank, s[i], s[j])
  }

  lemma LeOfOther(rank: Ranking, a: Record, b: Record)
    requires AreOrders(rank.fields) && !SameKey(rank.fields, a, b)
    ensures CompareKeys(rank.fields, a.data, b.data) <= 0 <==> Le(rank, a, b)
    ensures CompareKeys(rank.fields, a.data, b.data) > 0 <==> Le(rank, b, a)
  {
    KeysAntisymmetric(rank.fields, a.data, b.data);
  }

  lemma {:induction false} InsertSorted(rank: Ranking, s: seq<Record>, r: Record)
    requires AreOrders(rank.fields) && Sorted(rank, s)
    requires forall k :: 0 <= k < |s| && SameKey(rank.fields, s[k], r) ==> Before(rank, s[k], r)
    ensures Sorted(rank, Insert(rank.fields, s, r))
  {
    hide SameKey, Le, Before;
    if |s| == 0 {
      assert s == [];
      SortedAppend(rank, s, r);
    } else {
      var front, last := s[..|s| - 1], s[|s| - 1];
      if CompareKeys(rank.fields, last.data, r.data) <= 0 {
        LastBelow(rank, last, r);
        forall i, j | 0 <= i < |s| && 0 <= j < |[r]| ensures Le(rank, s[i], [r][j]) {
          assert Le(rank, s[i], s[|s| - 1]);
          LeTransitive(rank, s[i], last, r);
        }
        SortedAppend(rank, s, r);
      } else {
        InsertSorted(rank, front, r);
        InsertAdds(rank.fields, front, r);
        NotBelow(rank.fields, last, r);
        LeOfOther(rank, last, r);
        var inserted := Insert(rank.fields, front, r);
        forall i, j | 0 <= i < |inserted| && 0 <= j < |[last]| ensures Le(rank, inserted[i], [last][j]) {
          assert inserted[i] in multiset(inserted);
          if inserted[i] in front {
            var k :| 0 <= k < |front| && front[k] == inserted[i];
            assert Le(rank, s[k], s[|s| - 1]);
          }
        }
        SortedAppend(rank, inserted, last);
      }
    }
  }

  lemma LastBelow(rank: Ranking, a: Record, b: Record)
    requires AreOrders(rank.fields) && CompareKeys(rank.fields, a.data, b.data) <= 0
    requires SameKey(rank.fields, a, b) ==> Before(rank, a, b)
    ensures Le(rank, a, b)
  {
    if !SameKey(rank.fields, a, b) {
      LeOfOther(rank, a, b);
    }
  }

  lemma {:induction false} StableSortSorted(rank: Ranking, s: seq<Record>)
    requires AreOrders(rank.fields) && InOrder(rank, s)
    ensures Sorted(rank, StableSort(rank.fields, s))
  {
    hide SameKey, Le, Before;
    if |s| > 0 {
      var front, last := s[..|s| - 1], s[|s| - 1];
      var t := StableSort(rank.fields, front);
      StableSortSorted(rank, front);
      StableSortPermutes(rank.fields, front);
      forall k | 0 <= k < |t| && SameKey(rank.fields, t[k], last) ensures Before(rank, t[k], last) {
        assert t[k] in multiset(t);
        assert t[k] in front;
        var i :| 0 <= i < |front| && front[i] == t[k];
        assert s[i] == t[k] && s[|s| - 1] == last;
      }
      InsertSorted(rank, t, last);
    }
  }

  /**
   Sorted records come out as the stable sort by key has them if and only if the records of every key are in
   order.
   */
  lemma SortedIsStableIff(rank: Ranking, sorted: seq<Record>, s: seq<Record>)
    requires AreOrders(rank.fields) && Sorted(rank, sorted) && multiset(sorted) == multiset(s)
    requires PositionsIdentify(multiset(s))
    ensures sorted == StableSort(rank.fields, s) <==> InOrder(rank, s)
  {
    hide SameKey, Le, Before, StableSort, OfKey;
    if InOrder(rank, s) {
      StableSortSorted(rank, s);
      StableSortPermutes(rank.fields, s);
      SortedUnique(rank, sorted, StableSort(rank.fields, s));
    } else {
      var i, j :| 0 <= i < j < |s| && SameKey(rank.fields, s[i], s[j]) && !Before(rank, s[i], s[j]);
      if sorted == StableSort(rank.fields, s) {
        StableSortKeeps(rank.fields, s, s[i]);
        OfKeySorted(rank, sorted, s[i]);
        KeyOfItself(rank.fields, s[i], s[j]);
        var p, q := OfKeyInOrder(rank.fields, s, s[i], i, j);
        assert Le(rank, OfKey(rank.fields, s, s[i])[p], OfKey(rank.fields, s, s[i])[q]);
        LeOfSameKey(rank, s[i], s[j]);
      }
    }
  }

  lemma LeOfSameKey(rank: Ranking, a: Record, b: Record)
    requires SameKey(rank.fields, a, b)
    ensures Le(rank, a, b) <==> Before(rank, a, b)
  {
  }

  lemma KeyOfItself(fields: seq<SortField>, a: Record, b: Record)
    requires AreOrders(fields) && SameKey(fields, a, b)
    ensures SameKey(fields, a, a) && SameKey(fields, b, a)
  {
    KeysAntisymmetric(fields, a.data, a.data);
    KeysAntisymmetric(fields, a.data, b.data);
  }

  // ---------- what the records hold ----------

  function Datas(s: seq<Record>): (d: seq<Data>)
    ensures |d| == |s|
  {
    seq(|s|, i requires 0 <= i < |s| => s[i].data)
  }

  lemma LastOfSame(s: seq<Record>, t: seq<Record>)
    requires Datas(s) == Datas(t) && |s| > 0
    ensures |t| == |s| && Datas(s[..|s| - 1]) == Datas(t[..|t| - 1]) && s[|s| - 1].data == t[|t| - 1].data
  {
    assert |Datas(s)| == |Datas(t)|;
    assert Datas(s)[|s| - 1] == Datas(t)[|t| - 1];
    forall i | 0 <= i < |s| - 1 ensures s[i].data == t[i].data {
      assert Datas(s)[i] == Datas(t)[i];
    }
  }

  lemma {:induction false} InsertDatas(fields: seq<SortField>, s: seq<Record>, r: Record, t: seq<Record>, q: Record)
    requires Datas(s) == Datas(t) && r.data == q.data
    ensures Datas(Insert(fields, s, r)) == Datas(Insert(fields, t, q))
  {
    hide Datas;
    DatasAppend(s, r);
    DatasAppend(t, q);
    if |s| > 0 {
      LastOfSame(s, t);
      var front, last := s[..|s| - 1], s[|s| - 1];
      InsertDatas(fields, front, r, t[..|t| - 1], q);
      DatasAppend(Insert(fields, front, r), last);
      DatasAppend(Insert(fields, t[..|t| - 1], q), t[|t| - 1]);
    }
  }

  lemma DatasAppend(s: seq<Record>, r: Record)
    ensures Datas(s + [r]) == Datas(s) + [r.data]
  {
  }

  /** The stable sort does not look at positions. */
  lemma {:induction false} StableSortDatas(fields: seq<SortField>, s: seq<Record>, t: seq<Record>)
    requires Datas(s) == Datas(t)
    ensures Datas(StableSort(fields, s)) == Datas(StableSort(fields, t))
  {
    hide Datas, Insert;
    if |s| > 0 {
      LastOfSame(s, t);
      StableSortDatas(fields, s[..|s| - 1], t[..|t| - 1]);
      InsertDatas(fields, StableSort(fields, s[..|s| - 1]), s[|s| - 1], StableSort(fields, t[..|t| - 1]), t[|t| - 1]);
    } else {
      assert |Datas(s)| == |Datas(t)|;
    }
  }
}
