/**
 The table of host variables: a hash table with linked buckets that maps upper-cased names to holders, and
 that can be walked through from the first holder to the last.
 */
module VarCache {
  import opened Chains
  import opened EsqlMarkers

  class VarHolder {
    var next: VarHolder?
    const name: string
    var kind: char
    var size: int

    constructor (s: string)
      ensures name == Upper(s) && next == null
    {
      name := Upper(s);
      next := null;
    }
  }

  // ---------- hashing ----------

  /** The hash of a name from its first eight characters, h being what has been hashed before. */
  function Mixed(s: string, n: nat, h: nat): nat
    decreases n
  {
    if n == 0 || |s| == 0 then h else Mixed(s[1..], n - 1, h * 8 + s[0] as int % 32)
  }

  function HashOf(s: string, sz: nat): (b: nat)
    requires sz > 0
    ensures b < sz
  {
    Mixed(s, 8, 0) % sz
  }

  function Power8(n: nat): nat {
    if n == 0 then 1 else 8 * Power8(n - 1)
  }

  /** A hash stays below 5 * 8^8, so a 32-bit integer never overflows and masking its sign off changes nothing. */
  lemma {:induction false} HashFits(s: string, n: nat, h: nat, bound: nat)
    requires h <= bound
    ensures Mixed(s, n, h) <= Power8(n) * (bound + 5)
  {
    if n > 0 && |s| > 0 {
      HashFits(s[1..], n - 1, h * 8 + s[0] as int % 32, bound * 8 + 31);
      Scale8(Power8(n - 1), bound);
    } else {
      Grows(n, bound + 5);
    }
  }

  lemma Scale8(p: nat, bound: nat)
    ensures p * (bound * 8 + 31 + 5) <= (8 * p) * (bound + 5)
  {
    assert (8 * p) * (bound + 5) - p * (bound * 8 + 36) == 4 * p;
  }

  lemma {:induction false} Grows(n: nat, x: nat)
    ensures x <= Power8(n) * x
  {
    if n > 0 {
      Grows(n - 1, x);
      assert Power8(n) * x == 8 * (Power8(n - 1) * x);
    }
  }

  // ---------- buckets ----------

  ghost predicate Linked(head: VarHolder?, c: seq<VarHolder>)
    reads c
  {
    && head == At(c, 0)
    && forall i :: 0 <= i < |c| ==> c[i].next == At(c, i + 1)
  }

  lemma Follow(head: VarHolder?, c: seq<VarHolder>, k: nat)
    requires Linked(head, c) && k <= |c|
    ensures head == At(c, 0) && (k < |c| ==> c[k].next == At(c, k + 1))
  {
  }

  lemma Links(head: VarHolder?, c: seq<VarHolder>)
    requires Linked(head, c)
    ensures head == At(c, 0) && forall i :: 0 <= i < |c| ==> c[i].next == At(c, i + 1)
  {
  }

  lemma MakeLinked(head: VarHolder?, c: seq<VarHolder>)
    requires head == At(c, 0) && forall i :: 0 <= i < |c| ==> c[i].next == At(c, i + 1)
    ensures Linked(head, c)
  {
  }

  predicate InChain(name: string, c: seq<VarHolder>) {
    exists i :: 0 <= i < |c| && c[i].name == name
  }

  /** One bucket: holders whose names hash to it, all different, each the one its name is mapped to. */
  ghost predicate TidyChain(c: seq<VarHolder>, b: nat, sz: nat, table: map<string, VarHolder>)
    requires sz > 0
  {
    && (forall i :: 0 <= i < |c| ==> HashOf(c[i].name, sz) == b && c[i].name in table && table[c[i].name] == c[i])
    && (forall i, j :: 0 <= i < j < |c| ==> c[i].name != c[j].name)
  }

  ghost predicate Tidy(chains: seq<seq<VarHolder>>, table: map<string, VarHolder>) {
    && |chains| > 0
    && (forall b :: 0 <= b < |chains| ==> TidyChain(chains[b], b, |chains|, table))
    && (forall n :: n in table ==> table[n].name == n && InChain(n, chains[HashOf(n, |chains|)]))
  }

  lemma TidyAppend(chains: seq<seq<VarHolder>>, table: map<string, VarHolder>, v: VarHolder)
    requires Tidy(chains, table) && !InChain(v.name, chains[HashOf(v.name, |chains|)])
    ensures var b := HashOf(v.name, |chains|);
      v.name !in table && Tidy(chains[b := chains[b] + [v]], table[v.name := v])
  {
    hide HashOf;
    var b := HashOf(v.name, |chains|);
    var c1 := chains[b] + [v];
    assert c1[|chains[b]|].name == v.name;
    forall n | n in table && HashOf(n, |chains|) == b ensures InChain(n, c1) {
      var i :| 0 <= i < |chains[b]| && chains[b][i].name == n;
      assert c1[i].name == n;
    }
  }

  lemma TidyReplace(chains: seq<seq<VarHolder>>, table: map<string, VarHolder>, b: nat, k: nat, v: VarHolder)
    requires Tidy(chains, table) && b < |chains| && k < |chains[b]| && chains[b][k].name == v.name
    ensures v.name in table && table[v.name] == chains[b][k]
    ensures Tidy(chains[b := chains[b][k := v]], table[v.name := v])
  {
    hide HashOf;
    var c1 := chains[b][k := v];
    assert c1[k].name == v.name;
    forall n | n in table && HashOf(n, |chains|) == b ensures InChain(n, c1) {
      var i :| 0 <= i < |chains[b]| && chains[b][i].name == n;
      assert c1[i].name == n;
    }
    forall d | 0 <= d < |chains| && d != b ensures TidyChain(chains[d], d, |chains|, table[v.name := v]) {
      assert TidyChain(chains[d], d, |chains|, table);
    }
    assert TidyChain(chains[b], b, |chains|, table);
  }

  /** A holder is in one place only. */
  lemma Apart(chains: seq<seq<VarHolder>>, table: map<string, VarHolder>, b: nat, k: nat)
    requires Tidy(chains, table) && b < |chains| && k < |chains[b]|
    ensures chains[b][k] in table.Values
    ensures forall j :: 0 <= j < |chains[b]| && chains[b][j] == chains[b][k] ==> j == k
    ensures forall d, j :: 0 <= d < |chains| && d != b && 0 <= j < |chains[d]| ==> chains[d][j] != chains[b][k]
  {
    hide HashOf;
    assert TidyChain(chains[b], b, |chains|, table);
    forall d, j | 0 <= d < |chains| && d != b && 0 <= j < |chains[d]| ensures chains[d][j] != chains[b][k] {
      assert TidyChain(chains[d], d, |chains|, table);
    }
  }

  lemma Found(chains: seq<seq<VarHolder>>, table: map<string, VarHolder>, b: nat, k: nat)
    requires Tidy(chains, table) && b < |chains| && k < |chains[b]|
    ensures chains[b][k].name in table && table[chains[b][k].name] == chains[b][k]
  {
    assert TidyChain(chains[b], b, |chains|, table);
  }

  lemma NotFound(chains: seq<seq<VarHolder>>, table: map<string, VarHolder>, name: string)
    requires Tidy(chains, table) && !InChain(name, chains[HashOf(name, |chains|)])
    ensures name !in table
  {
    hide HashOf;
  }

  /** Putting a holder in frees the one that had its name; that one is still there only if it is the same. */
  lemma Freeing(table: map<string, VarHolder>, v: VarHolder, freed: set<VarHolder>)
    requires forall n :: n in table ==> table[n].name == n
    requires v !in freed && forall h :: h in table.Values ==> h !in freed
    ensures v in table.Values <==> v.name in table && table[v.name] == v
    ensures var gone := if v.name in table then {table[v.name]} else {};
      (forall h :: h in table[v.name := v].Values ==> h !in freed + gone) <==> v !in table.Values
  {
    var after := table[v.name := v];
    assert after[v.name] == v;
    assert v in after.Values;
    forall h | h in after.Values && h != v ensures h in table.Values && h.name != v.name {
      var n :| n in after && after[n] == h;
      assert table[n] == h;
    }
  }

  /** Holders are mapped from their own names. */
  lemma NamedRight(chains: seq<seq<VarHolder>>, table: map<string, VarHolder>)
    requires Tidy(chains, table)
    ensures forall n :: n in table ==> table[n].name == n
  {
  }

  // ---------- the order of a walk ----------

  /** The holders of the buckets from b on. */
  function Rest(chains: seq<seq<VarHolder>>, b: nat): seq<VarHolder>
    requires b <= |chains|
    decreases |chains| - b
  {
    if b == |chains| then [] else chains[b] + Rest(chains, b + 1)
  }

  lemma RestAt(chains: seq<seq<VarHolder>>, b: nat)
    requires b <= |chains|
    ensures Rest(chains, b) == if b == |chains| then [] else chains[b] + Rest(chains, b + 1)
  {
  }

  /** A walk meets every holder exactly once. */
  lemma {:induction false} WalkMeetsAll(chains: seq<seq<VarHolder>>, table: map<string, VarHolder>, b: nat)
    requires Tidy(chains, table) && b <= |chains|
    ensures forall i, j :: 0 <= i < j < |Rest(chains, b)| ==> Rest(chains, b)[i] != Rest(chains, b)[j]
    ensures forall n :: n in table && HashOf(n, |chains|) >= b ==> table[n] in Rest(chains, b)
    ensures forall h :: h in Rest(chains, b) ==> h.name in table && table[h.name] == h && HashOf(h.name, |chains|) >= b
    decreases |chains| - b
  {
    hide HashOf;
    if b < |chains| {
      WalkMeetsAll(chains, table, b + 1);
      var c, r := chains[b], Rest(chains, b + 1);
      assert TidyChain(c, b, |chains|, table);
      forall n | n in table && HashOf(n, |chains|) == b ensures table[n] in c {
        var i :| 0 <= i < |c| && c[i].name == n;
      }
    }
  }

  lemma Mixing(s: string, n: nat, h: nat)
    requires n > 0 && |s| > 0
    ensures Mixed(s, n, h) == Mixed(s[1..], n - 1, h * 8 + s[0] as int % 32)
  {
  }

  lemma MixedAll(s: string, n: nat, h: nat)
    requires n == 0 || |s| == 0
    ensures Mixed(s, n, h) == h
  {
  }

  lemma HashIsSmall(s: string)
    ensures Mixed(s, 8, 0) < 0x8000_0000
  {
    HashFits(s, 8, 0, 0);
    assert Power8(8) == 8 * Power8(7) && Power8(7) == 8 * Power8(6) && Power8(6) == 8 * Power8(5);
    assert Power8(5) == 8 * Power8(4) && Power8(4) == 8 * Power8(3) && Power8(3) == 8 * Power8(2) && Power8(2) == 64;
  }

  // ---------- the table ----------

  class Cache {
    const data: array<VarHolder?>
    var count: int
    var lastIx: int
    var lastH: VarHolder?
    ghost var chains: seq<seq<VarHolder>>
    ghost var table: map<string, VarHolder>
    /** Holders that have been given back to the heap. */
    ghost var freed: set<VarHolder>

    ghost predicate Valid()
      reads this, data, table.Values
    {
      && data.Length > 0 && |chains| == data.Length && count == |table|
      && Tidy(chains, table)
      && (forall b :: 0 <= b < |chains| ==> Linked(data[b], chains[b]))
    }

    constructor (sz: nat)
      requires sz > 0
      ensures Valid() && fresh(data) && table == map[] && freed == {}
    {
      data := new VarHolder?[sz](_ => null);
      count := 0;
      chains := seq(sz, i => []);
      table := map[];
      freed := {};
    }

    /** The bucket of a name. */
    method Hash(s: string) returns (h: nat)
      requires data.Length > 0
      ensures h == HashOf(s, data.Length)
    {
      hide Mixed;
      h := 0;
      var i := 0;
      assert s[0..] == s;
      while i < 8 && i < |s|
        invariant 0 <= i <= 8 && i <= |s|
        invariant Mixed(s[i..], 8 - i, h) == Mixed(s, 8, 0)
      {
        Mixing(s[i..], 8 - i, h);
        assert s[i..][1..] == s[i + 1..];
        h := h * 8;
        h := h + s[i] as int % 32;
        i := i + 1;
      }
      MixedAll(s[i..], 8 - i, h);
      HashIsSmall(s);
      h := h % 0x8000_0000;
      h := h % data.Length;
    }

    /** Follow a bucket to a name; prev is the holder in front of it, or the last one. */
    method Search(name: string, i: nat) returns (prev: VarHolder?, h: VarHolder?, ghost k: nat)
      requires Valid() && i < data.Length
      ensures k <= |chains[i]| && prev == At(chains[i], k - 1) && h == At(chains[i], k)
      ensures if h == null then !InChain(name, chains[i]) else h.name == name
    {
      hide Tidy;
      prev, h, k := null, data[i], 0;
      Follow(data[i], chains[i], 0);
      while h != null && h.name != name
        invariant k <= |chains[i]| && prev == At(chains[i], k - 1) && h == At(chains[i], k)
        invariant forall j :: 0 <= j < k ==> chains[i][j].name != name
        decreases |chains[i]| - k
      {
        Follow(data[i], chains[i], k);
        prev, h, k := h, h.next, k + 1;
      }
    }

    /** The holder of a name, in upper or lower case. */
    method Find(s: string) returns (r: VarHolder?)
      requires Valid()
      ensures r == if Upper(s) in table then table[Upper(s)] else null
    {
      hide Tidy, Linked, HashOf;
      var i := Hash(Upper(s));
      var prev, h, k := Search(Upper(s), i);
      if h == null {
        NotFound(chains, table, Upper(s));
      } else {
        Found(chains, table, i, k);
      }
      r := h;
    }

    /** Link a new holder in: behind the last one, or in place of the one at k. */
    method Link(prev: VarHolder?, h: VarHolder?, v: VarHolder, i: nat, ghost k: nat)
      requires Valid() && i < data.Length && k <= |chains[i]| && v !in table.Values && (h == null ==> v.next == null)
      requires prev == At(chains[i], k - 1) && h == At(chains[i], k)
      modifies data, table.Values, v`next
      ensures Linked(data[i], if h == null then chains[i] + [v] else chains[i][k := v])
      ensures forall b :: 0 <= b < |chains| && b != i ==> Linked(data[b], chains[b])
    {
      hide Tidy, HashOf, Linked;
      ghost var c := chains[i];
      AllValues();
      Links(data[i], c);
      if h != null {
        v.next := h.next;
      }
      if prev == null {
        data[i] := v;
      } else {
        Apart(chains, table, i, k - 1);
        prev.next := v;
      }
      MakeLinked(data[i], if h == null then c + [v] else c[k := v]);
    }

    /** What linking comes to for a holder that stands there already: nothing changes. */
    method LinkAgain(prev: VarHolder?, v: VarHolder, i: nat, ghost k: nat)
      requires Valid() && i < data.Length && k < |chains[i]| && prev == At(chains[i], k - 1) && v == chains[i][k]
      modifies data, prev, v
      ensures data[..] == old(data[..]) && v.next == old(v.next) && (prev != null ==> prev.next == old(prev.next))
      ensures v.kind == old(v.kind) && v.size == old(v.size)
    {
      hide Tidy, Linked;
      if k > 0 {
        Follow(data[i], chains[i], k - 1);
      }
      Follow(data[i], chains[i], k);
      v.next := v.next;
      if prev == null {
        data[i] := v;
      } else {
        prev.next := v;
      }
    }

    lemma AllValues()
      requires Tidy(chains, table)
      ensures forall b, j :: 0 <= b < |chains| && 0 <= j < |chains[b]| ==> chains[b][j] in table.Values
    {
      forall b, j | 0 <= b < |chains| && 0 <= j < |chains[b]| ensures chains[b][j] in table.Values {
        Apart(chains, table, b, j);
      }
    }

    /** No holder of the table has been freed. */
    ghost predicate Alive()
      reads this
    {
      forall h :: h in table.Values ==> h !in freed
    }

    /**
     Put a holder in; it takes the place of one with the same name, which is freed. A holder that is in the table
     already is put in its own place, and freed: it is the only kind that leaves a freed holder in the table.
     */
    method Put(v: VarHolder)
      requires Valid() && Alive() && v !in freed && (v in table.Values || v.next == null)
      modifies this, data, table.Values, v
      ensures Valid() && table == old(table)[v.name := v]
      ensures freed == old(freed) + if v.name in old(table) then {old(table)[v.name]} else {}
      ensures Alive() <==> v !in old(table.Values)
    {
      hide Tidy, Linked, HashOf;
      var i := Hash(v.name);
      var prev, h, k := Search(v.name, i);
      FreedOnPut(v, i, k);
      PutAt(prev, h, v, i, k);
    }

    method PutAt(prev: VarHolder?, h: VarHolder?, v: VarHolder, i: nat, ghost k: nat)
      requires Valid() && 0 < data.Length == |chains| && i == HashOf(v.name, data.Length) && k <= |chains[i]|
      requires prev == At(chains[i], k - 1) && h == At(chains[i], k)
      requires if h == null then v.name !in table && !InChain(v.name, chains[i])
               else h.name == v.name && v.name in table && table[v.name] == h
      requires if v in table.Values then h == v else h != v && v.next == null
      modifies this, data, table.Values, v
      ensures Valid() && table == old(table)[v.name := v]
      ensures freed == old(freed) + if h == null then {} else {h}
    {
      hide Valid, HashOf, InChain;
      if h == v {
        PutAgain(prev, v, i, k);
      } else if h == null {
        Append(prev, v, i);
      } else {
        Replace(prev, h, v, i, k);
      }
    }

    /** Which holder is freed, and what that makes of the table. */
    lemma FreedOnPut(v: VarHolder, i: nat, k: nat)
      requires Valid() && Alive() && v !in freed && i == HashOf(v.name, data.Length) && k <= |chains[i]|
      requires if k == |chains[i]| then !InChain(v.name, chains[i]) else chains[i][k].name == v.name
      ensures k == |chains[i]| ==> v.name !in table
      ensures k < |chains[i]| ==> v.name in table && table[v.name] == chains[i][k]
      ensures v in table.Values <==> At(chains[i], k) == v
      ensures var gone := if v.name in table then {table[v.name]} else {};
        (forall h :: h in table[v.name := v].Values ==> h !in freed + gone) <==> v !in table.Values
    {
      hide HashOf, Linked, Tidy;
      if k == |chains[i]| {
        NotFound(chains, table, v.name);
      } else {
        Found(chains, table, i, k);
      }
      NamedRight(chains, table);
      Freeing(table, v, freed);
    }

    method PutAgain(prev: VarHolder?, v: VarHolder, i: nat, ghost k: nat)
      requires Valid() && i < data.Length && k < |chains[i]| && prev == At(chains[i], k - 1) && v == chains[i][k]
      modifies this`freed, data, table.Values
      ensures Valid() && freed == old(freed) + {v}
    {
      hide Tidy, Linked, HashOf;
      AllValues();
      if k > 0 {
        Apart(chains, table, i, k - 1);
      }
      Apart(chains, table, i, k);
      Links(data[i], chains[i]);
      ghost var heads := data[..];
      LinkAgain(prev, v, i, k);
      freed := freed + {v};
      assert forall b :: 0 <= b < |chains| ==> data[b] == heads[b];
      MakeLinked(data[i], chains[i]);
    }

    method Append(prev: VarHolder?, v: VarHolder, i: nat)
      requires Valid() && i == HashOf(v.name, data.Length) && prev == At(chains[i], |chains[i]| - 1)
      requires v !in table.Values && v.next == null && v.name !in table && !InChain(v.name, chains[i])
      modifies this`count, this`chains, this`table, data, table.Values, v`next
      ensures Valid() && table == old(table)[v.name := v]
    {
      hide Tidy, Linked, HashOf, InChain;
      Link(prev, null, v, i, |chains[i]|);
      TidyAppend(chains, table, v);
      count := count + 1;
      chains := chains[i := chains[i] + [v]];
      table := table[v.name := v];
    }

    method Replace(prev: VarHolder?, h: VarHolder, v: VarHolder, i: nat, ghost k: nat)
      requires Valid() && i == HashOf(v.name, data.Length) && k < |chains[i]|
      requires prev == At(chains[i], k - 1) && h == chains[i][k] && h.name == v.name && v !in table.Values
      modifies this`chains, this`table, this`freed, data, table.Values, v`next
      ensures Valid() && table == old(table)[v.name := v] && freed == old(freed) + {h}
    {
      hide Tidy, Linked, HashOf, InChain;
      Link(prev, h, v, i, k);
      TidyReplace(chains, table, i, k, v);
      freed := freed + {h};
      chains := chains[i := chains[i][k := v]];
      table := table[v.name := v];
    }

    /** Where the walk stands: at the k-th holder of the current bucket. */
    ghost predicate Stands(k: nat)
      reads this
    {
      0 <= lastIx < |chains| && k < |chains[lastIx]| && lastH == chains[lastIx][k]
    }

    /** The holders still to be met, the current one first. */
    ghost function Left(k: nat): seq<VarHolder>
      requires Stands(k)
      reads this
    {
      chains[lastIx][k..] + Rest(chains, lastIx + 1)
    }

    /** Go on to the first bucket that is not empty. */
    method NextBucket() returns (r: VarHolder?)
      requires Valid() && 0 <= lastIx <= data.Length
      modifies `lastIx, `lastH
      ensures Valid() && r == At(Rest(chains, old(lastIx)), 0)
      ensures if r == null then lastH == old(lastH) else r == lastH && Stands(0) && Left(0) == Rest(chains, old(lastIx))
    {
      hide Tidy, Rest, Linked;
      while lastIx < data.Length
        invariant Valid() && 0 <= lastIx <= data.Length && Rest(chains, old(lastIx)) == Rest(chains, lastIx)
        invariant lastH == old(lastH)
        decreases data.Length - lastIx
      {
        Follow(data[lastIx], chains[lastIx], 0);
        if data[lastIx] != null {
          break;
        }
        RestAt(chains, lastIx);
        assert [] + Rest(chains, lastIx + 1) == Rest(chains, lastIx + 1);
        lastIx := lastIx + 1;
      }
      RestAt(chains, lastIx);
      if lastIx >= data.Length {
        return null;
      }
      Follow(data[lastIx], chains[lastIx], 0);
      assert chains[lastIx][0..] == chains[lastIx];
      lastH := data[lastIx];
      r := lastH;
    }

    method GetFirstHolder() returns (r: VarHolder?)
      requires Valid()
      modifies `lastIx, `lastH
      ensures Valid() && r == At(Rest(chains, 0), 0)
      ensures r != null ==> r == lastH && Stands(0) && Left(0) == Rest(chains, 0)
    {
      hide Tidy, Linked, Rest;
      lastIx := 0;
      r := NextBucket();
    }

    method GetNextHolder(ghost k: nat) returns (r: VarHolder?, ghost k1: nat)
      requires Valid() && (lastH == null || Stands(k))
      modifies `lastIx, `lastH
      ensures Valid()
      ensures if old(lastH) == null then r == null else r == At(old(Left(k)), 1)
      ensures if r == null then lastH == null else r == lastH && Stands(k1) && Left(k1) == old(Left(k))[1..]
    {
      hide Tidy, Rest, Linked;
      k1 := 0;
      if lastH == null {
        return null, 0;
      }
      Follow(data[lastIx], chains[lastIx], k);
      ghost var c := chains[lastIx];
      lastH := lastH.next;
      if lastH != null {
        assert c[k..] == [c[k]] + c[k + 1..];
        return lastH, k + 1;
      }
      assert c[k..] == [c[k]];
      lastIx := lastIx + 1;
      r := NextBucket();
    }

    /** A walk meets every holder of the table once, and then ends. */
    method Walk() returns (seen: seq<VarHolder>)
      requires Valid()
      modifies `lastIx, `lastH
      ensures Valid() && |seen| == count
      ensures forall i, j :: 0 <= i < j < |seen| ==> seen[i] != seen[j]
      ensures forall h :: h in seen <==> h in table.Values
    {
      hide Tidy, Linked, Rest, HashOf;
      seen := WalkAll();
      WholeWalk(chains, table);
    }

    method WalkAll() returns (seen: seq<VarHolder>)
      requires Valid()
      modifies `lastIx, `lastH
      ensures Valid() && seen == Rest(chains, 0)
    {
      hide Valid, Rest;
      seen := [];
      ghost var k: nat := 0;
      var h := GetFirstHolder();
      assert [] + Rest(chains, 0) == Rest(chains, 0);
      assert h == null ==> seen == Rest(chains, 0);
      while h != null
        invariant Valid()
        invariant if h == null then seen == Rest(chains, 0)
                  else Stands(k) && h == Left(k)[0] && Rest(chains, 0) == seen + Left(k)
        decreases if h == null then 0 else |Left(k)|
      {
        seen := seen + [h];
        ghost var left := Left(k);
        assert left == [left[0]] + left[1..];
        h, k := GetNextHolder(k);
      }
    }
  }

  lemma WholeWalk(chains: seq<seq<VarHolder>>, table: map<string, VarHolder>)
    requires Tidy(chains, table)
    ensures var seen := Rest(chains, 0);
      && |seen| == |table|
      && (forall i, j :: 0 <= i < j < |seen| ==> seen[i] != seen[j])
      && (forall h :: h in seen <==> h in table.Values)
  {
    hide Rest, HashOf;
    WalkMeetsAll(chains, table, 0);
    CountDistinct(Rest(chains, 0), table);
  }

  lemma CountDistinct(seen: seq<VarHolder>, table: map<string, VarHolder>)
    requires forall i, j :: 0 <= i < j < |seen| ==> seen[i] != seen[j]
    requires forall n :: n in table ==> table[n] in seen && table[n].name == n
    requires forall h :: h in seen ==> h.name in table && table[h.name] == h
    ensures |seen| == |table| && forall h :: h in seen <==> h in table.Values
  {
    if |seen| > 0 {
      var h := seen[|seen| - 1];
      var front := seen[..|seen| - 1];
      var rest := table - {h.name};
      assert table.Keys == rest.Keys + {h.name};
      forall n | n in rest ensures rest[n] in front {
        assert table[n] in seen;
      }
      CountDistinct(front, rest);
    } else {
      assert table.Keys == {};
    }
  }
}
