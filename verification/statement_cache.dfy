/**
 The cache that owns all prepared statements: a hash table over their addresses, with linked buckets.
 Every cached statement knows the COBOL statement that points to it, and takes that pointer back when it
 is destroyed.
 */
module StatementCache {
  import opened Chains
  import opened DatabaseHandles

  /**
   A statement of the COBOL program: its pointer into the cache and its state. On the side it is recorded which
   maximum of databases was declared when it was confirmed to be prepared in all of them.
   */
  class Stmt {
    var iptr: Mysql?
    var prep: char
    ghost var confirmed: int

    constructor ()
      ensures Free(this)
    {
      iptr := null;
      prep := 'N';
      confirmed := 0;
    }
  }

  /** A prepared statement: its address, its handles, and the COBOL statement that owns it. */
  class Mysql {
    const address: nat
    const st: Dbl
    const cobref: Stmt

    constructor (address: nat, st: Dbl, cobref: Stmt)
      ensures this.address == address && this.st == st && this.cobref == cobref
    {
      this.address := address;
      this.st := st;
      this.cobref := cobref;
    }
  }

  class StmtHolder {
    var next: StmtHolder?
    const stmt: Mysql
    /** The bucket the holder was made for. */
    ghost const bucket: nat

    constructor (s: Mysql, ghost b: nat)
      ensures stmt == s && next == null && bucket == b
    {
      stmt := s;
      next := null;
      bucket := b;
    }
  }

  /** The holders of a chain, from its head to the end. */
  ghost predicate Linked(head: StmtHolder?, c: seq<StmtHolder>)
    reads c
  {
    && head == At(c, 0)
    && forall i :: 0 <= i < |c| ==> c[i].next == At(c, i + 1)
  }

  lemma FirstOf(head: StmtHolder?, c: seq<StmtHolder>)
    requires Linked(head, c)
    ensures head == At(c, 0)
  {
  }

  lemma Follow(head: StmtHolder?, c: seq<StmtHolder>, k: nat)
    requires Linked(head, c) && k < |c|
    ensures c[k].next == At(c, k + 1)
  {
  }

  /** Linked, but past place k. */
  ghost predicate Relinked(head: StmtHolder?, c: seq<StmtHolder>, k: nat)
    requires k < |c|
    reads c
  {
    && head == At(c, if k == 0 then 1 else 0)
    && forall i :: 0 <= i < |c| ==> c[i].next == At(c, if i + 1 == k then k + 1 else i + 1)
  }

  lemma WithoutHolder(head: StmtHolder?, c: seq<StmtHolder>, k: nat)
    requires k < |c| && Relinked(head, c, k)
    ensures Linked(head, c[..k] + c[k + 1..])
  {
    var c1 := c[..k] + c[k + 1..];
    forall j | 0 <= j < |c1| ensures c1[j].next == At(c1, j + 1) {
      var x := if j < k then j else j + 1;
      assert c1[j] == c[x];
      assert At(c1, j + 1) == At(c, if j + 1 < k then j + 1 else j + 2);
    }
  }

  function Bucket(m: Mysql, sz: nat): nat
    requires sz > 0
  {
    m.address % sz
  }

  ghost predicate InChain(m: Mysql, c: seq<StmtHolder>) {
    exists i :: 0 <= i < |c| && c[i].stmt == m
  }

  /** One bucket: holders made for it, of different members that hash to it. */
  ghost predicate TidyChain(c: seq<StmtHolder>, b: nat, sz: nat, holders: set<StmtHolder>, members: set<Mysql>)
    requires sz > 0
  {
    && (forall i :: 0 <= i < |c| ==>
          c[i] in holders && c[i].bucket == b && c[i].stmt in members && Bucket(c[i].stmt, sz) == b)
    && (forall i, j :: 0 <= i < j < |c| ==> c[i].stmt != c[j].stmt)
  }

  /** The buckets hold every member, where its hash puts it, once. */
  ghost predicate Tidy(chains: seq<seq<StmtHolder>>, holders: set<StmtHolder>, members: set<Mysql>) {
    && |chains| > 0
    && (forall b :: 0 <= b < |chains| ==> TidyChain(chains[b], b, |chains|, holders, members))
    && (forall m :: m in members ==> InChain(m, chains[Bucket(m, |chains|)]))
  }

  lemma TidyAppend(chains: seq<seq<StmtHolder>>, holders: set<StmtHolder>, members: set<Mysql>, v: StmtHolder)
    requires Tidy(chains, holders, members) && v.bucket == Bucket(v.stmt, |chains|)
    requires !InChain(v.stmt, chains[v.bucket])
    ensures Tidy(chains[v.bucket := chains[v.bucket] + [v]], holders + {v}, members + {v.stmt}) && v.stmt !in members
  {
    var b, c := v.bucket, chains[v.bucket];
    var chains1 := chains[b := c + [v]];
    forall m | m in members + {v.stmt} ensures InChain(m, chains1[Bucket(m, |chains|)]) {
      if m == v.stmt {
        assert (c + [v])[|c|].stmt == m;
      } else if Bucket(m, |chains|) == b {
        var i :| 0 <= i < |c| && c[i].stmt == m;
        assert (c + [v])[i].stmt == m;
      }
    }
  }

  lemma TidyRemove(chains: seq<seq<StmtHolder>>, holders: set<StmtHolder>, members: set<Mysql>, b: nat, k: nat)
    requires Tidy(chains, holders, members) && b < |chains| && k < |chains[b]|
    ensures var m := chains[b][k].stmt;
      m in members && Tidy(chains[b := chains[b][..k] + chains[b][k + 1..]], holders, members - {m})
  {
    var c, m := chains[b], chains[b][k].stmt;
    var c1 := c[..k] + c[k + 1..];
    var chains1 := chains[b := c1];
    forall x | x in members - {m} ensures InChain(x, chains1[Bucket(x, |chains|)]) {
      if Bucket(x, |chains|) == b {
        var i :| 0 <= i < |c| && c[i].stmt == x;
        assert c1[if i < k then i else i - 1].stmt == x;
      }
    }
    forall d | 0 <= d < |chains| ensures TidyChain(chains1[d], d, |chains|, holders, members - {m}) {
      if d == b {
        assert forall i :: 0 <= i < |c1| ==> c1[i] == c[if i < k then i else i + 1];
      } else {
        assert forall i :: 0 <= i < |chains[d]| ==> Bucket(chains[d][i].stmt, |chains|) == d;
      }
    }
  }

  /** The statement points to nothing and is to be prepared anew. */
  ghost predicate Free(s: Stmt)
    reads s
  {
    s.iptr == null && s.prep == 'N' && s.confirmed == 0
  }

  /** Destroying a statement takes its pointer out of the COBOL program. */
  method Destroy(m: Mysql)
    modifies m.cobref
    ensures Free(m.cobref)
  {
    m.cobref.iptr := null;
    m.cobref.prep := 'N';
    m.cobref.confirmed := 0;
  }

  ghost function OwnersIn(c: seq<StmtHolder>): set<Stmt> {
    set i | 0 <= i < |c| :: c[i].stmt.cobref
  }

  method DestroyChain(head: StmtHolder?, ghost c: seq<StmtHolder>)
    requires Linked(head, c)
    modifies OwnersIn(c)
    ensures forall s :: s in OwnersIn(c) ==> Free(s)
  {
    hide Linked;
    ghost var k := 0;
    var h := head;
    FirstOf(head, c);
    while h != null
      invariant k <= |c| && h == At(c, k)
      invariant forall i :: 0 <= i < k ==> Free(c[i].stmt.cobref)
      decreases |c| - k
    {
      Follow(head, c, k);
      var h2 := h;
      h := h.next;
      Destroy(h2.stmt);
      k := k + 1;
    }
  }

  class StmtCache {
    const data: array<StmtHolder?>
    var count: int
    ghost var chains: seq<seq<StmtHolder>>
    ghost var holders: set<StmtHolder>
    ghost var members: set<Mysql>

    ghost predicate Valid()
      reads this, data, holders
    {
      && data.Length > 0 && |chains| == data.Length && count == |members|
      && Tidy(chains, holders, members)
      && (forall b :: 0 <= b < |chains| ==> Linked(data[b], chains[b]))
    }

    constructor (sz: nat)
      requires sz > 0
      ensures Valid() && fresh(data) && members == {} && holders == {}
    {
      data := new StmtHolder?[sz](_ => null);
      count := 0;
      chains := seq(sz, i => []);
      holders := {};
      members := {};
    }

    /** Follow a bucket to a statement; prev is the holder in front of it, or the last one. */
    method Search(m: Mysql, i: nat) returns (prev: StmtHolder?, h: StmtHolder?, ghost k: nat)
      requires Valid() && i < data.Length
      ensures k <= |chains[i]| && prev == At(chains[i], k - 1)
      ensures h == At(chains[i], k)
      ensures if h == null then !InChain(m, chains[i]) else h.stmt == m
    {
      hide Tidy;
      prev, h, k := null, data[i], 0;
      assert Linked(data[i], chains[i]);
      while h != null && h.stmt != m
        invariant k <= |chains[i]| && prev == At(chains[i], k - 1)
        invariant h == At(chains[i], k)
        invariant forall j :: 0 <= j < k ==> chains[i][j].stmt != m
        decreases |chains[i]| - k
      {
        Follow(data[i], chains[i], k);
        prev, h, k := h, h.next, k + 1;
      }
    }

    /** Link a holder behind the last one of its bucket. */
    method Append(prev: StmtHolder?, v: StmtHolder, i: nat)
      requires Valid() && i < data.Length && v !in holders && v.next == null
      requires prev == At(chains[i], |chains[i]| - 1)
      modifies data, holders
      ensures Linked(data[i], chains[i] + [v])
      ensures forall b :: 0 <= b < |chains| && b != i ==> Linked(data[b], chains[b])
      ensures unchanged(v)
    {
      hide Tidy;
      ghost var c := chains[i];
      assert Linked(data[i], c);
      if prev == null {
        data[i] := v;
      } else {
        Apart(chains, holders, members, i, |c| - 1);
        prev.next := v;
      }
    }

    /** Take a holder out of its bucket. */
    method Unlink(prev: StmtHolder?, h: StmtHolder, i: nat, ghost k: nat)
      requires Valid() && i < data.Length && k < |chains[i]| && h == chains[i][k]
      requires prev == At(chains[i], k - 1)
      modifies data, holders
      ensures Linked(data[i], chains[i][..k] + chains[i][k + 1..])
      ensures forall b :: 0 <= b < |chains| && b != i ==> Linked(data[b], chains[b])
    {
      hide Tidy, Linked, Relinked;
      Bypass(prev, h, i, k);
      WithoutHolder(data[i], chains[i], k);
    }

    /** Link what is in front of a holder to what is behind it. */
    method Bypass(prev: StmtHolder?, h: StmtHolder, i: nat, ghost k: nat)
      requires Valid() && i < data.Length && k < |chains[i]| && h == chains[i][k]
      requires prev == At(chains[i], k - 1)
      modifies data, holders
      ensures Relinked(data[i], chains[i], k)
      ensures forall b :: 0 <= b < |chains| && b != i ==> Linked(data[b], chains[b])
    {
      hide Tidy, Linked, Relinked;
      if prev == null {
        BypassFirst(h, i);
      } else {
        Apart(chains, holders, members, i, k - 1);
        BypassBehind(prev, h, i, k);
      }
    }

    method BypassFirst(h: StmtHolder, i: nat)
      requires Valid() && i < data.Length && 0 < |chains[i]| && h == chains[i][0]
      modifies data
      ensures Relinked(data[i], chains[i], 0)
      ensures forall b :: 0 <= b < |chains| && b != i ==> Linked(data[b], chains[b])
    {
      hide Tidy;
      ghost var c := chains[i];
      assert Linked(data[i], c);
      data[i] := h.next;
    }

    method BypassBehind(prev: StmtHolder, h: StmtHolder, i: nat, ghost k: nat)
      requires Valid() && i < data.Length && 0 < k < |chains[i]| && h == chains[i][k] && prev == chains[i][k - 1]
      requires prev in holders && forall j :: 0 <= j < |chains[i]| && chains[i][j] == prev ==> j == k - 1
      requires forall d, j :: 0 <= d < |chains| && d != i && 0 <= j < |chains[d]| ==> chains[d][j] != prev
      modifies prev
      ensures Relinked(data[i], chains[i], k)
      ensures forall b :: 0 <= b < |chains| && b != i ==> Linked(data[b], chains[b])
    {
      hide Tidy, At, Valid;
      AllLinked(i);
      prev.next := h.next;
    }

    lemma AllLinked(i: nat)
      requires Valid() && i < data.Length
      ensures |chains| == data.Length && Linked(data[i], chains[i])
      ensures forall b :: 0 <= b < |chains| ==> Linked(data[b], chains[b])
    {
    }

    /** Remove a statement and destroy it. */
    method Remove(m: Mysql)
      requires Valid()
      modifies this, data, holders, m.cobref
      ensures Valid() && members == old(members) - {m} && holders == old(holders)
      ensures m in old(members) ==> Free(m.cobref)
      ensures m !in old(members) ==> unchanged(m.cobref)
    {
      hide Tidy, Linked;
      var i := Bucket(m, data.Length);
      var prev, h, k := Search(m, i);
      if h == null {
        NoMember(chains, holders, members, m);
        return;
      }
      TidyRemove(chains, holders, members, i, k);
      Unlink(prev, h, i, k);
      count := count - 1;
      chains, members := chains[i := chains[i][..k] + chains[i][k + 1..]], members - {m};
      Destroy(m);
    }

    /** The COBOL statements that point into the cache. */
    ghost function Owners(): set<Stmt>
      reads this
    {
      set m | m in members :: m.cobref
    }

    /** Destroy all statements. */
    method Clear()
      requires Valid()
      modifies this, data, Owners()
      ensures Valid() && members == {} && holders == {}
      ensures forall s :: s in old(Owners()) ==> Free(s)
    {
      hide Tidy, Linked, OwnersIn;
      ghost var freed: set<Stmt> := {};
      for i := 0 to data.Length
        invariant forall b :: 0 <= b < i ==> data[b] == null
        invariant forall b :: i <= b < data.Length ==> Linked(data[b], chains[b])
        invariant forall b :: 0 <= b < i ==> OwnersIn(chains[b]) <= freed
        invariant forall s :: s in freed ==> Free(s)
        modifies data, Owners()
      {
        OwnersOfChain(this, i);
        DestroyChain(data[i], chains[i]);
        freed := freed + OwnersIn(chains[i]);
        data[i] := null;
      }
      forall m | m in members ensures m.cobref in freed {
        OwnerInChain(chains, holders, members, m);
      }
      count := 0;
      chains, holders, members := seq(|chains|, i => []), {}, {};
      TidyEmpty(chains);
    }

    /** Put a statement in at the end of its bucket, unless it is there. */
    method Put(m: Mysql)
      requires Valid()
      modifies this, data, holders
      ensures Valid() && members == old(members) + {m} && fresh(holders - old(holders))
    {
      hide Tidy, Linked;
      var i := Bucket(m, data.Length);
      var prev, h, k := Search(m, i);
      if h != null {
        AMember(chains, holders, members, i, k);
        return;
      }
      var v := new StmtHolder(m, i);
      TidyAppend(chains, holders, members, v);
      Append(prev, v, i);
      count := count + 1;
      chains, holders, members := chains[i := chains[i] + [v]], holders + {v}, members + {m};
    }
  }

  /** A holder is in one place only. */
  lemma Apart(chains: seq<seq<StmtHolder>>, holders: set<StmtHolder>, members: set<Mysql>, b: nat, k: nat)
    requires Tidy(chains, holders, members) && b < |chains| && k < |chains[b]|
    ensures chains[b][k] in holders
    ensures forall j :: 0 <= j < |chains[b]| && chains[b][j] == chains[b][k] ==> j == k
    ensures forall d, j :: 0 <= d < |chains| && d != b && 0 <= j < |chains[d]| ==> chains[d][j] != chains[b][k]
  {
    assert TidyChain(chains[b], b, |chains|, holders, members);
    forall d, j | 0 <= d < |chains| && d != b && 0 <= j < |chains[d]| ensures chains[d][j] != chains[b][k] {
      assert TidyChain(chains[d], d, |chains|, holders, members);
    }
  }

  lemma NoMember(chains: seq<seq<StmtHolder>>, holders: set<StmtHolder>, members: set<Mysql>, m: Mysql)
    requires Tidy(chains, holders, members) && !InChain(m, chains[Bucket(m, |chains|)])
    ensures m !in members
  {
  }

  lemma TidyEmpty(chains: seq<seq<StmtHolder>>)
    requires |chains| > 0 && forall b :: 0 <= b < |chains| ==> chains[b] == []
    ensures Tidy(chains, {}, {}) && forall b :: 0 <= b < |chains| ==> Linked(null, chains[b])
  {
  }

  lemma OwnerInChain(chains: seq<seq<StmtHolder>>, holders: set<StmtHolder>, members: set<Mysql>, m: Mysql)
    requires Tidy(chains, holders, members) && m in members
    ensures m.cobref in OwnersIn(chains[Bucket(m, |chains|)])
  {
    var c := chains[Bucket(m, |chains|)];
    var i :| 0 <= i < |c| && c[i].stmt == m;
  }

  lemma OwnersOfChain(cs: StmtCache, b: nat)
    requires Tidy(cs.chains, cs.holders, cs.members) && b < |cs.chains|
    ensures OwnersIn(cs.chains[b]) <= cs.Owners()
  {
    assert TidyChain(cs.chains[b], b, |cs.chains|, cs.holders, cs.members);
  }

  lemma AMember(chains: seq<seq<StmtHolder>>, holders: set<StmtHolder>, members: set<Mysql>, b: nat, k: nat)
    requires Tidy(chains, holders, members) && b < |chains| && k < |chains[b]|
    ensures chains[b][k].stmt in members && Bucket(chains[b][k].stmt, |chains|) == b
  {
  }
}
