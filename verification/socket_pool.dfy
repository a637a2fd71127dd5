/**
 The pool of connections that are read in turn. Waiting for something to read looks at the connections and
 at the listening socket in ascending order, beginning behind the connection that was served last.
 */
module SocketPool {

  /** An ordered set. */
  predicate Ascending(s: seq<int>) {
    forall i, j :: 0 <= i < j < |s| ==> s[i] < s[j]
  }

  function IndexIn(s: seq<int>, x: int): (i: int)
    ensures -1 <= i < |s|
    ensures i >= 0 ==> s[i] == x
    ensures i < 0 ==> x !in s
  {
    if |s| == 0 then -1
    else if s[|s| - 1] == x then |s| - 1
    else IndexIn(s[..|s| - 1], x)
  }

  /** The order in which the sockets are looked at: from behind the last one served, round to it. */
  function Turn(socks: seq<int>, last: int): (t: seq<int>)
    ensures |t| == |socks|
  {
    var i := IndexIn(socks, last);
    socks[i + 1..] + socks[..i + 1]
  }

  /** Position of the first readable socket, or the length. */
  function FirstReady(t: seq<int>, ready: set<int>): (k: nat)
    ensures k <= |t|
    ensures k < |t| ==> t[k] in ready
    ensures forall j :: 0 <= j < k ==> t[j] !in ready
  {
    if |t| == 0 || t[0] in ready then 0
    else
      var k := FirstReady(t[1..], ready);
      assert forall j :: 1 <= j < k + 1 ==> t[j] == t[1..][j - 1];
      k + 1
  }

  datatype Answer = Timeout | InPool | Accepted | Read(socket: int)

  /** Look at the sockets in turn; at is the place of the one found. */
  method SelectRead(socks: seq<int>, ready: set<int>, beginAfter: int) returns (found: bool, result: int)
    ensures var t := Turn(socks, beginAfter);
      && found == (FirstReady(t, ready) < |t|)
      && (found ==> result == t[FirstReady(t, ready)])
  {
    hide Turn, IndexIn, FirstReady;
    found, result := false, -1;
    if |socks| == 0 {
      return;
    }
    ghost var t := Turn(socks, beginAfter);
    var it := |socks|;
    var f := IndexIn(socks, beginAfter);
    if f >= 0 {
      it := f + 1;
    }
    if it == |socks| {
      it := 0;
    }
    TurnAt(socks, beginAfter, 0);
    for i := 0 to |socks|
      invariant 0 <= it < |socks| && (i < |socks| ==> t[i] == socks[it] && it == Wrap(f + 1 + i, |socks|))
      invariant forall j :: 0 <= j < i ==> t[j] !in ready
    {
      if socks[it] in ready {
        FirstIs(t, ready, i);
        return true, socks[it];
      }
      it := it + 1;
      if it == |socks| {
        it := 0;
      }
      if i + 1 < |socks| {
        TurnAt(socks, beginAfter, i + 1);
      }
    }
    FirstIs(t, ready, |t|);
  }

  function Wrap(i: int, n: int): int {
    if i < n then i else i - n
  }

  lemma TurnAt(socks: seq<int>, last: int, i: nat)
    requires i < |socks|
    ensures Turn(socks, last)[i] == socks[Wrap(IndexIn(socks, last) + 1 + i, |socks|)]
  {
    hide IndexIn;
  }

  lemma FirstIs(t: seq<int>, ready: set<int>, k: nat)
    requires k <= |t| && (forall j :: 0 <= j < k ==> t[j] !in ready) && (k < |t| ==> t[k] in ready)
    ensures FirstReady(t, ready) == k
  {
  }

  function Inserted(s: seq<int>, x: int): (r: seq<int>)
    requires Ascending(s) && x !in s
    ensures Ascending(r) && |r| == |s| + 1 && forall y :: y in r <==> y in s || y == x
  {
    if |s| == 0 || s[|s| - 1] < x then s + [x]
    else
      var r := Inserted(s[..|s| - 1], x);
      assert s == s[..|s| - 1] + [s[|s| - 1]];
      assert forall i :: 0 <= i < |r| ==> r[i] in r;
      r + [s[|s| - 1]]
  }

  class Pool {
    var sockets: seq<int>
    var last: int

    constructor ()
      ensures sockets == [] && last == -1
    {
      sockets := [];
      last := -1;
    }

    /**
     Wait for a new connection or for something to read; `accepted` is the connection a waiting caller gets,
     negative if accepting it fails.
     Only a connection that is read from is remembered as the last one served.
     */
    method NextRead(srv: int, ready: set<int>, accepted: int) returns (a: Answer)
      requires Ascending(sockets)
      modifies this
      ensures Ascending(sockets)
      ensures a == Next(old(sockets), srv, old(last), ready)
      ensures last == LastAfter(old(last), a)
      ensures sockets == Joined(old(sockets), a, accepted)
    {
      if IndexIn(sockets, srv) >= 0 {
        return InPool;
      }
      var socks := Inserted(sockets, srv);
      var found, s := SelectRead(socks, ready, last);
      if !found {
        return Timeout;
      }
      if s == srv {
        if accepted >= 0 && IndexIn(sockets, accepted) < 0 {
          sockets := Inserted(sockets, accepted);
        }
        return Accepted;
      }
      last := s;
      a := Read(s);
    }
  }

  // ---------- whose turn it is ----------

  /** The answer to a call: the first readable socket in turn. */
  function Next(conns: seq<int>, srv: int, last: int, ready: set<int>): Answer
    requires Ascending(conns)
  {
    if srv in conns then InPool
    else
      var t := Turn(Inserted(conns, srv), last);
      var k := FirstReady(t, ready);
      if k == |t| then Timeout else if t[k] == srv then Accepted else Read(t[k])
  }

  function LastAfter(last: int, a: Answer): int {
    if a.Read? then a.socket else last
  }

  /** The connections after a call: a caller that is accepted joins them. */
  function Joined(conns: seq<int>, a: Answer, accepted: int): (r: seq<int>)
    requires Ascending(conns)
    ensures Ascending(r)
    ensures forall s :: s in r <==> s in conns || (a == Accepted && accepted >= 0 && s == accepted)
  {
    if a == Accepted && accepted >= 0 && accepted !in conns then Inserted(conns, accepted) else conns
  }

  /** One call: what is readable, and the connection a waiting caller would get, negative if accepting it fails. */
  datatype Call = Call(ready: set<int>, accepted: int)

  /** The answers to a row of calls. */
  function Answers(conns: seq<int>, srv: int, last: int, calls: seq<Call>): (a: seq<Answer>)
    requires Ascending(conns)
    ensures |a| == |calls|
    decreases |calls|
  {
    if |calls| == 0 then []
    else
      var first := Next(conns, srv, last, calls[0].ready);
      [first] + Answers(Joined(conns, first, calls[0].accepted), srv, LastAfter(last, first), calls[1..])
  }

  lemma {:induction false} IndexUnique(s: seq<int>, k: nat)
    requires Ascending(s) && k < |s|
    ensures IndexIn(s, s[k]) == k
  {
    if k < |s| - 1 {
      IndexUnique(s[..|s| - 1], k);
    }
  }

  /** Serving the p-th in turn turns the order by p + 1. */
  lemma TurnAgain(socks: seq<int>, last: int, p: nat)
    requires Ascending(socks) && p < |socks|
    ensures var t := Turn(socks, last); Turn(socks, t[p]) == t[p + 1..] + t[..p + 1]
  {
    hide *;
    var f := IndexIn(socks, last) + 1;
    var a, b := socks[f..], socks[..f];
    assert socks == b + a;
    TurnIs(socks, last, f - 1);
    if p < |a| {
      TurnInFront(socks, b, a[..p + 1], a[p + 1..]);
      assert a == a[..p + 1] + a[p + 1..];
    } else {
      TurnBehind(socks, b[..p - |a| + 1], b[p - |a| + 1..], a);
      assert b == b[..p - |a| + 1] + b[p - |a| + 1..];
    }
  }

  lemma TurnInFront(socks: seq<int>, b: seq<int>, x: seq<int>, y: seq<int>)
    requires Ascending(socks) && socks == b + (x + y) && |x| > 0
    ensures var t := (x + y) + b; Turn(socks, t[|x| - 1]) == t[|x|..] + t[..|x|]
  {
    hide *;
    Regrouped(b, x, y);
    ServedAt(socks, |b| + |x| - 1);
  }

  lemma TurnBehind(socks: seq<int>, x: seq<int>, y: seq<int>, a: seq<int>)
    requires Ascending(socks) && socks == (x + y) + a && |x| > 0
    ensures var t := a + (x + y); Turn(socks, t[|a| + |x| - 1]) == t[|a| + |x|..] + t[..|a| + |x|]
  {
    hide *;
    Regrouped(x, y, a);
    Regrouped(a, x, y);
    ServedAt(socks, |x| - 1);
  }

  lemma ServedAt(socks: seq<int>, i: nat)
    requires Ascending(socks) && i < |socks|
    ensures Turn(socks, socks[i]) == socks[i + 1..] + socks[..i + 1]
  {
    hide IndexIn;
    IndexUnique(socks, i);
  }

  lemma TurnIs(socks: seq<int>, last: int, i: int)
    requires -1 <= i < |socks|
    ensures IndexIn(socks, last) == i ==> Turn(socks, last) == socks[i + 1..] + socks[..i + 1]
  {
  }

  lemma Regrouped(a: seq<int>, b: seq<int>, c: seq<int>)
    ensures a + (b + c) == (a + b) + c
    ensures (a + (b + c))[|a| + |b|..] == c && (a + (b + c))[..|a| + |b|] == a + b
    ensures ((a + b) + c)[..|a|] == a && ((a + b) + c)[|a|..] == b + c
    ensures ((b + c) + a)[|b|..] == c + a && ((b + c) + a)[..|b|] == b
    ensures (c + a) + b == c + (a + b)
  {
  }

  /** Connections in front of position k, the listener not counted. */
  function Ahead(t: seq<int>, srv: int, k: nat): nat
    requires k <= |t|
  {
    if k == 0 then 0 else Ahead(t, srv, k - 1) + if t[k - 1] == srv then 0 else 1
  }

  lemma {:induction false} AheadShifts(t: seq<int>, u: seq<int>, srv: int, p: nat, k: nat)
    requires p + k <= |t| && k <= |u| && forall j :: 0 <= j < k ==> u[j] == t[p + j]
    ensures Ahead(t, srv, p + k) == Ahead(t, srv, p) + Ahead(u, srv, k)
  {
    if k > 0 {
      AheadShifts(t, u, srv, p, k - 1);
    }
  }

  lemma {:induction false} AheadBound(t: seq<int>, srv: int, k: nat, l: nat)
    requires k < l <= |t| && t[k] == srv
    ensures Ahead(t, srv, l) < l
  {
    if l - 1 == k {
      AheadAtMost(t, srv, k);
    } else {
      AheadBound(t, srv, k, l - 1);
    }
  }

  lemma {:induction false} AheadAtMost(t: seq<int>, srv: int, k: nat)
    requires k <= |t|
    ensures Ahead(t, srv, k) <= k
  {
    if k > 0 {
      AheadAtMost(t, srv, k - 1);
    }
  }

  /**
   With more calls than connections in front of it, none of them for the listener, a readable connection is served.
   */
  lemma {:induction false} ServedInTurn(conns: seq<int>, srv: int, last: int, calls: seq<Call>, x: int, k: nat)
    requires Ascending(conns) && srv !in conns && x != srv
    requires var t := Turn(Inserted(conns, srv), last);
      k < |t| && t[k] == x && Ahead(t, srv, k) < |calls|
    requires forall i :: 0 <= i < |calls| ==> x in calls[i].ready && srv !in calls[i].ready
    ensures Read(x) in Answers(conns, srv, last, calls)
    decreases |calls|
  {
    hide Turn, Inserted, FirstReady, Ahead;
    var socks := Inserted(conns, srv);
    var t := Turn(socks, last);
    var p := FirstReady(t, calls[0].ready);
    assert p <= k && t[p] != srv;
    var first := Read(t[p]);
    assert Next(conns, srv, last, calls[0].ready) == first;
    if p < k {
      var u := Turn(socks, t[p]);
      TurnAgain(socks, last, p);
      var q := k - (p + 1);
      forall j | 0 <= j <= q ensures u[j] == t[p + 1 + j] {
      }
      AheadShifts(t, u, srv, p + 1, q);
      OneMore(t, srv, p);
      ServedInTurn(conns, srv, t[p], calls[1..], x, q);
    }
  }

  lemma OneMore(t: seq<int>, srv: int, p: nat)
    requires p < |t| && t[p] != srv
    ensures Ahead(t, srv, p + 1) >= 1
  {
  }

  lemma TurnHas(socks: seq<int>, last: int, x: int) returns (k: nat)
    requires x in socks
    ensures k < |socks| && Turn(socks, last)[k] == x
  {
    hide IndexIn;
    var f := IndexIn(socks, last) + 1;
    var i :| 0 <= i < |socks| && socks[i] == x;
    k := if i >= f then i - f else i + (|socks| - f);
  }

  /**
   Bounded waiting: while nobody asks the listener for a connection, a connection that stays readable is
   served within as many calls as there are connections, wherever the turn stands and whatever else is readable.
   */
  lemma BoundedWaiting(conns: seq<int>, srv: int, last: int, calls: seq<Call>, x: int)
    requires Ascending(conns) && srv !in conns && x in conns && |calls| >= |conns|
    requires forall i :: 0 <= i < |calls| ==> x in calls[i].ready && srv !in calls[i].ready
    ensures Read(x) in Answers(conns, srv, last, calls)
  {
    hide Turn, Inserted, Ahead;
    var socks := Inserted(conns, srv);
    var t := Turn(socks, last);
    var k := TurnHas(socks, last, x);
    var s := TurnHas(socks, last, srv);
    FewerAhead(t, srv, s, k);
    ServedInTurn(conns, srv, last, calls, x, k);
  }

  /** At most all connections but the one at k are in front of it. */
  lemma FewerAhead(t: seq<int>, srv: int, s: nat, k: nat)
    requires s < |t| && t[s] == srv && k < |t| && k != s
    ensures Ahead(t, srv, k) < |t| - 1
  {
    if s < k {
      AheadBound(t, srv, s, k);
    } else {
      AheadAtMost(t, srv, k);
    }
  }

  // ---------- a listener that is always readable ----------

  /** One step of the turn when position p is served: everything behind it moves up by p + 1. */
  lemma MovesUp(conns: seq<int>, srv: int, last: int, p: nat)
    requires Ascending(conns) && srv !in conns
    requires p < |Turn(Inserted(conns, srv), last)|
    ensures var socks := Inserted(conns, srv);
      var t := Turn(socks, last);
      forall j :: p < j < |t| ==> Turn(socks, t[p])[j - (p + 1)] == t[j]
  {
    hide Turn, Inserted;
    TurnAgain(Inserted(conns, srv), last, p);
  }

  /** A connection in front of the listener that stays readable is served. */
  lemma {:induction false} InFrontIsServed(conns: seq<int>, srv: int, last: int, calls: seq<Call>, x: int, k: nat)
    requires Ascending(conns) && srv !in conns && k < |calls|
    requires var t := Turn(Inserted(conns, srv), last);
      k < |t| && t[k] == x && forall j :: 0 <= j <= k ==> t[j] != srv
    requires forall i :: 0 <= i < |calls| ==> x in calls[i].ready
    ensures Read(x) in Answers(conns, srv, last, calls)
    decreases |calls|
  {
    hide Turn, Inserted, FirstReady;
    var t := Turn(Inserted(conns, srv), last);
    var p := FirstReady(t, calls[0].ready);
    assert p <= k && Next(conns, srv, last, calls[0].ready) == Read(t[p]);
    if p < k {
      MovesUp(conns, srv, last, p);
      var u := Turn(Inserted(conns, srv), t[p]);
      forall j | 0 <= j <= k - (p + 1) ensures u[j] == t[j + p + 1] {
      }
      InFrontIsServed(conns, srv, t[p], calls[1..], x, k - (p + 1));
    }
  }

  /** Does socket a come before socket b, looking from behind the last one served? */
  predicate Precedes(socks: seq<int>, last: int, a: int, b: int) {
    if last in socks && (a > last) != (b > last) then a > last else a < b
  }

  lemma OrderOfTurn(socks: seq<int>, last: int, i: nat, j: nat)
    requires Ascending(socks) && i < |socks| && j < |socks| && i != j
    ensures var t := Turn(socks, last); t[i] != t[j] && (i < j <==> Precedes(socks, last, t[i], t[j]))
  {
    hide Turn, IndexIn;
    TurnAt(socks, last, i);
    TurnAt(socks, last, j);
    assert IndexIn(socks, last) < 0 ==> last !in socks;
  }

  /** Serving a socket keeps the order of those behind it. */
  lemma StillPrecedes(socks: seq<int>, last: int, served: int, a: int, b: int)
    requires served in socks && Precedes(socks, last, served, a) && Precedes(socks, last, a, b)
    ensures Precedes(socks, served, a, b)
  {
  }

  /** The new connections are neither the listener nor, if it is gone, the connection that was served last. */
  ghost predicate NewSockets(conns: seq<int>, srv: int, last: int, calls: seq<Call>) {
    forall i :: 0 <= i < |calls| ==> calls[i].accepted != srv && (calls[i].accepted == last ==> last in conns)
  }

  /** A connection behind a listener that stays readable is never served, whoever joins the connections. */
  lemma {:induction false} BehindIsNotServed(conns: seq<int>, srv: int, last: int, calls: seq<Call>, x: int)
    requires Ascending(conns) && srv !in conns && x in conns && NewSockets(conns, srv, last, calls)
    requires Precedes(Inserted(conns, srv), last, srv, x)
    requires forall i :: 0 <= i < |calls| ==> srv in calls[i].ready
    ensures Read(x) !in Answers(conns, srv, last, calls)
    decreases |calls|
  {
    hide Turn, Inserted, FirstReady;
    if |calls| > 0 {
      var socks := Inserted(conns, srv);
      var t := Turn(socks, last);
      var s := TurnHas(socks, last, srv);
      var k := TurnHas(socks, last, x);
      OrderOfTurn(socks, last, s, k);
      var p := FirstReady(t, calls[0].ready);
      var first := Next(conns, srv, last, calls[0].ready);
      assert p <= s;
      if p == s {
        assert first == Accepted;
        BehindIsNotServed(Joined(conns, first, calls[0].accepted), srv, last, calls[1..], x);
      } else {
        OrderOfTurn(socks, last, p, s);
        OrderOfTurn(socks, last, p, k);
        InTurn(socks, last, p);
        StillPrecedes(socks, last, t[p], srv, x);
        BehindIsNotServed(conns, srv, t[p], calls[1..], x);
      }
    }
  }

  lemma InTurn(socks: seq<int>, last: int, p: nat)
    requires p < |socks|
    ensures Turn(socks, last)[p] in socks
  {
    hide Turn;
    TurnAt(socks, last, p);
  }

  /**
   While the listener is always readable a connection that stays readable is ever served if and only if it comes
   before the listener in turn: otherwise it waits forever, however many calls there are and whoever joins.
   */
  lemma ListenerDecides(conns: seq<int>, srv: int, last: int, calls: seq<Call>, x: int)
    requires Ascending(conns) && srv !in conns && x in conns && |calls| > |conns| && NewSockets(conns, srv, last, calls)
    requires forall i :: 0 <= i < |calls| ==> srv in calls[i].ready && x in calls[i].ready
    ensures Read(x) in Answers(conns, srv, last, calls) <==> Precedes(Inserted(conns, srv), last, x, srv)
  {
    hide Turn, Inserted, Answers;
    var socks := Inserted(conns, srv);
    var t := Turn(socks, last);
    var s := TurnHas(socks, last, srv);
    var k := TurnHas(socks, last, x);
    OrderOfTurn(socks, last, k, s);
    if k < s {
      forall j | 0 <= j <= k ensures t[j] != srv {
        OrderOfTurn(socks, last, j, s);
      }
      InFrontIsServed(conns, srv, last, calls, x, k);
    } else {
      BehindIsNotServed(conns, srv, last, calls, x);
    }
  }
}
