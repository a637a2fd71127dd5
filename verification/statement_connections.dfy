/**
 Which connection a handle belongs to. A program may connect while it is connected: the connection it had is
 forgotten, and a disconnect closes the new one but leaves the cache as it is. Then handles stay that belong to a
 closed connection.
 */
module StatementConnections {
  import opened DatabaseHandles
  import opened StatementCache
  import opened StatementMachine

  /** The connection each handle of a statement was prepared on, by database. */
  ghost function Under(log: seq<Event>, s: Stmt): map<string, nat> {
    if |log| == 0 then map[]
    else
      var front := log[..|log| - 1];
      match log[|log| - 1]
      case Prepared(t, db, _) => if t == s then Under(front, s)[db := Connections(front)] else Under(front, s)
      case Dropped(t) => if t == s then map[] else Under(front, s)
      case AllCleared => map[]
      case _ => Under(front, s)
  }

  /** Every handle of a statement belongs to a connection, and there are no others. */
  lemma {:induction false} UnderIsLive(log: seq<Event>, s: Stmt)
    ensures Under(log, s).Keys == Live(log, s).Keys
  {
    if |log| > 0 {
      UnderIsLive(log[..|log| - 1], s);
    }
  }

  // ---------- a handle and its connection ----------

  /** Was there a disconnect after the first i events and before the next connect? */
  ghost predicate ClosedAfter(log: seq<Event>, i: nat)
    requires i <= |log|
  {
    exists j :: i <= j < |log| && log[j] == Detached && Connections(log[..j]) == Connections(log[..i])
  }

  /** Connections are counted by the connects. */
  lemma {:induction false} CountedByConnects(log: seq<Event>, i: nat, j: nat)
    requires i <= j <= |log|
    ensures Connections(log[..i]) <= Connections(log[..j])
    ensures Connections(log[..i]) == Connections(log[..j]) <==> forall k :: i <= k < j ==> log[k] != Attached
    decreases j
  {
    if i < j {
      CountedByConnects(log, i, j - 1);
      assert log[..j][..j - 1] == log[..j - 1];
    }
  }

  lemma ClosedNext(log: seq<Event>, i: nat)
    requires i < |log|
    ensures var front := log[..|log| - 1];
      ClosedAfter(log, i) <==>
      ClosedAfter(front, i) || (log[|log| - 1] == Detached && Connections(front) == Connections(front[..i]))
  {
    hide Connections;
    var n := |log| - 1;
    var front := log[..n];
    assert forall j :: 0 <= j <= n ==> front[..j] == log[..j];
    assert front[..n] == front;
    if ClosedAfter(front, i) {
      var j :| i <= j < |front| && front[j] == Detached && Connections(front[..j]) == Connections(front[..i]);
      assert log[j] == Detached && Connections(log[..j]) == Connections(log[..i]);
    }
    if ClosedAfter(log, i) {
      var j :| i <= j < |log| && log[j] == Detached && Connections(log[..j]) == Connections(log[..i]);
      assert j < n ==> front[j] == Detached && Connections(front[..j]) == Connections(front[..i]);
    }
  }

  /** A connection that was open after i events, and the last one then, is open unless it was closed since. */
  lemma {:induction false} OpenUnlessClosed(log: seq<Event>, i: nat)
    requires i <= |log| && IsConnected(log[..i])
    ensures Connections(log[..i]) in OpenIn(log) <==> !ClosedAfter(log, i)
    decreases |log|
  {
    if i == |log| {
      assert log[..i] == log;
    } else {
      var n := |log| - 1;
      var front, e := log[..n], log[n];
      assert front[..i] == log[..i];
      OpenUnlessClosed(front, i);
      ClosedNext(log, i);
      CountedByConnects(front, i, n);
      assert front[..n] == front;
    }
  }

  /** The connection of a handle is the last one when it was prepared. */
  lemma {:induction false} UnderSince(log: seq<Event>, s: Stmt, db: string, i: nat)
    requires i < |log| && log[i].Prepared? && log[i].s == s && log[i].db == db
    requires forall k :: i < k < |log| ==>
      !Forgets(log[k], s) && !(log[k].Prepared? && log[k].s == s && log[k].db == db)
    ensures db in Under(log, s) && Under(log, s)[db] == Connections(log[..i])
    decreases |log|
  {
    var n := |log| - 1;
    if i < n {
      UnderSince(log[..n], s, db, i);
      assert log[..n][..i] == log[..i];
    }
  }

  /**
   In any lawful log, a handle belongs to a connection that is open if and only if no disconnect has come between
   its preparation and the next connect.
   */
  lemma HandleOpenIff(log: seq<Event>, s: Stmt, db: string) returns (i: nat)
    requires Lawful(log) && db in Live(log, s)
    ensures i < |log| && log[i] == Prepared(s, db, Live(log, s)[db])
    ensures forall k :: i < k < |log| ==> !Forgets(log[k], s)
    ensures db in Under(log, s)
    ensures Under(log, s)[db] in OpenIn(log) <==>
      !exists j :: i < j < |log| && log[j] == Detached && forall k :: i < k < j ==> log[k] != Attached
  {
    hide Live, Lawful, Under, OpenIn, Connections, IsConnected, Allowed;
    i := LiveWasPrepared(log, s, db);
    forall k | i < k < |log| ensures !(log[k].Prepared? && log[k].s == s && log[k].db == db) {
      if log[k].Prepared? && log[k].s == s && log[k].db == db {
        PreparedOnce(log, i, k);
      }
    }
    UnderSince(log, s, db, i);
    PreparedConnected(log, i);
    OpenUnlessClosed(log, i);
    ClosedIs(log, i);
  }

  lemma PreparedConnected(log: seq<Event>, i: nat)
    requires Lawful(log) && i < |log| && log[i].Prepared?
    ensures IsConnected(log[..i])
  {
    hide Live, Lawful, IsConnected;
    LawfulPrefix(log, i);
  }

  lemma ClosedIs(log: seq<Event>, i: nat)
    requires i < |log| && log[i].Prepared?
    ensures ClosedAfter(log, i) <==>
      exists j :: i < j < |log| && log[j] == Detached && forall k :: i < k < j ==> log[k] != Attached
  {
    hide Connections;
    forall j | i <= j < |log|
      ensures Connections(log[..j]) == Connections(log[..i]) <==> forall k :: i <= k < j ==> log[k] != Attached
    {
      CountedByConnects(log, i, j);
    }
    if ClosedAfter(log, i) {
      var j :| i <= j < |log| && log[j] == Detached && Connections(log[..j]) == Connections(log[..i]);
      assert i < j && forall k :: i < k < j ==> log[k] != Attached;
    }
    if j :| i < j < |log| && log[j] == Detached && forall k :: i < k < j ==> log[k] != Attached {
      assert Connections(log[..j]) == Connections(log[..i]);
    }
  }

  // ---------- what keeps all handles on open connections ----------

  /** All handles of the program's statements belong to open connections. */
  ghost predicate AllOpen(w: World) {
    forall s, db :: s in w.stmts && db in Under(w.log, s) ==> Under(w.log, s)[db] in OpenIn(w.log)
  }

  /** Has a statement a handle that belongs to the last connection? */
  ghost predicate UsesLast(w: World) {
    exists s, db :: s in w.stmts && db in Under(w.log, s) && Under(w.log, s)[db] == Connections(w.log)
  }

  /** What one more event makes of connections and handles. */
  lemma OneMore(log: seq<Event>, e: Event, s: Stmt)
    ensures Connections(log + [e]) == Connections(log) + if e == Attached then 1 else 0
    ensures OpenIn(log + [e]) == if e == Attached then OpenIn(log) + {Connections(log) + 1}
                                 else if e == Detached then OpenIn(log) - {Connections(log)} else OpenIn(log)
    ensures Under(log + [e], s) == if Forgets(e, s) then map[]
                                   else if e.Prepared? && e.s == s then Under(log, s)[e.db := Connections(log)]
                                   else Under(log, s)
  {
    assert (log + [e])[..|log|] == log;
  }

  /** An event that is no disconnect keeps all handles on open connections. */
  lemma EventKeeps(w: World, e: Event)
    requires AllOpen(w) && e != Detached && (e.Prepared? ==> IsConnected(w.log))
    ensures AllOpen(w.(log := w.log + [e]))
  {
    hide Under, OpenIn, Connections;
    var w1 := w.(log := w.log + [e]);
    forall s, db | s in w1.stmts && db in Under(w1.log, s) ensures Under(w1.log, s)[db] in OpenIn(w1.log) {
      OneMore(w.log, e, s);
    }
  }

  /** A disconnect does if and only if no handle belongs to the last connection. */
  lemma DetachedKeepsIff(w: World)
    requires AllOpen(w)
    ensures AllOpen(w.(log := w.log + [Detached])) <==> !UsesLast(w)
  {
    hide Under, OpenIn, Connections;
    var w1 := w.(log := w.log + [Detached]);
    forall s | s in w.stmts
      ensures Under(w1.log, s) == Under(w.log, s) && OpenIn(w1.log) == OpenIn(w.log) - {Connections(w.log)}
    {
      OneMore(w.log, Detached, s);
    }
    if UsesLast(w) {
      var s, db :| s in w.stmts && db in Under(w.log, s) && Under(w.log, s)[db] == Connections(w.log);
      assert db in Under(w1.log, s) && Under(w1.log, s)[db] !in OpenIn(w1.log);
    }
  }

  lemma ClearedKeeps(w: World)
    ensures AllOpen(w.(log := w.log + [AllCleared])) && !UsesLast(w.(log := w.log + [AllCleared]))
  {
    hide Under, OpenIn, Connections;
    var w1 := w.(log := w.log + [AllCleared]);
    forall s | s in w.stmts ensures Under(w1.log, s) == map[] {
      OneMore(w.log, AllCleared, s);
    }
  }

  lemma SameLog(w: World, w1: World)
    requires w1.log == w.log && w1.stmts.Keys == w.stmts.Keys
    ensures AllOpen(w1) == AllOpen(w) && UsesLast(w1) == UsesLast(w)
  {
    hide Under, OpenIn, Connections;
  }

  /**
   Exactly when an operation leaves a handle on a closed connection: when it is a disconnect that is not the last
   one, and a handle belongs to the connection it closes.
   */
  lemma StaysOpenIff(w: World, op: Op)
    requires Good(w) && Meant(w.stmts.Keys, op) && AllOpen(w)
    ensures AllOpen(Next(w, op).0) <==> !(op == DoDisconnect && !w.closed && w.nConn != 1 && UsesLast(w))
  {
    hide AllOpen, UsesLast, Good, Prepare, Execute, Switched;
    KeepsStatements(w, op);
    var w1 := Next(w, op).0;
    match op
    case DoConnect(name) =>
      SwitchedLog(w, name);
      EventKeeps(w, Attached);
      SameLog(w.(log := w.log + [Attached]), w1);
    case DoDisconnect => DisconnectKeepsIff(w);
    case DoPrepare(s, _, odbc) => PrepareKeeps(w, s, odbc);
    case DoExecute(s) => ExecuteKeeps(w, s);
    case DoSetMax(_) => SameLog(w, w1);
    case DoSwitch(name) =>
      SwitchedLog(w, name);
      SameLog(w, w1);
    case DoForce(_) => SameLog(w, w1);
  }

  lemma SwitchedLog(w: World, name: string)
    ensures Switched(w, name).log == w.log && Switched(w, name).stmts == w.stmts
  {
  }

  lemma DisconnectKeepsIff(w: World)
    requires AllOpen(w)
    ensures AllOpen(Next(w, DoDisconnect).0) <==> !(!w.closed && w.nConn != 1 && UsesLast(w))
  {
    hide AllOpen, UsesLast;
    var w1 := Next(w, DoDisconnect).0;
    if w.closed {
    } else if w.nConn != 1 {
      DetachedKeepsIff(w);
      SameLog(w.(log := w.log + [Detached]), w1);
    } else {
      ClearedKeeps(w);
      DetachedKeepsIff(w.(log := w.log + [AllCleared]));
      SameLog(w.(log := w.log + [AllCleared] + [Detached]), w1);
    }
  }

  lemma PrepareKeeps(w: World, s: Stmt, odbc: Odbc)
    requires Good(w) && s in w.stmts && AllOpen(w)
    ensures AllOpen(Prepare(w, s, odbc).0)
  {
    hide AllOpen, UsesLast, Live, Lawful, IsConnected, Tried, Reset, GoodView;
    var w1 := Prepare(w, s, odbc).0;
    if w.closed {
      SameLog(w, w1);
    } else {
      var dropped := DropEvents(w.stmts[s], s);
      var w0 := w.(log := w.log + dropped);
      GoodDrop(w, s);
      if dropped == [] {
        assert w0.log == w.log;
        SameLog(w, w0);
      } else {
        assert dropped == [Dropped(s)];
        EventKeeps(w, Dropped(s));
      }
      var v := Reset(w.stmts[s]);
      if v.prep == 'N' && Tried(w.base, v, odbc).2 {
        var e := Prepared(s, CurrentName(w.base), odbc.handle);
        EventKeeps(w0, e);
        SameLog(w0.(log := w0.log + [e]), w1);
      } else {
        assert w0.log + [] == w0.log;
        SameLog(w0, w1);
      }
    }
  }

  lemma ExecuteKeeps(w: World, s: Stmt)
    requires s in w.stmts && AllOpen(w)
    ensures AllOpen(Execute(w, s).0)
  {
    hide AllOpen, UsesLast, Settled;
    var w1 := Execute(w, s).0;
    if w1.log == w.log {
      SameLog(w, w1);
    } else {
      var e := w1.log[|w.log|];
      EventKeeps(w, e);
      SameLog(w.(log := w.log + [e]), w1);
    }
  }

  // ---------- programs that connect only when they are not connected ----------

  ghost predicate OneAtATime(w: World, ops: seq<Op>)
    requires AllMeant(w.stmts.Keys, ops)
    decreases |ops|
  {
    |ops| > 0 ==>
      && (ops[0].DoConnect? ==> w.closed)
      && (KeepsStatements(w, ops[0]); OneAtATime(Next(w, ops[0]).0, ops[1..]))
  }

  ghost predicate Single(w: World) {
    w.nConn == if w.closed then 0 else 1
  }

  /** Over any run that connects only when it is not connected, every handle belongs to a connection that is open. */
  lemma {:induction false} OneConnection(w: World, ops: seq<Op>)
    requires Good(w) && AllMeant(w.stmts.Keys, ops) && OneAtATime(w, ops) && Single(w) && AllOpen(w)
    ensures Single(Ran(w, ops).0) && AllOpen(Ran(w, ops).0)
    decreases |ops|
  {
    hide Good, Next, AllOpen, UsesLast;
    if |ops| > 0 {
      KeepsStatements(w, ops[0]);
      GoodNext(w, ops[0]);
      StaysOpenIff(w, ops[0]);
      StaysSingle(w, ops[0]);
      OneConnection(Next(w, ops[0]).0, ops[1..]);
    }
  }

  lemma StaysSingle(w: World, op: Op)
    requires Meant(w.stmts.Keys, op) && Single(w) && (op.DoConnect? ==> w.closed)
    ensures Single(Next(w, op).0)
  {
  }

  // ---------- a program that does not ----------

  /**
   A program that connects twice, prepares, disconnects, and connects again executes with a handle of the
   connection it has closed.
   */
  lemma ClosedHandleExecuted(s: Stmt)
    ensures var ops := [DoConnect("A"), DoConnect("A"), DoPrepare(s, 0, Odbc(7, true, true)), DoDisconnect,
                        DoConnect("A"), DoExecute(s)];
      && AllMeant({s}, ops)
      && var (w, answers) := Ran(Begin(s), ops);
      && answers == [Done, Done, Done, Done, Done, Done]
      && w.log == [Attached, Attached, Prepared(s, "A", 7), Detached, Attached, Executed(s, "A", 7)]
      && "A" in Under(w.log, s) && Under(w.log, s)["A"] == 2 && 2 !in OpenIn(w.log)
  {
    hide *;
    var prep, p, e := DoPrepare(s, 0, Odbc(7, true, true)), Prepared(s, "A", 7), Executed(s, "A", 7);
    var w3 := World(false, 2, Base(-1, ["A"], 0), map[s := View('P', Made(map["A" := 7], 1), 0)],
                    [Attached, Attached, p]);
    var rest := [DoDisconnect, DoConnect("A"), DoExecute(s)];
    ThenClosed(s, w3);
    ConnectedTwice(s, w3, rest);
    assert [DoConnect("A")] + ([DoConnect("A")] + ([prep] + rest))
        == [DoConnect("A"), DoConnect("A"), prep, DoDisconnect, DoConnect("A"), DoExecute(s)];
    assert [Done] + ([Done] + ([Done] + [Done, Done, Done])) == [Done, Done, Done, Done, Done, Done];
    OnTheSecond(s, p, e);
  }

  lemma ConnectedTwice(s: Stmt, w3: World, rest: seq<Op>)
    requires AllMeant({s}, rest)
    requires w3 == World(false, 2, Base(-1, ["A"], 0), map[s := View('P', Made(map["A" := 7], 1), 0)],
                         [Attached, Attached, Prepared(s, "A", 7)])
    ensures var ops := [DoConnect("A")] + ([DoConnect("A")] + ([DoPrepare(s, 0, Odbc(7, true, true))] + rest));
      AllMeant({s}, ops) && Ran(Begin(s), ops) == (Ran(w3, rest).0, [Done] + ([Done] + ([Done] + Ran(w3, rest).1)))
  {
    hide Ran, Next;
    var prep := DoPrepare(s, 0, Odbc(7, true, true));
    var w1 := World(false, 1, Base(-1, ["A"], 0), map[s := View('N', Nothing, 0)], [Attached]);
    var w2 := w1.(nConn := 2, log := [Attached, Attached]);
    TwoConnects(s, w1, w2);
    PreparedOnSecond(s, w2, w3);
    RunOne(w2, prep, rest, w3, Done);
    RunOne(w1, DoConnect("A"), [prep] + rest, w2, Done);
    RunOne(Begin(s), DoConnect("A"), [DoConnect("A")] + ([prep] + rest), w1, Done);
  }

  lemma ThenClosed(s: Stmt, w3: World)
    requires w3 == World(false, 2, Base(-1, ["A"], 0), map[s := View('P', Made(map["A" := 7], 1), 0)],
                         [Attached, Attached, Prepared(s, "A", 7)])
    ensures var ops := [DoDisconnect, DoConnect("A"), DoExecute(s)];
      && AllMeant({s}, ops) && Ran(w3, ops).1 == [Done, Done, Done]
      && Ran(w3, ops).0.log == [Attached, Attached, Prepared(s, "A", 7), Detached, Attached, Executed(s, "A", 7)]
  {
    hide Ran, Next;
    var w4 := w3.(closed := true, nConn := 1, log := w3.log + [Detached]);
    var w5 := w4.(closed := false, nConn := 2, log := w4.log + [Attached]);
    var w6 := w5.(stmts := map[s := View('N', Made(map["A" := 7], 1), 0)], log := w5.log + [Executed(s, "A", 7)]);
    LeftBehind(s, w3, w4, w5);
    ExecutedAnyway(s, w5, w6);
    NothingRun(w6);
    RunOne(w5, DoExecute(s), [], w6, Done);
    RunOne(w4, DoConnect("A"), [DoExecute(s)] + [], w5, Done);
    RunOne(w3, DoDisconnect, [DoConnect("A")] + ([DoExecute(s)] + []), w4, Done);
    assert [DoDisconnect] + ([DoConnect("A")] + ([DoExecute(s)] + [])) == [DoDisconnect, DoConnect("A"), DoExecute(s)];
    assert [Done] + ([Done] + ([Done] + [])) == [Done, Done, Done];
  }

  lemma TwoConnects(s: Stmt, w1: World, w2: World)
    requires w1 == World(false, 1, Base(-1, ["A"], 0), map[s := View('N', Nothing, 0)], [Attached])
    requires w2 == w1.(nConn := 2, log := [Attached, Attached])
    ensures Next(Begin(s), DoConnect("A")) == (w1, Done) && Next(w1, DoConnect("A")) == (w2, Done)
  {
    assert Place([], "A") == 0 && [] + ["A"] == ["A"] && [] + [Attached] == [Attached];
    assert Place(["A"], "A") == 0 && [Attached] + [Attached] == [Attached, Attached];
  }

  lemma PreparedOnSecond(s: Stmt, w2: World, w3: World)
    requires w2 == World(false, 2, Base(-1, ["A"], 0), map[s := View('N', Nothing, 0)], [Attached, Attached])
    requires w3 == w2.(stmts := map[s := View('P', Made(map["A" := 7], 1), 0)],
                       log := [Attached, Attached, Prepared(s, "A", 7)])
    ensures Next(w2, DoPrepare(s, 0, Odbc(7, true, true))) == (w3, Done)
  {
    assert [Attached, Attached] + [] + [Prepared(s, "A", 7)] == [Attached, Attached, Prepared(s, "A", 7)];
    assert map[]["A" := 7] == map["A" := 7];
    var v := View('P', Made(map["A" := 7], 1), 0);
    assert w2.stmts[s := v] == map[s := v];
  }

  lemma LeftBehind(s: Stmt, w3: World, w4: World, w5: World)
    requires !w3.closed && w3.nConn == 2 && w3.base == Base(-1, ["A"], 0)
    requires w4 == w3.(closed := true, nConn := 1, log := w3.log + [Detached])
    requires w5 == w4.(closed := false, nConn := 2, log := w4.log + [Attached])
    ensures Next(w3, DoDisconnect) == (w4, Done) && Next(w4, DoConnect("A")) == (w5, Done)
  {
    assert Place(["A"], "A") == 0;
  }

  lemma ExecutedAnyway(s: Stmt, w5: World, w6: World)
    requires !w5.closed && w5.base == Base(-1, ["A"], 0) && w5.stmts == map[s := View('P', Made(map["A" := 7], 1), 0)]
    requires w6 == w5.(stmts := map[s := View('N', Made(map["A" := 7], 1), 0)], log := w5.log + [Executed(s, "A", 7)])
    ensures Next(w5, DoExecute(s)) == (w6, Done)
  {
    var v := View('N', Made(map["A" := 7], 1), 0);
    assert w5.stmts[s := v] == map[s := v];
  }

  lemma OnTheSecond(s: Stmt, p: Event, e: Event)
    requires p == Prepared(s, "A", 7) && e == Executed(s, "A", 7)
    ensures var log := [Attached, Attached, p, Detached, Attached, e];
      "A" in Under(log, s) && Under(log, s)["A"] == 2 && 2 !in OpenIn(log)
  {
    hide Under, OpenIn, Connections;
    var l0: seq<Event> := [];
    NothingYet(s);
    OneMore(l0, Attached, s);
    OneMore([Attached], Attached, s);
    OneMore([Attached, Attached], p, s);
    OneMore([Attached, Attached, p], Detached, s);
    OneMore([Attached, Attached, p, Detached], Attached, s);
    OneMore([Attached, Attached, p, Detached, Attached], e, s);
    assert l0 + [Attached] == [Attached] && [Attached] + [Attached] == [Attached, Attached];
    assert [Attached, Attached] + [p] == [Attached, Attached, p];
    assert [Attached, Attached, p] + [Detached] == [Attached, Attached, p, Detached];
    assert [Attached, Attached, p, Detached] + [Attached] == [Attached, Attached, p, Detached, Attached];
    assert [Attached, Attached, p, Detached, Attached] + [e] == [Attached, Attached, p, Detached, Attached, e];
  }

  lemma NothingYet(s: Stmt)
    ensures Connections([]) == 0 && OpenIn([]) == {} && Under([], s) == map[]
  {
  }
}
