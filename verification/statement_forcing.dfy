/**
 What preparing does, over runs: a statement that is forced is prepared again, and its handles in all databases are
 given up; one that has no handle in the current database gets one; and the last disconnect gives up everything.
 */
module StatementForcing {
  import opened DatabaseHandles
  import opened StatementCache
  import opened StatementMachine

  /** The database has a handle for the statement, prepares it and binds its parameters. */
  predicate Answers(odbc: Odbc) {
    odbc.handle != 0 && odbc.prepares && odbc.binds
  }

  /** The name of the current database. */
  function Current(w: World): string
    requires w.base.cur < |w.base.names|
  {
    w.base.names[w.base.cur]
  }

  lemma HasCurrent(w: World)
    requires Good(w) && !w.closed
    ensures w.base.cur < |w.base.names|
  {
  }

  /** No other statement is changed. */
  ghost predicate OthersStay(w: World, w1: World, s: Stmt) {
    && w1.stmts.Keys == w.stmts.Keys && w1.base == w.base && w1.closed == w.closed
    && forall t :: t in w.stmts && t != s ==> w1.stmts[t] == w.stmts[t] && Live(w1.log, t) == Live(w.log, t)
  }

  lemma RanTwo(w: World, a: Op, b: Op, w1: World, o1: Outcome, w2: World, o2: Outcome)
    requires Meant(w.stmts.Keys, a) && Next(w, a) == (w1, o1)
    requires Meant(w1.stmts.Keys, b) && Next(w1, b) == (w2, o2)
    ensures AllMeant(w.stmts.Keys, [a, b]) && Ran(w, [a, b]) == (w2, [o1, o2])
  {
    hide Next, Ran;
    KeepsStatements(w, a);
    KeepsStatements(w1, b);
    NothingRun(w2);
    RunOne(w1, b, [], w2, o2);
    RunOne(w, a, [b] + [], w1, o1);
    assert [a] + ([b] + []) == [a, b] && [o1] + ([o2] + []) == [o1, o2];
  }

  lemma RanThree(w: World, a: Op, b: Op, c: Op, w1: World, o1: Outcome, w2: World, o2: Outcome, w3: World, o3: Outcome)
    requires Meant(w.stmts.Keys, a) && Next(w, a) == (w1, o1)
    requires Meant(w1.stmts.Keys, b) && Next(w1, b) == (w2, o2)
    requires Meant(w2.stmts.Keys, c) && Next(w2, c) == (w3, o3)
    ensures AllMeant(w.stmts.Keys, [a, b, c]) && Ran(w, [a, b, c]) == (w3, [o1, o2, o3])
  {
    hide Next, Ran;
    KeepsStatements(w, a);
    RanTwo(w1, b, c, w2, o2, w3, o3);
    RunOne(w, a, [b, c], w1, o1);
    assert [a] + [b, c] == [a, b, c] && [o1] + [o2, o3] == [o1, o2, o3];
  }

  /** Other statements keep their handles through events of this one. */
  lemma {:induction false} LiveOfOthers(log: seq<Event>, more: seq<Event>, s: Stmt, t: Stmt)
    requires t != s && forall k :: 0 <= k < |more| ==> !Forgets(more[k], t) && (more[k].Prepared? ==> more[k].s == s)
    ensures Live(log + more, t) == Live(log, t)
  {
    if |more| == 0 {
      assert log + more == log;
    } else {
      var front := more[..|more| - 1];
      assert (log + more)[..|log + more| - 1] == log + front;
      LiveOfOthers(log, front, s, t);
    }
  }

  lemma LiveOne(log: seq<Event>, e: Event, s: Stmt)
    ensures Live(log + [e], s) == After(Live(log, s), e, s)
  {
    assert (log + [e])[..|log|] == log;
  }

  // ---------- forced ----------

  /** The events with which a forced statement starts over. */
  ghost function GivenUp(w: World, s: Stmt): seq<Event> {
    if s in w.stmts && w.stmts[s].made.Made? then [Dropped(s)] else []
  }

  lemma ForcedHasNone(w: World, s: Stmt)
    requires Good(w) && s in w.stmts
    ensures Live(w.log + GivenUp(w, s), s) == map[]
  {
    hide Lawful, GoodView;
    LiveOne(w.log, Dropped(s), s);
    assert w.log + [] == w.log;
  }

  /** One step: a forced statement is prepared as one that has never been. */
  lemma ForcedStep(w: World, s: Stmt, address: nat, odbc: Odbc)
    requires Good(w) && s in w.stmts && !w.closed
    ensures var forced := Next(w, DoForce(s)).0;
      var (w1, o) := Next(forced, DoPrepare(s, address, odbc));
      && Next(w, DoForce(s)).1 == Done && forced.stmts.Keys == w.stmts.Keys && OthersStay(w, w1, s)
      && (if Answers(odbc) then
            && o == Done && w1.log == w.log + GivenUp(w, s) + [Prepared(s, Current(w), odbc.handle)]
            && w1.stmts[s].prep == 'P'
          else o == Refused && w1.log == w.log + GivenUp(w, s) && w1.stmts[s].prep == 'X')
  {
    hide Lawful, Live, GoodView;
    var events := GivenUp(w, s) + if Answers(odbc) then [Prepared(s, Current(w), odbc.handle)] else [];
    forall t | t in w.stmts && t != s ensures Live(w.log + events, t) == Live(w.log, t) {
      LiveOfOthers(w.log, events, s, t);
    }
    assert w.log + events
        == w.log + GivenUp(w, s) + if Answers(odbc) then [Prepared(s, Current(w), odbc.handle)] else [];
  }

  /** A statement in state P is executed with its handle, if it has one in the current database. */
  lemma ExecutedStep(w: World, s: Stmt)
    requires Good(w) && s in w.stmts && !w.closed && w.stmts[s].prep == 'P' && Current(w) in Live(w.log, s)
    ensures Next(w, DoExecute(s)).1 == Done && OthersStay(w, Next(w, DoExecute(s)).0, s)
    ensures Next(w, DoExecute(s)).0.log == w.log + [Executed(s, Current(w), Live(w.log, s)[Current(w)])]
  {
    hide Lawful, Live, GoodView, AllMade;
    var e := Executed(s, Current(w), Live(w.log, s)[Current(w)]);
    forall t | t in w.stmts && t != s ensures Live(w.log + [e], t) == Live(w.log, t) {
      LiveOfOthers(w.log, [e], s, t);
    }
  }

  /**
   From any good state with a connection, a statement that is forced and then prepared by a database that answers has
   one handle, the new one in the current database, and none in any other; the next execution there uses it.
   */
  lemma ForcedIsPrepared(w: World, s: Stmt, address: nat, odbc: Odbc)
    requires Good(w) && s in w.stmts && !w.closed && Answers(odbc)
    ensures var ops := [DoForce(s), DoPrepare(s, address, odbc), DoExecute(s)];
      && AllMeant(w.stmts.Keys, ops)
      && var (w1, answers) := Ran(w, ops);
      && answers == [Done, Done, Done] && OthersStay(w, w1, s)
      && w1.log == w.log + GivenUp(w, s)
                   + [Prepared(s, Current(w), odbc.handle)] + [Executed(s, Current(w), odbc.handle)]
      && Live(w1.log, s) == map[Current(w) := odbc.handle]
  {
    hide Ran, Next, Good, Live, After;
    HasCurrent(w);
    ForcedStep(w, s, address, odbc);
    var forced := Next(w, DoForce(s)).0;
    var w1 := Next(forced, DoPrepare(s, address, odbc)).0;
    GoodNext(w, DoForce(s));
    GoodNext(forced, DoPrepare(s, address, odbc));
    ForcedHasNone(w, s);
    var given := w.log + GivenUp(w, s);
    LiveOne(given, Prepared(s, Current(w), odbc.handle), s);
    AfterPrepared(Live(given, s), s, Current(w), odbc.handle);
    ExecutedStep(w1, s);
    var e := Executed(s, Current(w), odbc.handle);
    LiveOne(w1.log, e, s);
    AfterExecuted(Live(w1.log, s), s, Current(w), odbc.handle);
    RanThree(w, DoForce(s), DoPrepare(s, address, odbc), DoExecute(s), forced, Done, w1, Done,
             Next(w1, DoExecute(s)).0, Done);
  }

  lemma AfterPrepared(handles: map<string, Handle>, s: Stmt, db: string, h: Handle)
    ensures After(handles, Prepared(s, db, h), s) == handles[db := h]
  {
  }

  lemma AfterExecuted(handles: map<string, Handle>, s: Stmt, db: string, h: Handle)
    ensures After(handles, Executed(s, db, h), s) == handles
  {
  }

  /** When the database does not answer, the statement has no handle at all, and is not executed. */
  lemma ForcedAndRefused(w: World, s: Stmt, address: nat, odbc: Odbc)
    requires Good(w) && s in w.stmts && !w.closed && !Answers(odbc)
    ensures var ops := [DoForce(s), DoPrepare(s, address, odbc), DoExecute(s)];
      && AllMeant(w.stmts.Keys, ops)
      && var (w1, answers) := Ran(w, ops);
      && answers == [Done, Refused, NotPrepared] && OthersStay(w, w1, s)
      && w1.log == w.log + GivenUp(w, s) && Live(w1.log, s) == map[]
  {
    hide Ran, Good, Live;
    var forced := Next(w, DoForce(s)).0;
    var w1 := Next(forced, DoPrepare(s, address, odbc)).0;
    ForcedStep(w, s, address, odbc);
    ForcedHasNone(w, s);
    RanThree(w, DoForce(s), DoPrepare(s, address, odbc), DoExecute(s), forced, Done, w1, Refused,
             Next(w1, DoExecute(s)).0, NotPrepared);
  }

  // ---------- not forced ----------

  /** One step: a statement in state N is prepared in the current database unless it has a handle there. */
  lemma FreshStep(w: World, s: Stmt, address: nat, odbc: Odbc)
    requires Good(w) && s in w.stmts && !w.closed && w.stmts[s].prep == 'N'
    requires Answers(odbc) || Current(w) in Live(w.log, s)
    ensures var (w1, o) := Next(w, DoPrepare(s, address, odbc));
      && o == Done && w1.stmts[s].prep == 'P' && OthersStay(w, w1, s)
      && w1.log == w.log + if Current(w) in Live(w.log, s) then [] else [Prepared(s, Current(w), odbc.handle)]
  {
    hide Lawful, Live, GoodView;
    assert GoodView(w.base.names, w.stmts[s]);
    var events := if Current(w) in Live(w.log, s) then [] else [Prepared(s, Current(w), odbc.handle)];
    forall t | t in w.stmts && t != s ensures Live(w.log + events, t) == Live(w.log, t) {
      LiveOfOthers(w.log, events, s, t);
    }
    assert w.log + [] == w.log;
  }

  /**
   A statement in state N that is prepared keeps the handle it has in the current database, or gets one there from a
   database that answers, and is executed with it; its handles in other databases stay.
   */
  lemma FreshIsPrepared(w: World, s: Stmt, address: nat, odbc: Odbc)
    requires Good(w) && s in w.stmts && !w.closed && w.stmts[s].prep == 'N'
    requires Answers(odbc) || Current(w) in Live(w.log, s)
    ensures var ops := [DoPrepare(s, address, odbc), DoExecute(s)];
      var db, had := Current(w), Current(w) in Live(w.log, s);
      && AllMeant(w.stmts.Keys, ops)
      && var (w1, answers) := Ran(w, ops);
      && answers == [Done, Done] && OthersStay(w, w1, s)
      && w1.log == w.log + (if had then [] else [Prepared(s, db, odbc.handle)])
                   + [Executed(s, db, if had then Live(w.log, s)[db] else odbc.handle)]
      && Live(w1.log, s) == if had then Live(w.log, s) else Live(w.log, s)[db := odbc.handle]
  {
    hide Ran, Next, Good, Live, After;
    HasCurrent(w);
    var w1 := Next(w, DoPrepare(s, address, odbc)).0;
    var db, had := Current(w), Current(w) in Live(w.log, s);
    FreshStep(w, s, address, odbc);
    GoodNext(w, DoPrepare(s, address, odbc));
    assert w.log + [] == w.log;
    LiveOne(w.log, Prepared(s, db, odbc.handle), s);
    AfterPrepared(Live(w.log, s), s, db, odbc.handle);
    ExecutedStep(w1, s);
    LiveOne(w1.log, Executed(s, db, Live(w1.log, s)[db]), s);
    AfterExecuted(Live(w1.log, s), s, db, Live(w1.log, s)[db]);
    RanTwo(w, DoPrepare(s, address, odbc), DoExecute(s), w1, Done, Next(w1, DoExecute(s)).0, Done);
  }

  // ---------- disconnecting ----------

  /** The last disconnect gives up all handles of all statements; any other keeps them. */
  lemma LastDisconnect(w: World, s: Stmt)
    requires Good(w) && s in w.stmts && !w.closed
    ensures var w1 := Next(w, DoDisconnect).0;
      && w1.closed && s in w1.stmts
      && Live(w1.log, s) == (if w.nConn == 1 then map[] else Live(w.log, s))
      && (w.nConn == 1 && w.stmts[s].made.Made? ==> w1.stmts[s].prep == 'N')
  {
    hide Lawful, GoodView, Live;
    LiveOne(w.log, AllCleared, s);
    LiveOne(w.log + [AllCleared], Detached, s);
    LiveOne(w.log, Detached, s);
  }

  // ---------- counting connections ----------

  /** The connects of a log less its disconnects. */
  function Balance(log: seq<Event>): int {
    if |log| == 0 then 0
    else Balance(log[..|log| - 1]) + match log[|log| - 1] case Attached => 1 case Detached => -1 case _ => 0
  }

  lemma BalanceOne(log: seq<Event>, e: Event)
    ensures Balance(log + [e]) == Balance(log) + match e case Attached => 1 case Detached => -1 case _ => 0
  {
    assert (log + [e])[..|log|] == log;
  }

  lemma BalanceStep(w: World, op: Op)
    requires Meant(w.stmts.Keys, op) && w.nConn == Balance(w.log)
    ensures Next(w, op).0.nConn == Balance(Next(w, op).0.log)
  {
    hide Balance;
    match op
    case DoConnect(name) => BalanceOne(w.log, Attached);
    case DoDisconnect =>
      BalanceOne(w.log, AllCleared);
      BalanceOne(w.log + [AllCleared], Detached);
      BalanceOne(w.log, Detached);
    case DoSetMax(n) =>
    case DoSwitch(name) =>
    case DoForce(s) =>
    case DoPrepare(s, address, odbc) =>
      assert w.log + [] == w.log;
      BalanceOne(w.log, Dropped(s));
      BalanceOne(w.log, Prepared(s, CurrentName(w.base), odbc.handle));
      BalanceOne(w.log + [Dropped(s)], Prepared(s, CurrentName(w.base), odbc.handle));
      assert w.log + [Dropped(s)] + [] == w.log + [Dropped(s)];
    case DoExecute(s) =>
      var m := LookedUp(w.base, w.stmts[s].made);
      if HasHandle(w.base, m) {
        BalanceOne(w.log, Executed(s, CurrentName(w.base), m.handles[CurrentName(w.base)]));
      }
  }

  /** In any run the runtime counts the connects less the disconnects. */
  lemma {:induction false} ConnectionsCounted(w: World, ops: seq<Op>)
    requires AllMeant(w.stmts.Keys, ops) && w.nConn == Balance(w.log)
    ensures Ran(w, ops).0.nConn == Balance(Ran(w, ops).0.log)
    decreases |ops|
  {
    hide Next, Balance;
    if |ops| > 0 {
      BalanceStep(w, ops[0]);
      KeepsStatements(w, ops[0]);
      ConnectionsCounted(Next(w, ops[0]).0, ops[1..]);
    }
  }
}
