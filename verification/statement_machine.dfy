/**
 The life of the statements of a COBOL program as a machine: what connecting, switching databases, preparing,
 executing and disconnecting do to the state of the runtime, what they answer and what they log. The log of
 every run is lawful: nothing is executed with a handle that was not prepared for it in the current database,
 and nothing is prepared twice without having been given up.
 */
module StatementMachine {
  import opened DatabaseHandles
  import opened StatementCache

  // ---------- what happened ----------

  datatype Event =
    | Prepared(s: Stmt, db: string, h: Handle)
    | Executed(s: Stmt, db: string, h: Handle)
    | Dropped(s: Stmt)
    | AllCleared
    | Attached
    | Detached

  /** What an event makes of the handles of a statement. */
  ghost function After(handles: map<string, Handle>, e: Event, s: Stmt): map<string, Handle> {
    match e
    case Prepared(t, db, h) => if t == s then handles[db := h] else handles
    case Executed(_, _, _) => handles
    case Dropped(t) => if t == s then map[] else handles
    case AllCleared => map[]
    case _ => handles
  }

  /** The handles a statement has, by database, after the events. */
  ghost function Live(log: seq<Event>, s: Stmt): map<string, Handle> {
    if |log| == 0 then map[] else After(Live(log[..|log| - 1], s), log[|log| - 1], s)
  }

  /** The connections made, which are numbered as they are made; the last one is the one that is used. */
  function Connections(log: seq<Event>): nat {
    if |log| == 0 then 0 else Connections(log[..|log| - 1]) + if log[|log| - 1] == Attached then 1 else 0
  }

  /** The connections that are open: a new one does not close the one before it, and only the last can be closed. */
  ghost function OpenIn(log: seq<Event>): set<nat> {
    if |log| == 0 then {}
    else
      var front := log[..|log| - 1];
      match log[|log| - 1]
      case Attached => OpenIn(front) + {Connections(front) + 1}
      case Detached => OpenIn(front) - {Connections(front)}
      case _ => OpenIn(front)
  }

  ghost predicate IsConnected(log: seq<Event>) {
    Connections(log) in OpenIn(log)
  }

  /** May this happen after the events? */
  ghost predicate Allowed(log: seq<Event>, e: Event) {
    match e
    case Prepared(s, db, h) => IsConnected(log) && h != 0 && db !in Live(log, s)
    case Executed(s, db, h) => IsConnected(log) && db in Live(log, s) && Live(log, s)[db] == h
    case Detached => IsConnected(log)
    case _ => true
  }

  ghost predicate Lawful(log: seq<Event>) {
    |log| == 0 || (Lawful(log[..|log| - 1]) && Allowed(log[..|log| - 1], log[|log| - 1]))
  }

  lemma LogOne(log: seq<Event>, e: Event)
    requires Lawful(log) && Allowed(log, e)
    ensures Lawful(log + [e])
    ensures forall s :: Live(log + [e], s) == After(Live(log, s), e, s)
    ensures IsConnected(log + [e]) <==> e == Attached || (e != Detached && IsConnected(log))
  {
    assert (log + [e])[..|log|] == log;
  }

  /** Does a statement lose its handles in this event? */
  predicate Forgets(e: Event, s: Stmt) {
    e == AllCleared || e == Dropped(s)
  }

  /** A handle once prepared stays until the statement is forgotten. */
  lemma {:induction false} StaysLive(log: seq<Event>, i: nat, s: Stmt, db: string)
    requires Lawful(log) && i < |log| && log[i].Prepared? && log[i].s == s && log[i].db == db
    requires forall k :: i < k < |log| ==> !Forgets(log[k], s)
    ensures db in Live(log, s) && Live(log, s)[db] == log[i].h
    decreases |log|
  {
    var front := log[..|log| - 1];
    if i < |log| - 1 {
      StaysLive(front, i, s, db);
    }
  }

  lemma {:induction false} LawfulPrefix(log: seq<Event>, n: nat)
    requires Lawful(log) && n <= |log|
    ensures Lawful(log[..n]) && (n < |log| ==> Allowed(log[..n], log[n]))
    decreases |log|
  {
    if n == |log| {
      assert log[..n] == log;
    } else {
      var front := log[..|log| - 1];
      LawfulPrefix(front, n);
      assert front[..n] == log[..n];
    }
  }

  /** A statement is prepared at most once in a database, unless it was given up in between. */
  lemma PreparedOnce(log: seq<Event>, i: nat, j: nat)
    requires Lawful(log) && i < j < |log| && log[i].Prepared? && log[j].Prepared?
    requires log[i].s == log[j].s && log[i].db == log[j].db
    ensures exists k :: i < k < j && Forgets(log[k], log[j].s)
  {
    if forall k :: i < k < j ==> !Forgets(log[k], log[j].s) {
      LawfulPrefix(log, j);
      StaysLive(log[..j], i, log[j].s, log[j].db);
    }
  }

  lemma {:induction false} LiveWasPrepared(log: seq<Event>, s: Stmt, db: string) returns (i: nat)
    requires db in Live(log, s)
    ensures i < |log| && log[i] == Prepared(s, db, Live(log, s)[db])
    ensures forall k :: i < k < |log| ==> !Forgets(log[k], s)
    decreases |log|
  {
    var front := log[..|log| - 1];
    if log[|log| - 1] == Prepared(s, db, Live(log, s)[db]) {
      i := |log| - 1;
    } else {
      i := LiveWasPrepared(front, s, db);
    }
  }

  /** What is executed was prepared, for this statement in this database, and not given up since. */
  lemma ExecutedWasPrepared(log: seq<Event>, j: nat) returns (i: nat)
    requires Lawful(log) && j < |log| && log[j].Executed?
    ensures i < j && log[i] == Prepared(log[j].s, log[j].db, log[j].h)
    ensures forall k :: i < k < j ==> !Forgets(log[k], log[j].s)
  {
    LawfulPrefix(log, j);
    i := LiveWasPrepared(log[..j], log[j].s, log[j].db);
  }

  // ---------- the machine ----------

  /** What the database answers to a preparation: a new handle or 0, then whether it prepares and binds. */
  datatype Odbc = Odbc(handle: Handle, prepares: bool, binds: bool)

  datatype Outcome = Done | NotConnected | NotPrepared | NoHandle | Refused

  /** What a statement has prepared: its handles by database, and the number of databases it has room for. */
  datatype Made = Nothing | Made(handles: map<string, Handle>, room: nat)

  /** A statement: its state letter, what it points to, and the maximum that was declared when it was confirmed. */
  datatype View = View(prep: char, made: Made, confirmed: int)

  /** The databases of the connection: how many are declared, which are known, and which is current. */
  datatype Base = Base(maxdb: int, names: seq<string>, cur: nat)

  datatype World = World(closed: bool, nConn: int, base: Base, stmts: map<Stmt, View>, log: seq<Event>)

  datatype Op =
    | DoConnect(name: string)
    | DoDisconnect
    | DoSetMax(n: int)
    | DoSwitch(name: string)
    | DoForce(s: Stmt)
    | DoPrepare(s: Stmt, address: nat, odbc: Odbc)
    | DoExecute(s: Stmt)

  /** The statement an operation names is a statement of the program. */
  predicate Meant(stmts: set<Stmt>, op: Op) {
    match op
    case DoForce(s) => s in stmts
    case DoPrepare(s, _, _) => s in stmts
    case DoExecute(s) => s in stmts
    case _ => true
  }

  /** A database becomes current, under the number it has or the next one. */
  function Entered(b: Base, name: string): Base {
    var n := Place(b.names, name);
    b.(cur := n, names := if n < |b.names| then b.names else b.names + [name])
  }

  function Switched(w: World, name: string): World {
    w.(base := Entered(w.base, name))
  }

  /** A statement whose prepared statement has been destroyed. */
  function Freed(): View {
    View('N', Nothing, 0)
  }

  /** All statements when everything prepared has been destroyed. */
  function Cleared(stmts: map<Stmt, View>): map<Stmt, View> {
    map s | s in stmts :: if stmts[s].made.Made? then Freed() else stmts[s]
  }

  /** A connection is made; whether there is one already makes no difference. */
  function Connected(w: World, name: string): World {
    Switched(w, name).(closed := false, nConn := w.nConn + 1, log := w.log + [Attached])
  }

  function Disconnected(w: World): World {
    if w.nConn != 1 then w.(closed := true, nConn := w.nConn - 1, log := w.log + [Detached])
    else
      w.(closed := true, nConn := 0, log := w.log + [AllCleared] + [Detached],
         stmts := Cleared(w.stmts))
  }

  function CurrentName(b: Base): string {
    if b.cur < |b.names| then b.names[b.cur] else ""
  }

  /** Looking for a handle makes room for the current database. */
  function LookedUp(b: Base, m: Made): Made {
    if m.Made? then m.(room := RoomFor(m.room, b.cur, |b.names|)) else m
  }

  predicate HasHandle(b: Base, m: Made) {
    m.Made? && CurrentName(b) in m.handles
  }

  /** A statement before it is prepared: one with nothing prepared, or forced, starts over. */
  function Reset(v: View): View {
    if v.made.Nothing? then v.(prep := 'N') else if v.prep == 'A' then Freed() else v
  }

  /** What the database makes of a statement it is asked to prepare. */
  function Asked(b: Base, v: View, odbc: Odbc): (View, Outcome, bool)
    requires v.made.Made?
  {
    if odbc.handle == 0 || !odbc.prepares || !odbc.binds then (v, Refused, false)
    else (v.(prep := 'P', made := v.made.(handles := v.made.handles[CurrentName(b) := odbc.handle])), Done, true)
  }

  /** Something a handle for the current database can be kept in. */
  function Opened(b: Base, m: Made): Made {
    if m.Made? then LookedUp(b, m) else Made(map[], if b.maxdb > |b.names| then b.maxdb else |b.names|)
  }

  /** A preparation of a statement that has been reset to N. */
  function Tried(b: Base, v: View, odbc: Odbc): (View, Outcome, bool) {
    var m := Opened(b, v.made);
    if HasHandle(b, m) then (v.(prep := 'P', made := m), Done, false)
    else Asked(b, v.(prep := 'X', made := m), odbc)
  }

  function DropEvents(v: View, s: Stmt): seq<Event> {
    if v.made.Made? && v.prep == 'A' then [Dropped(s)] else []
  }

  function Prepare(w: World, s: Stmt, odbc: Odbc): (World, Outcome)
    requires s in w.stmts
  {
    if w.closed then (w, NotConnected)
    else
      var v := Reset(w.stmts[s]);
      var log := w.log + DropEvents(w.stmts[s], s);
      if v.prep != 'N' then (w.(stmts := w.stmts[s := v], log := log), Done)
      else
        var (v1, outcome, new_) := Tried(w.base, v, odbc);
        (w.(stmts := w.stmts[s := v1],
            log := log + if new_ then [Prepared(s, CurrentName(w.base), odbc.handle)] else []), outcome)
  }

  /** Is there a handle in each of the declared number of databases? */
  ghost predicate Confirms(b: Base, m: Made) {
    m.Made? && m.room == b.maxdb && AllMade(b.names, m.handles, m.room)
  }

  /** After an execution: a confirmed statement stays as it is, any other is confirmed or to be prepared again. */
  ghost function Settled(b: Base, v: View): View {
    if v.prep == 'Y' then v
    else if Confirms(b, v.made) then v.(prep := 'Y', confirmed := b.maxdb)
    else v.(prep := 'N')
  }

  ghost function Execute(w: World, s: Stmt): (World, Outcome)
    requires s in w.stmts
  {
    var v := w.stmts[s];
    if w.closed then (w, NotConnected)
    else if v.prep != 'P' && v.prep != 'Y' then (w.(stmts := w.stmts[s := v.(prep := 'N')]), NotPrepared)
    else
      var v1 := v.(made := LookedUp(w.base, v.made));
      if !HasHandle(w.base, v1.made) then (w.(stmts := w.stmts[s := v1.(prep := 'N')]), NoHandle)
      else
        (w.(stmts := w.stmts[s := Settled(w.base, v1)],
            log := w.log + [Executed(s, CurrentName(w.base), v1.made.handles[CurrentName(w.base)])]), Done)
  }

  /** One operation: the state it leaves and its answer. */
  ghost function Next(w: World, op: Op): (World, Outcome)
    requires Meant(w.stmts.Keys, op)
  {
    match op
    case DoConnect(name) => (Connected(w, name), Done)
    case DoDisconnect => if w.closed then (w, NotConnected) else (Disconnected(w), Done)
    case DoSetMax(n) => (w.(base := w.base.(maxdb := n)), Done)
    case DoSwitch(name) => (Switched(w, name), Done)
    case DoForce(s) => (w.(stmts := w.stmts[s := w.stmts[s].(prep := 'A')]), Done)
    case DoPrepare(s, _, odbc) => Prepare(w, s, odbc)
    case DoExecute(s) => Execute(w, s)
  }

  ghost predicate AllMeant(stmts: set<Stmt>, ops: seq<Op>) {
    forall i :: 0 <= i < |ops| ==> Meant(stmts, ops[i])
  }

  /** A whole run: the state it ends in and the answers to its operations. */
  ghost function Ran(w: World, ops: seq<Op>): (r: (World, seq<Outcome>))
    requires AllMeant(w.stmts.Keys, ops)
    ensures |r.1| == |ops| && r.0.stmts.Keys == w.stmts.Keys
    decreases |ops|
  {
    if |ops| == 0 then (w, [])
    else
      var (w1, o) := Next(w, ops[0]);
      KeepsStatements(w, ops[0]);
      var (w2, os) := Ran(w1, ops[1..]);
      (w2, [o] + os)
  }

  lemma RanOnce(w: World, ops: seq<Op>)
    requires AllMeant(w.stmts.Keys, ops) && |ops| > 0
    ensures Meant(w.stmts.Keys, ops[0]) && AllMeant(Next(w, ops[0]).0.stmts.Keys, ops[1..])
    ensures Ran(w, ops).0 == Ran(Next(w, ops[0]).0, ops[1..]).0
    ensures Ran(w, ops).1 == [Next(w, ops[0]).1] + Ran(Next(w, ops[0]).0, ops[1..]).1
  {
    hide Next;
    KeepsStatements(w, ops[0]);
  }

  lemma KeepsStatements(w: World, op: Op)
    requires Meant(w.stmts.Keys, op)
    ensures Next(w, op).0.stmts.Keys == w.stmts.Keys
  {
  }

  // ---------- what every run keeps ----------

  function Handles(m: Made): map<string, Handle> {
    if m.Made? then m.handles else map[]
  }

  /** There are no handles for databases there is no room for. */
  ghost predicate Bounded(names: seq<string>, m: Made) {
    forall i :: 0 <= i < |names| && names[i] in Handles(m) ==> i < m.room
  }

  /** The handles of a statement are those of databases known, and there is room for them. */
  ghost predicate GoodMade(names: seq<string>, m: Made) {
    Bounded(names, m) && forall n :: n in Handles(m) ==> n in names && m.handles[n] != 0
  }

  ghost predicate Distinct(names: seq<string>) {
    forall i, j :: 0 <= i < j < |names| ==> names[i] != names[j]
  }

  /**
   The state letter of a statement says the truth: in P and Y it points to something prepared, and in Y it has
   a handle in each of the databases that were declared when it was confirmed.
   */
  ghost predicate GoodView(names: seq<string>, v: View) {
    && GoodMade(names, v.made)
    && (v.prep == 'P' || v.prep == 'Y' ==> v.made.Made?)
    && (v.prep == 'Y' ==> v.made.room == v.confirmed && AllMade(names, v.made.handles, v.made.room))
  }

  ghost predicate Good(w: World) {
    && (!w.closed ==> w.base.cur < |w.base.names|) && Distinct(w.base.names)
    && Lawful(w.log) && (IsConnected(w.log) <==> !w.closed)
    && forall s :: s in w.stmts ==> GoodView(w.base.names, w.stmts[s]) && Live(w.log, s) == Handles(w.stmts[s].made)
  }

  lemma GoodGrows(names: seq<string>, v: View, name: string)
    requires GoodView(names, v) && name !in names
    ensures GoodView(names + [name], v)
  {
  }

  lemma GoodSwitched(w: World, name: string)
    requires Good(w)
    ensures Good(Switched(w, name)) && Switched(w, name).base.cur < |Switched(w, name).base.names|
  {
    hide Live, Lawful, GoodView;
    var n := Place(w.base.names, name);
    forall s | s in w.stmts ensures GoodView(Switched(w, name).base.names, w.stmts[s]) {
      if n == |w.base.names| {
        assert w.base.names[..n] == w.base.names;
        GoodGrows(w.base.names, w.stmts[s], name);
      }
    }
  }

  lemma GoodConnected(w: World, name: string)
    requires Good(w)
    ensures Good(Connected(w, name))
  {
    hide Live, Lawful, GoodView, IsConnected, Allowed;
    GoodSwitched(w, name);
    assert Allowed(w.log, Attached) by {
      NewConnection(w.log);
    }
    LogOne(w.log, Attached);
  }

  lemma NewConnection(log: seq<Event>)
    ensures Allowed(log, Attached)
  {
  }

  lemma GoodDisconnected(w: World)
    requires Good(w) && !w.closed
    ensures Good(Disconnected(w))
  {
    hide Live, Lawful, AllMade, GoodMade, IsConnected;
    if w.nConn == 1 {
      LogOne(w.log, AllCleared);
      LogOne(w.log + [AllCleared], Detached);
      NothingMade(w.base.names);
      assert GoodView(w.base.names, Freed());
    } else {
      LogOne(w.log, Detached);
    }
  }

  lemma NothingMade(names: seq<string>)
    ensures GoodMade(names, Nothing)
  {
  }

  lemma GoodReset(names: seq<string>, v: View)
    requires GoodView(names, v)
    ensures GoodView(names, Reset(v))
  {
    hide AllMade;
  }

  /** A preparation keeps the statement good, and adds at most one handle: that of the current database. */
  lemma GoodTried(w: World, v: View, odbc: Odbc)
    requires w.base.cur < |w.base.names| && Distinct(w.base.names) && GoodView(w.base.names, v) && v.prep == 'N'
    ensures var (v1, outcome, prepared) := Tried(w.base, v, odbc);
      && GoodView(w.base.names, v1)
      && (prepared ==>
          && odbc.handle != 0 && CurrentName(w.base) !in Handles(v.made)
          && Handles(v1.made) == Handles(v.made)[CurrentName(w.base) := odbc.handle])
      && (!prepared ==> Handles(v1.made) == Handles(v.made))
  {
    hide AllMade;
  }

  lemma GoodExecuted(w: World, v: View)
    requires w.base.cur < |w.base.names| && GoodView(w.base.names, v) && (v.prep == 'P' || v.prep == 'Y')
    ensures var v1 := v.(made := LookedUp(w.base, v.made));
      && Handles(v1.made) == Handles(v.made)
      && GoodView(w.base.names, v1.(prep := 'N'))
      && (HasHandle(w.base, v1.made) ==> GoodView(w.base.names, Settled(w.base, v1)))
      && Handles(Settled(w.base, v1).made) == Handles(v.made)
  {
    if v.prep == 'Y' {
      RoomKept(w, v);
    }
  }

  /** A confirmed statement that has a handle in the current database needs no more room. */
  lemma RoomKept(w: World, v: View)
    requires w.base.cur < |w.base.names| && GoodView(w.base.names, v) && v.prep == 'Y'
    ensures w.base.cur < v.made.room ==> LookedUp(w.base, v.made) == v.made && HasHandle(w.base, v.made)
  {
  }

  /** One statement and the log change; everything else stays good. */
  lemma GoodUpdate(w: World, s: Stmt, v: View, log: seq<Event>)
    requires Good(w) && s in w.stmts && GoodView(w.base.names, v) && Lawful(log) && Live(log, s) == Handles(v.made)
    requires IsConnected(log) <==> !w.closed
    requires forall t :: t in w.stmts && t != s ==> Live(log, t) == Live(w.log, t)
    ensures Good(w.(stmts := w.stmts[s := v], log := log))
  {
    hide Live, Lawful, GoodView, IsConnected;
  }

  lemma GoodPrepare(w: World, s: Stmt, odbc: Odbc)
    requires Good(w) && s in w.stmts
    ensures Good(Prepare(w, s, odbc).0)
  {
    hide Live, Lawful, GoodView, Tried, Reset, AllMade, DropEvents, IsConnected;
    if !w.closed {
      var v0, v := w.stmts[s], Reset(w.stmts[s]);
      GoodReset(w.base.names, v0);
      GoodDrop(w, s);
      var log := w.log + DropEvents(v0, s);
      if v.prep != 'N' {
        GoodUpdate(w, s, v, log);
      } else {
        GoodTried(w, v, odbc);
        var (v1, outcome, prepared) := Tried(w.base, v, odbc);
        var e := Prepared(s, CurrentName(w.base), odbc.handle);
        if prepared {
          LogOne(log, e);
          GoodUpdate(w, s, v1, log + [e]);
        } else {
          assert log + [] == log;
          GoodUpdate(w, s, v1, log);
        }
      }
    }
  }

  lemma GoodDrop(w: World, s: Stmt)
    requires Good(w) && s in w.stmts
    ensures var log := w.log + DropEvents(w.stmts[s], s);
      && Lawful(log) && Live(log, s) == Handles(Reset(w.stmts[s]).made) && IsConnected(log) == IsConnected(w.log)
      && forall t :: t in w.stmts && t != s ==> Live(log, t) == Live(w.log, t)
  {
    hide Live, Lawful, GoodView, IsConnected;
    LogOne(w.log, Dropped(s));
    assert w.log + [] == w.log;
  }

  lemma GoodExecute(w: World, s: Stmt)
    requires Good(w) && s in w.stmts
    ensures Good(Execute(w, s).0)
  {
    hide Live, Lawful, GoodView, Settled, AllMade, IsConnected;
    var v := w.stmts[s];
    if w.closed {
    } else if v.prep != 'P' && v.prep != 'Y' {
      MarkedGood(w.base.names, v);
      GoodUpdate(w, s, v.(prep := 'N'), w.log);
    } else {
      GoodExecuted(w, v);
      var v1 := v.(made := LookedUp(w.base, v.made));
      if !HasHandle(w.base, v1.made) {
        GoodUpdate(w, s, v1.(prep := 'N'), w.log);
      } else {
        var e := Executed(s, CurrentName(w.base), v1.made.handles[CurrentName(w.base)]);
        LogOne(w.log, e);
        GoodUpdate(w, s, Settled(w.base, v1), w.log + [e]);
      }
    }
  }

  lemma MarkedGood(names: seq<string>, v: View)
    requires GoodView(names, v)
    ensures GoodView(names, v.(prep := 'N')) && GoodView(names, v.(prep := 'A'))
  {
    hide AllMade;
  }

  /** No operation breaks what is kept. */
  lemma GoodNext(w: World, op: Op)
    requires Good(w) && Meant(w.stmts.Keys, op)
    ensures Good(Next(w, op).0)
  {
    hide Live, Lawful, GoodView, Prepare, Execute, Switched, Disconnected, IsConnected, Connected;
    match op
    case DoConnect(name) => GoodConnected(w, name);
    case DoDisconnect =>
      if !w.closed {
        GoodDisconnected(w);
      }
    case DoSetMax(n) =>
    case DoSwitch(name) => GoodSwitched(w, name);
    case DoForce(s) =>
      MarkedGood(w.base.names, w.stmts[s]);
      GoodUpdate(w, s, w.stmts[s].(prep := 'A'), w.log);
    case DoPrepare(s, _, odbc) => GoodPrepare(w, s, odbc);
    case DoExecute(s) => GoodExecute(w, s);
  }

  /** Any run, of any operations, from a good state: it ends good, its log lawful and longer than it was. */
  lemma {:induction false} GoodRun(w: World, ops: seq<Op>)
    requires Good(w) && AllMeant(w.stmts.Keys, ops)
    ensures Good(Ran(w, ops).0) && w.log <= Ran(w, ops).0.log
    decreases |ops|
  {
    hide Good, Next;
    if |ops| > 0 {
      GoodNext(w, ops[0]);
      KeepsStatements(w, ops[0]);
      LogGrows(w, ops[0]);
      GoodRun(Next(w, ops[0]).0, ops[1..]);
    }
  }

  lemma LogGrows(w: World, op: Op)
    requires Meant(w.stmts.Keys, op)
    ensures w.log <= Next(w, op).0.log
  {
  }

  // ---------- confirmed statements ----------

  /** What a switch and an execution come to for a confirmed statement. */
  lemma ConfirmedExecutes(w: World, s: Stmt)
    requires Good(w) && s in w.stmts && w.stmts[s].prep == 'Y' && !w.closed
    ensures Execute(w, s).1 == Done <==> w.base.cur < w.stmts[s].confirmed
    ensures Execute(w, s).1 == Done ==> Execute(w, s).0.stmts[s] == w.stmts[s]
  {
    hide Live, Lawful;
    var v := w.stmts[s];
    assert GoodView(w.base.names, v);
    RoomKept(w, v);
    if w.base.cur >= v.made.room {
      RoomNeeded(w, v);
    }
  }

  lemma RoomNeeded(w: World, v: View)
    requires w.base.cur < |w.base.names| && v.made.Made? && Bounded(w.base.names, v.made) && w.base.cur >= v.made.room
    ensures !HasHandle(w.base, LookedUp(w.base, v.made))
  {
  }

  function Longest(names: seq<string>): nat {
    if |names| == 0 then 0
    else if |names[0]| > Longest(names[1..]) then |names[0]| else Longest(names[1..])
  }

  lemma {:induction false} NoLonger(names: seq<string>, i: nat)
    requires i < |names|
    ensures |names[i]| <= Longest(names)
  {
    if i > 0 {
      NoLonger(names[1..], i - 1);
    }
  }

  /** There is always another database. */
  lemma NewName(names: seq<string>) returns (name: string)
    ensures name !in names
  {
    name := seq(Longest(names) + 1, _ => 'X');
    forall i | 0 <= i < |names| ensures names[i] != name {
      NoLonger(names, i);
    }
  }

  /**
   A confirmed statement has a handle in every database as long as there are not more databases than declared,
   if and only if the maximum has not been raised above the one it was confirmed under.
   */
  lemma ConfirmedIff(w: World, s: Stmt)
    requires Good(w) && s in w.stmts && w.stmts[s].prep == 'Y' && !w.closed && |w.base.names| <= w.base.maxdb
    ensures (forall db :: |Switched(w, db).base.names| <= w.base.maxdb ==> Execute(Switched(w, db), s).1 == Done)
       <==> w.base.maxdb <= w.stmts[s].confirmed
  {
    hide Live, Lawful, Good, Execute;
    var k := w.stmts[s].confirmed;
    if w.base.maxdb <= k {
      forall db | |Switched(w, db).base.names| <= w.base.maxdb ensures Execute(Switched(w, db), s).1 == Done {
        SwitchedIs(w, db);
        GoodSwitched(w, db);
        ConfirmedExecutes(Switched(w, db), s);
      }
    } else {
      var db := FailingSwitch(w, s);
      SwitchedIs(w, db);
      GoodSwitched(w, db);
      ConfirmedExecutes(Switched(w, db), s);
    }
  }

  lemma SwitchedIs(w: World, db: string)
    ensures var w1 := Switched(w, db);
      && w1.stmts == w.stmts && w1.base.maxdb == w.base.maxdb && w1.closed == w.closed && w1.base.cur < |w1.base.names|
      && w1.base.cur == Place(w.base.names, db)
      && |w1.base.names| == if w1.base.cur < |w.base.names| then |w.base.names| else |w.base.names| + 1
  {
  }

  /** A database a confirmed statement has no room for. */
  lemma FailingSwitch(w: World, s: Stmt) returns (db: string)
    requires Good(w) && s in w.stmts && w.stmts[s].prep == 'Y' && |w.base.names| <= w.base.maxdb
    requires w.stmts[s].confirmed < w.base.maxdb
    ensures Place(w.base.names, db) >= w.stmts[s].confirmed && |Switched(w, db).base.names| <= w.base.maxdb
  {
    hide Live, Lawful;
    var k := w.stmts[s].confirmed;
    assert GoodView(w.base.names, w.stmts[s]);
    if k < |w.base.names| {
      db := w.base.names[k];
      PlaceIs(w.base.names, db, k);
    } else {
      db := NewName(w.base.names);
    }
  }

  // ---------- runs of a confirmed statement ----------

  /** Operations that neither force a statement nor end the connection nor declare more than k databases. */
  ghost predicate LeavesConfirmed(s: Stmt, k: int, ops: seq<Op>) {
    forall i :: 0 <= i < |ops| ==>
      ops[i] != DoForce(s) && ops[i] != DoDisconnect && (ops[i].DoSetMax? ==> ops[i].n <= k)
  }

  /**
   Over any run in which the maximum is not raised above the one a statement was confirmed under, the statement
   stays as it is and all its executions succeed, if at the end there are not more databases than declared.
   */
  lemma {:induction false} ConfirmedRun(w: World, s: Stmt, ops: seq<Op>)
    requires Good(w) && s in w.stmts && w.stmts[s].prep == 'Y' && !w.closed
    requires AllMeant(w.stmts.Keys, ops) && LeavesConfirmed(s, w.stmts[s].confirmed, ops)
    requires w.base.maxdb <= w.stmts[s].confirmed && |Ran(w, ops).0.base.names| <= Ran(w, ops).0.base.maxdb
    ensures Ran(w, ops).0.stmts[s] == w.stmts[s]
    ensures forall i :: 0 <= i < |ops| && ops[i] == DoExecute(s) ==> Ran(w, ops).1[i] == Done
    decreases |ops|
  {
    hide Good, Next;
    NamesOnlyGrow(w, ops);
    FinalMaximum(w, w.stmts[s].confirmed, ops);
    if |ops| > 0 {
      var w1 := Next(w, ops[0]).0;
      KeepsStatements(w, ops[0]);
      GoodNext(w, ops[0]);
      NamesOnlyGrow(w1, ops[1..]);
      MaximumAfter(w, ops[0]);
      ConfirmedStep(w, s, ops[0]);
      ConfirmedRun(w1, s, ops[1..]);
    }
  }

  lemma {:induction false} NamesOnlyGrow(w: World, ops: seq<Op>)
    requires AllMeant(w.stmts.Keys, ops)
    ensures |w.base.names| <= |Ran(w, ops).0.base.names|
    decreases |ops|
  {
    if |ops| > 0 {
      KeepsStatements(w, ops[0]);
      NamesOnlyGrow(Next(w, ops[0]).0, ops[1..]);
      NamesGrowOnce(w, ops[0]);
    }
  }

  lemma NamesGrowOnce(w: World, op: Op)
    requires Meant(w.stmts.Keys, op)
    ensures |w.base.names| <= |Next(w, op).0.base.names|
  {
  }

  lemma {:induction false} FinalMaximum(w: World, k: int, ops: seq<Op>)
    requires AllMeant(w.stmts.Keys, ops) && w.base.maxdb <= k
    requires forall i :: 0 <= i < |ops| && ops[i].DoSetMax? ==> ops[i].n <= k
    ensures Ran(w, ops).0.base.maxdb <= k
    decreases |ops|
  {
    hide Next;
    if |ops| > 0 {
      KeepsStatements(w, ops[0]);
      MaximumAfter(w, ops[0]);
      FinalMaximum(Next(w, ops[0]).0, k, ops[1..]);
    }
  }

  lemma MaximumAfter(w: World, op: Op)
    requires Meant(w.stmts.Keys, op)
    ensures Next(w, op).0.base.maxdb == if op.DoSetMax? then op.n else w.base.maxdb
  {
  }

  lemma ConfirmedStep(w: World, s: Stmt, op: Op)
    requires Good(w) && s in w.stmts && w.stmts[s].prep == 'Y' && !w.closed
    requires Meant(w.stmts.Keys, op) && op != DoForce(s) && op != DoDisconnect
    requires |Next(w, op).0.base.names| <= w.stmts[s].confirmed
    ensures Next(w, op).0.stmts[s] == w.stmts[s] && !Next(w, op).0.closed
    ensures op == DoExecute(s) ==> Next(w, op).1 == Done
  {
    hide Live, Lawful, GoodView, Tried, Settled, LookedUp;
    if op == DoExecute(s) {
      ConfirmedExecutes(w, s);
    } else if op.DoPrepare? && op.s == s {
      PointsSomewhere(w, s);
    }
  }

  lemma PointsSomewhere(w: World, s: Stmt)
    requires Good(w) && s in w.stmts && (w.stmts[s].prep == 'P' || w.stmts[s].prep == 'Y')
    ensures w.stmts[s].made.Made?
  {
    hide Live, Lawful;
    assert GoodView(w.base.names, w.stmts[s]);
  }

  /** A program that has not connected yet, with one statement. */
  function Begin(s: Stmt): World {
    World(true, 0, Base(-1, [], 0), map[s := View('N', Nothing, 0)], [])
  }

  /**
   Raising the maximum breaks a confirmed statement: declared for one database, prepared and executed in A, it
   is confirmed; with two declared, and two known, it has no handle in B and was not prepared there.
   */
  lemma MaximumRaised(s: Stmt)
    ensures var ops := [DoConnect("A"), DoSetMax(1), DoPrepare(s, 0, Odbc(7, true, true)), DoExecute(s),
                        DoSetMax(2), DoSwitch("B"), DoPrepare(s, 0, Odbc(8, true, true)), DoExecute(s)];
      && AllMeant({s}, ops)
      && var (w, answers) := Ran(Begin(s), ops);
      && |w.base.names| == 2 == w.base.maxdb && answers == [Done, Done, Done, Done, Done, Done, Done, NoHandle]
  {
    hide *;
    var w := Base(1, ["A"], 0);
    var prep, again := DoPrepare(s, 0, Odbc(7, true, true)), DoPrepare(s, 0, Odbc(8, true, true));
    var made := Made(map["A" := 7], 1);
    var w4 := World(false, 1, w, map[s := View('Y', made, 1)], [Attached, Prepared(s, "A", 7), Executed(s, "A", 7)]);
    var ops5 := [DoSetMax(2), DoSwitch("B"), again, DoExecute(s)];
    LostAfterRaise(s, w4, ops5);
    ConfirmedInA(s, w4, ops5);
    assert [DoConnect("A")] + ([DoSetMax(1)] + ([prep] + ([DoExecute(s)] + ops5)))
        == [DoConnect("A"), DoSetMax(1), prep, DoExecute(s), DoSetMax(2), DoSwitch("B"), again, DoExecute(s)];
    assert [Done] + ([Done] + ([Done] + ([Done] + [Done, Done, Done, NoHandle])))
        == [Done, Done, Done, Done, Done, Done, Done, NoHandle];
  }

  lemma ConfirmedInA(s: Stmt, w4: World, rest: seq<Op>)
    requires AllMeant({s}, rest)
    requires w4 == World(false, 1, Base(1, ["A"], 0), map[s := View('Y', Made(map["A" := 7], 1), 1)],
                         [Attached, Prepared(s, "A", 7), Executed(s, "A", 7)])
    ensures var ops := [DoConnect("A")]
      + ([DoSetMax(1)] + ([DoPrepare(s, 0, Odbc(7, true, true))] + ([DoExecute(s)] + rest)));
      AllMeant({s}, ops)
      && Ran(Begin(s), ops) == (Ran(w4, rest).0, [Done] + ([Done] + ([Done] + ([Done] + Ran(w4, rest).1))))
  {
    hide Ran, Next;
    var prep := DoPrepare(s, 0, Odbc(7, true, true));
    var made := Made(map["A" := 7], 1);
    var w1 := World(false, 1, Base(-1, ["A"], 0), map[s := View('N', Nothing, 0)], [Attached]);
    var w2 := w1.(base := w1.base.(maxdb := 1));
    var w3 := w2.(stmts := map[s := View('P', made, 0)], log := [Attached, Prepared(s, "A", 7)]);
    FirstSteps(s, w1, w2);
    PreparedInA(w2, s);
    ExecutedInA(w3, s);
    RunOne(w3, DoExecute(s), rest, w4, Done);
    RunOne(w2, prep, [DoExecute(s)] + rest, w3, Done);
    RunOne(w1, DoSetMax(1), [prep] + ([DoExecute(s)] + rest), w2, Done);
    RunOne(Begin(s), DoConnect("A"), [DoSetMax(1)] + ([prep] + ([DoExecute(s)] + rest)), w1, Done);
  }

  lemma LostAfterRaise(s: Stmt, w4: World, ops: seq<Op>)
    requires !w4.closed && w4.base == Base(1, ["A"], 0) && w4.stmts == map[s := View('Y', Made(map["A" := 7], 1), 1)]
    requires ops == [DoSetMax(2), DoSwitch("B"), DoPrepare(s, 0, Odbc(8, true, true)), DoExecute(s)]
    ensures AllMeant({s}, ops) && Ran(w4, ops).0.base == Base(2, ["A", "B"], 1)
    ensures Ran(w4, ops).1 == [Done, Done, Done, NoHandle]
  {
    hide Ran, Next;
    var again := DoPrepare(s, 0, Odbc(8, true, true));
    var w5 := w4.(base := w4.base.(maxdb := 2));
    var w6 := w5.(base := Base(2, ["A", "B"], 1));
    var w8 := w6.(stmts := map[s := View('N', Made(map["A" := 7], 2), 1)]);
    ToB(w4, s);
    LostInB(w6, s);
    NothingRun(w8);
    RunOne(w6, DoExecute(s), [], w8, NoHandle);
    RunOne(w6, again, [DoExecute(s)] + [], w6, Done);
    RunOne(w5, DoSwitch("B"), [again] + ([DoExecute(s)] + []), w6, Done);
    RunOne(w4, DoSetMax(2), [DoSwitch("B")] + ([again] + ([DoExecute(s)] + [])), w5, Done);
    assert ops == [DoSetMax(2)] + ([DoSwitch("B")] + ([again] + ([DoExecute(s)] + [])));
    assert [Done] + ([Done] + ([Done] + ([NoHandle] + []))) == [Done, Done, Done, NoHandle];
  }

  lemma NothingRun(w: World)
    ensures Ran(w, []) == (w, [])
  {
  }

  lemma RunOne(w: World, op: Op, rest: seq<Op>, w1: World, o: Outcome)
    requires Meant(w.stmts.Keys, op) && AllMeant(w.stmts.Keys, rest) && Next(w, op) == (w1, o)
    ensures w1.stmts.Keys == w.stmts.Keys && AllMeant(w.stmts.Keys, [op] + rest)
    ensures Ran(w, [op] + rest) == (Ran(w1, rest).0, [o] + Ran(w1, rest).1)
  {
    hide Next;
    KeepsStatements(w, op);
    var ops := [op] + rest;
    assert ops[1..] == rest;
  }

  lemma FirstSteps(s: Stmt, w1: World, w2: World)
    requires w1 == World(false, 1, Base(-1, ["A"], 0), map[s := View('N', Nothing, 0)], [Attached])
    requires w2 == w1.(base := w1.base.(maxdb := 1))
    ensures Next(Begin(s), DoConnect("A")) == (w1, Done) && Next(w1, DoSetMax(1)) == (w2, Done)
  {
    assert Place([], "A") == 0 && [] + ["A"] == ["A"] && [] + [Attached] == [Attached];
  }

  lemma PreparedInA(w: World, s: Stmt)
    requires w == World(false, 1, Base(1, ["A"], 0), map[s := View('N', Nothing, 0)], [Attached])
    ensures Next(w, DoPrepare(s, 0, Odbc(7, true, true))) ==
      (w.(stmts := map[s := View('P', Made(map["A" := 7], 1), 0)], log := [Attached, Prepared(s, "A", 7)]), Done)
  {
    assert [Attached] + [] + [Prepared(s, "A", 7)] == [Attached, Prepared(s, "A", 7)];
    assert map[]["A" := 7] == map["A" := 7];
    var v := View('P', Made(map["A" := 7], 1), 0);
    assert w.stmts[s := v] == map[s := v];
  }

  lemma ExecutedInA(w: World, s: Stmt)
    requires w == World(false, 1, Base(1, ["A"], 0), map[s := View('P', Made(map["A" := 7], 1), 0)],
                        [Attached, Prepared(s, "A", 7)])
    ensures Next(w, DoExecute(s)) ==
      (w.(stmts := map[s := View('Y', Made(map["A" := 7], 1), 1)],
          log := [Attached, Prepared(s, "A", 7), Executed(s, "A", 7)]), Done)
  {
    assert [Attached, Prepared(s, "A", 7)] + [Executed(s, "A", 7)]
      == [Attached, Prepared(s, "A", 7), Executed(s, "A", 7)];
    var v := View('Y', Made(map["A" := 7], 1), 1);
    assert w.stmts[s := v] == map[s := v];
  }

  lemma ToB(w: World, s: Stmt)
    requires !w.closed && w.base.names == ["A"] && w.base.cur == 0
    ensures Next(w, DoSetMax(2)) == (w.(base := w.base.(maxdb := 2)), Done)
    ensures Next(w.(base := w.base.(maxdb := 2)), DoSwitch("B")) == (w.(base := Base(2, ["A", "B"], 1)), Done)
  {
    assert ["A"][1..] == [] && Place([], "B") == 0 && Place(["A"], "B") == 1;
    assert ["A"] + ["B"] == ["A", "B"];
  }

  lemma LostInB(w: World, s: Stmt)
    requires !w.closed && w.base.names == ["A", "B"] && w.base.cur == 1
    requires w.stmts == map[s := View('Y', Made(map["A" := 7], 1), 1)]
    ensures Next(w, DoPrepare(s, 0, Odbc(8, true, true))) == (w, Done)
    ensures Next(w, DoExecute(s)) == (w.(stmts := map[s := View('N', Made(map["A" := 7], 2), 1)]), NoHandle)
  {
    assert w.log + [] == w.log;
    assert w.stmts[s := w.stmts[s]] == w.stmts;
    var v := View('N', Made(map["A" := 7], 2), 1);
    assert w.stmts[s := v] == map[s := v];
  }
}
