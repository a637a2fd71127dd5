/**
 The statements of a COBOL program in the runtime: objects that point to one another, arrays of handles, the
 cache. Every operation is proved to do to them exactly what the machine of the statements says, and so is
 every run.
 */
module StatementStates {
  import opened DatabaseHandles
  import opened StatementCache
  import opened StatementMachine

  /** Handles are not shared. */
  ghost predicate Separate(members: set<Mysql>)
    reads set m | m in members :: m.st
  {
    forall m, n :: m in members && n in members && m != n ==> m.st != n.st && m.st.stmt != n.st.stmt
  }

  class Runtime {
    const dbs: Dbs
    const cs: StmtCache
    /** The statements of the program. */
    ghost const stmts: set<Stmt>
    var closed: bool
    var nConn: int
    ghost var log: seq<Event>
    ghost var repr: set<object>

    ghost predicate InRepr()
      reads `repr, repr
    {
      && dbs in repr && dbs.db in repr && cs in repr && cs.data in repr && cs.holders <= repr && stmts <= repr
      && this !in repr
      && (forall m :: m in cs.members ==> m.st in repr && m.st.stmt in repr && m.cobref in stmts)
      && (forall s :: s in stmts ==> s.iptr != null ==> s.iptr in cs.members)
    }

    /** A cached statement belongs to one statement of the program, and its handles to this connection. */
    ghost predicate SoundMember(m: Mysql)
      reads m.cobref`iptr, m.st, m.st.stmt, dbs`names
    {
      m.st.dbn == dbs && m.st.Valid(dbs.names) && m.cobref.iptr == m
    }

    ghost predicate Valid()
      reads `repr, repr
    {
      ValidBut(null)
    }

    /** Valid, but for the owner of one cached statement that does not point to it yet. */
    ghost predicate ValidBut(x: Mysql?)
      reads `repr, repr
    {
      && InRepr() && dbs.Valid() && cs.Valid()
      && (forall m :: m in cs.members && m != x ==> SoundMember(m))
      && (forall s :: s in stmts && s.iptr != null ==> s.iptr.cobref == s)
      && Separate(cs.members)
    }

    /** A statement as the machine sees it. */
    ghost function ViewOf(s: Stmt): View
      reads s, if s.iptr == null then {} else {s.iptr.st}
    {
      View(s.prep, if s.iptr == null then Nothing else Made(s.iptr.st.made, s.iptr.st.stmt.Length), s.confirmed)
    }

    ghost function Views(): map<Stmt, View>
      requires Valid()
      reads `repr, repr
    {
      map s | s in stmts :: ViewOf(s)
    }

    ghost function BaseOf(): Base
      reads dbs
    {
      Base(dbs.maxdb, dbs.names, dbs.dbcurr)
    }

    /** The runtime as the machine sees it. */
    ghost function State(): World
      requires Valid()
      reads this, repr
    {
      World(closed, nConn, BaseOf(), Views(), log)
    }

    /** Valid, and the letters of all statements say the truth. */
    ghost predicate Sound()
      reads this, repr
    {
      Valid() && Good(State())
    }

    constructor (maxdb: int, ghost stmts: set<Stmt>)
      requires forall s :: s in stmts ==> Free(s)
      ensures Sound() && this.stmts == stmts
      ensures State() == World(true, 0, Base(maxdb, [], 0), map s | s in stmts :: Freed(), [])
    {
      hide Tidy, Linked, Dbs.Valid, StmtCache.Valid, Separate, Good, SoundMember;
      dbs := new Dbs(maxdb);
      cs := new StmtCache(10009);
      this.stmts := stmts;
      closed := true;
      nConn := 0;
      log := [];
      new;
      repr := {dbs, dbs.db, cs, cs.data} + stmts;
      NothingShared();
      GoodStart(State());
    }

    /** No other statement is touched. */
    twostate predicate OthersKept(s: Stmt)
      reads stmts, set t | t in stmts && t.iptr != null :: t.iptr.st
    {
      forall t :: t in stmts && t != s ==> ViewOf(t) == old(ViewOf(t))
    }

    /** Where everything is that an operation on a statement may change. */
    lemma Footprint(s: Stmt)
      requires Valid() && s in stmts
      ensures s in repr && cs in repr && cs.data in repr && cs.holders <= repr && this !in repr
      ensures s.iptr != null ==> s.iptr.st in repr && s.iptr.st.stmt in repr && s.iptr.st.dbn == dbs
    {
      hide Tidy, Linked, Dbl.Valid, StmtCache.Valid, Separate;
    }

    lemma Frame()
      requires Valid()
      ensures {dbs, dbs.db, cs, cs.data} + stmts <= repr && this !in repr
      ensures State().stmts.Keys == stmts
    {
      hide Tidy, Linked, Dbs.Valid, Dbl.Valid, StmtCache.Valid, Separate;
    }

    lemma SeenAt(s: Stmt)
      requires Valid() && s in stmts
      ensures s in State().stmts && State().stmts[s] == ViewOf(s)
    {
      hide Valid, ViewOf;
    }

    /** Cached statements are pointed to by their owners. */
    lemma Pointers()
      requires forall m :: m in cs.members ==> SoundMember(m)
      ensures forall m :: m in cs.members ==> m.cobref.iptr == m && m.st.dbn == dbs && m.st.Valid(dbs.names)
    {
    }

    lemma NewMember(msql: Mysql)
      requires msql.st.dbn == dbs && msql.st.Valid(dbs.names) && msql.cobref.iptr == msql
      ensures SoundMember(msql)
    {
    }

    lemma HasDatabase()
      requires Sound() && !closed
      ensures dbs.dbcurr < |dbs.names|
    {
      hide Valid, Lawful;
    }

    /** Set the state letter of a statement. */
    method Mark(s: Stmt, state: char)
      requires Valid() && s in stmts
      modifies s`prep
      ensures Valid() && OthersKept(s) && ViewOf(s) == old(ViewOf(s)).(prep := state)
    {
      hide Tidy, Linked, Dbs.Valid, Dbl.Valid, StmtCache.Valid, Separate, SoundMember;
      s.prep := state;
    }

    lemma RoomForName(name: string)
      requires forall m :: m in cs.members ==> SoundMember(m)
      ensures forall m :: m in cs.members ==> m.st.Valid(if name in dbs.names then dbs.names else dbs.names + [name])
    {
      hide Dbl.Valid;
      forall m | m in cs.members ensures m.st.Valid(if name in dbs.names then dbs.names else dbs.names + [name]) {
        if name !in dbs.names {
          NamesGrow(m.st, dbs.names, name);
        }
      }
    }

    /** Make a database current; what the statements have prepared is not touched. */
    method Enter(name: string)
      requires Valid()
      modifies `repr, dbs, dbs.db
      ensures fresh(repr - old(repr)) && Valid() && dbs.names != []
      ensures BaseOf() == Entered(old(BaseOf()), name)
    {
      hide Tidy, Linked, Dbs.Valid, Dbl.Valid, StmtCache.Valid, Separate, SoundMember, ViewOf, Views, State;
      Pointers();
      RoomForName(name);
      ghost var names := dbs.names;
      dbs.SetCurrentDB(name);
      repr := repr + {dbs.db};
      assert names[..|names|] == names;
      forall m | m in cs.members ensures SoundMember(m) {
        NewMember(m);
      }
    }

    /** Connect, or switch to another database. */
    method Switch(name: string)
      requires Valid()
      modifies `repr, dbs, dbs.db
      ensures fresh(repr - old(repr)) && Valid() && dbs.names != []
      ensures State() == Switched(old(State()), name)
    {
      hide Tidy, Linked, Dbs.Valid, Dbl.Valid, StmtCache.Valid, Separate, SoundMember, Entered;
      Enter(name);
      assert Views() == old(Views());
    }

    /** Give up what was prepared for a statement. */
    method Drop(s: Stmt)
      requires Valid() && s in stmts && s.iptr != null
      modifies `log, s, cs, cs.data, cs.holders
      ensures Valid() && OthersKept(s) && ViewOf(s) == Freed() && log == old(log) + [Dropped(s)]
    {
      hide Valid;
      Unlink(s);
      Footprint(s);
      log := log + [Dropped(s)];
    }

    method Unlink(s: Stmt)
      requires Valid() && s in stmts && s.iptr != null
      modifies s, cs, cs.data, cs.holders
      ensures Valid() && OthersKept(s) && Free(s) && s.prep == 'N'
    {
      hide Tidy, Linked, Dbs.Valid, Dbl.Valid, StmtCache.Valid, Separate, SoundMember, ViewOf;
      var msql := s.iptr;
      Pointers();
      SeparateLess(cs.members, msql);
      s.prep := 'N';
      s.iptr := null;
      cs.Remove(msql);
    }

    method NewMysql(s: Stmt, address: nat) returns (msql: Mysql)
      requires dbs.Valid()
      ensures fresh(msql) && fresh(msql.st) && fresh(msql.st.stmt)
      ensures msql.cobref == s && msql.st.dbn == dbs && msql.st.Valid(dbs.names) && msql.st.made == map[]
      ensures msql.st.stmt.Length == if dbs.maxdb > |dbs.names| then dbs.maxdb else |dbs.names|
    {
      var st := new Dbl(dbs);
      msql := new Mysql(address, st, s);
    }

    /** A new prepared statement, with no handles yet. */
    method Create(s: Stmt, address: nat)
      requires Valid() && s in stmts && s.iptr == null
      modifies `repr, s`iptr, cs, cs.data, cs.holders
      ensures fresh(repr - old(repr)) && Valid() && OthersKept(s)
      ensures s.iptr != null && fresh(s.iptr.st) && fresh(s.iptr.st.stmt)
      ensures ViewOf(s) ==
        old(ViewOf(s)).(made := Made(map[], if dbs.maxdb > |dbs.names| then dbs.maxdb else |dbs.names|))
    {
      hide Tidy, Linked, Dbs.Valid, Dbl.Valid, StmtCache.Valid, SoundMember, Separate, ViewOf;
      ViewIs(s);
      var msql := NewMysql(s, address);
      Adopt(s, msql);
      Point(s, msql);
      ViewIs(s);
    }

    lemma ViewIs(s: Stmt)
      ensures ViewOf(s) ==
        View(s.prep, if s.iptr == null then Nothing else Made(s.iptr.st.made, s.iptr.st.stmt.Length), s.confirmed)
    {
    }

    lemma Newcomer(msql: Mysql)
      requires InRepr() && Separate(cs.members) && msql.st !in repr && msql.st.stmt !in repr
      ensures Separate(cs.members + {msql})
    {
    }

    /** Put a prepared statement into the cache. */
    method Adopt(s: Stmt, msql: Mysql)
      requires Valid() && s in stmts && s.iptr == null && msql.st !in repr && msql.st.stmt !in repr && msql.cobref == s
      modifies `repr, cs, cs.data, cs.holders
      ensures fresh(repr - old(repr) - {msql.st, msql.st.stmt}) && ValidBut(msql) && msql in cs.members
    {
      hide Tidy, Linked, Dbs.Valid, Dbl.Valid, StmtCache.Valid, Separate, SoundMember, ViewOf, State, Views;
      Newcomer(msql);
      cs.Put(msql);
      repr := repr + cs.holders + {msql.st, msql.st.stmt};
    }

    /** Point to a cached statement. */
    method Point(s: Stmt, msql: Mysql)
      requires ValidBut(msql) && s in stmts && s.iptr == null && msql in cs.members && msql.cobref == s
      requires msql.st.dbn == dbs && msql.st.Valid(dbs.names)
      modifies s`iptr
      ensures Valid() && OthersKept(s) && s.iptr == msql
    {
      hide Tidy, Linked, Dbs.Valid, Dbl.Valid, StmtCache.Valid, Separate;
      s.iptr := msql;
    }

    /** The handle for the current database, or 0; the statement has room for it afterwards. */
    method CurrentHandle(s: Stmt) returns (h: Handle)
      requires Valid() && s in stmts && s.iptr != null && dbs.dbcurr < |dbs.names|
      modifies `repr, s.iptr.st
      ensures fresh(repr - old(repr)) && Valid() && OthersKept(s)
      ensures ViewOf(s) == old(ViewOf(s)).(made := LookedUp(BaseOf(), old(ViewOf(s)).made))
      ensures s.iptr.st.stmt == old(s.iptr.st.stmt) || fresh(s.iptr.st.stmt)
      ensures HasHandle(BaseOf(), ViewOf(s).made) <==> h != 0
      ensures h != 0 ==> h == ViewOf(s).made.handles[dbs.Current()]
    {
      hide Tidy, Linked, Dbs.Valid, Dbl.Valid, StmtCache.Valid, Separate, SoundMember, ViewOf, State, Views;
      ViewIs(s);
      Pointers();
      SeparateLess(cs.members, s.iptr);
      h := s.iptr.st.Get();
      repr := repr + {s.iptr.st.stmt};
      NewMember(s.iptr);
      SeparateMore(cs.members - {s.iptr}, s.iptr);
      assert cs.members - {s.iptr} + {s.iptr} == cs.members;
      ViewIs(s);
    }

    /** Keep the handle a database has given. */
    method Keep(s: Stmt, h: Handle)
      requires Valid() && s in stmts && s.iptr != null && dbs.dbcurr < |dbs.names| && dbs.dbcurr < s.iptr.st.stmt.Length
      requires h != 0
      modifies `repr, s.iptr.st, s.iptr.st.stmt
      ensures fresh(repr - old(repr)) && Valid() && OthersKept(s)
      ensures ViewOf(s) == old(ViewOf(s)).(made := Made(old(s.iptr.st.made)[dbs.Current() := h],
                                                        old(s.iptr.st.stmt.Length)))
    {
      hide Tidy, Linked, Dbs.Valid, Dbl.Valid, StmtCache.Valid, Separate, SoundMember, ViewOf, State, Views;
      ViewIs(s);
      Pointers();
      SeparateLess(cs.members, s.iptr);
      s.iptr.st.Set(h);
      repr := repr + {s.iptr.st.stmt};
      NewMember(s.iptr);
      SeparateMore(cs.members - {s.iptr}, s.iptr);
      assert cs.members - {s.iptr} + {s.iptr} == cs.members;
      ViewIs(s);
    }

    /** Has the program a handle for this statement in every database declared? */
    method Confirm(s: Stmt)
      requires Valid() && s in stmts && s.iptr != null
      modifies s`prep, s`confirmed
      ensures Valid() && OthersKept(s)
      ensures ViewOf(s) == if Confirms(BaseOf(), old(ViewOf(s)).made)
        then old(ViewOf(s)).(prep := 'Y', confirmed := dbs.maxdb) else old(ViewOf(s)).(prep := 'N')
    {
      hide Tidy, Linked, Dbs.Valid, Dbl.Valid, StmtCache.Valid, Separate;
      var all := s.iptr.st.CheckAll();
      if all {
        s.prep := 'Y';
        s.confirmed := dbs.maxdb;
      } else {
        s.prep := 'N';
      }
    }

    twostate predicate SameDatabase()
      reads this, dbs
    {
      closed == old(closed) && nConn == old(nConn) && BaseOf() == old(BaseOf())
    }

    /** The first part of a preparation: a statement without anything prepared, or forced, starts over. */
    method ResetStatement(s: Stmt)
      requires Valid() && s in stmts
      modifies `log, repr
      ensures Valid() && OthersKept(s) && SameDatabase() && repr == old(repr)
      ensures ViewOf(s) == Reset(old(ViewOf(s))) && log == old(log) + DropEvents(old(ViewOf(s)), s)
    {
      hide Tidy, Linked, Dbs.Valid, Dbl.Valid, StmtCache.Valid, Separate, SoundMember, ValidBut, InRepr;
      Footprint(s);
      if s.iptr == null {
        Mark(s, 'N');
      }
      if s.prep == 'A' {
        Drop(s);
      }
    }

    /** Prepare a statement that is in state N. */
    method Try(s: Stmt, address: nat, odbc: Odbc) returns (outcome: Outcome, ghost prepared: bool)
      requires Valid() && s in stmts && s.prep == 'N' && dbs.dbcurr < |dbs.names|
      modifies `repr, repr
      ensures fresh(repr - old(repr)) && Valid() && OthersKept(s) && SameDatabase() && log == old(log)
      ensures (ViewOf(s), outcome, prepared) == Tried(BaseOf(), old(ViewOf(s)), odbc)
    {
      hide Tidy, Linked, Dbs.Valid, Dbl.Valid, StmtCache.Valid, Separate, SoundMember, ValidBut, InRepr, Opened;
      Footprint(s);
      Mark(s, 'X');
      var h := Open(s, address);
      if h != 0 {
        Mark(s, 'P');
        return Done, false;
      }
      Footprint(s);
      outcome, prepared := Ask(s, odbc);
    }

    /** Have something a handle for the current database can be kept in, and the handle that is there, or 0. */
    method Open(s: Stmt, address: nat) returns (h: Handle)
      requires Valid() && s in stmts && dbs.dbcurr < |dbs.names|
      modifies `repr, repr
      ensures fresh(repr - old(repr)) && Valid() && OthersKept(s) && SameDatabase() && log == old(log)
      ensures ViewOf(s) == old(ViewOf(s)).(made := Opened(BaseOf(), old(ViewOf(s)).made))
      ensures s.iptr != null && dbs.dbcurr < s.iptr.st.stmt.Length
      ensures HasHandle(BaseOf(), ViewOf(s).made) <==> h != 0
    {
      hide Tidy, Linked, Dbs.Valid, Dbl.Valid, StmtCache.Valid, Separate, SoundMember, ValidBut, InRepr;
      Footprint(s);
      if s.iptr != null {
        h := CurrentHandle(s);
      } else {
        Create(s, address);
        h := 0;
      }
    }

    /** Have the database prepare a statement there is no handle for. */
    method Ask(s: Stmt, odbc: Odbc) returns (outcome: Outcome, ghost prepared: bool)
      requires Valid() && s in stmts && s.iptr != null && dbs.dbcurr < |dbs.names| && dbs.dbcurr < s.iptr.st.stmt.Length
      modifies `repr, s`prep, s.iptr.st, s.iptr.st.stmt
      ensures fresh(repr - old(repr)) && Valid() && OthersKept(s)
      ensures (ViewOf(s), outcome, prepared) == Asked(BaseOf(), old(ViewOf(s)), odbc)
    {
      hide Tidy, Linked, Dbs.Valid, Dbl.Valid, StmtCache.Valid, Separate, SoundMember, ValidBut, InRepr;
      if odbc.handle == 0 || !odbc.prepares || !odbc.binds {
        return Refused, false;
      }
      Keep(s, odbc.handle);
      Mark(s, 'P');
      return Done, true;
    }

    /**
     Prepare a statement in the current database. A statement that is prepared already, or whose preparation
     failed and has not been executed since, is left alone; a forced one gives up its handles first.
     */
    method PrepareStatement(s: Stmt, address: nat, odbc: Odbc) returns (outcome: Outcome)
      requires Sound() && s in stmts
      modifies `log, `repr, repr
      ensures fresh(repr - old(repr)) && Valid()
      ensures (State(), outcome) == Prepare(old(State()), s, odbc)
    {
      hide Tidy, Linked, Dbs.Valid, Dbl.Valid, StmtCache.Valid, Separate, SoundMember, ValidBut, Tried, Reset,
        DropEvents, Good, Views;
      if closed {
        return NotConnected;
      }
      HasDatabase();
      SeenAt(s);
      ResetStatement(s);
      if s.prep != 'N' {
        Changed(s);
        return Done;
      }
      Footprint(s);
      ghost var prepared;
      outcome, prepared := Try(s, address, odbc);
      log := log + if prepared then [Prepared(s, dbs.Current(), odbc.handle)] else [];
      Changed(s);
    }

    /** The machine sees one statement changed. */
    twostate lemma Changed(s: Stmt)
      requires old(Valid()) && Valid() && s in stmts && OthersKept(s)
      ensures State().stmts == old(State().stmts)[s := ViewOf(s)]
    {
    }

    /** Execute a statement that is in state P or Y. */
    method Attempt(s: Stmt) returns (h: Handle)
      requires Valid() && s in stmts && s.iptr != null && (s.prep == 'P' || s.prep == 'Y') && dbs.dbcurr < |dbs.names|
      modifies `repr, repr
      ensures fresh(repr - old(repr)) && Valid() && OthersKept(s) && SameDatabase() && log == old(log)
      ensures var v1 := old(ViewOf(s)).(made := LookedUp(BaseOf(), old(ViewOf(s)).made));
        if HasHandle(BaseOf(), v1.made)
        then h != 0 && h == v1.made.handles[dbs.Current()] && ViewOf(s) == Settled(BaseOf(), v1)
        else h == 0 && ViewOf(s) == v1.(prep := 'N')
    {
      hide Tidy, Linked, Dbs.Valid, Dbl.Valid, StmtCache.Valid, Separate, SoundMember, ValidBut, LookedUp, Confirms;
      Footprint(s);
      h := CurrentHandle(s);
      if h == 0 {
        Mark(s, 'N');
      } else if s.prep == 'P' {
        Confirm(s);
      }
    }

    /** Execute a statement in the current database. */
    method ExecuteStatement(s: Stmt) returns (outcome: Outcome)
      requires Sound() && s in stmts
      modifies `log, `repr, repr
      ensures fresh(repr - old(repr)) && Valid()
      ensures (State(), outcome) == Execute(old(State()), s)
    {
      hide Tidy, Linked, Dbs.Valid, Dbl.Valid, StmtCache.Valid, Separate, SoundMember, ValidBut, LookedUp, Confirms,
        Settled, Good, Views;
      if closed {
        return NotConnected;
      }
      HasDatabase();
      SeenAt(s);
      Footprint(s);
      if s.prep != 'Y' && s.prep != 'P' {
        Mark(s, 'N');
        Changed(s);
        return NotPrepared;
      }
      PointsSomewhere(State(), s);
      var h := Attempt(s);
      outcome := NoHandle;
      if h != 0 {
        log := log + [Executed(s, dbs.Current(), h)];
        outcome := Done;
      }
      Changed(s);
    }

    /** Connect; the first database of the connection becomes known. */
    method Connect(name: string)
      requires Valid()
      modifies `closed, `nConn, `log, `repr, dbs, dbs.db
      ensures fresh(repr - old(repr)) && Valid()
      ensures State() == Connected(old(State()), name)
    {
      hide Tidy, Linked, Dbs.Valid, Dbl.Valid, StmtCache.Valid, Separate, SoundMember, Switched, ValidBut, Entered,
        Views;
      Switch(name);
      Frame();
      closed := false;
      nConn := nConn + 1;
      log := log + [Attached];
    }

    /** Destroy all prepared statements; every statement of the program that pointed to one is free. */
    method ClearCache()
      requires Valid()
      modifies cs, cs.data, stmts
      ensures Valid() && Views() == Cleared(old(Views()))
    {
      hide Tidy, Linked, Dbs.Valid, Dbl.Valid, StmtCache.Valid, Separate, SoundMember, ValidBut;
      OwnersArePointers();
      FreeAll();
      assert Views() == Cleared(old(Views()));
    }

    method FreeAll()
      requires Valid() && cs.Owners() <= stmts
      modifies cs, cs.data, stmts
      ensures Valid()
      ensures forall s :: s in old(cs.Owners()) ==> Free(s)
      ensures forall s :: s in stmts && s !in old(cs.Owners()) ==>
        s.iptr == old(s.iptr) && s.prep == old(s.prep) && s.confirmed == old(s.confirmed)
    {
      hide Tidy, Linked, Dbs.Valid, Dbl.Valid, StmtCache.Valid, Separate, SoundMember;
      OwnersArePointers();
      cs.Clear();
      NothingShared();
    }

    lemma NothingShared()
      ensures Separate({})
    {
    }

    /** Disconnect; with the last connection all prepared statements go, and the program's statements know it. */
    method Disconnect() returns (outcome: Outcome)
      requires Valid()
      modifies `closed, `nConn, `log, cs, cs.data, stmts
      ensures Valid()
      ensures (State(), outcome)
           == if old(closed) then (old(State()), NotConnected) else (Disconnected(old(State())), Done)
    {
      hide Tidy, Linked, Dbs.Valid, Dbl.Valid, StmtCache.Valid, Separate, SoundMember, ValidBut, Views;
      if closed {
        return NotConnected;
      }
      Frame();
      nConn := nConn - 1;
      if nConn == 0 {
        ClearCache();
        log := log + [AllCleared];
      }
      log := log + [Detached];
      closed := true;
      outcome := Done;
    }

    /** The statements that own something are those that point somewhere. */
    lemma OwnersArePointers()
      requires Valid()
      ensures forall s :: s in stmts ==> (s in cs.Owners() <==> s.iptr != null)
      ensures cs.Owners() <= stmts
    {
      hide Tidy, Linked, Dbs.Valid, Dbl.Valid, StmtCache.Valid, Separate;
    }

    /** Declare how many databases the program is going to use. */
    method SetMax(n: int)
      requires Valid()
      modifies dbs`maxdb
      ensures Valid() && State() == old(State()).(base := old(BaseOf()).(maxdb := n))
    {
      hide Tidy, Linked, Dbl.Valid, StmtCache.Valid, Separate, SoundMember;
      dbs.maxdb := n;
    }

    /** One operation: what the machine says, and its answer. */
    method Step(op: Op) returns (outcome: Outcome)
      requires Sound() && Meant(stmts, op)
      modifies this, repr
      ensures fresh(repr - old(repr)) && Sound() && (State(), outcome) == Next(old(State()), op)
    {
      hide Tidy, Linked, Dbs.Valid, Dbl.Valid, StmtCache.Valid, Separate, SoundMember, ValidBut, Good, Views;
      Frame();
      GoodNext(State(), op);
      outcome := Done;
      match op
      case DoConnect(name) => Connect(name);
      case DoDisconnect => outcome := Disconnect();
      case DoSetMax(n) => SetMax(n);
      case DoSwitch(name) => Switch(name);
      case DoForce(s) =>
        SeenAt(s);
        Mark(s, 'A');
        Changed(s);
      case DoPrepare(s, address, odbc) => outcome := PrepareStatement(s, address, odbc);
      case DoExecute(s) => outcome := ExecuteStatement(s);
    }

    /** Pointers and count agree in every valid state. */
    lemma InOrder()
      requires Sound()
      ensures cs.count == |cs.members| && Lawful(log)
      ensures forall m :: m in cs.members ==> m.cobref in stmts && m.cobref.iptr == m
      ensures forall s :: s in stmts && s.iptr != null ==> s.iptr in cs.members && s.iptr.cobref == s
    {
      hide Tidy, Linked, Dbs.Valid, Dbl.Valid, Separate, Live, Lawful;
    }

    /**
     Any program: every run leaves the runtime in the state the machine says, with the machine's answers and
     its log, and the cached statements and the pointers of the program correspond one to one.
     */
    method Run(ops: seq<Op>) returns (outcomes: seq<Outcome>)
      requires Sound() && AllMeant(stmts, ops)
      modifies this, repr
      ensures Sound() && (State(), outcomes) == Ran(old(State()), ops)
      ensures old(log) <= log && Lawful(log) && cs.count == |cs.members|
      ensures forall m :: m in cs.members ==> m.cobref in stmts && m.cobref.iptr == m
      ensures forall s :: s in stmts && s.iptr != null ==> s.iptr in cs.members && s.iptr.cobref == s
    {
      hide Valid, Good, Next, Lawful, Meant, Views;
      outcomes := [];
      Frame();
      GoodRun(State(), ops);
      assert ops[0..] == ops;
      for i := 0 to |ops|
        invariant Sound() && fresh(repr - old(repr)) && AllMeant(stmts, ops[i..]) && State().stmts.Keys == stmts
        invariant Ran(State(), ops[i..]).0 == Ran(old(State()), ops).0
        invariant outcomes + Ran(State(), ops[i..]).1 == Ran(old(State()), ops).1
      {
        RanOnce(State(), ops[i..]);
        assert ops[i..][1..] == ops[i + 1..];
        Frame();
        var outcome := Step(ops[i]);
        outcomes := outcomes + [outcome];
        Frame();
      }
      NothingRun(State());
      assert outcomes + [] == outcomes;
      InOrder();
    }
  }

  lemma GoodStart(w: World)
    requires w.closed && w.base.names == [] && w.log == [] && forall s :: s in w.stmts ==> w.stmts[s] == Freed()
    ensures Good(w)
  {
  }

  lemma SeparateMore(members: set<Mysql>, msql: Mysql)
    requires Separate(members)
    requires forall m :: m in members ==> m == msql || (m.st != msql.st && m.st.stmt != msql.st.stmt)
    ensures Separate(members + {msql})
  {
  }

  lemma SeparateLess(members: set<Mysql>, msql: Mysql)
    requires Separate(members) && msql in members
    ensures Separate(members - {msql})
    ensures forall m :: m in members - {msql} ==> m.st != msql.st && m.st.stmt != msql.st.stmt
  {
  }
}
