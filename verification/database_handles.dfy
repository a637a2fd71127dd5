/**
 Databases of a connection, and the statement handles a prepared statement has in each of them.
 The names are interned in a growing array; a statement keeps its handles in another array, indexed by
 the number of the database, which grows when a database is used that it has no room for.
 */
module DatabaseHandles {

  /** A statement handle of the database; 0 is none. */
  type Handle = nat

  /** The number of a name, or the next free number. */
  function Place(names: seq<string>, name: string): (n: nat)
    ensures n <= |names| && name !in names[..n] && (n < |names| ==> names[n] == name)
  {
    if |names| == 0 || names[0] == name then 0
    else
      var n := Place(names[1..], name);
      assert names[..n + 1] == [names[0]] + names[1..][..n];
      n + 1
  }

  lemma PlaceIs(names: seq<string>, name: string, n: nat)
    requires n <= |names| && (forall j :: 0 <= j < n ==> names[j] != name) && (n < |names| ==> names[n] == name)
    ensures Place(names, name) == n
  {
    if n > 0 {
      assert names[0] != name;
      PlaceIs(names[1..], name, n - 1);
    }
  }

  /** Room of a statement once it has been used in database cur of n. */
  function RoomFor(room: nat, cur: nat, n: nat): nat {
    if cur >= room then n else room
  }

  /** Every database there is room for has a handle. */
  ghost predicate AllMade(names: seq<string>, made: map<string, Handle>, room: nat) {
    room <= |names| && forall i :: 0 <= i < room ==> names[i] in made
  }

  class Dbs {
    var maxdb: int
    var dbct: nat
    var dbcurr: nat
    var db: array<string>
    ghost var names: seq<string>

    ghost predicate Valid()
      reads this, db
    {
      && dbct == |names| <= db.Length && 0 < db.Length
      && (forall i :: 0 <= i < dbct ==> db[i] == names[i])
      && (forall i, j :: 0 <= i < j < |names| ==> names[i] != names[j])
      && (if dbct == 0 then dbcurr == 0 else dbcurr < dbct)
    }

    /** The name of the current database; there is one once a connection has been made. */
    ghost function Current(): string
      requires dbcurr < |names|
      reads this
    {
      names[dbcurr]
    }

    constructor (maxdbnum: int)
      ensures Valid() && fresh(db) && names == [] && maxdb == maxdbnum
    {
      maxdb := maxdbnum;
      db := new string[100];
      dbct := 0;
      dbcurr := 0;
      names := [];
    }

    /** Copy the names into an array of twice the size. */
    method Double()
      requires Valid()
      modifies `db
      ensures Valid() && fresh(db) && db.Length == 2 * old(db.Length)
    {
      var db1 := new string[db.Length + db.Length];
      for i := 0 to db.Length
        invariant forall j :: 0 <= j < i ==> db1[j] == db[j]
        modifies db1
      {
        db1[i] := db[i];
      }
      db := db1;
    }

    /** Make a database current, interning its name when it is new; numbers once given stay. */
    method SetCurrentDB(name: string)
      requires Valid()
      modifies this, db
      ensures Valid() && (db == old(db) || fresh(db)) && maxdb == old(maxdb)
      ensures dbcurr == Place(old(names), name)
      ensures names == if dbcurr < |old(names)| then old(names) else old(names) + [name]
    {
      for i := 0 to dbct
        invariant forall j :: 0 <= j < i ==> names[j] != name
        modifies this`dbcurr
      {
        if name == db[i] {
          PlaceIs(names, name, i);
          dbcurr := i;
          return;
        }
      }
      PlaceIs(names, name, dbct);
      if dbct == db.Length {
        Double();
      }
      db[dbct] := name;
      dbcurr := dbct;
      dbct := dbct + 1;
      names := names + [name];
    }
  }

  class Dbl {
    const dbn: Dbs
    var stmt: array<Handle>
    /** The handles by database name. */
    ghost var made: map<string, Handle>

    /** The number of a database indexes its handle; there are no handles for numbers not given yet. */
    ghost predicate Valid(names: seq<string>)
      reads this, stmt
    {
      && (forall n :: n in made ==> n in names && made[n] != 0)
      && (forall i :: 0 <= i < |names| && i < stmt.Length ==> stmt[i] == HandleOf(names[i]))
      && (forall i :: stmt.Length <= i < |names| ==> names[i] !in made)
      && (forall i :: |names| <= i < stmt.Length ==> stmt[i] == 0)
    }

    ghost function HandleOf(name: string): Handle
      reads this
    {
      if name in made then made[name] else 0
    }

    constructor (pdbn: Dbs)
      requires pdbn.Valid()
      ensures fresh(stmt) && dbn == pdbn && made == map[] && Valid(pdbn.names)
      ensures stmt.Length == if pdbn.maxdb > |pdbn.names| then pdbn.maxdb else |pdbn.names|
    {
      dbn := pdbn;
      var ct := pdbn.dbct;
      if pdbn.maxdb > ct {
        ct := pdbn.maxdb;
      }
      stmt := new Handle[ct](_ => 0);
      made := map[];
    }

    /** Make room for the current database. */
    method Grow()
      requires dbn.Valid() && dbn.names != [] && Valid(dbn.names)
      modifies this
      ensures Valid(dbn.names) && made == old(made) && dbn.dbcurr < stmt.Length
      ensures stmt == old(stmt) || fresh(stmt)
      ensures stmt.Length == RoomFor(old(stmt.Length), dbn.dbcurr, |dbn.names|)
    {
      var nc := dbn.dbcurr;
      if nc >= stmt.Length {
        var stmt1 := new Handle[dbn.dbct](_ => 0);
        for i := 0 to stmt.Length
          invariant forall j :: 0 <= j < i ==> stmt1[j] == stmt[j]
          invariant forall j :: i <= j < stmt1.Length ==> stmt1[j] == 0
          modifies stmt1
        {
          stmt1[i] := stmt[i];
        }
        stmt := stmt1;
      }
    }

    /** Store the handle of the current database. */
    method Set(h: Handle)
      requires dbn.Valid() && dbn.names != [] && Valid(dbn.names) && h != 0
      modifies this, stmt
      ensures Valid(dbn.names) && made == old(made)[dbn.Current() := h]
      ensures stmt == old(stmt) || fresh(stmt)
      ensures stmt.Length == RoomFor(old(stmt.Length), dbn.dbcurr, |dbn.names|)
    {
      Grow();
      Store(h);
    }

    /** Store a handle where there is room for it. */
    method Store(h: Handle)
      requires dbn.Valid() && dbn.dbcurr < |dbn.names| && dbn.dbcurr < stmt.Length && Valid(dbn.names) && h != 0
      modifies `made, stmt
      ensures Valid(dbn.names) && made == old(made)[dbn.Current() := h]
    {
      var nc := dbn.dbcurr;
      ghost var name := dbn.names[nc];
      stmt[nc] := h;
      made := made[name := h];
    }

    /** The handle of the current database; an array without room for it grows. */
    method Get() returns (h: Handle)
      requires dbn.Valid() && dbn.names != [] && Valid(dbn.names)
      modifies this
      ensures Valid(dbn.names) && made == old(made) && h == HandleOf(dbn.Current())
      ensures h != 0 <==> dbn.Current() in made
      ensures stmt == old(stmt) || fresh(stmt)
      ensures stmt.Length == RoomFor(old(stmt.Length), dbn.dbcurr, |dbn.names|)
    {
      Grow();
      h := stmt[dbn.dbcurr];
    }

    /** Has the statement a handle in each of the declared number of databases? */
    method CheckAll() returns (all: bool)
      requires dbn.Valid() && Valid(dbn.names)
      ensures all <==> stmt.Length == dbn.maxdb && AllMade(dbn.names, made, stmt.Length)
    {
      if stmt.Length != dbn.maxdb {
        return false;
      }
      for i := 0 to stmt.Length
        invariant forall j :: 0 <= j < i ==> stmt[j] != 0
      {
        if stmt[i] == 0 {
          NotFull(i);
          return false;
        }
      }
      AllNonZero();
      return true;
    }

    lemma NotFull(i: nat)
      requires Valid(dbn.names) && i < stmt.Length && stmt[i] == 0
      ensures !AllMade(dbn.names, made, stmt.Length)
    {
      if i < |dbn.names| {
        assert HandleOf(dbn.names[i]) == 0;
      }
    }

    lemma NothingBeyond()
      requires Valid(dbn.names)
      ensures |dbn.names| < stmt.Length ==> stmt[|dbn.names|] == 0
    {
    }

    lemma AllNonZero()
      requires Valid(dbn.names) && forall j :: 0 <= j < stmt.Length ==> stmt[j] != 0
      ensures AllMade(dbn.names, made, stmt.Length)
    {
      NothingBeyond();
      forall i | 0 <= i < stmt.Length ensures dbn.names[i] in made {
        assert stmt[i] == HandleOf(dbn.names[i]);
      }
    }
  }

  /** Interning another name does not disturb the handles of any statement. */
  lemma NamesGrow(l: Dbl, names: seq<string>, name: string)
    requires l.Valid(names) && name !in names
    ensures l.Valid(names + [name])
  {
  }
}
