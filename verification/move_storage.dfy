/**
 What the planned moves come to for each parameter, however many there are: what the database is told and finds before
 an execution, and what the program has in its storage after a fetch.
 */
module MoveStorage {
  import opened Texts
  import opened MoveTables
  import opened MoveExecution
  import D = PackedDecimal

  /** The storage of a parameter, its buffer if it has one, and where it is bound. */
  predicate Slotted(s: Slot, nts: bool, b: int, env: Bound, st: Store) {
    && 0 <= s.i < |st.lens| && 0 <= s.c.len && 0 <= s.c.addr && s.c.addr + FieldSize(s.c) <= |st.mem|
    && (BufCount(s, nts) == 1 ==>
          && 0 <= b < |st.bufs| == |env.pbuf| && env.pbuf[b] == BufferFor(s)
          && |st.bufs[b]| == if s.c.kind == '3' then 22 else s.c.len + 1)
    && (BufCount(s, nts) == 1 && s.c.kind == '3' ==> DecimalFits(BufferFor(s)))
    && (Converted(s, nts) ==> s.i < |env.hosts| && env.hosts[s.i] == Buf(b))
    && (s.w.sends && s.w.receives ==> env.call)
  }

  /** The storage of a row, and the part of it behind the length. */
  function Field(c: Cell, mem: Text): (t: Text)
    requires 0 <= c.len && 0 <= c.addr && c.addr + FieldSize(c) <= |mem|
    ensures |t| == FieldSize(c)
  {
    mem[c.addr..c.addr + FieldSize(c)]
  }

  // ---------- before an execution ----------

  /** The length the database is told for a row: the one in its field, or else the one it had or that a move leaves. */
  function SentLength(s: Slot, nts: bool, b: int, mem: Text, was: int): int
    requires 0 <= s.c.len && 0 <= s.c.addr && s.c.addr + FieldSize(s.c) <= |mem|
  {
    var n := LengthSize(s.c.kind);
    if s.w.sends && n > 0 then Number(Field(s.c, mem)[..n])
    else if s.w.receives && s.c.kind == '3' then b
    else if s.w.receives && (n > 0 || Converted(s, nts)) then s.c.len
    else was
  }

  /** What is in the buffer of a row. */
  function SentBuffer(s: Slot, nts: bool, mem: Text, was: Text): Text
    requires 0 <= s.c.len && 0 <= s.c.addr && s.c.addr + FieldSize(s.c) <= |mem|
    requires BufCount(s, nts) == 1 && (s.c.kind == '3' ==> DecimalFits(BufferFor(s)))
    requires |was| == if s.c.kind == '3' then 22 else s.c.len + 1
  {
    if !s.w.sends then was
    else if s.c.kind == '3' then PrintedField(Field(s.c, mem), s.c.prec as int)
    else Over(was, 0, Field(s.c, mem)[LengthSize(s.c.kind)..])
  }

  function SentBy(s: Slot, nts: bool, b: int, env: Bound, st: Store): Store
    requires Slotted(s, nts, b, env, st)
  {
    Store(st.mem,
          if BufCount(s, nts) == 1 then st.bufs[b := SentBuffer(s, nts, st.mem, st.bufs[b])] else st.bufs,
          st.lens[s.i := SentLength(s, nts, b, st.mem, st.lens[s.i])])
  }

  lemma PlannedFirst(m: Move, rest: seq<Move>, env: Bound, st: Store)
    requires AllCanIn(rest, env, st) && CanMoveIn(m, env, PlannedIn(rest, env, st))
    ensures AllCanIn([m] + rest, env, st)
    ensures PlannedIn([m] + rest, env, st) == MovedIn(m, env, PlannedIn(rest, env, st))
  {
    hide CanMoveIn, MovedIn;
    var plan := [m] + rest;
    assert plan[0] == m && plan[1..] == rest;
    StillCan(m, env, st, PlannedIn(rest, env, st));
    TailCan(plan, env, st);
  }

  lemma NothingPlanned(env: Bound, st: Store)
    ensures AllCanIn([], env, st) && PlannedIn([], env, st) == st
    ensures AllCanOut([], env, st) && PlannedOut([], env, st) == st
  {
  }

  /** Before the execution a move that is for afterwards sets a length. */
  lemma OutSetsLength(s: Slot, nts: bool, b: int, env: Bound, st: Store)
    requires 0 <= s.i < |st.lens|
    ensures var n := if s.w.receives && s.c.kind == '3' then b
                     else if s.w.receives && (IsVar(s.c.kind) || Converted(s, nts)) then s.c.len
                     else st.lens[s.i];
      AllCanIn(MovesOut(s, nts, b), env, st)
      && PlannedIn(MovesOut(s, nts, b), env, st) == st.(lens := st.lens[s.i := n])
  {
    hide AllCanIn, PlannedIn;
    var ms := MovesOut(s, nts, b);
    NothingPlanned(env, st);
    if |ms| == 1 {
      assert ms == [ms[0]] + [];
      PlannedFirst(ms[0], [], env, st);
    } else if |ms| == 2 {
      assert ms == [ms[0]] + ([ms[1]] + []);
      PlannedFirst(ms[1], [], env, st);
      PlannedFirst(ms[0], [ms[1]] + [], env, st);
    }
  }

  lemma FieldParts(c: Cell, mem: Text)
    requires 0 <= c.len && 0 <= c.addr && c.addr + FieldSize(c) <= |mem| && c.kind != 'i'
    ensures var n := LengthSize(c.kind);
      && n == Prefix(c.kind) && (IsVar(c.kind) <==> n > 0)
      && Field(c, mem)[..n] == mem[c.addr..c.addr + n]
      && Field(c, mem)[n..] == mem[c.addr + n..c.addr + n + c.len]
  {
  }

  lemma InMovesSend(s: Slot, nts: bool, b: int, env: Bound, st: Store)
    requires Slotted(s, nts, b, env, st)
    ensures AllCanIn(MovesIn(s, nts, b), env, st)
    ensures PlannedIn(MovesIn(s, nts, b), env, st) ==
      Store(st.mem,
            if BufCount(s, nts) == 1 then st.bufs[b := SentBuffer(s, nts, st.mem, st.bufs[b])] else st.bufs,
            if s.w.sends && IsVar(s.c.kind)
            then st.lens[s.i := Number(Field(s.c, st.mem)[..LengthSize(s.c.kind)])] else st.lens)
  {
    hide AllCanIn, PlannedIn, PrintedField, Number;
    var ms := MovesIn(s, nts, b);
    NothingPlanned(env, st);
    if s.c.kind != 'i' {
      FieldParts(s.c, st.mem);
    }
    if BufCount(s, nts) == 1 && !s.w.sends {
      assert st.bufs[b := st.bufs[b]] == st.bufs;
    }
    if |ms| == 1 {
      assert ms == [ms[0]] + [];
      PlannedFirst(ms[0], [], env, st);
    } else if |ms| == 2 {
      assert ms == [ms[0]] + ([ms[1]] + []);
      PlannedFirst(ms[1], [], env, st);
      PlannedFirst(ms[0], [ms[1]] + [], env, st);
    }
  }

  /** What the moves of one parameter do before the execution. */
  lemma SentOwn(s: Slot, nts: bool, b: int, env: Bound, st: Store)
    requires Slotted(s, nts, b, env, st)
    ensures AllCanIn(MovesOf(s, nts, b), env, st)
    ensures PlannedIn(MovesOf(s, nts, b), env, st) == SentBy(s, nts, b, env, st)
  {
    hide AllCanIn, PlannedIn, PrintedField, Number, MovesIn, MovesOut, BufferFor;
    OutSetsLength(s, nts, b, env, st);
    var st1 := PlannedIn(MovesOut(s, nts, b), env, st);
    InMovesSend(s, nts, b, env, st1);
    AllStillCan(MovesIn(s, nts, b), env, st, st1);
    PlannedTogether(MovesIn(s, nts, b), MovesOut(s, nts, b), env, st);
  }

  // ---------- all parameters ----------

  /** The number of the buffer the k-th parameter has if it has one. */
  function BufferOf(work: seq<Slot>, k: nat, nts: bool, low: nat): nat
    requires k < |work|
  {
    low + Bufs(work[k + 1..], nts)
  }

  predicate AllSlotted(work: seq<Slot>, nts: bool, low: nat, env: Bound, st: Store) {
    forall k :: 0 <= k < |work| ==> Slotted(work[k], nts, BufferOf(work, k, nts, low), env, st)
  }

  predicate RowsDiffer(work: seq<Slot>) {
    forall j, k :: 0 <= j < k < |work| ==> work[j].i != work[k].i
  }

  lemma SlottedStill(s: Slot, nts: bool, b: int, env: Bound, st: Store, st1: Store)
    requires Slotted(s, nts, b, env, st) && SameShape(st1, st)
    ensures Slotted(s, nts, b, env, st1)
  {
  }

  lemma RestSlotted(work: seq<Slot>, nts: bool, low: nat, env: Bound, st: Store)
    requires |work| > 0 && AllSlotted(work, nts, low, env, st)
    ensures Slotted(work[0], nts, BufferOf(work, 0, nts, low), env, st) && AllSlotted(work[1..], nts, low, env, st)
    ensures forall k :: 0 < k < |work| ==> BufferOf(work, k, nts, low) == BufferOf(work[1..], k - 1, nts, low)
  {
    hide Slotted, Bufs;
    var rest := work[1..];
    forall k | 0 <= k < |rest| ensures Slotted(rest[k], nts, BufferOf(rest, k, nts, low), env, st) {
      assert rest[k + 1..] == work[k + 2..];
      assert Slotted(work[k + 1], nts, BufferOf(work, k + 1, nts, low), env, st);
    }
    forall k | 0 < k < |work| ensures BufferOf(work, k, nts, low) == BufferOf(work[1..], k - 1, nts, low) {
      assert rest[k..] == work[k + 1..];
    }
  }

  /** What the k-th parameter has to do with the state it is told and finds. */
  predicate SentAs(s: Slot, nts: bool, b: int, env: Bound, st: Store, st1: Store)
    requires Slotted(s, nts, b, env, st) && SameShape(st1, st)
  {
    && st1.lens[s.i] == SentLength(s, nts, b, st.mem, st.lens[s.i])
    && (BufCount(s, nts) == 1 ==> st1.bufs[b] == SentBuffer(s, nts, st.mem, st.bufs[b]))
  }

  /** Rows and buffers that these parameters do not have stay. */
  predicate OthersStay(work: seq<Slot>, nts: bool, low: nat, st: Store, st1: Store)
    requires SameShape(st1, st)
  {
    && (forall i :: 0 <= i < |st.lens| && (forall k :: 0 <= k < |work| ==> work[k].i != i) ==>
          st1.lens[i] == st.lens[i])
    && (forall b :: 0 <= b < |st.bufs| && !(low <= b < low + Bufs(work, nts)) ==> st1.bufs[b] == st.bufs[b])
  }

  /** All moves before the execution: each parameter gets what its own moves give it, and the storage stays. */
  lemma {:induction false} SentAll(work: seq<Slot>, nts: bool, low: nat, env: Bound, st: Store)
    requires AllSlotted(work, nts, low, env, st) && RowsDiffer(work)
    ensures AllCanIn(PlanMoves(work, nts, low), env, st)
    ensures var st1 := PlannedIn(PlanMoves(work, nts, low), env, st);
      && SameShape(st1, st) && st1.mem == st.mem && OthersStay(work, nts, low, st, st1)
      && forall k :: 0 <= k < |work| ==> SentAs(work[k], nts, BufferOf(work, k, nts, low), env, st, st1)
  {
    hide *;
    if |work| == 0 {
      NothingNeeded(nts);
      NothingPlanned(env, st);
      EmptyPlan(nts, low);
      NoneStay(nts, low, st);
    } else {
      var s, rest, b := work[0], work[1..], BufferOf(work, 0, nts, low);
      RestSlotted(work, nts, low, env, st);
      RestDiffers(work);
      FirstBuffer(work, nts, low);
      SentAll(rest, nts, low, env, st);
      var plan := PlanMoves(rest, nts, low);
      var st1 := PlannedIn(plan, env, st);
      SlottedStill(s, nts, b, env, st, st1);
      SentOwn(s, nts, b, env, st1);
      AllStillCan(MovesOf(s, nts, b), env, st, st1);
      Head(work, nts, low);
      PlannedTogether(MovesOf(s, nts, b), plan, env, st);
      OneMore(work, nts, low, env, st, st1, SentBy(s, nts, b, env, st1));
    }
  }

  lemma EmptyPlan(nts: bool, low: nat)
    ensures PlanMoves([], nts, low) == []
  {
  }

  lemma FirstBuffer(work: seq<Slot>, nts: bool, low: nat)
    requires |work| > 0
    ensures BufferOf(work, 0, nts, low) == low + Bufs(work[1..], nts)
  {
  }

  lemma RestDiffers(work: seq<Slot>)
    requires |work| > 0 && RowsDiffer(work)
    ensures RowsDiffer(work[1..])
  {
  }

  lemma NoneStay(nts: bool, low: nat, st: Store)
    ensures SameShape(st, st) && OthersStay([], nts, low, st, st)
  {
  }

  /** The first parameter's own moves leave the others what they have. */
  lemma OneMore(work: seq<Slot>, nts: bool, low: nat, env: Bound, st: Store, st1: Store, st2: Store)
    requires |work| > 0 && AllSlotted(work, nts, low, env, st) && RowsDiffer(work)
    requires SameShape(st1, st) && st1.mem == st.mem && OthersStay(work[1..], nts, low, st, st1)
    requires AllSlotted(work[1..], nts, low, env, st) && Slotted(work[0], nts, BufferOf(work, 0, nts, low), env, st1)
    requires forall k :: 0 <= k < |work| - 1 ==>
      SentAs(work[1..][k], nts, BufferOf(work[1..], k, nts, low), env, st, st1)
    requires st2 == SentBy(work[0], nts, BufferOf(work, 0, nts, low), env, st1)
    ensures SameShape(st2, st) && st2.mem == st.mem && OthersStay(work, nts, low, st, st2)
    ensures forall k :: 0 <= k < |work| ==> SentAs(work[k], nts, BufferOf(work, k, nts, low), env, st, st2)
  {
    hide SentLength, Bufs, BufferFor;
    var s, b := work[0], BufferOf(work, 0, nts, low);
    RestSlotted(work, nts, low, env, st);
    BufsFirst(work, nts);
    assert st1.lens[s.i] == st.lens[s.i];
    assert BufCount(s, nts) == 1 ==> st1.bufs[b] == st.bufs[b];
    forall k | 0 < k < |work| ensures SentAs(work[k], nts, BufferOf(work, k, nts, low), env, st, st2) {
      assert SentAs(work[1..][k - 1], nts, BufferOf(work[1..], k - 1, nts, low), env, st, st1);
      if BufCount(work[k], nts) == 1 {
        BufferBelow(work, k, nts, low);
      }
    }
  }

  lemma BufsFirst(work: seq<Slot>, nts: bool)
    requires |work| > 0
    ensures Bufs(work, nts) == BufCount(work[0], nts) + Bufs(work[1..], nts)
  {
  }

  lemma BufferBelow(work: seq<Slot>, k: nat, nts: bool, low: nat)
    requires 0 < k < |work| && BufCount(work[k], nts) == 1
    ensures BufferOf(work, k, nts, low) < BufferOf(work, 0, nts, low)
  {
    hide Bufs, BufCount;
    assert work[1..][k - 1..] == work[k..] && work[1..][k..] == work[k + 1..];
    PlanFrom(work[1..], k - 1, nts, 0);
    NextPlanned(work[1..], k - 1, nts, 0);
  }

  // ---------- after a fetch ----------

  /**
   A value of its own length that was also sent gets its length back over something else: that is harmless when the
   value has a buffer, which the length fits in.
   */
  predicate SafeReturn(s: Slot, nts: bool) {
    s.w.sends && s.w.receives && LengthSize(s.c.kind) > 0 ==> Converted(s, nts) && LengthSize(s.c.kind) <= s.c.len + 1
  }

  function BufferText(s: Slot, nts: bool, b: int, st: Store): Text {
    if BufCount(s, nts) == 1 && 0 <= b < |st.bufs| then st.bufs[b] else []
  }

  /** What a row's storage holds: the length that came and the text that came, unless it is left as it was. */
  function ReceivedField(s: Slot, nts: bool, length: int, buffer: Text, was: Text): (t: Text)
    requires 0 <= s.c.len && |was| == FieldSize(s.c)
    requires BufCount(s, nts) == 1 && s.c.kind == '3' ==> DecimalFits(BufferFor(s))
    requires BufCount(s, nts) == 1 && s.c.kind != '3' ==> |buffer| == s.c.len + 1
    ensures |t| == |was|
  {
    var n := LengthSize(s.c.kind);
    if !s.w.receives || s.c.kind == 'i' then was
    else if s.c.kind == '3' then PackedField(UpToZero(buffer), s.c.len, s.c.prec as int)
    else
      (if n == 0 then [] else if s.w.sends then was[..n] else NumberBytes(length, n))
      + if Converted(s, nts) then buffer[..s.c.len] else was[n..]
  }

  function ReceivedBuffer(s: Slot, nts: bool, length: int, buffer: Text): (t: Text)
    requires 0 <= s.c.len && SafeReturn(s, nts)
    requires BufCount(s, nts) == 1 && s.c.kind != '3' ==> |buffer| == s.c.len + 1
    ensures |t| == |buffer|
  {
    var n := LengthSize(s.c.kind);
    if s.w.sends && s.w.receives && n > 0 then Over(buffer, 0, NumberBytes(length, n)) else buffer
  }

  function ReceivedBy(s: Slot, nts: bool, b: int, env: Bound, st: Store): Store
    requires Slotted(s, nts, b, env, st) && SafeReturn(s, nts)
  {
    var length, buffer := st.lens[s.i], BufferText(s, nts, b, st);
    Store(Over(st.mem, s.c.addr, ReceivedField(s, nts, length, buffer, Field(s.c, st.mem))),
          if BufCount(s, nts) == 1 then st.bufs[b := ReceivedBuffer(s, nts, length, buffer)] else st.bufs,
          st.lens)
  }

  lemma PlannedOutFirst(m: Move, rest: seq<Move>, env: Bound, st: Store)
    requires AllCanOut(rest, env, st) && CanMoveOut(m, env, PlannedOut(rest, env, st))
    ensures AllCanOut([m] + rest, env, st)
    ensures PlannedOut([m] + rest, env, st) == MovedOut(m, env, PlannedOut(rest, env, st))
  {
    hide CanMoveOut, MovedOut;
    var plan := [m] + rest;
    assert plan[0] == m && plan[1..] == rest;
    StillCan(m, env, st, PlannedOut(rest, env, st));
    TailCan(plan, env, st);
  }

  /** Moves that are for before the execution do nothing afterwards. */
  lemma InMovesRest(s: Slot, nts: bool, b: int, env: Bound, st: Store)
    requires 0 <= s.i < |st.lens|
    ensures AllCanOut(MovesIn(s, nts, b), env, st) && PlannedOut(MovesIn(s, nts, b), env, st) == st
  {
    hide AllCanOut, PlannedOut;
    var ms := MovesIn(s, nts, b);
    NothingPlanned(env, st);
    if |ms| == 1 {
      assert ms == [ms[0]] + [];
      PlannedOutFirst(ms[0], [], env, st);
    } else if |ms| == 2 {
      assert ms == [ms[0]] + ([ms[1]] + []);
      PlannedOutFirst(ms[1], [], env, st);
      PlannedOutFirst(ms[0], [ms[1]] + [], env, st);
    }
  }

  lemma OverSame(mem: Text, a: nat, n: nat)
    requires a + n <= |mem|
    ensures Over(mem, a, mem[a..a + n]) == mem
  {
  }

  /** Putting the length in front and the text behind it, one after the other, is putting both. */
  lemma OverBoth(mem: Text, a: nat, x: Text, y: Text)
    requires a + |x| + |y| <= |mem|
    ensures Over(Over(mem, a + |x|, y), a, x) == Over(mem, a, x + y)
    ensures Over(mem, a, mem[a..a + |x|] + y) == Over(mem, a + |x|, y)
    ensures Over(mem, a, x + mem[a + |x|..a + |x| + |y|]) == Over(mem, a, x)
  {
  }

  /** What the moves of one parameter do after the fetch. */
  lemma ReceivedOwn(s: Slot, nts: bool, b: int, env: Bound, st: Store)
    requires Slotted(s, nts, b, env, st) && SafeReturn(s, nts)
    ensures AllCanOut(MovesOf(s, nts, b), env, st)
    ensures PlannedOut(MovesOf(s, nts, b), env, st) == ReceivedBy(s, nts, b, env, st)
  {
    hide AllCanOut, PlannedOut, MovesIn, MovesOut, BufferFor, ReceivedBy;
    OutMovesReceive(s, nts, b, env, st);
    InMovesRest(s, nts, b, env, PlannedOut(MovesOut(s, nts, b), env, st));
    AllStillCan(MovesIn(s, nts, b), env, st, PlannedOut(MovesOut(s, nts, b), env, st));
    PlannedOutTogether(MovesIn(s, nts, b), MovesOut(s, nts, b), env, st);
  }

  lemma OutMovesReceive(s: Slot, nts: bool, b: int, env: Bound, st: Store)
    requires Slotted(s, nts, b, env, st) && SafeReturn(s, nts)
    ensures AllCanOut(MovesOut(s, nts, b), env, st)
    ensures PlannedOut(MovesOut(s, nts, b), env, st) == ReceivedBy(s, nts, b, env, st)
  {
    hide *;
    ReceiveNothing(s, nts, b, env, st);
    ReceivePacked(s, nts, b, env, st);
    ReceiveLength(s, nts, b, env, st);
    ReceiveText(s, nts, b, env, st);
    ReceiveBoth(s, nts, b, env, st);
  }

  lemma ReceiveNothing(s: Slot, nts: bool, b: int, env: Bound, st: Store)
    requires Slotted(s, nts, b, env, st) && SafeReturn(s, nts)
    ensures !s.w.receives || (s.c.kind != '3' && !IsVar(s.c.kind) && !Converted(s, nts)) ==>
      AllCanOut(MovesOut(s, nts, b), env, st)
      && PlannedOut(MovesOut(s, nts, b), env, st) == ReceivedBy(s, nts, b, env, st)
  {
    hide AllCanOut, PlannedOut, PackedField, NumberBytes, UpToZero, Over;
    if !s.w.receives || (s.c.kind != '3' && !IsVar(s.c.kind) && !Converted(s, nts)) {
      NothingPlanned(env, st);
      OverSame(st.mem, s.c.addr, FieldSize(s.c));
      assert MovesOut(s, nts, b) == [];
      var was := Field(s.c, st.mem);
      assert [] + was[0..] == was;
    }
  }

  lemma ReceivePacked(s: Slot, nts: bool, b: int, env: Bound, st: Store)
    requires Slotted(s, nts, b, env, st) && SafeReturn(s, nts)
    ensures s.w.receives && s.c.kind == '3' ==>
      AllCanOut(MovesOut(s, nts, b), env, st)
      && PlannedOut(MovesOut(s, nts, b), env, st) == ReceivedBy(s, nts, b, env, st)
  {
    hide AllCanOut, PlannedOut, PackedField, NumberBytes, UpToZero, Over;
    if s.w.receives && s.c.kind == '3' {
      NothingPlanned(env, st);
      var m := Move(s.i, 3, b, Cobol(s.c.addr));
      assert MovesOut(s, nts, b) == [m] + [];
      PlannedOutFirst(m, [], env, st);
    }
  }

  lemma ReceiveLength(s: Slot, nts: bool, b: int, env: Bound, st: Store)
    requires Slotted(s, nts, b, env, st) && SafeReturn(s, nts)
    ensures s.w.receives && IsVar(s.c.kind) && !Converted(s, nts) ==>
      AllCanOut(MovesOut(s, nts, b), env, st)
      && PlannedOut(MovesOut(s, nts, b), env, st) == ReceivedBy(s, nts, b, env, st)
  {
    hide AllCanOut, PlannedOut, PackedField, NumberBytes, UpToZero, Over;
    if s.w.receives && IsVar(s.c.kind) && !Converted(s, nts) {
      NothingPlanned(env, st);
      FieldParts(s.c, st.mem);
      var n := LengthSize(s.c.kind);
      var m := Move(s.i, n, s.c.len, Cobol(s.c.addr));
      assert MovesOut(s, nts, b) == [m] + [];
      PlannedOutFirst(m, [], env, st);
      var x, y := NumberBytes(st.lens[s.i], n), st.mem[s.c.addr + n..s.c.addr + n + s.c.len];
      OverBoth(st.mem, s.c.addr, x, y);
    }
  }

  lemma ReceiveText(s: Slot, nts: bool, b: int, env: Bound, st: Store)
    requires Slotted(s, nts, b, env, st) && SafeReturn(s, nts)
    ensures Converted(s, nts) && !IsVar(s.c.kind) ==>
      AllCanOut(MovesOut(s, nts, b), env, st)
      && PlannedOut(MovesOut(s, nts, b), env, st) == ReceivedBy(s, nts, b, env, st)
  {
    hide AllCanOut, PlannedOut, PackedField, NumberBytes, UpToZero, Over;
    if Converted(s, nts) && !IsVar(s.c.kind) {
      NothingPlanned(env, st);
      var m := Move(s.i, 1, s.c.len, Cobol(s.c.addr));
      assert MovesOut(s, nts, b) == [m] + [];
      PlannedOutFirst(m, [], env, st);
      var y := st.bufs[b][..s.c.len];
      assert [] + y == y;
    }
  }

  lemma ReceiveBoth(s: Slot, nts: bool, b: int, env: Bound, st: Store)
    requires Slotted(s, nts, b, env, st) && SafeReturn(s, nts)
    ensures Converted(s, nts) && IsVar(s.c.kind) ==>
      AllCanOut(MovesOut(s, nts, b), env, st)
      && PlannedOut(MovesOut(s, nts, b), env, st) == ReceivedBy(s, nts, b, env, st)
  {
    hide AllCanOut, PlannedOut, PackedField, NumberBytes, UpToZero, Over;
    if Converted(s, nts) && IsVar(s.c.kind) {
      FieldParts(s.c, st.mem);
      var n, a := LengthSize(s.c.kind), s.c.addr;
      var m1, m2 := Move(s.i, n, s.c.len, LengthPlace(s, nts, b)), Move(s.i, 1, s.c.len, Cobol(a + n));
      assert MovesOut(s, nts, b) == [m1] + ([m2] + []);
      NothingPlanned(env, st);
      PlannedOutFirst(m2, [], env, st);
      PlannedOutFirst(m1, [m2] + [], env, st);
      OverBoth(st.mem, a, if s.w.sends then st.mem[a..a + n] else NumberBytes(st.lens[s.i], n), st.bufs[b][..s.c.len]);
    }
  }

  // ---------- all parameters, after a fetch ----------

  predicate InField(c: Cell, a: int) {
    c.addr <= a < c.addr + FieldSize(c)
  }

  predicate Apart(c: Cell, d: Cell) {
    c.addr + FieldSize(c) <= d.addr || d.addr + FieldSize(d) <= c.addr
  }

  /** No two values are received in the same storage, and lengths that come back do no harm. */
  predicate FieldsApart(work: seq<Slot>, nts: bool) {
    && (forall j, k :: 0 <= j < k < |work| && work[j].w.receives && work[k].w.receives ==> Apart(work[j].c, work[k].c))
    && forall k :: 0 <= k < |work| ==> SafeReturn(work[k], nts)
  }

  /** What the k-th parameter has in its storage and its buffer. */
  predicate ReceivedAs(s: Slot, nts: bool, b: int, env: Bound, st: Store, st1: Store)
    requires Slotted(s, nts, b, env, st) && SameShape(st1, st)
  {
    Field(s.c, st1.mem) == ReceivedField(s, nts, st.lens[s.i], BufferText(s, nts, b, st), Field(s.c, st.mem))
  }

  /** Storage and buffers that these parameters do not have stay, and all lengths. */
  predicate OutsideStays(work: seq<Slot>, nts: bool, low: nat, st: Store, st1: Store)
    requires SameShape(st1, st)
  {
    && st1.lens == st.lens
    && (forall a :: 0 <= a < |st.mem|
                    && (forall k :: 0 <= k < |work| && work[k].w.receives ==> !InField(work[k].c, a)) ==>
          st1.mem[a] == st.mem[a])
    && (forall b :: 0 <= b < |st.bufs| && !(low <= b < low + Bufs(work, nts)) ==> st1.bufs[b] == st.bufs[b])
  }

  lemma RestApart(work: seq<Slot>, nts: bool)
    requires |work| > 0 && FieldsApart(work, nts)
    ensures FieldsApart(work[1..], nts) && SafeReturn(work[0], nts)
  {
    hide Apart, SafeReturn;
  }

  lemma NothingOutside(nts: bool, low: nat, st: Store)
    ensures SameShape(st, st) && OutsideStays([], nts, low, st, st)
  {
  }

  /** All moves after the fetch: each parameter gets what its own moves give it, and nothing else changes. */
  lemma {:induction false} ReceivedAll(work: seq<Slot>, nts: bool, low: nat, env: Bound, st: Store)
    requires AllSlotted(work, nts, low, env, st) && FieldsApart(work, nts)
    ensures AllCanOut(PlanMoves(work, nts, low), env, st)
    ensures var st1 := PlannedOut(PlanMoves(work, nts, low), env, st);
      && SameShape(st1, st) && OutsideStays(work, nts, low, st, st1)
      && forall k :: 0 <= k < |work| && work[k].w.receives ==>
           ReceivedAs(work[k], nts, BufferOf(work, k, nts, low), env, st, st1)
  {
    hide *;
    if |work| == 0 {
      NothingPlanned(env, st);
      EmptyPlan(nts, low);
      NothingOutside(nts, low, st);
    } else {
      var s, rest, b := work[0], work[1..], BufferOf(work, 0, nts, low);
      RestSlotted(work, nts, low, env, st);
      RestApart(work, nts);
      FirstBuffer(work, nts, low);
      ReceivedAll(rest, nts, low, env, st);
      var plan := PlanMoves(rest, nts, low);
      var st1 := PlannedOut(plan, env, st);
      SlottedStill(s, nts, b, env, st, st1);
      ReceivedOwn(s, nts, b, env, st1);
      AllStillCan(MovesOf(s, nts, b), env, st, st1);
      Head(work, nts, low);
      PlannedOutTogether(MovesOf(s, nts, b), plan, env, st);
      OneMoreField(work, nts, low, env, st, st1, ReceivedBy(s, nts, b, env, st1));
    }
  }

  /** The first parameter's storage is its own. */
  lemma OneMoreField(work: seq<Slot>, nts: bool, low: nat, env: Bound, st: Store, st1: Store, st2: Store)
    requires |work| > 0 && AllSlotted(work, nts, low, env, st) && FieldsApart(work, nts)
    requires SameShape(st1, st) && OutsideStays(work[1..], nts, low, st, st1)
    requires AllSlotted(work[1..], nts, low, env, st) && Slotted(work[0], nts, BufferOf(work, 0, nts, low), env, st1)
    requires forall k :: 0 <= k < |work| - 1 && work[1..][k].w.receives ==>
      ReceivedAs(work[1..][k], nts, BufferOf(work[1..], k, nts, low), env, st, st1)
    requires st2 == ReceivedBy(work[0], nts, BufferOf(work, 0, nts, low), env, st1)
    ensures SameShape(st2, st) && OutsideStays(work, nts, low, st, st2)
    ensures forall k :: 0 <= k < |work| && work[k].w.receives ==>
      ReceivedAs(work[k], nts, BufferOf(work, k, nts, low), env, st, st2)
  {
    hide Bufs, BufferFor, ReceivedField, ReceivedBuffer, FieldSize, BufCount;
    var s, b := work[0], BufferOf(work, 0, nts, low);
    RestSlotted(work, nts, low, env, st);
    BufsFirst(work, nts);
    if !s.w.receives {
      NothingWritten(s, nts, b, env, st1);
    } else {
      FirstUntouched(work, nts, low, env, st, st1);
      OwnField(st1.mem, s.c, ReceivedField(s, nts, st1.lens[s.i], BufferText(s, nts, b, st1), Field(s.c, st1.mem)));
    }
    forall k | 0 < k < |work| && work[k].w.receives
      ensures ReceivedAs(work[k], nts, BufferOf(work, k, nts, low), env, st, st2)
    {
      assert ReceivedAs(work[1..][k - 1], nts, BufferOf(work[1..], k - 1, nts, low), env, st, st1);
      if s.w.receives {
        assert Apart(work[0].c, work[k].c);
        OtherField(st1.mem, st2.mem, s.c, work[k].c);
      }
    }
  }

  lemma NothingWritten(s: Slot, nts: bool, b: int, env: Bound, st: Store)
    requires Slotted(s, nts, b, env, st) && SafeReturn(s, nts) && !s.w.receives
    ensures ReceivedBy(s, nts, b, env, st) == st
  {
    OverSame(st.mem, s.c.addr, FieldSize(s.c));
    if BufCount(s, nts) == 1 {
      assert st.bufs[b := st.bufs[b]] == st.bufs;
    }
  }

  lemma FirstUntouched(work: seq<Slot>, nts: bool, low: nat, env: Bound, st: Store, st1: Store)
    requires |work| > 0 && AllSlotted(work, nts, low, env, st) && FieldsApart(work, nts) && work[0].w.receives
    requires SameShape(st1, st) && OutsideStays(work[1..], nts, low, st, st1)
    ensures Slotted(work[0], nts, BufferOf(work, 0, nts, low), env, st)
    ensures Field(work[0].c, st1.mem) == Field(work[0].c, st.mem)
    ensures BufferText(work[0], nts, BufferOf(work, 0, nts, low), st1)
         == BufferText(work[0], nts, BufferOf(work, 0, nts, low), st)
  {
    hide Bufs, BufferFor, FieldSize;
    var c := work[0].c;
    forall a | InField(c, a) ensures st1.mem[a] == st.mem[a] {
      forall k | 0 <= k < |work[1..]| && work[1..][k].w.receives ensures !InField(work[1..][k].c, a) {
        assert Apart(work[0].c, work[k + 1].c);
      }
    }
  }

  lemma OwnField(mem: Text, c: Cell, t: Text)
    requires 0 <= c.len && 0 <= c.addr && c.addr + FieldSize(c) <= |mem| && |t| == FieldSize(c)
    ensures Field(c, Over(mem, c.addr, t)) == t
    ensures forall a :: 0 <= a < |mem| && !InField(c, a) ==> Over(mem, c.addr, t)[a] == mem[a]
  {
  }

  lemma OtherField(mem: Text, mem1: Text, c: Cell, d: Cell)
    requires |mem1| == |mem| && Apart(c, d)
    requires 0 <= c.len && 0 <= d.len && 0 <= d.addr && d.addr + FieldSize(d) <= |mem|
    requires forall a :: 0 <= a < |mem| && !InField(c, a) ==> mem1[a] == mem[a]
    ensures Field(d, mem1) == Field(d, mem)
  {
  }

  // ---------- what the database is told and finds ----------

  /** At the place that is bound for it the database finds the text, and it is told its length if that can vary. */
  predicate Found(s: Slot, nts: bool, b: int, st1: Store, text: Text) {
    && InStore(st1, PlaceOf(s, nts, b), |text|) && At(st1, PlaceOf(s, nts, b), |text|) == text
    && (0 <= s.i < |st1.lens|) && (LengthSize(s.c.kind) > 0 ==> st1.lens[s.i] == |text|)
  }

  /** Where the text of a field begins, and what its length says. */
  lemma TextStarts(c: Cell, mem: Text, text: Text)
    requires 0 <= c.len && 0 <= c.addr && c.addr + FieldSize(c) <= |mem| && c.kind != 'i'
    requires IsField(Field(c, mem), c, text)
    ensures var n := LengthSize(c.kind);
      && |text| <= c.len && (n > 0 ==> Number(Field(c, mem)[..n]) == |text|) && Field(c, mem)[n..][..|text|] == text
      && mem[c.addr + n..c.addr + n + |text|] == text
  {
    hide Number;
    var n, field := LengthSize(c.kind), Field(c, mem);
    if n > 0 {
      assert InFront(field, n, c.len, text);
      assert field[n..][..|text|] == field[n..n + |text|];
    } else {
      assert field[0..] == field && field[..|text|] == text;
    }
    assert mem[c.addr + n..c.addr + n + |text|] == field[n..][..|text|];
  }

  /** A value that is not packed is found as the program has it. */
  lemma TextFound(s: Slot, nts: bool, b: int, env: Bound, st: Store, st1: Store, text: Text)
    requires Slotted(s, nts, b, env, st) && SameShape(st1, st) && st1.mem == st.mem && SentAs(s, nts, b, env, st, st1)
    requires s.w.sends && s.c.kind != '3' && s.c.kind != 'i' && IsField(Field(s.c, st.mem), s.c, text)
    ensures Found(s, nts, b, st1, text)
  {
    hide Number, PrintedField, IsField, Field;
    FieldParts(s.c, st.mem);
    TextStarts(s.c, st.mem, text);
    if BufCount(s, nts) == 1 {
      assert st1.bufs[b][..|text|] == Field(s.c, st.mem)[LengthSize(s.c.kind)..][..|text|];
    }
  }

  /** A packed value is found as 21 characters, its number and blanks behind it. */
  lemma PackedFound(s: Slot, nts: bool, b: int, env: Bound, st: Store, st1: Store)
    requires Slotted(s, nts, b, env, st) && SameShape(st1, st) && SentAs(s, nts, b, env, st, st1)
    requires s.w.sends && s.c.kind == '3'
    ensures var t := D.UnpackedText(D.Nibbles(Field(s.c, st.mem)), s.c.prec as int);
      && PlaceOf(s, nts, b) == Buf(b) && |t| <= 21
      && InStore(st1, Buf(b), 21) && At(st1, Buf(b), 21) == t + Copies(D.BLANK, 21 - |t|)
  {
    var t := D.UnpackedText(D.Nibbles(Field(s.c, st.mem)), s.c.prec as int);
    assert st1.bufs[b] == t + Copies(D.BLANK, 21 - |t|) + [0];
  }

  /**
   A parameter of a prepared statement that was bound as NULL is still NULL when the statement is executed, if and only
   if its value has no length in front: otherwise the length is put over the mark.
   */
  lemma NullSentIff(s: Slot, nts: bool, b: int, env: Bound, st: Store, st1: Store, text: Text)
    requires Slotted(s, nts, b, env, st) && SameShape(st1, st) && SentAs(s, nts, b, env, st, st1)
    requires s.w == SENT && st.lens[s.i] == NULL_DATA
    requires LengthSize(s.c.kind) > 0 ==> IsField(Field(s.c, st.mem), s.c, text)
    ensures st1.lens[s.i] == NULL_DATA <==> LengthSize(s.c.kind) == 0
  {
    hide Number;
    var n := LengthSize(s.c.kind);
    assert n > 0 ==> InFront(Field(s.c, st.mem), n, s.c.len, text);
  }

  /**
   A packed parameter of a CALL that is sent and received is told to be as long as the number of its buffer, and one
   that is only sent as long as it was bound.
   */
  lemma PackedTold(s: Slot, nts: bool, b: int, env: Bound, st: Store, st1: Store)
    requires Slotted(s, nts, b, env, st) && SameShape(st1, st) && SentAs(s, nts, b, env, st, st1)
    requires s.w.sends && s.c.kind == '3'
    ensures st1.lens[s.i] == if s.w.receives then b else st.lens[s.i]
  {
  }

  // ---------- what the program gets ----------

  /** The database has put a text where the row is bound, and told its length. */
  predicate Delivered(s: Slot, nts: bool, b: int, st: Store, text: Text) {
    && |text| <= s.c.len && 0 <= s.i < |st.lens|
    && (LengthSize(s.c.kind) > 0 ==> st.lens[s.i] == |text|)
    && InStore(st, PlaceOf(s, nts, b), |text|) && At(st, PlaceOf(s, nts, b), |text|) == text
  }

  /** Lengths that fit into the bytes they are kept in. */
  predicate LengthFits(c: Cell) {
    && (LengthSize(c.kind) == 2 ==> c.len < 0x8000)
    && (LengthSize(c.kind) == 4 ==> c.len < 0x8000_0000)
  }

  /** What comes into the storage of a received value: its length, if it has one, and then what is delivered. */
  lemma ValueReceived(s: Slot, nts: bool, b: int, env: Bound, st: Store, text: Text)
    requires Slotted(s, nts, b, env, st) && s.w.receives && s.c.kind != '3' && s.c.kind != 'i'
    requires s.w.sends ==> LengthSize(s.c.kind) == 0
    requires Delivered(s, nts, b, st, text)
    ensures var n := LengthSize(s.c.kind);
      var field := ReceivedField(s, nts, st.lens[s.i], BufferText(s, nts, b, st), Field(s.c, st.mem));
      && (n > 0 ==> field[..n] == NumberBytes(|text|, n)) && field[n..][..|text|] == text
  {
    hide NumberBytes, Field;
    FieldParts(s.c, st.mem);
    var n, was := LengthSize(s.c.kind), Field(s.c, st.mem);
    if Converted(s, nts) {
      assert st.bufs[b][..s.c.len][..|text|] == text;
    } else {
      assert st.mem[s.c.addr + n..s.c.addr + n + |text|] == text;
      assert was[n..][..|text|] == st.mem[s.c.addr + n..s.c.addr + n + |text|];
    }
  }

  /** A received value that is not packed, and if it has no length in front fills its storage, is there. */
  lemma TextReceived(s: Slot, nts: bool, b: int, env: Bound, st: Store, st1: Store, text: Text)
    requires Slotted(s, nts, b, env, st) && SameShape(st1, st) && ReceivedAs(s, nts, b, env, st, st1)
    requires s.w.receives && s.c.kind != '3' && s.c.kind != 'i' && LengthFits(s.c)
    requires s.w.sends ==> LengthSize(s.c.kind) == 0
    requires Delivered(s, nts, b, st, text) && (LengthSize(s.c.kind) == 0 ==> |text| == s.c.len)
    ensures IsField(Field(s.c, st1.mem), s.c, text)
  {
    hide Number, NumberBytes, ReceivedField, BufferText, BufCount, BufferFor, PlaceOf, Converted;
    ValueReceived(s, nts, b, env, st, text);
    var n, field := LengthSize(s.c.kind), Field(s.c, st1.mem);
    if n > 0 {
      NumberReadsBack(|text|, n);
      assert field[n..n + |text|] == field[n..][..|text|];
      assert InFront(field, n, s.c.len, text);
    } else {
      assert field[0..][..|text|] == field;
    }
  }

  lemma {:induction false} ZeroEnds(t: Text, junk: Text)
    requires 0 !in t
    ensures UpToZero(t + ([0] + junk)) == t
  {
    if |t| == 0 {
      assert t + ([0] + junk) == [0] + junk;
    } else {
      assert (t + ([0] + junk))[1..] == t[1..] + ([0] + junk);
      ZeroEnds(t[1..], junk);
    }
  }

  /** A received packed value is the delivered decimal text, packed. */
  lemma PackedReceived(s: Slot, nts: bool, b: int, env: Bound, st: Store, st1: Store, text: Text, junk: Text)
    requires Slotted(s, nts, b, env, st) && SameShape(st1, st) && ReceivedAs(s, nts, b, env, st, st1)
    requires s.w.receives && s.c.kind == '3' && D.IsDecimal(text) && 0 !in text
    requires st.bufs[b] == text + ([0] + junk)
    ensures D.Nibbles(Field(s.c, st1.mem)) == D.PackedNibbles(text, s.c.len, s.c.prec as int)
  {
    hide D.IsDecimal, D.PackedNibbles, D.Nibbles;
    ZeroEnds(text, junk);
    var ns := D.PackedNibbles(text, s.c.len, s.c.prec as int);
    PackedNibblesFit(text, s.c.len, s.c.prec as int);
    FieldOfNibbles(ns);
    D.NibblesAre(BytesOf(ns), ns);
  }

  // ---------- padding ----------

  /** Row k of the table, in its order: its storage, and the place it is bound at, in a buffer or in its own storage. */
  predicate RowPlaced(work: seq<Slot>, k: nat, env: Bound, st: Store)
    requires k < |work|
  {
    var c := work[k].c;
    && work[k].i == k < |st.lens| && k < |env.hosts| && 0 <= c.len && 0 <= c.addr && c.addr + FieldSize(c) <= |st.mem|
    && (c.kind == 'i' ==> env.hosts[k] == Cobol(c.addr))
    && (c.kind == '3' && work[k].w.receives ==> env.hosts[k].Buf? && InStore(st, env.hosts[k], 2))
    && (c.kind != 'i' ==>
          match env.hosts[k]
          case Buf(_) => InStore(st, env.hosts[k], c.len)
          case Cobol(a) => c.addr <= a && a + c.len <= c.addr + FieldSize(c))
  }

  /** A row that is received, or the indicator of one that is. */
  predicate IsWritten(work: seq<Slot>, k: nat)
    requires k < |work|
  {
    work[k].w.receives || (k > 0 && IsMarked(work, k - 1) && work[k - 1].w.receives)
  }

  predicate RowsPlaced(work: seq<Slot>, env: Bound, st: Store) {
    && |work| <= |env.hosts| && (forall k :: 0 <= k < |work| ==> RowPlaced(work, k, env, st))
    && (forall j, k :: 0 <= j < k < |work| && IsWritten(work, j) && IsWritten(work, k) ==> Apart(work[j].c, work[k].c))
    && forall j, k :: 0 <= j < k < |work| && env.hosts[j].Buf? ==> env.hosts[j] != env.hosts[k]
  }

  lemma PlacedCanPad(work: seq<Slot>, env: Bound, st: Store)
    requires RowsPlaced(work, env, st)
    ensures CanPadAll(work, env, st)
  {
    forall i | 0 <= i < |work| && work[i].w.receives ensures CanPad(work[i], IsMarked(work, i), env, st) {
      assert RowPlaced(work, i, env, st);
      assert IsMarked(work, i) ==> RowPlaced(work, i + 1, env, st);
    }
  }

  lemma StillPlaced(work: seq<Slot>, env: Bound, st: Store, st1: Store)
    requires RowsPlaced(work, env, st) && SameShape(st1, st)
    ensures RowsPlaced(work, env, st1)
  {
    hide Apart;
    forall k | 0 <= k < |work| ensures RowPlaced(work, k, env, st1) {
      assert RowPlaced(work, k, env, st);
    }
  }

  /** Nothing that row k does not have is changed: its storage, its buffer, and the storage of its indicator. */
  predicate OnlyRow(work: seq<Slot>, k: nat, env: Bound, st: Store, st1: Store)
    requires k < |work| && k < |env.hosts|
  {
    && SameShape(st1, st) && st1.lens == st.lens
    && (forall a :: 0 <= a < |st.mem| && !InField(work[k].c, a) && !(IsMarked(work, k) && InField(work[k + 1].c, a)) ==>
          st1.mem[a] == st.mem[a])
    && forall b :: 0 <= b < |st.bufs| && env.hosts[k] != Buf(b) ==> st1.bufs[b] == st.bufs[b]
  }

  lemma PaddedOnlyRow(work: seq<Slot>, k: nat, env: Bound, st: Store)
    requires k < |work| && RowPlaced(work, k, env, st) && (IsMarked(work, k) ==> RowPlaced(work, k + 1, env, st))
    requires work[k].w.receives && CanPad(work[k], IsMarked(work, k), env, st)
    ensures OnlyRow(work, k, env, st, Padded(work[k], IsMarked(work, k), env, st))
  {
    hide NumberBytes, FilledUp, Over;
    var s, marked := work[k], IsMarked(work, k);
    PaddedShape(s, marked, env, st);
    ValueOnlyRow(s, env, st);
    if marked {
      var st1 := PaddedValue(s, env, st);
      OverElse(st1.mem, work[k + 1].c.addr, NumberBytes(if st.lens[s.i] == NULL_DATA then -1 else 0, 2));
    }
  }

  lemma OverElse(mem: Text, at: nat, t: Text)
    requires at + |t| <= |mem|
    ensures forall a :: 0 <= a < at || at + |t| <= a < |mem| ==> Over(mem, at, t)[a] == mem[a]
  {
  }

  lemma ValueOnlyRow(s: Slot, env: Bound, st: Store)
    requires CanPad(s, false, env, st) && s.w.receives
    requires s.c.kind == '3' ==> env.hosts[s.i].Buf?
    requires s.c.kind != 'i' && env.hosts[s.i].Cobol? ==>
      s.c.addr <= env.hosts[s.i].a && env.hosts[s.i].a + s.c.len <= s.c.addr + FieldSize(s.c)
    ensures var st1 := PaddedValue(s, env, st);
      && SameShape(st1, st) && st1.lens == st.lens
      && (forall a :: 0 <= a < |st.mem| && !InField(s.c, a) ==> st1.mem[a] == st.mem[a])
      && forall b :: 0 <= b < |st.bufs| && env.hosts[s.i] != Buf(b) ==> st1.bufs[b] == st.bufs[b]
  {
    hide FilledUp, Over, FieldSize;
    var n := st.lens[s.i];
    var have := if n < 0 then 0 else n;
    if have < s.c.len && IsPadded(s.c.kind) && env.hosts[s.i].Cobol? {
      var a := env.hosts[s.i].a;
      OverElse(st.mem, a, FilledUp(s.c.kind, At(st, env.hosts[s.i], s.c.len)[..have], s.c.len));
    }
  }

  /** Two states have the same for row k: its storage, and its buffer if it has one. */
  predicate SameRow(work: seq<Slot>, k: nat, env: Bound, st: Store, st1: Store)
    requires k < |work| && RowPlaced(work, k, env, st) && RowPlaced(work, k, env, st1)
  {
    && Field(work[k].c, st1.mem) == Field(work[k].c, st.mem)
    && (env.hosts[k].Buf? && 0 <= env.hosts[k].k < |st.bufs| == |st1.bufs| ==>
          st1.bufs[env.hosts[k].k] == st.bufs[env.hosts[k].k])
  }

  lemma RowTwice(work: seq<Slot>, k: nat, env: Bound, a: Store, b: Store, c: Store)
    requires k < |work| && RowPlaced(work, k, env, a) && RowPlaced(work, k, env, b) && RowPlaced(work, k, env, c)
    requires SameShape(b, a) && SameRow(work, k, env, a, b) && SameRow(work, k, env, b, c)
    ensures SameRow(work, k, env, a, c)
  {
    hide Field;
  }

  /** A row is not changed by what is done to another that does not have it for its indicator. */
  lemma OtherRow(work: seq<Slot>, j: nat, k: nat, env: Bound, st: Store, st1: Store)
    requires RowsPlaced(work, env, st) && j < |work| && k < |work| && OnlyRow(work, j, env, st, st1)
    requires j != k && !(IsMarked(work, j) && k == j + 1) && work[j].w.receives && IsWritten(work, k)
    ensures RowPlaced(work, k, env, st) && RowPlaced(work, k, env, st1) && SameRow(work, k, env, st, st1)
  {
    hide FieldSize;
    StillPlaced(work, env, st, st1);
    assert RowPlaced(work, k, env, st) && RowPlaced(work, k, env, st1);
    var c := work[k].c;
    assert IsWritten(work, j) && (IsMarked(work, j) ==> IsWritten(work, j + 1));
    assert Apart(work[if j < k then j else k].c, work[if j < k then k else j].c);
    if IsMarked(work, j) {
      assert Apart(work[if j + 1 < k then j + 1 else k].c, work[if j + 1 < k then k else j + 1].c);
    }
    assert env.hosts[k].Buf? ==> env.hosts[j] != env.hosts[k];
    forall a | InField(c, a) ensures st1.mem[a] == st.mem[a] {
    }
  }

  /** Rows in front are not changed. */
  lemma {:induction false} PaddedBehind(work: seq<Slot>, env: Bound, i: nat, k: nat, st: Store)
    requires RowsPlaced(work, env, st) && k < i && k < |work| && IsWritten(work, k)
    ensures CanPadAll(work, env, st) && PaddedFrom(work, env, i, st).lens == st.lens
    ensures RowPlaced(work, k, env, st) && RowPlaced(work, k, env, PaddedFrom(work, env, i, st))
    ensures SameRow(work, k, env, st, PaddedFrom(work, env, i, st))
    decreases |work| - i
  {
    hide RowPlaced, SameRow, OnlyRow, Padded, SameShape, CanPad, Apart;
    PlacedCanPad(work, env, st);
    SameRowItself(work, k, env, st);
    if i < |work| {
      var next := if IsMarked(work, i) then i + 2 else i + 1;
      if !work[i].w.receives {
        PaddedBehind(work, env, next, k, st);
      } else {
        var st1 := Padded(work[i], IsMarked(work, i), env, st);
        PaddedOnlyRow(work, i, env, st);
        PaddedShape(work[i], IsMarked(work, i), env, st);
        StillPlaced(work, env, st, st1);
        OtherRow(work, i, k, env, st, st1);
        OnlyRowLengths(work, i, env, st, st1);
        PaddedBehind(work, env, next, k, st1);
        RowTwice(work, k, env, st, st1, PaddedFrom(work, env, next, st1));
      }
    }
  }

  lemma OnlyRowLengths(work: seq<Slot>, k: nat, env: Bound, st: Store, st1: Store)
    requires k < |work| && k < |env.hosts| && OnlyRow(work, k, env, st, st1)
    ensures st1.lens == st.lens && SameShape(st1, st)
  {
  }

  lemma SameRowItself(work: seq<Slot>, k: nat, env: Bound, st: Store)
    requires k < |work| && RowsPlaced(work, env, st)
    ensures RowPlaced(work, k, env, st) && SameRow(work, k, env, st, st) && SameShape(st, st)
  {
    hide Apart;
  }

  lemma ShapeBack(a: Store, b: Store, c: Store)
    requires SameShape(a, b) && SameShape(c, b)
    ensures SameShape(a, c)
  {
  }

  /** What is done to a row depends on what the row has. */
  lemma PaddedAlike(work: seq<Slot>, k: nat, env: Bound, st: Store, st1: Store)
    requires RowsPlaced(work, env, st) && RowsPlaced(work, env, st1) && k < |work| && work[k].c.kind != 'i'
    requires RowPlaced(work, k, env, st) && RowPlaced(work, k, env, st1) && SameRow(work, k, env, st, st1)
    requires SameShape(st1, st) && st1.lens == st.lens && work[k].w.receives
    requires CanPad(work[k], IsMarked(work, k), env, st) && CanPad(work[k], IsMarked(work, k), env, st1)
    ensures var own, own1 := Padded(work[k], IsMarked(work, k), env, st), Padded(work[k], IsMarked(work, k), env, st1);
      && RowPlaced(work, k, env, own) && RowPlaced(work, k, env, own1) && SameRow(work, k, env, own, own1)
      && (IsMarked(work, k) ==>
            && RowPlaced(work, k + 1, env, own) && RowPlaced(work, k + 1, env, own1)
            && SameRow(work, k + 1, env, own, own1))
  {
    hide NumberBytes, FilledUp;
    var s, marked := work[k], IsMarked(work, k);
    var own, own1 := Padded(s, marked, env, st), Padded(s, marked, env, st1);
    PaddedShape(s, marked, env, st);
    PaddedShape(s, marked, env, st1);
    StillPlaced(work, env, st, own);
    StillPlaced(work, env, st1, own1);
    ValueAlike(work, k, env, st, st1);
    if marked {
      var c, d := work[k].c, work[k + 1].c;
      assert IsWritten(work, k) && IsWritten(work, k + 1);
      assert Apart(c, d);
      assert RowPlaced(work, k + 1, env, st);
      var mark := NumberBytes(if st.lens[s.i] == NULL_DATA then -1 else 0, 2);
      OverElsewhere(c, PaddedValue(s, env, st).mem, d, mark);
      OverElsewhere(c, PaddedValue(s, env, st1).mem, d, mark);
      OwnField(PaddedValue(s, env, st).mem, d, mark);
      OwnField(PaddedValue(s, env, st1).mem, d, mark);
    }
  }

  lemma ValueAlike(work: seq<Slot>, k: nat, env: Bound, st: Store, st1: Store)
    requires k < |work| && work[k].c.kind != 'i' && work[k].w.receives
    requires RowPlaced(work, k, env, st) && RowPlaced(work, k, env, st1) && SameRow(work, k, env, st, st1)
    requires SameShape(st1, st) && st1.lens == st.lens
    requires CanPad(work[k], false, env, st) && CanPad(work[k], false, env, st1)
    ensures var a, b := PaddedValue(work[k], env, st), PaddedValue(work[k], env, st1);
      RowPlaced(work, k, env, a) && RowPlaced(work, k, env, b) && SameRow(work, k, env, a, b)
  {
    hide FilledUp, Field, FieldSize;
    if env.hosts[k].Cobol? {
      StorageAlike(work[k], env.hosts[k].a, env, st, st1);
    }
  }

  lemma StorageAlike(s: Slot, a: int, env: Bound, st: Store, st1: Store)
    requires CanPad(s, false, env, st) && CanPad(s, false, env, st1) && st1.lens == st.lens
    requires s.c.kind != '3' && env.hosts[s.i] == Cobol(a) && 0 <= s.c.addr <= a && |st1.mem| == |st.mem|
    requires a + s.c.len <= s.c.addr + FieldSize(s.c) <= |st.mem| && Field(s.c, st.mem) == Field(s.c, st1.mem)
    ensures |PaddedValue(s, env, st).mem| == |PaddedValue(s, env, st1).mem| == |st.mem|
    ensures Field(s.c, PaddedValue(s, env, st).mem) == Field(s.c, PaddedValue(s, env, st1).mem)
  {
    hide FilledUp, Field, FieldSize, Over;
    var c, n := s.c, st.lens[s.i];
    var have := if n < 0 then 0 else n;
    PartOfField(c, st.mem, a);
    PartOfField(c, st1.mem, a);
    if have < c.len && IsPadded(c.kind) {
      var filled := FilledUp(c.kind, st.mem[a..a + c.len][..have], c.len);
      PartOver(c, st.mem, a, filled);
      PartOver(c, st1.mem, a, filled);
    }
  }

  lemma PartOfField(c: Cell, mem: Text, a: int)
    requires 0 <= c.len && 0 <= c.addr && c.addr + FieldSize(c) <= |mem|
    requires c.addr <= a && a + c.len <= c.addr + FieldSize(c)
    ensures mem[a..a + c.len] == Field(c, mem)[a - c.addr..a - c.addr + c.len]
  {
    hide FieldSize;
    SliceOfSlice(mem, c.addr, c.addr + FieldSize(c), a - c.addr, a - c.addr + c.len);
  }

  lemma SliceOfSlice(t: Text, lo: nat, hi: nat, i: nat, j: nat)
    requires lo <= hi <= |t| && i <= j <= hi - lo
    ensures t[lo..hi][i..j] == t[lo + i..lo + j]
  {
    var x, y := t[lo..hi][i..j], t[lo + i..lo + j];
    forall m | 0 <= m < j - i ensures x[m] == y[m] {
      assert x[m] == t[lo..hi][i + m] == t[lo + i + m];
    }
  }

  lemma PartOver(c: Cell, mem: Text, a: int, t: Text)
    requires 0 <= c.len && 0 <= c.addr && c.addr + FieldSize(c) <= |mem|
    requires c.addr <= a && a + |t| <= c.addr + FieldSize(c)
    ensures Field(c, Over(mem, a, t)) == Over(Field(c, mem), a - c.addr, t)
  {
    hide FieldSize;
  }

  lemma OverElsewhere(c: Cell, mem: Text, d: Cell, t: Text)
    requires 0 <= c.len && 0 <= c.addr && c.addr + FieldSize(c) <= |mem| && Apart(c, d)
    requires 0 <= d.addr && d.addr + |t| <= |mem| && |t| == FieldSize(d)
    ensures Field(c, Over(mem, d.addr, t)) == Field(c, mem)
  {
    hide FieldSize;
  }

  /** Every received row that is no indicator is padded once, and its indicator set once, whatever the others are. */
  lemma {:induction false} PaddedRow(work: seq<Slot>, env: Bound, i: nat, k: nat, st: Store)
    requires RowsPlaced(work, env, st) && i <= k < |work| && work[k].c.kind != 'i' && work[k].w.receives
    ensures CanPadAll(work, env, st) && CanPad(work[k], IsMarked(work, k), env, st)
    ensures var r, own := PaddedFrom(work, env, i, st), Padded(work[k], IsMarked(work, k), env, st);
      && r.lens == st.lens && SameShape(own, st) && RowsPlaced(work, env, r) && RowsPlaced(work, env, own)
      && RowPlaced(work, k, env, r) && RowPlaced(work, k, env, own) && SameRow(work, k, env, own, r)
      && (IsMarked(work, k) ==>
            && RowPlaced(work, k + 1, env, r) && RowPlaced(work, k + 1, env, own)
            && SameRow(work, k + 1, env, own, r))
    decreases |work| - i
  {
    hide RowPlaced, SameRow, OnlyRow, Padded, SameShape, CanPad, Apart;
    PlacedCanPad(work, env, st);
    var own := Padded(work[k], IsMarked(work, k), env, st);
    PaddedShape(work[k], IsMarked(work, k), env, st);
    StillPlaced(work, env, st, own);
    StillPlaced(work, env, st, PaddedFrom(work, env, i, st));
    PaddedOnlyRow(work, k, env, st);
    OnlyRowLengths(work, k, env, st, own);
    var next := if IsMarked(work, i) then i + 2 else i + 1;
    if i == k {
      PaddedBehind(work, env, next, k, own);
      if IsMarked(work, k) {
        PaddedBehind(work, env, next, k + 1, own);
      }
    } else if !work[i].w.receives {
      PaddedRow(work, env, next, k, st);
    } else {
      var st1 := Padded(work[i], IsMarked(work, i), env, st);
      PaddedShape(work[i], IsMarked(work, i), env, st);
      PaddedOnlyRow(work, i, env, st);
      OnlyRowLengths(work, i, env, st, st1);
      StillPlaced(work, env, st, st1);
      OtherRow(work, i, k, env, st, st1);
      if IsMarked(work, k) {
        OtherRow(work, i, k + 1, env, st, st1);
      }
      PaddedRow(work, env, next, k, st1);
      PlacedCanPad(work, env, st1);
      var own1, r := Padded(work[k], IsMarked(work, k), env, st1), PaddedFrom(work, env, next, st1);
      PaddedAlike(work, k, env, st, st1);
      PaddedShape(work[k], IsMarked(work, k), env, st1);
      ShapeTwice(own1, st1, st);
      ShapeBack(own1, st, own);
      RowTwice(work, k, env, own, own1, r);
      if IsMarked(work, k) {
        RowTwice(work, k + 1, env, own, own1, r);
      }
    }
  }
}
