/**
 A whole execution of a statement, from the program's storage to the database and back, for the tables that are planned
 for it: a prepared statement has its parameters sent and its columns received, a CALL both.
 */
module MoveRuns {
  import opened Texts
  import opened MoveTables
  import opened MoveExecution
  import opened MoveStorage
  import D = PackedDecimal

  // ---------- what is sent ----------

  /** What the database has of a parameter that is sent. */
  ghost predicate SentRow(s: Slot, nts: bool, b: int, st: Store, st1: Store)
    requires 0 <= s.c.len && 0 <= s.c.addr && s.c.addr + FieldSize(s.c) <= |st.mem|
  {
    if !s.w.sends || s.c.kind == 'i' then true
    else if s.c.kind == '3' then
      && 1 <= s.c.len <= 10 && (s.c.prec as int) < 2 * s.c.len
      && var t := D.UnpackedText(D.Nibbles(Field(s.c, st.mem)), s.c.prec as int);
      && PlaceOf(s, nts, b) == Buf(b) && |t| <= 21
      && InStore(st1, Buf(b), 21) && At(st1, Buf(b), 21) == t + Copies(D.BLANK, 21 - |t|)
    else forall text :: IsField(Field(s.c, st.mem), s.c, text) ==> Found(s, nts, b, st1, text)
  }

  lemma RowSent(s: Slot, nts: bool, b: int, env: Bound, st: Store, st1: Store)
    requires Slotted(s, nts, b, env, st) && SameShape(st1, st) && st1.mem == st.mem && SentAs(s, nts, b, env, st, st1)
    ensures SentRow(s, nts, b, st, st1)
  {
    hide IsField, Found, SentAs;
    if s.w.sends && s.c.kind == '3' {
      PackedFound(s, nts, b, env, st, st1);
    } else if s.w.sends && s.c.kind != 'i' {
      forall text | IsField(Field(s.c, st.mem), s.c, text) ensures Found(s, nts, b, st1, text) {
        TextFound(s, nts, b, env, st, st1, text);
      }
    }
  }

  /**
   The moves of the planned table, made from its first entry on: every parameter that is sent is found by the database
   where it is bound, with the length it has in the program, and the storage of the program stays.
   */
  lemma RowsSent(work: seq<Slot>, nts: bool, low: nat, env: Bound, ms: seq<Move>, st: Store)
    requires AllSlotted(work, nts, low, env, st) && RowsDiffer(work) && Holds(ms, 0, PlanMoves(work, nts, low))
    ensures AllCanIn(ms, env, st)
    ensures var st1 := AllIn(ms, env, st);
      && SameShape(st1, st) && st1.mem == st.mem
      && forall k :: 0 <= k < |work| ==>
           && Slotted(work[k], nts, BufferOf(work, k, nts, low), env, st)
           && SentAs(work[k], nts, BufferOf(work, k, nts, low), env, st, st1)
           && SentRow(work[k], nts, BufferOf(work, k, nts, low), st, st1)
  {
    hide Slotted, SentAs, SentRow, AllCanIn, AllIn, PlannedIn, PlanMoves, BufferOf, SameShape, Holds;
    SentAll(work, nts, low, env, st);
    TableIsPlan(ms, PlanMoves(work, nts, low), env, st);
    forall k | 0 <= k < |work|
      ensures Slotted(work[k], nts, BufferOf(work, k, nts, low), env, st)
      ensures SentAs(work[k], nts, BufferOf(work, k, nts, low), env, st, AllIn(ms, env, st))
      ensures SlotInside(work[k], st) && SentRow(work[k], nts, BufferOf(work, k, nts, low), st, AllIn(ms, env, st))
    {
      var b := BufferOf(work, k, nts, low);
      SlottedInside(work[k], nts, b, env, st);
      RowSent(work[k], nts, b, env, st, AllIn(ms, env, st));
    }
  }

  predicate SlotInside(s: Slot, st: Store) {
    0 <= s.c.len && 0 <= s.c.addr && s.c.addr + FieldSize(s.c) <= |st.mem|
  }

  lemma SlottedInside(s: Slot, nts: bool, b: int, env: Bound, st: Store)
    requires Slotted(s, nts, b, env, st)
    ensures SlotInside(s, st)
  {
  }

  // ---------- what is received ----------

  datatype Value = Null | Is(text: Text)

  /**
   The database has delivered a value for a row: NULL, or a text at the place that is bound, with its length; decimal
   text that ends in a zero byte for packed rows, and as many bytes as the row has for numbers that are not.
   */
  ghost predicate Came(s: Slot, nts: bool, b: int, st: Store, v: Value) {
    && 0 <= s.i < |st.lens|
    && match v
       case Null => st.lens[s.i] == NULL_DATA
       case Is(text) =>
         st.lens[s.i] == |text|
         && if s.c.kind == '3' then
              && 0 <= b < |st.bufs| && D.IsDecimal(text) && 0 !in text
              && |text| + 1 <= |st.bufs[b]| && st.bufs[b][..|text|] == text && st.bufs[b][|text|] == 0
            else Delivered(s, nts, b, st, text)
                 && (LengthSize(s.c.kind) > 0 || IsPadded(s.c.kind) || |text| == s.c.len)
  }

  /** What the program has of a received value: NULL is zero in a packed row, and blanks or zeros in a padded one. */
  ghost predicate Kept(s: Slot, field: Text, v: Value) {
    var text := if v.Null? then [] else v.text;
    if s.c.kind == '3' then
      && 1 <= s.c.len
      && D.Nibbles(field) == D.PackedNibbles(if v.Null? then [D.ZERO] else text, s.c.len, s.c.prec as int)
    else if IsPadded(s.c.kind) then |text| <= s.c.len && IsField(field, s.c, FilledUp(s.c.kind, text, s.c.len))
    else v.Is? ==> IsField(field, s.c, text)
  }

  /** The same as Came when NULL has become a zero and values have been filled up. */
  ghost predicate Ready(s: Slot, nts: bool, b: int, st: Store, v: Value) {
    var text := if v.Null? then [] else v.text;
    && 0 <= s.i < |st.lens|
    && if s.c.kind == '3' then
         var packed := if v.Null? then [D.ZERO] else text;
         && 0 <= b < |st.bufs| && D.IsDecimal(packed) && 0 !in packed
         && |packed| + 1 <= |st.bufs[b]| && st.bufs[b][..|packed|] == packed && st.bufs[b][|packed|] == 0
       else if IsPadded(s.c.kind) then |text| <= s.c.len && Delivered(s, nts, b, st, FilledUp(s.c.kind, text, s.c.len))
       else v.Is? ==> Delivered(s, nts, b, st, text) && (LengthSize(s.c.kind) > 0 || |text| == s.c.len)
  }

  lemma ZeroIsDecimal()
    ensures D.IsDecimal([D.ZERO])
  {
    assert D.PointAt([D.ZERO]) == 1;
    assert D.Lo(D.ZERO) as int == 0;
  }

  lemma PutIsThere(st: Store, p: Place, t: Text)
    requires InStore(st, p, |t|)
    ensures InStore(Put(st, p, t), p, |t|) && At(Put(st, p, t), p, |t|) == t
  {
  }

  /** What is done to a received row makes it ready. */
  lemma OwnReady(s: Slot, nts: bool, b: int, env: Bound, st: Store, v: Value)
    requires Slotted(s, nts, b, env, st) && CanPad(s, false, env, st) && s.w.receives && s.c.kind != 'i'
    requires env.hosts[s.i] == PlaceOf(s, nts, b) && Came(s, nts, b, st, v)
    ensures Ready(s, nts, b, PaddedValue(s, env, st), v)
  {
    hide *;
    PackedReady(s, nts, b, env, st, v);
    FilledReady(s, nts, b, env, st, v);
    OtherReady(s, nts, b, env, st, v);
  }

  lemma PackedReady(s: Slot, nts: bool, b: int, env: Bound, st: Store, v: Value)
    requires Slotted(s, nts, b, env, st) && CanPad(s, false, env, st) && s.w.receives
    requires env.hosts[s.i] == PlaceOf(s, nts, b) && Came(s, nts, b, st, v)
    ensures s.c.kind == '3' ==> Ready(s, nts, b, PaddedValue(s, env, st), v)
  {
    hide D.IsDecimal, Number;
    if s.c.kind == '3' && v.Null? {
      ZeroIsDecimal();
      var zero := [D.ZERO, 0];
      var buffer := Over(st.bufs[b], 0, zero);
      assert buffer[0] == D.ZERO && buffer[1] == 0;
      assert buffer[..1] == [D.ZERO];
    }
  }

  lemma FilledReady(s: Slot, nts: bool, b: int, env: Bound, st: Store, v: Value)
    requires Slotted(s, nts, b, env, st) && CanPad(s, false, env, st) && s.w.receives
    requires env.hosts[s.i] == PlaceOf(s, nts, b) && Came(s, nts, b, st, v)
    ensures IsPadded(s.c.kind) ==> Ready(s, nts, b, PaddedValue(s, env, st), v)
  {
    hide PlaceOf, Slotted, Put, FilledUp, D.IsDecimal;
    if IsPadded(s.c.kind) {
      var p, text := env.hosts[s.i], if v.Null? then [] else v.text;
      AtFront(st, p, |text|, s.c.len);
      assert |text| <= s.c.len && At(st, p, s.c.len)[..|text|] == text;
      if |text| < s.c.len {
        PutIsThere(st, p, FilledUp(s.c.kind, text, s.c.len));
      } else {
        FullAlready(s.c.kind, text);
      }
      PaddedShape(s, false, env, st);
    }
  }

  lemma FullAlready(kind: char, text: Text)
    ensures FilledUp(kind, text, |text|) == text
  {
  }

  lemma AtFront(st: Store, p: Place, n: nat, m: nat)
    requires InStore(st, p, m) && n <= m
    ensures InStore(st, p, n) && At(st, p, m)[..n] == At(st, p, n)
  {
  }

  lemma OtherReady(s: Slot, nts: bool, b: int, env: Bound, st: Store, v: Value)
    requires Slotted(s, nts, b, env, st) && CanPad(s, false, env, st) && s.w.receives && s.c.kind != 'i'
    requires env.hosts[s.i] == PlaceOf(s, nts, b) && Came(s, nts, b, st, v)
    ensures s.c.kind != '3' && !IsPadded(s.c.kind) ==> Ready(s, nts, b, PaddedValue(s, env, st), v)
  {
    hide Delivered, Slotted, PlaceOf;
  }

  /** A row is ready in two states if it has the same in both. */
  lemma ReadyAlike(columns: seq<Slot>, k: nat, nts: bool, b: int, env: Bound, st: Store, st1: Store, v: Value)
    requires k < |columns| && RowPlaced(columns, k, env, st) && RowPlaced(columns, k, env, st1)
    requires SameRow(columns, k, env, st, st1) && SameShape(st1, st) && st1.lens == st.lens
    requires columns[k].c.kind != 'i' && columns[k].w.receives && env.hosts[k] == PlaceOf(columns[k], nts, b)
    requires Slotted(columns[k], nts, b, env, st) && Ready(columns[k], nts, b, st, v)
    ensures Ready(columns[k], nts, b, st1, v)
  {
    hide PlaceOf, FilledUp, D.IsDecimal, Field, FieldSize;
    var s, p := columns[k], env.hosts[k];
    var text := if v.Null? then [] else v.text;
    if s.c.kind == '3' {
      PackedPlace(s, nts, b);
    } else {
      if |text| <= s.c.len {
        PlaceAlike(s.c, p, |text|, st, st1);
      }
      if IsPadded(s.c.kind) {
        PlaceAlike(s.c, p, s.c.len, st, st1);
      }
    }
  }

  lemma PackedPlace(s: Slot, nts: bool, b: int)
    requires s.c.kind == '3' && s.w.receives
    ensures PlaceOf(s, nts, b) == Buf(b)
  {
  }

  lemma PlaceAlike(c: Cell, p: Place, n: nat, st: Store, st1: Store)
    requires 0 <= c.addr && 0 <= c.len && n <= c.len && c.addr + FieldSize(c) <= |st.mem| == |st1.mem|
    requires Field(c, st.mem) == Field(c, st1.mem) && InStore(st, p, c.len) && InStore(st1, p, c.len)
    requires p.Buf? ==> st.bufs[p.k] == st1.bufs[p.k]
    requires p.Cobol? ==> c.addr <= p.a && p.a + c.len <= c.addr + FieldSize(c)
    ensures InStore(st, p, n) && InStore(st1, p, n) && At(st, p, n) == At(st1, p, n)
  {
    hide Field, FieldSize;
    AtFront(st, p, n, c.len);
    AtFront(st1, p, n, c.len);
    if p.Cobol? {
      PartOfField(c, st.mem, p.a);
      PartOfField(c, st1.mem, p.a);
    }
  }

  /** Setting the indicator leaves the row as it is, and is seen in the indicator's storage. */
  lemma MarkAfterValue(columns: seq<Slot>, k: nat, env: Bound, st: Store)
    requires RowsPlaced(columns, env, st) && k < |columns| && columns[k].w.receives && columns[k].c.kind != 'i'
    requires CanPad(columns[k], IsMarked(columns, k), env, st)
    ensures var s := columns[k];
      var a, own := PaddedValue(s, env, st), Padded(s, IsMarked(columns, k), env, st);
      && SameShape(a, st) && SameShape(own, st) && SameShape(own, a) && own.lens == a.lens == st.lens
      && RowPlaced(columns, k, env, a) && RowPlaced(columns, k, env, own) && SameRow(columns, k, env, a, own)
      && (IsMarked(columns, k) ==>
            && RowPlaced(columns, k + 1, env, own)
            && Field(columns[k + 1].c, own.mem) == NumberBytes(if st.lens[s.i] == NULL_DATA then -1 else 0, 2))
  {
    hide NumberBytes, FilledUp;
    var s, marked := columns[k], IsMarked(columns, k);
    var a := PaddedValue(s, env, st);
    assert RowPlaced(columns, k, env, st);
    PaddedShape(s, false, env, st);
    PaddedShape(s, marked, env, st);
    StillPlaced(columns, env, st, a);
    StillPlaced(columns, env, st, Padded(s, marked, env, st));
    if marked {
      assert IsWritten(columns, k) && IsWritten(columns, k + 1);
      assert Apart(columns[k].c, columns[k + 1].c);
      assert RowPlaced(columns, k + 1, env, st);
      var mark := NumberBytes(if st.lens[s.i] == NULL_DATA then -1 else 0, 2);
      OverElsewhere(s.c, a.mem, columns[k + 1].c, mark);
      OwnField(a.mem, columns[k + 1].c, mark);
    }
  }

  /** After padding every received row is ready, and its indicator says whether it is NULL. */
  lemma RowReady(columns: seq<Slot>, k: nat, nts: bool, b: int, env: Bound, st: Store, v: Value)
    requires RowsPlaced(columns, env, st) && k < |columns| && columns[k].w.receives && columns[k].c.kind != 'i'
    requires Slotted(columns[k], nts, b, env, st) && env.hosts[k] == PlaceOf(columns[k], nts, b)
    requires columns[k].i == k && Came(columns[k], nts, b, st, v)
    ensures CanPadAll(columns, env, st)
    ensures var r := PaddedFrom(columns, env, 0, st);
      && SameShape(r, st) && r.lens == st.lens && Ready(columns[k], nts, b, r, v)
      && (IsMarked(columns, k) ==>
            && RowPlaced(columns, k + 1, env, r)
            && Field(columns[k + 1].c, r.mem) == NumberBytes(if v.Null? then -1 else 0, 2))
  {
    hide RowPlaced, SameShape, Slotted, Ready, Field, CanPad, PlaceOf, NumberBytes, Padded, PaddedValue, SameRow;
    var s := columns[k];
    PlacedCanPad(columns, env, st);
    assert CanPad(s, IsMarked(columns, k), env, st);
    PadWithoutMark(s, IsMarked(columns, k), env, st);
    var a, own, r := PaddedValue(s, env, st), Padded(s, IsMarked(columns, k), env, st), PaddedFrom(columns, env, 0, st);
    OwnReady(s, nts, b, env, st, v);
    MarkAfterValue(columns, k, env, st);
    PaddedRow(columns, env, 0, k, st);
    SlottedStill(s, nts, b, env, st, a);
    ReadyAlike(columns, k, nts, b, env, a, own, v);
    SlottedStill(s, nts, b, env, st, own);
    ShapeBack(r, st, own);
    ReadyAlike(columns, k, nts, b, env, own, r, v);
    if IsMarked(columns, k) {
      FieldOfSame(columns, k + 1, env, own, r);
      CameNull(s, nts, b, st, v);
    }
  }

  lemma PadWithoutMark(s: Slot, marked: bool, env: Bound, st: Store)
    requires CanPad(s, marked, env, st)
    ensures CanPad(s, false, env, st)
  {
  }

  lemma FieldOfSame(columns: seq<Slot>, k: nat, env: Bound, st: Store, st1: Store)
    requires k < |columns| && RowPlaced(columns, k, env, st) && RowPlaced(columns, k, env, st1)
    requires SameRow(columns, k, env, st, st1)
    ensures SlotInside(columns[k], st) && SlotInside(columns[k], st1)
    ensures Field(columns[k].c, st1.mem) == Field(columns[k].c, st.mem)
  {
  }

  lemma CameNull(s: Slot, nts: bool, b: int, st: Store, v: Value)
    requires Came(s, nts, b, st, v)
    ensures 0 <= s.i < |st.lens| && (st.lens[s.i] == NULL_DATA <==> v.Null?)
  {
  }

  // ---------- all of it ----------

  /** A value that is sent and received and has a length of its own is left out here: see LengthReturned. */
  predicate Returns(s: Slot) {
    s.w.receives && s.c.kind != 'i' && LengthFits(s.c) && (s.w.sends ==> LengthSize(s.c.kind) == 0)
  }

  /** The rows in their order have the received parameters, each bound where it is planned. */
  predicate Linked(work: seq<Slot>, columns: seq<Slot>, nts: bool, low: nat, env: Bound) {
    forall k :: 0 <= k < |work| && work[k].w.receives ==>
      && 0 <= work[k].i < |columns| && columns[work[k].i] == work[k] && work[k].i < |env.hosts|
      && (work[k].c.kind != 'i' ==> env.hosts[work[k].i] == PlaceOf(work[k], nts, BufferOf(work, k, nts, low)))
  }

  /** A ready row is kept by its own moves. */
  lemma ReadyIsKept(s: Slot, nts: bool, b: int, env: Bound, st: Store, st1: Store, v: Value)
    requires Slotted(s, nts, b, env, st) && SameShape(st1, st) && ReceivedAs(s, nts, b, env, st, st1)
    requires Returns(s) && Ready(s, nts, b, st, v)
    ensures Kept(s, Field(s.c, st1.mem), v)
  {
    hide ReceivedAs, Field, IsField, D.IsDecimal, D.Nibbles, D.PackedNibbles, PlaceOf, FieldSize;
    var text := if v.Null? then [] else v.text;
    if s.c.kind == '3' {
      var packed := if v.Null? then [D.ZERO] else text;
      UpToItsZero(st.bufs[b], packed);
      PackedReceived(s, nts, b, env, st, st1, packed, st.bufs[b][|packed| + 1..]);
    } else if IsPadded(s.c.kind) {
      TextReceived(s, nts, b, env, st, st1, FilledUp(s.c.kind, text, s.c.len));
    } else if v.Is? {
      TextReceived(s, nts, b, env, st, st1, text);
    }
  }

  lemma UpToItsZero(buffer: Text, text: Text)
    requires |text| + 1 <= |buffer| && buffer[..|text|] == text && buffer[|text|] == 0
    ensures buffer == text + ([0] + buffer[|text| + 1..])
  {
  }

  /** All values that came are kept: padded, moved to where the program keeps them, and marked. */
  ghost predicate AllCame(work: seq<Slot>, nts: bool, low: nat, st: Store, values: seq<Value>) {
    forall k :: 0 <= k < |work| && work[k].w.receives && work[k].c.kind != 'i' ==>
      0 <= work[k].i < |values| && Came(work[k], nts, BufferOf(work, k, nts, low), st, values[work[k].i])
  }

  lemma SlottedAll(work: seq<Slot>, nts: bool, low: nat, env: Bound, st: Store, st1: Store)
    requires AllSlotted(work, nts, low, env, st) && SameShape(st1, st)
    ensures AllSlotted(work, nts, low, env, st1)
  {
    hide Slotted, SameShape, BufferOf;
    forall k | 0 <= k < |work| ensures Slotted(work[k], nts, BufferOf(work, k, nts, low), env, st1) {
      assert Slotted(work[k], nts, BufferOf(work, k, nts, low), env, st);
      SlottedStill(work[k], nts, BufferOf(work, k, nts, low), env, st, st1);
    }
  }

  /**
   After a fetch that has delivered values for all received rows, padding and the moves of the planned table leave every
   value in the storage of its row as the program keeps it.
   */
  lemma RowReceived(work: seq<Slot>, columns: seq<Slot>, nts: bool, low: nat, env: Bound, ms: seq<Move>, st: Store,
                    values: seq<Value>, k: nat)
    requires AllSlotted(work, nts, low, env, st) && FieldsApart(work, nts) && Holds(ms, 0, PlanMoves(work, nts, low))
    requires RowsPlaced(columns, env, st) && Linked(work, columns, nts, low, env) && AllCame(work, nts, low, st, values)
    requires k < |work| && Returns(work[k])
    ensures CanPadAll(columns, env, st) && AllCanOut(ms, env, PaddedFrom(columns, env, 0, st))
    ensures var st1 := AllOut(ms, env, PaddedFrom(columns, env, 0, st));
      && 0 <= work[k].i < |values| && SlotInside(work[k], st1)
      && Kept(work[k], Field(work[k].c, st1.mem), values[work[k].i])
  {
    hide Slotted, FieldsApart, Holds, RowsPlaced, Came, Ready, Kept, SameShape, ReceivedAs, PlaceOf, OutsideStays;
    hide PlanMoves, AllCanOut, AllOut, PlannedOut, BufferOf, LengthFits, CanPadAll, PaddedFrom, Field, FieldSize;
    var s, i, b := work[k], work[k].i, BufferOf(work, k, nts, low);
    PlacedCanPad(columns, env, st);
    RowReady(columns, i, nts, b, env, st, values[i]);
    var r := PaddedFrom(columns, env, 0, st);
    SlottedAll(work, nts, low, env, st, r);
    ReceivedAll(work, nts, low, env, r);
    TableIsPlan(ms, PlanMoves(work, nts, low), env, r);
    ReadyIsKept(s, nts, b, env, r, AllOut(ms, env, r), values[i]);
    SlottedStill(s, nts, b, env, r, AllOut(ms, env, r));
    SlottedInside(s, nts, b, env, AllOut(ms, env, r));
  }

  /** The indicator of a received row says whether the row is NULL. */
  lemma MarkReceived(work: seq<Slot>, columns: seq<Slot>, nts: bool, low: nat, env: Bound, ms: seq<Move>, st: Store,
                     values: seq<Value>, k: nat)
    requires AllSlotted(work, nts, low, env, st) && FieldsApart(work, nts) && Holds(ms, 0, PlanMoves(work, nts, low))
    requires RowsPlaced(columns, env, st) && Linked(work, columns, nts, low, env) && AllCame(work, nts, low, st, values)
    requires k < |work| && Returns(work[k]) && work[k].i >= 0 && IsMarked(columns, work[k].i)
    ensures CanPadAll(columns, env, st) && AllCanOut(ms, env, PaddedFrom(columns, env, 0, st))
    ensures var st1 := AllOut(ms, env, PaddedFrom(columns, env, 0, st));
      && 0 <= work[k].i < |values| && SlotInside(columns[work[k].i + 1], st1)
      && Field(columns[work[k].i + 1].c, st1.mem) == NumberBytes(if values[work[k].i].Null? then -1 else 0, 2)
  {
    hide Slotted, Holds, Came, Ready, SameShape, ReceivedAs, PlaceOf, OutsideStays, RowPlaced, Apart, SafeReturn;
    hide PlanMoves, AllCanOut, AllOut, PlannedOut, BufferOf, LengthFits, CanPadAll, PaddedFrom, Field, FieldSize;
    hide NumberBytes;
    var s, i, b := work[k], work[k].i, BufferOf(work, k, nts, low);
    PlacedCanPad(columns, env, st);
    RowReady(columns, i, nts, b, env, st, values[i]);
    var r := PaddedFrom(columns, env, 0, st);
    SlottedAll(work, nts, low, env, st, r);
    ReceivedAll(work, nts, low, env, r);
    TableIsPlan(ms, PlanMoves(work, nts, low), env, r);
    StillPlaced(columns, env, st, r);
    MarkStays(work, columns, nts, low, env, r, AllOut(ms, env, r), i);
  }

  /** Moves leave the storage of indicators as it is. */
  lemma MarkStays(work: seq<Slot>, columns: seq<Slot>, nts: bool, low: nat, env: Bound, st: Store, st1: Store, i: nat)
    requires AllSlotted(work, nts, low, env, st) && SameShape(st1, st) && OutsideStays(work, nts, low, st, st1)
    requires forall k :: 0 <= k < |work| && work[k].w.receives ==>
      ReceivedAs(work[k], nts, BufferOf(work, k, nts, low), env, st, st1)
    requires RowsPlaced(columns, env, st) && Linked(work, columns, nts, low, env)
    requires IsMarked(columns, i) && columns[i].w.receives
    ensures SlotInside(columns[i + 1], st) && SlotInside(columns[i + 1], st1)
    ensures Field(columns[i + 1].c, st1.mem) == Field(columns[i + 1].c, st.mem)
  {
    hide Slotted, BufferOf, PlaceOf, FieldSize, RowsPlaced, ReceivedAs, OutsideStays, Apart, Field;
    MarkPlaced(columns, i, env, st);
    if k :| 0 <= k < |work| && work[k].w.receives && work[k].i == i + 1 {
      assert Slotted(work[k], nts, BufferOf(work, k, nts, low), env, st);
      NotMoved(work[k], nts, BufferOf(work, k, nts, low), env, st, st1);
    } else {
      forall k | 0 <= k < |work| && work[k].w.receives ensures Apart(work[k].c, columns[i + 1].c) {
        ApartFromMark(columns, work[k].i, i + 1, env, st);
      }
      NotReached(work, nts, low, st, st1, columns[i + 1].c);
    }
  }

  lemma MarkPlaced(columns: seq<Slot>, i: nat, env: Bound, st: Store)
    requires RowsPlaced(columns, env, st) && IsMarked(columns, i) && columns[i].w.receives
    ensures IsWritten(columns, i + 1) && SlotInside(columns[i + 1], st)
  {
    assert RowPlaced(columns, i + 1, env, st);
  }

  lemma NotReached(work: seq<Slot>, nts: bool, low: nat, st: Store, st1: Store, c: Cell)
    requires SameShape(st1, st) && OutsideStays(work, nts, low, st, st1)
    requires forall k :: 0 <= k < |work| && work[k].w.receives ==> Apart(work[k].c, c)
    requires 0 <= c.len && 0 <= c.addr && c.addr + FieldSize(c) <= |st.mem|
    ensures Field(c, st1.mem) == Field(c, st.mem)
  {
    hide FieldSize;
    forall a | InField(c, a) ensures st1.mem[a] == st.mem[a] {
      forall k | 0 <= k < |work| && work[k].w.receives ensures !InField(work[k].c, a) {
        assert Apart(work[k].c, c);
      }
    }
  }

  lemma NotMoved(s: Slot, nts: bool, b: int, env: Bound, st: Store, st1: Store)
    requires Slotted(s, nts, b, env, st) && SameShape(st1, st) && ReceivedAs(s, nts, b, env, st, st1) && s.c.kind == 'i'
    ensures Field(s.c, st1.mem) == Field(s.c, st.mem)
  {
  }

  lemma ApartFromMark(columns: seq<Slot>, j: nat, k: nat, env: Bound, st: Store)
    requires RowsPlaced(columns, env, st) && j < |columns| && k < |columns| && j != k
    requires IsWritten(columns, j) && IsWritten(columns, k)
    ensures Apart(columns[j].c, columns[k].c)
  {
    hide RowPlaced;
    assert Apart(columns[if j < k then j else k].c, columns[if j < k then k else j].c);
  }

  // ---------- the table, move by move ----------

  /** Every move of the plan is one of some parameter. */
  lemma {:induction false} PlanMember(work: seq<Slot>, nts: bool, low: nat, j: nat) returns (k: nat)
    requires j < |PlanMoves(work, nts, low)|
    ensures k < |work| && PlanMoves(work, nts, low)[j] in MovesOf(work[k], nts, BufferOf(work, k, nts, low))
  {
    hide MovesOf, MoveCount;
    var rest := work[1..];
    var own := MovesOf(work[0], nts, low + Bufs(rest, nts));
    if j < |own| {
      k := 0;
    } else {
      k := PlanMember(rest, nts, low, j - |own|);
      assert rest[k + 1..] == work[k + 2..];
      k := k + 1;
    }
  }

  lemma {:induction false} TableMember(work: seq<Slot>, nts: bool, low: nat, ms: seq<Move>, j: nat) returns (k: nat)
    requires Holds(ms, 0, PlanMoves(work, nts, low)) && j < |ms|
    ensures k < |work| && ms[j] in MovesOf(work[k], nts, BufferOf(work, k, nts, low))
  {
    hide MovesOf, BufferOf;
    assert ms[|ms| - 1 - (|ms| - 1 - j)] == PlanMoves(work, nts, low)[|ms| - 1 - j];
    k := PlanMember(work, nts, low, |ms| - 1 - j);
  }

  /** The moves of one parameter keep to its buffer, which is for packed numbers only if it is packed. */
  lemma MemberFacts(s: Slot, nts: bool, b: int, env: Bound, st: Store, m: Move)
    requires Slotted(s, nts, b, env, st) && m in MovesOf(s, nts, b)
    ensures m.kind == 3 ==> m.len == b && s.c.kind == '3' && s.w.receives && BufCount(s, nts) == 1
    ensures 1 <= m.kind <= 4 && m.to.Buf? ==> 0 <= m.to.k < |env.pbuf| && !env.pbuf[m.to.k].Decimal?
  {
  }

  lemma TableApart(work: seq<Slot>, nts: bool, low: nat, env: Bound, ms: seq<Move>, st: Store)
    requires AllSlotted(work, nts, low, env, st) && Holds(ms, 0, PlanMoves(work, nts, low)) && |env.pbuf| == |st.bufs|
    ensures PackedApart(ms, env, st)
  {
    hide Slotted, MovesOf, BufferOf, Holds;
    forall j | 0 <= j < |ms| && 1 <= ms[j].kind <= 4 && ms[j].to.Buf?
      ensures 0 <= ms[j].to.k < |env.pbuf| && !env.pbuf[ms[j].to.k].Decimal?
    {
      var k := TableMember(work, nts, low, ms, j);
      MemberFacts(work[k], nts, BufferOf(work, k, nts, low), env, st, ms[j]);
    }
  }

  /** After padding, the buffers of received packed rows hold decimal text. */
  lemma TableDecimal(work: seq<Slot>, columns: seq<Slot>, nts: bool, low: nat, env: Bound, ms: seq<Move>, st: Store,
                     values: seq<Value>)
    requires AllSlotted(work, nts, low, env, st) && Holds(ms, 0, PlanMoves(work, nts, low)) && |env.pbuf| == |st.bufs|
    requires RowsPlaced(columns, env, st) && Linked(work, columns, nts, low, env) && AllCame(work, nts, low, st, values)
    ensures CanPadAll(columns, env, st) && DecimalsIn(ms, env, PaddedFrom(columns, env, 0, st))
  {
    hide Slotted, MovesOf, BufferOf, Holds, Came, RowsPlaced, PlaceOf, PaddedFrom, SameShape, D.IsDecimal, UpToZero;
    hide Ready, CanPadAll, Field, NumberBytes;
    PlacedCanPad(columns, env, st);
    var r := PaddedFrom(columns, env, 0, st);
    forall j | 0 <= j < |ms| && ms[j].kind == 3
      ensures 0 <= ms[j].len < |r.bufs| == |env.pbuf| && env.pbuf[ms[j].len].Decimal?
      ensures D.IsDecimal(UpToZero(r.bufs[ms[j].len]))
    {
      var k := TableMember(work, nts, low, ms, j);
      var s, b := work[k], BufferOf(work, k, nts, low);
      MemberFacts(s, nts, b, env, st, ms[j]);
      RowReady(columns, s.i, nts, b, env, st, values[s.i]);
      DecimalReady(s, nts, b, env, st, r, values[s.i]);
    }
  }

  lemma DecimalReady(s: Slot, nts: bool, b: int, env: Bound, st: Store, r: Store, v: Value)
    requires Slotted(s, nts, b, env, st) && SameShape(r, st) && s.c.kind == '3' && BufCount(s, nts) == 1
    requires Ready(s, nts, b, r, v)
    ensures 0 <= b < |r.bufs| == |env.pbuf| && env.pbuf[b].Decimal? && D.IsDecimal(UpToZero(r.bufs[b]))
  {
    hide D.IsDecimal;
    var packed := if v.Null? then [D.ZERO] else v.text;
    UpToItsZero(r.bufs[b], packed);
    ZeroEnds(packed, r.bufs[b][|packed| + 1..]);
  }

  // ---------- executing ----------

  /** Everything that is sent is with the database. */
  ghost predicate AllSent(work: seq<Slot>, nts: bool, low: nat, st: Store, st1: Store) {
    && st1.mem == st.mem
    && forall k :: 0 <= k < |work| ==>
         SlotInside(work[k], st) && SentRow(work[k], nts, BufferOf(work, k, nts, low), st, st1)
  }

  /** Everything that is received is with the program, and marked. */
  ghost predicate AllReceived(work: seq<Slot>, columns: seq<Slot>, st1: Store, values: seq<Value>) {
    forall k :: 0 <= k < |work| && Returns(work[k]) ==>
      && 0 <= work[k].i < |values| && SlotInside(work[k], st1)
      && Kept(work[k], Field(work[k].c, st1.mem), values[work[k].i])
      && (IsMarked(columns, work[k].i) ==>
            && SlotInside(columns[work[k].i + 1], st1)
            && Field(columns[work[k].i + 1].c, st1.mem) == NumberBytes(if values[work[k].i].Null? then -1 else 0, 2))
  }

  /** The first half of an execution. */
  method Send(x: Execution, ghost work: seq<Slot>, nts: bool, ghost low: nat)
    requires x.Separate() && RowsDiffer(work) && Holds(x.moves[..], 0, PlanMoves(work, nts, low))
    requires AllSlotted(work, nts, low, x.Env(), x.Now())
    modifies x.storage, x.texts, x.parmlen
    ensures AllSent(work, nts, low, old(x.Now()), x.Now()) && SameShape(x.Now(), old(x.Now()))
  {
    hide Slotted, SentRow, Holds, PlanMoves, BufferOf, AllIn, AllCanIn, SentAs, SameShape;
    ghost var st := x.Now();
    RowsSent(work, nts, low, x.Env(), x.moves[..], st);
    forall k | 0 <= k < |work| ensures SlotInside(work[k], st) {
      SlottedInside(work[k], nts, BufferOf(work, k, nts, low), x.Env(), st);
    }
    x.BeforeExecution();
  }

  /** The second half, after the database has delivered. */
  method Receive(x: Execution, ghost work: seq<Slot>, columns: seq<Slot>, nts: bool, ghost low: nat,
                 ghost values: seq<Value>)
    requires x.Separate() && Holds(x.moves[..], 0, PlanMoves(work, nts, low)) && FieldsApart(work, nts)
    requires AllSlotted(work, nts, low, x.Env(), x.Now()) && RowsPlaced(columns, x.Env(), x.Now())
    requires Linked(work, columns, nts, low, x.Env()) && |x.pbuf| == x.texts.Length
    requires AllCame(work, nts, low, x.Now(), values)
    modifies x.storage, x.texts
    ensures AllReceived(work, columns, x.Now(), values)
  {
    hide Slotted, Holds, PlanMoves, BufferOf, FieldsApart, RowsPlaced, Linked, AllCame, Kept, AllOut, AllCanOut;
    hide PaddedFrom, CanPadAll, PackedApart, DecimalsIn, SameShape, Field, FieldSize, NumberBytes, Returns;
    ghost var st, env, ms := x.Now(), x.Env(), x.moves[..];
    PlacedCanPad(columns, env, st);
    ghost var r := PaddedFrom(columns, env, 0, st);
    TableReady(work, columns, nts, low, env, ms, st, values);
    x.PadColumns(columns);
    x.AfterFetch();
    forall k | 0 <= k < |work| && Returns(work[k])
      ensures 0 <= work[k].i < |values| && SlotInside(work[k], x.Now())
      ensures Kept(work[k], Field(work[k].c, x.Now().mem), values[work[k].i])
      ensures IsMarked(columns, work[k].i) ==>
        && SlotInside(columns[work[k].i + 1], x.Now())
        && Field(columns[work[k].i + 1].c, x.Now().mem) == NumberBytes(if values[work[k].i].Null? then -1 else 0, 2)
    {
      RowReceived(work, columns, nts, low, env, ms, st, values, k);
      if IsMarked(columns, work[k].i) {
        MarkReceived(work, columns, nts, low, env, ms, st, values, k);
      }
    }
  }

  lemma TableReady(work: seq<Slot>, columns: seq<Slot>, nts: bool, low: nat, env: Bound, ms: seq<Move>, st: Store,
                   values: seq<Value>)
    requires AllSlotted(work, nts, low, env, st) && FieldsApart(work, nts) && Holds(ms, 0, PlanMoves(work, nts, low))
    requires RowsPlaced(columns, env, st) && Linked(work, columns, nts, low, env) && AllCame(work, nts, low, st, values)
    requires |env.pbuf| == |st.bufs|
    ensures CanPadAll(columns, env, st)
    ensures var r := PaddedFrom(columns, env, 0, st);
      AllCanOut(ms, env, r) && PackedApart(ms, env, r) && DecimalsIn(ms, env, r)
  {
    hide Slotted, Holds, PlanMoves, BufferOf, FieldsApart, RowsPlaced, Linked, AllCame, AllOut, AllCanOut, PlannedOut;
    hide PaddedFrom, CanPadAll, PackedApart, DecimalsIn, OutsideStays, ReceivedAs;
    PlacedCanPad(columns, env, st);
    var r := PaddedFrom(columns, env, 0, st);
    SlottedAll(work, nts, low, env, st, r);
    ReceivedAll(work, nts, low, env, r);
    TableIsPlan(ms, PlanMoves(work, nts, low), env, r);
    TableApart(work, nts, low, env, ms, r);
    TableDecimal(work, columns, nts, low, env, ms, st, values);
  }

  // ---------- the tables that are planned ----------

  lemma PreparedRows(cells: seq<Cell>, parms: nat)
    requires parms <= |cells|
    ensures RowsDiffer(PrepareWork(cells, parms))
  {
  }

  lemma CallRows(cells: seq<Cell>)
    ensures RowsDiffer(CallWork(cells))
  {
  }

  /** The program has storage for every row, and packed rows of the sizes it can declare. */
  predicate HasStorage(work: seq<Slot>, st: Store) {
    forall k :: 0 <= k < |work| ==>
      && 0 <= work[k].i < |st.lens| && SlotInside(work[k], st)
      && (work[k].c.kind == '3' && (work[k].w.sends || work[k].w.receives) ==> DecimalFits(BufferFor(work[k])))
  }

  /** The buffers are as large as they were allocated. */
  predicate HasBuffers(pbuf: seq<Buffer>, st: Store) {
    |st.bufs| == |pbuf| && forall b :: 0 <= b < |pbuf| ==> |st.bufs[b]| == Capacity(pbuf[b])
  }

  /** The rows of the statement know the places that were bound. */
  predicate HostsBound(bound: seq<Binding>, env: Bound) {
    forall j :: 0 <= j < |bound| ==> 0 <= bound[j].row < |env.hosts| && env.hosts[bound[j].row] == bound[j].place
  }

  /** Parameters with planned buffers, bound where they are planned, have what their moves need. */
  lemma WorkSlotted(work: seq<Slot>, nts: bool, low: nat, env: Bound, st: Store)
    requires Holds(env.pbuf, low, PlanBufs(work, nts)) && HasStorage(work, st) && HasBuffers(env.pbuf, st)
    requires forall k :: 0 <= k < |work| && work[k].w.receives && work[k].c.kind != 'i' ==>
      work[k].i < |env.hosts| && env.hosts[work[k].i] == PlaceOf(work[k], nts, BufferOf(work, k, nts, low))
    requires env.call || forall k :: 0 <= k < |work| ==> !(work[k].w.sends && work[k].w.receives)
    ensures AllSlotted(work, nts, low, env, st)
  {
    hide Holds, PlanBufs, Bufs, BufferFor;
    forall k | 0 <= k < |work| ensures Slotted(work[k], nts, BufferOf(work, k, nts, low), env, st) {
      if BufCount(work[k], nts) == 1 {
        BufferAt(env.pbuf, work, k, nts, low);
        BufferSize(work[k], nts);
      }
    }
  }

  lemma BufferSize(s: Slot, nts: bool)
    requires BufCount(s, nts) == 1
    ensures Capacity(BufferFor(s)) == if s.c.kind == '3' then 22 else s.c.len + 1
  {
  }

  lemma {:induction false} ColumnsAll(cells: seq<Cell>, lo: nat, hi: nat, i: nat)
    requires lo <= i < hi <= |cells| && cells[i].kind != 'i'
    ensures i in Columns(cells, lo, hi)
    decreases hi - lo
  {
    if lo < i {
      ColumnsAll(cells, lo + 1, hi, i);
    }
  }

  /** The result columns of a prepared statement, in their order. */
  function ColumnRows(cells: seq<Cell>, parms: nat): (rows: seq<Slot>)
    requires parms <= |cells|
    ensures |rows| == |cells| - parms
  {
    Slots(cells, 0, |cells| - parms, RECEIVED)
  }

  /**
   A prepared statement that is bound as planned: its table is the plan, every parameter has its storage and its buffer,
   and every column the place it was bound at. So what `Send` and `Receive` say holds for it.
   */
  lemma PreparedFits(t: Tables, cells: seq<Cell>, parms: nat, nts: bool, refused: set<nat>, ct: int, bufct: int,
                     markers: seq<Binding>, columns: seq<Binding>, env: Bound, st: Store)
    requires parms <= |cells| && BoundAsPlanned(t, cells, parms, nts, refused, true, ct, bufct, markers, columns)
    requires env.pbuf == t.pbuf[..] && HostsBound(columns, env) && |cells| <= |env.hosts|
    requires HasStorage(PrepareWork(cells, parms), st) && HasBuffers(env.pbuf, st)
    ensures var work := PrepareWork(cells, parms);
      && RowsDiffer(work) && Holds(t.moves[..], 0, PlanMoves(work, nts, 0)) && AllSlotted(work, nts, 0, env, st)
      && Linked(work, ColumnRows(cells, parms), nts, 0, env)
  {
    hide Holds, PlanMoves, PlanBufs, Columns, Markers, PlaceOf, HasBuffers, HasStorage, AllBound, Slotted, PrepareWork;
    hide BoundAsPlanned, ColumnRows, BufferOf, AllSlotted, HostsBound;
    var work, cols := PrepareWork(cells, parms), |cells| - parms;
    PreparedRows(cells, parms);
    BoundFacts(t, cells, parms, nts, refused, ct, bufct, markers, columns);
    forall k | 0 <= k < |work| && work[k].w.receives
      ensures 0 <= work[k].i < cols && ColumnRows(cells, parms)[work[k].i] == work[k] && work[k].i < |env.hosts|
      ensures work[k].c.kind != 'i' ==> env.hosts[work[k].i] == PlaceOf(work[k], nts, BufferOf(work, k, nts, 0))
    {
      RowOfColumn(cells, parms, k);
      if work[k].c.kind != 'i' {
        ColumnHost(cells, parms, nts, columns, env, k);
      }
    }
    NotBothWays(cells, parms);
    WorkSlotted(work, nts, 0, env, st);
  }

  lemma BoundFacts(t: Tables, cells: seq<Cell>, parms: nat, nts: bool, refused: set<nat>, ct: int, bufct: int,
                   markers: seq<Binding>, columns: seq<Binding>)
    requires parms <= |cells| && BoundAsPlanned(t, cells, parms, nts, refused, true, ct, bufct, markers, columns)
    ensures var work, cols := PrepareWork(cells, parms), |cells| - parms;
      && Holds(t.moves[..], 0, PlanMoves(work, nts, 0)) && Holds(t.pbuf[..], 0, PlanBufs(work, nts))
      && AreBindings(columns, Columns(cells, 0, cols), work, parms, nts, 0, false)
  {
    hide Holds, PlanMoves, PlanBufs, Columns, Markers, AllBound, AreBindings, PrepareWork, Fits;
  }

  lemma NotBothWays(cells: seq<Cell>, parms: nat)
    ensures forall k :: 0 <= k < |cells| ==>
      !(PrepareWork(cells, parms)[k].w.sends && PrepareWork(cells, parms)[k].w.receives)
  {
  }

  /** A column is bound where it is planned. */
  lemma ColumnHost(cells: seq<Cell>, parms: nat, nts: bool, columns: seq<Binding>, env: Bound, k: nat)
    requires parms <= |cells| && k < |cells| && HostsBound(columns, env)
    requires AreBindings(columns, Columns(cells, 0, |cells| - parms), PrepareWork(cells, parms), parms, nts, 0, false)
    requires PrepareWork(cells, parms)[k].w.receives && PrepareWork(cells, parms)[k].c.kind != 'i'
    ensures var work := PrepareWork(cells, parms);
      0 <= work[k].i < |env.hosts| && env.hosts[work[k].i] == PlaceOf(work[k], nts, BufferOf(work, k, nts, 0))
  {
    hide Columns, PlaceOf, PrepareWork, Bufs, SizeOf;
    var work, cols := PrepareWork(cells, parms), |cells| - parms;
    RowOfColumn(cells, parms, k);
    ColumnsAll(cells, 0, cols, work[k].i);
    var rows := Columns(cells, 0, cols);
    var j :| 0 <= j < |rows| && rows[j] == work[k].i;
    assert columns[j] == BindingOf(work, rows[j] + parms, nts, 0, false);
    assert env.hosts[columns[j].row] == columns[j].place;
  }

  lemma RowOfColumn(cells: seq<Cell>, parms: nat, k: nat)
    requires parms <= |cells| && k < |cells| && PrepareWork(cells, parms)[k].w.receives
    ensures var s, cols := PrepareWork(cells, parms)[k], |cells| - parms;
      && k >= parms && s.i == k - parms < cols && s.c == cells[s.i] && ColumnRows(cells, parms)[s.i] == s
  {
  }

  lemma {:induction false} MarkersAll(cells: seq<Cell>, lo: nat, i: nat)
    requires lo <= i < |cells| && cells[i].kind != 'i'
    ensures i in Markers(cells, lo)
    decreases |cells| - lo
  {
    if lo < i {
      MarkersAll(cells, if lo + 1 < |cells| && cells[lo + 1].kind == 'i' then lo + 2 else lo + 1, i);
    }
  }

  /** The same for a CALL whose parameters all have a direction. */
  lemma CallFits(t: Tables, cells: seq<Cell>, nts: bool, bound: seq<Binding>, env: Bound, st: Store)
    requires Strays(CallWork(cells)) == StrayBufs(CallWork(cells)) == 0 && env.call
    requires Holds(t.moves[..], 0, PlanMoves(CallWork(cells), nts, 0))
    requires Holds(t.pbuf[..], 0, PlanBufs(CallWork(cells), nts))
    requires AreBindings(bound, Markers(cells, 0), CallWork(cells), 0, nts, 0, true)
    requires env.pbuf == t.pbuf[..] && HostsBound(bound, env) && |cells| <= |env.hosts|
    requires HasStorage(CallWork(cells), st) && HasBuffers(env.pbuf, st)
    ensures var work := CallWork(cells);
      RowsDiffer(work) && AllSlotted(work, nts, 0, env, st) && Linked(work, work, nts, 0, env)
  {
    hide Holds, PlanMoves, PlanBufs, Markers, PlaceOf, HasBuffers, HasStorage, Slotted, Argument;
    var work := CallWork(cells);
    CallRows(cells);
    forall k | 0 <= k < |work| && work[k].c.kind != 'i'
      ensures work[k].i == k < |env.hosts| && env.hosts[k] == PlaceOf(work[k], nts, BufferOf(work, k, nts, 0))
    {
      CallWorkAt(cells, k);
      MarkersAll(cells, 0, k);
      var j :| 0 <= j < |Markers(cells, 0)| && Markers(cells, 0)[j] == k;
      assert bound[j] == BindingOf(work, Markers(cells, 0)[j] + 0, nts, 0, true);
      assert env.hosts[bound[j].row] == bound[j].place;
    }
    forall k | 0 <= k < |work| ensures work[k].i == k {
      CallWorkAt(cells, k);
    }
    WorkSlotted(work, nts, 0, env, st);
  }

  lemma BufferOrder(work: seq<Slot>, j: nat, k: nat, nts: bool, low: nat)
    requires j < k < |work| && BufCount(work[k], nts) == 1
    ensures BufferOf(work, k, nts, low) < BufferOf(work, j, nts, low)
  {
    hide Bufs, BufCount;
    assert work[j..][0 + 1..] == work[j + 1..] && work[j..][k - j + 1..] == work[k + 1..];
    BufferBelow(work[j..], k - j, nts, low);
  }

  /** The place of a parameter is its buffer exactly when it has one. */
  lemma PlaceIs(s: Slot, nts: bool, b: int)
    ensures PlaceOf(s, nts, b).Buf? <==> BufCount(s, nts) == 1
    ensures PlaceOf(s, nts, b).Buf? ==> PlaceOf(s, nts, b) == Buf(b)
    ensures PlaceOf(s, nts, b).Cobol? ==>
      PlaceOf(s, nts, b).a == s.c.addr || PlaceOf(s, nts, b).a == s.c.addr + LengthSize(s.c.kind)
    ensures s.c.kind == '3' && s.w.receives ==> BufCount(s, nts) == 1
  {
  }

  /**
   Rows that are bound where they are planned, indicators at their storage, and no two that are written in the same
   storage: that is all that padding asks for.
   */
  lemma RowsArePlaced(work: seq<Slot>, columns: seq<Slot>, shift: nat, nts: bool, low: nat, env: Bound, st: Store)
    requires AllSlotted(work, nts, low, env, st) && |work| == |columns| + shift && |columns| <= |env.hosts|
    requires forall i :: 0 <= i < |columns| ==> columns[i] == work[i + shift] && columns[i].i == i
    requires forall i :: 0 <= i < |columns| && columns[i].c.kind != 'i' ==>
      env.hosts[i] == PlaceOf(columns[i], nts, BufferOf(work, i + shift, nts, low))
    requires forall i :: 0 <= i < |columns| && columns[i].c.kind == 'i' ==> env.hosts[i] == Cobol(columns[i].c.addr)
    requires forall j, k :: 0 <= j < k < |columns| && IsWritten(columns, j) && IsWritten(columns, k) ==>
      Apart(columns[j].c, columns[k].c)
    ensures RowsPlaced(columns, env, st)
  {
    hide PlaceOf, Slotted, BufferOf, Apart, BufCount;
    forall k | 0 <= k < |columns| ensures RowPlaced(columns, k, env, st) {
      assert Slotted(work[k + shift], nts, BufferOf(work, k + shift, nts, low), env, st);
      PlaceIs(columns[k], nts, BufferOf(work, k + shift, nts, low));
      SlottedRow(columns, k, nts, BufferOf(work, k + shift, nts, low), env, st);
    }
    forall j, k | 0 <= j < k < |columns| && env.hosts[j].Buf? ensures env.hosts[j] != env.hosts[k] {
      PlaceIs(columns[j], nts, BufferOf(work, j + shift, nts, low));
      PlaceIs(columns[k], nts, BufferOf(work, k + shift, nts, low));
      if env.hosts[k].Buf? {
        BufferOrder(work, j + shift, k + shift, nts, low);
      }
    }
  }

  lemma SlottedRow(columns: seq<Slot>, k: nat, nts: bool, b: int, env: Bound, st: Store)
    requires k < |columns| && columns[k].i == k < |env.hosts| && Slotted(columns[k], nts, b, env, st)
    requires columns[k].c.kind != 'i' ==> env.hosts[k] == PlaceOf(columns[k], nts, b)
    requires columns[k].c.kind == 'i' ==> env.hosts[k] == Cobol(columns[k].c.addr)
    ensures RowPlaced(columns, k, env, st)
  {
  }
}
