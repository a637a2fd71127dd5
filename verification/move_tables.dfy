/**
 The move tables of a prepared statement and of a CALL. Parameters that a database cannot take from or
 put into COBOL storage as they are get moves, and some of them a buffer. One pass over the parameters
 counts moves and buffers, the tables are allocated, and a later pass fills them by counting down.
 */
module MoveTables {

  /** Where a value is: at an address of the COBOL program, or in a buffer of the statement. */
  datatype Place = Cobol(a: int) | Buf(k: int)

  /** A row of the parameter table: type letter, length, precision byte, address. */
  datatype Cell = Cell(kind: char, len: int, prec: bv8, addr: int)

  /** Is the value sent to the database, received from it, or both? */
  datatype Way = Way(sends: bool, receives: bool)

  const SENT := Way(true, false)
  const RECEIVED := Way(false, true)

  datatype Slot = Slot(i: int, c: Cell, w: Way)

  datatype Move = Move(cell: int, kind: int, len: int, to: Place)

  datatype Buffer = Unused | Decimal(bytelen: int, precision: bv8) | Chars(size: int)

  predicate IsVar(kind: char) {
    kind == 'V' || kind == 'v' || kind == 'L' || kind == 'l'
  }

  predicate IsText(kind: char) {
    kind == 'X' || kind == 'V' || kind == 'L'
  }

  /** Size of the length in front of a variable-length value. */
  function Prefix(kind: char): int {
    if kind == 'V' || kind == 'v' then 2 else if kind == 'L' || kind == 'l' then 4 else 0
  }

  // ---------- what one parameter needs ----------

  /** Received text goes through a buffer when the database ends it with a zero byte. */
  predicate Converted(s: Slot, nts: bool) {
    !nts && s.w.receives && IsText(s.c.kind)
  }

  function BufCount(s: Slot, nts: bool): nat {
    if Converted(s, nts) || (s.c.kind == '3' && (s.w.sends || s.w.receives)) then 1 else 0
  }

  function BufferFor(s: Slot): Buffer {
    if s.c.kind == '3' then Decimal(s.c.len, s.c.prec) else Chars(s.c.len + 1)
  }

  function BufsOf(s: Slot, nts: bool): (bs: seq<Buffer>)
    ensures |bs| == BufCount(s, nts)
  {
    if BufCount(s, nts) == 1 then [BufferFor(s)] else []
  }

  /** The moves before execution; b is the buffer the parameter gets if it gets one. */
  function MovesIn(s: Slot, nts: bool, b: int): seq<Move> {
    var Slot(i, c, w) := s;
    if !w.sends then []
    else if c.kind == '3' then [Move(i, -3, b, Cobol(c.addr))]
    else
      (if IsVar(c.kind) then [Move(i, -Prefix(c.kind), c.len, Cobol(c.addr))] else [])
      + (if Converted(s, nts) then [Move(i, -1, c.len, Cobol(c.addr + Prefix(c.kind)))] else [])
  }

  /** Where the database finds or puts the value. */
  function PlaceOf(s: Slot, nts: bool, b: int): Place {
    if BufCount(s, nts) == 1 then Buf(b)
    else if s.w.sends || s.w.receives then Cobol(s.c.addr + Prefix(s.c.kind))
    else Cobol(s.c.addr)
  }

  /** Where the length of a received value is put: for a value that was also sent, not where it was taken from. */
  function LengthPlace(s: Slot, nts: bool, b: int): Place {
    if s.w.sends then PlaceOf(s, nts, b) else Cobol(s.c.addr)
  }

  /** The moves after execution. */
  function MovesOut(s: Slot, nts: bool, b: int): seq<Move> {
    var Slot(i, c, w) := s;
    if !w.receives then []
    else if c.kind == '3' then [Move(i, 3, b, Cobol(c.addr))]
    else
      (if IsVar(c.kind) then [Move(i, Prefix(c.kind), c.len, LengthPlace(s, nts, b))] else [])
      + (if Converted(s, nts) then [Move(i, 1, c.len, Cobol(c.addr + Prefix(c.kind)))] else [])
  }

  function MoveCount(s: Slot, nts: bool): nat {
    (if IsVar(s.c.kind) || s.c.kind == '3' || Converted(s, nts) then
      (if s.w.sends then 1 else 0) + (if s.w.receives then 1 else 0)
    else 0)
    + (if IsVar(s.c.kind) && Converted(s, nts) then 1 + if s.w.sends then 1 else 0 else 0)
  }

  function MovesOf(s: Slot, nts: bool, b: int): (ms: seq<Move>)
    ensures |ms| == MoveCount(s, nts)
  {
    MovesIn(s, nts, b) + MovesOut(s, nts, b)
  }

  // ---------- what a list of parameters needs ----------

  function Moves(work: seq<Slot>, nts: bool): nat {
    if |work| == 0 then 0 else MoveCount(work[0], nts) + Moves(work[1..], nts)
  }

  function Bufs(work: seq<Slot>, nts: bool): nat {
    if |work| == 0 then 0 else BufCount(work[0], nts) + Bufs(work[1..], nts)
  }

  /** The moves in the order they are stored; buffers are handed out downwards, to the last parameter number `low`. */
  function PlanMoves(work: seq<Slot>, nts: bool, low: nat): (ms: seq<Move>)
    ensures |ms| == Moves(work, nts)
  {
    if |work| == 0 then [] else MovesOf(work[0], nts, low + Bufs(work[1..], nts)) + PlanMoves(work[1..], nts, low)
  }

  function PlanBufs(work: seq<Slot>, nts: bool): (bs: seq<Buffer>)
    ensures |bs| == Bufs(work, nts)
  {
    if |work| == 0 then [] else BufsOf(work[0], nts) + PlanBufs(work[1..], nts)
  }

  lemma {:induction false} MovesConcat(a: seq<Slot>, b: seq<Slot>, nts: bool)
    ensures Moves(a + b, nts) == Moves(a, nts) + Moves(b, nts) && Bufs(a + b, nts) == Bufs(a, nts) + Bufs(b, nts)
  {
    if |a| == 0 {
      assert a + b == b;
    } else {
      assert (a + b)[1..] == a[1..] + b;
      MovesConcat(a[1..], b, nts);
    }
  }

  function Slots(cells: seq<Cell>, lo: nat, hi: nat, w: Way): (work: seq<Slot>)
    requires lo <= hi <= |cells|
    ensures |work| == hi - lo
  {
    seq(hi - lo, k requires 0 <= k < hi - lo => Slot(lo + k, cells[lo + k], w))
  }

  /** The rows in front of the parameters; none when there are more parameters than rows. */
  function ColumnCount(cells: seq<Cell>, parms: nat): (n: nat)
    ensures n <= |cells|
  {
    if parms <= |cells| then |cells| - parms else 0
  }

  /** The parameters of a prepared statement in the order they are bound: markers first, then columns. */
  function PrepareWork(cells: seq<Cell>, parms: nat): (work: seq<Slot>)
    ensures |work| == |cells|
  {
    var cols := ColumnCount(cells, parms);
    Slots(cells, cols, |cells|, SENT) + Slots(cells, 0, cols, RECEIVED)
  }

  /** The counting pass of a prepare, over the table from its first row. */
  method CountPrepare(cells: seq<Cell>, parms: nat, nts: bool) returns (ct: nat, bufct: nat)
    ensures ct == Moves(PrepareWork(cells, parms), nts)
    ensures bufct == Bufs(PrepareWork(cells, parms), nts)
  {
    hide Moves, Bufs, Slots;
    var first := |cells| - parms;
    ghost var cols := ColumnCount(cells, parms);
    ghost var table := Slots(cells, 0, cols, RECEIVED) + Slots(cells, cols, |cells|, SENT);
    ct, bufct := 0, 0;
    NothingNeeded(nts);
    for i := 0 to |cells|
      invariant ct == Moves(table[..i], nts) && bufct == Bufs(table[..i], nts)
    {
      NextNeeded(table, i, nts);
      TableAt(cells, cols, i);
      var kind := cells[i].kind;
      if !nts && i < first && (kind == 'X' || kind == 'V' || kind == 'L') {
        ct := ct + 1;
        bufct := bufct + 1;
      }
      if kind == 'V' || kind == 'v' || kind == 'L' || kind == 'l' || kind == '3' {
        ct := ct + 1;
        if kind == '3' {
          bufct := bufct + 1;
        }
      }
    }
    assert table[..|cells|] == table;
    MovesConcat(Slots(cells, 0, cols, RECEIVED), Slots(cells, cols, |cells|, SENT), nts);
    MovesConcat(Slots(cells, cols, |cells|, SENT), Slots(cells, 0, cols, RECEIVED), nts);
  }

  lemma TableAt(cells: seq<Cell>, cols: nat, i: nat)
    requires cols <= |cells| && i < |cells|
    ensures (Slots(cells, 0, cols, RECEIVED) + Slots(cells, cols, |cells|, SENT))[i]
         == Slot(i, cells[i], if i < cols then RECEIVED else SENT)
  {
  }

  lemma NothingNeeded(nts: bool)
    ensures Moves([], nts) == 0 && Bufs([], nts) == 0 && PlanMoves([], nts, 0) == [] && PlanBufs([], nts) == []
  {
  }

  lemma NextNeeded(work: seq<Slot>, i: nat, nts: bool)
    requires i < |work|
    ensures Moves(work[..i + 1], nts) == Moves(work[..i], nts) + MoveCount(work[i], nts)
    ensures Bufs(work[..i + 1], nts) == Bufs(work[..i], nts) + BufCount(work[i], nts)
  {
    var last := [work[i]];
    assert work[..i + 1] == work[..i] + last;
    MovesConcat(work[..i], last, nts);
    assert last[1..] == [];
  }

  // ---------- storing downwards ----------

  /** The entries xs were put below `from`, the first one uppermost, and nothing else was touched. */
  ghost predicate Stored<T>(before: seq<T>, after: seq<T>, from: int, to: int, xs: seq<T>) {
    && |after| == |before|
    && 0 <= to && to + |xs| == from <= |after|
    && (forall k :: 0 <= k < |xs| ==> after[from - 1 - k] == xs[k])
    && (forall k :: 0 <= k < to || from <= k < |after| ==> after[k] == before[k])
  }

  /** From the top of the table down to `at`: exactly xs. */
  ghost predicate Holds<T>(a: seq<T>, at: int, xs: seq<T>) {
    0 <= at && at + |xs| == |a| && forall k :: 0 <= k < |xs| ==> a[|a| - 1 - k] == xs[k]
  }

  lemma HoldsMore<T>(a: seq<T>, a1: seq<T>, from: int, to: int, xs: seq<T>, ys: seq<T>)
    requires Holds(a, from, xs) && Stored(a, a1, from, to, ys)
    ensures Holds(a1, to, xs + ys)
  {
    forall k | 0 <= k < |xs + ys| ensures a1[|a1| - 1 - k] == (xs + ys)[k] {
      if k >= |xs| {
        assert a1[from - 1 - (k - |xs|)] == ys[k - |xs|];
      }
    }
  }

  /** The buffers that are about to be used are new, or were made for the same kind of parameter. */
  ghost predicate Fits(pbuf: seq<Buffer>, at: int, bs: seq<Buffer>) {
    && |bs| <= at <= |pbuf|
    && forall k :: 0 <= k < |bs| ==> pbuf[at - 1 - k] == Unused || pbuf[at - 1 - k] == bs[k]
  }

  lemma OwnBuffer(s: Slot, nts: bool, pbuf: seq<Buffer>, at: int)
    requires Fits(pbuf, at, BufsOf(s, nts))
    ensures 0 <= at <= |pbuf|
    ensures BufCount(s, nts) == 1 ==>
      at >= 1 && BufsOf(s, nts) == [BufferFor(s)] && (pbuf[at - 1] == Unused || pbuf[at - 1] == BufferFor(s))
    ensures BufCount(s, nts) != 1 ==> BufsOf(s, nts) == []
  {
    if BufCount(s, nts) == 1 {
      assert pbuf[at - 1 - 0] == Unused || pbuf[at - 1 - 0] == BufsOf(s, nts)[0];
    }
  }

  lemma NothingStored<T>(a: seq<T>, at: int)
    requires 0 <= at <= |a|
    ensures Stored(a, a, at, at, [])
  {
  }

  // ---------- binding one parameter ----------

  /** Put one more move into the table. */
  method PutMove(moves: array<Move>, ct0: int, m: Move, ghost before: seq<Move>, ghost from: int, ghost ms: seq<Move>)
    returns (ct: int)
    requires 0 < ct0 && Stored(before, moves[..], from, ct0, ms)
    modifies moves
    ensures ct == ct0 - 1 && Stored(before, moves[..], from, ct, ms + [m])
  {
    ct := ct0 - 1;
    moves[ct] := m;
  }

  /** Take one more buffer; it is allocated when it is new. */
  method PutBuffer(pbuf: array<Buffer>, bufct0: int, b: Buffer, ghost before: seq<Buffer>, ghost from: int,
                   ghost bs: seq<Buffer>)
    returns (bufct: int)
    requires 0 < bufct0 && Stored(before, pbuf[..], from, bufct0, bs)
    requires pbuf[bufct0 - 1] == Unused || pbuf[bufct0 - 1] == b
    modifies pbuf
    ensures bufct == bufct0 - 1 && Stored(before, pbuf[..], from, bufct, bs + [b])
  {
    bufct := bufct0 - 1;
    if pbuf[bufct] == Unused {
      pbuf[bufct] := b;
    }
  }

  /** A marker of a prepared statement. */
  method BindMarker(s: Slot, nts: bool, moves: array<Move>, ct0: int, pbuf: array<Buffer>, bufct0: int)
    returns (ct: int, bufct: int, place: Place)
    requires s.w == SENT && MoveCount(s, nts) <= ct0 <= moves.Length && Fits(pbuf[..], bufct0, BufsOf(s, nts))
    modifies moves, pbuf
    ensures Stored(old(moves[..]), moves[..], ct0, ct, MovesOf(s, nts, bufct))
    ensures Stored(old(pbuf[..]), pbuf[..], bufct0, bufct, BufsOf(s, nts))
    ensures place == PlaceOf(s, nts, bufct)
  {
    hide Stored, Fits, BufsOf;
    ct, bufct, place := ct0, bufct0, Cobol(s.c.addr);
    ghost var was, had := moves[..], pbuf[..];
    ghost var ms: seq<Move>, bs: seq<Buffer> := [], [];
    OwnBuffer(s, nts, had, bufct0);
    NothingStored(was, ct0);
    NothingStored(had, bufct0);
    if s.c.kind == 'V' || s.c.kind == 'v' {
      ct := PutMove(moves, ct, Move(s.i, -2, s.c.len, place), was, ct0, ms);
      ms := ms + [Move(s.i, -2, s.c.len, place)];
      place := Cobol(s.c.addr + 2);
    } else if s.c.kind == 'L' || s.c.kind == 'l' {
      ct := PutMove(moves, ct, Move(s.i, -4, s.c.len, place), was, ct0, ms);
      ms := ms + [Move(s.i, -4, s.c.len, place)];
      place := Cobol(s.c.addr + 4);
    } else if s.c.kind == '3' {
      bufct := PutBuffer(pbuf, bufct, Decimal(s.c.len, s.c.prec), had, bufct0, bs);
      bs := bs + [Decimal(s.c.len, s.c.prec)];
      ct := PutMove(moves, ct, Move(s.i, -3, bufct, place), was, ct0, ms);
      ms := ms + [Move(s.i, -3, bufct, place)];
      place := Buf(bufct);
    }
    assert ms == MovesOf(s, nts, bufct) && bs == BufsOf(s, nts);
  }

  /** The move of a result column that is packed or has a length in front. */
  function FirstOut(s: Slot, b: int): seq<Move> {
    if s.c.kind == '3' then [Move(s.i, 3, b, Cobol(s.c.addr))]
    else if IsVar(s.c.kind) then [Move(s.i, Prefix(s.c.kind), s.c.len, Cobol(s.c.addr))]
    else []
  }

  /** A result column of a prepared statement, but for text that has to be copied. */
  method BindValue(s: Slot, nts: bool, moves: array<Move>, ct0: int, pbuf: array<Buffer>, bufct0: int)
    returns (ct: int, bufct: int, place: Place)
    requires |FirstOut(s, 0)| <= ct0 <= moves.Length && 0 <= bufct0 <= pbuf.Length
    requires s.c.kind == '3' ==> bufct0 >= 1 && (pbuf[bufct0 - 1] == Unused || pbuf[bufct0 - 1] == BufferFor(s))
    modifies moves, pbuf
    ensures Stored(old(moves[..]), moves[..], ct0, ct, FirstOut(s, bufct))
    ensures Stored(old(pbuf[..]), pbuf[..], bufct0, bufct, if s.c.kind == '3' then [BufferFor(s)] else [])
    ensures place == if s.c.kind == '3' then Buf(bufct) else Cobol(s.c.addr + Prefix(s.c.kind))
  {
    hide Stored;
    ct, bufct, place := ct0, bufct0, Cobol(s.c.addr);
    ghost var was, had := moves[..], pbuf[..];
    ghost var ms: seq<Move>, bs: seq<Buffer> := [], [];
    NothingStored(was, ct0);
    NothingStored(had, bufct0);
    if s.c.kind == 'V' || s.c.kind == 'v' {
      ct := PutMove(moves, ct, Move(s.i, 2, s.c.len, place), was, ct0, ms);
      ms := ms + [Move(s.i, 2, s.c.len, place)];
      place := Cobol(s.c.addr + 2);
    } else if s.c.kind == 'L' || s.c.kind == 'l' {
      ct := PutMove(moves, ct, Move(s.i, 4, s.c.len, place), was, ct0, ms);
      ms := ms + [Move(s.i, 4, s.c.len, place)];
      place := Cobol(s.c.addr + 4);
    } else if s.c.kind == '3' {
      bufct := PutBuffer(pbuf, bufct, Decimal(s.c.len, s.c.prec), had, bufct0, bs);
      bs := bs + [Decimal(s.c.len, s.c.prec)];
      ct := PutMove(moves, ct, Move(s.i, 3, bufct, place), was, ct0, ms);
      ms := ms + [Move(s.i, 3, bufct, place)];
      place := Buf(bufct);
    }
    assert ms == FirstOut(s, bufct) && bs == if s.c.kind == '3' then [BufferFor(s)] else [];
  }

  /** A result column of a prepared statement. */
  method BindColumn(s: Slot, nts: bool, moves: array<Move>, ct0: int, pbuf: array<Buffer>, bufct0: int)
    returns (ct: int, bufct: int, place: Place)
    requires s.w == RECEIVED && MoveCount(s, nts) <= ct0 <= moves.Length && Fits(pbuf[..], bufct0, BufsOf(s, nts))
    modifies moves, pbuf
    ensures Stored(old(moves[..]), moves[..], ct0, ct, MovesOf(s, nts, bufct))
    ensures Stored(old(pbuf[..]), pbuf[..], bufct0, bufct, BufsOf(s, nts))
    ensures place == PlaceOf(s, nts, bufct)
  {
    hide Stored, Fits, BufsOf, FirstOut, MovesOf, MoveCount, PlaceOf;
    ghost var was, had := moves[..], pbuf[..];
    OwnBuffer(s, nts, had, bufct0);
    ColumnNeeds(s, nts);
    ct, bufct, place := BindValue(s, nts, moves, ct0, pbuf, bufct0);
    ColumnMoves(s, nts, bufct);
    StoredLow(was, moves[..], ct0, ct, FirstOut(s, bufct), if Converted(s, nts) then 1 else 0);
    if s.c.kind != '3' {
      NoneTaken(had, pbuf[..], bufct0, bufct);
    }
    if !nts && (s.c.kind == 'X' || s.c.kind == 'V' || s.c.kind == 'L') {
      Untaken(had, pbuf[..], bufct0, bufct, []);
      bufct := PutBuffer(pbuf, bufct, Chars(s.c.len + 1), had, bufct0, []);
      assert [] + [Chars(s.c.len + 1)] == [Chars(s.c.len + 1)];
      ColumnMoves(s, nts, bufct);
      ct := PutMove(moves, ct, Move(s.i, 1, s.c.len, place), was, ct0, FirstOut(s, bufct));
      place := Buf(bufct);
    }
  }

  lemma ColumnNeeds(s: Slot, nts: bool)
    requires s.w == RECEIVED
    ensures MoveCount(s, nts) == |FirstOut(s, 0)| + if Converted(s, nts) then 1 else 0
    ensures BufCount(s, nts) == if s.c.kind == '3' || Converted(s, nts) then 1 else 0
    ensures s.c.kind == '3' ==> !Converted(s, nts)
  {
  }

  lemma ColumnMoves(s: Slot, nts: bool, b: int)
    requires s.w == RECEIVED
    ensures MovesOf(s, nts, b) == FirstOut(s, b)
      + if Converted(s, nts) then [Move(s.i, 1, s.c.len, Cobol(s.c.addr + Prefix(s.c.kind)))] else []
    ensures |FirstOut(s, b)| == |FirstOut(s, 0)| && (s.c.kind != '3' ==> FirstOut(s, b) == FirstOut(s, 0))
    ensures !Converted(s, nts) ==> MovesOf(s, nts, b) == FirstOut(s, b)
    ensures PlaceOf(s, nts, b)
         == if s.c.kind == '3' || Converted(s, nts) then Buf(b) else Cobol(s.c.addr + Prefix(s.c.kind))
  {
  }

  lemma Untaken<T>(before: seq<T>, after: seq<T>, from: int, to: int, xs: seq<T>)
    requires Stored(before, after, from, to, xs)
    ensures 0 <= to <= |before| == |after| && (to > 0 ==> after[to - 1] == before[to - 1])
  {
  }

  /** A parameter of a CALL: what is sent. */
  method BindSent(s: Slot, nts: bool, moves: array<Move>, ct0: int, pbuf: array<Buffer>, bufct0: int)
    returns (ct: int, bufct: int, place: Place)
    requires s.w.sends && |MovesIn(s, nts, 0)| <= ct0 <= moves.Length && Fits(pbuf[..], bufct0, BufsOf(s, nts))
    modifies moves, pbuf
    ensures Stored(old(moves[..]), moves[..], ct0, ct, MovesIn(s, nts, bufct))
    ensures Stored(old(pbuf[..]), pbuf[..], bufct0, bufct, BufsOf(s, nts))
    ensures place == PlaceOf(s, nts, bufct)
  {
    hide Stored, Fits, BufsOf;
    ct, bufct, place := ct0, bufct0, Cobol(s.c.addr);
    ghost var was, had := moves[..], pbuf[..];
    ghost var ms: seq<Move>, bs: seq<Buffer> := [], [];
    OwnBuffer(s, nts, had, bufct0);
    NothingStored(was, ct0);
    NothingStored(had, bufct0);
    if s.c.kind == 'V' || s.c.kind == 'v' {
      ct := PutMove(moves, ct, Move(s.i, -2, s.c.len, place), was, ct0, ms);
      ms := ms + [Move(s.i, -2, s.c.len, place)];
      if !nts && s.w.receives && s.c.kind == 'V' {
        bufct := PutBuffer(pbuf, bufct, Chars(s.c.len + 1), had, bufct0, bs);
        bs := bs + [Chars(s.c.len + 1)];
        ct := PutMove(moves, ct, Move(s.i, -1, s.c.len, Cobol(s.c.addr + 2)), was, ct0, ms);
        ms := ms + [Move(s.i, -1, s.c.len, Cobol(s.c.addr + 2))];
        place := Buf(bufct);
      } else {
        place := Cobol(s.c.addr + 2);
      }
    } else if s.c.kind == 'L' || s.c.kind == 'l' {
      ct := PutMove(moves, ct, Move(s.i, -4, s.c.len, place), was, ct0, ms);
      ms := ms + [Move(s.i, -4, s.c.len, place)];
      if !nts && s.w.receives && s.c.kind == 'L' {
        bufct := PutBuffer(pbuf, bufct, Chars(s.c.len + 1), had, bufct0, bs);
        bs := bs + [Chars(s.c.len + 1)];
        ct := PutMove(moves, ct, Move(s.i, -1, s.c.len, Cobol(s.c.addr + 4)), was, ct0, ms);
        ms := ms + [Move(s.i, -1, s.c.len, Cobol(s.c.addr + 4))];
        place := Buf(bufct);
      } else {
        place := Cobol(s.c.addr + 4);
      }
    } else if s.c.kind == '3' {
      bufct := PutBuffer(pbuf, bufct, Decimal(s.c.len, s.c.prec), had, bufct0, bs);
      bs := bs + [Decimal(s.c.len, s.c.prec)];
      ct := PutMove(moves, ct, Move(s.i, -3, bufct, Cobol(s.c.addr)), was, ct0, ms);
      ms := ms + [Move(s.i, -3, bufct, Cobol(s.c.addr))];
      place := Buf(bufct);
    } else if !nts && s.w.receives && s.c.kind == 'X' {
      bufct := PutBuffer(pbuf, bufct, Chars(s.c.len + 1), had, bufct0, bs);
      bs := bs + [Chars(s.c.len + 1)];
      ct := PutMove(moves, ct, Move(s.i, -1, s.c.len, place), was, ct0, ms);
      ms := ms + [Move(s.i, -1, s.c.len, place)];
      place := Buf(bufct);
    }
    assert ms == MovesIn(s, nts, bufct) && bs == BufsOf(s, nts);
  }

  /** The second half of a CALL parameter: what comes back. */
  method BindReceived(s: Slot, nts: bool, moves: array<Move>, ct0: int, pbuf: array<Buffer>, bufct0: int, place0: Place)
    returns (ct: int, bufct: int, place: Place)
    requires s.w.receives && |MovesOut(s, nts, 0)| <= ct0 <= moves.Length
    requires if s.w.sends then 0 <= bufct0 <= pbuf.Length && place0 == PlaceOf(s, nts, bufct0)
             else Fits(pbuf[..], bufct0, BufsOf(s, nts)) && place0 == Cobol(s.c.addr)
    modifies moves, pbuf
    ensures Stored(old(moves[..]), moves[..], ct0, ct, MovesOut(s, nts, bufct)) && place == PlaceOf(s, nts, bufct)
    ensures Stored(old(pbuf[..]), pbuf[..], bufct0, bufct, if s.w.sends then [] else BufsOf(s, nts))
  {
    hide Stored, Fits, BufsOf;
    ct, bufct, place := ct0, bufct0, place0;
    ghost var was, had := moves[..], pbuf[..];
    ghost var ms: seq<Move>, bs: seq<Buffer> := [], [];
    if !s.w.sends {
      OwnBuffer(s, nts, had, bufct0);
    }
    NothingStored(was, ct0);
    NothingStored(had, bufct0);
    if s.c.kind == 'V' || s.c.kind == 'v' {
      ct := PutMove(moves, ct, Move(s.i, 2, s.c.len, place), was, ct0, ms);
      ms := ms + [Move(s.i, 2, s.c.len, place)];
      if !s.w.sends {
        place := Cobol(s.c.addr + 2);
      }
    } else if s.c.kind == 'L' || s.c.kind == 'l' {
      ct := PutMove(moves, ct, Move(s.i, 4, s.c.len, place), was, ct0, ms);
      ms := ms + [Move(s.i, 4, s.c.len, place)];
      if !s.w.sends {
        place := Cobol(s.c.addr + 4);
      }
    } else if s.c.kind == '3' {
      if !s.w.sends {
        bufct := PutBuffer(pbuf, bufct, Decimal(s.c.len, s.c.prec), had, bufct0, bs);
        bs := bs + [Decimal(s.c.len, s.c.prec)];
        place := Buf(bufct);
      }
      ct := PutMove(moves, ct, Move(s.i, 3, bufct, Cobol(s.c.addr)), was, ct0, ms);
      ms := ms + [Move(s.i, 3, bufct, Cobol(s.c.addr))];
    }
    if !nts && (s.c.kind == 'X' || s.c.kind == 'V' || s.c.kind == 'L') {
      ct := PutMove(moves, ct, Move(s.i, 1, s.c.len, Cobol(s.c.addr + Prefix(s.c.kind))), was, ct0, ms);
      ms := ms + [Move(s.i, 1, s.c.len, Cobol(s.c.addr + Prefix(s.c.kind)))];
      if !s.w.sends {
        bufct := PutBuffer(pbuf, bufct, Chars(s.c.len + 1), had, bufct0, bs);
        bs := bs + [Chars(s.c.len + 1)];
        place := Buf(bufct);
      }
    }
    assert ms == MovesOut(s, nts, bufct) && bs == if s.w.sends then [] else BufsOf(s, nts);
  }

  lemma StoredTwice<T>(a: seq<T>, b: seq<T>, c: seq<T>, from: int, mid: int, to: int, xs: seq<T>, ys: seq<T>)
    requires Stored(a, b, from, mid, xs) && Stored(b, c, mid, to, ys)
    ensures Stored(a, c, from, to, xs + ys)
  {
    forall k | 0 <= k < |xs + ys| ensures c[from - 1 - k] == (xs + ys)[k] {
      if k >= |xs| {
        assert c[mid - 1 - (k - |xs|)] == ys[k - |xs|];
      }
    }
  }

  /** A parameter of a CALL. */
  method BindArgument(s: Slot, nts: bool, moves: array<Move>, ct0: int, pbuf: array<Buffer>, bufct0: int)
    returns (ct: int, bufct: int, place: Place, size: int)
    requires MoveCount(s, nts) <= ct0 <= moves.Length && Fits(pbuf[..], bufct0, BufsOf(s, nts))
    modifies moves, pbuf
    ensures Stored(old(moves[..]), moves[..], ct0, ct, MovesOf(s, nts, bufct))
    ensures Stored(old(pbuf[..]), pbuf[..], bufct0, bufct, BufsOf(s, nts))
    ensures place == PlaceOf(s, nts, bufct) && size == CallSize(s, nts)
  {
    hide PlaceOf, BufsOf, MoveCount, Stored, Fits, MovesIn, MovesOut;
    ct, bufct, place := ct0, bufct0, Cobol(s.c.addr);
    ghost var was, had := moves[..], pbuf[..];
    OwnBuffer(s, nts, had, bufct0);
    NothingStored(was, ct0);
    NothingStored(had, bufct0);
    Halves(s, nts, bufct0);
    if s.w.sends {
      ct, bufct, place := BindSent(s, nts, moves, ct, pbuf, bufct);
      Halves(s, nts, bufct);
      StoredLow(was, moves[..], ct0, ct, MovesIn(s, nts, bufct), |MovesOut(s, nts, 0)|);
      StoredLow(had, pbuf[..], bufct0, bufct, BufsOf(s, nts), 0);
    }
    ghost var sent, ct1 := moves[..], ct;
    ghost var bufs, bufct1 := pbuf[..], bufct;
    if s.w.receives {
      ct, bufct, place := BindReceived(s, nts, moves, ct, pbuf, bufct, place);
      Halves(s, nts, bufct);
    } else {
      NothingStored(sent, ct1);
      NothingStored(bufs, bufct1);
    }
    if s.w.sends {
      NoneTaken(bufs, pbuf[..], bufct1, bufct);
      StoredTwice(had, bufs, pbuf[..], bufct0, bufct1, bufct, BufsOf(s, nts), []);
      assert BufsOf(s, nts) + [] == BufsOf(s, nts);
    }
    StoredTwice(was, sent, moves[..], ct0, ct1, ct, MovesIn(s, nts, bufct), MovesOut(s, nts, bufct));
    size := CallLength(s, nts);
  }

  /** The size the database is told. */
  method CallLength(s: Slot, nts: bool) returns (size: int)
    ensures size == CallSize(s, nts)
  {
    size := s.c.len;
    if !nts && s.w.receives && (s.c.kind == 'X' || s.c.kind == 'V' || s.c.kind == 'L') {
      size := size + 1;
    }
    if s.c.kind == '3' {
      size := 21;
    }
  }

  lemma NoneTaken<T>(before: seq<T>, after: seq<T>, from: int, to: int)
    requires Stored(before, after, from, to, [])
    ensures from == to
  {
  }

  lemma StoredLow<T>(before: seq<T>, after: seq<T>, from: int, to: int, xs: seq<T>, n: nat)
    requires Stored(before, after, from, to, xs) && |xs| + n <= from
    ensures n <= to <= |after| && |after| == |before|
  {
  }

  lemma Halves(s: Slot, nts: bool, b: int)
    ensures |MovesIn(s, nts, b)| == |MovesIn(s, nts, 0)| && |MovesOut(s, nts, b)| == |MovesOut(s, nts, 0)|
    ensures |MovesIn(s, nts, 0)| + |MovesOut(s, nts, 0)| == MoveCount(s, nts)
    ensures !s.w.sends ==> MovesIn(s, nts, b) == []
    ensures !s.w.receives ==> MovesOut(s, nts, b) == []
    ensures !s.w.sends && !s.w.receives ==> BufsOf(s, nts) == [] && PlaceOf(s, nts, b) == Cobol(s.c.addr)
  {
  }

  // ---------- progress through the tables ----------

  lemma {:induction false} PlanFrom(work: seq<Slot>, k: nat, nts: bool, low: nat)
    requires k <= |work|
    ensures Moves(work[k..], nts) <= Moves(work, nts) && Bufs(work[k..], nts) <= Bufs(work, nts)
    ensures PlanMoves(work, nts, low)[Moves(work, nts) - Moves(work[k..], nts)..] == PlanMoves(work[k..], nts, low)
    ensures PlanBufs(work, nts)[Bufs(work, nts) - Bufs(work[k..], nts)..] == PlanBufs(work[k..], nts)
  {
    hide MovesOf, BufsOf, MoveCount, BufCount;
    if k == 0 {
      assert work[0..] == work;
    } else {
      var rest := work[1..];
      assert rest[k - 1..] == work[k..];
      PlanFrom(rest, k - 1, nts, low);
      LastOf(MovesOf(work[0], nts, low + Bufs(rest, nts)), PlanMoves(rest, nts, low), Moves(work[k..], nts));
      LastOf(BufsOf(work[0], nts), PlanBufs(rest, nts), Bufs(work[k..], nts));
    }
  }

  lemma LastOf<T>(x: seq<T>, y: seq<T>, n: nat)
    requires n <= |y|
    ensures (x + y)[|x + y| - n..] == y[|y| - n..]
  {
  }

  /** The part of a plan in front of what the last n entries plan. */
  function Before<T>(plan: seq<T>, n: nat): seq<T> {
    if n <= |plan| then plan[..|plan| - n] else []
  }

  /** The tables when the first k parameters are bound; `low` entries at the bottom are not planned for. */
  ghost predicate Progress(moves: seq<Move>, pbuf: seq<Buffer>, work: seq<Slot>, k: nat, nts: bool, ct: int, bufct: int,
                     low: nat, lowBufs: nat)
    requires k <= |work|
  {
    var todo := work[k..];
    && ct == low + Moves(todo, nts) && bufct == lowBufs + Bufs(todo, nts)
    && Holds(moves, ct, Before(PlanMoves(work, nts, lowBufs), Moves(todo, nts)))
    && Holds(pbuf, bufct, Before(PlanBufs(work, nts), Bufs(todo, nts)))
    && Fits(pbuf, bufct, PlanBufs(todo, nts))
  }

  lemma Head(work: seq<Slot>, nts: bool, low: nat)
    requires |work| > 0
    ensures Moves(work, nts) == MoveCount(work[0], nts) + Moves(work[1..], nts)
    ensures Bufs(work, nts) == BufCount(work[0], nts) + Bufs(work[1..], nts)
    ensures PlanMoves(work, nts, low)
      == MovesOf(work[0], nts, low + Bufs(work[1..], nts)) + PlanMoves(work[1..], nts, low)
    ensures PlanBufs(work, nts) == BufsOf(work[0], nts) + PlanBufs(work[1..], nts)
  {
    hide MovesOf, BufsOf, MoveCount, BufCount;
  }

  lemma NextPlanned(work: seq<Slot>, k: nat, nts: bool, low: nat)
    requires k < |work|
    ensures var s, todo, rest := work[k], work[k..], work[k + 1..];
      && Moves(todo, nts) == MoveCount(s, nts) + Moves(rest, nts)
      && Bufs(todo, nts) == BufCount(s, nts) + Bufs(rest, nts)
      && PlanBufs(todo, nts) == BufsOf(s, nts) + PlanBufs(rest, nts)
      && Before(PlanMoves(work, nts, low), Moves(rest, nts))
         == Before(PlanMoves(work, nts, low), Moves(todo, nts)) + MovesOf(s, nts, low + Bufs(rest, nts))
      && Before(PlanBufs(work, nts), Bufs(rest, nts)) == Before(PlanBufs(work, nts), Bufs(todo, nts)) + BufsOf(s, nts)
  {
    hide *;
    var todo, rest := work[k..], work[k + 1..];
    assert todo[0] == work[k] && todo[1..] == rest;
    Head(todo, nts, low);
    PlanFrom(work, k, nts, low);
    PlanFrom(work, k + 1, nts, low);
    CutTwice(PlanMoves(work, nts, low), MovesOf(work[k], nts, low + Bufs(rest, nts)), PlanMoves(rest, nts, low));
    CutTwice(PlanBufs(work, nts), BufsOf(work[k], nts), PlanBufs(rest, nts));
  }

  lemma CutTwice<T>(plan: seq<T>, x: seq<T>, y: seq<T>)
    requires |x| + |y| <= |plan| && plan[|plan| - |x| - |y|..] == x + y
    ensures Before(plan, |y|) == Before(plan, |x| + |y|) + x
  {
    var n := |plan| - |x| - |y|;
    assert plan == plan[..n] + (x + y);
  }

  lemma BoundOne(moves: seq<Move>, pbuf: seq<Buffer>, work: seq<Slot>, k: nat, nts: bool, ct: int, bufct: int,
                 low: nat, lowBufs: nat, moves1: seq<Move>, pbuf1: seq<Buffer>, ct1: int, bufct1: int)
    requires k < |work| && Progress(moves, pbuf, work, k, nts, ct, bufct, low, lowBufs)
    requires Stored(moves, moves1, ct, ct1, MovesOf(work[k], nts, bufct1))
    requires Stored(pbuf, pbuf1, bufct, bufct1, BufsOf(work[k], nts))
    ensures Progress(moves1, pbuf1, work, k + 1, nts, ct1, bufct1, low, lowBufs)
  {
    hide PlanMoves, PlanBufs, MovesOf, BufsOf, MoveCount, BufCount, Moves, Bufs, Before, Holds, Fits;
    var todo, rest := work[k..], work[k + 1..];
    NextPlanned(work, k, nts, lowBufs);
    HoldsMore(moves, moves1, ct, ct1, Before(PlanMoves(work, nts, lowBufs), Moves(todo, nts)),
              MovesOf(work[k], nts, bufct1));
    HoldsMore(pbuf, pbuf1, bufct, bufct1, Before(PlanBufs(work, nts), Bufs(todo, nts)), BufsOf(work[k], nts));
    FitsRest(pbuf, pbuf1, bufct, bufct1, BufsOf(work[k], nts), PlanBufs(rest, nts));
  }

  lemma FitsRest(pbuf: seq<Buffer>, pbuf1: seq<Buffer>, at: int, at1: int, xs: seq<Buffer>, ys: seq<Buffer>)
    requires Fits(pbuf, at, xs + ys) && Stored(pbuf, pbuf1, at, at1, xs)
    ensures Fits(pbuf1, at1, ys)
  {
    forall k | 0 <= k < |ys| ensures pbuf1[at1 - 1 - k] == Unused || pbuf1[at1 - 1 - k] == ys[k] {
      assert (xs + ys)[|xs| + k] == ys[k];
      assert at - 1 - (|xs| + k) == at1 - 1 - k;
    }
  }

  /** What is needed to bind the next parameter. */
  lemma Ready(moves: seq<Move>, pbuf: seq<Buffer>, work: seq<Slot>, k: nat, nts: bool, ct: int, bufct: int,
              low: nat, lowBufs: nat)
    requires k < |work| && Progress(moves, pbuf, work, k, nts, ct, bufct, low, lowBufs)
    ensures MoveCount(work[k], nts) <= ct <= |moves| && Fits(pbuf, bufct, BufsOf(work[k], nts))
  {
    hide PlanMoves, PlanBufs, MovesOf, BufsOf, MoveCount, BufCount, Moves, Bufs, Before;
    NextPlanned(work, k, nts, lowBufs);
    var xs, ys := BufsOf(work[k], nts), PlanBufs(work[k + 1..], nts);
    forall j | 0 <= j < |xs| ensures pbuf[bufct - 1 - j] == Unused || pbuf[bufct - 1 - j] == xs[j] {
      assert (xs + ys)[j] == xs[j];
    }
  }

  /** An indicator needs nothing. */
  lemma PassOver(moves: seq<Move>, pbuf: seq<Buffer>, work: seq<Slot>, k: nat, nts: bool, ct: int, bufct: int,
                 low: nat, lowBufs: nat)
    requires k < |work| && Progress(moves, pbuf, work, k, nts, ct, bufct, low, lowBufs)
    requires work[k].c.kind == 'i'
    ensures Progress(moves, pbuf, work, k + 1, nts, ct, bufct, low, lowBufs)
  {
    hide PlanMoves, PlanBufs, Moves, Bufs, Before, Progress;
    assert MovesOf(work[k], nts, bufct) == [] && BufsOf(work[k], nts) == [];
    Positions(moves, pbuf, work, k, nts, ct, bufct, low, lowBufs);
    BoundOne(moves, pbuf, work, k, nts, ct, bufct, low, lowBufs, moves, pbuf, ct, bufct);
  }

  lemma Positions(moves: seq<Move>, pbuf: seq<Buffer>, work: seq<Slot>, k: nat, nts: bool, ct: int, bufct: int,
                  low: nat, lowBufs: nat)
    requires k < |work| && Progress(moves, pbuf, work, k, nts, ct, bufct, low, lowBufs)
    ensures 0 <= ct <= |moves| && 0 <= bufct <= |pbuf|
  {
    hide PlanMoves, PlanBufs, Moves, Bufs, Before;
  }

  lemma Started(moves: seq<Move>, pbuf: seq<Buffer>, work: seq<Slot>, nts: bool, low: nat, lowBufs: nat)
    requires |moves| == low + Moves(work, nts) && |pbuf| == lowBufs + Bufs(work, nts)
    requires Fits(pbuf, |pbuf|, PlanBufs(work, nts))
    ensures Progress(moves, pbuf, work, 0, nts, |moves|, |pbuf|, low, lowBufs)
  {
    assert work[0..] == work;
  }

  lemma Finished(moves: seq<Move>, pbuf: seq<Buffer>, work: seq<Slot>, nts: bool, ct: int, bufct: int,
                 low: nat, lowBufs: nat)
    requires Progress(moves, pbuf, work, |work|, nts, ct, bufct, low, lowBufs)
    ensures ct == low && bufct == lowBufs
    ensures Holds(moves, low, PlanMoves(work, nts, lowBufs)) && Holds(pbuf, lowBufs, PlanBufs(work, nts))
  {
    hide PlanMoves, PlanBufs, Moves, Bufs, Holds;
    assert work[|work|..] == [];
    NothingNeeded(nts);
    assert PlanMoves(work, nts, lowBufs)[..|PlanMoves(work, nts, lowBufs)|] == PlanMoves(work, nts, lowBufs);
    assert PlanBufs(work, nts)[..|PlanBufs(work, nts)|] == PlanBufs(work, nts);
  }

  // ---------- binding a statement ----------

  /** Types and lengths the runtime knows how to bind. */
  predicate Bindable(c: Cell) {
    c.kind == 'F' || c.kind == '3' || IsText(c.kind) || c.kind == 'B' || c.kind == 'v' || c.kind == 'l'
    || (c.kind == 'I' && (c.len == 2 || c.len == 4 || c.len == 8))
  }

  /** The rows bound to markers, in order: a row behind a bound one is passed over if it is an indicator. */
  function Markers(cells: seq<Cell>, i: nat): seq<nat>
    requires i <= |cells|
    decreases |cells| - i
  {
    if i == |cells| then []
    else if i + 1 < |cells| && cells[i + 1].kind == 'i' then [i] + Markers(cells, i + 2)
    else [i] + Markers(cells, i + 1)
  }

  /** The rows bound to result columns, in order: all but the indicators. */
  function Columns(cells: seq<Cell>, lo: nat, hi: nat): seq<nat>
    requires lo <= hi <= |cells|
    decreases hi - lo
  {
    if lo == hi then []
    else (if cells[lo].kind == 'i' then [] else [lo]) + Columns(cells, lo + 1, hi)
  }

  predicate AllBound(cells: seq<Cell>, rows: seq<nat>, refused: set<nat>) {
    forall k :: 0 <= k < |rows| ==> rows[k] < |cells| && Bindable(cells[rows[k]]) && rows[k] !in refused
  }

  /** The tables of a statement. */
  class Tables {
    const moves: array<Move>
    const pbuf: array<Buffer>

    constructor (ct: nat, bufct: nat)
      ensures fresh(moves) && fresh(pbuf) && moves.Length == ct && pbuf.Length == bufct
      ensures forall k :: 0 <= k < bufct ==> pbuf[k] == Unused
    {
      moves := new Move[ct];
      pbuf := new Buffer[bufct](_ => Unused);
    }
  }

  /** Allocate the tables of a statement; there is no array of a negative number of columns, and then there are none. */
  method NewTables(columns: int, ct: nat, bufct: nat) returns (t: Tables?)
    ensures t == null <==> columns < 0
    ensures t != null ==> fresh(t.moves) && fresh(t.pbuf) && t.moves.Length == ct && t.pbuf.Length == bufct
    ensures t != null ==> forall k :: 0 <= k < bufct ==> t.pbuf[k] == Unused
  {
    if columns < 0 {
      return null;
    }
    t := new Tables(ct, bufct);
  }

  /** A binding: the row, where its value is, and the size given to the database. */
  datatype Binding = Binding(row: int, place: Place, size: int)

  function MarkerSize(c: Cell): int {
    if c.kind == '3' then 21 else c.len
  }

  function ColumnSize(c: Cell, nts: bool): int {
    if c.kind == '3' then 22 else if !nts && IsText(c.kind) then c.len + 1 else c.len
  }

  /** The size given for a CALL parameter. */
  function CallSize(s: Slot, nts: bool): int {
    if s.c.kind == '3' then 21 else if Converted(s, nts) then s.c.len + 1 else s.c.len
  }

  function SizeOf(s: Slot, nts: bool, call: bool): int {
    if call then CallSize(s, nts) else if s.w == SENT then MarkerSize(s.c) else ColumnSize(s.c, nts)
  }

  /** What is bound for the k-th parameter of the work. */
  function BindingOf(work: seq<Slot>, k: nat, nts: bool, low: nat, call: bool): Binding
    requires k < |work|
  {
    var s := work[k];
    Binding(s.i, PlaceOf(s, nts, low + Bufs(work[k + 1..], nts)), SizeOf(s, nts, call))
  }

  lemma MadeBinding(moves: seq<Move>, pbuf: seq<Buffer>, work: seq<Slot>, k: nat, nts: bool, ct: int, bufct: int,
                    low: nat, lowBufs: nat, place: Place, size: int, call: bool)
    requires k < |work| && Progress(moves, pbuf, work, k + 1, nts, ct, bufct, low, lowBufs)
    requires place == PlaceOf(work[k], nts, bufct) && size == SizeOf(work[k], nts, call)
    ensures Binding(work[k].i, place, size) == BindingOf(work, k, nts, lowBufs, call)
  {
    hide PlanMoves, PlanBufs, Moves, Bufs, Before, Holds, Fits, PlaceOf, SizeOf;
  }

  lemma PreparedSize(c: Cell, nts: bool)
    ensures forall i :: SizeOf(Slot(i, c, SENT), nts, false) == MarkerSize(c)
    ensures forall i :: SizeOf(Slot(i, c, RECEIVED), nts, false) == ColumnSize(c, nts)
  {
    assert SENT != RECEIVED;
  }

  lemma AddRow(cells: seq<Cell>, done: seq<nat>, row: nat, more: seq<nat>, refused: set<nat>)
    requires AllBound(cells, done, refused)
    ensures done + ([row] + more) == (done + [row]) + more
    ensures AllBound(cells, done + [row], refused) == (row < |cells| && Bindable(cells[row]) && row !in refused)
    ensures !(row < |cells| && Bindable(cells[row]) && row !in refused) ==>
      !AllBound(cells, done + ([row] + more), refused)
  {
    hide Bindable;
    assert (done + ([row] + more))[|done|] == row && (done + [row])[|done|] == row;
  }

  lemma NextMarker(cells: seq<Cell>, i: nat)
    requires i < |cells|
    ensures Markers(cells, i)
         == [i] + Markers(cells, if i + 1 < |cells| && cells[i + 1].kind == 'i' then i + 2 else i + 1)
  {
  }

  lemma WorkAt(cells: seq<Cell>, parms: nat, i: nat)
    requires parms <= |cells| && i < |cells|
    ensures var lo := |cells| - parms;
      PrepareWork(cells, parms)[if i < lo then parms + i else i - lo]
        == Slot(i, cells[i], if i < lo then RECEIVED else SENT)
    ensures RECEIVED != SENT
  {
  }

  lemma NoRows(cells: seq<Cell>, i: nat, refused: set<nat>)
    requires i <= |cells|
    ensures Markers(cells, |cells|) == [] && Columns(cells, i, i) == [] && AllBound(cells, [], refused)
  {
  }

  /** These are the bindings of these rows, in order; a row's place in the work is `shift` further on. */
  predicate AreBindings(bound: seq<Binding>, rows: seq<nat>, work: seq<Slot>, shift: int, nts: bool, low: nat,
                        call: bool) {
    |bound| == |rows|
    && forall j :: 0 <= j < |rows| ==>
         0 <= rows[j] + shift < |work| && bound[j] == BindingOf(work, rows[j] + shift, nts, low, call)
  }

  lemma NoBindings(work: seq<Slot>, shift: int, nts: bool, low: nat, call: bool)
    ensures AreBindings([], [], work, shift, nts, low, call)
  {
  }

  lemma AddBinding(bound: seq<Binding>, rows: seq<nat>, work: seq<Slot>, shift: int, nts: bool, low: nat, call: bool,
                   row: nat, b: Binding)
    requires AreBindings(bound, rows, work, shift, nts, low, call)
    requires 0 <= row + shift < |work| && b == BindingOf(work, row + shift, nts, low, call)
    ensures AreBindings(bound + [b], rows + [row], work, shift, nts, low, call)
  {
    hide BindingOf;
  }

  /** Bind the markers of a prepared statement. */
  method BindMarkers(t: Tables, cells: seq<Cell>, parms: nat, nts: bool, refused: set<nat>, ct0: int, bufct0: int)
    returns (ok: bool, ct: int, bufct: int, bound: seq<Binding>)
    requires parms <= |cells| && Progress(t.moves[..], t.pbuf[..], PrepareWork(cells, parms), 0, nts, ct0, bufct0, 0, 0)
    modifies t.moves, t.pbuf
    ensures var work, lo := PrepareWork(cells, parms), |cells| - parms;
      var rows := Markers(cells, lo);
      && ok == AllBound(cells, rows, refused)
      && Fits(t.pbuf[..], t.pbuf.Length, PlanBufs(work, nts))
      && (ok ==> Progress(t.moves[..], t.pbuf[..], work, parms, nts, ct, bufct, 0, 0)
                 && AreBindings(bound, rows, work, -lo, nts, 0, false))
  {
    hide *;
    ghost var work := PrepareWork(cells, parms);
    var lo := |cells| - parms;
    var i := lo;
    ct, bufct, bound := ct0, bufct0, [];
    ghost var done: seq<nat> := [];
    NoRows(cells, lo, refused);
    assert [] + Markers(cells, lo) == Markers(cells, lo);
    NoBindings(work, -lo, nts, 0, false);
    while i < |cells|
      invariant lo <= i <= |cells| && Progress(t.moves[..], t.pbuf[..], work, i - lo, nts, ct, bufct, 0, 0)
      invariant Markers(cells, lo) == done + Markers(cells, i)
      invariant AllBound(cells, done, refused) && AreBindings(bound, done, work, -lo, nts, 0, false)
      decreases |cells| - i
    {
      var place;
      WorkAt(cells, parms, i);
      Ready(t.moves[..], t.pbuf[..], work, i - lo, nts, ct, bufct, 0, 0);
      ghost var moves0, pbuf0, ct1, bufct1 := t.moves[..], t.pbuf[..], ct, bufct;
      ct, bufct, place := BindMarker(Slot(i, cells[i], SENT), nts, t.moves, ct, t.pbuf, bufct);
      BoundOne(moves0, pbuf0, work, i - lo, nts, ct1, bufct1, 0, 0, t.moves[..], t.pbuf[..], ct, bufct);
      StillFits(t.moves[..], t.pbuf[..], work, i - lo + 1, nts, ct, bufct, 0);
      NextMarker(cells, i);
      ghost var next := if i + 1 < |cells| && cells[i + 1].kind == 'i' then i + 2 else i + 1;
      AddRow(cells, done, i, Markers(cells, next), refused);
      if !Bindable(cells[i]) || i in refused {
        return false, ct, bufct, bound;
      }
      PreparedSize(cells[i], nts);
      MadeBinding(t.moves[..], t.pbuf[..], work, i - lo, nts, ct, bufct, 0, 0, place, MarkerSize(cells[i]), false);
      AddBinding(bound, done, work, -lo, nts, 0, false, i, Binding(i, place, MarkerSize(cells[i])));
      bound := bound + [Binding(i, place, MarkerSize(cells[i]))];
      done := done + [i];
      if i + 1 < |cells| && cells[i + 1].kind == 'i' {
        WorkAt(cells, parms, i + 1);
        PassOver(t.moves[..], t.pbuf[..], work, i + 1 - lo, nts, ct, bufct, 0, 0);
        i := i + 1;
      }
      i := i + 1;
    }
    assert done + [] == done;
    StillFits(t.moves[..], t.pbuf[..], work, i - lo, nts, ct, bufct, 0);
    return true, ct, bufct, bound;
  }

  lemma NextColumn(cells: seq<Cell>, lo: nat, hi: nat)
    requires lo < hi <= |cells|
    ensures Columns(cells, lo, hi) == (if cells[lo].kind == 'i' then [] else [lo]) + Columns(cells, lo + 1, hi)
  {
  }

  /** Bind the result columns of a prepared statement. */
  method BindColumns(t: Tables, cells: seq<Cell>, parms: nat, nts: bool, refused: set<nat>, ct0: int, bufct0: int)
    returns (ok: bool, ct: int, bufct: int, bound: seq<Binding>)
    requires parms <= |cells|
    requires Progress(t.moves[..], t.pbuf[..], PrepareWork(cells, parms), parms, nts, ct0, bufct0, 0, 0)
    modifies t.moves, t.pbuf
    ensures var work, hi := PrepareWork(cells, parms), |cells| - parms;
      var rows := Columns(cells, 0, hi);
      && ok == AllBound(cells, rows, refused)
      && Fits(t.pbuf[..], t.pbuf.Length, PlanBufs(work, nts))
      && (ok ==> Progress(t.moves[..], t.pbuf[..], work, |cells|, nts, ct, bufct, 0, 0)
                 && AreBindings(bound, rows, work, parms, nts, 0, false))
  {
    hide *;
    ghost var work := PrepareWork(cells, parms);
    var hi := |cells| - parms;
    var i := 0;
    ct, bufct, bound := ct0, bufct0, [];
    ghost var done: seq<nat> := [];
    NoRows(cells, hi, refused);
    assert [] + Columns(cells, 0, hi) == Columns(cells, 0, hi);
    NoBindings(work, parms, nts, 0, false);
    while i < hi
      invariant 0 <= i <= hi && Progress(t.moves[..], t.pbuf[..], work, parms + i, nts, ct, bufct, 0, 0)
      invariant Columns(cells, 0, hi) == done + Columns(cells, i, hi)
      invariant AllBound(cells, done, refused) && AreBindings(bound, done, work, parms, nts, 0, false)
    {
      WorkAt(cells, parms, i);
      NextColumn(cells, i, hi);
      if cells[i].kind == 'i' {
        PassOver(t.moves[..], t.pbuf[..], work, parms + i, nts, ct, bufct, 0, 0);
        assert [] + Columns(cells, i + 1, hi) == Columns(cells, i + 1, hi);
        i := i + 1;
        continue;
      }
      var place;
      Ready(t.moves[..], t.pbuf[..], work, parms + i, nts, ct, bufct, 0, 0);
      ghost var moves0, pbuf0, ct1, bufct1 := t.moves[..], t.pbuf[..], ct, bufct;
      ct, bufct, place := BindColumn(Slot(i, cells[i], RECEIVED), nts, t.moves, ct, t.pbuf, bufct);
      BoundOne(moves0, pbuf0, work, parms + i, nts, ct1, bufct1, 0, 0, t.moves[..], t.pbuf[..], ct, bufct);
      StillFits(t.moves[..], t.pbuf[..], work, parms + i + 1, nts, ct, bufct, 0);
      AddRow(cells, done, i, Columns(cells, i + 1, hi), refused);
      if !Bindable(cells[i]) || i in refused {
        return false, ct, bufct, bound;
      }
      PreparedSize(cells[i], nts);
      MadeBinding(t.moves[..], t.pbuf[..], work, parms + i, nts, ct, bufct, 0, 0,
                  place, ColumnSize(cells[i], nts), false);
      AddBinding(bound, done, work, parms, nts, 0, false, i, Binding(i, place, ColumnSize(cells[i], nts)));
      bound := bound + [Binding(i, place, ColumnSize(cells[i], nts))];
      done := done + [i];
      i := i + 1;
    }
    NoRows(cells, hi, refused);
    assert done + [] == done;
    StillFits(t.moves[..], t.pbuf[..], work, parms + hi, nts, ct, bufct, 0);
    return true, ct, bufct, bound;
  }

  /** Whatever became of the binding, the buffers can be used to bind the same statement again. */
  lemma StillFits(moves: seq<Move>, pbuf: seq<Buffer>, work: seq<Slot>, k: nat, nts: bool, ct: int, bufct: int,
                  low: nat)
    requires k <= |work| && Progress(moves, pbuf, work, k, nts, ct, bufct, low, 0)
    ensures Fits(pbuf, |pbuf|, PlanBufs(work, nts))
  {
    hide PlanMoves, PlanBufs, Moves, Bufs;
    PlanFrom(work, k, nts, 0);
    var plan, n := PlanBufs(work, nts), Bufs(work[k..], nts);
    forall j | 0 <= j < |plan| ensures pbuf[|pbuf| - 1 - j] == Unused || pbuf[|pbuf| - 1 - j] == plan[j] {
      if j < |plan| - n {
        assert plan[..|plan| - n][j] == plan[j];
      } else {
        assert plan[|plan| - n..][j - (|plan| - n)] == plan[j];
        assert bufct - 1 - (j - (|plan| - n)) == |pbuf| - 1 - j;
      }
    }
  }

  /** What a binding of a prepared statement leaves: bound, or refused and ready for another try. */
  ghost predicate BoundAsPlanned(t: Tables, cells: seq<Cell>, parms: nat, nts: bool, refused: set<nat>,
                                 ok: bool, ct: int, bufct: int, markers: seq<Binding>, columns: seq<Binding>)
    requires parms <= |cells|
    reads t.moves, t.pbuf
  {
    var work, cols := PrepareWork(cells, parms), |cells| - parms;
    var ins, outs := Markers(cells, cols), Columns(cells, 0, cols);
    && ok == (AllBound(cells, ins, refused) && AllBound(cells, outs, refused))
    && Fits(t.pbuf[..], t.pbuf.Length, PlanBufs(work, nts))
    && (ok ==>
        && ct == 0 && Holds(t.moves[..], 0, PlanMoves(work, nts, 0))
        && bufct == 0 && Holds(t.pbuf[..], 0, PlanBufs(work, nts))
        && AreBindings(markers, ins, work, -cols, nts, 0, false)
        && AreBindings(columns, outs, work, parms, nts, 0, false))
  }

  /**
   Bind a prepared statement: markers, then result columns. The tables have the sizes the counting pass
   found; the buffers are new, or left from an earlier binding of the same statement. The statement is bound
   when every row is of a known type and the database refuses none, and then both counters have come down
   to zero and every entry of both tables has been written as planned. With more parameters than rows the first
   row to be bound stands in front of the table, and nothing can be said of what is read there.
   */
  method BindPrepared(t: Tables, cells: seq<Cell>, parms: nat, nts: bool, refused: set<nat>)
    returns (inside: bool, ok: bool, ct: int, bufct: int, markers: seq<Binding>, columns: seq<Binding>)
    requires t.moves.Length == Moves(PrepareWork(cells, parms), nts)
    requires t.pbuf.Length == Bufs(PrepareWork(cells, parms), nts)
    requires Fits(t.pbuf[..], t.pbuf.Length, PlanBufs(PrepareWork(cells, parms), nts))
    modifies t.moves, t.pbuf
    ensures inside <==> parms <= |cells|
    ensures inside ==> BoundAsPlanned(t, cells, parms, nts, refused, ok, ct, bufct, markers, columns)
    ensures !inside ==> t.moves[..] == old(t.moves[..]) && t.pbuf[..] == old(t.pbuf[..])
  {
    hide *;
    ghost var work := PrepareWork(cells, parms);
    ok, ct, bufct, markers, columns := false, t.moves.Length, t.pbuf.Length, [], [];
    var i := |cells| - parms;
    inside := i >= 0;
    if !inside {
      return;
    }
    Started(t.moves[..], t.pbuf[..], work, nts, 0, 0);
    ok, ct, bufct, markers := BindMarkers(t, cells, parms, nts, refused, ct, bufct);
    if ok {
      ok, ct, bufct, columns := BindColumns(t, cells, parms, nts, refused, ct, bufct);
      if ok {
        Finished(t.moves[..], t.pbuf[..], work, nts, ct, bufct, 0, 0);
      }
    }
    Planned(t, cells, parms, nts, refused, ok, ct, bufct, markers, columns);
  }

  lemma Planned(t: Tables, cells: seq<Cell>, parms: nat, nts: bool, refused: set<nat>,
                ok: bool, ct: int, bufct: int, markers: seq<Binding>, columns: seq<Binding>)
    requires parms <= |cells|
    requires var work, cols := PrepareWork(cells, parms), |cells| - parms;
      var ins, outs := Markers(cells, cols), Columns(cells, 0, cols);
      && ok == (AllBound(cells, ins, refused) && AllBound(cells, outs, refused))
      && Fits(t.pbuf[..], t.pbuf.Length, PlanBufs(work, nts))
      && (ok ==>
          && ct == 0 && Holds(t.moves[..], 0, PlanMoves(work, nts, 0))
          && bufct == 0 && Holds(t.pbuf[..], 0, PlanBufs(work, nts))
          && AreBindings(markers, ins, work, -cols, nts, 0, false)
          && AreBindings(columns, outs, work, parms, nts, 0, false))
    ensures BoundAsPlanned(t, cells, parms, nts, refused, ok, ct, bufct, markers, columns)
  {
  }

  /**
   The first preparation of a statement: count, allocate, bind. No index leaves the tables, and there are none
   when the statement counts more parameters than its table has rows.
   */
  method Prepare(cells: seq<Cell>, parms: nat, nts: bool, refused: set<nat>)
    returns (t: Tables?, ok: bool, ct: int, bufct: int, markers: seq<Binding>, columns: seq<Binding>)
    ensures t == null <==> parms > |cells|
    ensures t != null ==>
      && fresh(t.moves) && fresh(t.pbuf) && t.moves.Length == Moves(PrepareWork(cells, parms), nts)
      && t.pbuf.Length == Bufs(PrepareWork(cells, parms), nts)
      && BoundAsPlanned(t, cells, parms, nts, refused, ok, ct, bufct, markers, columns)
  {
    hide *;
    ok, markers, columns := false, [], [];
    ct, bufct := CountPrepare(cells, parms, nts);
    t := NewTables(|cells| - parms, ct, bufct);
    if t != null {
      NewBuffers(t.pbuf[..], PlanBufs(PrepareWork(cells, parms), nts));
      var inside;
      inside, ok, ct, bufct, markers, columns := BindPrepared(t, cells, parms, nts, refused);
    }
  }

  lemma NewBuffers(pbuf: seq<Buffer>, plan: seq<Buffer>)
    requires |plan| == |pbuf| && forall k :: 0 <= k < |pbuf| ==> pbuf[k] == Unused
    ensures Fits(pbuf, |pbuf|, plan)
  {
  }

  // ---------- a CALL ----------

  /** The direction of a CALL parameter is in the top bits of its precision byte. */
  function Argument(i: int, c: Cell): Slot {
    Slot(i, c.(prec := c.prec & 0x3F), Way(c.prec & 0x40 != 0, c.prec & 0x80 != 0))
  }

  function CallWork(cells: seq<Cell>): (work: seq<Slot>)
    ensures |work| == |cells|
  {
    seq(|cells|, i requires 0 <= i < |cells| => Argument(i, cells[i]))
  }

  /** A parameter without direction is counted as if it had one, and gets nothing. */
  function Stray(s: Slot): nat {
    if !s.w.sends && !s.w.receives && (IsVar(s.c.kind) || s.c.kind == '3') then 1 else 0
  }

  function StrayBuf(s: Slot): nat {
    if !s.w.sends && !s.w.receives && s.c.kind == '3' then 1 else 0
  }

  function Strays(work: seq<Slot>): nat {
    if |work| == 0 then 0 else Strays(work[..|work| - 1]) + Stray(work[|work| - 1])
  }

  function StrayBufs(work: seq<Slot>): nat {
    if |work| == 0 then 0 else StrayBufs(work[..|work| - 1]) + StrayBuf(work[|work| - 1])
  }

  /** The counting pass of a CALL. */
  method CountCall(cells: seq<Cell>, nts: bool) returns (ct: nat, bufct: nat)
    ensures ct == Moves(CallWork(cells), nts) + Strays(CallWork(cells))
    ensures bufct == Bufs(CallWork(cells), nts) + StrayBufs(CallWork(cells))
  {
    hide Moves, Bufs, Strays, StrayBufs;
    ghost var work := CallWork(cells);
    ct, bufct := 0, 0;
    NothingNeeded(nts);
    NoStrays();
    for i := 0 to |cells|
      invariant ct == Moves(work[..i], nts) + Strays(work[..i]) && bufct == Bufs(work[..i], nts) + StrayBufs(work[..i])
    {
      NextNeeded(work, i, nts);
      NextStray(work, i);
      var n, b := CountArgument(Argument(i, cells[i]), nts);
      ct := ct + n;
      bufct := bufct + b;
    }
    assert work[..|cells|] == work;
  }

  method CountArgument(s: Slot, nts: bool) returns (ct: nat, bufct: nat)
    ensures ct == MoveCount(s, nts) + Stray(s) && bufct == BufCount(s, nts) + StrayBuf(s)
  {
    ct, bufct := 0, 0;
    var kind := s.c.kind;
    if !nts && s.w.receives && (kind == 'X' || kind == 'V' || kind == 'L') {
      ct := ct + 1;
      bufct := bufct + 1;
      if s.w.sends {
        ct := ct + 1;
      }
    }
    if kind == '3' {
      ct := ct + 1;
      bufct := bufct + 1;
      if s.w.sends && s.w.receives {
        ct := ct + 1;
      }
    }
    if kind == 'V' || kind == 'L' {
      ct := ct + 1;
      if s.w.sends && s.w.receives {
        ct := ct + 1;
      }
    }
    if kind == 'v' || kind == 'l' {
      ct := ct + 1;
      if s.w.sends && s.w.receives {
        ct := ct + 1;
      }
    }
  }

  lemma NoStrays()
    ensures Strays([]) == 0 && StrayBufs([]) == 0
  {
  }

  lemma NextStray(work: seq<Slot>, i: nat)
    requires i < |work|
    ensures Strays(work[..i + 1]) == Strays(work[..i]) + Stray(work[i])
    ensures StrayBufs(work[..i + 1]) == StrayBufs(work[..i]) + StrayBuf(work[i])
  {
    hide Stray, StrayBuf;
    assert work[..i + 1][..i] == work[..i];
  }

  /** The entries below n are those that were there. */
  predicate Kept<T(==)>(before: seq<T>, after: seq<T>, n: nat) {
    n <= |before| == |after| && after[..n] == before[..n]
  }

  /**
   Bind the parameters of a CALL. The entries the strays were counted for are never written. When the CALL is
   bound the counters have come down to them, all entries above are written as planned, and every parameter is
   bound to its own place.
   */
  method BindCall(t: Tables, cells: seq<Cell>, nts: bool, refused: set<nat>)
    returns (ok: bool, ct: int, bufct: int, bound: seq<Binding>)
    requires var work := CallWork(cells);
      && t.moves.Length == Moves(work, nts) + Strays(work) && t.pbuf.Length == Bufs(work, nts) + StrayBufs(work)
      && Fits(t.pbuf[..], t.pbuf.Length, PlanBufs(work, nts))
    modifies t.moves, t.pbuf
    ensures var work := CallWork(cells);
      && ok == AllBound(cells, Markers(cells, 0), refused)
      && Kept(old(t.moves[..]), t.moves[..], Strays(work)) && Kept(old(t.pbuf[..]), t.pbuf[..], StrayBufs(work))
      && (ok ==>
          && ct == Strays(work) && Holds(t.moves[..], ct, PlanMoves(work, nts, StrayBufs(work)))
          && bufct == StrayBufs(work) && Holds(t.pbuf[..], bufct, PlanBufs(work, nts))
          && AreBindings(bound, Markers(cells, 0), work, 0, nts, bufct, true))
  {
    hide *;
    ghost var work := CallWork(cells);
    ghost var low, lowBufs := Strays(work), StrayBufs(work);
    var i := 0;
    ct, bufct, bound := t.moves.Length, t.pbuf.Length, [];
    ghost var rows: seq<nat> := [];
    NoRows(cells, 0, refused);
    assert [] + Markers(cells, 0) == Markers(cells, 0);
    NoBindings(work, 0, nts, lowBufs, true);
    Started(t.moves[..], t.pbuf[..], work, nts, low, lowBufs);
    NothingChanged(t.moves[..], low);
    NothingChanged(t.pbuf[..], lowBufs);
    while i < |cells|
      invariant 0 <= i <= |cells| && Progress(t.moves[..], t.pbuf[..], work, i, nts, ct, bufct, low, lowBufs)
      invariant Markers(cells, 0) == rows + Markers(cells, i) && AllBound(cells, rows, refused)
      invariant Kept(old(t.moves[..]), t.moves[..], low) && Kept(old(t.pbuf[..]), t.pbuf[..], lowBufs)
      invariant AreBindings(bound, rows, work, 0, nts, lowBufs, true)
      decreases |cells| - i
    {
      var place, size;
      CallWorkAt(cells, i);
      ghost var moves0, pbuf0, ct1, bufct1 := t.moves[..], t.pbuf[..], ct, bufct;
      Ready(moves0, pbuf0, work, i, nts, ct, bufct, low, lowBufs);
      ct, bufct, place, size := BindArgument(Argument(i, cells[i]), nts, t.moves, ct, t.pbuf, bufct);
      BoundOne(moves0, pbuf0, work, i, nts, ct1, bufct1, low, lowBufs, t.moves[..], t.pbuf[..], ct, bufct);
      AboveLow(t.moves[..], t.pbuf[..], work, i + 1, nts, ct, bufct, low, lowBufs);
      StillKept(old(t.moves[..]), moves0, t.moves[..], ct1, ct, MovesOf(work[i], nts, bufct), low);
      StillKept(old(t.pbuf[..]), pbuf0, t.pbuf[..], bufct1, bufct, BufsOf(work[i], nts), lowBufs);
      NextMarker(cells, i);
      ghost var next := if i + 1 < |cells| && cells[i + 1].kind == 'i' then i + 2 else i + 1;
      AddRow(cells, rows, i, Markers(cells, next), refused);
      if !Bindable(cells[i]) || i in refused {
        return false, ct, bufct, bound;
      }
      SizeOfCall(work[i], nts);
      MadeBinding(t.moves[..], t.pbuf[..], work, i, nts, ct, bufct, low, lowBufs, place, size, true);
      AddBinding(bound, rows, work, 0, nts, lowBufs, true, i, Binding(i, place, size));
      bound := bound + [Binding(i, place, size)];
      rows := rows + [i];
      if i + 1 < |cells| && cells[i + 1].kind == 'i' {
        CallWorkAt(cells, i + 1);
        PassOver(t.moves[..], t.pbuf[..], work, i + 1, nts, ct, bufct, low, lowBufs);
        i := i + 1;
      }
      i := i + 1;
    }
    NoRows(cells, 0, refused);
    assert rows + [] == rows;
    Finished(t.moves[..], t.pbuf[..], work, nts, ct, bufct, low, lowBufs);
    ok := true;
  }

  lemma SizeOfCall(s: Slot, nts: bool)
    ensures SizeOf(s, nts, true) == CallSize(s, nts)
  {
  }

  lemma NothingChanged<T>(a: seq<T>, n: nat)
    requires n <= |a|
    ensures Kept(a, a, n)
  {
  }

  lemma AboveLow(moves: seq<Move>, pbuf: seq<Buffer>, work: seq<Slot>, k: nat, nts: bool, ct: int, bufct: int,
                 low: nat, lowBufs: nat)
    requires k <= |work| && Progress(moves, pbuf, work, k, nts, ct, bufct, low, lowBufs)
    ensures low <= ct && lowBufs <= bufct
  {
    hide PlanMoves, PlanBufs, Moves, Bufs, Before, Holds, Fits;
  }

  lemma StillKept<T>(first: seq<T>, before: seq<T>, after: seq<T>, from: int, to: int, xs: seq<T>, n: nat)
    requires Kept(first, before, n) && Stored(before, after, from, to, xs) && n <= to
    ensures Kept(first, after, n)
  {
    forall k | 0 <= k < n ensures after[..n][k] == first[..n][k] {
      assert before[..n][k] == before[k] == after[k];
    }
  }

  lemma CallWorkAt(cells: seq<Cell>, i: nat)
    requires i < |cells|
    ensures CallWork(cells)[i] == Argument(i, cells[i]) && Argument(i, cells[i]).i == i
    ensures Argument(i, cells[i]).c.kind == cells[i].kind
  {
  }

  // ---------- laws ----------

  predicate Directed(s: Slot) {
    s.w.sends || s.w.receives || !(IsVar(s.c.kind) || s.c.kind == '3')
  }

  /**
   The counters of a CALL reach zero if and only if every variable-length and packed parameter has a
   direction; otherwise entries at the bottom of the move table are executed without having been written.
   */
  lemma {:induction false} CallBalances(work: seq<Slot>)
    ensures Strays(work) == 0 <==> forall k :: 0 <= k < |work| ==> Directed(work[k])
    ensures StrayBufs(work) <= Strays(work)
  {
    if |work| > 0 {
      var front := work[..|work| - 1];
      CallBalances(front);
      assert forall k :: 0 <= k < |front| ==> work[k] == front[k];
    }
  }

  /** The precision byte the precompiler generates for a parameter. */
  function PrecisionByte(precision: bv8, w: Way): bv8 {
    precision | (if w.sends then 0x40 else 0) | (if w.receives then 0x80 else 0)
  }

  /** Direction and precision come back as they were put in if and only if the precision leaves the top bits free. */
  lemma DirectionsArrive(i: int, kind: char, len: int, precision: bv8, w: Way, addr: int)
    ensures var c := Cell(kind, len, PrecisionByte(precision, w), addr);
      Argument(i, c) == Slot(i, Cell(kind, len, precision, addr), w) <==> precision < 64
  {
    var b := PrecisionByte(precision, w);
    if precision < 64 {
      assert b & 0x3F == precision;
      assert (b & 0x40 != 0) == w.sends;
      assert (b & 0x80 != 0) == w.receives;
    } else {
      assert b & 0x3F < 64;
    }
  }

  /** Every row the precompiler generates for a CALL has a direction, or is an indicator. */
  predicate Generated(cells: seq<Cell>, precisions: seq<bv8>, ways: seq<Way>) {
    |precisions| == |ways| == |cells|
    && forall k :: 0 <= k < |cells| ==>
         cells[k].kind == 'i'
         || (cells[k].prec == PrecisionByte(precisions[k], ways[k]) && (ways[k].sends || ways[k].receives))
  }

  lemma DirectionStays(i: int, c: Cell, precision: bv8, w: Way)
    requires c.prec == PrecisionByte(precision, w) && (w.sends || w.receives)
    ensures Argument(i, c).w.sends || Argument(i, c).w.receives
  {
  }

  /** The counters of a generated CALL always reach zero, whatever the precisions. */
  lemma GeneratedBalances(cells: seq<Cell>, precisions: seq<bv8>, ways: seq<Way>)
    requires Generated(cells, precisions, ways)
    ensures Strays(CallWork(cells)) == 0 && StrayBufs(CallWork(cells)) == 0
  {
    hide Argument, PrecisionByte, Strays, StrayBufs;
    var work := CallWork(cells);
    forall k | 0 <= k < |work| ensures Directed(work[k]) {
      CallWorkAt(cells, k);
      if cells[k].kind != 'i' {
        DirectionStays(k, cells[k], precisions[k], ways[k]);
      }
    }
    CallBalances(work);
  }

  /**
   A program that fills the table itself can leave the precision byte a space, which has no direction: one
   variable-length row is counted a move, no move is planned for it, and so the one entry there is stays unwritten.
   */
  lemma UndirectedRow(len: int, addr: int, nts: bool)
    ensures var cells := [Cell('V', len, 0x20, addr)];
      && Markers(cells, 0) == [0] && AllBound(cells, [0], {})
      && Moves(CallWork(cells), nts) == 0 && Strays(CallWork(cells)) == 1
      && PlanMoves(CallWork(cells), nts, 0) == []
  {
    var cells := [Cell('V', len, 0x20, addr)];
    var work := CallWork(cells);
    CallWorkAt(cells, 0);
    SpaceHasNoDirection(cells[0]);
    assert work == [work[0]] && work[1..] == [] && work[..0] == [];
    assert MovesOf(work[0], nts, 0) == [];
  }

  lemma SpaceHasNoDirection(c: Cell)
    requires c.prec == 0x20
    ensures !Argument(0, c).w.sends && !Argument(0, c).w.receives
  {
  }

  /**
   The length of a returned variable-length value goes back to where the variable keeps its length exactly
   when the value was not also sent. When it was, and the value has no buffer, the length is put over the first
   bytes of the value itself.
   */
  lemma LengthReturned(s: Slot, nts: bool, b: int)
    requires IsVar(s.c.kind) && s.w.receives
    ensures var n := Prefix(s.c.kind);
      && (Move(s.i, n, s.c.len, Cobol(s.c.addr)) in MovesOut(s, nts, b) <==> !s.w.sends)
      && (Move(s.i, n, s.c.len, Cobol(s.c.addr + n)) in MovesOut(s, nts, b) <==> s.w.sends && !Converted(s, nts))
      && (s.w.sends && !Converted(s, nts) ==> PlaceOf(s, nts, b) == Cobol(s.c.addr + n))
      && (s.w.sends && Converted(s, nts) ==> Move(s.i, n, s.c.len, Buf(b)) in MovesOut(s, nts, b))
  {
    var m := Move(s.i, Prefix(s.c.kind), s.c.len, LengthPlace(s, nts, b));
    assert MovesOut(s, nts, b)[0] == m;
    assert Prefix(s.c.kind) > 1;
    assert MovesOut(s, nts, b)
        == [m] + if Converted(s, nts) then [Move(s.i, 1, s.c.len, Cobol(s.c.addr + Prefix(s.c.kind)))] else [];
  }

  /** The type letters there is a binding for, and the lengths of integers. */
  lemma BindableIs(c: Cell)
    ensures Bindable(c) <==> c.kind in "F3XVLBvl" || (c.kind == 'I' && c.len in {2, 4, 8})
  {
    var letters := "F3XVLBvl";
    assert letters[0] == 'F' && letters[1] == '3' && letters[2] == 'X' && letters[3] == 'V' && letters[4] == 'L'
        && letters[5] == 'B' && letters[6] == 'v' && letters[7] == 'l';
  }

  /**
   The size the database is told leaves room behind received text for a zero byte when it puts one there; of a packed
   value 21 characters are sent, and 22 can be received into a result column.
   */
  lemma SizesTold(s: Slot, nts: bool)
    ensures var size := if !nts && s.w.receives && s.c.kind in {'X', 'V', 'L'} then s.c.len + 1 else s.c.len;
      && (s.w == SENT ==> SizeOf(s, nts, false) == if s.c.kind == '3' then 21 else s.c.len)
      && (s.w == RECEIVED ==> SizeOf(s, nts, false) == if s.c.kind == '3' then 22 else size)
      && SizeOf(s, nts, true) == if s.c.kind == '3' then 21 else size
  {
    assert SENT != RECEIVED;
  }

  function Capacity(b: Buffer): int {
    match b case Unused => 0 case Decimal(_, _) => 22 case Chars(n) => n
  }

  /**
   A parameter that has a buffer has it to itself, of the right kind, and large enough for what the database is told.
   */
  lemma {:induction false} BufferOfItsOwn(pbuf: seq<Buffer>, work: seq<Slot>, k: nat, nts: bool, low: nat)
    requires k < |work| && BufCount(work[k], nts) == 1 && Holds(pbuf, low, PlanBufs(work, nts))
    ensures var b := low + Bufs(work[k + 1..], nts);
      && low <= b < |pbuf| && pbuf[b] == BufferFor(work[k])
      && PlaceOf(work[k], nts, b) == Buf(b)
      && (work[k].w == SENT ==> MarkerSize(work[k].c) <= Capacity(pbuf[b]))
      && (work[k].w == RECEIVED ==> ColumnSize(work[k].c, nts) <= Capacity(pbuf[b]))
      && CallSize(work[k], nts) <= Capacity(pbuf[b])
    ensures forall j :: k < j < |work| && BufCount(work[j], nts) == 1 ==>
      low + Bufs(work[j + 1..], nts) < low + Bufs(work[k + 1..], nts)
  {
    hide *;
    BufferAt(pbuf, work, k, nts, low);
    LargeEnough(work[k], nts, low + Bufs(work[k + 1..], nts));
    forall j | k < j < |work| && BufCount(work[j], nts) == 1
      ensures low + Bufs(work[j + 1..], nts) < low + Bufs(work[k + 1..], nts)
    {
      NextPlanned(work, j, nts, 0);
      assert work[k + 1..][j - (k + 1)..] == work[j..];
      PlanFrom(work[k + 1..], j - (k + 1), nts, 0);
    }
  }

  lemma BufferAt(pbuf: seq<Buffer>, work: seq<Slot>, k: nat, nts: bool, low: nat)
    requires k < |work| && BufCount(work[k], nts) == 1 && Holds(pbuf, low, PlanBufs(work, nts))
    ensures var b := low + Bufs(work[k + 1..], nts);
      low <= b < |pbuf| && pbuf[b] == BufferFor(work[k])
  {
    hide PlanBufs, Bufs;
    PlanFrom(work, k, nts, 0);
    NextPlanned(work, k, nts, 0);
    var plan := PlanBufs(work, nts);
    var at := |plan| - Bufs(work[k..], nts);
    assert plan[at..][0] == BufferFor(work[k]);
    assert pbuf[|pbuf| - 1 - at] == plan[at];
  }

  lemma LargeEnough(s: Slot, nts: bool, b: int)
    requires BufCount(s, nts) == 1
    ensures PlaceOf(s, nts, b) == Buf(b) && CallSize(s, nts) <= Capacity(BufferFor(s))
    ensures s.w == SENT ==> MarkerSize(s.c) <= Capacity(BufferFor(s))
    ensures s.w == RECEIVED ==> ColumnSize(s.c, nts) <= Capacity(BufferFor(s))
  {
  }

  /** Planned moves of a parameter are the moves of that parameter: the table holds each of them once. */
  lemma {:induction false} MovesOfParameter(work: seq<Slot>, k: nat, nts: bool, low: nat)
    requires k < |work|
    ensures var plan, at := PlanMoves(work, nts, low), Moves(work, nts) - Moves(work[k..], nts);
      && 0 <= at <= at + MoveCount(work[k], nts) <= |plan|
      && plan[at..at + MoveCount(work[k], nts)] == MovesOf(work[k], nts, low + Bufs(work[k + 1..], nts))
  {
    hide PlanMoves, Moves, Bufs, MovesOf, MoveCount;
    PlanFrom(work, k, nts, low);
    PlanFrom(work, k + 1, nts, low);
    assert work[k..][1..] == work[k + 1..];
    Head(work[k..], nts, low);
    var plan, at, n := PlanMoves(work, nts, low), Moves(work, nts) - Moves(work[k..], nts), MoveCount(work[k], nts);
    assert plan[at..at + n] == plan[at..][..n];
  }
}
