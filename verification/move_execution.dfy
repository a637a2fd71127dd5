/**
 What the moves of a statement do to the storage of the program: before an execution lengths and packed numbers are
 taken from where the program keeps them, and after a fetch they are put back. The moves are those `MoveTables` plans;
 where a program keeps a value is said here by its type letter alone.
 */
module MoveExecution {
  import opened Texts
  import opened MoveTables
  import D = PackedDecimal
  import L = PackedDecimalLaws

  type Text = seq<bv8>

  // ---------- numbers in storage ----------

  function NibbleOf(d: nat): (b: bv8)
    requires d < 16
    ensures b as int == d
  {
    d as bv8
  }

  function Joined(hi: bv8, lo: bv8): bv8 {
    hi * 16 + lo
  }

  lemma JoinedNibbles(hi: bv8, lo: bv8)
    requires hi < 16 && lo < 16
    ensures Joined(hi, lo) as int == 16 * (hi as int) + lo as int
    ensures D.Hi(Joined(hi, lo)) == hi && D.Lo(Joined(hi, lo)) == lo
  {
  }

  function ByteOf(n: nat): (b: bv8)
    requires n < 256
    ensures b as int == n
  {
    JoinedNibbles(NibbleOf(n / 16), NibbleOf(n % 16));
    Joined(NibbleOf(n / 16), NibbleOf(n % 16))
  }

  function Unsigned(bytes: Text): nat {
    if |bytes| == 0 then 0 else bytes[0] as int + 256 * Unsigned(bytes[1..])
  }

  /** A binary number of two or four bytes, the lowest byte first. */
  function Number(bytes: Text): int {
    var v := Unsigned(bytes);
    if |bytes| == 2 then (if v >= 0x8000 then v - 0x1_0000 else v)
    else if v >= 0x8000_0000 then v - 0x1_0000_0000 else v
  }

  function LowBytes(v: nat, n: nat): (b: Text)
    ensures |b| == n
  {
    if n == 0 then [] else [ByteOf(v % 256)] + LowBytes(v / 256, n - 1)
  }

  /** The lower two or four bytes of a number. */
  function NumberBytes(v: int, n: nat): (b: Text)
    requires n == 2 || n == 4
    ensures |b| == n
  {
    LowBytes(v % (if n == 2 then 0x1_0000 else 0x1_0000_0000), n)
  }

  lemma {:induction false} LowBytesRead(v: nat, n: nat)
    requires n <= 4 && v < (if n == 0 then 1 else if n == 1 then 0x100 else if n == 2 then 0x1_0000
                            else if n == 3 then 0x100_0000 else 0x1_0000_0000)
    ensures Unsigned(LowBytes(v, n)) == v
  {
    if n > 0 {
      LowBytesRead(v / 256, n - 1);
      assert LowBytes(v, n)[1..] == LowBytes(v / 256, n - 1);
    }
  }

  lemma NumberReadsBack(v: int, n: nat)
    requires (n == 2 && -0x8000 <= v < 0x8000) || (n == 4 && -0x8000_0000 <= v < 0x8000_0000)
    ensures Number(NumberBytes(v, n)) == v
  {
    hide Unsigned, LowBytes;
    LowBytesRead(v % (if n == 2 then 0x1_0000 else 0x1_0000_0000), n);
  }

  // ---------- how the program keeps a value ----------

  /** The bytes of the length in front of a value. */
  function LengthSize(kind: char): nat {
    match kind
    case 'V' => 2
    case 'v' => 2
    case 'L' => 4
    case 'l' => 4
    case _ => 0
  }

  /** The bytes of a row's storage. */
  function FieldSize(c: Cell): int {
    if c.kind == 'i' then 2 else LengthSize(c.kind) + c.len
  }

  /**
   This storage of a row holds this text: behind its length in two bytes for V and v, in four bytes for L and l, and
   filling the storage for all others.
   */
  ghost predicate IsField(bytes: Text, c: Cell, text: Text) {
    match c.kind
    case 'V' => InFront(bytes, 2, c.len, text)
    case 'v' => InFront(bytes, 2, c.len, text)
    case 'L' => InFront(bytes, 4, c.len, text)
    case 'l' => InFront(bytes, 4, c.len, text)
    case _ => bytes == text && |text| == c.len
  }

  ghost predicate InFront(bytes: Text, n: nat, len: int, text: Text) {
    && |bytes| == n + len && |text| <= len
    && Number(bytes[..n]) == |text| && bytes[n..n + |text|] == text
  }

  // ---------- the state of an execution ----------

  /** The storage of the program, what is in the buffers of the statement, and the lengths the database is told. */
  datatype Store = Store(mem: Text, bufs: seq<Text>, lens: seq<int>)

  /** What the moves of a statement know besides: what each buffer is for, and where each row is bound. */
  datatype Bound = Bound(pbuf: seq<Buffer>, hosts: seq<Place>, call: bool)

  predicate InStore(st: Store, p: Place, n: int) {
    match p
    case Cobol(a) => 0 <= a && 0 <= n && a + n <= |st.mem|
    case Buf(k) => 0 <= k < |st.bufs| && 0 <= n <= |st.bufs[k]|
  }

  /** So many bytes at a place. */
  function At(st: Store, p: Place, n: int): (t: Text)
    requires InStore(st, p, n)
    ensures |t| == n
  {
    match p
    case Cobol(a) => st.mem[a..a + n]
    case Buf(k) => st.bufs[k][..n]
  }

  function Over(old_: Text, at: nat, new_: Text): (t: Text)
    requires at + |new_| <= |old_|
    ensures |t| == |old_|
  {
    old_[..at] + new_ + old_[at + |new_|..]
  }

  function Put(st: Store, p: Place, t: Text): Store
    requires InStore(st, p, |t|)
  {
    match p
    case Cobol(a) => st.(mem := Over(st.mem, a, t))
    case Buf(k) => st.(bufs := st.bufs[k := Over(st.bufs[k], 0, t)])
  }

  // ---------- packed numbers ----------

  /** The 22 bytes a packed field is printed into. */
  function PrintedField(field: Text, s: nat): Text
    requires 1 <= |field| <= 10 && s < 2 * |field|
  {
    var t := D.UnpackedText(D.Nibbles(field), s);
    t + Copies(D.BLANK, 21 - |t|) + [0]
  }

  /** Text up to its zero byte. */
  function UpToZero(t: Text): Text {
    if |t| == 0 || t[0] == 0 then [] else [t[0]] + UpToZero(t[1..])
  }

  function BytesOf(ns: seq<int>): (b: Text)
    requires |ns| % 2 == 0
    ensures |b| == |ns| / 2
  {
    seq(|ns| / 2, i requires 0 <= i < |ns| / 2 => Joined(NibbleOf(ns[2 * i] % 16), NibbleOf(ns[2 * i + 1] % 16)))
  }

  /** The field that decimal text is packed into. */
  function PackedField(text: Text, n: nat, s: nat): (b: Text)
    requires n >= 1
    ensures |b| == n
  {
    BytesOf(D.PackedNibbles(text, n, s))
  }

  lemma {:induction false} FieldOfNibbles(ns: seq<int>)
    requires |ns| % 2 == 0 && forall i :: 0 <= i < |ns| ==> 0 <= ns[i] < 16
    ensures D.HasNibbles(BytesOf(ns), ns)
  {
    hide D.Hi, D.Lo, Joined, NibbleOf;
    forall i | 0 <= i < |ns| / 2
      ensures D.Hi(BytesOf(ns)[i]) as int == ns[2 * i] && D.Lo(BytesOf(ns)[i]) as int == ns[2 * i + 1]
    {
      SmallStays(ns[2 * i]);
      SmallStays(ns[2 * i + 1]);
      JoinedNibbles(NibbleOf(ns[2 * i]), NibbleOf(ns[2 * i + 1]));
    }
  }

  lemma SmallStays(d: int)
    requires 0 <= d < 16
    ensures d % 16 == d && NibbleOf(d) < 16
  {
  }

  lemma PackedNibblesFit(text: Text, n: nat, s: nat)
    requires n >= 1 && D.IsDecimal(text)
    ensures forall i :: 0 <= i < 2 * n ==> 0 <= D.PackedNibbles(text, n, s)[i] < 16
  {
    L.KeptValue(D.Masked(D.WholePart(text)), D.Masked(D.FractionPart(text)), 2 * n - 1, s);
  }

  predicate DecimalFits(b: Buffer) {
    b.Decimal? && 1 <= b.bytelen <= 10 && (b.precision as int) <= 2 * b.bytelen - 1
  }

  // ---------- one move ----------

  /** The storage, buffer and row that a move works on before the execution are there. */
  predicate CanMoveIn(m: Move, env: Bound, st: Store) {
    && 0 <= m.cell < |st.lens|
    && (m.kind == -4 ==> InStore(st, m.to, 4) && m.to.Cobol?)
    && (m.kind == -2 ==> InStore(st, m.to, 2) && m.to.Cobol?)
    && (m.kind == -1 ==> CanCopy(m, env, st))
    && (m.kind == -3 ==> CanPack(m, env, st))
  }

  predicate CanMoveOut(m: Move, env: Bound, st: Store) {
    && 0 <= m.cell < |st.lens|
    && (m.kind == 4 ==> InStore(st, m.to, 4))
    && (m.kind == 2 ==> InStore(st, m.to, 2))
    && (m.kind == 1 ==> CanCopy(m, env, st))
    && (m.kind == 3 ==> CanPack(m, env, st))
  }

  predicate CanCopy(m: Move, env: Bound, st: Store) {
    0 <= m.cell < |env.hosts| && InStore(st, m.to, m.len) && InStore(st, env.hosts[m.cell], m.len)
  }

  predicate CanPack(m: Move, env: Bound, st: Store) {
    && 0 <= m.len < |env.pbuf| == |st.bufs| && DecimalFits(env.pbuf[m.len]) && |st.bufs[m.len]| == 22
    && InStore(st, m.to, env.pbuf[m.len].bytelen) && m.to.Cobol?
  }

  /** A move before the execution. One that is for afterwards sets the row's length to its own number. */
  function MovedIn(m: Move, env: Bound, st: Store): Store
    requires CanMoveIn(m, env, st)
  {
    if m.kind == -4 || m.kind == -2 then st.(lens := st.lens[m.cell := Number(At(st, m.to, -m.kind))])
    else if m.kind == -1 && env.call then Put(st, env.hosts[m.cell], At(st, m.to, m.len))
    else if m.kind == -3 then
      var d := env.pbuf[m.len];
      st.(bufs := st.bufs[m.len := PrintedField(At(st, m.to, d.bytelen), d.precision as int)])
    else st.(lens := st.lens[m.cell := m.len])
  }

  /** A move after the fetch. */
  function MovedOut(m: Move, env: Bound, st: Store): Store
    requires CanMoveOut(m, env, st)
  {
    if m.kind == 4 || m.kind == 2 then Put(st, m.to, NumberBytes(st.lens[m.cell], m.kind))
    else if m.kind == 3 then
      var d := env.pbuf[m.len];
      Put(st, m.to, PackedField(UpToZero(st.bufs[m.len]), d.bytelen, d.precision as int))
    else if m.kind == 1 then Put(st, m.to, At(st, env.hosts[m.cell], m.len))
    else st
  }

  /** Moving changes contents, but not how much there is. */
  predicate SameShape(a: Store, b: Store) {
    && |a.mem| == |b.mem| && |a.lens| == |b.lens| && |a.bufs| == |b.bufs|
    && forall k :: 0 <= k < |a.bufs| ==> |a.bufs[k]| == |b.bufs[k]|
  }

  lemma ShapeStays(m: Move, env: Bound, st: Store)
    ensures CanMoveIn(m, env, st) ==> SameShape(MovedIn(m, env, st), st)
    ensures CanMoveOut(m, env, st) ==> SameShape(MovedOut(m, env, st), st)
  {
  }

  lemma StillCan(m: Move, env: Bound, st: Store, st1: Store)
    requires SameShape(st1, st)
    ensures CanMoveIn(m, env, st) == CanMoveIn(m, env, st1) && CanMoveOut(m, env, st) == CanMoveOut(m, env, st1)
  {
  }

  // ---------- all moves ----------

  predicate AllCanIn(ms: seq<Move>, env: Bound, st: Store) {
    forall k :: 0 <= k < |ms| ==> CanMoveIn(ms[k], env, st)
  }

  predicate AllCanOut(ms: seq<Move>, env: Bound, st: Store) {
    forall k :: 0 <= k < |ms| ==> CanMoveOut(ms[k], env, st)
  }

  lemma AllStillCan(ms: seq<Move>, env: Bound, st: Store, st1: Store)
    requires SameShape(st1, st)
    ensures AllCanIn(ms, env, st) == AllCanIn(ms, env, st1) && AllCanOut(ms, env, st) == AllCanOut(ms, env, st1)
  {
    hide SameShape, CanMoveIn, CanMoveOut;
    forall k | 0 <= k < |ms|
      ensures CanMoveIn(ms[k], env, st) == CanMoveIn(ms[k], env, st1)
      ensures CanMoveOut(ms[k], env, st) == CanMoveOut(ms[k], env, st1)
    {
      StillCan(ms[k], env, st, st1);
    }
  }

  lemma ShapeTwice(a: Store, b: Store, c: Store)
    requires SameShape(a, b) && SameShape(b, c)
    ensures SameShape(a, c)
  {
  }

  /** All moves of the table before the execution, from its first entry on. */
  function AllIn(ms: seq<Move>, env: Bound, st: Store): (r: Store)
    requires AllCanIn(ms, env, st)
    ensures SameShape(r, st)
  {
    hide MovedIn, CanMoveIn;
    if |ms| == 0 then st
    else
      var last := |ms| - 1;
      var st1 := AllIn(ms[..last], env, st);
      StillCan(ms[last], env, st, st1);
      ShapeStays(ms[last], env, st1);
      MovedIn(ms[last], env, st1)
  }

  /** All moves of the table after the fetch, from its first entry on. */
  function AllOut(ms: seq<Move>, env: Bound, st: Store): (r: Store)
    requires AllCanOut(ms, env, st)
    ensures SameShape(r, st)
  {
    hide MovedOut, CanMoveOut;
    if |ms| == 0 then st
    else
      var last := |ms| - 1;
      var st1 := AllOut(ms[..last], env, st);
      StillCan(ms[last], env, st, st1);
      ShapeStays(ms[last], env, st1);
      MovedOut(ms[last], env, st1)
  }

  /** The same for moves as they are planned: the one planned last is made first. */
  function PlannedIn(plan: seq<Move>, env: Bound, st: Store): (r: Store)
    requires AllCanIn(plan, env, st)
    ensures SameShape(r, st)
  {
    hide MovedIn, CanMoveIn;
    if |plan| == 0 then st
    else
      var st1 := PlannedIn(plan[1..], env, st);
      StillCan(plan[0], env, st, st1);
      ShapeStays(plan[0], env, st1);
      MovedIn(plan[0], env, st1)
  }

  function PlannedOut(plan: seq<Move>, env: Bound, st: Store): (r: Store)
    requires AllCanOut(plan, env, st)
    ensures SameShape(r, st)
  {
    hide MovedOut, CanMoveOut;
    if |plan| == 0 then st
    else
      var st1 := PlannedOut(plan[1..], env, st);
      StillCan(plan[0], env, st, st1);
      ShapeStays(plan[0], env, st1);
      MovedOut(plan[0], env, st1)
  }

  lemma {:induction false} TableIsPlan(ms: seq<Move>, plan: seq<Move>, env: Bound, st: Store)
    requires Holds(ms, 0, plan)
    ensures AllCanIn(plan, env, st) ==> AllCanIn(ms, env, st) && AllIn(ms, env, st) == PlannedIn(plan, env, st)
    ensures AllCanOut(plan, env, st) ==> AllCanOut(ms, env, st) && AllOut(ms, env, st) == PlannedOut(plan, env, st)
  {
    hide MovedIn, MovedOut, CanMoveIn, CanMoveOut, SameShape;
    if |plan| > 0 {
      var last := |ms| - 1;
      assert ms[last] == plan[0];
      forall k | 0 <= k < |plan[1..]| ensures ms[..last][|ms[..last]| - 1 - k] == plan[1..][k] {
        assert ms[|ms| - 1 - (k + 1)] == plan[k + 1];
      }
      TableIsPlan(ms[..last], plan[1..], env, st);
      TailCan(plan, env, st);
      FrontCan(ms, env, st);
    }
  }

  lemma TailCan(plan: seq<Move>, env: Bound, st: Store)
    requires |plan| > 0
    ensures AllCanIn(plan, env, st) <==> CanMoveIn(plan[0], env, st) && AllCanIn(plan[1..], env, st)
    ensures AllCanOut(plan, env, st) <==> CanMoveOut(plan[0], env, st) && AllCanOut(plan[1..], env, st)
  {
    hide CanMoveIn, CanMoveOut;
    var rest := plan[1..];
    assert forall k :: 1 <= k < |plan| ==> plan[k] == rest[k - 1];
  }

  lemma FrontCan(ms: seq<Move>, env: Bound, st: Store)
    requires |ms| > 0
    ensures AllCanIn(ms, env, st) <==> AllCanIn(ms[..|ms| - 1], env, st) && CanMoveIn(ms[|ms| - 1], env, st)
    ensures AllCanOut(ms, env, st) <==> AllCanOut(ms[..|ms| - 1], env, st) && CanMoveOut(ms[|ms| - 1], env, st)
  {
    hide CanMoveIn, CanMoveOut;
  }

  lemma {:induction false} PlannedTogether(a: seq<Move>, b: seq<Move>, env: Bound, st: Store)
    requires AllCanIn(a, env, st) && AllCanIn(b, env, st)
    ensures AllCanIn(a + b, env, st) && AllCanIn(a, env, PlannedIn(b, env, st))
    ensures PlannedIn(a + b, env, st) == PlannedIn(a, env, PlannedIn(b, env, st))
  {
    hide MovedIn, CanMoveIn, SameShape;
    AllStillCan(a, env, st, PlannedIn(b, env, st));
    if |a| == 0 {
      assert a + b == b;
    } else {
      assert (a + b)[1..] == a[1..] + b;
      TailCan(a, env, st);
      PlannedTogether(a[1..], b, env, st);
      TailCan(a + b, env, st);
    }
  }

  lemma {:induction false} PlannedOutTogether(a: seq<Move>, b: seq<Move>, env: Bound, st: Store)
    requires AllCanOut(a, env, st) && AllCanOut(b, env, st)
    ensures AllCanOut(a + b, env, st) && AllCanOut(a, env, PlannedOut(b, env, st))
    ensures PlannedOut(a + b, env, st) == PlannedOut(a, env, PlannedOut(b, env, st))
  {
    hide MovedOut, CanMoveOut, SameShape;
    AllStillCan(a, env, st, PlannedOut(b, env, st));
    if |a| == 0 {
      assert a + b == b;
    } else {
      assert (a + b)[1..] == a[1..] + b;
      TailCan(a, env, st);
      PlannedOutTogether(a[1..], b, env, st);
      TailCan(a + b, env, st);
    }
  }

  // ---------- padding and indicators ----------

  /** The length the database tells for a value that is NULL. */
  const NULL_DATA := -1

  /** Text filled up: binary values with zeros, others with blanks. */
  function FilledUp(kind: char, text: Text, len: int): (t: Text)
    requires |text| <= len
    ensures |t| == len
  {
    text + Copies(if kind == 'B' then 0 else D.BLANK, len - |text|)
  }

  predicate IsPadded(kind: char) {
    kind == 'B' || kind == 'X'
  }

  /** The bytes that come to a row's place before the moves: of NULL a zero if it is packed, and what is missing. */
  predicate CanPad(s: Slot, marked: bool, env: Bound, st: Store) {
    && 0 <= s.i < |st.lens| && s.i < |env.hosts| && 0 <= s.c.len
    && (s.c.kind == '3' ==> InStore(st, env.hosts[s.i], 2))
    && (IsPadded(s.c.kind) ==> InStore(st, env.hosts[s.i], s.c.len))
    && (marked ==> s.i + 1 < |env.hosts| && InStore(st, env.hosts[s.i + 1], 2))
  }

  /** A received row after the fetch; `marked` says that the next row is its indicator. */
  function Padded(s: Slot, marked: bool, env: Bound, st: Store): Store
    requires CanPad(s, marked, env, st)
  {
    var st1 := PaddedValue(s, env, st);
    if marked then Put(st1, env.hosts[s.i + 1], NumberBytes(if st.lens[s.i] == NULL_DATA then -1 else 0, 2)) else st1
  }

  function PaddedValue(s: Slot, env: Bound, st: Store): Store
    requires CanPad(s, false, env, st)
  {
    var n := st.lens[s.i];
    var have := if n < 0 then 0 else n;
    if n == NULL_DATA && s.c.kind == '3' then Put(st, env.hosts[s.i], [D.ZERO, 0])
    else if have < s.c.len && IsPadded(s.c.kind) then
      Put(st, env.hosts[s.i], FilledUp(s.c.kind, At(st, env.hosts[s.i], s.c.len)[..have], s.c.len))
    else st
  }

  predicate IsMarked(work: seq<Slot>, i: nat) {
    i + 1 < |work| && work[i + 1].c.kind == 'i'
  }

  predicate CanPadAll(work: seq<Slot>, env: Bound, st: Store) {
    forall i :: 0 <= i < |work| && work[i].w.receives ==> CanPad(work[i], IsMarked(work, i), env, st)
  }

  lemma PaddedShape(s: Slot, marked: bool, env: Bound, st: Store)
    requires CanPad(s, marked, env, st)
    ensures SameShape(Padded(s, marked, env, st), st)
  {
  }

  lemma StillCanPad(work: seq<Slot>, env: Bound, st: Store, st1: Store)
    requires SameShape(st1, st) && CanPadAll(work, env, st)
    ensures CanPadAll(work, env, st1)
  {
    forall i | 0 <= i < |work| && work[i].w.receives ensures CanPad(work[i], IsMarked(work, i), env, st1) {
      assert CanPad(work[i], IsMarked(work, i), env, st);
    }
  }

  /** All rows from row i on; an indicator is done with its row. */
  function PaddedFrom(work: seq<Slot>, env: Bound, i: nat, st: Store): (r: Store)
    requires CanPadAll(work, env, st)
    ensures SameShape(r, st)
    decreases |work| - i
  {
    if i >= |work| then st
    else
      var next := if IsMarked(work, i) then i + 2 else i + 1;
      if !work[i].w.receives then PaddedFrom(work, env, next, st)
      else
        var st1 := Padded(work[i], IsMarked(work, i), env, st);
        PaddedShape(work[i], IsMarked(work, i), env, st);
        StillCanPad(work, env, st, st1);
        PaddedFrom(work, env, next, st1)
  }

  // ---------- the loops ----------

  /** Moves of texts and lengths leave the buffers of packed numbers alone. */
  predicate PackedApart(ms: seq<Move>, env: Bound, st: Store) {
    |env.pbuf| == |st.bufs|
    && forall k :: 0 <= k < |ms| && 1 <= ms[k].kind <= 4 && ms[k].to.Buf? ==>
         0 <= ms[k].to.k < |env.pbuf| && !env.pbuf[ms[k].to.k].Decimal?
  }

  /** The buffers of packed numbers that are received hold decimal text. */
  ghost predicate DecimalsIn(ms: seq<Move>, env: Bound, st: Store) {
    forall k :: 0 <= k < |ms| && ms[k].kind == 3 ==>
      && 0 <= ms[k].len < |st.bufs| == |env.pbuf| && env.pbuf[ms[k].len].Decimal?
      && D.IsDecimal(UpToZero(st.bufs[ms[k].len]))
  }

  lemma DecimalsStay(ms: seq<Move>, k: nat, env: Bound, st: Store)
    requires k < |ms| && PackedApart(ms, env, st) && DecimalsIn(ms, env, st) && CanMoveOut(ms[k], env, st)
    ensures PackedApart(ms, env, MovedOut(ms[k], env, st)) && DecimalsIn(ms, env, MovedOut(ms[k], env, st))
  {
    hide D.IsDecimal, UpToZero, PackedField, NumberBytes;
    ShapeStays(ms[k], env, st);
  }

  /** The moves, the buffers and the lengths of a statement, and the storage of the program. */
  class Execution {
    const moves: array<Move>
    const pbuf: seq<Buffer>
    const hosts: seq<Place>
    const call: bool
    const storage: array<bv8>
    const texts: array<Text>
    const parmlen: array<int>

    constructor (moves: array<Move>, pbuf: seq<Buffer>, hosts: seq<Place>, call: bool,
                 storage: array<bv8>, texts: array<Text>, parmlen: array<int>)
      ensures this.moves == moves && this.pbuf == pbuf && this.hosts == hosts && this.call == call
      ensures this.storage == storage && this.texts == texts && this.parmlen == parmlen
    {
      this.moves, this.pbuf, this.hosts, this.call := moves, pbuf, hosts, call;
      this.storage, this.texts, this.parmlen := storage, texts, parmlen;
    }

    function Env(): Bound {
      Bound(pbuf, hosts, call)
    }

    ghost function Now(): Store
      reads storage, texts, parmlen
    {
      Store(storage[..], texts[..], parmlen[..])
    }

    /** The arrays are different ones. */
    ghost predicate Separate() {
      var a: object, b: object, c: object := storage, texts, parmlen;
      a != b && b != c && a != c && moves as object !in {a, b, c}
    }

    /** Bytes at a place. */
    method FetchAt(p: Place, n: int) returns (t: Text)
      requires InStore(Now(), p, n)
      ensures t == At(Now(), p, n)
    {
      match p
      case Cobol(a) => t := storage[a..a + n];
      case Buf(k) => t := texts[k][..n];
    }

    /** Put bytes at a place. */
    method PutAt(p: Place, t: Text)
      requires Separate() && InStore(Now(), p, |t|)
      modifies storage, texts
      ensures Now() == Put(old(Now()), p, t)
    {
      match p
      case Cobol(a) =>
        ghost var was := storage[..];
        for i := 0 to |t|
          invariant forall k :: 0 <= k < storage.Length ==> storage[k] == if a <= k < a + i then t[k - a] else was[k]
          modifies storage
        {
          storage[a + i] := t[i];
        }
        assert storage[..] == Over(was, a, t);
      case Buf(k) =>
        ghost var was := texts[..];
        texts[k] := t + texts[k][|t|..];
        assert was[k][..0] + t == t;
        assert texts[..] == was[k := Over(was[k], 0, t)];
    }

    /** One move before the execution. */
    method MoveIn(m: Move)
      requires Separate() && CanMoveIn(m, Env(), Now())
      modifies storage, texts, parmlen
      ensures Now() == MovedIn(m, Env(), old(Now()))
    {
      hide Number, PrintedField;
      ghost var was := parmlen[..];
      if m.kind == -4 {
        var t := FetchAt(m.to, 4);
        parmlen[m.cell] := Number(t);
        assert parmlen[..] == was[m.cell := Number(t)];
      } else if m.kind == -2 {
        var t := FetchAt(m.to, 2);
        parmlen[m.cell] := Number(t);
        assert parmlen[..] == was[m.cell := Number(t)];
      } else if m.kind == -1 && call {
        var t := FetchAt(m.to, m.len);
        PutAt(hosts[m.cell], t);
      } else if m.kind == -3 {
        Unpack(m);
      } else {
        parmlen[m.cell] := m.len;
        assert parmlen[..] == was[m.cell := m.len];
      }
    }

    /** A packed field of the program, copied. */
    method FieldAt(a: int, n: int) returns (field: array<bv8>)
      requires 0 <= a && 0 <= n && a + n <= storage.Length
      ensures fresh(field) && field.Length == n && field[..] == storage[a..a + n]
    {
      field := new bv8[n];
      for i := 0 to n
        invariant field[..i] == storage[a..a + i]
      {
        field[i] := storage[a + i];
      }
    }

    /** Print a packed field into its buffer. */
    method Unpack(m: Move)
      requires Separate() && CanPack(m, Env(), Now())
      modifies texts
      ensures var d, st := pbuf[m.len], old(Now());
        Now() == st.(bufs := st.bufs[m.len := PrintedField(At(st, m.to, d.bytelen), d.precision as int)])
    {
      hide D.UnpackedText, D.Nibbles;
      var d := pbuf[m.len];
      ghost var was := texts[..];
      var field := FieldAt(m.to.a, d.bytelen);
      var num := new bv8[22];
      assert field[..d.bytelen] == field[..];
      D.UnpackComp3(field, d.bytelen, d.precision as int, num);
      texts[m.len] := num[..];
      assert texts[..] == was[m.len := num[..]];
    }

    /** All moves before the execution, from the first entry of the table on. */
    method BeforeExecution()
      requires Separate() && AllCanIn(moves[..], Env(), Now())
      modifies storage, texts, parmlen
      ensures Now() == AllIn(moves[..], Env(), old(Now()))
    {
      hide MovedIn, CanMoveIn, SameShape;
      ghost var ms, st := moves[..], Now();
      assert ms[..0] == [];
      for i := 0 to moves.Length
        invariant moves[..] == ms && AllCanIn(ms[..i], Env(), st) && Now() == AllIn(ms[..i], Env(), st)
      {
        NextIn(ms, i, Env(), st);
        MoveIn(moves[i]);
      }
      assert ms[..moves.Length] == ms;
    }

    /** One move after the fetch. */
    method MoveOut(m: Move)
      requires Separate() && CanMoveOut(m, Env(), Now())
      requires m.kind == 3 ==> D.IsDecimal(UpToZero(texts[m.len]))
      modifies storage, texts
      ensures Now() == MovedOut(m, Env(), old(Now()))
    {
      hide NumberBytes, PackedField, D.IsDecimal, UpToZero;
      if m.kind == 4 {
        PutAt(m.to, NumberBytes(parmlen[m.cell], 4));
      } else if m.kind == 2 {
        PutAt(m.to, NumberBytes(parmlen[m.cell], 2));
      } else if m.kind == 3 {
        Pack(m);
      } else if m.kind == 1 {
        var t := FetchAt(hosts[m.cell], m.len);
        PutAt(m.to, t);
      }
    }

    /** Pack the text of a buffer into a field of the program. */
    method Pack(m: Move)
      requires Separate() && CanPack(m, Env(), Now()) && D.IsDecimal(UpToZero(texts[m.len]))
      modifies storage, texts
      ensures var d, st := pbuf[m.len], old(Now());
        Now() == Put(st, m.to, PackedField(UpToZero(st.bufs[m.len]), d.bytelen, d.precision as int))
    {
      hide D.PackedNibbles, D.Nibbles, D.IsDecimal, BytesOf;
      var d, text := pbuf[m.len], UpToZero(texts[m.len]);
      var field := FieldAt(m.to.a, d.bytelen);
      D.MoveComp3(field, d.bytelen, d.precision as int, text);
      assert field[..d.bytelen] == field[..];
      IsPackedField(field[..], text, d.precision as int);
      PutAt(m.to, field[..]);
    }

    /** All moves after the fetch, from the first entry of the table on. */
    method AfterFetch()
      requires Separate() && AllCanOut(moves[..], Env(), Now())
      requires PackedApart(moves[..], Env(), Now()) && DecimalsIn(moves[..], Env(), Now())
      modifies storage, texts
      ensures Now() == AllOut(moves[..], Env(), old(Now()))
    {
      hide MovedOut, CanMoveOut, SameShape, D.IsDecimal;
      ghost var ms, st := moves[..], Now();
      assert ms[..0] == [];
      for i := 0 to moves.Length
        invariant moves[..] == ms && AllCanOut(ms[..i], Env(), st) && Now() == AllOut(ms[..i], Env(), st)
        invariant PackedApart(ms, Env(), Now()) && DecimalsIn(ms, Env(), Now())
      {
        NextOut(ms, i, Env(), st);
        DecimalsStay(ms, i, Env(), Now());
        MoveOut(moves[i]);
      }
      assert ms[..moves.Length] == ms;
    }

    /** Pad the received values and set their indicators. */
    method PadColumns(work: seq<Slot>)
      requires Separate() && CanPadAll(work, Env(), Now())
      modifies storage, texts
      ensures Now() == PaddedFrom(work, Env(), 0, old(Now()))
    {
      hide Padded, CanPad, SameShape;
      ghost var st := Now();
      var i := 0;
      while i < |work|
        invariant CanPadAll(work, Env(), Now()) && PaddedFrom(work, Env(), i, Now()) == PaddedFrom(work, Env(), 0, st)
        decreases |work| - i
      {
        var marked := IsMarked(work, i);
        if work[i].w.receives {
          PaddedShape(work[i], marked, Env(), Now());
          StillCanPad(work, Env(), Now(), Padded(work[i], marked, Env(), Now()));
          PadRow(work[i], marked);
        }
        i := if marked then i + 2 else i + 1;
      }
    }

    method PadRow(s: Slot, marked: bool)
      requires Separate() && CanPad(s, marked, Env(), Now())
      modifies storage, texts
      ensures Now() == Padded(s, marked, Env(), old(Now()))
    {
      hide NumberBytes, PaddedValue, Over;
      PaddedShape(s, false, Env(), Now());
      PadValue(s);
      if marked {
        PutAt(hosts[s.i + 1], NumberBytes(if parmlen[s.i] == NULL_DATA then -1 else 0, 2));
      }
    }

    method PadValue(s: Slot)
      requires Separate() && CanPad(s, false, Env(), Now())
      modifies storage, texts
      ensures Now() == PaddedValue(s, Env(), old(Now()))
    {
      hide FilledUp;
      var n := parmlen[s.i];
      var p := hosts[s.i];
      if n < 0 {
        if n == NULL_DATA && s.c.kind == '3' {
          PutAt(p, [D.ZERO, 0]);
        }
        n := 0;
      }
      if n < s.c.len && IsPadded(s.c.kind) {
        var t := FetchAt(p, s.c.len);
        t := FillUp(s.c.kind, t, n);
        PutAt(p, t);
      }
    }

    /** The text with everything from n on replaced by the filling character. */
    method FillUp(kind: char, text: Text, n: nat) returns (t: Text)
      requires n <= |text|
      ensures t == FilledUp(kind, text[..n], |text|)
    {
      t := text;
      var i := n;
      while i < |text|
        invariant n <= i <= |text| == |t|
        invariant forall k :: 0 <= k < |t| ==>
          t[k] == if n <= k < i then (if kind == 'B' then 0 else D.BLANK) else text[k]
      {
        t := t[i := if kind == 'B' then 0 else D.BLANK];
        i := i + 1;
      }
    }
  }

  lemma NextIn(ms: seq<Move>, i: nat, env: Bound, st: Store)
    requires i < |ms| && AllCanIn(ms, env, st)
    ensures AllCanIn(ms[..i], env, st) && AllCanIn(ms[..i + 1], env, st)
    ensures CanMoveIn(ms[i], env, AllIn(ms[..i], env, st))
    ensures AllIn(ms[..i + 1], env, st) == MovedIn(ms[i], env, AllIn(ms[..i], env, st))
  {
    hide CanMoveIn, MovedIn, SameShape;
    assert ms[..i + 1][..i] == ms[..i];
    StillCan(ms[i], env, st, AllIn(ms[..i], env, st));
  }

  lemma NextOut(ms: seq<Move>, i: nat, env: Bound, st: Store)
    requires i < |ms| && AllCanOut(ms, env, st)
    ensures AllCanOut(ms[..i], env, st) && AllCanOut(ms[..i + 1], env, st)
    ensures CanMoveOut(ms[i], env, AllOut(ms[..i], env, st))
    ensures AllOut(ms[..i + 1], env, st) == MovedOut(ms[i], env, AllOut(ms[..i], env, st))
  {
    hide CanMoveOut, MovedOut, SameShape;
    assert ms[..i + 1][..i] == ms[..i];
    StillCan(ms[i], env, st, AllOut(ms[..i], env, st));
  }

  lemma IsPackedField(field: Text, text: Text, s: nat)
    requires |field| >= 1 && D.IsDecimal(text) && D.Nibbles(field) == D.PackedNibbles(text, |field|, s)
    ensures field == PackedField(text, |field|, s)
  {
    hide D.IsDecimal, D.PackedNibbles, D.Nibbles, BytesOf;
    var ns := D.PackedNibbles(text, |field|, s);
    PackedNibblesFit(text, |field|, s);
    FieldOfNibbles(ns);
    D.NibblesAre(BytesOf(ns), ns);
    D.NibblesDetermineBytes(field, BytesOf(ns));
  }
}
