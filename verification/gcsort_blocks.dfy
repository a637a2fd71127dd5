/**
 How GCSORT shares the records of an input file among threads, and which positions the records get. Sequential
 and line sequential files of fixed format are cut into blocks: every thread skips the records of the threads
 before it and stops behind its own. All other files are dealt out record by record.
 */
module GcsortBlocks {
  import opened Arithmetic
  import opened GcsortOrder

  datatype Organisation = Sequential | LineSequential | LineSequentialFixed | Relative | Indexed

  datatype TypeLoad = ReadBlockChunk | ReadRoundRobin

  function TypeLoadOf(org: Organisation, variable: bool): TypeLoad {
    if org == Relative || org == Indexed || variable then ReadRoundRobin else ReadBlockChunk
  }

  /** A record count never rounds down to blocks of no records. */
  function BlockSize(numRecords: nat, threads: nat): (b: nat)
    requires threads >= 1
    ensures b >= 1
  {
    if numRecords / threads == 0 then 1 else numRecords / threads
  }

  /** The lower 32 bits of a product, signed. */
  function Int32(x: int): int {
    var w := x % 0x1_0000_0000;
    if w >= 0x8000_0000 then w - 0x1_0000_0000 else w
  }

  const SLOT_AREA := 8192000

  /** The records of a sequential file that are skipped in whole slots; the read loop skips the others. */
  function SkippedInSlots(skip: nat, recordLength: nat): (n: nat)
    requires 1 <= recordLength <= SLOT_AREA
  {
    var slotRecords := SLOT_AREA / recordLength;
    assert slotRecords >= 1 by { DivAtLeast(SLOT_AREA, recordLength, 1); }
    var slotArea := slotRecords * recordLength;
    assert slotArea >= 1 by { MulAtLeast(slotRecords, recordLength); }
    var area := Int32(skip * recordLength);
    if area / slotArea < 1 then 0 else (assert area / slotArea >= 1; MulSlots(area / slotArea, slotRecords))
  }

  function MulSlots(slots: int, records: int): (n: nat)
    requires slots >= 1 && records >= 1
  {
    MulAtLeast(slots, records);
    slots * records
  }

  /** Slots never reach behind the records that are to be skipped, also when the area overflows. */
  lemma SlotsAreSkipped(skip: nat, recordLength: nat)
    requires 1 <= recordLength <= SLOT_AREA
    ensures SkippedInSlots(skip, recordLength) <= skip
  {
    DivAtLeast(SLOT_AREA, recordLength, 1);
    var slotRecords := SLOT_AREA / recordLength;
    var slotArea := slotRecords * recordLength;
    var area := Int32(skip * recordLength);
    MulAtLeast(slotRecords, recordLength);
    if area / slotArea >= 1 {
      var n := area / slotArea;
      MulMonotone(0, skip, recordLength);
      assert area <= skip * recordLength;
      DivAtLeast(area, slotArea, n);
      MulAssoc(n, slotRecords, recordLength);
      assert n * slotRecords * recordLength <= skip * recordLength;
      if n * slotRecords > skip {
        MulMonotone(skip + 1, n * slotRecords, recordLength);
        MulDistributes(skip, 1, recordLength);
      }
    }
  }

  // ---------- which records a thread takes ----------

  /** Is the n-th record (counting from 1) loaded under these bounds? A bound of 0 is no bound. */
  predicate Taken(n: int, skip: int, stop: int) {
    !(skip > 0 && n <= skip) && !(stop > 0 && n > stop)
  }

  /** The share of a thread: a block of the file, or every max-th record. */
  datatype Share = Bounds(skip: int, stop: int) | Every(curr: nat, max: nat)

  /** Does record i (counting from 0) belong to the share? */
  predicate Mine(share: Share, i: nat) {
    match share
    case Bounds(skip, stop) => Taken(i + 1, skip, stop)
    case Every(curr, max) => max > 0 && i % max + 1 == curr
  }

  /** The bytes of the records. */
  function Size(block: seq<Record>): nat {
    if |block| == 0 then 0 else Size(block[..|block| - 1]) + |block[|block| - 1].data|
  }

  /**
   The records of a share, in file order. The first is at position start, and every other behind the bytes that
   the thread itself has loaded before it.
   */
  function Loaded(file: seq<Data>, share: Share, start: int, job: nat): seq<Record> {
    if |file| == 0 then []
    else
      var front := Loaded(file[..|file| - 1], share, start, job);
      front + if Mine(share, |file| - 1) then [Record(file[|file| - 1], start + Size(front), job)] else []
  }

  /**
   How a file is loaded: in blocks of b records or dealt out, by so many threads. Skipping a record advances the
   position by `advance`.
   */
  datatype Setup = Setup(load: TypeLoad, threads: nat, b: nat, advance: nat)

  /** Only records of sequential files that are skipped count for the position. */
  function SetupOf(org: Organisation, variable: bool, threads: nat, numRecords: nat, recordLength: nat): Setup
    requires threads >= 1
  {
    Setup(TypeLoadOf(org, variable), threads, BlockSize(numRecords, threads),
          if org == Sequential then recordLength else 0)
  }

  function SkipOf(c: int, b: int): int {
    (c - 1) * b
  }

  function StopOf(c: int, threads: int, b: int): int {
    if c == threads then 0 else (c - 1) * b + b
  }

  function ShareOf(st: Setup, c: nat): Share {
    if st.load == ReadBlockChunk then Bounds(SkipOf(c, st.b), StopOf(c, st.threads, st.b)) else Every(c, st.threads)
  }

  function StartOf(st: Setup, c: nat): int {
    if st.load == ReadBlockChunk then SkipOf(c, st.b) * st.advance else 0
  }

  /** What thread c loads. */
  function LoadedBy(file: seq<Data>, st: Setup, c: nat): seq<Record>
    requires c >= 1
  {
    Loaded(file, ShareOf(st, c), StartOf(st, c), c - 1)
  }

  // ---------- the loader ----------

  class ThreadJob {
    const nCurrThread: nat
    const nMaxThread: nat
    const org: Organisation
    const nTypeLoadThread: TypeLoad
    var nMTSkipRec: int
    var nMTStopAft: int
    var nCountRecThread: int
    var nRecCount: int
    var lPosAbsRead: int

    constructor (curr: nat, max: nat, org: Organisation, variable: bool)
      ensures nCurrThread == curr && nMaxThread == max && this.org == org
      ensures nTypeLoadThread == TypeLoadOf(org, variable)
    {
      nCurrThread, nMaxThread := curr, max;
      this.org, nTypeLoadThread := org, TypeLoadOf(org, variable);
      nMTSkipRec, nMTStopAft, nCountRecThread, nRecCount, lPosAbsRead := 0, 0, 0, 0, 0;
    }

    /** Set the bounds of this thread's block from the file size and the record length. */
    method SkipStop(fileMaxSize: nat, inputLength: nat)
      requires 1 <= nCurrThread <= nMaxThread && inputLength > 0
      modifies this`nMTSkipRec, this`nMTStopAft
      ensures nMTSkipRec == SkipOf(nCurrThread, BlockSize(fileMaxSize / inputLength, nMaxThread))
      ensures nMTStopAft == StopOf(nCurrThread, nMaxThread, BlockSize(fileMaxSize / inputLength, nMaxThread))
    {
      var nNumRecords := fileMaxSize / inputLength;
      var nNumRecordForBlock := nNumRecords / nMaxThread;
      if nNumRecordForBlock == 0 {
        nNumRecordForBlock := 1;
      }
      nMTSkipRec := (nCurrThread - 1) * nNumRecordForBlock;
      nMTStopAft := (nCurrThread - 1) * nNumRecordForBlock + nNumRecordForBlock;
      if nCurrThread == nMaxThread {
        nMTStopAft := 0;
      }
    }

    /** Skip records before the first is read: the number of the record reached, and where it begins. */
    method SkipRecord(recordLength: nat) returns (p: nat)
      requires nMTSkipRec > 0 && 1 <= recordLength <= SLOT_AREA && nRecCount == 0
      modifies this`nRecCount, this`lPosAbsRead
      ensures nRecCount == p <= nMTSkipRec
      ensures lPosAbsRead == old(lPosAbsRead) + if org == Sequential then nMTSkipRec * recordLength else 0
    {
      if org != Sequential {
        nRecCount := nRecCount + nMTSkipRec;
        p := nMTSkipRec;
      } else {
        lPosAbsRead := lPosAbsRead + nMTSkipRec * recordLength;
        SlotsAreSkipped(nMTSkipRec, recordLength);
        p := SkippedInSlots(nMTSkipRec, recordLength);
        nRecCount := nRecCount + p;
      }
    }

    ghost function MyShare(): Share
      reads this
    {
      if nTypeLoadThread == ReadBlockChunk then Bounds(nMTSkipRec, nMTStopAft) else Every(nCurrThread, nMaxThread)
    }

    /** The count of a thread that takes every record in turn: it is at its own when the count is at one. */
    ghost predicate InTurn(n: nat)
      reads this`nCountRecThread
    {
      1 <= nCountRecThread <= nMaxThread && (n + nCountRecThread - nCurrThread) % nMaxThread == 0
    }

    /** Is the record just read one of this thread's? */
    method IsMine(n: nat) returns (mine: bool)
      requires 1 <= nCurrThread <= nMaxThread && nRecCount == n + 1
      requires nTypeLoadThread == ReadRoundRobin ==> InTurn(n)
      modifies this`nCountRecThread
      ensures mine == Mine(MyShare(), n)
      ensures nTypeLoadThread == ReadRoundRobin ==> InTurn(n + 1)
    {
      if nTypeLoadThread == ReadBlockChunk {
        mine := !(nMTSkipRec > 0 && nRecCount <= nMTSkipRec) && !(nMTStopAft > 0 && nRecCount > nMTStopAft);
      } else {
        TurnComes(n, nCountRecThread, nCurrThread, nMaxThread);
        nCountRecThread := nCountRecThread - 1;
        mine := nCountRecThread <= 0;
        if mine {
          nCountRecThread := nMaxThread;
        }
      }
    }

    lemma Turns()
      requires 1 <= nCurrThread <= nMaxThread && nCountRecThread == nCurrThread
      ensures InTurn(0)
    {
    }

    /** Keep a record at the position reached, and go on behind it. */
    method LoadInMemory(buffer: seq<Record>, rek: Data) returns (more: seq<Record>)
      requires nCurrThread >= 1
      modifies this`lPosAbsRead
      ensures more == buffer + [Record(rek, old(lPosAbsRead), nCurrThread - 1)]
      ensures lPosAbsRead - Size(more) == old(lPosAbsRead) - Size(buffer)
    {
      more := buffer + [Record(rek, lPosAbsRead, nCurrThread - 1)];
      SizeNext(buffer, Record(rek, lPosAbsRead, nCurrThread - 1));
      lPosAbsRead := lPosAbsRead + |rek|;
    }

    /** Read the file record by record and keep those of this thread, each with its position. */
    method LoadFile(file: seq<Data>, recordLength: nat) returns (block: seq<Record>)
      requires 1 <= nCurrThread <= nMaxThread && 1 <= recordLength <= SLOT_AREA
      requires nTypeLoadThread == ReadBlockChunk ==> 0 <= nMTSkipRec && (nMTStopAft > 0 ==> nMTSkipRec <= nMTStopAft)
      modifies this`nRecCount, this`lPosAbsRead, this`nCountRecThread
      ensures var skipped := nTypeLoadThread == ReadBlockChunk && org == Sequential;
        var start := if skipped then nMTSkipRec * recordLength else 0;
        block == Loaded(file, MyShare(), start, nCurrThread - 1)
    {
      hide Loaded, Mine, Size, InTurn;
      block, nRecCount, lPosAbsRead, nCountRecThread := [], 0, 0, nCurrThread;
      var p := 0;
      if nTypeLoadThread == ReadBlockChunk && nMTSkipRec > 0 {
        p := SkipRecord(recordLength);
      }
      if p > |file| {
        p := |file|;
      }
      ghost var start := lPosAbsRead;
      NoneBeforeSkip(file, MyShare(), start, nCurrThread - 1, p);
      Turns();
      SizeOfNothing();
      while p < |file|
        invariant p <= |file| && (p < |file| ==> nRecCount == p)
        invariant block == Loaded(file[..p], MyShare(), start, nCurrThread - 1) && lPosAbsRead == start + Size(block)
        invariant p < |file| && nTypeLoadThread == ReadRoundRobin ==> InTurn(p)
      {
        nRecCount := nRecCount + 1;
        LoadedNext(file, MyShare(), start, nCurrThread - 1, p);
        var mine := IsMine(p);
        if nTypeLoadThread == ReadBlockChunk && nMTStopAft > 0 && nRecCount > nMTStopAft {
          NoneBehindStop(file, p, MyShare(), start, nCurrThread - 1);
          return;
        }
        if mine {
          block := LoadInMemory(block, file[p]);
        }
        p := p + 1;
      }
      assert file[..p] == file;
    }
  }

  lemma TurnComes(n: nat, count: int, curr: nat, max: nat)
    requires 1 <= curr <= max && 1 <= count <= max && (n + count - curr) % max == 0
    ensures count == 1 <==> n % max + 1 == curr
    ensures (n + 1 + (if count == 1 then max else count - 1) - curr) % max == 0
  {
    var q := (n + count - curr) / max;
    assert n + count - curr == q * max;
    MulDistributes(q, 1, max);
    DivModUnique(n + 1 + (if count == 1 then max else count - 1) - curr, max, if count == 1 then q + 1 else q, 0);
    var r := curr - count;
    if r >= 0 {
      DivModUnique(n, max, q, r);
    } else {
      MulDistributes(q, 1, max);
      DivModUnique(n, max, q - 1, r + max);
    }
  }

  lemma SizeOfNothing()
    ensures Size([]) == 0
  {
  }

  lemma SizeNext(block: seq<Record>, r: Record)
    ensures Size(block + [r]) == Size(block) + |r.data|
  {
    assert (block + [r])[..|block|] == block;
  }

  lemma LoadedNext(file: seq<Data>, share: Share, start: int, job: nat, p: nat)
    requires p < |file|
    ensures var front := Loaded(file[..p], share, start, job);
      Loaded(file[..p + 1], share, start, job)
      == front + if Mine(share, p) then [Record(file[p], start + Size(front), job)] else []
  {
    assert file[..p + 1][..p] == file[..p];
  }

  /** Nothing is loaded before the skipped records are over. */
  lemma {:induction false} NoneBeforeSkip(file: seq<Data>, share: Share, start: int, job: nat, p: nat)
    requires p <= |file| && (p > 0 ==> share.Bounds? && p <= share.skip)
    ensures Loaded(file[..p], share, start, job) == []
  {
    if p > 0 {
      NoneBeforeSkip(file, share, start, job, p - 1);
      LoadedNext(file, share, start, job, p - 1);
    }
  }

  lemma {:induction false} NoneBehindStop(file: seq<Data>, n: nat, share: Share, start: int, job: nat)
    requires n <= |file| && share.Bounds? && 0 < share.stop <= n
    ensures Loaded(file, share, start, job) == Loaded(file[..n], share, start, job)
    decreases |file|
  {
    if n == |file| {
      assert file[..n] == file;
    } else {
      NoneBehindStop(file[..|file| - 1], n, share, start, job);
      assert file[..|file| - 1][..n] == file[..n];
    }
  }

  // ---------- every record belongs to exactly one thread ----------

  /** The thread that loads record i (counting from 0). */
  function Owner(st: Setup, i: nat): nat
    requires st.b >= 1 && st.threads >= 1
  {
    if st.load == ReadRoundRobin then i % st.threads + 1
    else if i / st.b + 1 < st.threads then i / st.b + 1
    else st.threads
  }

  /**
   For any file, however wrong the estimate of its record count was, record i is loaded by one thread
   and by no other, also when there are fewer records than threads.
   */
  lemma TakenByOwnerOnly(st: Setup, i: nat, c: nat)
    requires st.b >= 1 && 1 <= c <= st.threads
    ensures Mine(ShareOf(st, c), i) <==> c == Owner(st, i)
  {
    DivAtLeast(i, st.b, c - 1);
    DivAtLeast(i, st.b, c);
    MulDistributes(c - 1, 1, st.b);
  }

  lemma DivAtLeast(i: int, b: nat, c: int)
    requires b >= 1
    ensures i / b >= c <==> i >= c * b
  {
    var q := i / b;
    assert q * b <= i < q * b + b;
    if q >= c {
      MulMonotone(c, q, b);
    } else {
      MulMonotone(q + 1, c, b);
      assert (q + 1) * b == q * b + b;
    }
  }
}
