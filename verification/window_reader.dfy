/**
 GCSORT's windowed file reader: a sliding mapped view of W bytes that behaves like the plain file.

 The mapping itself belongs to the operating system: mapping `length` bytes from `begin` gives the
 bytes of the file from there, up to its end. W is the allocation granularity times the job's
 multiplier; the position of a window is the offset divided by W, rounded down.
 */
module WindowReader {
  import opened Arithmetic

  datatype SeekPos = SP_BEGIN | SP_CUR | SP_END

  function Min(a: int, b: int): int {
    if a <= b then a else b
  }

  // ---------- the plain file ----------

  /** Where a seek goes; a seek from the end needs a negative offset. */
  function SeekTarget(size: int, pos: int, lOffset: int, from: SeekPos): (t: int) {
    match from
    case SP_BEGIN => lOffset
    case SP_CUR => pos + lOffset
    case SP_END => if lOffset >= 0 then -1 else size + lOffset
  }

  function PlainSeek(size: int, pos: int, lOffset: int, from: SeekPos): int {
    var t := SeekTarget(size, pos, lOffset, from);
    if 0 <= t < size then t else pos
  }

  /** How many bytes a read of `count` bytes at `pos` gives. */
  function PlainCount(size: int, pos: int, count: int): int {
    if pos >= size then 0 else Min(count, size - pos)
  }

  datatype Request = SeekTo(offset: int, from: SeekPos) | ReadOf(count: nat)

  datatype Answer = Sought(ok: bool) | Got(bytes: seq<bv8>)

  function PlainAnswer(file: seq<bv8>, pos: int, request: Request): Answer
    requires 0 <= pos <= |file|
  {
    match request
    case SeekTo(offset, from) => Sought(0 <= SeekTarget(|file|, pos, offset, from) < |file|)
    case ReadOf(count) => Got(file[pos..pos + PlainCount(|file|, pos, count)])
  }

  function PlainNext(size: int, pos: int, request: Request): (next: int)
    requires 0 <= pos <= size
    ensures 0 <= next <= size
  {
    match request
    case SeekTo(offset, from) => PlainSeek(size, pos, offset, from)
    case ReadOf(count) => pos + PlainCount(size, pos, count)
  }

  /** What a plain file answers to a run of requests. */
  function PlainRun(file: seq<bv8>, pos: int, requests: seq<Request>): seq<Answer>
    requires 0 <= pos <= |file|
    decreases |requests|
  {
    if |requests| == 0 then []
    else [PlainAnswer(file, pos, requests[0])]
         + PlainRun(file, PlainNext(|file|, pos, requests[0]), requests[1..])
  }

  // ---------- the window ----------

  class MappedFile {
    const file: seq<bv8>
    const W: int
    var pbFile: seq<bv8>
    var nCurPos: int
    var nViewBegin: int
    var dwBytesInView: int

    ghost function ViewEnd(): int
      reads this
    {
      Min(nViewBegin + W, |file|)
    }

    ghost predicate Valid()
      reads this
    {
      && W > 0 && |file| > 0
      && 0 <= nViewBegin < |file| && nViewBegin % W == 0
      && pbFile == file[nViewBegin..ViewEnd()]
      && nViewBegin <= nCurPos <= ViewEnd()
      && (dwBytesInView == W || dwBytesInView == ViewEnd() - nViewBegin)
    }

    constructor Open(bytes: seq<bv8>, w: int)
      requires w > 0 && |bytes| > 0
      ensures Valid() && file == bytes && W == w && nCurPos == 0
    {
      file, W := bytes, w;
      dwBytesInView := w;
      nViewBegin, nCurPos := 0, 0;
      pbFile := bytes[..Min(w, |bytes|)];
    }

    /** Unmap the view and map `dwBytesInView` bytes from `nViewBegin`. */
    method Remap()
      requires 0 <= nViewBegin <= |file| && 0 <= dwBytesInView
      modifies this`pbFile
      ensures pbFile == file[nViewBegin..Min(nViewBegin + dwBytesInView, |file|)]
    {
      pbFile := file[nViewBegin..Min(nViewBegin + dwBytesInView, |file|)];
    }

    /** Move to an offset inside the file, moving the view if it does not hold the offset. */
    method Seek(offset: int, eseekpos: SeekPos) returns (r: int)
      requires Valid()
      modifies this
      ensures Valid()
      ensures nCurPos == PlainSeek(|file|, old(nCurPos), offset, eseekpos)
      ensures r == (if 0 <= SeekTarget(|file|, old(nCurPos), offset, eseekpos) < |file| then 1 else 0)
      ensures r == 0 ==> unchanged(this)
      ensures r == 1 ==> nViewBegin == nCurPos / W * W
    {
      var lOffset := offset;
      if eseekpos == SP_CUR {
        lOffset := nCurPos + lOffset;
      } else if eseekpos == SP_END {
        if lOffset >= 0 {
          return 0;
        }
        lOffset := |file| + lOffset;
      }
      if !(lOffset >= 0 && lOffset < |file|) {
        return 0;
      }
      MoveView(lOffset);
      return 1;
    }

    method MoveView(lOffset: int)
      requires Valid() && 0 <= lOffset < |file|
      modifies this
      ensures Valid() && nCurPos == lOffset && nViewBegin == lOffset / W * W
    {
      WindowHolds(lOffset, W);
      if nViewBegin <= lOffset < nViewBegin + W {
        SameWindow(lOffset, nViewBegin, W);
      }
      var n := lOffset / W;
      var begin := n * W;
      if !(lOffset >= nViewBegin && lOffset < nViewBegin + dwBytesInView) {
        nViewBegin := begin;
        dwBytesInView := W;
        if nViewBegin + dwBytesInView > |file| {
          dwBytesInView := |file| - nViewBegin;
        }
        if dwBytesInView != 0 {
          Remap();
        }
      } else {
        nViewBegin := begin;
        dwBytesInView := W;
      }
      nCurPos := lOffset;
    }

    /** Copy `n` bytes at the current position out of the view, to `at` in the caller's buffer. */
    method CopyOut(pBuf: array<bv8>, at: int, n: int)
      requires Valid() && 0 <= at && 0 <= n && at + n <= pBuf.Length && nCurPos + n <= ViewEnd()
      modifies this`nCurPos, pBuf
      ensures Valid() && nCurPos == old(nCurPos) + n
      ensures forall i :: at <= i < at + n ==> pBuf[i] == file[old(nCurPos) + (i - at)]
      ensures forall i :: 0 <= i < pBuf.Length && !(at <= i < at + n) ==> pBuf[i] == old(pBuf[i])
    {
      var from := nCurPos - nViewBegin;
      for k := 0 to n
        invariant nCurPos == old(nCurPos)
        invariant forall i :: at <= i < at + k ==> pBuf[i] == pbFile[from + (i - at)]
        invariant forall i :: 0 <= i < pBuf.Length && !(at <= i < at + k) ==> pBuf[i] == old(pBuf[i])
      {
        pBuf[at + k] := pbFile[from + k];
      }
      nCurPos := nCurPos + n;
    }

    /** Up to where one read at the current position can reach: the end of the next window, or of the file. */
    ghost function Reach(): int
      reads this
    {
      Min(nViewBegin + 2 * W, |file|)
    }

    /**
     Read up to `nCountIn` bytes. The result is always the count a plain read gives; the bytes arrive
     as far as the end of the window behind the current one, which is all of them unless the read is
     longer than that.
     */
    method Read(pBuf: array<bv8>, nCountIn: int) returns (n: int)
      requires Valid() && 0 <= nCountIn <= pBuf.Length
      modifies this, pBuf
      ensures Valid()
      ensures n == PlainCount(|file|, old(nCurPos), nCountIn)
      ensures nCurPos == Min(old(nCurPos) + n, old(Reach()))
      ensures nCountIn <= W ==> nCurPos == old(nCurPos) + n
      ensures forall i :: 0 <= i < nCurPos - old(nCurPos) ==> pBuf[i] == file[old(nCurPos) + i]
      ensures forall i :: nCurPos - old(nCurPos) <= i < pBuf.Length ==> pBuf[i] == old(pBuf[i])
    {
      if nCountIn == 0 {
        return 0;
      }
      if nCurPos >= |file| {
        return 0;
      }
      var nDataEndPos, nViewEndPos;
      n, nDataEndPos, nViewEndPos := Bounds(nCountIn);
      Fetch(pBuf, n, nDataEndPos, nViewEndPos);
    }

    /** Copy the bytes of a read out of the window, and move the window when they reach its end. */
    method Fetch(pBuf: array<bv8>, n: int, nDataEndPos: int, nViewEndPos: int)
      requires Valid() && 0 < n <= pBuf.Length && nCurPos < |file|
      requires nDataEndPos == nCurPos + n <= |file| && nViewEndPos == ViewEnd()
      modifies this, pBuf
      ensures Valid()
      ensures nCurPos == Min(nDataEndPos, old(Reach()))
      ensures forall i :: 0 <= i < nCurPos - old(nCurPos) ==> pBuf[i] == file[old(nCurPos) + i]
      ensures forall i :: nCurPos - old(nCurPos) <= i < pBuf.Length ==> pBuf[i] == old(pBuf[i])
    {
      if nDataEndPos < nViewEndPos {
        CopyOut(pBuf, 0, n);
      } else if nDataEndPos == nViewEndPos {
        CopyOut(pBuf, 0, n);
        var _ := Seek(nCurPos, SP_BEGIN);
      } else {
        ReadAcross(pBuf, nDataEndPos, nViewEndPos);
      }
    }

    /** The byte count of a read, where its data end, and where the view ends; both clipped to the file. */
    method Bounds(nCountIn: int) returns (nCount: int, nDataEndPos: int, nViewEndPos: int)
      requires Valid() && 0 < nCountIn && nCurPos < |file|
      modifies this`dwBytesInView
      ensures Valid() && nCount == PlainCount(|file|, nCurPos, nCountIn)
      ensures nDataEndPos == nCurPos + nCount && nViewEndPos == ViewEnd()
    {
      nCount := nCountIn;
      dwBytesInView := W;
      if nViewBegin + dwBytesInView > |file| {
        dwBytesInView := |file| - nViewBegin;
      }
      nDataEndPos := nCurPos + nCount;
      if nDataEndPos >= |file| {
        nDataEndPos := |file|;
        nCount := |file| - nCurPos;
      }
      nViewEndPos := nViewBegin + dwBytesInView;
    }

    /** A read past the end of the window: the rest of it, then the beginning of the next one. */
    method ReadAcross(pBuf: array<bv8>, nDataEndPos: int, viewEnd: int)
      requires Valid() && nCurPos < nDataEndPos <= |file| && nDataEndPos - nCurPos <= pBuf.Length
      requires viewEnd == ViewEnd() < nDataEndPos
      modifies this, pBuf
      ensures Valid()
      ensures nCurPos == Min(nDataEndPos, old(Reach()))
      ensures forall i :: 0 <= i < nCurPos - old(nCurPos) ==> pBuf[i] == file[old(nCurPos) + i]
      ensures forall i :: nCurPos - old(nCurPos) <= i < pBuf.Length ==> pBuf[i] == old(pBuf[i])
    {
      var nViewEndPos := viewEnd;
      var nReadBytes := nViewEndPos - nCurPos;
      CopyOut(pBuf, 0, nReadBytes);
      var pBufRead := nReadBytes;
      var nSeekPos := nCurPos - nViewEndPos;
      NextWindow(nViewBegin, W);
      var _ := Seek(nSeekPos, SP_CUR);
      nViewEndPos := nViewBegin + dwBytesInView;
      nReadBytes := nViewEndPos - nCurPos;
      if nViewEndPos > nDataEndPos {
        nReadBytes := nDataEndPos - nCurPos;
      }
      CopyOut(pBuf, pBufRead, nReadBytes);
    }

    method Serve(request: Request) returns (answer: Answer)
      requires Valid() && (request.ReadOf? ==> request.count <= W)
      modifies this
      ensures Valid() && answer == PlainAnswer(file, old(nCurPos), request)
      ensures nCurPos == PlainNext(|file|, old(nCurPos), request)
    {
      match request
      case SeekTo(offset, from) =>
        var r := Seek(offset, from);
        answer := Sought(r == 1);
      case ReadOf(count) =>
        var pBuf := new bv8[count];
        var n := Read(pBuf, count);
        answer := Got(pBuf[..n]);
        assert pBuf[..n] == file[old(nCurPos)..old(nCurPos) + n];
    }

    /** Any run of seeks, and of reads of at most one window, is answered as by the plain file. */
    method Run(requests: seq<Request>) returns (answers: seq<Answer>)
      requires Valid()
      requires forall i :: 0 <= i < |requests| && requests[i].ReadOf? ==> requests[i].count <= W
      modifies this
      ensures Valid() && answers == PlainRun(file, old(nCurPos), requests)
    {
      answers := [];
      var i := 0;
      assert requests[0..] == requests;
      while i < |requests|
        invariant 0 <= i <= |requests| && Valid()
        invariant answers + PlainRun(file, nCurPos, requests[i..]) == PlainRun(file, old(nCurPos), requests)
      {
        assert requests[i..][1..] == requests[i + 1..];
        var answer := Serve(requests[i]);
        answers := answers + [answer];
        i := i + 1;
      }
      assert answers + [] == answers;
    }
  }

  lemma NextWindow(begin: int, w: int)
    requires w > 0 && begin >= 0 && begin % w == 0
    ensures (begin + w) / w * w == begin + w
  {
    var k := begin / w;
    MulDistributes(k, 1, w);
    DivModUnique(begin + w, w, k + 1, 0);
  }

  /** The window that holds an offset begins at the offset divided by the window size, rounded down. */
  lemma WindowHolds(offset: int, w: int)
    requires w > 0 && offset >= 0
    ensures 0 <= offset / w * w <= offset < offset / w * w + w && (offset / w * w) % w == 0
  {
    var q := offset / w;
    assert q * w <= offset < q * w + w;
    DivModUnique(q * w, w, q, 0);
    MulMonotone(0, q, w);
  }

  lemma SameWindow(offset: int, begin: int, w: int)
    requires w > 0 && begin >= 0 && begin % w == 0 && begin <= offset < begin + w
    ensures offset / w * w == begin
  {
    var k := begin / w;
    assert begin == k * w;
    DivModUnique(offset, w, k, offset - begin);
  }
}
