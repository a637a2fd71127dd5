/**
 The merge loop of GCSORT over in-memory jobs, with its working arrays, proved against `GcsortSlots`.
 */
module GcsortFinalMerge {
  import opened GcsortOrder
  import opened GcsortMerge
  import opened GcsortSlots

  /** A thread's job after sorting: its record buffer, and how far the merge has read it. */
  class Job {
    const buffertSort: seq<Record>
    var recordReadInCurrent: nat

    constructor (records: seq<Record>)
      ensures buffertSort == records && recordReadInCurrent == 0
    {
      buffertSort, recordReadInCurrent := records, 0;
    }

    ghost function Unread(): seq<Record>
      reads this
    {
      if recordReadInCurrent <= |buffertSort| then buffertSort[recordReadInCurrent..] else []
    }

    /** The next record of the job, copied into an area, or an end-of-file flag. */
    method ReadFileMem(szBuffRek: Record, area: Bytes) returns (eof: bool, rek: Record, filled: Bytes)
      modifies this
      ensures eof == (old(Unread()) == [])
      ensures eof ==> rek == szBuffRek && filled == area && Unread() == []
      ensures !eof ==> rek == old(Unread())[0] && filled == Filled(area, rek) && Unread() == old(Unread())[1..]
    {
      if recordReadInCurrent < |buffertSort| {
        rek := buffertSort[recordReadInCurrent];
        filled := Filled(area, rek);
        recordReadInCurrent := recordReadInCurrent + 1;
        eof := false;
      } else {
        rek, filled := szBuffRek, area;
        eof := true;
      }
    }
  }

  function Buffers(jobs: seq<Job>): Streams {
    seq(|jobs|, s requires 0 <= s < |jobs| => jobs[s].buffertSort)
  }

  ghost predicate DistinctJobs(jobs: seq<Job>) {
    forall s, t :: 0 <= s < t < |jobs| ==> jobs[s] != jobs[t]
  }

  // ---------- the merge ----------

  class FinalMerge {
    const sortFields: seq<SortField>
    const sumNone: bool
    const xsum: bool
    const outputLength: nat
    const jobs: seq<Job>
    const bIsEof: array<bool>
    const ptrSet: array<bool>
    const szBufRek: array<Record>
    const szBufRekTmpFile: array<Bytes>
    const nJobOfStream: array<int>
    var nSumEof: int
    var nMaxEle: int
    var output: seq<Record>
    var recordWriteOutTotal: nat
    var recordDiscardXSUMTotal: nat
    var previousRecord: int
    var recordBufferPrevious: Record
    ghost var rest: Streams
    ghost var merged: seq<Record>
    /** What the merge is going to put out in all. */
    ghost var goal: seq<Record>

    ghost predicate Fresh()
      reads this
    {
      output == [] && merged == [] && previousRecord == -1 && recordWriteOutTotal == recordDiscardXSUMTotal == 0
    }

    ghost predicate Shape()
      reads this`rest, this`nMaxEle
    {
      && |jobs| <= MAX_HANDLE_THREAD && DistinctJobs(jobs)
      && bIsEof.Length == ptrSet.Length == szBufRek.Length == nJobOfStream.Length == |rest| == MAX_HANDLE_THREAD
      && szBufRekTmpFile.Length == MAX_HANDLE_THREAD
      && bIsEof != ptrSet
      && 0 <= nMaxEle <= MAX_HANDLE_THREAD
    }

    /** Slot k agrees with what is still to come from its stream. */
    ghost predicate SlotOk(k: int)
      requires Shape() && 0 <= k < MAX_HANDLE_THREAD
      reads this`rest, this`nMaxEle, bIsEof, ptrSet, szBufRek, nJobOfStream, jobs
    {
      && ptrSet[k] == !bIsEof[k]
      && (k >= nMaxEle ==> bIsEof[k] && rest[k] == [])
      && (k < nMaxEle ==>
            && 0 <= nJobOfStream[k] < |jobs|
            && rest[k] == if bIsEof[k] then [] else [szBufRek[k]] + jobs[nJobOfStream[k]].Unread())
    }

    /** The areas of the slots hold what the memory allocated for them holds. */
    constructor (fields: seq<SortField>, none: bool, x: bool, length: nat, js: seq<Job>, areas: seq<Bytes>)
      requires |js| <= MAX_HANDLE_THREAD == |areas| && DistinctJobs(js)
      ensures sortFields == fields && sumNone == none && xsum == x && outputLength == length && jobs == js
      ensures Shape() && Fresh() && szBufRekTmpFile[..] == areas
      ensures fresh(bIsEof) && fresh(ptrSet) && fresh(szBufRek) && fresh(szBufRekTmpFile) && fresh(nJobOfStream)
    {
      sortFields, sumNone, xsum, outputLength, jobs := fields, none, x, length, js;
      szBufRekTmpFile := new Bytes[MAX_HANDLE_THREAD](k requires 0 <= k < MAX_HANDLE_THREAD => areas[k]);
      bIsEof := new bool[MAX_HANDLE_THREAD];
      ptrSet := new bool[MAX_HANDLE_THREAD];
      szBufRek := new Record[MAX_HANDLE_THREAD](_ => Record([], 0, 0));
      nJobOfStream := new int[MAX_HANDLE_THREAD];
      nSumEof, nMaxEle, output, recordWriteOutTotal, recordDiscardXSUMTotal := 0, 0, [], 0, 0;
      previousRecord, recordBufferPrevious := -1, Record([], 0, 0);
      rest, merged, goal := StreamsOf([], MAX_HANDLE_THREAD), [], [];
    }

    ghost predicate DistinctStreams()
      requires Shape()
      reads this`rest, this`nMaxEle, nJobOfStream
    {
      forall k, l :: 0 <= k < l < nMaxEle ==> nJobOfStream[k] < nJobOfStream[l]
    }

    ghost predicate Valid()
      reads this`rest, this`nMaxEle, this`nSumEof, bIsEof, ptrSet, szBufRek, nJobOfStream, jobs
    {
      && Shape() && DistinctStreams()
      && (forall k :: 0 <= k < MAX_HANDLE_THREAD ==> SlotOk(k))
      && nSumEof == CountEmpty(rest)
    }

    lemma SlotFacts(k: int)
      requires Valid() && 0 <= k < MAX_HANDLE_THREAD
      ensures k < nMaxEle ==> (ptrSet[k] <==> rest[k] != []) && (ptrSet[k] ==> rest[k][0] == szBufRek[k])
      ensures k >= nMaxEle ==> rest[k] == []
      ensures bIsEof[k] <==> rest[k] == []
    {
      assert SlotOk(k);
    }

    /** The slots as they are. */
    ghost function Now(): (s: seq<Slot>)
      requires Shape()
      reads this`rest, this`nMaxEle, szBufRekTmpFile
      ensures |s| == MAX_HANDLE_THREAD && Rests(s) == rest
    {
      SlotsOf(szBufRekTmpFile[..], rest)
    }

    /** What the arrays tell of slot k. */
    lemma SlotNow(k: int)
      requires Valid() && 0 <= k < MAX_HANDLE_THREAD
      ensures Now()[k] == Slot(szBufRekTmpFile[k], rest[k]) && szBufRekTmpFile.Length == |rest| == MAX_HANDLE_THREAD
      ensures k < nMaxEle ==> (ptrSet[k] <==> rest[k] != []) && (ptrSet[k] ==> rest[k][0] == szBufRek[k])
      ensures k >= nMaxEle ==> rest[k] == []
    {
      SlotFacts(k);
    }

    lemma BestNext(p: int)
      requires Shape() && 0 <= p < MAX_HANDLE_THREAD
      ensures var b := Best(sortFields, outputLength, Now()[..p]);
        Best(sortFields, outputLength, Now()[..p + 1]) ==
          if rest[p] == [] then b
          else if b < 0 || CompareSlots(sortFields, outputLength, Now()[b], Now()[p]) > 0 then p
          else b
    {
      hide CompareSlots;
      assert Now()[..p + 1][..p] == Now()[..p];
    }

    /** Index of the first of the smallest current records, or -1 when every stream is at its end. */
    method IdentifyBuf() returns (posAr: int)
      requires Valid()
      ensures posAr == Best(sortFields, outputLength, Now())
      ensures posAr >= 0 ==> posAr < nMaxEle && rest[posAr] != []
    {
      hide Valid, Shape, SlotOk, Best, PosSeen;
      ValidShape();
      posAr := -1;
      var p := 0;
      BestOfNothing(sortFields, outputLength, Now());
      while p < nMaxEle
        invariant 0 <= p <= nMaxEle && posAr == -1 && Best(sortFields, outputLength, Now()[..p]) == -1
      {
        SlotNow(p);
        BestNext(p);
        if ptrSet[p] {
          posAr := p;
          break;
        }
        p := p + 1;
      }
      if posAr == -1 {
        UnusedSlots();
        return;
      }
      p := posAr + 1;
      while p < nMaxEle
        invariant 0 <= posAr < p <= nMaxEle && Best(sortFields, outputLength, Now()[..p]) == posAr && rest[posAr] != []
      {
        SlotNow(p);
        SlotNow(posAr);
        BestNext(p);
        if ptrSet[p] {
          var seenAr, seen := PosSeen(szBufRekTmpFile[posAr], outputLength), PosSeen(szBufRekTmpFile[p], outputLength);
          if CompareRek(sortFields, szBufRek[posAr].data, seenAr, szBufRek[p].data, seen, true) > 0 {
            posAr := p;
          }
        }
        p := p + 1;
      }
      UnusedSlots();
    }

    /** The slots that no stream was given do not matter. */
    lemma UnusedSlots()
      requires Valid() && nMaxEle <= MAX_HANDLE_THREAD
      ensures Best(sortFields, outputLength, Now()) == Best(sortFields, outputLength, Now()[..nMaxEle])
    {
      hide Valid, Best, SlotOk;
      ValidShape();
      for k := nMaxEle to MAX_HANDLE_THREAD
        invariant Best(sortFields, outputLength, Now()[..k]) == Best(sortFields, outputLength, Now()[..nMaxEle])
      {
        SlotNow(k);
        BestNext(k);
      }
      assert Now()[..MAX_HANDLE_THREAD] == Now();
    }

    lemma ValidShape()
      requires Valid()
      ensures 0 <= nMaxEle <= MAX_HANDLE_THREAD && |rest| == MAX_HANDLE_THREAD
      ensures ptrSet.Length == szBufRek.Length == szBufRekTmpFile.Length == MAX_HANDLE_THREAD && Shape()
    {
    }

    lemma ValidCount()
      requires Valid()
      ensures nSumEof == CountEmpty(rest) && |rest| == MAX_HANDLE_THREAD
    {
    }

    /** Read the next record of stream k into its slot, or retire the slot. */
    method Refill(k: int)
      requires Valid() && 0 <= k < nMaxEle && !bIsEof[k] && rest[k] != []
      modifies this`nSumEof, this`rest, bIsEof, ptrSet, szBufRek, szBufRekTmpFile, jobs
      ensures Valid() && rest == Popped(old(rest), k) && Now() == Taken(old(Now()), k)
    {
      hide SlotOk, CountEmpty, DistinctJobs, Filled, Shown, Taken, SlotsOf;
      PopCount(rest, k);
      assert SlotOk(k);
      ghost var areas, streams := szBufRekTmpFile[..], rest;
      NextRead(k);
      SlotTaken(areas, streams, szBufRekTmpFile[..], k);
      if bIsEof[k] {
        nSumEof := nSumEof + 1;
      }
      SlotEnd(k);
    }

    lemma SlotEnd(k: int)
      requires Shape() && 0 <= k < nMaxEle && SlotOk(k)
      ensures bIsEof[k] <==> rest[k] == []
    {
    }

    /** The next record of the job that feeds slot k comes into the slot. */
    method ReadInto(k: int)
      requires Shape() && 0 <= k < MAX_HANDLE_THREAD && 0 <= nJobOfStream[k] < |jobs|
      modifies bIsEof, szBufRek, szBufRekTmpFile, jobs[nJobOfStream[k]]
      ensures var records := old(jobs[nJobOfStream[k]].Unread());
        && szBufRekTmpFile[k] == Shown(old(szBufRekTmpFile[k]), records).area
        && bIsEof[k] == (records == []) && (records != [] ==> szBufRek[k] == records[0])
        && jobs[nJobOfStream[k]].Unread() == if records == [] then [] else records[1..]
      ensures forall i :: 0 <= i < MAX_HANDLE_THREAD && i != k ==>
        bIsEof[i] == old(bIsEof[i]) && szBufRek[i] == old(szBufRek[i]) && szBufRekTmpFile[i] == old(szBufRekTmpFile[i])
    {
      hide Filled;
      bIsEof[k], szBufRek[k], szBufRekTmpFile[k] := jobs[nJobOfStream[k]].ReadFileMem(szBufRek[k], szBufRekTmpFile[k]);
    }

    method NextRead(k: int)
      requires Shape() && DistinctStreams() && 0 <= k < nMaxEle && !bIsEof[k] && rest[k] != []
      requires forall i :: 0 <= i < MAX_HANDLE_THREAD ==> SlotOk(i)
      modifies this`rest, bIsEof, ptrSet, szBufRek, szBufRekTmpFile, jobs
      ensures Shape() && rest == Popped(old(rest), k)
      ensures szBufRekTmpFile[k] == Shown(old(szBufRekTmpFile[k]), old(rest[k])[1..]).area
      ensures forall i :: 0 <= i < MAX_HANDLE_THREAD && i != k ==> szBufRekTmpFile[i] == old(szBufRekTmpFile[i])
      ensures forall i :: 0 <= i < MAX_HANDLE_THREAD ==> SlotOk(i)
    {
      hide Shown, Job.Unread;
      assert SlotOk(k);
      rest := Popped(rest, k);
      ReadInto(k);
      if bIsEof[k] {
        ptrSet[k] := false;
      }
      forall i | 0 <= i < MAX_HANDLE_THREAD
        ensures SlotOk(i)
      {
        assert old(SlotOk(i));
        if i < nMaxEle && i != k {
          assert nJobOfStream[i] != nJobOfStream[k];
        }
      }
    }

    method ClearSlots()
      requires Shape()
      modifies bIsEof, ptrSet
      ensures forall k :: 0 <= k < MAX_HANDLE_THREAD ==> bIsEof[k] && !ptrSet[k]
    {
      for kj := 0 to MAX_HANDLE_THREAD
        invariant forall k :: 0 <= k < kj ==> bIsEof[k] && !ptrSet[k]
      {
        bIsEof[kj] := true;
        ptrSet[kj] := false;
      }
    }

    /** Give every job with records the next free slot, and rewind all jobs. */
    method BuildStreams()
      requires Shape()
      modifies this`nMaxEle, bIsEof, ptrSet, nJobOfStream, jobs
      ensures Shape() && nMaxEle == |NonEmpty(Buffers(jobs))|
      ensures forall k :: 0 <= k < nMaxEle ==> nJobOfStream[k] == NonEmpty(Buffers(jobs))[k]
      ensures forall k :: 0 <= k < MAX_HANDLE_THREAD ==> bIsEof[k] == (k >= nMaxEle) && ptrSet[k] == (k < nMaxEle)
      ensures forall s :: 0 <= s < |jobs| ==> jobs[s].recordReadInCurrent == 0
    {
      hide NonEmpty;
      ClearSlots();
      ghost var buffers := Buffers(jobs);
      NoneNonEmpty(buffers);
      var j := -1;
      for s := 0 to |jobs|
        invariant j + 1 == |NonEmpty(buffers[..s])|
        invariant forall k :: 0 <= k <= j ==> nJobOfStream[k] == NonEmpty(buffers[..s])[k]
        invariant forall k :: 0 <= k < MAX_HANDLE_THREAD ==> bIsEof[k] == (k > j) && ptrSet[k] == (k <= j)
        invariant forall t :: 0 <= t < s ==> jobs[t].recordReadInCurrent == 0
      {
        var job := jobs[s];
        job.recordReadInCurrent := 0;
        NextNonEmpty(buffers, s);
        if |job.buffertSort| == 0 {
          continue;
        }
        j := j + 1;
        bIsEof[j] := false;
        ptrSet[j] := true;
        nJobOfStream[j] := s;
      }
      assert buffers[..|jobs|] == buffers;
      nMaxEle := j + 1;
    }

    /** Slot k has not been read yet: all records of its stream are still to come. */
    ghost predicate Waiting(k: int)
      requires Shape() && 0 <= k < MAX_HANDLE_THREAD
      reads this`rest, this`nMaxEle, bIsEof, ptrSet, nJobOfStream, jobs
    {
      && bIsEof[k] == (k >= nMaxEle) && ptrSet[k] == (k < nMaxEle)
      && (rest[k] != [] <==> k < nMaxEle)
      && (k < nMaxEle ==> 0 <= nJobOfStream[k] < |jobs| && rest[k] == jobs[nJobOfStream[k]].Unread())
    }

    lemma AllWaiting(k: int)
      requires Shape() && rest == StreamsOf(Buffers(jobs), MAX_HANDLE_THREAD) && nMaxEle == |NonEmpty(Buffers(jobs))|
      requires forall k :: 0 <= k < nMaxEle ==> nJobOfStream[k] == NonEmpty(Buffers(jobs))[k]
      requires forall k :: 0 <= k < MAX_HANDLE_THREAD ==> bIsEof[k] == (k >= nMaxEle) && ptrSet[k] == (k < nMaxEle)
      requires forall s :: 0 <= s < |jobs| ==> jobs[s].recordReadInCurrent == 0
      requires 0 <= k < MAX_HANDLE_THREAD
      ensures Waiting(k)
    {
      hide NonEmpty, StreamsOf;
      StreamAt(Buffers(jobs), MAX_HANDLE_THREAD, k);
    }

    /** Read the first record of the stream of slot k. */
    method FirstRead(k: int)
      requires Shape() && DistinctStreams() && 0 <= k < MAX_HANDLE_THREAD && Waiting(k)
      requires forall l :: k < l < MAX_HANDLE_THREAD ==> Waiting(l)
      requires forall l :: 0 <= l < k ==> SlotOk(l)
      modifies bIsEof, ptrSet, szBufRek, szBufRekTmpFile, jobs
      ensures forall l :: 0 <= l <= k ==> SlotOk(l)
      ensures forall l :: k < l < MAX_HANDLE_THREAD ==> Waiting(l)
      ensures bIsEof[k] <==> rest[k] == []
      ensures Slot(szBufRekTmpFile[k], rest[k]) == Shown(old(szBufRekTmpFile[k]), rest[k])
      ensures forall l :: 0 <= l < MAX_HANDLE_THREAD && l != k ==> szBufRekTmpFile[l] == old(szBufRekTmpFile[l])
    {
      hide Shown, Job.Unread;
      EmptyShown(szBufRekTmpFile[k]);
      ShownRecords(szBufRekTmpFile[k], rest[k]);
      if !bIsEof[k] {
        ReadInto(k);
        ptrSet[k] := ptrSet[k] && !bIsEof[k];
      }
      forall l | 0 <= l < k ensures SlotOk(l) {
        assert old(SlotOk(l));
        assert l < nMaxEle && k < nMaxEle ==> nJobOfStream[l] != nJobOfStream[k];
      }
      forall l | k < l < MAX_HANDLE_THREAD ensures Waiting(l) {
        assert old(Waiting(l));
        assert l < nMaxEle && k < nMaxEle ==> nJobOfStream[l] != nJobOfStream[k];
      }
    }

    /** Read the first record of every stream. */
    method FirstReads()
      requires Shape() && nMaxEle == |NonEmpty(Buffers(jobs))|
      requires forall k :: 0 <= k < nMaxEle ==> nJobOfStream[k] == NonEmpty(Buffers(jobs))[k]
      requires forall k :: 0 <= k < MAX_HANDLE_THREAD ==> bIsEof[k] == (k >= nMaxEle) && ptrSet[k] == (k < nMaxEle)
      requires forall s :: 0 <= s < |jobs| ==> jobs[s].recordReadInCurrent == 0
      modifies this`nSumEof, this`rest, bIsEof, ptrSet, szBufRek, szBufRekTmpFile, jobs
      ensures Valid() && rest == StreamsOf(Buffers(jobs), MAX_HANDLE_THREAD)
      ensures Now() == Opened(rest, old(szBufRekTmpFile[..]))
    {
      hide CountEmpty, NonEmpty, StreamsOf, SlotOk, Waiting, Shown;
      rest := StreamsOf(Buffers(jobs), MAX_HANDLE_THREAD);
      nSumEof := 0;
      NoneCounted(rest);
      forall k | 0 <= k < MAX_HANDLE_THREAD ensures Waiting(k) {
        AllWaiting(k);
      }
      for kj := 0 to MAX_HANDLE_THREAD
        invariant rest == StreamsOf(Buffers(jobs), MAX_HANDLE_THREAD) && nSumEof == CountEmpty(rest[..kj])
        invariant forall k :: 0 <= k < kj ==> SlotOk(k)
        invariant forall k :: kj <= k < MAX_HANDLE_THREAD ==> Waiting(k)
        invariant forall k :: 0 <= k < kj ==>
          Slot(szBufRekTmpFile[k], rest[k]) == Shown(old(szBufRekTmpFile[k]), rest[k])
        invariant forall k :: kj <= k < MAX_HANDLE_THREAD ==> szBufRekTmpFile[k] == old(szBufRekTmpFile[k])
        modifies this`nSumEof, bIsEof, ptrSet, szBufRek, szBufRekTmpFile, jobs
      {
        NextCounted(rest, kj);
        FirstRead(kj);
        nSumEof := nSumEof + if bIsEof[kj] then 1 else 0;
      }
      assert rest[..MAX_HANDLE_THREAD] == rest;
    }

    /** Write a merged record; an empty record would not be written. */
    method Write(rek: Record)
      modifies this`output, this`recordWriteOutTotal
      ensures output == old(output) + if |rek.data| > 0 then [rek] else []
      ensures recordWriteOutTotal == old(recordWriteOutTotal) + if |rek.data| > 0 then 1 else 0
    {
      if |rek.data| > 0 {
        output := output + [rek];
        recordWriteOutTotal := recordWriteOutTotal + 1;
      }
    }

    /** What has been written and discarded of the records merged so far. */
    ghost predicate Accounts()
      reads this`output, this`merged, this`recordWriteOutTotal, this`recordDiscardXSUMTotal
      reads this`previousRecord, this`recordBufferPrevious
    {
      && output == Written(sortFields, sumNone, merged) && recordWriteOutTotal == |output|
      && (sumNone ==> (previousRecord == -1 <==> merged == []))
      && (sumNone && merged != [] ==> recordBufferPrevious == merged[|merged| - 1])
      && (sumNone && xsum ==> recordWriteOutTotal + recordDiscardXSUMTotal == |merged|)
    }

    /** Write the next merged record, or discard it if its key equals that of the one before. */
    method Account(rek: Record)
      requires Accounts() && |rek.data| > 0
      modifies this`output, this`merged, this`recordWriteOutTotal, this`recordDiscardXSUMTotal
      modifies this`previousRecord, this`recordBufferPrevious
      ensures Accounts() && merged == old(merged) + [rek]
    {
      hide Kept;
      KeptNext(sortFields, merged, rek);
      merged := merged + [rek];
      if sumNone {
        var useRecord := true;
        if previousRecord != -1 {
          if CompareRek(sortFields, recordBufferPrevious.data, 0, rek.data, 0, false) == 0 {
            useRecord := false;
          }
        }
        previousRecord := 1;
        recordBufferPrevious := rek;
        if !useRecord {
          if xsum {
            recordDiscardXSUMTotal := recordDiscardXSUMTotal + 1;
          }
          return;
        }
      }
      Write(rek);
    }

    ghost predicate Progress()
      reads this, bIsEof, ptrSet, szBufRek, szBufRekTmpFile, nJobOfStream, jobs
    {
      && Shape() && Valid() && Accounts() && NoEmptyRecord(rest)
      && merged + MergedFrom(sortFields, outputLength, Now()) == goal
    }

    /** What a round of the merge finds: a slot with a record, which is the next that is put out. */
    lemma RoundFacts(p: int)
      requires Valid() && NoEmptyRecord(rest) && nSumEof < MAX_HANDLE_THREAD
      requires p == Best(sortFields, outputLength, Now()) && (p >= 0 ==> p < nMaxEle && rest[p] != [])
      ensures 0 <= p < nMaxEle && rest[p] != [] && !bIsEof[p] && szBufRek[p] == rest[p][0] && |rest[p][0].data| > 0
      ensures NoEmptyRecord(Popped(rest, p)) && Total(Popped(rest, p)) < Total(rest)
      ensures MergedFrom(sortFields, outputLength, Now())
           == [rest[p][0]] + MergedFrom(sortFields, outputLength, Taken(Now(), p))
    {
      hide Total, CountEmpty, SlotOk, DistinctStreams, Best, Now, NoEmptyRecord;
      RestsNow();
      ghost var some := SomeStreamLeft(rest);
      BestNone(sortFields, outputLength, Now());
      SlotFacts(p);
      PopTotal(rest, p);
      PopNoEmpty(rest, p);
    }

    /** One round of the merge loop: a smallest record is written or discarded, and its stream moves on. */
    method MergeRound()
      requires Progress() && nSumEof < MAX_HANDLE_THREAD
      modifies this, bIsEof, ptrSet, szBufRek, szBufRekTmpFile, jobs
      ensures Progress() && Total(rest) < Total(old(rest)) && goal == old(goal)
    {
      hide Total, CountEmpty, SlotOk, Accounts, DistinctStreams, Best, Now, NoEmptyRecord, MergedFrom, Taken;
      var nPosPtr := IdentifyBuf();
      RoundFacts(nPosPtr);
      Account(szBufRek[nPosPtr]);
      Refill(nPosPtr);
    }

    lemma RestsNow()
      requires Shape()
      ensures |Now()| == MAX_HANDLE_THREAD == |rest| && Rests(Now()) == rest
      ensures forall k :: 0 <= k < MAX_HANDLE_THREAD ==> Now()[k].records == rest[k]
    {
    }

    /** Merge all jobs into the output, which with SUM FIELDS=NONE has only the first record of every key. */
    method SaveFinal()
      requires Shape() && Fresh()
      requires forall s, r :: 0 <= s < |jobs| && r in jobs[s].buffertSort ==> |r.data| > 0
      modifies this, bIsEof, ptrSet, szBufRek, szBufRekTmpFile, nJobOfStream, jobs
      ensures var streams := StreamsOf(Buffers(jobs), MAX_HANDLE_THREAD);
        merged == MergedFrom(sortFields, outputLength, Opened(streams, old(szBufRekTmpFile[..])))
      ensures output == Written(sortFields, sumNone, merged) && recordWriteOutTotal == |output|
      ensures sumNone && xsum ==> recordWriteOutTotal + recordDiscardXSUMTotal == |merged|
    {
      hide Total, CountEmpty, Kept, SlotOk, StreamsOf, Valid, NonEmpty, MergedFrom, NoEmptyRecord, Shown;
      BuildStreams();
      FirstReads();
      JobsHaveNoEmpty(jobs);
      NoEmptyFirst(Buffers(jobs));
      goal := MergedFrom(sortFields, outputLength, Now());
      NoneKept(sortFields);
      ghost var slots := Opened(StreamsOf(Buffers(jobs), MAX_HANDLE_THREAD), old(szBufRekTmpFile[..]));
      while nSumEof < MAX_HANDLE_THREAD
        invariant Progress() && goal == MergedFrom(sortFields, outputLength, slots)
        decreases Total(rest)
      {
        MergeRound();
      }
      ValidCount();
      AllRead(rest);
      RestsNow();
      MergedNothing(sortFields, outputLength, Now());
    }
  }

  /** No stream has an empty record. */
  ghost predicate NoEmptyRecord(rest: Streams) {
    forall k, r: Record :: 0 <= k < |rest| && r in rest[k] ==> |r.data| > 0
  }

  lemma EmptyShown(area: Bytes)
    ensures Shown(area, []) == Slot(area, [])
  {
  }

  lemma JobsHaveNoEmpty(jobs: seq<Job>)
    requires forall s, r :: 0 <= s < |jobs| && r in jobs[s].buffertSort ==> |r.data| > 0
    ensures NoEmptyRecord(Buffers(jobs))
  {
  }

  lemma PopNoEmpty(rest: Streams, k: nat)
    requires NoEmptyRecord(rest) && k < |rest| && rest[k] != []
    ensures NoEmptyRecord(Popped(rest, k)) && |rest[k][0].data| > 0
  {
    assert rest[k][0] in rest[k];
  }

  lemma NoEmptyFirst(buffers: Streams)
    requires NoEmptyRecord(buffers)
    ensures NoEmptyRecord(StreamsOf(buffers, MAX_HANDLE_THREAD))
  {
    hide NonEmpty;
    var rest := StreamsOf(buffers, MAX_HANDLE_THREAD);
    forall k, r: Record | 0 <= k < |rest| && r in rest[k] ensures |r.data| > 0 {
      StreamAt(buffers, MAX_HANDLE_THREAD, k);
    }
  }

  lemma {:induction false} AllRead(rest: Streams)
    requires CountEmpty(rest) == |rest|
    ensures forall k :: 0 <= k < |rest| ==> rest[k] == []
  {
    if |rest| > 0 {
      AllRead(rest[..|rest| - 1]);
    }
  }

  lemma MergedNothing(fields: seq<SortField>, l: nat, slots: seq<Slot>)
    requires forall k :: 0 <= k < |slots| ==> slots[k].records == []
    ensures MergedFrom(fields, l, slots) == []
  {
    BestNone(fields, l, slots);
  }

  lemma BestOfNothing(fields: seq<SortField>, l: nat, slots: seq<Slot>)
    ensures Best(fields, l, slots[..0]) == -1
  {
  }

  lemma NoneKept(fields: seq<SortField>)
    ensures Kept(fields, []) == []
  {
  }

  lemma KeptNext(fields: seq<SortField>, merged: seq<Record>, r: Record)
    ensures Kept(fields, merged + [r]) ==
      if merged != [] && CompareKeys(fields, merged[|merged| - 1].data, r.data) == 0 then Kept(fields, merged)
      else Kept(fields, merged) + [r]
  {
    assert (merged + [r])[..|merged|] == merged;
  }

  lemma NoneCounted(rest: Streams)
    ensures CountEmpty(rest[..0]) == 0
  {
  }

  lemma NextCounted(rest: Streams, k: nat)
    requires k < |rest|
    ensures CountEmpty(rest[..k + 1]) == CountEmpty(rest[..k]) + if rest[k] == [] then 1 else 0
  {
    assert rest[..k + 1][..k] == rest[..k];
  }
}
