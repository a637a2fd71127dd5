/**
 A reader of fixed-form COBOL lines, and the proof that it gets back exactly the SQL text that the
 precompiler folded.

 The reader knows nothing of the writer: it scans columns 8 to 72 character by character, joins a
 line with a hyphen in column 7 to the one before it, and decodes doubled quotation marks. Lines are
 blank-padded to column 72 first, as the fixed-form reference format (section 6 of ISO/IEC 1989:2014) has it.
 */
module LiteralReading {
  import opened Texts
  import opened LiteralFolding
  import DecimalDigits

  /** Where the scan stands; `AfterQuote` is behind a mark that either closes the literal or starts a pair. */
  datatype Scan = Outside | Inside | AfterQuote

  datatype Reading =
    | Reading(scan: Scan, value: string, outside: string)
    | Malformed

  function ReadChar(r: Reading, c: char, q: char): Reading
    requires r.Reading?
  {
    match r.scan
    case Outside =>
      if c == q then r.(scan := Inside) else r.(outside := r.outside + [c])
    case Inside =>
      if c == q then r.(scan := AfterQuote) else r.(value := r.value + [c])
    case AfterQuote =>
      if c == q then r.(scan := Inside, value := r.value + [q])
      else r.(scan := Outside, outside := r.outside + [c])
  }

  function ReadText(r: Reading, t: string, q: char): (r': Reading)
    requires r.Reading?
    ensures r'.Reading?
    decreases |t|
  {
    if |t| == 0 then r else ReadText(ReadChar(r, t[0], q), t[1..], q)
  }

  predicate IsContinuation(line: string) {
    |line| > 6 && line[6] == '-'
  }

  function Padded(line: string): string {
    if |line| >= 72 then line else line + Copies(' ', 72 - |line|)
  }

  function SkipBlanks(t: string): string {
    if |t| > 0 && t[0] == ' ' then SkipBlanks(t[1..]) else t
  }

  /**
   A continuation line goes on with an open literal behind its first quotation mark. When the line
   before it ended in a quotation mark, two marks at its start mean that a pair was split.
   */
  function ReadLine(r: Reading, line: string, q: char): Reading {
    if r.Malformed? then r
    else if IsContinuation(line) then
      var body := SkipBlanks(Padded(line)[7..]);
      if r.scan == Inside then
        if |body| > 0 && body[0] == q then ReadText(r, body[1..], q) else Malformed
      else if r.scan == AfterQuote && |body| > 1 && body[0] == q && body[1] == q then
        ReadText(r, body[1..], q)
      else ReadText(r.(scan := Outside), body, q)
    else if r.scan == Inside then Malformed
    else ReadText(r.(scan := Outside), Padded(line), q)
  }

  function ReadLines(r: Reading, lines: seq<string>, q: char): Reading
    decreases |lines|
  {
    if |lines| == 0 then r else ReadLines(ReadLine(r, lines[0], q), lines[1..], q)
  }

  const START := Reading(Outside, "", "")

  // ---------- scanning ----------

  lemma {:induction false} ReadTextConcat(r: Reading, a: string, b: string, q: char)
    requires r.Reading?
    ensures ReadText(r, a + b, q) == ReadText(ReadText(r, a, q), b, q)
    decreases |a|
  {
    if |a| == 0 {
      assert a + b == b;
    } else {
      assert (a + b)[1..] == a[1..] + b;
      ReadTextConcat(ReadChar(r, a[0], q), a[1..], b, q);
    }
  }

  lemma {:induction false} ReadOutside(r: Reading, t: string, q: char)
    requires r.Reading? && r.scan == Outside && q !in t
    ensures ReadText(r, t, q) == Reading(Outside, r.value, r.outside + t)
    decreases |t|
  {
    if |t| == 0 {
      assert r.outside + t == r.outside;
    } else {
      ReadOutside(ReadChar(r, t[0], q), t[1..], q);
      assert r.outside + [t[0]] + t[1..] == r.outside + t;
    }
  }

  lemma ReadOne(r: Reading, c: char, q: char)
    requires r.Reading?
    ensures ReadText(r, [c], q) == ReadChar(r, c, q)
  {
    assert [c][1..] == "";
  }

  /** One character of the text, doubled if it is a quotation mark. */
  lemma ReadEscapedChar(r: Reading, c: char, q: char)
    requires r.Reading? && r.scan == Inside
    ensures ReadText(r, if c == q then [q, q] else [c], q) == Reading(Inside, r.value + [c], r.outside)
  {
    ReadOne(r, c, q);
    if c == q {
      ReadTextConcat(r, [q], [q], q);
      ReadOne(ReadChar(r, q, q), q, q);
      assert [q, q] == [q] + [q];
    }
  }

  /** Reading doubled quotation marks inside a literal un-doubles them. */
  lemma {:induction false} ReadEscaped(r: Reading, s: string, q: char)
    requires r.Reading? && r.scan == Inside
    ensures ReadText(r, Escape(s, q), q) == Reading(Inside, r.value + s, r.outside)
    decreases |s|
  {
    hide ReadText;
    if |s| == 0 {
      ReadNothing(r, q);
      assert r.value + s == r.value;
    } else {
      var first := if s[0] == q then [q, q] else [s[0]];
      ReadTextConcat(r, first, Escape(s[1..], q), q);
      ReadEscapedChar(r, s[0], q);
      ReadEscaped(Reading(Inside, r.value + [s[0]], r.outside), s[1..], q);
      assert r.value + [s[0]] + s[1..] == r.value + s;
    }
  }

  lemma ReadNothing(r: Reading, q: char)
    requires r.Reading?
    ensures ReadText(r, "", q) == r
  {
  }

  // ---------- the tail of a quoted literal and its final period ----------

  /** `t` finishes a literal that is being scanned in state `scan`, and the period behind it. */
  ghost predicate Tail(scan: Scan, t: string, q: char)
    decreases |t|
  {
    match scan
    case Outside => false
    case Inside => |t| > 0 && Tail(if t[0] == q then AfterQuote else Inside, t[1..], q)
    case AfterQuote => t == "." || (|t| > 0 && t[0] == q && Tail(Inside, t[1..], q))
  }

  function ScanOf(open: bool): Scan {
    if open then Inside else AfterQuote
  }

  lemma {:induction false} TailOfEscaped(s: string, q: char)
    requires q != '.'
    ensures Tail(Inside, Escape(s, q) + [q] + ".", q)
    decreases |s|
  {
    var t := Escape(s, q) + [q] + ".";
    if |s| == 0 {
      assert t == [q] + "." && t[1..] == ".";
    } else {
      TailOfEscaped(s[1..], q);
      var rest := Escape(s[1..], q) + [q] + ".";
      if s[0] == q {
        assert t == [q, q] + rest && t[1..] == [q] + rest && t[1..][1..] == rest;
      } else {
        assert t == [s[0]] + rest && t[1..] == rest;
      }
    }
  }

  /** A proper front of a tail is scanned without leaving the literal, and what is left is a tail again. */
  lemma {:induction false} TailAfter(r: Reading, t: string, k: nat, q: char)
    requires r.Reading? && Tail(r.scan, t, q) && k < |t| && q != '.'
    ensures var r' := ReadText(r, t[..k], q);
      && r'.scan == ScanOf(OpenAfter(r.scan == Inside, t[..k], q))
      && Tail(r'.scan, t[k..], q)
      && (r'.scan == AfterQuote && k > 0 ==> t[k - 1] == q)
      && r'.outside == r.outside
    decreases k
  {
    if k == 0 {
      assert t[..k] == "" && t[k..] == t;
    } else {
      assert r.scan == AfterQuote ==> t[0] == q;
      var r1 := ReadChar(r, t[0], q);
      assert t[..k][1..] == t[1..][..k - 1] && t[k..] == t[1..][k - 1..];
      TailAfter(r1, t[1..], k - 1, q);
    }
  }

  lemma {:induction false} TailRead(r: Reading, t: string, q: char)
    requires r.Reading? && Tail(r.scan, t, q) && q != '.'
    ensures var r' := ReadText(r, t, q);
      r'.scan == Outside && r'.outside == r.outside + "."
    decreases |t|
  {
    if r.scan == AfterQuote && t == "." {
      assert t[1..] == "";
    } else {
      TailRead(ReadChar(r, t[0], q), t[1..], q);
    }
  }

  // ---------- one fold ----------

  /** `head` is what stands in front of the opening quotation mark of a line. */
  ghost predicate Head(head: string, q: char) {
    7 <= |head| < LAST_COLUMN && q !in head
  }

  /** What is left behind the fold: a continuation of the literal, or the period on a line of its own. */
  function Rest(rest: string, k: nat, open: bool, q: char): seq<string>
    requires k <= |rest|
  {
    if !open && rest[k..] == "." then Folded(AREA_B + ".", false, q)
    else Folded(CONTINUATION + ([q] + rest[k..]), !open, q)
  }

  lemma OpensBehindHead(head: string, text: string, pairSplit: bool, q: char)
    requires q !in head
    ensures OpenAfter(pairSplit, head + ([q] + text), q) == OpenAfter(!pairSplit, text, q)
  {
    OpenAfterConcat(pairSplit, head, [q] + text, q);
    OpenAfterQuoteFree(pairSplit, head, q);
    assert ([q] + text)[1..] == text;
  }

  lemma FoldSlices(head: string, q: char, rest: string)
    requires 7 <= |head| < LAST_COLUMN < |head| + 1 + |rest|
    ensures var line, k := head + ([q] + rest), LAST_COLUMN - 1 - |head|;
      && line[..LAST_COLUMN] == head + ([q] + rest[..k]) && line[LAST_COLUMN..] == rest[k..]
      && line[7..LAST_COLUMN] == head[7..] + ([q] + rest[..k])
      && line[LAST_COLUMN - 1] == if k == 0 then q else rest[k - 1]
  {
  }

  lemma FoldStep(head: string, rest: string, pairSplit: bool, q: char)
    requires Head(head, q) && q != '.' && q != ' '
    requires Tail(ScanOf(!pairSplit), rest, q) && (pairSplit ==> rest[0] == q)
    requires |head| + 1 + |rest| > LAST_COLUMN
    ensures var k := LAST_COLUMN - 1 - |head|;
      var open := OpenAfter(!pairSplit, rest[..k], q);
      Folded(head + ([q] + rest), pairSplit, q) == [head + ([q] + rest[..k])] + Rest(rest, k, open, q)
  {
    hide OpenAfter, Tail;
    var line, k := head + ([q] + rest), LAST_COLUMN - 1 - |head|;
    var open := OpenAfter(!pairSplit, rest[..k], q);
    FoldSlices(head, q, rest);
    OpensBehindHead(head[7..], rest[..k], pairSplit, q);
    TailAfter(Reading(ScanOf(!pairSplit), "", ""), rest, k, q);
    if !open && rest[k..] == "." {
      assert Carried(line, pairSplit, q) == (".", false);
    } else {
      assert Carried(line, pairSplit, q) == ([q] + rest[k..], !open);
    }
  }

  // ---------- reading folded lines ----------

  lemma {:induction false} SkipLeading(n: nat, c: char, t: string)
    requires c != ' '
    ensures SkipBlanks(Copies(' ', n) + ([c] + t)) == [c] + t
  {
    if n == 0 {
      assert Copies(' ', 0) + ([c] + t) == [c] + t;
    } else {
      assert (Copies(' ', n) + ([c] + t))[1..] == Copies(' ', n - 1) + ([c] + t);
      SkipLeading(n - 1, c, t);
    }
  }

  lemma PaddedContinuation(text: string)
    ensures var line := CONTINUATION + text;
      && IsContinuation(line) && |Padded(line)| >= LAST_COLUMN
      && Padded(line)[7..] == Copies(' ', 4) + (text + Copies(' ', if |text| >= 61 then 0 else 61 - |text|))
  {
    assert CONTINUATION[7..] == Copies(' ', 4);
  }

  lemma ReadContinuation(r: Reading, text: string, q: char)
    requires r.Reading? && r.scan != Outside && q != ' '
    requires r.scan == AfterQuote ==> |text| > 0 && text[0] == q
    ensures ReadLine(r, CONTINUATION + ([q] + text), q)
         == ReadText(r, text + Copies(' ', if |text| >= 60 then 0 else 60 - |text|), q)
  {
    hide ReadText, SkipBlanks, Padded, IsContinuation;
    var m := if |text| >= 60 then 0 else 60 - |text|;
    PaddedContinuation([q] + text);
    SkipLeading(4, q, text + Copies(' ', m));
    assert [q] + text + Copies(' ', m) == [q] + (text + Copies(' ', m));
    assert ([q] + (text + Copies(' ', m)))[1..] == text + Copies(' ', m);
  }

  lemma ReadPeriodLine(r: Reading, q: char)
    requires r.Reading? && r.scan != Inside && q != '.' && q != ' '
    ensures ReadLine(r, AREA_B + ".", q)
      == Reading(Outside, r.value, r.outside + (Copies(' ', 11) + "." + Copies(' ', 60)))
  {
    var line := AREA_B + ".";
    assert Padded(line) == Copies(' ', 11) + "." + Copies(' ', 60);
    ReadOutside(r.(scan := Outside), Padded(line), q);
  }

  lemma FoldedShort(line: string, pairSplit: bool, q: char)
    requires |line| <= LAST_COLUMN
    ensures Folded(line, pairSplit, q) == [line]
  {
  }

  lemma ReadOneLine(r: Reading, line: string, q: char)
    ensures ReadLines(r, [line], q) == ReadLine(r, line, q)
  {
    assert [line][1..] == [];
  }

  lemma ReadNextLine(r: Reading, line: string, lines: seq<string>, q: char)
    ensures ReadLines(r, [line] + lines, q) == ReadLines(ReadLine(r, line, q), lines, q)
  {
    assert ([line] + lines)[1..] == lines;
  }

  /** Trailing blanks of the last line stay outside the literal. */
  lemma ReadTailPadded(r: Reading, t: string, m: nat, q: char)
    requires r.Reading? && Tail(r.scan, t, q) && q != '.' && q != ' '
    ensures ReadText(r, t + Copies(' ', m), q)
         == Reading(Outside, ReadText(r, t, q).value, r.outside + (Copies(' ', 0) + "." + Copies(' ', m)))
  {
    ReadTextConcat(r, t, Copies(' ', m), q);
    TailRead(r, t, q);
    ReadOutside(ReadText(r, t, q), Copies(' ', m), q);
    assert r.outside + "." + Copies(' ', m) == r.outside + (Copies(' ', 0) + "." + Copies(' ', m));
  }

  /**
   Reading continuation lines has the effect of scanning the unfolded rest of the literal; the final
   period is found behind it, with nothing but blanks around it.
   */
  lemma {:induction false} ReadFolded(r: Reading, rest: string, pairSplit: bool, q: char) returns (k: nat, m: nat)
    requires r.Reading? && r.scan == ScanOf(!pairSplit) && q != '.' && q != ' '
    requires q !in CONTINUATION
    requires Tail(r.scan, rest, q) && (pairSplit ==> rest[0] == q)
    ensures ReadLines(r, Folded(CONTINUATION + ([q] + rest), pairSplit, q), q)
         == Reading(Outside, ReadText(r, rest, q).value, r.outside + (Copies(' ', k) + "." + Copies(' ', m)))
    decreases |rest|, 0
  {
    hide ReadText, Folded, ReadLine, Escape;
    if |rest| <= 60 {
      FoldedShort(CONTINUATION + ([q] + rest), pairSplit, q);
      k, m := 0, 60 - |rest|;
      ReadOneLine(r, CONTINUATION + ([q] + rest), q);
      ReadContinuation(r, rest, q);
      ReadTailPadded(r, rest, m, q);
    } else {
      var front, back := rest[..60], rest[60..];
      var line := CONTINUATION + ([q] + front);
      FoldStep(CONTINUATION, rest, pairSplit, q);
      ReadContinuation(r, front, q);
      assert front + Copies(' ', 0) == front;
      k, m := ReadRest(r, rest, 60, q);
      ReadNextLine(r, line, Rest(rest, 60, OpenAfter(!pairSplit, front, q), q), q);
    }
  }

  /** The lines behind a fold, read from the state reached at the fold. */
  lemma {:induction false} ReadRest(r: Reading, rest: string, at: nat, q: char) returns (k: nat, m: nat)
    requires r.Reading? && q != '.' && q != ' ' && q !in CONTINUATION
    requires Tail(r.scan, rest, q) && at < |rest|
    requires at > 0 || r.scan == Inside
    ensures var open := OpenAfter(r.scan == Inside, rest[..at], q);
      ReadLines(ReadText(r, rest[..at], q), Rest(rest, at, open, q), q)
      == Reading(Outside, ReadText(r, rest, q).value, r.outside + (Copies(' ', k) + "." + Copies(' ', m)))
    decreases |rest| - at, 1
  {
    hide ReadText, Folded, ReadLine, Escape;
    var front, back := rest[..at], rest[at..];
    assert rest == front + back;
    ReadTextConcat(r, front, back, q);
    TailAfter(r, rest, at, q);
    var r1 := ReadText(r, front, q);
    if r1.scan == AfterQuote && back == "." {
      k, m := 11, 60;
      FoldedShort(AREA_B + ".", false, q);
      ReadOneLine(r1, AREA_B + ".", q);
      ReadPeriodLine(r1, q);
      ReadOne(r1, '.', q);
    } else {
      k, m := ReadFolded(r1, back, r1.scan == AfterQuote, q);
    }
  }

  // ---------- whole literals ----------

  /** Scanning what the writer put behind the opening quotation mark gives the text itself. */
  lemma ReadQuoted(r: Reading, s: string, q: char)
    requires r.Reading? && r.scan == Inside && q != '.'
    ensures ReadText(r, Escape(s, q) + [q] + ".", q) == Reading(Outside, r.value + s, r.outside + ".")
  {
    hide ReadText, Escape;
    var r1 := Reading(Inside, r.value + s, r.outside);
    ReadTextConcat(r, Escape(s, q) + [q], ".", q);
    ReadTextConcat(r, Escape(s, q), [q], q);
    ReadEscaped(r, s, q);
    ReadOne(r1, q, q);
    ReadOne(ReadChar(r1, q, q), '.', q);
  }

  /** The part of an entry up to column 72, read from the state the lines before it left. */
  lemma ReadFirstLine(r: Reading, head: string, text: string, q: char)
    requires r.Reading? && r.scan == Outside && Head(head, q) && !IsContinuation(head)
    ensures ReadLine(r, head + ([q] + text), q)
         == ReadText(Reading(Inside, r.value, r.outside + head),
                     text + Copies(' ', if |head| + 1 + |text| >= 72 then 0 else 71 - |head| - |text|), q)
  {
    hide ReadText;
    var line := head + ([q] + text);
    var more := text + Copies(' ', if |head| + 1 + |text| >= 72 then 0 else 71 - |head| - |text|);
    assert Padded(line) == head + ([q] + more);
    ReadTextConcat(r, head, [q] + more, q);
    ReadOutside(r, head, q);
    ReadTextConcat(Reading(Outside, r.value, r.outside + head), [q], more, q);
    ReadOne(Reading(Outside, r.value, r.outside + head), q, q);
  }

  /**
   Every text survives: doubling its quotation marks, folding the entry at column 72 and reading the
   lines gives back exactly the text as the value of the literal, with the entry's head before it and
   the period behind it.
   */
  lemma ReadBack(r: Reading, head: string, s: string, q: char) returns (k: nat, m: nat)
    requires r.Reading? && r.scan == Outside && Head(head, q) && !IsContinuation(head)
    requires q != '.' && q != ' ' && q !in CONTINUATION
    ensures ReadLines(r, Folded(head + [q] + Escape(s, q) + [q] + ".", false, q), q)
         == Reading(Outside, r.value + s, r.outside + head + (Copies(' ', k) + "." + Copies(' ', m)))
  {
    hide ReadText, Folded, ReadLine, Escape;
    var rest := Escape(s, q) + [q] + ".";
    var line := head + ([q] + rest);
    var r0 := Reading(Inside, r.value, r.outside + head);
    assert line == head + [q] + Escape(s, q) + [q] + ".";
    TailOfEscaped(s, q);
    ReadQuoted(r0, s, q);
    if |line| <= LAST_COLUMN {
      k, m := 0, LAST_COLUMN - |line|;
      FoldedShort(line, false, q);
      ReadOneLine(r, line, q);
      ReadFirstLine(r, head, rest, q);
      ReadTailPadded(r0, rest, m, q);
    } else {
      var at := LAST_COLUMN - 1 - |head|;
      FoldStep(head, rest, false, q);
      ReadFirstLine(r, head, rest[..at], q);
      assert rest[..at] + Copies(' ', 0) == rest[..at];
      k, m := ReadRest(r0, rest, at, q);
      ReadNextLine(r, head + ([q] + rest[..at]), Rest(rest, at, OpenAfter(true, rest[..at], q), q), q);
    }
  }

  /** No emitted line passes column 72, and every line but the last fills it. */
  lemma {:induction false} FoldedWidth(line: string, pairSplit: bool, q: char)
    ensures var f := Folded(line, pairSplit, q);
      && |f| > 0
      && |f[|f| - 1]| <= 72
      && forall i :: 0 <= i < |f| - 1 ==> |f[i]| == 72
    decreases |line|
  {
    if |line| <= LAST_COLUMN {
    } else {
      var (s, split) := Carried(line, pairSplit, q);
      FoldedWidth((if s == "." then AREA_B else CONTINUATION) + s, split, q);
    }
  }

  // ---------- statements cut into chunks ----------

  function Joined(pieces: seq<string>): string {
    if |pieces| == 0 then "" else pieces[0] + Joined(pieces[1..])
  }

  lemma JoinedOne(piece: string)
    ensures Joined([piece]) == piece
  {
    assert [piece][1..] == [];
  }

  function TotalLength(pieces: seq<string>): nat {
    if |pieces| == 0 then 0 else |pieces[0]| + TotalLength(pieces[1..])
  }

  /** The chunks make up the statement, and their lengths its length; all but the last are of 160 characters. */
  lemma {:induction false} ChunksJoin(sql: string)
    ensures Joined(Chunks(sql)) == sql
    ensures TotalLength(Chunks(sql)) == |sql|
    ensures forall i :: 0 <= i < |Chunks(sql)| - 1 ==> |Chunks(sql)[i]| == 160
    ensures |Chunks(sql)[|Chunks(sql)| - 1]| <= 160
    decreases |sql|
  {
    if |sql| <= CHUNK {
      assert Chunks(sql)[1..] == [];
    } else {
      ChunksJoin(sql[CHUNK..]);
      assert Chunks(sql)[1..] == Chunks(sql[CHUNK..]);
      assert sql == sql[..CHUNK] + sql[CHUNK..];
    }
  }

  function Number(d: string): int {
    if |d| == 0 then 0 else 10 * Number(d[..|d| - 1]) + (d[|d| - 1] as int - '0' as int)
  }

  /** A declared length reads back as the length, in no more than w digits for numbers below 10^w. */
  lemma {:induction false} DecimalReads(n: nat)
    ensures Number(Numeral(n)) == n
  {
    if n < 10 {
      assert Numeral(n)[..0] == "";
    } else {
      DecimalReads(n / 10);
      assert Numeral(n)[..|Numeral(n)| - 1] == Numeral(n / 10);
    }
  }

  lemma {:induction false} DecimalWidth(n: nat, w: nat)
    requires w >= 1 && n < DecimalDigits.Pow10(w)
    ensures |Numeral(n)| <= w
  {
    if n < 10 {
    } else {
      DecimalWidth(n / 10, w - 1);
    }
  }

  /** A length that fits a 32-bit integer leaves the entry's head well in front of column 72. */
  lemma EntryHead(entry: string, n: nat, q: char)
    requires entry == STMT_ENTRY || entry == FILLER_ENTRY
    requires IsQuote(q) && n < 0x8000_0000
    ensures var head := entry + Numeral(n) + VALUE_IS;
      Head(head, q) && !IsContinuation(head)
  {
    assert n < DecimalDigits.Pow10(10) by {
      assert DecimalDigits.Pow10(2) == 100;
      assert DecimalDigits.Pow10(4) == 1_0000;
      assert DecimalDigits.Pow10(6) == 100_0000;
      assert DecimalDigits.Pow10(8) == 1_0000_0000;
    }
    DecimalWidth(n, 10);
    QuoteFreeWords(q);
    assert entry[6] == ' ';
  }

  lemma QuoteFreeWords(q: char)
    requires IsQuote(q)
    ensures q !in STMT_ENTRY && q !in FILLER_ENTRY && q !in VALUE_IS && q !in CONTINUATION
  {
  }

  lemma {:induction false} ReadLinesConcat(r: Reading, a: seq<string>, b: seq<string>, q: char)
    ensures ReadLines(r, a + b, q) == ReadLines(ReadLines(r, a, q), b, q)
    decreases |a|
  {
    if |a| == 0 {
      assert a + b == b;
    } else {
      assert (a + b)[1..] == a[1..] + b;
      ReadLinesConcat(ReadLine(r, a[0], q), a[1..], b, q);
    }
  }

  /** Read in one go, the entries of all pieces give the pieces' concatenation as their value. */
  lemma {:induction false} ReadEmitted(r: Reading, pieces: seq<string>, entry: string, q: char)
    requires r.Reading? && r.scan == Outside
    requires entry == STMT_ENTRY || entry == FILLER_ENTRY
    requires IsQuote(q)
    requires forall i :: 0 <= i < |pieces| ==> |pieces[i]| < 0x8000_0000
    ensures var r' := ReadLines(r, EmittedLines(pieces, entry, q), q);
      r'.Reading? && r'.scan == Outside && r'.value == r.value + Joined(pieces)
    decreases |pieces|
  {
    hide Folded, ReadLine, Escape, Numeral;
    if |pieces| == 0 {
      assert r.value + Joined(pieces) == r.value;
    } else {
      var first, more := pieces[0], EmittedLines(pieces[1..], FILLER_ENTRY, q);
      var head := entry + Numeral(|first|) + VALUE_IS;
      EntryHead(entry, |first|, q);
      QuoteFreeWords(q);
      ReadLinesConcat(r, Folded(Clause(entry, first, q), false, q), more, q);
      var k, m := ReadBack(r, head, first, q);
      var r1 := Reading(Outside, r.value + first, r.outside + head + (Copies(' ', k) + "." + Copies(' ', m)));
      ReadEmitted(r1, pieces[1..], FILLER_ENTRY, q);
      assert r.value + first + Joined(pieces[1..]) == r.value + Joined(pieces);
    }
  }

  /** Cut or not, the emitted lines of a statement read back as the statement. */
  lemma ReadEmittedSql(sql: string, split: bool, q: char)
    requires IsQuote(q)
    requires |sql| < 0x8000_0000
    ensures var r := ReadLines(START, EmittedLines(if split then Chunks(sql) else [sql], STMT_ENTRY, q), q);
      r.Reading? && r.scan == Outside && r.value == sql
  {
    hide Joined, Chunks, EmittedLines, ReadLines;
    var pieces := if split then Chunks(sql) else [sql];
    ChunksJoin(sql);
    JoinedOne(sql);
    ReadEmitted(START, pieces, STMT_ENTRY, q);
  }
}
