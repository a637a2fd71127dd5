/**
 How the ESQL precompiler writes a SQL text into the generated COBOL source: as an alphanumeric
 literal with doubled quotation marks, folded at column 72 with continuation lines.
 */
module LiteralFolding {
  import opened Texts

  const LAST_COLUMN := 72
  const CONTINUATION := "      -    "
  const AREA_B := "           "
  const CHUNK := 160

  // ---------- text helpers of the precompiler's string class ----------

  /** Position of the first c at or after start, or -1. */
  method IndexFrom(s: string, c: char, start: int) returns (x: int)
    requires start >= 0
    ensures x >= -1
    ensures x == -1 ==> forall i :: start <= i < |s| ==> s[i] != c
    ensures x != -1 ==> start <= x < |s| && s[x] == c && c !in s[start..x]
  {
    if start >= |s| {
      return -1;
    }
    x := start;
    while x < |s|
      invariant start <= x <= |s| && c !in s[start..x]
    {
      if s[x] == c {
        return;
      }
      x := x + 1;
    }
    return -1;
  }

  // ---------- doubling quotation marks ----------

  function Escape(s: string, q: char): string {
    if |s| == 0 then ""
    else (if s[0] == q then [q, q] else [s[0]]) + Escape(s[1..], q)
  }

  lemma {:induction false} EscapeConcat(a: string, b: string, q: char)
    ensures Escape(a + b, q) == Escape(a, q) + Escape(b, q)
  {
    if |a| == 0 {
      assert a + b == b;
    } else {
      assert (a + b)[1..] == a[1..] + b;
      EscapeConcat(a[1..], b, q);
    }
  }

  /** Insert a second quotation mark in front of every one, stepping over the pair. */
  method DoubleQuotes(s: string, q: char) returns (r: string)
    ensures r == Escape(s, q)
  {
    r := s;
    var k := 0;
    ghost var done := 0;
    while k < |r|
      invariant 0 <= done <= |s| && 0 <= k <= |r|
      invariant r[..k] == Escape(s[..done], q) && r[k..] == s[done..]
      decreases |s| - done
    {
      assert s[..done + 1] == s[..done] + [s[done]];
      EscapeConcat(s[..done], [s[done]], q);
      assert Escape([s[done]], q) == if s[done] == q then [q, q] else [s[done]];
      assert r[k..][1..] == r[k + 1..] && s[done..][1..] == s[done + 1..];
      if r[k] == q {
        r := r[..k] + [q] + r[k..];
        k := k + 1;
      }
      k := k + 1;
      done := done + 1;
    }
    assert r[..k] == r && s[..done] == s;
  }

  // ---------- folding ----------

  /** Parity of the quotation marks in t, starting from `open`. */
  function OpenAfter(open: bool, t: string, q: char): bool
    decreases |t|
  {
    if |t| == 0 then open else OpenAfter(if t[0] == q then !open else open, t[1..], q)
  }

  lemma {:induction false} OpenAfterConcat(open: bool, a: string, b: string, q: char)
    ensures OpenAfter(open, a + b, q) == OpenAfter(OpenAfter(open, a, q), b, q)
    decreases |a|
  {
    if |a| == 0 {
      assert a + b == b;
    } else {
      assert (a + b)[1..] == a[1..] + b;
      OpenAfterConcat(if a[0] == q then !open else open, a[1..], b, q);
    }
  }

  lemma {:induction false} OpenAfterQuoteFree(open: bool, t: string, q: char)
    requires q !in t
    ensures OpenAfter(open, t, q) == open
  {
    if |t| == 0 {
    } else {
      OpenAfterQuoteFree(open, t[1..], q);
    }
  }

  /** Text without quotation marks leaves the parity as it is, a quotation mark toggles it. */
  lemma ParityUpTo(open: bool, line: string, a: int, b: int, q: char)
    requires 7 <= a <= b <= |line| && q !in line[a..b]
    ensures OpenAfter(open, line[7..b], q) == OpenAfter(open, line[7..a], q)
  {
    assert line[7..b] == line[7..a] + line[a..b];
    OpenAfterConcat(open, line[7..a], line[a..b], q);
    OpenAfterQuoteFree(OpenAfter(open, line[7..a], q), line[a..b], q);
  }

  lemma ParityToggles(open: bool, line: string, x: int, q: char)
    requires 7 <= x < |line| && line[x] == q
    ensures OpenAfter(open, line[7..x + 1], q) == !OpenAfter(open, line[7..x], q)
  {
    assert line[7..x + 1] == line[7..x] + [q];
    OpenAfterConcat(open, line[7..x], [q], q);
    assert [q][1..] == "";
  }

  /** What is carried over from a line longer than 72 columns, and whether a quoted pair was split. */
  function Carried(line: string, pairSplit: bool, q: char): (r: (string, bool))
    requires |line| > LAST_COLUMN
    ensures |r.0| <= |line| - LAST_COLUMN + 2
  {
    var s, open := line[LAST_COLUMN..], OpenAfter(pairSplit, line[7..LAST_COLUMN], q);
    if open then ([q] + s, false)
    else if s[0] == q && line[LAST_COLUMN - 1] == q then ([q] + s, true)
    else if s[0] == ' ' || line[LAST_COLUMN - 1] == ' ' then ([q] + ([' '] + s), false)
    else (s, false)
  }

  function Folded(line: string, pairSplit: bool, q: char): seq<string>
    decreases |line|
  {
    if |line| <= LAST_COLUMN then [line]
    else
      var (s, split) := Carried(line, pairSplit, q);
      [line[..LAST_COLUMN]] + Folded((if s == "." then AREA_B else CONTINUATION) + s, split, q)
  }

  // ---------- the entries of a statement ----------

  const STMT_ENTRY := "           05 SQL-STMT   PIC X("
  const FILLER_ENTRY := "           05 FILLER     PIC X("
  const VALUE_IS := ") VALUE "

  /** The text cut behind every 160th character. */
  function Chunks(sql: string): (cs: seq<string>)
    ensures |cs| > 0
    decreases |sql|
  {
    if |sql| <= CHUNK then [sql] else [sql[..CHUNK]] + Chunks(sql[CHUNK..])
  }

  function Clause(entry: string, piece: string, q: char): string {
    entry + Numeral(|piece|) + VALUE_IS + [q] + Escape(piece, q) + [q] + "."
  }

  /** One entry for every piece; all but the first are FILLERs. */
  function EmittedLines(pieces: seq<string>, entry: string, q: char): seq<string>
    decreases |pieces|
  {
    if |pieces| == 0 then []
    else Folded(Clause(entry, pieces[0], q), false, q) + EmittedLines(pieces[1..], FILLER_ENTRY, q)
  }

  lemma EmittedOne(piece: string, entry: string, q: char)
    ensures EmittedLines([piece], entry, q) == Folded(Clause(entry, piece, q), false, q)
  {
    assert [piece][1..] == [];
  }

  lemma EmittedFirst(sql: string, entry: string, q: char)
    ensures EmittedLines(Chunks(sql), entry, q) ==
      if |sql| <= CHUNK then Folded(Clause(entry, sql, q), false, q)
      else Folded(Clause(entry, sql[..CHUNK], q), false, q) + EmittedLines(Chunks(sql[CHUNK..]), FILLER_ENTRY, q)
  {
    hide Folded, Clause;
    if |sql| <= CHUNK {
      EmittedOne(sql, entry, q);
    } else {
      assert Chunks(sql)[1..] == Chunks(sql[CHUNK..]);
    }
  }

  // ---------- the program under construction ----------

  /** `lines` inserted before position n; a position behind the end means the end. */
  function Inserted(src: seq<string>, n: nat, lines: seq<string>): seq<string> {
    var at := if n >= |src| then |src| else n;
    src[..at] + lines + src[at..]
  }

  /** Lines in front of the position stay, then come the new ones, and the others move behind them. */
  lemma InsertedAt(src: seq<string>, n: nat, lines: seq<string>)
    ensures var s, at := Inserted(src, n, lines), if n < |src| then n else |src|;
      && |s| == |src| + |lines|
      && (forall k :: 0 <= k < at ==> s[k] == src[k])
      && (forall k :: 0 <= k < |lines| ==> s[at + k] == lines[k])
      && (forall k :: at <= k < |src| ==> s[k + |lines|] == src[k])
  {
  }

  lemma InsertedNone(src: seq<string>, n: nat)
    ensures Inserted(src, n, []) == src
  {
  }

  lemma InsertedNext(src: seq<string>, n: nat, a: seq<string>, b: seq<string>)
    ensures Inserted(Inserted(src, n, a), n + |a|, b) == Inserted(src, n, a + b)
  {
    var at := if n >= |src| then |src| else n;
    var once := Inserted(src, n, a);
    var at' := if n + |a| >= |once| then |once| else n + |a|;
    assert once[..at'] == src[..at] + a && once[at'..] == src[at..];
  }

  class CobPgm {
    const Q: char
    const bSplit: bool
    var src: seq<string>

    constructor (q: char, split: bool)
      ensures Q == q && bSplit == split && src == []
    {
      Q, bSplit, src := q, split, [];
    }

    method AddLn(nl: nat, v: string)
      modifies this
      ensures src == Inserted(old(src), nl, [v])
      ensures |src| == |old(src)| + 1 && src[if nl < |old(src)| then nl else |old(src)|] == v
      ensures forall k :: 0 <= k < |old(src)| ==> src[if k < nl then k else k + 1] == old(src)[k]
    {
      if nl >= |src| {
        src := src + [v];
      } else {
        src := src[..nl] + [v] + src[nl..];
      }
    }

    /** Is a literal open at column 72, counting quotation marks from column 8? */
    method LiteralOpen(line: string, bQQ: bool) returns (bQ: bool)
      requires |line| > LAST_COLUMN
      ensures bQ == OpenAfter(bQQ, line[7..LAST_COLUMN], Q)
    {
      var spos := 7;
      bQ := bQQ;
      while true
        invariant 7 <= spos <= LAST_COLUMN
        invariant bQ == OpenAfter(bQQ, line[7..spos], Q)
        decreases LAST_COLUMN - spos
      {
        var x := IndexFrom(line, Q, spos);
        if x < 0 || x >= LAST_COLUMN {
          ParityUpTo(bQQ, line, spos, LAST_COLUMN, Q);
          return;
        }
        ParityUpTo(bQQ, line, spos, x, Q);
        ParityToggles(bQQ, line, x, Q);
        spos := x + 1;
        bQ := !bQ;
      }
    }

    /** What to carry over to the next line; `bQQ` says that a doubled quotation mark is being split. */
    method CarryOver(line: string, pairSplit: bool) returns (s: string, bQQ: bool)
      requires |line| > LAST_COLUMN
      ensures (s, bQQ) == Carried(line, pairSplit, Q)
    {
      var bQ := LiteralOpen(line, pairSplit);
      s := line[LAST_COLUMN..];
      bQQ := false;
      if !bQ {
        if s[0] == Q && line[LAST_COLUMN - 1] == Q {
          s := [Q] + s;
          bQQ := true;
        } else if s[0] == ' ' || line[LAST_COLUMN - 1] == ' ' {
          s := [Q] + ([' '] + s);
        }
      } else {
        s := [Q] + s;
      }
    }

    /** Write a line, broken into lines of at most 72 columns. */
    method ProcessFmt(lineno: nat, text: string) returns (next: nat)
      modifies this
      ensures src == Inserted(old(src), lineno, Folded(text, false, Q))
      ensures next == lineno + |Folded(text, false, Q)|
    {
      hide Inserted, Carried;
      next := lineno;
      var line, bQQ := text, false;
      ghost var written: seq<string> := [];
      InsertedNone(src, lineno);
      while |line| > LAST_COLUMN
        invariant src == Inserted(old(src), lineno, written) && next == lineno + |written|
        invariant Folded(text, false, Q) == written + Folded(line, bQQ, Q)
        decreases |line|
      {
        var s;
        s, bQQ := CarryOver(line, bQQ);
        line := line[..LAST_COLUMN];
        InsertedNext(old(src), lineno, written, [line]);
        AddLn(next, line);
        next := next + 1;
        written := written + [line];
        if s == "." {
          line := AREA_B;
        } else {
          line := CONTINUATION;
        }
        line := line + s;
      }
      InsertedNext(old(src), lineno, written, [line]);
      AddLn(next, line);
      next := next + 1;
    }

    /** One entry: its declared length, and the text as a literal with doubled quotation marks. */
    method EmitEntry(lineno: nat, entry: string, piece: string) returns (next: nat)
      modifies this
      ensures src == Inserted(old(src), lineno, Folded(Clause(entry, piece, Q), false, Q))
      ensures next == lineno + |Folded(Clause(entry, piece, Q), false, Q)|
    {
      hide Inserted, Folded, Escape, Numeral;
      var quoted := DoubleQuotes(piece, Q);
      var fl := entry + Numeral(|piece|) + VALUE_IS + [Q] + quoted + [Q] + ".";
      next := ProcessFmt(lineno, fl);
    }

    /** The SQL-STMT entry of a statement, cut into FILLERs of at most 160 characters when asked to. */
    method EmitSql(lineno: nat, sql: string) returns (next: nat)
      modifies this
      ensures src == Inserted(old(src), lineno, EmittedLines(if bSplit then Chunks(sql) else [sql], STMT_ENTRY, Q))
    {
      hide Inserted, Folded, Clause, EmittedLines;
      if bSplit && |sql| > CHUNK {
        next := EmitChunks(lineno, sql);
      } else {
        EmittedOne(sql, STMT_ENTRY, Q);
        next := EmitEntry(lineno, STMT_ENTRY, sql);
      }
    }

    method EmitChunks(lineno: nat, text: string) returns (next: nat)
      modifies this
      ensures src == Inserted(old(src), lineno, EmittedLines(Chunks(text), STMT_ENTRY, Q))
    {
      hide Inserted, Folded, Clause, Chunks, EmittedLines;
      next := lineno;
      var sql, entry := text, STMT_ENTRY;
      ghost var goal := EmittedLines(Chunks(text), STMT_ENTRY, Q);
      ghost var written: seq<string> := [];
      ghost var togo := goal;
      InsertedNone(src, lineno);
      var bProcess := true;
      while bProcess
        invariant src == Inserted(old(src), lineno, written) && next == lineno + |written|
        invariant goal == written + togo
        invariant togo == if bProcess then EmittedLines(Chunks(sql), entry, Q) else []
        decreases bProcess, |sql|
      {
        EmittedFirst(sql, entry, Q);
        var sql1;
        if |sql| > CHUNK {
          sql1 := sql[..CHUNK];
          sql := sql[CHUNK..];
          togo := EmittedLines(Chunks(sql), FILLER_ENTRY, Q);
        } else {
          sql1 := sql;
          bProcess := false;
          togo := [];
        }
        ghost var lines := Folded(Clause(entry, sql1, Q), false, Q);
        InsertedNext(old(src), lineno, written, lines);
        next := EmitEntry(next, entry, sql1);
        written := written + lines;
        entry := FILLER_ENTRY;
      }
      assert goal == written;
    }
  }
}
