/** The bulk-INSERT converter of dbexport (convertInsertQuery_To_BulkInsertQuery).
    A file is a sequence of lines. Each input line is normally a one-row
    `INSERT INTO t (cols) VALUES (...);`; the output groups rows under one shared
    `INSERT INTO t (cols) VALUES` header per batch. The converter's per-line
    behaviour is the pure function `Step`, folded over the input by `Run`;
    `ConvertToBulk` is the loop itself, proved to compute `BulkConvert`. */
module BulkInsert {
  import opened GoStrings
  import opened Optional

  const INSERT_INTO := "INSERT INTO"
  const VALUES := "VALUES"
  /** A new batch is started when the line counter reaches a multiple of this. */
  const ROWS_PER_BATCH := 1000
  /** ... or when the byte counter reaches this (about 4MB per statement). */
  const MAX_BATCH_BYTES := 3900000

  // ---------------------------------------------------------------------------
  // Statement rewriter and terminator fixup

  /** The text after the first `VALUES` of a line. */
  function AfterValues(line: string): (r: string)
    requires Contains(line, VALUES)
    ensures |r| <= |line| - |VALUES|
  {
    line[Index(line, VALUES) + |VALUES|..]
  }

  /** convertInsertIntoLine: drop the `INSERT INTO ... VALUES` part of a line and
      turn its final `);` into `),`. */
  function ConvertInsertIntoLine(line: string): (r: string)
    ensures !(Contains(line, INSERT_INTO) && Contains(line, VALUES)) ==> r == ""
    ensures Contains(line, INSERT_INTO) && Contains(line, VALUES) ==>
      var rest := AfterValues(line);
      (!Contains(rest, ");") ==> r == rest)
      && (Contains(rest, ");") ==>
            2 <= |r| <= |rest| + 1 && r[|r| - 1] == ',' && r[..|r| - 1] == rest[..|r| - 1]
            && OccursAt(rest, ");", |r| - 2)
            && forall k :: |r| - 2 < k ==> !OccursAt(rest, ");", k))
  {
    var startidx := Index(line, INSERT_INTO);
    if startidx >= 0 then
      var endidx := Index(line, VALUES);
      if endidx >= 0 then
        var retline := line[endidx + |VALUES|..];
        var lastidx := LastIndex(retline, ");");
        if lastidx >= 0 then retline[..lastidx + 1] + "," else retline
      else ""
    else ""
  }

  /** A line with both keywords is rewritten from its text after `VALUES`. */
  lemma ConvertAfterValues(line: string)
    requires Contains(line, INSERT_INTO) && Contains(line, VALUES)
    ensures var rest := AfterValues(line);
      ConvertInsertIntoLine(line)
      == if LastIndex(rest, ");") >= 0 then rest[..LastIndex(rest, ");") + 1] + "," else rest
  {
  }

  /** The line ends in `),`, or in `),` followed by one more character. */
  predicate EndsRow(line: string)
  {
    (|line| >= 2 && line[|line| - 2..] == "),") || (|line| >= 3 && line[|line| - 3..|line| - 1] == "),")
  }

  /** The terminator fixup written out three times in the source: a line longer
      than three characters whose last `),` starts within its last three
      characters gets its final character replaced by `;`. */
  function FixTerminator(line: string): (r: string)
    ensures |r| == |line|
    ensures r == if |line| > 3 && EndsRow(line) then line[..|line| - 1] + ";" else line
  {
    var n := |line|;
    var idx := LastIndex(line, "),");
    assert n > 3 ==> (idx >= n - 3 <==> OccursAt(line, "),", n - 2) || OccursAt(line, "),", n - 3));
    if n > 3 && idx >= n - 3 then line[..n - 1] + ";" else line
  }

  /** The fixup at end of stream: a last line with `VALUES` after its first
      character has its final character made `;` unconditionally; any other last
      line gets the ordinary fixup. */
  function EndFixup(line: string): (r: string)
    ensures |r| == |line|
    ensures |line| > 0 ==> r[..|r| - 1] == line[..|line| - 1]
  {
    if Index(line, VALUES) > 0 then line[..|line| - 1] + ";" else FixTerminator(line)
  }

  /** Apply the terminator fixup to the last line of a non-empty buffer. */
  function FixLast(lines: seq<string>): (r: seq<string>)
    requires |lines| > 0
    ensures |r| == |lines| && r[..|r| - 1] == lines[..|lines| - 1]
  {
    lines[..|lines| - 1] + [FixTerminator(lines[|lines| - 1])]
  }

  /** The fixed-up buffer ends with the old last line given the terminator
      fixup. */
  lemma FixedLast(lines: seq<string>)
    requires |lines| > 0
    ensures var r := FixLast(lines); r[|r| - 1] == FixTerminator(lines[|lines| - 1])
  {
  }

  // ---------------------------------------------------------------------------
  // The batch state machine

  /** The converter's loop variables: the open batch's header (`""` when none is
      open), the line and byte counters, and the output buffer `bulklines`. */
  datatype ConvState = ConvState(insertStatement: string, lineCount: int, bytesCount: int, bulklines: seq<string>)

  const START := ConvState("", 0, 0, [])

  /** An open batch always has an output line to fix up. */
  predicate WellFormed(s: ConvState)
  {
    s.insertStatement != "" ==> |s.bulklines| > 0
  }

  /** `VALUES` starts early enough that the header slice is not backwards. */
  predicate HeaderSliceOk(line: string)
  {
    Contains(line, INSERT_INTO) && Contains(line, VALUES)
    && Index(line, INSERT_INTO) <= Index(line, VALUES) + |VALUES|
  }

  /** The header taken from a line: from its first `INSERT INTO` to the end of
      its first `VALUES`. */
  function HeaderOf(line: string): (h: string)
    requires HeaderSliceOk(line)
  {
    line[Index(line, INSERT_INTO)..Index(line, VALUES) + |VALUES|]
  }

  /** With no batch open, a line with both keywords but `INSERT INTO` after the
      end of `VALUES` makes the source's header slice panic. */
  predicate CapturePanics(s: ConvState, line: string)
  {
    s.insertStatement == "" && Contains(line, INSERT_INTO) && Contains(line, VALUES)
    && !HeaderSliceOk(line)
  }

  /** The first half of a loop iteration (main_dbexport.go:453-483): count the
      line, and when a batch is open and a limit is reached, close the batch and
      open a new one under the same header. The flag says whether that happened. */
  function Advance(s: ConvState, line: string): (r: (ConvState, bool))
    requires WellFormed(s)
    ensures WellFormed(r.0) && r.0.insertStatement == s.insertStatement
    ensures |r.0.bulklines| == |s.bulklines| + (if r.1 then 1 else 0)
  {
    var lineCount := s.lineCount + 1;
    var bytesCount := s.bytesCount + |line|;
    if s.insertStatement != "" && (lineCount % ROWS_PER_BATCH == 0 || bytesCount >= MAX_BATCH_BYTES) then
      (ConvState(s.insertStatement, 0, 0, FixLast(s.bulklines) + [s.insertStatement]), true)
    else
      (ConvState(s.insertStatement, lineCount, bytesCount, s.bulklines), false)
  }

  /** The second half (main_dbexport.go:485-536): an `INSERT INTO` line may open
      a batch (header captured and emitted) and is appended rewritten; any other
      line closes the open batch, drops a header the first half has just
      emitted, and is appended unchanged. */
  function Place(u: ConvState, added: bool, line: string): (t: ConvState)
    requires WellFormed(u) && !CapturePanics(u, line)
    requires added ==> u.insertStatement != ""
    ensures WellFormed(t) && |t.bulklines| >= |u.bulklines| + (if added then 0 else 1)
  {
    if Index(line, INSERT_INTO) >= 0 then
      var capture := u.insertStatement == "" && Index(line, VALUES) >= 0;
      var header := if capture then HeaderOf(line) else u.insertStatement;
      var lines := if capture then u.bulklines + [header] else u.bulklines;
      ConvState(header, u.lineCount, u.bytesCount, lines + [ConvertInsertIntoLine(line)])
    else if u.insertStatement != "" then
      var fixed := FixLast(u.bulklines);
      var lines := if added && Index(fixed[|fixed| - 1], INSERT_INTO) == 0 then fixed[..|fixed| - 1] else fixed;
      ConvState("", 0, u.bytesCount, lines + [line])
    else
      ConvState(u.insertStatement, u.lineCount, u.bytesCount, u.bulklines + [line])
  }

  /** The placing half always ends the buffer with the line itself: rewritten
      when it holds `INSERT INTO`, verbatim otherwise. */
  lemma PlacedLast(u: ConvState, added: bool, line: string)
    requires WellFormed(u) && !CapturePanics(u, line)
    requires added ==> u.insertStatement != ""
    ensures var t := Place(u, added, line);
      t.bulklines[|t.bulklines| - 1] == if Contains(line, INSERT_INTO) then ConvertInsertIntoLine(line) else line
  {
  }

  /** One iteration of the conversion loop (main_dbexport.go:452-537). */
  function Step(s: ConvState, line: string): (t: ConvState)
    requires WellFormed(s) && !CapturePanics(s, line)
    ensures WellFormed(t) && |t.bulklines| >= |s.bulklines| + 1
  {
    var (u, added) := Advance(s, line);
    Place(u, added, line)
  }

  /** The state after the loop has consumed `lines`, or None if the source
      panics on the way (a backwards header slice). */
  function Run(lines: seq<string>): (r: Option<ConvState>)
    ensures r.Some? ==> WellFormed(r.value) && |r.value.bulklines| >= |lines|
  {
    if |lines| == 0 then Some(START)
    else
      match Run(lines[..|lines| - 1])
      case None => None
      case Some(s) =>
        var line := lines[|lines| - 1];
        if CapturePanics(s, line) then None else Some(Step(s, line))
  }

  /** A run that does not panic on `lines` does not panic on any prefix. */
  lemma {:induction false} RunPrefix(lines: seq<string>, k: nat)
    requires k <= |lines| && Run(lines).Some?
    ensures Run(lines[..k]).Some?
    decreases |lines|
  {
    if k < |lines| {
      var init := lines[..|lines| - 1];
      assert init[..k] == lines[..k];
      RunPrefix(init, k);
    } else {
      assert lines[..k] == lines;
    }
  }

  /** Consuming one more line is one more Step. */
  lemma RunStep(lines: seq<string>, i: nat)
    requires i < |lines| && Run(lines).Some?
    ensures Run(lines[..i]).Some? && !CapturePanics(Run(lines[..i]).value, lines[i])
    ensures Run(lines[..i + 1]) == Some(Step(Run(lines[..i]).value, lines[i]))
  {
    RunPrefix(lines, i + 1);
    RunPrefixStep(lines, i);
  }

  /** The same, for a run known not to panic up to line `i`. */
  lemma RunPrefixStep(lines: seq<string>, i: nat)
    requires i < |lines| && Run(lines[..i + 1]).Some?
    ensures Run(lines[..i]).Some? && !CapturePanics(Run(lines[..i]).value, lines[i])
    ensures Run(lines[..i + 1]) == Some(Step(Run(lines[..i]).value, lines[i]))
  {
    var p := lines[..i + 1];
    assert p[..|p| - 1] == lines[..i];
    assert p[|p| - 1] == lines[i];
    RunLast(p);
  }

  /** The last line of a non-empty input is one Step after the rest. */
  lemma RunLast(lines: seq<string>)
    requires |lines| > 0 && Run(lines).Some?
    ensures Run(lines[..|lines| - 1]).Some?
    ensures !CapturePanics(Run(lines[..|lines| - 1]).value, lines[|lines| - 1])
    ensures Run(lines) == Some(Step(Run(lines[..|lines| - 1]).value, lines[|lines| - 1]))
  {
  }

  // ---------------------------------------------------------------------------
  // What one iteration does, case by case

  /** A captured header is empty (when `INSERT INTO` starts right after the
      `VALUES`) or runs from an `INSERT INTO` to a `VALUES`. */
  predicate HeaderShaped(h: string)
  {
    h == [] || (|h| >= |INSERT_INTO| + |VALUES| && HasPrefix(h, INSERT_INTO) && h[|h| - |VALUES|..] == VALUES)
  }

  /** The two keywords cannot overlap, so the header slice either starts after
      the whole `INSERT INTO` and before `VALUES`, or is empty. */
  lemma HeaderShape(line: string)
    requires HeaderSliceOk(line)
    ensures HeaderShaped(HeaderOf(line))
  {
    var a := Index(line, INSERT_INTO);
    var v := Index(line, VALUES);
    KeywordsApart(line, a, v);
    if a + |INSERT_INTO| <= v {
      assert HeaderOf(line) == line[a..v + |VALUES|];
      HeaderSlice(line, a, v);
    } else {
      assert HeaderOf(line) == [];
    }
  }

  /** Occurrences of the two keywords do not overlap: no character of
      `INSERT INTO` is a `V`, and no character of `VALUES` is an `I`. */
  lemma KeywordsApart(line: string, a: int, v: int)
    requires OccursAt(line, INSERT_INTO, a) && OccursAt(line, VALUES, v)
    ensures a + |INSERT_INTO| <= v || v + |VALUES| <= a
  {
    if a <= v < a + |INSERT_INTO| {
      OccurrenceChar(line, INSERT_INTO, a, v);
      OccurrenceChar(line, VALUES, v, v);
      assert false;
    } else if v <= a < v + |VALUES| {
      OccurrenceChar(line, VALUES, v, a);
      OccurrenceChar(line, INSERT_INTO, a, a);
      assert false;
    }
  }

  /** A slice from an `INSERT INTO` to the end of a later `VALUES` starts with
      the one and ends with the other. */
  lemma HeaderSlice(line: string, a: int, v: int)
    requires OccursAt(line, INSERT_INTO, a) && OccursAt(line, VALUES, v) && a + |INSERT_INTO| <= v
    ensures HeaderShaped(line[a..v + |VALUES|])
  {
    var h := line[a..v + |VALUES|];
    assert h[..|INSERT_INTO|] == line[a..a + |INSERT_INTO|];
    assert h[|h| - |VALUES|..] == line[v..v + |VALUES|];
  }

  /** A header is never touched by the terminator fixup. */
  lemma HeaderUnchanged(h: string)
    requires HeaderShaped(h)
    ensures FixTerminator(h) == h
  {
    if h != [] {
      var n := |h|;
      assert h[n - 2..] == h[n - |VALUES|..][4..];
      assert h[n - 3..n - 1] == h[n - |VALUES|..][3..5];
    }
  }

  /** Every header the loop holds has that shape. */
  lemma {:induction false} RunHeaderShaped(lines: seq<string>)
    requires Run(lines).Some?
    ensures HeaderShaped(Run(lines).value.insertStatement)
    decreases |lines|
  {
    if |lines| > 0 {
      var init := lines[..|lines| - 1];
      var line := lines[|lines| - 1];
      RunHeaderShaped(init);
      var s := Run(init).value;
      var (u, added) := Advance(s, line);
      if Index(line, INSERT_INTO) >= 0 && u.insertStatement == "" && Index(line, VALUES) >= 0 {
        HeaderShape(line);
      }
    }
  }

  /** No batch open and a line that is neither a row nor a header: it is
      appended and counted, nothing else happens. */
  lemma PlainStep(s: ConvState, line: string)
    requires WellFormed(s) && s.insertStatement == "" && !Contains(line, INSERT_INTO)
    ensures Step(s, line) == ConvState("", s.lineCount + 1, s.bytesCount + |line|, s.bulklines + [line])
  {
  }

  /** Header capture (main_dbexport.go:486-497): with no batch open, a line
      holding both keywords opens a batch under its header, which is emitted
      once, directly before the line's tuple. */
  lemma HeaderCapture(s: ConvState, line: string)
    requires WellFormed(s) && s.insertStatement == "" && HeaderSliceOk(line)
    ensures Step(s, line) == ConvState(HeaderOf(line), s.lineCount + 1, s.bytesCount + |line|,
                                       s.bulklines + [HeaderOf(line), ConvertInsertIntoLine(line)])
  {
  }

  /** With no batch open, an `INSERT INTO` line without `VALUES` opens nothing
      and contributes an empty line. */
  lemma NoValuesStep(s: ConvState, line: string)
    requires WellFormed(s) && s.insertStatement == "" && Contains(line, INSERT_INTO) && !Contains(line, VALUES)
    ensures Step(s, line) == ConvState("", s.lineCount + 1, s.bytesCount + |line|, s.bulklines + [""])
  {
  }

  /** The flush condition of main_dbexport.go:461, on the state before the line. */
  predicate Flushes(s: ConvState, line: string)
  {
    s.insertStatement != ""
    && ((s.lineCount + 1) % ROWS_PER_BATCH == 0 || s.bytesCount + |line| >= MAX_BATCH_BYTES)
  }

  /** A row of the open batch below the limits is appended as its tuple. */
  lemma RowStep(s: ConvState, line: string)
    requires WellFormed(s) && s.insertStatement != "" && !Flushes(s, line) && Contains(line, INSERT_INTO)
    ensures Step(s, line) == ConvState(s.insertStatement, s.lineCount + 1, s.bytesCount + |line|,
                                       s.bulklines + [ConvertInsertIntoLine(line)])
  {
  }

  /** Flush (main_dbexport.go:461-483): at a limit, the previous last line is
      fixed up, both counters restart and the same header opens a new batch
      before the row's tuple. */
  lemma FlushStep(s: ConvState, line: string)
    requires WellFormed(s) && Flushes(s, line) && Contains(line, INSERT_INTO)
    ensures Step(s, line) == ConvState(s.insertStatement, 0, 0,
                                       FixLast(s.bulklines) + [s.insertStatement, ConvertInsertIntoLine(line)])
  {
  }

  /** Boundary (main_dbexport.go:503-536): a non-`INSERT` line closes the open
      batch, whose last line is fixed up, and is appended verbatim; a header
      that a flush emitted for this same line is removed again, so the result
      is the same whether or not a limit was reached. Only the byte counter
      remembers the flush. */
  lemma BoundaryStep(s: ConvState, line: string)
    requires WellFormed(s) && HeaderShaped(s.insertStatement)
    requires s.insertStatement != "" && !Contains(line, INSERT_INTO)
    ensures var t := Step(s, line);
      t.insertStatement == "" && t.lineCount == 0
      && t.bulklines == FixLast(s.bulklines) + [line]
      && t.bytesCount == if Flushes(s, line) then 0 else s.bytesCount + |line|
  {
    var (u, added) := Advance(s, line);
    if added {
      HeaderUnchanged(s.insertStatement);
      PrefixIndex(s.insertStatement, INSERT_INTO);
      var fixed := FixLast(u.bulklines);
      assert fixed == FixLast(s.bulklines) + [s.insertStatement];
      assert fixed[..|fixed| - 1] == FixLast(s.bulklines);
    }
  }

  /** The end-of-stream fixup applied to the last line of a non-empty buffer
      (main_dbexport.go:539-566). */
  function FinishLines(bl: seq<string>): (r: seq<string>)
    requires |bl| > 0
    ensures |r| == |bl| && r[..|r| - 1] == bl[..|bl| - 1]
  {
    bl[..|bl| - 1] + [EndFixup(bl[|bl| - 1])]
  }

  /** The end-of-stream fixup changes only the last line of a buffer. */
  lemma FinishedLines(bl: seq<string>)
    requires |bl| > 0
    ensures var out := FinishLines(bl);
      |out| == |bl| && (forall d :: 0 <= d < |bl| - 1 ==> out[d] == bl[d])
      && out[|bl| - 1] == EndFixup(bl[|bl| - 1])
  {
    var out := FinishLines(bl);
    forall d | 0 <= d < |bl| - 1 ensures out[d] == bl[d] {
      assert out[d] == out[..|bl| - 1][d];
    }
  }

  /** The output of the whole conversion: the buffer after the loop, with the
      end-of-stream fixup applied to its last line. */
  function BulkConvert(lines: seq<string>): (out: seq<string>)
    requires |lines| > 0 && Run(lines).Some?
    ensures |out| >= |lines|
  {
    FinishLines(Run(lines).value.bulklines)
  }

  /** The body of the conversion loop (main_dbexport.go:453-536) on the loop's
      four variables: the counting and flush part, then the placing part. */
  method ConvertLine(s: ConvState, line: string) returns (t: ConvState)
    requires WellFormed(s) && !CapturePanics(s, line)
    ensures t == Step(s, line)
  {
    var mid, isInsertStatementAdded := CountAndFlush(s, line);
    t := PlaceLine(mid, isInsertStatementAdded, line);
  }

  /** main_dbexport.go:453-483: count the line and its bytes; at a limit, fix
      up the last line, reset both counters and emit the header again. */
  method CountAndFlush(s: ConvState, line: string) returns (u: ConvState, isInsertStatementAdded: bool)
    requires WellFormed(s)
    ensures (u, isInsertStatementAdded) == Advance(s, line)
  {
    var insertStatement, lineCount, bytesCount, bulklines := s.insertStatement, s.lineCount, s.bytesCount, s.bulklines;
    lineCount := lineCount + 1;
    bytesCount := bytesCount + |line|;
    isInsertStatementAdded := false;
    if insertStatement != "" && (lineCount % ROWS_PER_BATCH == 0 || bytesCount >= MAX_BATCH_BYTES) {
      lineCount := 0;
      bytesCount := 0;
      bulklines := bulklines[..|bulklines| - 1] + [FixTerminator(bulklines[|bulklines| - 1])];
      bulklines := bulklines + [insertStatement];
      isInsertStatementAdded := true;
    }
    u := ConvState(insertStatement, lineCount, bytesCount, bulklines);
  }

  /** main_dbexport.go:485-536: capture the header or close the batch, then
      append the line, rewritten when it is an `INSERT INTO` line. */
  method PlaceLine(u: ConvState, isInsertStatementAdded: bool, line: string) returns (t: ConvState)
    requires WellFormed(u) && !CapturePanics(u, line)
    requires isInsertStatementAdded ==> u.insertStatement != ""
    ensures t == Place(u, isInsertStatementAdded, line)
  {
    var insertStatement, lineCount, bytesCount, bulklines := u.insertStatement, u.lineCount, u.bytesCount, u.bulklines;
    var convertedLine := line;
    var startidx := Index(line, INSERT_INTO);
    if startidx >= 0 {
      if insertStatement == "" {
        var endidx := Index(line, VALUES);
        if endidx >= 0 {
          insertStatement := line[startidx..endidx + |VALUES|];
          bulklines := bulklines + [insertStatement];
        }
      }
      convertedLine := ConvertInsertIntoLine(line);
    } else {
      convertedLine := line;
      if insertStatement != "" {
        insertStatement := "";
        lineCount := 0;
        var lastLine := FixTerminator(bulklines[|bulklines| - 1]);
        bulklines := bulklines[..|bulklines| - 1] + [lastLine];
        if isInsertStatementAdded && Index(lastLine, INSERT_INTO) == 0 {
          bulklines := bulklines[..|bulklines| - 1];
        }
      }
    }
    bulklines := bulklines + [convertedLine];
    t := ConvState(insertStatement, lineCount, bytesCount, bulklines);
  }

  /** The conversion loop of convertInsertQuery_To_BulkInsertQuery
      (main_dbexport.go:452-537): its variables after every input line. */
  method ConvertLines(lines: seq<string>) returns (state: ConvState)
    requires Run(lines).Some?
    ensures Run(lines) == Some(state)
  {
    state := START;
    var i := 0;
    while i < |lines|
      invariant 0 <= i <= |lines|
      invariant Run(lines[..i]) == Some(state)
    {
      RunStep(lines, i);
      state := ConvertLine(state, lines[i]);
      i := i + 1;
    }
    assert lines[..i] == lines;
  }

  /** The end-of-stream fixup of the buffer's last line
      (main_dbexport.go:539-566). */
  method FinishBuffer(bl: seq<string>) returns (bulklines: seq<string>)
    requires |bl| > 0
    ensures bulklines == FinishLines(bl)
  {
    bulklines := bl;
    var lastLine := bulklines[|bulklines| - 1];
    var idxValues := Index(lastLine, VALUES);
    if idxValues > 0 {
      lastLine := lastLine[..|lastLine| - 1] + ";";
    } else {
      lastLine := FixTerminator(lastLine);
    }
    bulklines := bulklines[..|bulklines| - 1] + [lastLine];
  }

  /** convertInsertQuery_To_BulkInsertQuery without its file handling: the loop
      over the input lines, then the end-of-stream fixup of the last line. */
  method ConvertToBulk(lines: seq<string>) returns (bulklines: seq<string>)
    requires |lines| > 0 && Run(lines).Some?
    ensures bulklines == BulkConvert(lines)
  {
    var state := ConvertLines(lines);
    bulklines := FinishBuffer(state.bulklines);
  }
}
