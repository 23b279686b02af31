/** The size of a batch. While a batch is open, the output ends with its header
    followed by the rewritten forms of the last input lines, and there are never
    more than ROWS_PER_BATCH of them: the line counter, which a flush resets,
    makes the first batch of a run one row shorter than the later ones. */
module BatchBound {
  import opened GoStrings
  import opened Optional
  import opened BulkInsert

  /** How many rows the batch open after `lines` holds (0 when none is open). */
  function OpenRows(lines: seq<string>): (k: nat)
    requires Run(lines).Some?
    ensures k <= |lines|
  {
    if |lines| == 0 then 0
    else
      var init := lines[..|lines| - 1];
      NextOpenRows(Run(init).value, lines[|lines| - 1], OpenRows(init))
  }

  /** The rows of the open batch after one more line: none once the batch is
      closed, one in a batch just opened or flushed, otherwise one more. */
  function NextOpenRows(s: ConvState, line: string, k: nat): (r: nat)
    requires WellFormed(s) && !CapturePanics(s, line)
    ensures r <= k + 1
  {
    if Step(s, line).insertStatement == "" then 0
    else if s.insertStatement == "" || Flushes(s, line) then 1
    else k + 1
  }

  /** Each line rewritten by convertInsertIntoLine. */
  function Rewritten(lines: seq<string>): (r: seq<string>)
    ensures |r| == |lines|
  {
    if |lines| == 0 then [] else Rewritten(lines[..|lines| - 1]) + [ConvertInsertIntoLine(lines[|lines| - 1])]
  }

  /** Element `j` of the rewritten lines is line `j` rewritten. */
  lemma {:induction false} RewrittenAt(lines: seq<string>, j: nat)
    requires j < |lines|
    ensures Rewritten(lines)[j] == ConvertInsertIntoLine(lines[j])
    decreases |lines|
  {
    if j < |lines| - 1 {
      var init := lines[..|lines| - 1];
      RewrittenAt(init, j);
      assert init[j] == lines[j];
    }
  }

  /** The open batch of a state: its header `k` lines before the end of the
      buffer, followed by the rewritten last `k` input lines, with `k` bounded
      by the line counter. */
  predicate OpenBatch(s: ConvState, lines: seq<string>, k: nat)
  {
    s.lineCount >= 0
    && (s.insertStatement != "" ==>
          1 <= k <= s.lineCount % ROWS_PER_BATCH + 1
          && k <= |lines| && k < |s.bulklines|
          && s.bulklines[|s.bulklines| - 1 - k] == s.insertStatement
          && s.bulklines[|s.bulklines| - k..] == Rewritten(lines[|lines| - k..]))
  }

  /** One more row in a batch below the limits keeps the counter bound. */
  lemma CounterStep(c: int, k: nat)
    requires c >= 0 && k <= c % ROWS_PER_BATCH + 1 && (c + 1) % ROWS_PER_BATCH != 0
    ensures k + 1 <= (c + 1) % ROWS_PER_BATCH + 1
  {
  }

  /** A batch is opened or restarted with one row. */
  lemma OpenStep(s: ConvState, lines: seq<string>, line: string)
    requires WellFormed(s) && !CapturePanics(s, line) && s.lineCount >= 0
    requires Step(s, line).insertStatement != "" && (s.insertStatement == "" || Flushes(s, line))
    ensures OpenBatch(Step(s, line), lines + [line], 1)
  {
    var ls := lines + [line];
    assert Contains(line, INSERT_INTO);
    assert ls[|ls| - 1..] == [line];
    if s.insertStatement == "" {
      HeaderCapture(s, line);
    } else {
      FlushStep(s, line);
    }
  }

  /** A row below the limits adds one rewritten line to the open batch. */
  lemma GrowStep(s: ConvState, lines: seq<string>, line: string, k: nat)
    requires WellFormed(s) && OpenBatch(s, lines, k) && s.insertStatement != ""
    requires !Flushes(s, line) && Contains(line, INSERT_INTO)
    ensures OpenBatch(Step(s, line), lines + [line], k + 1)
  {
    RowStep(s, line);
    GrowBatch(s, Step(s, line), lines, line, k);
  }

  /** The same on the state a row step produces. */
  lemma GrowBatch(s: ConvState, t: ConvState, lines: seq<string>, line: string, k: nat)
    requires OpenBatch(s, lines, k) && s.insertStatement != "" && (s.lineCount + 1) % ROWS_PER_BATCH != 0
    requires t == ConvState(s.insertStatement, s.lineCount + 1, s.bytesCount + |line|,
                            s.bulklines + [ConvertInsertIntoLine(line)])
    ensures OpenBatch(t, lines + [line], k + 1)
  {
    CounterStep(s.lineCount, k);
    var conv, ls := ConvertInsertIntoLine(line), lines + [line];
    RewrittenPush(lines, line, k);
    TailPush(s.bulklines, conv, k);
  }

  /** The last `k + 1` elements after a push are the last `k` before it and the
      pushed one; the element before them is unchanged. */
  lemma TailPush(a: seq<string>, x: string, k: nat)
    requires k < |a|
    ensures var b := a + [x];
      b[|b| - (k + 1)..] == a[|a| - k..] + [x] && b[|b| - 1 - (k + 1)] == a[|a| - 1 - k]
  {
    var b := a + [x];
    assert b[|b| - (k + 1)..][..k] == a[|a| - k..];
  }

  /** The last `k + 1` lines rewritten are the last `k` rewritten and the new one. */
  lemma RewrittenPush(lines: seq<string>, line: string, k: nat)
    requires k <= |lines|
    ensures var ls := lines + [line];
      Rewritten(ls[|ls| - (k + 1)..]) == Rewritten(lines[|lines| - k..]) + [ConvertInsertIntoLine(line)]
  {
    var ls := lines + [line];
    var tail := ls[|ls| - (k + 1)..];
    assert tail[..k] == lines[|lines| - k..];
    assert tail[k] == line;
  }

  /** The open-batch invariant is kept by every step. */
  lemma StepOpenBatch(s: ConvState, lines: seq<string>, line: string, k: nat)
    requires WellFormed(s) && !CapturePanics(s, line) && OpenBatch(s, lines, k)
    ensures OpenBatch(Step(s, line), lines + [line], NextOpenRows(s, line, k))
  {
    var t := Step(s, line);
    if t.insertStatement != "" {
      assert Contains(line, INSERT_INTO);
      if s.insertStatement == "" || Flushes(s, line) {
        OpenStep(s, lines, line);
      } else {
        GrowStep(s, lines, line, k);
      }
    }
  }

  /** A non-empty sequence is its prefix followed by its last element. */
  lemma LastSplit<T>(xs: seq<T>)
    requires |xs| > 0
    ensures xs[..|xs| - 1] + [xs[|xs| - 1]] == xs
  {
  }

  /** The open-batch invariant holds after every prefix of the input. */
  lemma {:induction false} RunOpenBatch(lines: seq<string>)
    requires Run(lines).Some?
    ensures OpenBatch(Run(lines).value, lines, OpenRows(lines))
    decreases |lines|
  {
    if |lines| > 0 {
      var init, line := lines[..|lines| - 1], lines[|lines| - 1];
      RunOpenBatch(init);
      var s := Run(init).value;
      assert Run(lines) == Some(Step(s, line));
      StepOpenBatch(s, init, line, OpenRows(init));
      LastSplit(lines);
      assert OpenRows(lines) == NextOpenRows(s, line, OpenRows(init));
    }
  }

  /** No batch ever holds more than ROWS_PER_BATCH rows: the open batch after
      any prefix of the input, at its largest, is one of the output's batches. */
  lemma BatchLimit(lines: seq<string>)
    requires Run(lines).Some? && Run(lines).value.insertStatement != ""
    ensures 1 <= OpenRows(lines) <= ROWS_PER_BATCH
  {
    RunOpenBatch(lines);
  }

  /** Row lines short enough that fewer than ROWS_PER_BATCH of them stay below
      the byte limit, each carrying a non-empty header. */
  predicate ShortRows(lines: seq<string>)
  {
    forall j :: 0 <= j < |lines| ==>
      HeaderSliceOk(lines[j]) && HeaderOf(lines[j]) != "" && |lines[j]| < MAX_BATCH_BYTES / ROWS_PER_BATCH
  }

  lemma ShortRowsPrefix(lines: seq<string>)
    requires |lines| > 0 && ShortRows(lines)
    ensures ShortRows(lines[..|lines| - 1])
  {
    var init := lines[..|lines| - 1];
    forall j | 0 <= j < |init| ensures HeaderSliceOk(init[j]) {
      assert init[j] == lines[j];
    }
  }

  /** The counters of a batch of fewer than ROWS_PER_BATCH short rows stay
      below both limits. */
  lemma BelowLimits(n: nat, bytes: int, len: nat)
    requires 0 < n + 1 < ROWS_PER_BATCH
    requires bytes < n * (MAX_BATCH_BYTES / ROWS_PER_BATCH) && len < MAX_BATCH_BYTES / ROWS_PER_BATCH
    ensures (n + 1) % ROWS_PER_BATCH != 0
    ensures bytes + len < (n + 1) * (MAX_BATCH_BYTES / ROWS_PER_BATCH) <= MAX_BATCH_BYTES
  {
  }

  /** The counter reaching ROWS_PER_BATCH triggers a flush. */
  lemma LimitReached(c: int)
    requires c + 1 == ROWS_PER_BATCH
    ensures (c + 1) % ROWS_PER_BATCH == 0
  {
  }

  /** Before the first flush: the first line opens a batch under its header
      and counts as line 1, so after n < ROWS_PER_BATCH short rows the counter
      is n and the batch holds all n rows. */
  lemma {:induction false} FirstBatchRows(lines: seq<string>)
    requires 0 < |lines| < ROWS_PER_BATCH && ShortRows(lines)
    ensures Run(lines).Some?
    ensures var s := Run(lines).value;
      s.insertStatement == HeaderOf(lines[0]) && s.lineCount == |lines|
      && s.bytesCount < |lines| * (MAX_BATCH_BYTES / ROWS_PER_BATCH)
      && OpenRows(lines) == |lines| && |s.bulklines| == |lines| + 1
    decreases |lines|
  {
    var init := lines[..|lines| - 1];
    var line := lines[|lines| - 1];
    if |init| == 0 {
      HeaderCapture(START, line);
      assert Run(lines) == Some(Step(START, line));
    } else {
      ShortRowsPrefix(lines);
      FirstBatchRows(init);
      assert init[0] == lines[0];
      var s := Run(init).value;
      BelowLimits(|init|, s.bytesCount, |line|);
      RowStep(s, line);
      assert Run(lines) == Some(Step(s, line));
      assert OpenRows(lines) == NextOpenRows(s, line, OpenRows(init));
    }
  }

  /** The first batch of a run holds ROWS_PER_BATCH - 1 rows: the line counter
      is incremented before the flush test, so the 1000th short row already
      starts the second batch. */
  lemma FirstBatchFull(lines: seq<string>)
    requires |lines| == ROWS_PER_BATCH && ShortRows(lines)
    ensures var init := lines[..ROWS_PER_BATCH - 1];
      Run(init).Some? && OpenRows(init) == ROWS_PER_BATCH - 1
      && Flushes(Run(init).value, lines[ROWS_PER_BATCH - 1])
      && Run(lines).Some? && OpenRows(lines) == 1
  {
    var init := lines[..ROWS_PER_BATCH - 1];
    ShortRowsPrefix(lines);
    FirstBatchRows(init);
    assert init[0] == lines[0];
    var s := Run(init).value;
    var line := lines[ROWS_PER_BATCH - 1];
    assert s.insertStatement != "";
    LimitReached(s.lineCount);
    assert Flushes(s, line);
    assert lines[..|lines| - 1] == init;
    assert Run(lines) == Some(Step(s, line));
  }

  /** A file of fewer than ROWS_PER_BATCH short rows becomes one statement:
      the first line's header, every line rewritten, the last one given the
      end-of-stream fixup. */
  lemma SmallRun(lines: seq<string>)
    requires 0 < |lines| < ROWS_PER_BATCH && ShortRows(lines)
    ensures Run(lines).Some?
    ensures var out := BulkConvert(lines); var n := |lines|;
      |out| == n + 1 && out[0] == HeaderOf(lines[0])
      && (forall d :: 0 <= d < n - 1 ==> out[d + 1] == ConvertInsertIntoLine(lines[d]))
      && out[n] == EndFixup(ConvertInsertIntoLine(lines[n - 1]))
  {
    FirstBatchRows(lines);
    RunOpenBatch(lines);
    var s := Run(lines).value;
    WholeBatch(s, lines);
    FinishedBatch(s.bulklines, lines);
  }

  /** An open batch holding every input line fills the whole buffer. */
  lemma WholeBatch(s: ConvState, lines: seq<string>)
    requires OpenBatch(s, lines, |lines|) && s.insertStatement != "" && |s.bulklines| == |lines| + 1
    ensures s.bulklines[0] == s.insertStatement && s.bulklines[1..] == Rewritten(lines)
  {
    assert lines[|lines| - |lines|..] == lines;
  }

  /** The end-of-stream fixup of a buffer made of one header and the rewritten
      lines changes only the last rewritten line. */
  lemma FinishedBatch(bl: seq<string>, lines: seq<string>)
    requires |lines| > 0 && |bl| == |lines| + 1 && bl[1..] == Rewritten(lines)
    ensures var out := FinishLines(bl); var n := |lines|;
      |out| == n + 1 && out[0] == bl[0]
      && (forall d :: 0 <= d < n - 1 ==> out[d + 1] == ConvertInsertIntoLine(lines[d]))
      && out[n] == EndFixup(ConvertInsertIntoLine(lines[n - 1]))
  {
    var n := |lines|;
    FinishedLines(bl);
    RewrittenAt(lines, n - 1);
    assert bl[n] == bl[1..][n - 1];
    forall d | 0 <= d < n - 1 ensures bl[d + 1] == ConvertInsertIntoLine(lines[d]) {
      RewrittenAt(lines, d);
      assert bl[d + 1] == bl[1..][d];
    }
  }

  // ---------------------------------------------------------------------------
  // The whole output of a file of uniform rows

  /** A tuple as the rewriter makes it from a one-row statement: it ends in `),`. */
  predicate TupleLine(t: string)
  {
    |t| > 3 && t[|t| - 2..] == "),"
  }

  /** Every line opens or joins a batch under the same non-empty header `h` and
      is rewritten to a tuple: what the exporter's own INSERT lines look like. */
  predicate UniformRows(lines: seq<string>, h: string)
  {
    h != "" &&
    forall j :: 0 <= j < |lines| ==>
      HeaderSliceOk(lines[j]) && HeaderOf(lines[j]) == h && TupleLine(ConvertInsertIntoLine(lines[j]))
  }

  /** A tuple with its final `,` replaced by `;`. */
  function Close(t: string): (r: string)
    requires |t| > 0
    ensures |r| == |t| && r[..|r| - 1] == t[..|t| - 1] && r[|r| - 1] == ';'
  {
    t[..|t| - 1] + ";"
  }

  /** Batches of 1 to ROWS_PER_BATCH tuples, the last of each a tuple line. */
  predicate Batches(batches: seq<seq<string>>)
  {
    forall i :: 0 <= i < |batches| ==>
      1 <= |batches[i]| <= ROWS_PER_BATCH && TupleLine(batches[i][|batches[i]| - 1])
  }

  /** One bulk statement: the header, the batch's tuples, the last one closed. */
  function Statement(h: string, batch: seq<string>): (r: seq<string>)
    requires |batch| > 0 && TupleLine(batch[|batch| - 1])
    ensures |r| == |batch| + 1 && r[0] == h && r[1..|r| - 1] == batch[..|batch| - 1]
    ensures r[|r| - 1] == Close(batch[|batch| - 1])
  {
    [h] + batch[..|batch| - 1] + [Close(batch[|batch| - 1])]
  }

  /** The statements of the batches, one after the other. */
  function Statements(h: string, batches: seq<seq<string>>): (r: seq<string>)
    requires Batches(batches)
  {
    if |batches| == 0 then []
    else Statements(h, batches[..|batches| - 1]) + Statement(h, batches[|batches| - 1])
  }

  /** The tuples of the batches, one after the other. */
  function Flatten(batches: seq<seq<string>>): (r: seq<string>)
  {
    if |batches| == 0 then [] else Flatten(batches[..|batches| - 1]) + batches[|batches| - 1]
  }

  /** What the loop holds after a non-empty prefix of uniform rows: the closed
      statements, then the header and the open batch's tuples; those tuples,
      closed and open, are the rewritten rows in order. */
  predicate UniformState(s: ConvState, lines: seq<string>, h: string,
                         closed: seq<seq<string>>, open: seq<string>)
  {
    h != "" && s.insertStatement == h && s.lineCount >= 0 && Batches(closed)
    && 1 <= |open| <= s.lineCount % ROWS_PER_BATCH + 1 && TupleLine(open[|open| - 1])
    && s.bulklines == Statements(h, closed) + ([h] + open)
    && Flatten(closed) + open == Rewritten(lines)
  }

  /** The open batch is within the counter bound and ends in a tuple line. */
  predicate OpenCount(s: ConvState, open: seq<string>)
  {
    s.lineCount >= 0 && 1 <= |open| <= s.lineCount % ROWS_PER_BATCH + 1 && TupleLine(open[|open| - 1])
  }

  /** The buffer is the closed statements, the header and the open batch. */
  predicate UniformShape(s: ConvState, lines: seq<string>, h: string,
                         closed: seq<seq<string>>, open: seq<string>)
  {
    h != "" && s.insertStatement == h && Batches(closed)
    && s.bulklines == Statements(h, closed) + ([h] + open)
    && Flatten(closed) + open == Rewritten(lines)
  }

  lemma UniformPrefix(lines: seq<string>, h: string)
    requires |lines| > 0 && UniformRows(lines, h)
    ensures UniformRows(lines[..|lines| - 1], h)
  {
    var init := lines[..|lines| - 1];
    forall j | 0 <= j < |init|
      ensures HeaderSliceOk(init[j]) && HeaderOf(init[j]) == h && TupleLine(ConvertInsertIntoLine(init[j]))
    {
      assert init[j] == lines[j];
    }
  }

  lemma RewrittenLast(lines: seq<string>, line: string)
    ensures Rewritten(lines + [line]) == Rewritten(lines) + [ConvertInsertIntoLine(line)]
  {
    var ls := lines + [line];
    assert ls[..|ls| - 1] == lines;
  }

  lemma PushOpen<T>(x: seq<T>, h: T, o: seq<T>, t: T)
    ensures (x + ([h] + o)) + [t] == x + ([h] + (o + [t]))
  {
  }

  lemma PushTail<T>(a: seq<T>, o: seq<T>, t: T)
    ensures (a + o) + [t] == a + (o + [t])
  {
  }

  /** Closing a batch appends its statement to the closed ones. */
  lemma StatementsPush(h: string, closed: seq<seq<string>>, batch: seq<string>)
    requires Batches(closed) && 1 <= |batch| <= ROWS_PER_BATCH && TupleLine(batch[|batch| - 1])
    ensures Batches(closed + [batch])
    ensures Statements(h, closed + [batch]) == Statements(h, closed) + Statement(h, batch)
    ensures Flatten(closed + [batch]) == Flatten(closed) + batch
  {
    var b := closed + [batch];
    assert b[..|b| - 1] == closed;
    assert b[|b| - 1] == batch;
  }

  /** The terminator fixup of the flush closes the open batch's last tuple. */
  lemma CloseOpen(x: seq<string>, h: string, open: seq<string>)
    requires |open| > 0 && TupleLine(open[|open| - 1])
    ensures FixLast(x + ([h] + open)) == x + Statement(h, open)
    ensures FinishLines(x + ([h] + open)) == x + Statement(h, open)
  {
    var t := open[|open| - 1];
    var bl := x + ([h] + open);
    assert bl[..|bl| - 1] == x + ([h] + open[..|open| - 1]);
    assert t[|t| - 2..] == "),";
    assert EndsRow(t);
    assert FixTerminator(t) == Close(t);
    assert Index(t, VALUES) > 0 ==> EndFixup(t) == Close(t);
    assert EndFixup(t) == Close(t);
  }

  /** The first uniform row opens the first batch. */
  lemma UniformFirst(line: string, h: string)
    requires UniformRows([line], h)
    ensures Run([line]).Some?
    ensures UniformState(Run([line]).value, [line], h, [], [ConvertInsertIntoLine(line)])
  {
    assert [line][0] == line;
    HeaderCapture(START, line);
    assert [line][..0] == [];
    assert Run([line]) == Some(Step(START, line));
    assert Rewritten([line]) == [ConvertInsertIntoLine(line)];
  }

  /** A row that flushes closes the open batch and opens a new one. */
  lemma UniformFlush(s: ConvState, lines: seq<string>, line: string, h: string,
                     closed: seq<seq<string>>, open: seq<string>)
    requires UniformState(s, lines, h, closed, open) && HeaderSliceOk(line) && Flushes(s, line)
    requires TupleLine(ConvertInsertIntoLine(line))
    ensures UniformState(Step(s, line), lines + [line], h, closed + [open], [ConvertInsertIntoLine(line)])
  {
    var t := ConvertInsertIntoLine(line);
    var x := Statements(h, closed);
    assert |s.bulklines| > 0 && Contains(line, INSERT_INTO);
    FlushStep(s, line);
    CloseOpen(x, h, open);
    StatementsPush(h, closed, open);
    RewrittenLast(lines, line);
    assert FixLast(s.bulklines) + [h, t] == Statements(h, closed + [open]) + ([h] + [t]);
    assert Flatten(closed + [open]) + [t] == Rewritten(lines + [line]);
  }

  /** A row below the limits joins the open batch. */
  lemma UniformGrow(s: ConvState, lines: seq<string>, line: string, h: string,
                    closed: seq<seq<string>>, open: seq<string>)
    requires UniformState(s, lines, h, closed, open) && HeaderSliceOk(line) && !Flushes(s, line)
    requires TupleLine(ConvertInsertIntoLine(line))
    ensures UniformState(Step(s, line), lines + [line], h, closed, open + [ConvertInsertIntoLine(line)])
  {
    assert |s.bulklines| > 0 && Contains(line, INSERT_INTO);
    RowStep(s, line);
    GrowState(s, lines, line, h, closed, open, s.bytesCount + |line|);
  }

  lemma GrowState(s: ConvState, lines: seq<string>, line: string, h: string,
                  closed: seq<seq<string>>, open: seq<string>, bytes: int)
    requires UniformState(s, lines, h, closed, open) && (s.lineCount + 1) % ROWS_PER_BATCH != 0
    requires TupleLine(ConvertInsertIntoLine(line))
    ensures var t := ConvertInsertIntoLine(line);
      UniformState(ConvState(h, s.lineCount + 1, bytes, s.bulklines + [t]), lines + [line], h, closed, open + [t])
  {
    var t := ConvertInsertIntoLine(line);
    var u := ConvState(h, s.lineCount + 1, bytes, s.bulklines + [t]);
    GrowCount(s, open, t, u);
    GrowShape(s, lines, line, h, closed, open, u);
  }

  lemma GrowCount(s: ConvState, open: seq<string>, t: string, u: ConvState)
    requires OpenCount(s, open) && (s.lineCount + 1) % ROWS_PER_BATCH != 0 && TupleLine(t)
    requires u.lineCount == s.lineCount + 1
    ensures OpenCount(u, open + [t])
  {
    CounterStep(s.lineCount, |open|);
    assert (open + [t])[|open|] == t;
  }

  lemma GrowShape(s: ConvState, lines: seq<string>, line: string, h: string,
                  closed: seq<seq<string>>, open: seq<string>, u: ConvState)
    requires UniformShape(s, lines, h, closed, open)
    requires u.insertStatement == h && u.bulklines == s.bulklines + [ConvertInsertIntoLine(line)]
    ensures UniformShape(u, lines + [line], h, closed, open + [ConvertInsertIntoLine(line)])
  {
    var t := ConvertInsertIntoLine(line);
    RewrittenLast(lines, line);
    PushOpen(Statements(h, closed), h, open, t);
    PushTail(Flatten(closed), open, t);
  }

  /** The loop over uniform rows keeps that shape; `closed` and `open` are the
      batches it has built so far. */
  lemma {:induction false} UniformRun(lines: seq<string>, h: string)
    returns (closed: seq<seq<string>>, open: seq<string>)
    requires |lines| > 0 && UniformRows(lines, h)
    ensures Run(lines).Some? && UniformState(Run(lines).value, lines, h, closed, open)
    decreases |lines|
  {
    var init, line := lines[..|lines| - 1], lines[|lines| - 1];
    LastSplit(lines);
    if |init| == 0 {
      UniformFirst(line, h);
      closed, open := [], [ConvertInsertIntoLine(line)];
    } else {
      UniformPrefix(lines, h);
      var c, o := UniformRun(init, h);
      var s := Run(init).value;
      assert Run(lines) == Some(Step(s, line));
      if Flushes(s, line) {
        UniformFlush(s, init, line, h, c, o);
        closed, open := c + [o], [ConvertInsertIntoLine(line)];
      } else {
        UniformGrow(s, init, line, h, c, o);
        closed, open := c, o + [ConvertInsertIntoLine(line)];
      }
    }
  }

  /** A file of uniform rows converts to whole statements: each is the header
      followed by 1 to ROWS_PER_BATCH tuples, every one but the last as
      rewritten (ending in `),`) and the last closed with `;`; read in order,
      the batches hold every row rewritten, each once. This covers batches
      closed by a flush as well as the last one. */
  lemma UniformOutput(lines: seq<string>, h: string)
    requires |lines| > 0 && UniformRows(lines, h)
    ensures Run(lines).Some?
    ensures exists batches :: (Batches(batches)
      && BulkConvert(lines) == Statements(h, batches) && Flatten(batches) == Rewritten(lines))
  {
    var closed, open := UniformRun(lines, h);
    CloseOpen(Statements(h, closed), h, open);
    StatementsPush(h, closed, open);
    var batches := closed + [open];
    assert Batches(batches) && BulkConvert(lines) == Statements(h, batches)
      && Flatten(batches) == Rewritten(lines);
  }
}
