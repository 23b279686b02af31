/** saveBulkInsertQuery: convert an INSERT file to bulk form, then verify the
    result by counting lines. Row conservation says that for files of one-row
    INSERT lines the verification always reports success. */
module BulkPipeline {
  import opened GoStrings
  import opened Optional
  import opened BulkInsert
  import opened LineCount

  /** What row conservation needs of an input line: an `INSERT INTO` line's
      tuple does not itself look like a header, and the header it would open
      is sliceable and starts with the counted prefix. The builder's lines
      have this shape (SqlExport.BuilderLineIsRow). */
  predicate RowLine(line: string)
  {
    Contains(line, INSERT_INTO) ==>
      !HasPrefix(ConvertInsertIntoLine(line), HEADER_PREFIX)
      && (Contains(line, VALUES) ==> HeaderSliceOk(line) && HasPrefix(HeaderOf(line), HEADER_PREFIX))
  }

  predicate AllRows(lines: seq<string>)
  {
    forall i :: 0 <= i < |lines| ==> RowLine(lines[i])
  }

  /** A line starting with the header prefix contains `INSERT INTO`. */
  lemma PrefixedContains(line: string)
    requires HasPrefix(line, HEADER_PREFIX)
    ensures Contains(line, INSERT_INTO)
  {
    assert line[..|INSERT_INTO|] == HEADER_PREFIX[..|INSERT_INTO|];
    assert OccursAt(line, INSERT_INTO, 0);
  }

  /** The terminator fixup never changes whether a line counts. */
  lemma FixTerminatorPrefix(line: string)
    ensures HasPrefix(FixTerminator(line), HEADER_PREFIX) <==> HasPrefix(line, HEADER_PREFIX)
  {
    var r := FixTerminator(line);
    var n := |line|;
    if r != line {
      if n > |HEADER_PREFIX| {
        assert r[..|HEADER_PREFIX|] == line[..|HEADER_PREFIX|];
      } else if n == |HEADER_PREFIX| {
        assert r[n - 1] == ';';
      }
    }
  }

  /** Neither does the end-of-stream fixup. */
  lemma EndFixupPrefix(line: string)
    ensures HasPrefix(EndFixup(line), HEADER_PREFIX) <==> HasPrefix(line, HEADER_PREFIX)
  {
    var n := |line|;
    var v := Index(line, VALUES);
    if v > 0 {
      var r := EndFixup(line);
      if n > |HEADER_PREFIX| {
        assert r[..|HEADER_PREFIX|] == line[..|HEADER_PREFIX|];
      } else if n == |HEADER_PREFIX| {
        assert r[n - 1] == ';' && HEADER_PREFIX[n - 1] == ' ';
        OccurrenceChar(line, VALUES, v, v);
        assert line[v] == 'V';
        assert forall j :: 0 <= j < |HEADER_PREFIX| ==> HEADER_PREFIX[j] != 'V';
      }
    } else {
      FixTerminatorPrefix(line);
    }
  }

  /** Replacing the last line of a buffer by one that counts the same way
      keeps the buffer's count. */
  lemma ReplaceLastCount(bl: seq<string>, y: string)
    requires |bl| > 0 && (HasPrefix(y, HEADER_PREFIX) <==> HasPrefix(bl[|bl| - 1], HEADER_PREFIX))
    ensures CountLines(bl[..|bl| - 1] + [y], HEADER_PREFIX) == CountLines(bl, HEADER_PREFIX)
  {
    var init := bl[..|bl| - 1];
    assert bl == init + [bl[|bl| - 1]];
    CountPush(init, bl[|bl| - 1]);
    CountPush(init, y);
  }

  /** Fixing up a buffer's last line keeps its count. */
  lemma FixLastCount(bl: seq<string>)
    requires |bl| > 0
    ensures CountLines(FixLast(bl), HEADER_PREFIX) == CountLines(bl, HEADER_PREFIX)
  {
    FixTerminatorPrefix(bl[|bl| - 1]);
    ReplaceLastCount(bl, FixTerminator(bl[|bl| - 1]));
  }

  /** Appending one line adds one to the count exactly when it is not a header. */
  lemma CountPush(bl: seq<string>, line: string)
    ensures CountLines(bl + [line], HEADER_PREFIX)
            == CountLines(bl, HEADER_PREFIX) + (if HasPrefix(line, HEADER_PREFIX) then 0 else 1)
  {
    assert (bl + [line])[..|bl|] == bl;
  }

  /** The loop's invariant for row conservation after `n` input lines: the
      buffer holds `n` non-header lines, and an open header starts with the
      prefix. */
  predicate Conserved(s: ConvState, n: nat)
  {
    CountLines(s.bulklines, HEADER_PREFIX) == n
    && (s.insertStatement == "" || HasPrefix(s.insertStatement, HEADER_PREFIX))
  }

  /** Each iteration appends exactly one non-header line, the one for its input
      line; every other line it adds or removes is a header. */
  lemma StepConserves(s: ConvState, line: string, n: nat)
    requires WellFormed(s) && Conserved(s, n) && RowLine(line)
    ensures !CapturePanics(s, line) && Conserved(Step(s, line), n + 1)
  {
    var (u, added) := Advance(s, line);
    if added {
      FixLastCount(s.bulklines);
      CountPush(FixLast(s.bulklines), s.insertStatement);
    }
    assert CountLines(u.bulklines, HEADER_PREFIX) == n;
    if Index(line, INSERT_INTO) >= 0 {
      var converted := ConvertInsertIntoLine(line);
      if u.insertStatement == "" && Index(line, VALUES) >= 0 {
        CountPush(u.bulklines, HeaderOf(line));
        CountPush(u.bulklines + [HeaderOf(line)], converted);
      } else {
        CountPush(u.bulklines, converted);
      }
    } else {
      if HasPrefix(line, HEADER_PREFIX) {
        PrefixedContains(line);
      }
      if u.insertStatement != "" {
        var fixed := FixLast(u.bulklines);
        FixLastCount(u.bulklines);
        if added && Index(fixed[|fixed| - 1], INSERT_INTO) == 0 {
          assert fixed[|fixed| - 1] == FixTerminator(s.insertStatement);
          FixTerminatorPrefix(s.insertStatement);
          assert fixed == fixed[..|fixed| - 1] + [fixed[|fixed| - 1]];
          CountPush(fixed[..|fixed| - 1], fixed[|fixed| - 1]);
          CountPush(fixed[..|fixed| - 1], line);
        } else {
          CountPush(fixed, line);
        }
      } else {
        CountPush(u.bulklines, line);
      }
    }
  }

  /** Over a file of row lines the loop never panics and keeps the invariant. */
  lemma {:induction false} RunConserves(lines: seq<string>)
    requires AllRows(lines)
    ensures Run(lines).Some? && Conserved(Run(lines).value, |lines|)
    decreases |lines|
  {
    if |lines| > 0 {
      var init := lines[..|lines| - 1];
      assert AllRows(init) by {
        forall i | 0 <= i < |init| ensures RowLine(init[i]) {
          assert init[i] == lines[i];
        }
      }
      RunConserves(init);
      StepConserves(Run(init).value, lines[|lines| - 1], |init|);
    }
  }

  /** The end-of-stream fixup of the last line keeps a buffer's count. */
  lemma EndFixupCount(bl: seq<string>)
    requires |bl| > 0
    ensures CountLines(FinishLines(bl), HEADER_PREFIX) == CountLines(bl, HEADER_PREFIX)
  {
    EndFixupPrefix(bl[|bl| - 1]);
    ReplaceLastCount(bl, EndFixup(bl[|bl| - 1]));
  }

  /** Row conservation: the converted file has exactly one non-header line per
      input line, which is the equality the verification step checks. */
  lemma RowConservation(lines: seq<string>)
    requires |lines| > 0 && AllRows(lines)
    ensures Run(lines).Some? && CountLines(BulkConvert(lines), HEADER_PREFIX) == |lines|
  {
    RunConserves(lines);
    EndFixupCount(Run(lines).value.bulklines);
  }

  /** saveBulkInsertQuery (main_dbexport.go:421-430) on a file the converter
      does not panic on: the bulk file is the converter's output, the
      verification reports success exactly when the counts agree, and on a
      file of row lines it always does. */
  method SaveBulkInsertQuery(lines: seq<string>) returns (bulklines: seq<string>, ok: bool)
    requires |lines| > 0 && Run(lines).Some?
    ensures bulklines == BulkConvert(lines)
    ensures ok <==> |lines| == CountLines(bulklines, HEADER_PREFIX)
    ensures AllRows(lines) ==> ok
  {
    bulklines := ConvertToBulk(lines);
    ok := VerifyEachFileLines(lines, bulklines);
    assert AllRows(lines) ==> ok by {
      if AllRows(lines) {
        RowConservation(lines);
      }
    }
  }

  /** A one-line file whose header and tuple both fail to start with the
      counted prefix converts to two counted lines. */
  lemma OneLineUncounted(l: string)
    requires HeaderSliceOk(l) && !HasPrefix(HeaderOf(l), HEADER_PREFIX)
    requires !HasPrefix(ConvertInsertIntoLine(l), HEADER_PREFIX)
    ensures Run([l]).Some? && CountLines(BulkConvert([l]), HEADER_PREFIX) == 2
  {
    var t := ConvertInsertIntoLine(l);
    HeaderCapture(START, l);
    assert [l][..0] == [];
    assert Run([l]) == Some(Step(START, l));
    var bl := [HeaderOf(l), t];
    FinishedLines(bl);
    EndFixupPrefix(t);
    var out := FinishLines(bl);
    assert out == [out[0]] + [out[1]];
    CountAppend([out[0]], [out[1]], HEADER_PREFIX);
    assert [out[0]][..0] == [] && [out[1]][..0] == [];
  }

  /** A string that differs from a prefix at some position does not start
      with it. */
  lemma PrefixMismatch(s: string, prefix: string, k: nat)
    requires k < |prefix| && k < |s| && s[k] != prefix[k]
    ensures !HasPrefix(s, prefix)
  {
  }

  /** Cutting a text after its last `);` and adding `,` cannot make it start
      with `INSERT INTO ` when the text did not start with `INSERT INTO`. */
  lemma RewriteNotHeader(rest: string, r: string)
    requires !HasPrefix(rest, INSERT_INTO)
    requires r == rest || (2 <= |r| <= |rest| + 1 && r[|r| - 1] == ',' && r[..|r| - 1] == rest[..|r| - 1])
    ensures !HasPrefix(r, HEADER_PREFIX)
  {
    var n := |INSERT_INTO|;
    assert HEADER_PREFIX[..n] == INSERT_INTO;
    if |r| >= |HEADER_PREFIX| {
      if r != rest && |r| - 1 < |HEADER_PREFIX| {
        assert ',' !in HEADER_PREFIX;
        assert HEADER_PREFIX[|r| - 1] in HEADER_PREFIX;
        PrefixMismatch(r, HEADER_PREFIX, |r| - 1);
      } else {
        assert r[..n] == rest[..n];
      }
    }
  }

  /** A rewritten line starts with `INSERT INTO ` only if `INSERT INTO` starts
      right after the line's first `VALUES`. */
  lemma ConvertNotHeader(line: string)
    requires Contains(line, INSERT_INTO) && Contains(line, VALUES)
    requires !OccursAt(line, INSERT_INTO, Index(line, VALUES) + |VALUES|)
    ensures !HasPrefix(ConvertInsertIntoLine(line), HEADER_PREFIX)
  {
    var a := Index(line, VALUES) + |VALUES|;
    var rest := AfterValues(line);
    var n := |INSERT_INTO|;
    if |rest| >= n {
      assert rest[..n] == line[a..a + n];
    }
    RewriteNotHeader(rest, ConvertInsertIntoLine(line));
  }

  /** A line that starts with `INSERT INTO `, has its first `VALUES` after
      that, and has no `INSERT INTO` right after the `VALUES` is a row line. */
  lemma HeaderLineIsRow(line: string)
    requires |HEADER_PREFIX| <= |line| && line[..|HEADER_PREFIX|] == HEADER_PREFIX
    requires Index(line, INSERT_INTO) == 0
    requires Contains(line, VALUES) && |HEADER_PREFIX| <= Index(line, VALUES)
    requires !OccursAt(line, INSERT_INTO, Index(line, VALUES) + |VALUES|)
    ensures RowLine(line)
  {
    ConvertNotHeader(line);
    HeaderStartsPrefix(line);
  }

  /** The header of a line that starts with `INSERT INTO ` and has its first
      `VALUES` after that starts with `INSERT INTO ` too. */
  lemma HeaderStartsPrefix(line: string)
    requires |HEADER_PREFIX| <= |line| && line[..|HEADER_PREFIX|] == HEADER_PREFIX
    requires Index(line, INSERT_INTO) == 0
    requires Contains(line, VALUES) && |HEADER_PREFIX| <= Index(line, VALUES)
    ensures HeaderSliceOk(line) && HasPrefix(HeaderOf(line), HEADER_PREFIX)
  {
    var h := HeaderOf(line);
    assert h[..|HEADER_PREFIX|] == line[..|HEADER_PREFIX|];
  }

  /** The rewritten line starts where the text after `VALUES` starts. */
  lemma ConvertFirst(line: string)
    requires Contains(line, INSERT_INTO) && Contains(line, VALUES) && |AfterValues(line)| > 0
    ensures var r := ConvertInsertIntoLine(line); |r| > 0 && r[0] == AfterValues(line)[0]
  {
  }

  /** A one-line file like `INSERT INTOx VALUES (1);`, whose `INSERT INTO`
      runs straight into the table name, does not panic, but its header lacks
      the counted prefix's space. The converter's two lines both count against
      one input line, so saveBulkInsertQuery reports a failed verification. */
  lemma GluedKeywordMismatch(l: string)
    requires HeaderSliceOk(l) && Index(l, INSERT_INTO) == 0 && Index(l, VALUES) > |INSERT_INTO|
    requires l[|INSERT_INTO|] != ' '
    requires |AfterValues(l)| > 0 && AfterValues(l)[0] != 'I'
    ensures Run([l]).Some? && CountLines(BulkConvert([l]), HEADER_PREFIX) == 2
  {
    var h := HeaderOf(l);
    assert h[|INSERT_INTO|] == l[|INSERT_INTO|];
    PrefixMismatch(h, HEADER_PREFIX, |INSERT_INTO|);
    ConvertFirst(l);
    PrefixMismatch(ConvertInsertIntoLine(l), HEADER_PREFIX, 0);
    OneLineUncounted(l);
  }
}
