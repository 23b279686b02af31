/** The line counter behind dbexport's bulk-file verification
    (countLinesInFile / verifyEachFileLines) over files given as line sequences. */
module LineCount {
  import opened GoStrings

  /** The prefix that marks a bulk statement header in the converted file. */
  const HEADER_PREFIX := "INSERT INTO "

  /** A line is skipped when the exclusion string is non-empty and starts it. */
  predicate Excluded(line: string, exclude: string)
  {
    exclude != "" && HasPrefix(line, exclude)
  }

  /** A line is excluded exactly when the exclusion string is non-empty and
      Index finds it at the start of the line. */
  lemma ExcludedIndex(line: string, exclude: string)
    ensures Excluded(line, exclude) <==> exclude != "" && Index(line, exclude) == 0
  {
    HasPrefixIndex(line, exclude);
  }

  /** The number of lines the counter reports. */
  function CountLines(lines: seq<string>, exclude: string): (n: nat)
    ensures n <= |lines|
    ensures exclude == "" ==> n == |lines|
    ensures n == |lines| <==> forall i :: 0 <= i < |lines| ==> !Excluded(lines[i], exclude)
  {
    if |lines| == 0 then 0
    else
      var init := lines[..|lines| - 1];
      var last := lines[|lines| - 1];
      assert forall i :: 0 <= i < |init| ==> init[i] == lines[i];
      CountLines(init, exclude) + (if Excluded(last, exclude) then 0 else 1)
  }

  /** The count of a concatenation is the sum of the counts. */
  lemma {:induction false} CountAppend(a: seq<string>, b: seq<string>, exclude: string)
    ensures CountLines(a + b, exclude) == CountLines(a, exclude) + CountLines(b, exclude)
    decreases |b|
  {
    if |b| == 0 {
      assert a + b == a;
    } else {
      var b' := b[..|b| - 1];
      assert (a + b)[..|a + b| - 1] == a + b';
      assert (a + b)[|a + b| - 1] == b[|b| - 1];
      CountAppend(a, b', exclude);
    }
  }

  /** countLinesInFile: the loop that counts the lines not excluded. */
  method CountLinesInFile(lines: seq<string>, exclude: string) returns (lineCount: nat)
    ensures lineCount == CountLines(lines, exclude)
  {
    lineCount := 0;
    var i := 0;
    while i < |lines|
      invariant 0 <= i <= |lines|
      invariant lineCount == CountLines(lines[..i], exclude)
    {
      assert lines[..i + 1][..i] == lines[..i];
      if !Excluded(lines[i], exclude) {
        lineCount := lineCount + 1;
      }
      i := i + 1;
    }
    assert lines[..i] == lines;
  }

  /** verifyEachFileLines: the check succeeds exactly when every line of the
      original file is matched by one line of the converted file that is not a
      bulk header. */
  method VerifyEachFileLines(original: seq<string>, converted: seq<string>) returns (ok: bool)
    ensures ok <==> |original| == CountLines(converted, HEADER_PREFIX)
  {
    var lines1 := CountLinesInFile(original, "");
    var lines2 := CountLinesInFile(converted, HEADER_PREFIX);
    ok := lines1 == lines2;
  }
}
