/** The SQL side of dbexport's export: the table name taken from the query
    (getTableNameFromQuery) and the one-row INSERT lines written by
    saveToSQLFile, which are exactly the lines the bulk converter expects. */
module SqlExport {
  import opened GoStrings
  import opened Optional
  import opened BulkInsert
  import opened BulkPipeline
  import opened LineCount
  import opened BatchBound

  // ---------------------------------------------------------------------------
  // Table name

  /** The lower-cased query after its first `from`, trimmed of spaces. */
  function AfterFrom(query: string): (rest: string)
    requires Contains(ToLower(query), "from")
    ensures forall i :: 0 <= i < |rest| ==> !IsUpper(rest[i])
  {
    var temp := ToLower(query);
    var after := temp[Index(temp, "from") + |"from"|..];
    var rest := Trim(after, " ");
    NoUpperSlice(temp, Index(temp, "from") + |"from"|, |temp|);
    TrimNoUpper(after, " ");
    rest
  }

  /** Trimming a string without upper-case letters leaves none. */
  lemma TrimNoUpper(s: string, cutset: string)
    requires forall i :: 0 <= i < |s| ==> !IsUpper(s[i])
    ensures var r := Trim(s, cutset); forall i :: 0 <= i < |r| ==> !IsUpper(r[i])
  {
    var r := Trim(s, cutset);
    var a := |s| - |TrimLeft(s, cutset)|;
    NoUpperSlice(s, a, a + |r|);
  }

  /** A slice of a string without upper-case letters has none either. */
  lemma NoUpperSlice(t: string, lo: int, hi: int)
    requires 0 <= lo <= hi <= |t| && forall i :: 0 <= i < |t| ==> !IsUpper(t[i])
    ensures forall i :: 0 <= i < hi - lo ==> !IsUpper(t[lo..hi][i])
  {
    forall i | 0 <= i < hi - lo ensures !IsUpper(t[lo..hi][i]) {
      assert t[lo..hi][i] == t[lo + i];
    }
  }

  /** The trimmed word before position `e`, which holds no space. */
  function WordBefore(temp: string, e: nat): (r: string)
    requires e <= |temp| && ' ' !in temp[..e]
    ensures r == temp[..e]
  {
    TrimSpaceFree(temp[..e]);
    Trim(temp[..e], " ")
  }

  /** The name-ending part of getTableNameFromQuery: the text before the first
      space or, when there is none, before the first `;`; empty when neither
      occurs. */
  function FirstWord(temp: string): (r: string)
    ensures r <= temp && ' ' !in r
    ensures ' ' in temp ==> |r| < |temp| && temp[|r|] == ' '
    ensures ' ' !in temp && ';' in temp ==> |r| < |temp| && temp[|r|] == ';' && ';' !in r
    ensures ' ' !in temp && ';' !in temp ==> r == ""
  {
    BeforeFirst(temp, ' ', ';');
    BeforeFirst(temp, ';', ' ');
    IndexChar(temp, ' ');
    IndexChar(temp, ';');
    var endidx := Index(temp, [' ']);
    if endidx >= 0 then
      WordBefore(temp, endidx)
    else
      var endidx := Index(temp, [';']);
      if endidx >= 0 then
        WordBefore(temp, endidx)
      else ""
  }

  /** getTableNameFromQuery: the first word after the first `from` of the
      lower-cased query. The name is lower case and holds no space; it is empty
      when there is no `from` or nothing ends the word. */
  function TableNameFromQuery(query: string): (r: string)
    ensures forall i :: 0 <= i < |r| ==> !IsUpper(r[i]) && r[i] != ' '
    ensures !Contains(ToLower(query), "from") ==> r == ""
    ensures Contains(ToLower(query), "from") ==> r == FirstWord(AfterFrom(query))
  {
    var temp := ToLower(query);
    var idx := Index(temp, "from");
    if idx >= 0 then
      var rest := AfterFrom(query);
      var r := FirstWord(rest);
      LowerWord(r, rest);
      r
    else ""
  }

  /** A space-free prefix of a string without upper-case letters has neither
      upper-case letters nor spaces. */
  lemma LowerWord(w: string, t: string)
    requires w <= t && ' ' !in w && forall i :: 0 <= i < |t| ==> !IsUpper(t[i])
    ensures forall i :: 0 <= i < |w| ==> !IsUpper(w[i]) && w[i] != ' '
  {
    forall i | 0 <= i < |w| ensures !IsUpper(w[i]) && w[i] != ' ' {
      assert w[i] == t[i];
      assert w[i] in w;
    }
  }

  /** A lower-case table name never contains the `VALUES` or the
      `INSERT INTO` keyword. */
  lemma TableNameIsNotKeyword(query: string)
    ensures !Contains(TableNameFromQuery(query), VALUES)
    ensures !Contains(TableNameFromQuery(query), INSERT_INTO)
  {
    var r := TableNameFromQuery(query);
    var k := Index(r, VALUES);
    if k >= 0 {
      OccurrenceChar(r, VALUES, k, k);
      assert IsUpper(r[k]);
    }
    var j := Index(r, INSERT_INTO);
    if j >= 0 {
      OccurrenceChar(r, INSERT_INTO, j, j);
      assert IsUpper(r[j]);
    }
  }

  /** A name the usage line's query shape gives back unchanged: lower case,
      without spaces or `;`. */
  predicate PlainName(t: string)
  {
    forall i :: 0 <= i < |t| ==> t[i] != ' ' && t[i] != ';' && !IsUpper(t[i])
  }

  function SelectAll(t: string): string
  {
    "select * from " + t + ";"
  }

  lemma SelectAllLower(t: string)
    requires PlainName(t)
    ensures ToLower(SelectAll(t)) == SelectAll(t)
  {
    var q := SelectAll(t);
    forall i | 0 <= i < |q| ensures !IsUpper(q[i]) {
      if i < 14 {
        assert q[i] == "select * from "[i];
      } else if i < 14 + |t| {
        assert q[i] == t[i - 14];
      }
    }
    LowerUnchanged(q);
  }

  lemma SelectAllFromAt(t: string)
    ensures Index(SelectAll(t), "from") == 9
  {
    var q := SelectAll(t);
    forall k | 0 <= k < 9 ensures !OccursAt(q, "from", k) {
      if OccursAt(q, "from", k) {
        OccurrenceChar(q, "from", k, k);
      }
    }
    assert q[9..13] == "from";
    assert OccursAt(q, "from", 9);
  }

  lemma SelectAllRest(t: string)
    requires PlainName(t)
    ensures Contains(ToLower(SelectAll(t)), "from") && AfterFrom(SelectAll(t)) == t + ";"
  {
    var q := SelectAll(t);
    SelectAllLower(t);
    SelectAllFromAt(t);
    var w := t + ";";
    assert q[13..] == [' '] + w;
    assert AfterFrom(q) == Trim([' '] + w, " ");
    TrimOneSpace(w);
  }

  /** Trimming one leading space off a word that neither starts nor ends
      with a space. */
  lemma TrimOneSpace(w: string)
    requires |w| > 0 && w[0] != ' ' && w[|w| - 1] != ' '
    ensures Trim([' '] + w, " ") == w
  {
    assert ([' '] + w)[1..] == w;
    TrimLeftNothing(w, " ");
    assert TrimLeft([' '] + w, " ") == w;
    TrimRightNothing(w, " ");
  }

  lemma PlainWord(t: string)
    requires PlainName(t)
    ensures FirstWord(t + ";") == t
  {
    var w := t + ";";
    assert forall i :: 0 <= i < |w| ==> w[i] != ' ';
    assert ' ' !in w;
    assert w[|t|] == ';';
    var r := FirstWord(w);
    assert |r| == |t|;
    assert r == w[..|t|];
    assert w[..|t|] == t;
  }

  /** For a query `select * from <t>;` the table name is `t`. */
  lemma SelectAllFrom(t: string)
    requires PlainName(t)
    ensures TableNameFromQuery(SelectAll(t)) == t
  {
    SelectAllRest(t);
    PlainWord(t);
  }

  /** The usage example: `select * from tbl_test;` names table `tbl_test`. */
  lemma UsageExample()
    ensures TableNameFromQuery(SelectAll("tbl_test")) == "tbl_test"
  {
    assert PlainName("tbl_test");
    SelectAllFrom("tbl_test");
  }

  // ---------------------------------------------------------------------------
  // One-row INSERT lines (the builder in saveToSQLFile)

  function EscapeQuotes(s: string): string
  {
    ReplaceAll(s, "'", "\\'")
  }

  /** NULL or (NULL) in any letter case. */
  predicate IsNullWord(v: string)
  {
    ToUpper(v) == "NULL" || ToUpper(v) == "(NULL)"
  }

  /** A NULL word holds no quote, since upper-casing keeps quotes. */
  lemma NullWordNoQuote(v: string)
    requires IsNullWord(v)
    ensures '\'' !in v
  {
    var u := ToUpper(v);
    assert forall j :: 0 <= j < |u| ==> u[j] != '\'';
    forall j | 0 <= j < |v| ensures v[j] != '\'' {
      assert IsLower(v[j]) || u[j] == v[j];
    }
  }

  /** A string without quotes does not contain the one-quote pattern. */
  lemma NoQuoteNoMatch(s: string)
    requires '\'' !in s
    ensures !Contains(s, "'")
  {
    var k := Index(s, "'");
    if k >= 0 {
      OccurrenceChar(s, "'", k, k);
    }
  }

  /** Escaping keeps at least one quote when there is one. */
  lemma {:induction false} EscapeKeepsQuote(s: string)
    requires '\'' in s
    ensures '\'' in EscapeQuotes(s)
    decreases |s|
  {
    var r := EscapeQuotes(s);
    if s[..1] == "'" {
      assert r == "\\'" + EscapeQuotes(s[1..]);
      assert r[1] == '\'';
    } else {
      assert s[0] != '\'';
      var i :| 0 <= i < |s| && s[i] == '\'';
      assert s[1..][i - 1] == '\'';
      EscapeKeepsQuote(s[1..]);
      assert r == [s[0]] + EscapeQuotes(s[1..]);
    }
  }

  /** Escaping decides nothing about NULL: the escaped field spells NULL or
      (NULL) exactly when the field does, and is then the field itself. */
  lemma EscapeNullWord(t: string)
    ensures IsNullWord(EscapeQuotes(t)) <==> IsNullWord(t)
    ensures IsNullWord(t) ==> EscapeQuotes(t) == t
  {
    if IsNullWord(t) {
      NullWordNoQuote(t);
      NoQuoteNoMatch(t);
    } else if '\'' in t {
      EscapeKeepsQuote(t);
      if IsNullWord(EscapeQuotes(t)) {
        NullWordNoQuote(EscapeQuotes(t));
      }
    } else {
      NoQuoteNoMatch(t);
    }
  }

  /** One field's SQL literal: the space-trimmed field, bare NULL when it spells
      NULL or (NULL) in any case, otherwise single-quoted with every quote
      inside escaped. */
  function FieldLiteral(field: string): (r: string)
    ensures IsNullWord(Trim(field, " ")) ==> r == "NULL"
    ensures !IsNullWord(Trim(field, " ")) ==>
      |r| >= 2 && r[0] == '\'' && r[|r| - 1] == '\''
      && r[1..|r| - 1] == EscapeQuotes(Trim(field, " ")) && QuotesEscaped(r[1..|r| - 1])
  {
    var row := EscapeQuotes(Trim(field, " "));
    EscapeNullWord(Trim(field, " "));
    EscapedQuotes(Trim(field, " "));
    if IsNullWord(row) then "NULL" else "'" + row + "'"
  }

  /** The separator written before field `n` (counting from 1). */
  function Separator(n: nat): string
  {
    if n > 1 then "," else ""
  }

  /** The field literals of the first `n` fields of a record, separated by
      commas. */
  function Fields(record: seq<string>, n: nat): string
    requires n <= |record|
  {
    if n == 0 then "" else Fields(record, n - 1) + Separator(n) + FieldLiteral(record[n - 1])
  }

  /** The text that opens every line the builder writes. */
  function Opening(tablename: string, csvHeader: string): string
  {
    "INSERT INTO " + tablename + " (" + csvHeader + ") VALUES ("
  }

  /** The query string after the builder has appended `n` fields. */
  function LinePrefix(tablename: string, csvHeader: string, record: seq<string>, n: nat): string
    requires n <= |record|
  {
    if n == 0 then Opening(tablename, csvHeader)
    else LinePrefix(tablename, csvHeader, record, n - 1) + Separator(n) + FieldLiteral(record[n - 1])
  }

  /** The one-row INSERT line for a record. */
  function InsertLine(tablename: string, csvHeader: string, record: seq<string>): string
  {
    LinePrefix(tablename, csvHeader, record, |record|) + ");"
  }

  /** The query string is the opening followed by the fields so far. */
  lemma {:induction false} LinePrefixFields(tablename: string, csvHeader: string, record: seq<string>, n: nat)
    requires n <= |record|
    ensures LinePrefix(tablename, csvHeader, record, n) == Opening(tablename, csvHeader) + Fields(record, n)
  {
    if n > 0 {
      LinePrefixFields(tablename, csvHeader, record, n - 1);
      var open, fs := Opening(tablename, csvHeader), Fields(record, n - 1);
      ConcatAssoc(open, fs, Separator(n));
      ConcatAssoc(open, fs + Separator(n), FieldLiteral(record[n - 1]));
    }
  }

  /** The position of the `VALUES` keyword in a line that starts with the
      opening, when neither the table name nor the column list contains it. */
  function ValuesPos(tablename: string, csvHeader: string): nat
  {
    |"INSERT INTO "| + |tablename| + |" ("| + |csvHeader| + |") "|
  }

  /** The first `VALUES` of such a line is the opening's own. */
  lemma OpeningValues(tablename: string, csvHeader: string, rest: string)
    requires !Contains(tablename, VALUES) && !Contains(csvHeader, VALUES)
    ensures Index(Opening(tablename, csvHeader) + rest, VALUES) == ValuesPos(tablename, csvHeader)
  {
    var l := Opening(tablename, csvHeader) + rest;
    var i2 := 12 + |tablename|;
    var i4 := i2 + 2 + |csvHeader|;
    var p := ValuesPos(tablename, csvHeader);
    OpeningLayout(tablename, csvHeader, rest);
    NoOccurrenceInside(l, VALUES, tablename, 12);
    NoOccurrenceInside(l, VALUES, csvHeader, i2 + 2);
    forall k | 0 <= k < p ensures !OccursAt(l, VALUES, k) {
      if k < 12 || k == i2 || k == i2 + 1 || k == i4 || k == i4 + 1 {
        NotValuesAt(l, k);
      }
    }
    FirstOccurrence(l, VALUES, p);
  }

  /** Where the parts of the opening lie in a line that starts with it. */
  lemma OpeningLayout(tablename: string, csvHeader: string, rest: string)
    ensures var l := Opening(tablename, csvHeader) + rest;
      var i2 := 12 + |tablename|; var i4 := i2 + 2 + |csvHeader|; var p := ValuesPos(tablename, csvHeader);
      p + |VALUES| <= |l|
      && (forall k :: 0 <= k < 12 ==> l[k] != 'V')
      && l[i2] == ' ' && l[i2 + 1] == '(' && l[i4] == ')' && l[i4 + 1] == ' '
      && l[12..i2] == tablename && l[i2 + 2..i4] == csvHeader && l[p..p + |VALUES|] == VALUES
      && l[i4 + 1] !in VALUES && l[i2] !in VALUES
  {
    var l := Opening(tablename, csvHeader) + rest;
    assert l[..12] == "INSERT INTO ";
    forall k | 0 <= k < 12 ensures l[k] != 'V' {
      assert l[k] == l[..12][k];
    }
  }

  /** `VALUES` does not start at a character other than `V`. */
  lemma NotValuesAt(l: string, k: int)
    requires 0 <= k < |l| && l[k] != 'V'
    ensures !OccursAt(l, VALUES, k)
  {
    if k + |VALUES| <= |l| {
      assert l[k..k + |VALUES|][0] == l[k];
    }
  }

  /** `INSERT INTO` does not start at a character other than `I`. */
  lemma NotInsertAt(l: string, k: int)
    requires 0 <= k < |l| && l[k] != 'I'
    ensures !OccursAt(l, INSERT_INTO, k)
  {
    if k + |INSERT_INTO| <= |l| {
      assert l[k..k + |INSERT_INTO|][0] == l[k];
    }
  }

  /** A name without `INSERT INTO` has none once a space follows it: an
      occurrence ending at the space would end in a space, not in `O`. */
  lemma NoInsertWithSpace(x: string)
    requires !Contains(x, INSERT_INTO)
    ensures Index(x + " ", INSERT_INTO) == -1
  {
    var y := x + " ";
    var n := |INSERT_INTO|;
    assert y[0..|x|] == x;
    forall k ensures !OccursAt(y, INSERT_INTO, k) {
      if 0 <= k && k + n <= |x| {
        OccursWithin(y, INSERT_INTO, x, 0, k);
      } else if 0 <= k && k + n == |y| {
        assert y[k..k + n][n - 1] == ' ';
      }
    }
  }

  /** The first `VALUES` of a line with one at `p` and no `V` among its first
      twelve characters lies between the two. */
  lemma FirstValuesRange(l: string, p: nat)
    requires OccursAt(l, VALUES, p) && 12 <= |l|
    requires forall k :: 0 <= k < 12 ==> l[k] != 'V'
    ensures Contains(l, VALUES) && 12 <= Index(l, VALUES) <= p
  {
    var v := Index(l, VALUES);
    OccurrenceChar(l, VALUES, v, v);
  }

  /** No `INSERT INTO` starts between the table name and the space after the
      opening's `VALUES` in a line laid out like the opening. */
  lemma InsertFreeLayout(l: string, tablename: string, csvHeader: string, p: nat)
    requires p == 12 + |tablename| + 2 + |csvHeader| + 2 && p + |VALUES| < |l|
    requires l[12..12 + |tablename| + 1] == tablename + " " && l[12 + |tablename| + 1] == '('
    requires l[12 + |tablename| + 2..p - 2] == csvHeader && l[p - 2] == ')' && l[p - 1] == ' '
    requires l[p..p + |VALUES|] == VALUES && l[p + |VALUES|] == ' '
    requires !Contains(tablename, INSERT_INTO) && !Contains(csvHeader, INSERT_INTO)
    ensures forall k :: 12 <= k <= p + |VALUES| ==> !OccursAt(l, INSERT_INTO, k)
  {
    var i2 := 12 + |tablename|;
    NoInsertWithSpace(tablename);
    NoOccurrenceInside(l, INSERT_INTO, tablename + " ", 12);
    NoOccurrenceInside(l, INSERT_INTO, csvHeader, i2 + 2);
    forall k | 12 <= k <= p + |VALUES| ensures !OccursAt(l, INSERT_INTO, k) {
      if p <= k < p + |VALUES| {
        assert l[k] == l[p..p + |VALUES|][k - p];
        assert VALUES[k - p] in VALUES;
        NotInsertAt(l, k);
      } else if k == i2 + 1 || k == p - 2 || k == p - 1 || k == p + |VALUES| {
        NotInsertAt(l, k);
      }
    }
  }

  /** The table name in a line that starts with the opening is followed by a
      space. */
  lemma OpeningSpaced(tablename: string, csvHeader: string, rest: string)
    ensures var l := Opening(tablename, csvHeader) + rest;
      12 + |tablename| + 1 <= |l| && l[12..12 + |tablename| + 1] == tablename + " "
  {
    var l := Opening(tablename, csvHeader) + rest;
    assert l == "INSERT INTO " + (tablename + " ") + ("(" + csvHeader + ") VALUES (" + rest);
  }

  /** In a line that starts with the opening, the first `VALUES` is not
      directly followed by `INSERT INTO` when neither the table name nor the
      column list contains `INSERT INTO`, whatever they say about `VALUES`;
      so such a line is a row line. */
  lemma OpeningAfterValues(tablename: string, csvHeader: string, rest: string)
    requires !Contains(tablename, INSERT_INTO) && !Contains(csvHeader, INSERT_INTO)
    ensures var l := Opening(tablename, csvHeader) + rest;
      |HEADER_PREFIX| <= |l| && l[..|HEADER_PREFIX|] == HEADER_PREFIX
      && Index(l, INSERT_INTO) == 0 && Contains(l, VALUES) && |HEADER_PREFIX| <= Index(l, VALUES)
      && !OccursAt(l, INSERT_INTO, Index(l, VALUES) + |VALUES|)
      && RowLine(l)
  {
    var l := Opening(tablename, csvHeader) + rest;
    var p := ValuesPos(tablename, csvHeader);
    assert l[..12] == "INSERT INTO ";
    OpeningLayout(tablename, csvHeader, rest);
    OpeningRest(tablename, csvHeader, rest);
    OpeningSpaced(tablename, csvHeader, rest);
    OpeningInsert(tablename, csvHeader, rest);
    assert l[p + |VALUES|] == (" (" + rest)[0];
    FirstValuesRange(l, p);
    InsertFreeLayout(l, tablename, csvHeader, p);
    HeaderLineIsRow(l);
  }

  /** The tuple of a record: its field literals in parentheses. */
  function Tuple(record: seq<string>): string
  {
    " (" + Fields(record, |record|) + ")"
  }

  /** A builder line is the opening, the fields and the closing `);`. */
  lemma InsertLineParts(tablename: string, csvHeader: string, record: seq<string>)
    ensures InsertLine(tablename, csvHeader, record)
            == Opening(tablename, csvHeader) + (Fields(record, |record|) + ");")
  {
    LinePrefixFields(tablename, csvHeader, record, |record|);
    ConcatAssoc(Opening(tablename, csvHeader), Fields(record, |record|), ");");
  }

  /** A line made of the opening and more starts with `INSERT INTO`. */
  lemma OpeningInsert(tablename: string, csvHeader: string, rest: string)
    ensures Index(Opening(tablename, csvHeader) + rest, INSERT_INTO) == 0
  {
    var line := Opening(tablename, csvHeader) + rest;
    assert line[..|INSERT_INTO|] == INSERT_INTO;
    PrefixIndex(line, INSERT_INTO);
  }

  /** After the opening's `VALUES` comes ` (` and the rest of the line. */
  lemma OpeningRest(tablename: string, csvHeader: string, rest: string)
    ensures var line := Opening(tablename, csvHeader) + rest; var p := ValuesPos(tablename, csvHeader);
      p + |VALUES| <= |line| && line[..p + |VALUES|] == "INSERT INTO " + tablename + " (" + csvHeader + ") VALUES"
      && line[p + |VALUES|..] == " (" + rest
  {
    var header := "INSERT INTO " + tablename + " (" + csvHeader + ") VALUES";
    assert Opening(tablename, csvHeader) == header + " (";
    var line := Opening(tablename, csvHeader) + rest;
    ConcatAssoc(header, " (", rest);
    assert line == header + (" (" + rest);
  }

  /** The header the converter takes from a line made of the opening, any
      field text and `);` is the line up to and including `VALUES`. */
  lemma OpeningHeader(tablename: string, csvHeader: string, f: string)
    requires !Contains(tablename, VALUES) && !Contains(csvHeader, VALUES)
    ensures var line := Opening(tablename, csvHeader) + (f + ");");
      HeaderSliceOk(line)
      && HeaderOf(line) == "INSERT INTO " + tablename + " (" + csvHeader + ") VALUES"
  {
    OpeningValues(tablename, csvHeader, f + ");");
    OpeningInsert(tablename, csvHeader, f + ");");
    OpeningRest(tablename, csvHeader, f + ");");
  }

  /** The last `);` of ` (f);` is its end, so the rewriter makes it ` (f),`. */
  lemma TupleRewrite(f: string)
    ensures var after := " (" + (f + ");"); var k := LastIndex(after, ");");
      k >= 0 && after[..k + 1] + "," == " (" + f + ")" + ","
  {
    var after := " (" + (f + ");");
    var tail := |after| - 2;
    assert after[tail..] == ");";
    assert LastIndex(after, ");") == tail;
    assert after[..tail + 1] == " (" + f + ")";
  }

  /** The row the converter makes of such a line is the field text in
      parentheses followed by a comma, with the leading space kept. */
  lemma OpeningTuple(tablename: string, csvHeader: string, f: string)
    requires !Contains(tablename, VALUES) && !Contains(csvHeader, VALUES)
    ensures ConvertInsertIntoLine(Opening(tablename, csvHeader) + (f + ");")) == " (" + f + ")" + ","
  {
    var line := Opening(tablename, csvHeader) + (f + ");");
    OpeningValues(tablename, csvHeader, f + ");");
    OpeningInsert(tablename, csvHeader, f + ");");
    OpeningRest(tablename, csvHeader, f + ");");
    assert AfterValues(line) == " (" + (f + ");");
    TupleRewrite(f);
    ConvertAfterValues(line);
  }

  /** What the converter makes of a builder line: its header and its tuple. */
  lemma BuilderLineShape(tablename: string, csvHeader: string, record: seq<string>)
    requires !Contains(tablename, VALUES) && !Contains(csvHeader, VALUES)
    ensures var line := InsertLine(tablename, csvHeader, record);
      HeaderSliceOk(line)
      && HeaderOf(line) == "INSERT INTO " + tablename + " (" + csvHeader + ") VALUES"
      && ConvertInsertIntoLine(line) == Tuple(record) + ","
  {
    InsertLineParts(tablename, csvHeader, record);
    OpeningHeader(tablename, csvHeader, Fields(record, |record|));
    OpeningTuple(tablename, csvHeader, Fields(record, |record|));
  }

  /** Builder lines are row lines in the sense of row conservation: their
      rewrite never looks like a header and their header starts with
      `INSERT INTO `. A name may contain `VALUES`; only `INSERT INTO` in it
      could make a rewrite look like a header. */
  lemma BuilderLineIsRow(tablename: string, csvHeader: string, record: seq<string>)
    requires !Contains(tablename, INSERT_INTO) && !Contains(csvHeader, INSERT_INTO)
    ensures RowLine(InsertLine(tablename, csvHeader, record))
  {
    InsertLineParts(tablename, csvHeader, record);
    OpeningAfterValues(tablename, csvHeader, Fields(record, |record|) + ");");
  }

  /** One record's line, built by appending to the query string field by field
      (main_dbexport.go:363-380). */
  method BuildInsertLine(tablename: string, csvHeader: string, rows: seq<string>)
    returns (strQuery: string)
    ensures strQuery == InsertLine(tablename, csvHeader, rows)
  {
    strQuery := "INSERT INTO " + tablename + " (" + csvHeader + ") VALUES (";
    var i := 0;
    while i < |rows|
      invariant 0 <= i <= |rows|
      invariant strQuery == LinePrefix(tablename, csvHeader, rows, i)
    {
      ghost var before := strQuery + Separator(i + 1);
      ghost var lit := FieldLiteral(rows[i]);
      var row := Trim(rows[i], " ");
      if i > 0 {
        strQuery := strQuery + ",";
      }
      row := ReplaceAll(row, "'", "\\'");
      assert strQuery == before;
      if ToUpper(row) == "NULL" || ToUpper(row) == "(NULL)" {
        strQuery := strQuery + "NULL";
      } else {
        strQuery := strQuery + "'";
        strQuery := strQuery + row;
        strQuery := strQuery + "'";
        ConcatAssoc(before, "'", row);
        ConcatAssoc(before, "'" + row, "'");
      }
      assert strQuery == before + lit;
      i := i + 1;
    }
    strQuery := strQuery + ");";
  }

  /** The lines the builder writes for a table: one INSERT line per record,
      in record order. */
  function InsertLines(tablename: string, csvHeader: string, data: seq<seq<string>>): (r: seq<string>)
    ensures |r| == |data|
  {
    if |data| == 0 then []
    else InsertLines(tablename, csvHeader, data[..|data| - 1]) + [InsertLine(tablename, csvHeader, data[|data| - 1])]
  }

  /** Line `d` of the file is the INSERT line of record `d`. */
  lemma {:induction false} InsertLinesAt(tablename: string, csvHeader: string, data: seq<seq<string>>, d: nat)
    requires d < |data|
    ensures InsertLines(tablename, csvHeader, data)[d] == InsertLine(tablename, csvHeader, data[d])
    decreases |data|
  {
    var init := data[..|data| - 1];
    var prev := InsertLines(tablename, csvHeader, init);
    assert InsertLines(tablename, csvHeader, data) == prev + [InsertLine(tablename, csvHeader, data[|data| - 1])];
    if d < |data| - 1 {
      InsertLinesAt(tablename, csvHeader, init, d);
      assert init[d] == data[d];
    }
  }

  /** The builder loop of saveToSQLFile (main_dbexport.go:362-384): one INSERT
      line per record, in record order. */
  method BuildInsertLines(tablename: string, csvHeader: string, data: seq<seq<string>>)
    returns (queryLines: seq<string>)
    ensures queryLines == InsertLines(tablename, csvHeader, data)
  {
    queryLines := [];
    var d := 0;
    while d < |data|
      invariant 0 <= d <= |data|
      invariant queryLines == InsertLines(tablename, csvHeader, data[..d])
    {
      var strQuery := BuildInsertLine(tablename, csvHeader, data[d]);
      assert data[..d + 1][..d] == data[..d];
      queryLines := queryLines + [strQuery];
      d := d + 1;
    }
    assert data[..d] == data;
  }

  /** The lines the builder writes for a table named by the query pass the
      bulk converter's line check: the converter never panics on them and its
      output, once the header lines are left out, has one line per record. */
  lemma BuilderFileVerifies(query: string, csvHeader: string, data: seq<seq<string>>, lines: seq<string>)
    requires |data| > 0 && !Contains(csvHeader, INSERT_INTO)
    requires lines == InsertLines(TableNameFromQuery(query), csvHeader, data)
    ensures AllRows(lines) && Run(lines).Some?
    ensures CountLines(BulkConvert(lines), HEADER_PREFIX) == |data|
  {
    var t := TableNameFromQuery(query);
    TableNameIsNotKeyword(query);
    forall d | 0 <= d < |lines| ensures RowLine(lines[d]) {
      InsertLinesAt(t, csvHeader, data, d);
      BuilderLineIsRow(t, csvHeader, data[d]);
    }
    RowConservation(lines);
  }

  /** The last row of a file gets its final comma made a semicolon by the
      end-of-stream fixup, whichever of its two branches applies. */
  lemma RowEnd(row: string)
    requires |row| >= 3 && row[|row| - 1] == ')'
    ensures EndFixup(row + ",") == row + ";"
  {
    var x := row + ",";
    var n := |x|;
    assert x[n - 2..] == "),";
    assert x[..n - 1] == row;
  }

  /** An export of fewer than ROWS_PER_BATCH records with short lines becomes
      one statement: the shared header, then each record's tuple ending in
      `,`, the last one in `;`. */
  lemma SmallExport(tablename: string, csvHeader: string, data: seq<seq<string>>, lines: seq<string>)
    requires !Contains(tablename, VALUES) && !Contains(csvHeader, VALUES)
    requires 0 < |data| < ROWS_PER_BATCH && lines == InsertLines(tablename, csvHeader, data)
    requires forall d :: 0 <= d < |data| ==> |lines[d]| < MAX_BATCH_BYTES / ROWS_PER_BATCH
    ensures Run(lines).Some?
    ensures var out := BulkConvert(lines);
      |out| == |data| + 1
      && out[0] == "INSERT INTO " + tablename + " (" + csvHeader + ") VALUES"
      && (forall d :: 0 <= d < |data| - 1 ==> out[d + 1] == Tuple(data[d]) + ",")
      && out[|data|] == Tuple(data[|data| - 1]) + ";"
  {
    var header := "INSERT INTO " + tablename + " (" + csvHeader + ") VALUES";
    forall d | 0 <= d < |lines|
      ensures HeaderSliceOk(lines[d]) && HeaderOf(lines[d]) == header
      ensures ConvertInsertIntoLine(lines[d]) == Tuple(data[d]) + ","
    {
      InsertLinesAt(tablename, csvHeader, data, d);
      BuilderLineShape(tablename, csvHeader, data[d]);
    }
    SmallRun(lines);
    var n := |lines|;
    var last := Tuple(data[n - 1]);
    assert last == " (" + Fields(data[n - 1], |data[n - 1]|) + ")";
    RowEnd(last);
  }

  /** A one-record export gives two lines, the header and the record's tuple
      ending in `;`, however long the line: the byte limit is only tested
      while a batch is open. */
  lemma SingleRow(tablename: string, csvHeader: string, record: seq<string>)
    requires !Contains(tablename, VALUES) && !Contains(csvHeader, VALUES)
    ensures Run([InsertLine(tablename, csvHeader, record)]).Some?
    ensures BulkConvert([InsertLine(tablename, csvHeader, record)])
         == ["INSERT INTO " + tablename + " (" + csvHeader + ") VALUES", Tuple(record) + ";"]
  {
    var line := InsertLine(tablename, csvHeader, record);
    var header := "INSERT INTO " + tablename + " (" + csvHeader + ") VALUES";
    BuilderLineShape(tablename, csvHeader, record);
    HeaderCapture(START, line);
    assert [line][..0] == [];
    assert Run([line]) == Some(Step(START, line));
    var bl := [header, Tuple(record) + ","];
    assert Run([line]).value.bulklines == bl;
    FinishedLines(bl);
    var last := Tuple(record);
    assert last == " (" + Fields(record, |record|) + ")";
    RowEnd(last);
    TwoLines(FinishLines(bl), header, Tuple(record) + ";");
  }

  lemma TwoLines(out: seq<string>, a: string, b: string)
    requires |out| == 2 && out[0] == a && out[1] == b
    ensures out == [a, b]
  {
  }

  /** The tuple of each record, each ending in `,` as the rewriter leaves it. */
  function RowTuples(data: seq<seq<string>>): (r: seq<string>)
    ensures |r| == |data|
    ensures forall d :: 0 <= d < |data| ==> r[d] == Tuple(data[d]) + ","
  {
    seq(|data|, d requires 0 <= d < |data| => Tuple(data[d]) + ",")
  }

  /** A tuple as the builder writes it is a tuple line once rewritten. */
  lemma TupleIsTupleLine(record: seq<string>)
    ensures TupleLine(Tuple(record) + ",")
  {
    var t := Tuple(record) + ",";
    assert t == " (" + Fields(record, |record|) + "),";
    assert t[|t| - 2..] == "),";
  }

  /** An export of any size converts to whole statements under one header,
      each with 1 to ROWS_PER_BATCH tuples, every one but its last ending in
      `,` and its last in `;`; read in order, the statements hold every
      record's tuple once. This holds for batches closed by the line or the
      byte limit as well as for the last one. */
  lemma BuilderBatches(tablename: string, csvHeader: string, data: seq<seq<string>>)
    requires !Contains(tablename, VALUES) && !Contains(csvHeader, VALUES) && |data| > 0
    ensures Run(InsertLines(tablename, csvHeader, data)).Some?
    ensures exists batches :: (Batches(batches)
      && BulkConvert(InsertLines(tablename, csvHeader, data))
         == Statements("INSERT INTO " + tablename + " (" + csvHeader + ") VALUES", batches)
      && Flatten(batches) == RowTuples(data))
  {
    var header := "INSERT INTO " + tablename + " (" + csvHeader + ") VALUES";
    BuilderUniform(tablename, csvHeader, data);
    UniformOutput(InsertLines(tablename, csvHeader, data), header);
  }

  /** Every builder line of a file opens or joins a batch under the file's
      header, and the lines rewritten are the records' tuples. */
  lemma BuilderUniform(tablename: string, csvHeader: string, data: seq<seq<string>>)
    requires !Contains(tablename, VALUES) && !Contains(csvHeader, VALUES)
    ensures var lines := InsertLines(tablename, csvHeader, data);
      UniformRows(lines, "INSERT INTO " + tablename + " (" + csvHeader + ") VALUES")
      && Rewritten(lines) == RowTuples(data)
  {
    var lines := InsertLines(tablename, csvHeader, data);
    var header := "INSERT INTO " + tablename + " (" + csvHeader + ") VALUES";
    forall d | 0 <= d < |lines|
      ensures HeaderSliceOk(lines[d]) && HeaderOf(lines[d]) == header
      ensures TupleLine(ConvertInsertIntoLine(lines[d]))
      ensures Rewritten(lines)[d] == RowTuples(data)[d]
    {
      InsertLinesAt(tablename, csvHeader, data, d);
      BuilderLineShape(tablename, csvHeader, data[d]);
      TupleIsTupleLine(data[d]);
      RewrittenAt(lines, d);
    }
  }
}
