/** Counterparts of the Go `strings` functions the exporter relies on.
    A Go string is a byte string; here one `char` stands for one byte, so
    every index and length below is a byte index or a byte length. */
module GoStrings {

  lemma ConcatAssoc(x: string, y: string, z: string)
    ensures (x + y) + z == x + (y + z)
  {
  }

  /** `sub` occurs in `s` starting at position `k`. */
  predicate OccursAt(s: string, sub: string, k: int)
  {
    0 <= k && k + |sub| <= |s| && s[k..k + |sub|] == sub
  }

  /** A character inside an occurrence is a character of the pattern. */
  lemma OccurrenceChar(s: string, sub: string, k: int, j: int)
    requires OccursAt(s, sub, k) && k <= j < k + |sub|
    ensures s[j] == sub[j - k]
  {
    assert s[k..k + |sub|][j - k] == s[j];
  }

  lemma OccursDropFirst(s: string, sub: string, k: int)
    requires 1 <= k && |s| > 0
    ensures OccursAt(s, sub, k) <==> OccursAt(s[1..], sub, k - 1)
  {
    if k + |sub| <= |s| {
      assert s[k..k + |sub|] == s[1..][k - 1..k - 1 + |sub|];
    }
  }

  lemma OccursDropLast(s: string, sub: string, k: int)
    requires 0 < |s| && |sub| <= |s| && s[|s| - |sub|..] != sub
    ensures OccursAt(s, sub, k) <==> OccursAt(s[..|s| - 1], sub, k)
  {
    if 0 <= k && k + |sub| <= |s| - 1 {
      assert s[k..k + |sub|] == s[..|s| - 1][k..k + |sub|];
    }
  }

  /** strings.Index: the first position at which `sub` occurs in `s`, or -1. */
  function Index(s: string, sub: string): (r: int)
    ensures -1 <= r <= |s|
    ensures r == -1 <==> forall k :: !OccursAt(s, sub, k)
    ensures r >= 0 ==> OccursAt(s, sub, r) && forall k :: 0 <= k < r ==> !OccursAt(s, sub, k)
    decreases |s|
  {
    if |s| < |sub| then -1
    else if s[..|sub|] == sub then
      assert OccursAt(s, sub, 0);
      0
    else
      var j := Index(s[1..], sub);
      IndexStep(s, sub, j);
      if j < 0 then -1 else j + 1
  }

  /** Index of `s` when `sub` does not start it, from Index of `s[1..]`. */
  lemma IndexStep(s: string, sub: string, j: int)
    requires |s| > 0 && |sub| <= |s| && s[..|sub|] != sub
    requires -1 <= j
    requires j == -1 <==> forall k :: !OccursAt(s[1..], sub, k)
    requires j >= 0 ==> OccursAt(s[1..], sub, j) && forall k :: 0 <= k < j ==> !OccursAt(s[1..], sub, k)
    ensures var r := if j < 0 then -1 else j + 1;
      (r == -1 <==> forall k :: !OccursAt(s, sub, k))
      && (r >= 0 ==> OccursAt(s, sub, r) && forall k :: 0 <= k < r ==> !OccursAt(s, sub, k))
  {
    forall k | 1 <= k ensures OccursAt(s, sub, k) <==> OccursAt(s[1..], sub, k - 1) {
      OccursDropFirst(s, sub, k);
    }
    assert !OccursAt(s, sub, 0);
    assert j >= 0 ==> OccursAt(s, sub, j + 1);
  }

  /** An occurrence with none before it is the one Index finds. */
  lemma FirstOccurrence(s: string, sub: string, p: int)
    requires OccursAt(s, sub, p) && forall k :: 0 <= k < p ==> !OccursAt(s, sub, k)
    ensures Index(s, sub) == p
  {
  }

  /** strings.LastIndex: the last position at which `sub` occurs in `s`, or -1. */
  function LastIndex(s: string, sub: string): (r: int)
    ensures -1 <= r <= |s|
    ensures r == -1 <==> forall k :: !OccursAt(s, sub, k)
    ensures r >= 0 ==> OccursAt(s, sub, r) && forall k :: r < k ==> !OccursAt(s, sub, k)
    decreases |s|
  {
    if |s| < |sub| then -1
    else if s[|s| - |sub|..] == sub then
      assert OccursAt(s, sub, |s| - |sub|);
      |s| - |sub|
    else
      var t := s[..|s| - 1];
      forall k ensures OccursAt(s, sub, k) <==> OccursAt(t, sub, k) {
        OccursDropLast(s, sub, k);
      }
      LastIndex(t, sub)
  }

  /** Searching for a one-character string finds the first position holding
      that character. */
  lemma IndexChar(s: string, c: char)
    ensures Index(s, [c]) == -1 <==> c !in s
    ensures Index(s, [c]) >= 0 ==> s[Index(s, [c])] == c
    ensures forall i :: 0 <= i < Index(s, [c]) ==> s[i] != c
  {
    var r := Index(s, [c]);
    forall i | 0 <= i < |s| ensures OccursAt(s, [c], i) <==> s[i] == c {
      assert s[i..i + 1] == [s[i]];
    }
    if r >= 0 {
      assert s[r..r + 1] == [s[r]];
    }
    if c in s {
      var i :| 0 <= i < |s| && s[i] == c;
      assert OccursAt(s, [c], i);
    }
  }

  /** The text before the first occurrence of a character is a prefix free of
      that character, and of any character absent from the whole string. */
  lemma BeforeFirst(s: string, c: char, d: char)
    ensures c in s ==> 0 <= Index(s, [c]) < |s| && s[Index(s, [c])] == c
    ensures c in s ==> s[..Index(s, [c])] <= s && c !in s[..Index(s, [c])]
    ensures c in s && d !in s ==> d !in s[..Index(s, [c])]
  {
    IndexChar(s, c);
    var e := Index(s, [c]);
    if e >= 0 {
      assert forall i :: 0 <= i < e ==> s[..e][i] == s[i];
    }
  }

  /** No occurrence of `sub` starts inside a copy of `x` within `s` when `sub`
      does not occur in `x` and the character after the copy is not in `sub`. */
  lemma NoOccurrenceInside(s: string, sub: string, x: string, off: nat)
    requires off + |x| < |s| && s[off..off + |x|] == x
    requires Index(x, sub) == -1 && s[off + |x|] !in sub
    ensures forall k :: off <= k < off + |x| ==> !OccursAt(s, sub, k)
  {
    forall k | off <= k < off + |x| ensures !OccursAt(s, sub, k) {
      if k + |sub| <= off + |x| {
        OccursWithin(s, sub, x, off, k);
      } else {
        OccursCovers(s, sub, k, off + |x|);
      }
    }
  }

  /** An occurrence lying inside a copy of `x` is an occurrence in `x`. */
  lemma OccursWithin(s: string, sub: string, x: string, off: nat, k: int)
    requires off + |x| <= |s| && s[off..off + |x|] == x
    requires off <= k && k + |sub| <= off + |x|
    ensures OccursAt(s, sub, k) <==> OccursAt(x, sub, k - off)
  {
    var a, b := s[k..k + |sub|], x[k - off..k - off + |sub|];
    forall i | 0 <= i < |sub| ensures a[i] == b[i] {
      assert x[k - off + i] == s[off..off + |x|][k - off + i];
    }
    assert a == b;
  }

  /** An occurrence covering position `j` puts a character of `sub` there. */
  lemma OccursCovers(s: string, sub: string, k: int, j: int)
    requires 0 <= k <= j < k + |sub| && j < |s|
    ensures OccursAt(s, sub, k) ==> s[j] in sub
  {
    if OccursAt(s, sub, k) {
      OccurrenceChar(s, sub, k, j);
      assert sub[j - k] in sub;
    }
  }

  /** strings.Contains */
  predicate Contains(s: string, sub: string)
  {
    Index(s, sub) >= 0
  }

  /** A string contains a pattern exactly when the pattern occurs in it
      somewhere. */
  lemma ContainsOccurs(s: string, sub: string)
    ensures Contains(s, sub) <==> exists k :: OccursAt(s, sub, k)
  {
    if Contains(s, sub) {
      assert OccursAt(s, sub, Index(s, sub));
    }
  }

  /** strings.HasPrefix */
  predicate HasPrefix(s: string, prefix: string)
  {
    prefix <= s
  }

  /** A string starts with a prefix exactly when Index finds the prefix at
      position 0. */
  lemma HasPrefixIndex(s: string, prefix: string)
    ensures HasPrefix(s, prefix) <==> Index(s, prefix) == 0
  {
    if HasPrefix(s, prefix) {
      assert OccursAt(s, prefix, 0);
    }
    if Index(s, prefix) == 0 {
      assert OccursAt(s, prefix, 0);
      assert s[..|prefix|] == prefix;
    }
  }

  /** A prefix occurs at position 0, so Index finds it there. */
  lemma PrefixIndex(s: string, prefix: string)
    requires HasPrefix(s, prefix)
    ensures Index(s, prefix) == 0
  {
    assert OccursAt(s, prefix, 0);
  }

  /** strings.TrimLeft(s, cutset): drop the leading characters that are in `cutset`. */
  function TrimLeft(s: string, cutset: string): (r: string)
    ensures |r| <= |s| && r == s[|s| - |r|..]
    ensures forall i :: 0 <= i < |s| - |r| ==> s[i] in cutset
    ensures r == [] || r[0] !in cutset
  {
    if |s| > 0 && s[0] in cutset then
      var r := TrimLeft(s[1..], cutset);
      TrimLeftStep(s, cutset, r);
      r
    else s
  }

  /** What TrimLeft of `s[1..]` promises carries over to `s` when `s[0]` is
      cut. */
  lemma TrimLeftStep(s: string, cutset: string, r: string)
    requires |s| > 0 && s[0] in cutset
    requires |r| <= |s| - 1 && r == s[1..][|s| - 1 - |r|..]
    requires forall i :: 0 <= i < |s| - 1 - |r| ==> s[1..][i] in cutset
    ensures |r| <= |s| && r == s[|s| - |r|..]
    ensures forall i :: 0 <= i < |s| - |r| ==> s[i] in cutset
  {
    assert s[1..][|s| - 1 - |r|..] == s[|s| - |r|..];
    forall i | 0 < i < |s| - |r| ensures s[i] in cutset {
      assert s[1..][i - 1] == s[i];
    }
  }

  /** strings.TrimRight(s, cutset): drop the trailing characters that are in `cutset`. */
  function TrimRight(s: string, cutset: string): (r: string)
    ensures |r| <= |s| && r == s[..|r|]
    ensures forall i :: |r| <= i < |s| ==> s[i] in cutset
    ensures r == [] || r[|r| - 1] !in cutset
  {
    if |s| > 0 && s[|s| - 1] in cutset then TrimRight(s[..|s| - 1], cutset) else s
  }

  /** strings.Trim(s, cutset): drop leading and trailing characters that are in
      `cutset`; what is left is the middle of `s`, starting at `|s| - |TrimLeft(s)|`. */
  function Trim(s: string, cutset: string): (r: string)
    ensures |r| <= |s|
    ensures r == [] || (r[0] !in cutset && r[|r| - 1] !in cutset)
    ensures var a := |s| - |TrimLeft(s, cutset)|;
      a + |r| <= |s| && r == s[a..a + |r|]
      && (forall i :: 0 <= i < a ==> s[i] in cutset)
      && (forall i :: a + |r| <= i < |s| ==> s[i] in cutset)
  {
    var l := TrimLeft(s, cutset);
    var r := TrimRight(l, cutset);
    MiddleSlice(s, cutset, l, r);
    r
  }

  /** What TrimLeft and TrimRight promise makes their composition the middle
      of `s` between two runs of cutset characters. */
  lemma MiddleSlice(s: string, cutset: string, l: string, r: string)
    requires |l| <= |s| && l == s[|s| - |l|..]
    requires forall i :: 0 <= i < |s| - |l| ==> s[i] in cutset
    requires l == [] || l[0] !in cutset
    requires |r| <= |l| && r == l[..|r|]
    requires forall i :: |r| <= i < |l| ==> l[i] in cutset
    requires r == [] || r[|r| - 1] !in cutset
    ensures r == [] || (r[0] !in cutset && r[|r| - 1] !in cutset)
    ensures var a := |s| - |l|;
      a + |r| <= |s| && r == s[a..a + |r|]
      && (forall i :: 0 <= i < a ==> s[i] in cutset)
      && (forall i :: a + |r| <= i < |s| ==> s[i] in cutset)
  {
    var a := |s| - |l|;
    forall i | a + |r| <= i < |s| ensures s[i] in cutset {
      assert s[i] == l[i - a];
    }
    if r != [] {
      assert r[0] == l[0];
    }
  }

  /** Trimming a string none of whose characters is in the cutset changes nothing. */
  lemma TrimNothing(s: string, cutset: string)
    requires forall i :: 0 <= i < |s| ==> s[i] !in cutset
    ensures Trim(s, cutset) == s
  {
    TrimLeftNothing(s, cutset);
    TrimRightNothing(s, cutset);
  }

  lemma TrimLeftNothing(s: string, cutset: string)
    requires |s| > 0 ==> s[0] !in cutset
    ensures TrimLeft(s, cutset) == s
  {
  }

  lemma TrimRightNothing(s: string, cutset: string)
    requires |s| > 0 ==> s[|s| - 1] !in cutset
    ensures TrimRight(s, cutset) == s
  {
  }

  /** In particular trimming spaces off a string without spaces. */
  lemma TrimSpaceFree(s: string)
    requires ' ' !in s
    ensures Trim(s, " ") == s
  {
    forall i | 0 <= i < |s| ensures s[i] !in " " {
      assert s[i] in s;
    }
    TrimNothing(s, " ");
  }

  predicate IsUpper(c: char) { 'A' <= c <= 'Z' }
  predicate IsLower(c: char) { 'a' <= c <= 'z' }

  /** The lower-case counterpart of an ASCII upper-case letter; any other
      character is its own. */
  function LowerChar(c: char): (d: char)
    ensures IsUpper(c) ==> IsLower(d) && d as int - 'a' as int == c as int - 'A' as int
    ensures !IsUpper(c) ==> d == c
  {
    if IsUpper(c) then (c as int - 'A' as int + 'a' as int) as char else c
  }

  /** The upper-case counterpart of an ASCII lower-case letter; any other
      character is its own. */
  function UpperChar(c: char): (d: char)
    ensures IsLower(c) ==> IsUpper(d) && d as int - 'A' as int == c as int - 'a' as int
    ensures !IsLower(c) ==> d == c
  {
    if IsLower(c) then (c as int - 'a' as int + 'A' as int) as char else c
  }

  /** strings.ToLower on ASCII letters: each upper-case letter becomes its
      lower-case counterpart, no upper-case letter is left and every other
      character is kept. */
  function ToLower(s: string): (r: string)
    ensures |r| == |s|
    ensures forall i :: 0 <= i < |r| ==> !IsUpper(r[i])
    ensures forall i :: 0 <= i < |r| ==> r[i] == LowerChar(s[i])
  {
    if |s| == 0 then [] else [LowerChar(s[0])] + ToLower(s[1..])
  }

  /** Lower-casing a string without upper-case letters changes nothing. */
  lemma LowerUnchanged(s: string)
    requires forall i :: 0 <= i < |s| ==> !IsUpper(s[i])
    ensures ToLower(s) == s
  {
    var r := ToLower(s);
    forall i | 0 <= i < |s| ensures r[i] == s[i] {
      assert !IsUpper(s[i]);
    }
  }

  /** strings.ToUpper on ASCII letters: no lower-case letter is left and every
      other character is kept. */
  function ToUpper(s: string): (r: string)
    ensures |r| == |s|
    ensures forall i :: 0 <= i < |r| ==> !IsLower(r[i])
    ensures forall i :: 0 <= i < |r| ==> r[i] == UpperChar(s[i])
  {
    if |s| == 0 then [] else [UpperChar(s[0])] + ToUpper(s[1..])
  }

  /** strings.ReplaceAll: replace the non-overlapping occurrences of `pat`, taken
      from left to right, by `rep`; an empty `pat` inserts `rep` before every
      character and at the end, as Go does. A string in which `pat` does not
      occur comes back unchanged. */
  function ReplaceAll(s: string, pat: string, rep: string): (r: string)
    ensures |pat| > 0 && !Contains(s, pat) ==> r == s
    decreases |s|
  {
    if |pat| == 0 then
      if |s| == 0 then rep else rep + [s[0]] + ReplaceAll(s[1..], pat, rep)
    else if |s| < |pat| then s
    else if s[..|pat|] == pat then
      assert OccursAt(s, pat, 0);
      rep + ReplaceAll(s[|pat|..], pat, rep)
    else
      assert !Contains(s, pat) ==> !Contains(s[1..], pat) by {
        if Contains(s[1..], pat) {
          var k := Index(s[1..], pat);
          assert s[1..][k..k + |pat|] == s[k + 1..k + 1 + |pat|];
          assert OccursAt(s, pat, k + 1);
        }
      }
      [s[0]] + ReplaceAll(s[1..], pat, rep)
  }

  /** Every single quote in `r` is preceded by a backslash. */
  predicate QuotesEscaped(r: string)
  {
    forall i :: 0 <= i < |r| && r[i] == '\'' ==> 0 < i && r[i - 1] == '\\'
  }

  /** Escaping single quotes the way the exporter does (`'` becomes `\'`) leaves
      every quote of the result preceded by a backslash. */
  lemma {:induction false} EscapedQuotes(s: string)
    ensures QuotesEscaped(ReplaceAll(s, "'", "\\'"))
    decreases |s|
  {
    var r := ReplaceAll(s, "'", "\\'");
    if |s| > 0 {
      var tail := ReplaceAll(s[1..], "'", "\\'");
      EscapedQuotes(s[1..]);
      var n := if s[..1] == "'" then 2 else 1;
      assert r == (if n == 2 then "\\'" else [s[0]]) + tail;
      assert n == 1 ==> r[0] != '\'';
      forall i | 0 <= i < |r| && r[i] == '\'' ensures 0 < i && r[i - 1] == '\\' {
        if i < n {
          assert n == 2 && r[0] == '\\';
        } else {
          assert tail[i - n] == '\'';
          assert 0 < i - n && tail[i - n - 1] == '\\';
          assert r[i - 1] == tail[i - n - 1];
        }
      }
    }
  }

  /** Escaping single quotes one character at a time: a quote becomes `\'`,
      every other character is kept, in order. */
  function EscapeEach(s: string): (r: string)
    ensures |r| >= |s|
  {
    if |s| == 0 then [] else (if s[0] == '\'' then "\\'" else [s[0]]) + EscapeEach(s[1..])
  }

  /** ReplaceAll of `'` by `\'` is that per-character escape: nothing but the
      quotes is changed, and nothing is dropped or reordered. */
  lemma {:induction false} ReplaceQuotes(s: string)
    ensures ReplaceAll(s, "'", "\\'") == EscapeEach(s)
    decreases |s|
  {
    if |s| > 0 {
      ReplaceQuotes(s[1..]);
      assert (s[..1] == "'") <==> s[0] == '\'';
    }
  }
}
