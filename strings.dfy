/** The string operations of JavaScript that the library relies on, written
    out over `seq<char>`: the `\s` class, greedy runs, trimming, `split`,
    `join`, `replace` with a string pattern, `toLowerCase`. */
module Strings {
  import opened Js

  /** The class `\s` of JavaScript regular expressions. */
  predicate IsSpace(c: char)
  {
    || c == ' '
    || '\t' <= c <= '\r'
    || c == '\U{00A0}'
    || c == '\U{1680}'
    || '\U{2000}' <= c <= '\U{200A}'
    || c == '\U{2028}'
    || c == '\U{2029}'
    || c == '\U{202F}'
    || c == '\U{205F}'
    || c == '\U{3000}'
    || c == '\U{FEFF}'
  }

  /** The characters that `.` does not match in a JavaScript regular expression. */
  predicate IsLineTerminator(c: char)
  {
    c == '\n' || c == '\r' || c == '\U{2028}' || c == '\U{2029}'
  }

  predicate NoLineTerminator(s: string)
  {
    forall k :: 0 <= k < |s| ==> !IsLineTerminator(s[k])
  }

  predicate AllSpace(s: string)
  {
    forall k :: 0 <= k < |s| ==> IsSpace(s[k])
  }

  /** Every character of `s` satisfies `p`. */
  predicate All(s: string, p: char -> bool)
  {
    forall k :: 0 <= k < |s| ==> p(s[k])
  }

  predicate StartsWith(s: string, prefix: string)
  {
    |prefix| <= |s| && s[..|prefix|] == prefix
  }

  /** A common first character can be dropped from both sides of a prefix test. */
  lemma StartsWithCons(c: char, y: string, w: string)
    ensures StartsWith([c] + y, [c] + w) <==> StartsWith(y, w)
  {
    if |w| <= |y| {
      assert ([c] + y)[..|w| + 1] == [c] + y[..|w|];
      assert ([c] + y[..|w|])[1..] == y[..|w|];
      assert ([c] + w)[1..] == w;
    }
  }

  /** A string with a non-empty prefix starts with the prefix's first character. */
  lemma StartsWithHead(t: string, p: string)
    requires p != []
    ensures StartsWith(t, p) ==> t != [] && t[0] == p[0]
  {
    if StartsWith(t, p) {
      assert t[..|p|][0] == t[0];
    }
  }

  /** Index just past the longest run of characters satisfying `p` that
      starts at `i`: what a greedy `[...]*` consumes. */
  function Span(s: string, i: nat, p: char -> bool): (r: nat)
    requires i <= |s|
    ensures i <= r <= |s|
    ensures r < |s| ==> !p(s[r])
    decreases |s| - i
  {
    if i < |s| && p(s[i]) then Span(s, i + 1, p) else i
  }

  /** Everything a greedy run passes over satisfies `p`. */
  lemma {:induction false} SpanRun(s: string, i: nat, p: char -> bool)
    requires i <= |s|
    ensures forall k :: i <= k < Span(s, i, p) ==> p(s[k])
    decreases |s| - i
  {
    if i < |s| && p(s[i]) {
      SpanRun(s, i + 1, p);
    }
  }

  /** A greedy run is determined by where it stops: any `j` with `p` on
      `[i, j)` and not on `s[j]` is the `Span`. */
  lemma SpanIs(s: string, i: nat, p: char -> bool, j: nat)
    requires i <= j <= |s|
    requires forall k :: i <= k < j ==> p(s[k])
    requires j == |s| || !p(s[j])
    ensures Span(s, i, p) == j
    decreases j - i
  {
    if i < j {
      SpanIs(s, i + 1, p, j);
    }
  }

  /** `s` without its trailing `\s` characters. */
  function TrimEnd(s: string): (r: string)
    ensures |r| <= |s| && r == s[..|r|]
    ensures r == [] || !IsSpace(r[|r| - 1])
    ensures forall k :: |r| <= k < |s| ==> IsSpace(s[k])
  {
    if s != [] && IsSpace(s[|s| - 1]) then TrimEnd(s[..|s| - 1]) else s
  }

  /** `s.replace(/^\s*|\s*$/g, "")`: the regular expression removes the
      leading and the trailing run of `\s` characters and nothing else. */
  function Trim(s: string): (r: string)
    ensures r == [] || (!IsSpace(r[0]) && !IsSpace(r[|r| - 1]))
    ensures (s == [] || (!IsSpace(s[0]) && !IsSpace(s[|s| - 1]))) ==> r == s
  {
    TrimEnd(s[Span(s, 0, IsSpace)..])
  }

  /** Trimming removes exactly the surrounding whitespace of a text that
      neither starts nor ends with whitespace. */
  lemma TrimExact(w1: string, x: string, w2: string)
    requires AllSpace(w1) && AllSpace(w2)
    requires x == [] || (!IsSpace(x[0]) && !IsSpace(x[|x| - 1]))
    ensures Trim(w1 + x + w2) == x
  {
    var s := w1 + x + w2;
    if x == [] {
      assert AllSpace(s);
      SpanIs(s, 0, IsSpace, |s|);
      assert s[|s|..] == [];
    } else {
      assert s[|w1|] == x[0];
      SpanIs(s, 0, IsSpace, |w1|);
      var t := s[|w1|..];
      assert t == x + w2;
      var r := TrimEnd(t);
      assert !IsSpace(t[|x| - 1]);
      assert |r| == |x|;
      assert r == t[..|x|] == x;
    }
  }

  /** A character absent from a string is absent from each of its suffixes. */
  lemma NotInSuffix(s: string, c: char, i: nat)
    requires c !in s && i <= |s|
    ensures c !in s[i..]
  {
    assert forall k :: 0 <= k < |s| - i ==> s[i..][k] == s[i + k];
  }

  /** A string starting with `p + q` starts with `p`. */
  lemma StartsWithShorter(t: string, p: string, q: string)
    ensures StartsWith(t, p + q) ==> StartsWith(t, p)
  {
    if StartsWith(t, p + q) {
      assert t[..|p|] == t[..|p + q|][..|p|];
    }
  }

  /** Index of the first `c` in `s`, if any. */
  function IndexOf(s: string, c: char): (r: Option<nat>)
    ensures r.Some? ==> r.value < |s| && s[r.value] == c
    ensures r.Some? ==> forall j :: 0 <= j < r.value ==> s[j] != c
    ensures r.None? ==> c !in s
  {
    if s == [] then None
    else if s[0] == c then Some(0)
    else
      match IndexOf(s[1..], c)
      case None => None
      case Some(k) => Some(k + 1)
  }

  /** `s.split(c)` for a one-character separator. */
  function Split(s: string, c: char): (r: seq<string>)
    ensures |r| >= 1
    ensures forall i :: 0 <= i < |r| ==> c !in r[i]
    decreases |s|
  {
    match IndexOf(s, c)
    case None => [s]
    case Some(k) => [s[..k]] + Split(s[k + 1..], c)
  }

  /** `xs.join(sep)`. */
  function Join(xs: seq<string>, sep: string): string
  {
    if |xs| == 0 then ""
    else if |xs| == 1 then xs[0]
    else xs[0] + sep + Join(xs[1..], sep)
  }

  /** Joining what `split` returned with the same separator gives back the string. */
  lemma {:induction false} JoinSplit(s: string, c: char)
    ensures Join(Split(s, c), [c]) == s
    decreases |s|
  {
    match IndexOf(s, c)
    case None =>
    case Some(k) =>
      var rest := Split(s[k + 1..], c);
      JoinSplit(s[k + 1..], c);
      assert Split(s, c) == [s[..k]] + rest;
      assert s == s[..k] + [c] + s[k + 1..];
  }

  /** Splitting a string at its first separator. */
  lemma SplitAfter(a: string, c: char, b: string)
    requires c !in a
    ensures Split(a + [c] + b, c) == [a] + Split(b, c)
  {
    var s := a + [c] + b;
    assert s[|a|] == c;
    assert forall j :: 0 <= j < |a| ==> s[j] == a[j];
    var k := IndexOf(s, c).value;
    assert k == |a|;
    assert s[..k] == a;
    assert s[k + 1..] == b;
  }

  /** Joined pieces followed by more text: the first piece, the separator,
      and the rest. */
  lemma JoinThenFirst(xs: seq<string>, c: char, t: string)
    requires |xs| >= 2
    ensures Join(xs, [c]) + [c] + t == xs[0] + [c] + (Join(xs[1..], [c]) + [c] + t)
  {
    var tail := Join(xs[1..], [c]);
    assert Join(xs, [c]) == xs[0] + [c] + tail;
  }

  /** Splitting the pieces `xs` (none holding the separator) joined by the
      separator, followed by a separator and `t`: the pieces come back, then
      the pieces of `t`. */
  lemma {:induction false} SplitJoinThen(xs: seq<string>, c: char, t: string)
    requires |xs| >= 1
    requires forall i :: 0 <= i < |xs| ==> c !in xs[i]
    ensures Split(Join(xs, [c]) + [c] + t, c) == xs + Split(t, c)
    decreases |xs|
  {
    if |xs| == 1 {
      SplitAfter(xs[0], c, t);
    } else {
      var u := Join(xs[1..], [c]) + [c] + t;
      JoinThenFirst(xs, c, t);
      SplitAfter(xs[0], c, u);
      SplitJoinThen(xs[1..], c, t);
      assert xs == [xs[0]] + xs[1..];
    }
  }

  /** Splitting pieces (none holding the separator) joined by the separator
      gives back the pieces. */
  lemma {:induction false} SplitJoin(xs: seq<string>, c: char)
    requires |xs| >= 1
    requires forall i :: 0 <= i < |xs| ==> c !in xs[i]
    ensures Split(Join(xs, [c]), c) == xs
    decreases |xs|
  {
    if |xs| == 1 {
      assert Join(xs, [c]) == xs[0];
    } else {
      var tail := Join(xs[1..], [c]);
      assert Join(xs, [c]) == xs[0] + [c] + tail;
      SplitAfter(xs[0], c, tail);
      SplitJoin(xs[1..], c);
      assert xs == [xs[0]] + xs[1..];
    }
  }

  /** `s.indexOf(c)` on a string whose first `c` follows the prefix `u`. */
  lemma IndexOfAfter(u: string, c: char, v: string)
    requires c !in u
    ensures IndexOf(u + [c] + v, c) == Some(|u|)
  {
    var s := u + [c] + v;
    assert s[|u|] == c;
    assert forall j :: 0 <= j < |u| ==> s[j] == u[j];
  }

  /** `pat` occurs in `s` at index `j`. */
  predicate OccursAt(s: string, pat: string, j: nat)
  {
    j + |pat| <= |s| && s[j..j + |pat|] == pat
  }

  /** An occurrence in a suffix is an occurrence in the whole string, at the
      shifted index, and the other way round. */
  lemma OccursInSuffix(s: string, pat: string, i: nat, j: nat)
    requires i <= |s|
    ensures OccursAt(s[i..], pat, j) <==> OccursAt(s, pat, i + j)
  {
    if j + |pat| <= |s[i..]| {
      assert s[i..][j..j + |pat|] == s[i + j..i + j + |pat|];
    }
  }

  /** Index of the first occurrence of `pat` in `s`, if any. */
  function IndexOfStr(s: string, pat: string): (r: Option<nat>)
    ensures r.Some? ==> OccursAt(s, pat, r.value)
    ensures r.Some? ==> forall j: nat :: j < r.value ==> !OccursAt(s, pat, j)
    ensures r.None? ==> forall j: nat :: !OccursAt(s, pat, j)
    decreases |s|
  {
    if |s| < |pat| then None
    else if s[..|pat|] == pat then Some(0)
    else
      var rest := IndexOfStr(s[1..], pat);
      assert forall j: nat :: 1 <= j ==> OccursAt(s, pat, j) == OccursAt(s[1..], pat, j - 1) by {
        forall j: nat | 1 <= j ensures OccursAt(s, pat, j) == OccursAt(s[1..], pat, j - 1) {
          var e := j + |pat|;
          if e <= |s| {
            var u := s[1..];
            assert forall i :: j <= i < e ==> s[i] == u[i - 1];
            assert s[j..e] == u[j - 1..e - 1];
          }
        }
      }
      assert !OccursAt(s, pat, 0);
      match rest
      case None => None
      case Some(k) => Some(k + 1)
  }

  /** `s.replace(pat, rep)` with a string pattern: only the first
      occurrence of `pat` is replaced. */
  function ReplaceFirst(s: string, pat: string, rep: string): string
  {
    match IndexOfStr(s, pat)
    case None => s
    case Some(k) => s[..k] + rep + s[k + |pat|..]
  }

  /** With a one-character pattern, `replace` rewrites the first
      occurrence and keeps everything after it, later occurrences included. */
  lemma ReplaceFirstChar(a: string, c: char, b: string, rep: string)
    requires c !in a
    ensures ReplaceFirst(a + [c] + b, [c], rep) == a + rep + b
  {
    var s := a + [c] + b;
    assert OccursAt(s, [c], |a|) by {
      assert s[|a|..|a| + 1] == [c];
    }
    var k := IndexOfStr(s, [c]).value;
    assert forall j: nat :: j < |a| ==> !OccursAt(s, [c], j) by {
      forall j: nat | j < |a| ensures !OccursAt(s, [c], j) {
        assert s[j..j + 1] == [a[j]];
      }
    }
    assert k == |a|;
    assert s[..k] == a;
    assert s[k + 1..] == b;
  }

  /** With a one-character pattern that does not occur, `replace` changes nothing. */
  lemma ReplaceFirstAbsent(s: string, c: char, rep: string)
    requires c !in s
    ensures ReplaceFirst(s, [c], rep) == s
  {
    assert forall j: nat :: !OccursAt(s, [c], j) by {
      forall j: nat ensures !OccursAt(s, [c], j) {
        if j + 1 <= |s| {
          assert s[j..j + 1] == [s[j]];
        }
      }
    }
  }

  /** A pattern longer than the string does not occur in it, and
      `replace` changes nothing. */
  lemma ReplaceFirstShort(s: string, pat: string, rep: string)
    requires |s| < |pat|
    ensures ReplaceFirst(s, pat, rep) == s
  {
  }

  /** A string that is exactly the pattern is replaced as a whole. */
  lemma ReplaceFirstWhole(pat: string, rep: string)
    ensures ReplaceFirst(pat, pat, rep) == rep
  {
    assert pat[..|pat|] == pat;
    assert pat[|pat|..] == [];
  }

  function LowerChar(c: char): char
  {
    if 'A' <= c <= 'Z' then (c as int + 32) as char else c
  }

  /** `toLowerCase` on the ASCII letters. */
  function Lower(s: string): (r: string)
    ensures |r| == |s|
    ensures forall k :: 0 <= k < |s| ==> r[k] == LowerChar(s[k])
  {
    if s == [] then [] else [LowerChar(s[0])] + Lower(s[1..])
  }

  /** `s.replace(/\s/g, "")`. */
  function RemoveSpaces(s: string): (r: string)
    ensures forall k :: 0 <= k < |r| ==> !IsSpace(r[k])
    ensures r == [] <==> AllSpace(s)
    ensures (forall k :: 0 <= k < |s| ==> !IsSpace(s[k])) ==> r == s
  {
    if s == [] then []
    else
      var rest := RemoveSpaces(s[1..]);
      assert AllSpace(s) <==> IsSpace(s[0]) && AllSpace(s[1..]) by {
        assert forall k :: 1 <= k < |s| ==> s[k] == s[1..][k - 1];
      }
      if IsSpace(s[0]) then rest else [s[0]] + rest
  }
}
