/** sentence_iterator: each line of the test file split on runs of whitespace,
    as Python's str.split() with no argument does. */
module Tokens {

  /** The characters str.split() treats as whitespace in a byte string. */
  predicate IsSpace(c: char) {
    c == ' ' || c == '\t' || c == '\n' || c == '\r' || c == '\U{000B}' || c == '\U{000C}'
  }

  /** A token: a non-empty run of non-whitespace characters. */
  predicate IsToken(t: string) {
    |t| > 0 && forall k :: 0 <= k < |t| ==> !IsSpace(t[k])
  }

  /** The characters of s that are not whitespace, in order. */
  function NonSpace(s: string): string
    decreases |s|
  {
    if s == [] then [] else (if IsSpace(s[0]) then [] else [s[0]]) + NonSpace(s[1..])
  }

  /** The tokens joined end to end. */
  function Concat(ts: seq<string>): string
    decreases |ts|
  {
    if ts == [] then [] else ts[0] + Concat(ts[1..])
  }

  /** Whitespace only, possibly empty. */
  predicate IsBlank(b: string) {
    forall k :: 0 <= k < |b| ==> IsSpace(b[k])
  }

  /** The tokens ts laid out with the gaps between them: gaps[0] before the
      first token, gaps[k] between tokens k-1 and k, and the last gap after
      the last token. */
  function Layout(ts: seq<string>, gaps: seq<string>): string
    requires |gaps| == |ts| + 1
    decreases |ts|
  {
    if ts == [] then gaps[0] else gaps[0] + ts[0] + Layout(ts[1..], gaps[1..])
  }

  /** A layout of a line: tokens separated by non-empty whitespace, with
      whitespace, possibly none, before the first and after the last. */
  predicate IsLayout(ts: seq<string>, gaps: seq<string>) {
    && |gaps| == |ts| + 1
    && (forall k :: 0 <= k < |ts| ==> IsToken(ts[k]))
    && (forall k :: 0 <= k < |gaps| ==> IsBlank(gaps[k]))
    && (forall k :: 0 < k < |ts| ==> |gaps[k]| > 0)
  }

  /** The length of the run of non-whitespace characters that starts s. */
  function RunLength(s: string): (n: nat)
    ensures n <= |s|
    ensures forall k :: 0 <= k < n ==> !IsSpace(s[k])
    ensures n < |s| ==> IsSpace(s[n])
    decreases |s|
  {
    if s == [] || IsSpace(s[0]) then 0 else 1 + RunLength(s[1..])
  }

  /** str.split(): leading whitespace skipped, then the maximal run of
      non-whitespace taken as a token, and so on to the end. The result is a
      sequence of tokens that together hold exactly the non-whitespace
      characters of s, in order. */
  function Split(s: string): (r: seq<string>)
    ensures forall k :: 0 <= k < |r| ==> IsToken(r[k])
    ensures Concat(r) == NonSpace(s)
    decreases |s|
  {
    if s == [] then []
    else if IsSpace(s[0]) then
      Split(s[1..])
    else
      var n := RunLength(s);
      NonSpaceAppend(s[..n], s[n..]);
      NonSpaceOfToken(s[..n]);
      assert s[..n] + s[n..] == s;
      [s[..n]] + Split(s[n..])
  }

  lemma {:induction false} NonSpaceAppend(a: string, b: string)
    ensures NonSpace(a + b) == NonSpace(a) + NonSpace(b)
    decreases |a|
  {
    if a != [] {
      assert (a + b)[0] == a[0] && (a + b)[1..] == a[1..] + b;
      NonSpaceAppend(a[1..], b);
      var h: string := if IsSpace(a[0]) then [] else [a[0]];
      assert h + (NonSpace(a[1..]) + NonSpace(b)) == (h + NonSpace(a[1..])) + NonSpace(b);
    } else {
      assert a + b == b;
    }
  }

  lemma {:induction false} NonSpaceOfToken(t: string)
    requires forall k :: 0 <= k < |t| ==> !IsSpace(t[k])
    ensures NonSpace(t) == t
    decreases |t|
  {
    if t != [] {
      NonSpaceOfToken(t[1..]);
    }
  }

  /** A line laid out as tokens separated by whitespace runs, with any
      whitespace before and after, splits into exactly those tokens. */
  lemma {:induction false} SplitLayout(ts: seq<string>, gaps: seq<string>)
    requires IsLayout(ts, gaps)
    ensures Split(Layout(ts, gaps)) == ts
    decreases |ts|
  {
    if ts == [] {
      SplitBlank(gaps[0], []);
      assert gaps[0] + [] == gaps[0];
    } else {
      var rest := Layout(ts[1..], gaps[1..]);
      assert IsLayout(ts[1..], gaps[1..]);
      SplitLayout(ts[1..], gaps[1..]);
      LayoutStart(ts[1..], gaps[1..]);
      assert gaps[0] + ts[0] + rest == gaps[0] + (ts[0] + rest);
      SplitBlank(gaps[0], ts[0] + rest);
      SplitToken(ts[0], rest);
    }
  }

  /** Every line is a layout of the tokens it splits into, so SplitLayout
      determines Split on every line, including one that ends in a newline. */
  lemma {:induction false} LayoutOf(s: string) returns (ts: seq<string>, gaps: seq<string>)
    ensures IsLayout(ts, gaps) && Layout(ts, gaps) == s && Split(s) == ts
    ensures |s| > 0 && IsSpace(s[0]) ==> |gaps[0]| > 0
    decreases |s|, 1
  {
    if s == [] {
      ts, gaps := [], [[]];
    } else if IsSpace(s[0]) {
      ts, gaps := LayoutOfSpace(s);
    } else {
      ts, gaps := LayoutOfToken(s);
    }
    SplitLayout(ts, gaps);
  }

  /** LayoutOf for a line that starts with whitespace. */
  lemma {:induction false} LayoutOfSpace(s: string) returns (ts: seq<string>, gaps: seq<string>)
    requires |s| > 0 && IsSpace(s[0])
    ensures IsLayout(ts, gaps) && Layout(ts, gaps) == s && |gaps[0]| > 0
    decreases |s|, 0
  {
    var gaps';
    ts, gaps' := LayoutOf(s[1..]);
    gaps := ConsGap(s[0], ts, gaps');
    assert [s[0]] + s[1..] == s;
  }

  /** LayoutOf for a line that starts with a token. */
  lemma {:induction false} LayoutOfToken(s: string) returns (ts: seq<string>, gaps: seq<string>)
    requires |s| > 0 && !IsSpace(s[0])
    ensures IsLayout(ts, gaps) && Layout(ts, gaps) == s
    decreases |s|, 0
  {
    var n := RunLength(s);
    var ts', gaps' := LayoutOf(s[n..]);
    if n < |s| {
      assert s[n..][0] == s[n];
    }
    ts, gaps := ConsToken(s[..n], ts', gaps');
    assert s[..n] + s[n..] == s;
  }

  /** One more whitespace character in front of a layout widens its first gap. */
  lemma ConsGap(c: char, ts: seq<string>, gaps': seq<string>) returns (gaps: seq<string>)
    requires IsSpace(c) && IsLayout(ts, gaps')
    ensures IsLayout(ts, gaps) && Layout(ts, gaps) == [c] + Layout(ts, gaps') && |gaps[0]| > 0
  {
    gaps := [[c] + gaps'[0]] + gaps'[1..];
    LayoutHead(ts, gaps', [c]);
    assert IsBlank([c] + gaps'[0]);
    assert forall k :: 1 <= k < |gaps| ==> gaps[k] == gaps'[k];
  }

  /** A token in front of a layout that is empty or starts with a gap. */
  lemma ConsToken(t: string, ts': seq<string>, gaps': seq<string>) returns (ts: seq<string>, gaps: seq<string>)
    requires IsToken(t) && IsLayout(ts', gaps') && (ts' == [] || |gaps'[0]| > 0)
    ensures IsLayout(ts, gaps) && Layout(ts, gaps) == t + Layout(ts', gaps') && ts == [t] + ts'
  {
    ts, gaps := [t] + ts', [[]] + gaps';
    assert ts[1..] == ts' && gaps[1..] == gaps';
    assert forall k :: 1 <= k < |ts| ==> ts[k] == ts'[k - 1];
    assert forall k :: 1 <= k < |gaps| ==> gaps[k] == gaps'[k - 1];
    assert [] + t == t;
  }

  /** Whitespace added in front of the first gap is whitespace added in front
      of the line. */
  lemma LayoutHead(ts: seq<string>, gaps: seq<string>, h: string)
    requires |gaps| == |ts| + 1
    ensures Layout(ts, [h + gaps[0]] + gaps[1..]) == h + Layout(ts, gaps)
  {
    var gaps2 := [h + gaps[0]] + gaps[1..];
    assert gaps2[0] == h + gaps[0] && gaps2[1..] == gaps[1..];
    if ts != [] {
      var rest := Layout(ts[1..], gaps[1..]);
      AppendAssoc3(h, gaps[0], ts[0], rest);
    }
  }

  lemma AppendAssoc3(a: string, b: string, c: string, d: string)
    ensures (a + b) + c + d == a + (b + c + d)
  {
  }

  /** A layout whose first gap is non-empty, or that has no token, starts with
      whitespace or is empty. */
  lemma LayoutStart(ts: seq<string>, gaps: seq<string>)
    requires |gaps| == |ts| + 1 && IsBlank(gaps[0]) && (ts == [] || |gaps[0]| > 0)
    ensures Layout(ts, gaps) == [] || IsSpace(Layout(ts, gaps)[0])
  {
    if ts != [] {
      assert Layout(ts, gaps)[0] == gaps[0][0];
    }
  }

  /** Leading whitespace is skipped. */
  lemma {:induction false} SplitBlank(b: string, s: string)
    requires IsBlank(b)
    ensures Split(b + s) == Split(s)
    decreases |b|
  {
    if b == [] {
      assert b + s == s;
    } else {
      assert (b + s)[0] == b[0] && (b + s)[1..] == b[1..] + s;
      SplitBlank(b[1..], s);
    }
  }

  /** A token followed by nothing or by whitespace is split off whole. */
  lemma SplitToken(t: string, rest: string)
    requires IsToken(t) && (rest == [] || IsSpace(rest[0]))
    ensures Split(t + rest) == [t] + Split(rest)
  {
    RunOfToken(t, rest);
    assert (t + rest)[..|t|] == t && (t + rest)[|t|..] == rest;
  }

  lemma {:induction false} RunOfToken(t: string, rest: string)
    requires forall k :: 0 <= k < |t| ==> !IsSpace(t[k])
    requires rest == [] || IsSpace(rest[0])
    ensures RunLength(t + rest) == |t|
    decreases |t|
  {
    if t != [] {
      assert (t + rest)[1..] == t[1..] + rest;
      RunOfToken(t[1..], rest);
    }
  }
}
