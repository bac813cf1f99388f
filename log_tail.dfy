/** `get_recent_accepted_lines`: the accepted-share lines of the miner log, most recent last. */
module LogTail {
  import opened Wrappers
  import opened Text

  /** The literal substring a line must contain to be kept. */
  const Marker: string := "accepted:"

  /** The `n` the dashboard asks for on every tick. */
  const RecentCount: int := 11

  predicate EndsWithNewline(s: string) {
    s != [] && s[|s| - 1] == '\n'
  }

  /** `s.rstrip("\n")`: every trailing newline removed, nothing else. */
  function RStripNewlines(s: string): (r: string)
    ensures |r| <= |s| && r == s[..|r|]
    ensures !EndsWithNewline(r)
    ensures forall k :: |r| <= k < |s| ==> s[k] == '\n'
    decreases |s|
  {
    if EndsWithNewline(s) then RStripNewlines(s[..|s| - 1]) else s
  }

  /** Removing trailing newlines cannot remove an occurrence of the marker, which has no newline. */
  lemma RStripKeepsMarker(s: string)
    requires Contains(s, Marker)
    ensures Contains(RStripNewlines(s), Marker)
  {
    var i: nat :| i <= |s| && OccursAt(s, Marker, i);
    var r := RStripNewlines(s);
    assert s[i + |Marker| - 1] == ':';
    assert i + |Marker| <= |r|;
    assert r[i..i + |Marker|] == s[i..i + |Marker|];
    assert OccursAt(r, Marker, i);
  }

  /** Every line contains the marker and has no trailing newline. */
  predicate AllKept(r: seq<string>) {
    forall k :: 0 <= k < |r| ==> Contains(r[k], Marker) && !EndsWithNewline(r[k])
  }

  /** The list comprehension `[ln.rstrip("\n") for ln in lines if "accepted:" in ln]`. */
  function AcceptedLines(lines: seq<string>): (r: seq<string>)
    ensures |r| <= |lines|
    ensures AllKept(r)
  {
    if lines == [] then []
    else
      var rest := AcceptedLines(lines[1..]);
      if Contains(lines[0], Marker) then
        RStripKeepsMarker(lines[0]);
        [RStripNewlines(lines[0])] + rest
      else rest
  }

  /** The filter works line by line and keeps file order: it distributes over concatenation. */
  lemma {:induction false} AcceptedLinesAppend(a: seq<string>, b: seq<string>)
    ensures AcceptedLines(a + b) == AcceptedLines(a) + AcceptedLines(b)
    decreases |a|
  {
    if a == [] {
      assert a + b == b;
    } else {
      assert (a + b)[0] == a[0];
      assert (a + b)[1..] == a[1..] + b;
      AcceptedLinesAppend(a[1..], b);
    }
  }

  /** Where each line goes: a line containing the marker is kept, newlines
      stripped, between what the lines before it and after it give; any
      other line is dropped. */
  lemma {:induction false} AcceptedLinesAt(lines: seq<string>, k: nat)
    requires k < |lines|
    ensures Contains(lines[k], Marker) ==>
              AcceptedLines(lines) == AcceptedLines(lines[..k]) + [RStripNewlines(lines[k])] + AcceptedLines(lines[k + 1..])
    ensures !Contains(lines[k], Marker) ==>
              AcceptedLines(lines) == AcceptedLines(lines[..k]) + AcceptedLines(lines[k + 1..])
    decreases k
  {
    var h := if Contains(lines[0], Marker) then [RStripNewlines(lines[0])] else [];
    assert AcceptedLines(lines) == h + AcceptedLines(lines[1..]);
    if k == 0 {
      assert lines[..0] == [] && lines[1..] == lines[k + 1..];
    } else {
      var rest := lines[1..];
      AcceptedLinesAt(rest, k - 1);
      assert rest[k - 1] == lines[k] && rest[k..] == lines[k + 1..];
      assert lines[..k][0] == lines[0] && lines[..k][1..] == rest[..k - 1];
      assert AcceptedLines(lines[..k]) == h + AcceptedLines(rest[..k - 1]);
      var x, y := AcceptedLines(rest[..k - 1]), AcceptedLines(lines[k + 1..]);
      if Contains(lines[k], Marker) {
        Regroup(h, x, [RStripNewlines(lines[k])], y);
      } else {
        Regroup(h, x, [], y);
      }
    }
  }

  /** Concatenation regrouped, with an optional middle piece. */
  lemma Regroup(h: seq<string>, x: seq<string>, m: seq<string>, y: seq<string>)
    ensures h + (x + m + y) == h + x + m + y
    ensures m == [] ==> h + (x + y) == h + x + y
  {
  }

  /** A log with no marker anywhere yields no lines. */
  lemma {:induction false} AcceptedLinesNone(lines: seq<string>)
    requires forall k :: 0 <= k < |lines| ==> !Contains(lines[k], Marker)
    ensures AcceptedLines(lines) == []
    decreases |lines|
  {
    if lines != [] {
      AcceptedLinesNone(lines[1..]);
    }
  }

  /** Python's `xs[start:]`: a negative start counts from the end, and both ends are clamped. */
  function PySliceFrom<T>(xs: seq<T>, start: int): (r: seq<T>)
    ensures |r| <= |xs| && r == xs[|xs| - |r|..]
  {
    if start < 0 then
      if -start >= |xs| then xs else xs[|xs| + start..]
    else
      if start >= |xs| then [] else xs[start..]
  }

  /** `get_recent_accepted_lines(n)`; `None` stands for a log file that is
      missing or cannot be read, which Python turns into `[]`. */
  function RecentAcceptedLines(log: Option<seq<string>>, n: int): (r: seq<string>)
    ensures forall k :: 0 <= k < |r| ==> Contains(r[k], Marker) && !EndsWithNewline(r[k])
  {
    match log
    case None => []
    case Some(lines) => PySliceFrom(AcceptedLines(lines), -n)
  }

  function Min(a: int, b: int): int {
    if a <= b then a else b
  }

  /** What `accepted[-n:]` selects: for `n >= 1` the last `min(k, n)` of the `k`
      matching lines; for `n == 0` all of them, since `-0` is `0`; a missing or
      unreadable file gives none. */
  lemma RecentAcceptedLinesSelects(log: Option<seq<string>>, n: int)
    ensures log.None? ==> RecentAcceptedLines(log, n) == []
    ensures log.Some? && n >= 1 ==>
              var m := AcceptedLines(log.value);
              var r := RecentAcceptedLines(log, n);
              |r| == Min(|m|, n) && r == m[|m| - |r|..]
    ensures log.Some? && n == 0 ==> RecentAcceptedLines(log, n) == AcceptedLines(log.value)
  {
  }
}
