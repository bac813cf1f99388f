/** Cleaning a raw log line for display: `strip_ansi` and `strip_timestamp`. */
module Sanitize {
  import opened Wrappers
  import opened Text
  import opened Decimal

  const Esc: char := '\U{1B}'

  /** `t` is one whole match of `\x1b\[[0-9;]*m`: an SGR control sequence
      (CSI, section 5.4, and SGR, section 8.3.117, of ECMA-48) whose parameters
      are digits and semicolons. */
  predicate IsSgr(t: string) {
    && |t| >= 3
    && t[0] == Esc
    && t[1] == '['
    && t[|t| - 1] == 'm'
    && forall k :: 2 <= k < |t| - 1 ==> InClass(t[k], SgrParam)
  }

  /** The length of the colour code that `s` starts with, if any. The regex
      has only one way to match at a position, so there is at most one. */
  function SgrAt(s: string): (r: Option<nat>)
    ensures forall k :: 0 <= k <= |s| ==> (IsSgr(s[..k]) <==> r == Some(k))
    ensures r.Some? ==> 3 <= r.value <= |s|
  {
    if |s| >= 2 && s[0] == Esc && s[1] == '[' then
      var j := Span(s, 2, SgrParam);
      SpanRun(s, 2, SgrParam);
      if j < |s| && s[j] == 'm' then
        assert IsSgr(s[..j + 1]);
        Some(j + 1)
      else None
    else None
  }

  /** `ANSI_RE.sub("", s)`: scanning left to right, every colour code is
      removed and every other character is kept. */
  function StripAnsi(s: string): (r: string)
    ensures |r| <= |s|
    decreases |s|
  {
    if s == [] then []
    else
      match SgrAt(s)
      case Some(k) => StripAnsi(s[k..])
      case None => [s[0]] + StripAnsi(s[1..])
  }

  /** `a` can be obtained from `b` by deleting characters. */
  predicate IsSubsequence(a: string, b: string)
    decreases |b|
  {
    || a == []
    || (b != [] && (IsSubsequence(a, b[1..]) || (a[0] == b[0] && IsSubsequence(a[1..], b[1..]))))
  }

  lemma {:induction false} SubsequenceDrop(a: string, b: string, k: nat)
    requires k <= |b| && IsSubsequence(a, b[k..])
    ensures IsSubsequence(a, b)
    decreases k
  {
    if k > 0 {
      assert b[k - 1..][1..] == b[k..];
      SubsequenceDrop(a, b, k - 1);
    }
  }

  lemma {:induction false} SubsequenceLength(a: string, b: string)
    requires IsSubsequence(a, b)
    ensures |a| <= |b|
    decreases |b|
  {
    if a != [] {
      if IsSubsequence(a, b[1..]) {
        SubsequenceLength(a, b[1..]);
      } else {
        SubsequenceLength(a[1..], b[1..]);
      }
    }
  }

  /** Stripping colour codes only deletes characters: the result is a subsequence of the input, never longer. */
  lemma {:induction false} StripAnsiSubsequence(s: string)
    ensures IsSubsequence(StripAnsi(s), s)
    ensures |StripAnsi(s)| <= |s|
    decreases |s|
  {
    if s != [] {
      match SgrAt(s)
      case Some(k) =>
        StripAnsiSubsequence(s[k..]);
        SubsequenceDrop(StripAnsi(s), s, k);
      case None =>
        StripAnsiSubsequence(s[1..]);
        var r := StripAnsi(s);
        assert r[1..] == StripAnsi(s[1..]);
    }
    SubsequenceLength(StripAnsi(s), s);
  }

  /** A line without an escape character passes through unchanged. */
  lemma {:induction false} StripAnsiNoEscape(s: string)
    requires Esc !in s
    ensures StripAnsi(s) == s
    decreases |s|
  {
    if s != [] {
      assert s[0] != Esc;
      assert Esc !in s[1..];
      StripAnsiNoEscape(s[1..]);
      assert s == [s[0]] + s[1..];
    }
  }

  /** A colour code at the front is removed and scanning resumes right after it;
      in particular a string that is exactly one colour code becomes empty. */
  lemma StripAnsiLeadingSgr(t: string, rest: string)
    requires IsSgr(t)
    ensures StripAnsi(t + rest) == StripAnsi(rest)
  {
    var s := t + rest;
    assert s[..|t|] == t;
    assert s[|t|..] == rest;
  }

  /** A character other than the escape character is always kept. */
  lemma StripAnsiKeeps(s: string)
    requires s != [] && s[0] != Esc
    ensures StripAnsi(s) == [s[0]] + StripAnsi(s[1..])
  {
  }

  /** A prefix without escape characters is copied and scanning goes on after it. */
  lemma {:induction false} StripAnsiPlainPrefix(p: string, q: string)
    requires Esc !in p
    ensures StripAnsi(p + q) == p + StripAnsi(q)
    decreases |p|
  {
    if p == [] {
      assert p + q == q;
    } else {
      var s := p + q;
      assert s[0] == p[0];
      assert s[1..] == p[1..] + q;
      assert Esc !in p[1..];
      StripAnsiKeeps(s);
      StripAnsiPlainPrefix(p[1..], q);
      assert p == [p[0]] + p[1..];
    }
  }

  /** Some substring of `s` is a whole colour code. */
  predicate HasSgr(s: string) {
    exists i: nat, k: nat :: i <= k <= |s| && IsSgr(s[i..k])
  }

  lemma HasSgrShift(s: string)
    requires s != [] && SgrAt(s).None?
    ensures HasSgr(s) <==> HasSgr(s[1..])
  {
    if HasSgr(s) {
      var i: nat, k: nat :| i <= k <= |s| && IsSgr(s[i..k]);
      assert s[1..][i - 1..k - 1] == s[i..k];
    }
    if HasSgr(s[1..]) {
      var i: nat, k: nat :| i <= k <= |s[1..]| && IsSgr(s[1..][i..k]);
      var t := s[1..][i..k];
      assert t == s[i + 1..k + 1];
      assert IsSgr(s[i + 1..k + 1]);
    }
  }

  /** `strip_ansi` changes a line exactly when the line holds a colour code. */
  lemma {:induction false} StripAnsiUnchangedIff(s: string)
    ensures StripAnsi(s) == s <==> !HasSgr(s)
    decreases |s|
  {
    if s == [] {
      assert !HasSgr(s) by {
        forall i: nat, k: nat | i <= k <= |s| ensures !IsSgr(s[i..k]) { }
      }
    } else {
      match SgrAt(s)
      case Some(k) =>
        assert IsSgr(s[0..k]);
        StripAnsiSubsequence(s[k..]);
      case None =>
        HasSgrShift(s);
        StripAnsiUnchangedIff(s[1..]);
        assert s == [s[0]] + s[1..];
        var r := StripAnsi(s);
        assert r == [s[0]] + StripAnsi(s[1..]);
        assert r == s ==> r[1..] == s[1..];
    }
  }

  /** `strip_ansi` is not idempotent: deleting one colour code can join two
      fragments into a new one. */
  lemma StripAnsiNotIdempotent()
    ensures var s := [Esc, Esc, '[', 'm', '[', 'm'];
            StripAnsi(s) == [Esc, '[', 'm'] && StripAnsi(StripAnsi(s)) == []
  {
    var s := [Esc, Esc, '[', 'm', '[', 'm'];
    assert SgrAt(s) == None;
    assert IsSgr(s[1..][..3]);
    assert SgrAt(s[1..]) == Some(3);
    assert s[1..][3..] == ['[', 'm'];
    StripAnsiNoEscape(['[', 'm']);
    assert StripAnsi(s) == [Esc, '[', 'm'];
    StripAnsiLeadingSgr([Esc, '[', 'm'], []);
    assert [Esc, '[', 'm'] + [] == [Esc, '[', 'm'];
  }

  /** A leading timestamp bracket: `[`, then no `]`, then `]`. */
  predicate IsBracket(b: string) {
    |b| >= 2 && b[0] == '[' && b[|b| - 1] == ']' && ']' !in b[..|b| - 1]
  }

  /** `strip_timestamp`: drop the prefix through the first `]` and one space after it,
      when the line starts with `[` and has a `]`; otherwise keep the line. */
  function StripTimestamp(line: string): (r: string)
    ensures |r| <= |line| && r == line[|line| - |r|..]
    ensures !(|line| > 0 && line[0] == '[' && ']' in line) ==> r == line
  {
    if |line| > 0 && line[0] == '[' then
      match FirstIndexOf(line, ']')
      case None => line
      case Some(idx) =>
        var i := idx + 1;
        var i := if i < |line| && line[i] == ' ' then i + 1 else i;
        line[i..]
    else line
  }

  /** The line up to and including its first `]` is a bracket when it starts with `[`. */
  lemma BracketPrefix(line: string, idx: nat)
    requires idx < |line| && line[0] == '[' && line[idx] == ']' && ']' !in line[..idx]
    ensures IsBracket(line[..idx + 1])
  {
    assert line[..idx + 1][..idx] == line[..idx];
  }

  /** When a bracket is stripped, the line is the bracket, at most one space,
      and the result; and the space is taken whenever there is one. */
  lemma StripTimestampDecomposes(line: string)
    requires |line| > 0 && line[0] == '[' && ']' in line
    ensures var r := StripTimestamp(line);
            exists b: string, sep: string ::
              && IsBracket(b) && (sep == [] || sep == [' '])
              && line == b + sep + r
              && (sep == [] ==> r == [] || r[0] != ' ')
  {
    var idx := FirstIndexOf(line, ']').value;
    BracketPrefix(line, idx);
    var k := if idx + 1 < |line| && line[idx + 1] == ' ' then 1 else 0;
    StripTimestampCut(line, idx, k);
    SplitAt(line, idx + 1, k);
    var sep := line[idx + 1..idx + 1 + k];
    if k == 1 {
      assert sep == [' '];
    } else {
      assert sep == [];
    }
    Decomposition(line, line[..idx + 1], sep, line[idx + 1 + k..]);
  }

  /** Where the cut falls: after the first `]`, and after the space when one follows. */
  lemma StripTimestampCut(line: string, idx: nat, k: nat)
    requires |line| > 0 && line[0] == '[' && FirstIndexOf(line, ']') == Some(idx)
    requires k == if idx + 1 < |line| && line[idx + 1] == ' ' then 1 else 0
    ensures idx + 1 + k <= |line| && StripTimestamp(line) == line[idx + 1 + k..]
  {
  }

  /** The pieces found above witness the decomposition. */
  lemma Decomposition(line: string, b: string, sep: string, r: string)
    requires IsBracket(b) && (sep == [] || sep == [' ']) && line == b + sep + r
    requires sep == [] ==> r == [] || r[0] != ' '
    ensures exists b: string, sep: string ::
              && IsBracket(b) && (sep == [] || sep == [' '])
              && line == b + sep + r
              && (sep == [] ==> r == [] || r[0] != ' ')
  {
  }

  /** A sequence is its prefix, a middle piece and the rest. */
  lemma SplitAt(s: string, i: nat, k: nat)
    requires i + k <= |s|
    ensures s == s[..i] + s[i..i + k] + s[i + k..]
  {
  }

  /** Round trip: a bracketed stamp put in front of a line, with or without one
      separating space, is removed again. */
  lemma StripTimestampOfStamped(b: string, rest: string, spaced: bool)
    requires IsBracket(b)
    requires !spaced ==> rest == [] || rest[0] != ' '
    ensures StripTimestamp(b + (if spaced then [' '] else []) + rest) == rest
  {
    var sep: string := if spaced then [' '] else [];
    var line := b + sep + rest;
    assert line[..|b| - 1] == b[..|b| - 1];
    assert line[|b| - 1] == ']';
    var idx := FirstIndexOf(line, ']');
    assert ']' in line;
    assert idx.value == |b| - 1;
    assert line[|b| + |sep|..] == rest;
  }

  /** `strip_timestamp` is not idempotent: a second bracket is exposed, not removed. */
  lemma StripTimestampNotIdempotent()
    ensures StripTimestamp("[a][b]") == "[b]"
    ensures StripTimestamp(StripTimestamp("[a][b]")) == ""
  {
    var a, b := ['[', 'a', ']'], ['[', 'b', ']'];
    assert IsBracket(a) && IsBracket(b);
    StripTimestampOfStamped(a, b, false);
    StripTimestampOfStamped(b, [], false);
    assert "[a][b]" == a + [] + b;
    assert "[b]" == b + [] + [];
  }
}
