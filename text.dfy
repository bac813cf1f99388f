/** Small scanners over strings shared by the sanitiser, the log filter and the share parser. */
module Text {
  import opened Wrappers
  import opened Decimal

  /** Python's `str` predicate `c.isspace()`, which is also what `\s` matches in a `str` regex. */
  predicate IsSpace(c: char) {
    || ('\t' <= c <= '\r')
    || ('\U{1C}' <= c <= '\U{1F}')
    || c == ' '
    || c == '\U{85}'
    || c == '\U{A0}'
    || c == '\U{1680}'
    || ('\U{2000}' <= c <= '\U{200A}')
    || c == '\U{2028}'
    || c == '\U{2029}'
    || c == '\U{202F}'
    || c == '\U{205F}'
    || c == '\U{3000}'
  }

  /** The character classes the dashboard's two regular expressions use. */
  datatype CharClass =
    | Whitespace  // `\s`
    | Digit       // `\d`, ASCII digits only
    | RateChar    // `[\d\.]`
    | SgrParam    // `[0-9;]`

  predicate InClass(c: char, cls: CharClass) {
    match cls
    case Whitespace => IsSpace(c)
    case Digit => IsDigit(c)
    case RateChar => IsDigit(c) || c == '.'
    case SgrParam => IsDigit(c) || c == ';'
  }

  /** The first position at or after `i` whose character is not in `cls`
      (the end of a greedy run of `cls` starting at `i`). */
  function Span(s: string, i: nat, cls: CharClass): (j: nat)
    requires i <= |s|
    ensures i <= j <= |s|
    ensures j == |s| || !InClass(s[j], cls)
    decreases |s| - i
  {
    if i == |s| || !InClass(s[i], cls) then i else Span(s, i + 1, cls)
  }

  /** Every character `Span` steps over belongs to the class. */
  lemma {:induction false} SpanRun(s: string, i: nat, cls: CharClass)
    requires i <= |s|
    ensures forall k :: i <= k < Span(s, i, cls) ==> InClass(s[k], cls)
    decreases |s| - i
  {
    if i < |s| && InClass(s[i], cls) {
      SpanRun(s, i + 1, cls);
    }
  }

  /** A run of `cls` characters from `i` to `j` that cannot be extended is exactly what `Span` finds. */
  lemma SpanIs(s: string, i: nat, j: nat, cls: CharClass)
    requires i <= j <= |s|
    requires forall k :: i <= k < j ==> InClass(s[k], cls)
    requires j == |s| || !InClass(s[j], cls)
    ensures Span(s, i, cls) == j
  {
    SpanRun(s, i, cls);
  }

  /** The greedy digit run from `i` is a digit string. */
  lemma DigitRun(s: string, i: nat)
    requires i <= |s|
    ensures AllDigits(s[i..Span(s, i, Digit)])
  {
    var j := Span(s, i, Digit);
    SpanRun(s, i, Digit);
    assert forall k :: 0 <= k < j - i ==> s[i..j][k] == s[i + k];
  }

  /** Every character of `s[lo..hi]` is in `cls`. */
  predicate AllIn(s: string, lo: nat, hi: nat, cls: CharClass)
    requires lo <= hi <= |s|
  {
    forall k :: lo <= k < hi ==> InClass(s[k], cls)
  }

  /** `pat` occurs in `s` starting at position `i`. */
  predicate OccursAt(s: string, pat: string, i: nat) {
    i + |pat| <= |s| && s[i..i + |pat|] == pat
  }

  /** `pat in s` for Python strings: `pat` occurs as a contiguous substring of `s`. */
  predicate Contains(s: string, pat: string) {
    exists i: nat :: i <= |s| && OccursAt(s, pat, i)
  }

  /** `s.find(c)`, with `None` where Python returns -1. */
  function FirstIndexOf(s: string, c: char): (r: Option<nat>)
    ensures r.None? <==> c !in s
    ensures r.Some? ==> r.value < |s| && s[r.value] == c && c !in s[..r.value]
  {
    if s == [] then None
    else if s[0] == c then Some(0)
    else
      match FirstIndexOf(s[1..], c)
      case None => None
      case Some(k) =>
        assert s[..k + 1] == [s[0]] + s[1..][..k];
        Some(k + 1)
  }
}
