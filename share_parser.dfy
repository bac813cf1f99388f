/** `parse_stats_from_line`: a matcher for
    `accepted:\s+(\d+)/(\d+).*?,\s+([\d\.]+)\s+kH/s` under `re.search`.

    Every greedy run in the pattern is followed by a character class it cannot
    share characters with, so it always takes the longest run, with one
    exception: the second `(\d+)` is followed by `.*?`. A shorter run there
    never helps, because the digits it gives back could only be taken by `.*?`
    on the way to the same comma. The lazy `.*?` takes the first comma, with no
    newline before it, that the rest of the pattern accepts. `re.search` tries
    the start positions from left to right. The two digit groups then go
    through `int()`, which refuses more than 4300 digits, and the rate through
    `float()`. */
module ShareParser {
  import opened Wrappers
  import opened Text
  import opened Decimal
  import LogTail

  predicate AllRateChars(t: string) {
    forall k :: 0 <= k < |t| ==> InClass(t[k], RateChar)
  }

  /** The three groups of one match, as the strings `m.group(1)`, `m.group(2)` and `m.group(3)`. */
  datatype ShareMatch = ShareMatch(accText: string, totText: string, rate: string)

  /** What every match captures: two non-empty digit runs and a non-empty run of `[\d\.]`. */
  predicate WellFormedMatch(m: ShareMatch) {
    && m.accText != [] && AllDigits(m.accText)
    && m.totText != [] && AllDigits(m.totText)
    && m.rate != [] && AllRateChars(m.rate)
  }

  /** `\s+kH/s` matches at `v`. */
  predicate SpacesThenKhs(s: string, v: nat) {
    exists w: nat :: v < w && w + 4 <= |s| && AllIn(s, v, w, Whitespace) && s[w..w + 4] == "kH/s"
  }

  /** `\s+([\d\.]+)\s+kH/s` matches at `t` with its group at `s[u..v]`. Each run
      ends where a character of a disjoint class begins, so the runs are
      maximal and there is at most one such match. */
  predicate RateTailShape(s: string, t: nat, u: nat, v: nat) {
    && t < u < v <= |s|
    && AllIn(s, t, u, Whitespace) && AllIn(s, u, v, RateChar)
    && SpacesThenKhs(s, v)
  }

  /** `\s+([\d\.]+)\s+kH/s` tried at `t`: the bounds of the captured rate. */
  function RateTailAt(s: string, t: nat): (r: Option<(nat, nat)>)
    requires t <= |s|
    ensures r.Some? ==> t < r.value.0 < r.value.1 <= |s| && AllRateChars(s[r.value.0..r.value.1])
  {
    var u := Span(s, t, Whitespace);
    var v := Span(s, u, RateChar);
    var w := Span(s, v, Whitespace);
    SpanRun(s, u, RateChar);
    if u == t || v == u || w == v then None
    else if w + 4 <= |s| && s[w..w + 4] == "kH/s" then Some((u, v))
    else None
  }

  /** What `RateTailAt` reports is a match of the tail. */
  lemma RateTailAtSound(s: string, t: nat)
    requires t <= |s| && RateTailAt(s, t).Some?
    ensures RateTailShape(s, t, RateTailAt(s, t).value.0, RateTailAt(s, t).value.1)
  {
    var u := Span(s, t, Whitespace);
    var v := Span(s, u, RateChar);
    var w := Span(s, v, Whitespace);
    SpanRun(s, t, Whitespace);
    SpanRun(s, u, RateChar);
    SpanRun(s, v, Whitespace);
    assert AllIn(s, v, w, Whitespace);
  }

  /** The converse: wherever the tail matches, `RateTailAt` reports that match. */
  lemma RateTailAtFinds(s: string, t: nat, u: nat, v: nat)
    requires t <= |s| && RateTailShape(s, t, u, v)
    ensures RateTailAt(s, t) == Some((u, v))
  {
    var w: nat :| v < w && w + 4 <= |s| && AllIn(s, v, w, Whitespace) && s[w..w + 4] == "kH/s";
    assert s[w] == s[w..w + 4][0];
    SpanIs(s, t, u, Whitespace);
    SpanIs(s, u, v, RateChar);
    SpanIs(s, v, w, Whitespace);
  }

  /** `.*?,` followed by the rate tail, from `j`, stops at the comma `q`: no
      newline comes before it (`.` does not match one), and every earlier
      comma is one where the tail does not match. */
  predicate FirstTailComma(s: string, j: nat, q: nat) {
    && j <= q < |s| && s[q] == ','
    && RateTailAt(s, q + 1).Some?
    && forall x :: j <= x < q ==> Skipped(s, x)
  }

  /** The lazy `.*?` passes over position `x`: not a newline, and not a comma where the tail matches. */
  predicate Skipped(s: string, x: nat)
    requires x < |s|
  {
    s[x] != '\n' && (s[x] == ',' ==> RateTailAt(s, x + 1).None?)
  }

  /** `.*?,\s+([\d\.]+)\s+kH/s` from position `j`: the rate the lazy scan reaches. */
  function LazyCommaTail(s: string, j: nat): (r: Option<(nat, nat)>)
    requires j <= |s|
    ensures r.Some? ==> j < r.value.0 < r.value.1 <= |s| && AllRateChars(s[r.value.0..r.value.1])
    decreases |s| - j
  {
    if j == |s| || s[j] == '\n' then None
    else if s[j] == ',' && RateTailAt(s, j + 1).Some? then RateTailAt(s, j + 1)
    else LazyCommaTail(s, j + 1)
  }

  /** What the lazy scan reports is the tail at the first comma where it matches. */
  lemma {:induction false} LazyCommaTailSound(s: string, j: nat)
    requires j <= |s| && LazyCommaTail(s, j).Some?
    ensures exists q: nat :: FirstTailComma(s, j, q) && LazyCommaTail(s, j) == RateTailAt(s, q + 1)
    decreases |s| - j
  {
    if s[j] == ',' && RateTailAt(s, j + 1).Some? {
      assert FirstTailComma(s, j, j);
    } else {
      LazyCommaTailSound(s, j + 1);
      var q: nat :| FirstTailComma(s, j + 1, q) && LazyCommaTail(s, j + 1) == RateTailAt(s, q + 1);
      assert Skipped(s, j);
      assert FirstTailComma(s, j, q);
    }
  }

  /** The converse: the lazy scan from `j` stops at the first comma whose tail matches. */
  lemma {:induction false} LazyCommaTailFinds(s: string, j: nat, q: nat)
    requires FirstTailComma(s, j, q)
    ensures LazyCommaTail(s, j) == RateTailAt(s, q + 1)
    decreases q - j
  {
    if j < q {
      assert Skipped(s, j);
      LazyCommaTailFinds(s, j + 1, q);
    }
  }

  /** `accepted:\s+(\d+)/(\d+)` matches at `i` with its groups at `s[b..c]` and
      `s[c + 1..e]`, the second group running to the end of the digits, as the
      greedy `\d+` tries first. */
  predicate CountsShape(s: string, i: nat, b: nat, c: nat, e: nat) {
    && OccursAt(s, LogTail.Marker, i)
    && i + |LogTail.Marker| < b < c && c + 1 < e <= |s|
    && AllIn(s, i + |LogTail.Marker|, b, Whitespace)
    && AllIn(s, b, c, Digit) && s[c] == '/' && AllIn(s, c + 1, e, Digit)
    && (e == |s| || !IsDigit(s[e]))
  }

  /** `accepted:\s+(\d+)/(\d+)` tried at `i`: where the two groups start and end. */
  function CountsAt(s: string, i: nat): (r: Option<(nat, nat, nat)>)
    requires i <= |s|
    ensures r.Some? ==> var (b, c, e) := r.value;
              i + |LogTail.Marker| < b < c < e <= |s| && AllDigits(s[b..c]) && AllDigits(s[c + 1..e])
  {
    if !OccursAt(s, LogTail.Marker, i) then None
    else
      var a := i + |LogTail.Marker|;
      var b := Span(s, a, Whitespace);
      var c := Span(s, b, Digit);
      if b == a || c == b || c == |s| || s[c] != '/' then None
      else
        var e := Span(s, c + 1, Digit);
        if e == c + 1 then None
        else
          DigitRun(s, b);
          DigitRun(s, c + 1);
          Some((b, c, e))
  }

  /** What `CountsAt` reports is a match of the counts. */
  lemma CountsAtSound(s: string, i: nat)
    requires i <= |s| && CountsAt(s, i).Some?
    ensures CountsShape(s, i, CountsAt(s, i).value.0, CountsAt(s, i).value.1, CountsAt(s, i).value.2)
  {
    var a := i + |LogTail.Marker|;
    var (b, c, e) := CountsAt(s, i).value;
    SpanRun(s, a, Whitespace);
    SpanRun(s, b, Digit);
    SpanRun(s, c + 1, Digit);
  }

  /** The converse: wherever the counts match at `i`, `CountsAt` reports those groups. */
  lemma CountsAtFinds(s: string, i: nat, b: nat, c: nat, e: nat)
    requires CountsShape(s, i, b, c, e)
    ensures CountsAt(s, i) == Some((b, c, e))
  {
    var a := i + |LogTail.Marker|;
    assert IsDigit(s[b]) && !IsSpace(s[b]);
    SpanIs(s, a, b, Whitespace);
    SpanIs(s, b, c, Digit);
    SpanIs(s, c + 1, e, Digit);
    assert Span(s, a, Whitespace) == b;
    assert Span(s, b, Digit) == c;
    assert Span(s, c + 1, Digit) == e;
  }

  /** The whole pattern matches at `i`: the counts, then the first comma after
      them whose tail matches, then that tail with its group at `s[u..v]`. */
  predicate MatchShape(s: string, i: nat, b: nat, c: nat, e: nat, q: nat, u: nat, v: nat) {
    CountsShape(s, i, b, c, e) && FirstTailComma(s, e, q) && RateTailShape(s, q + 1, u, v)
  }

  /** The whole pattern tried at start position `i`: a match has the pattern's
      shape there, and its groups are the texts the shape delimits. */
  function MatchAt(s: string, i: nat): (r: Option<ShareMatch>)
    requires i <= |s|
    ensures r.Some? ==> OccursAt(s, LogTail.Marker, i) && WellFormedMatch(r.value)
  {
    match CountsAt(s, i)
    case None => None
    case Some((b, c, e)) =>
      match LazyCommaTail(s, e)
      case None => None
      case Some((u, v)) => Some(ShareMatch(s[b..c], s[c + 1..e], s[u..v]))
  }

  /** A match that `MatchAt` reports has the pattern's shape at `i`, and its
      groups are the texts that shape delimits. */
  lemma MatchAtSound(s: string, i: nat)
    requires i <= |s| && MatchAt(s, i).Some?
    ensures exists b: nat, c: nat, e: nat, q: nat, u: nat, v: nat ::
              && MatchShape(s, i, b, c, e, q, u, v)
              && MatchAt(s, i).value == ShareMatch(s[b..c], s[c + 1..e], s[u..v])
  {
    var (b, c, e) := CountsAt(s, i).value;
    LazyCommaTailSound(s, e);
    var q: nat :| FirstTailComma(s, e, q) && LazyCommaTail(s, e) == RateTailAt(s, q + 1);
    MatchAtSoundWith(s, i, b, c, e, q);
  }

  lemma MatchAtSoundWith(s: string, i: nat, b: nat, c: nat, e: nat, q: nat)
    requires i <= |s| && CountsAt(s, i) == Some((b, c, e))
    requires FirstTailComma(s, e, q) && LazyCommaTail(s, e) == RateTailAt(s, q + 1)
    ensures exists b: nat, c: nat, e: nat, q: nat, u: nat, v: nat ::
              && MatchShape(s, i, b, c, e, q, u, v)
              && MatchAt(s, i).value == ShareMatch(s[b..c], s[c + 1..e], s[u..v])
  {
    var (u, v) := RateTailAt(s, q + 1).value;
    MatchAtOfParts(s, i, b, c, e, u, v);
    CountsAtSound(s, i);
    RateTailAtSound(s, q + 1);
    MatchShapeWitness(s, i, b, c, e, q, u, v, MatchAt(s, i).value);
  }

  lemma MatchAtOfParts(s: string, i: nat, b: nat, c: nat, e: nat, u: nat, v: nat)
    requires i <= |s| && CountsAt(s, i) == Some((b, c, e)) && LazyCommaTail(s, e) == Some((u, v))
    ensures MatchAt(s, i) == Some(ShareMatch(s[b..c], s[c + 1..e], s[u..v]))
  {
  }

  lemma MatchShapeWitness(s: string, i: nat, b: nat, c: nat, e: nat, q: nat, u: nat, v: nat, m: ShareMatch)
    requires MatchShape(s, i, b, c, e, q, u, v) && m == ShareMatch(s[b..c], s[c + 1..e], s[u..v])
    ensures exists b: nat, c: nat, e: nat, q: nat, u: nat, v: nat ::
              && MatchShape(s, i, b, c, e, q, u, v)
              && m == ShareMatch(s[b..c], s[c + 1..e], s[u..v])
  {
  }

  /** The converse: wherever the whole pattern matches at `i`, `MatchAt` reports that match. */
  lemma MatchAtFinds(s: string, i: nat, b: nat, c: nat, e: nat, q: nat, u: nat, v: nat)
    requires MatchShape(s, i, b, c, e, q, u, v)
    ensures MatchAt(s, i) == Some(ShareMatch(s[b..c], s[c + 1..e], s[u..v]))
  {
    CountsAtFinds(s, i, b, c, e);
    LazyCommaTailFinds(s, e, q);
    RateTailAtFinds(s, q + 1, u, v);
    MatchAtOfParts(s, i, b, c, e, u, v);
  }

  /** `re.search` from position `i`: the match at the leftmost start position that has one. */
  function SearchFrom(s: string, i: nat): (r: Option<ShareMatch>)
    requires i <= |s|
    ensures r.None? <==> forall j :: i <= j <= |s| ==> MatchAt(s, j).None?
    ensures r.Some? ==> exists j :: i <= j <= |s| && r == MatchAt(s, j) &&
                                    forall k :: i <= k < j ==> MatchAt(s, k).None?
    decreases |s| - i
  {
    if MatchAt(s, i).Some? then MatchAt(s, i)
    else if i == |s| then None
    else SearchFrom(s, i + 1)
  }

  /** `re.search(pattern, line)`: nothing when no position matches, otherwise a
      well-formed match found at some position. */
  function Search(line: string): (r: Option<ShareMatch>)
    ensures r.None? <==> forall j :: 0 <= j <= |line| ==> MatchAt(line, j).None?
    ensures r.Some? ==> WellFormedMatch(r.value) && Contains(line, LogTail.Marker)
  {
    SearchFrom(line, 0)
  }

  /** `float(text)` for a string of digits and dots succeeds exactly when it
      has at least one digit and at most one dot. */
  predicate FloatAccepts(t: string) {
    && (exists k :: 0 <= k < |t| && IsDigit(t[k]))
    && (forall i, j :: 0 <= i < j < |t| && t[i] == '.' ==> t[j] != '.')
  }

  /** A decimal numeral with a fraction part is accepted by `float()`. */
  lemma FloatAcceptsDecimal(whole: string, fraction: string)
    requires whole != [] && AllDigits(whole) && AllDigits(fraction)
    ensures AllRateChars(whole + "." + fraction) && FloatAccepts(whole + "." + fraction)
  {
    var t := whole + "." + fraction;
    assert t[0] == whole[0];
    forall k | 0 <= k < |t| ensures InClass(t[k], RateChar) && (t[k] == '.' <==> k == |whole|) {
      if k < |whole| {
        assert t[k] == whole[k];
      } else if k > |whole| {
        assert t[k] == fraction[k - |whole| - 1];
      }
    }
  }

  /** The hashrate as it leaves the parser: the zero of the no-match case, or
      the captured kH/s text (the float conversion and `* 1000.0` are not modelled). */
  datatype Rate = ZeroRate | KiloHashText(text: string)

  datatype Stats = Stats(rate: Rate, acc: nat, tot: nat)

  const ZeroStats := Stats(ZeroRate, 0, 0)

  /** `sys.int_info.default_max_str_digits`: CPython 3.11 and later (and the
      2022 security releases of 3.7 to 3.10) refuse to convert a decimal string
      with more digits than this. */
  const IntMaxStrDigits := 4300

  /** The `ValueError`s the conversions raise. */
  datatype ValueError =
    | IntTooManyDigits(digits: nat)  // `int()` on a group longer than the limit
    | RateNotANumber(text: string)   // `float()` on a rate such as `1.2.3`

  /** `int(text)` on a run of ASCII digits: refused above the digit limit,
      otherwise its value, which a numeral without leading zeros shows again. */
  function ParseInt(text: string): (r: Result<nat, ValueError>)
    requires AllDigits(text)
    ensures r.Err? <==> |text| > IntMaxStrDigits
    ensures r.Err? ==> r.error == IntTooManyDigits(|text|)
    ensures r.Ok? ==> r.value == Value(text) && r.value < Pow10(|text|)
    ensures r.Ok? && text != [] && (text[0] != '0' || |text| == 1) ==> Show(r.value) == text
  {
    if |text| > IntMaxStrDigits then Err(IntTooManyDigits(|text|))
    else
      assert text != [] && (text[0] != '0' || |text| == 1) ==> Show(Value(text)) == text by {
        if text != [] && (text[0] != '0' || |text| == 1) {
          ShowValue(text);
        }
      }
      Ok(Value(text))
  }

  /** `parse_stats_from_line`: the zero triple when nothing matches; otherwise
      `int()` of the two count groups, in that order, and `float()` of the
      rate group, the first of them that raises ending the call. */
  function ParseStatsFromLine(line: string): (r: Result<Stats, ValueError>)
    ensures r == Ok(ZeroStats) <==> forall j :: 0 <= j <= |line| ==> MatchAt(line, j).None?
    ensures r.Err? ==> Contains(line, LogTail.Marker)
    ensures r.Ok? && r.value.rate.KiloHashText? ==> FloatAccepts(r.value.rate.text)
    ensures Search(line).Some? && r.Ok? ==>
              var m := Search(line).value;
              r.value == Stats(KiloHashText(m.rate), Value(m.accText), Value(m.totText))
  {
    match Search(line)
    case None => Ok(ZeroStats)
    case Some(m) =>
      assert WellFormedMatch(m) && Contains(line, LogTail.Marker);
      assert !forall j :: 0 <= j <= |line| ==> MatchAt(line, j).None?;
      match ParseInt(m.accText)
      case Err(err) => Err(err)
      case Ok(acc) =>
        match ParseInt(m.totText)
        case Err(err) => Err(err)
        case Ok(tot) =>
          if FloatAccepts(m.rate) then Ok(Stats(KiloHashText(m.rate), acc, tot))
          else Err(RateNotANumber(m.rate))
  }

  /** A line without the marker matches nowhere and gives the zero triple. */
  lemma ParseWithoutMarker(line: string)
    requires !Contains(line, LogTail.Marker)
    ensures Search(line).None?
    ensures ParseStatsFromLine(line) == Ok(ZeroStats)
  {
    forall j | 0 <= j <= |line| ensures MatchAt(line, j).None? {
    }
  }

  /** A share report as the miner writes it: `accepted: <acc>/<tot><note>, <rate> kH/s`. */
  function ShareLine(acc: nat, tot: nat, note: string, rate: string): string {
    "accepted: " + (Show(acc) + ("/" + (Show(tot) + (note + (", " + (rate + " kH/s"))))))
  }

  /** A share report, whatever follows it, starts with the marker. */
  lemma ShareLineStartsWithMarker(acc: nat, tot: nat, note: string, rate: string, suffix: string)
    ensures LogTail.Marker <= ShareLine(acc, tot, note, rate) + suffix
  {
    var rest := Show(acc) + ("/" + (Show(tot) + (note + (", " + (rate + " kH/s")))));
    var line := "accepted: " + rest + suffix;
    assert ShareLine(acc, tot, note, rate) + suffix == line;
    assert line[..9] == "accepted: "[..9];
  }

  /** Splits off the piece `x` that the text from position `i` starts with. */
  lemma Peel(s: string, i: nat, x: string, y: string, z: string)
    requires i <= |s| && s[i..] == (x + y) + z
    ensures i + |x| <= |s| && s[i..i + |x|] == x && s[i + |x|..] == y + z
  {
    assert (x + y) + z == x + (y + z);
    assert s[i..][..|x|] == x;
    assert s[i..][|x|..] == y + z;
  }

  /** A share report `accepted: <A>/<T><note>, <rate> kH/s` laid out in `s`
      from position `p`, piece by piece: `A` ends at `c`, `T` at `e`, the note
      at `q` and the rate at `v`. */
  predicate PiecesAt(s: string, p: nat, c: nat, e: nat, q: nat, v: nat, A: string, T: string, note: string, rate: string) {
    && c == p + 10 + |A| && e == c + 1 + |T| && q == e + |note| && v == q + 2 + |rate|
    && v + 5 <= |s|
    && s[p..p + 10] == "accepted: " && s[p + 10..c] == A && s[c] == '/' && s[c + 1..e] == T
    && s[e..q] == note && s[q..q + 2] == ", " && s[q + 2..v] == rate && s[v..v + 5] == " kH/s"
  }

  lemma SplitHead(s: string, p: nat, c: nat, e: nat, A: string, T: string, rest: string, suffix: string)
    requires p <= |s| && s[p..] == ("accepted: " + (A + ("/" + (T + rest)))) + suffix
    requires c == p + 10 + |A| && e == c + 1 + |T|
    ensures e <= |s| && s[p..p + 10] == "accepted: " && s[p + 10..c] == A && s[c] == '/' && s[c + 1..e] == T
    ensures s[e..] == rest + suffix
  {
    Peel(s, p, "accepted: ", A + ("/" + (T + rest)), suffix);
    Peel(s, p + 10, A, "/" + (T + rest), suffix);
    Peel(s, c, "/", T + rest, suffix);
    assert s[c] == s[c..c + 1][0];
    Peel(s, c + 1, T, rest, suffix);
  }

  lemma SplitTail(s: string, e: nat, q: nat, v: nat, note: string, rate: string, suffix: string)
    requires e <= |s| && s[e..] == (note + (", " + (rate + " kH/s"))) + suffix
    requires q == e + |note| && v == q + 2 + |rate|
    ensures v + 5 <= |s| && s[e..q] == note && s[q..q + 2] == ", " && s[q + 2..v] == rate && s[v..v + 5] == " kH/s"
  {
    Peel(s, e, note, ", " + (rate + " kH/s"), suffix);
    Peel(s, q, ", ", rate + " kH/s", suffix);
    Peel(s, q + 2, rate, " kH/s", suffix);
    assert s[v..] == [] + (" kH/s" + suffix);
    Peel(s, v, [], " kH/s", suffix);
    assert s[v..][..5] == " kH/s";
  }

  lemma SplitShareLine(s: string, p: nat, c: nat, e: nat, q: nat, v: nat,
                        A: string, T: string, note: string, rate: string, suffix: string)
    requires p <= |s| && s[p..] == ("accepted: " + (A + ("/" + (T + (note + (", " + (rate + " kH/s"))))))) + suffix
    requires c == p + 10 + |A| && e == c + 1 + |T| && q == e + |note| && v == q + 2 + |rate|
    ensures PiecesAt(s, p, c, e, q, v, A, T, note, rate)
  {
    SplitHead(s, p, c, e, A, T, note + (", " + (rate + " kH/s")), suffix);
    SplitTail(s, e, q, v, note, rate, suffix);
  }

  /** `accepted:\s+` on `accepted: ` followed by a non-blank. */
  lemma MarkerAt(s: string, p: nat)
    requires p + 10 < |s| && s[p..p + 10] == "accepted: " && !IsSpace(s[p + 10])
    ensures OccursAt(s, LogTail.Marker, p) && Span(s, p + 9, Whitespace) == p + 10
  {
    assert s[p..p + 9] == s[p..p + 10][..9];
    assert s[p + 9] == s[p..p + 10][9];
    SpanIs(s, p + 9, p + 10, Whitespace);
  }

  /** A run of digits `d` followed by a non-digit is taken whole by `(\d+)`. */
  lemma DigitsAt(s: string, i: nat, d: string)
    requires i + |d| < |s| && s[i..i + |d|] == d && AllDigits(d) && !IsDigit(s[i + |d|])
    ensures Span(s, i, Digit) == i + |d|
  {
    assert forall x :: i <= x < i + |d| ==> s[x] == s[i..i + |d|][x - i];
    SpanIs(s, i, i + |d|, Digit);
  }

  /** `accepted:\s+(\d+)/(\d+)` on the head of a share report. */
  lemma CountsAtPieces(s: string, p: nat, c: nat, e: nat, A: string, T: string)
    requires A != [] && AllDigits(A) && T != [] && AllDigits(T)
    requires c == p + 10 + |A| && e == c + 1 + |T|
    requires e < |s| && s[p..p + 10] == "accepted: " && s[p + 10..c] == A && s[c] == '/' && s[c + 1..e] == T
    requires !IsDigit(s[e])
    ensures CountsAt(s, p) == Some((p + 10, c, e))
  {
    assert s[p + 10] == s[p + 10..c][0];
    MarkerAt(s, p);
    DigitsAt(s, p + 10, A);
    DigitsAt(s, c + 1, T);
  }

  /** The tail `\s+([\d\.]+)\s+kH/s` on ` <rate> kH/s`. */
  lemma RateTailAtPieces(s: string, t: nat, rate: string)
    requires rate != [] && AllRateChars(rate)
    requires t + |rate| + 6 <= |s| && s[t] == ' ' && s[t + 1..t + 1 + |rate|] == rate
    requires s[t + 1 + |rate|..t + 6 + |rate|] == " kH/s"
    ensures RateTailAt(s, t) == Some((t + 1, t + 1 + |rate|))
  {
    var v := t + 1 + |rate|;
    assert s[t + 1] == s[t + 1..v][0];
    assert forall x :: t + 1 <= x < v ==> s[x] == s[t + 1..v][x - t - 1];
    assert s[v] == s[v..v + 5][0] && s[v + 1] == s[v..v + 5][1];
    assert s[v + 1..v + 5] == s[v..v + 5][1..];
    SpanIs(s, t, t + 1, Whitespace);
    SpanIs(s, t + 1, v, RateChar);
    SpanIs(s, v, v + 1, Whitespace);
  }

  /** `.*?,\s+([\d\.]+)\s+kH/s` on `<note>, <rate> kH/s`. */
  lemma CommaTailAtPieces(s: string, e: nat, q: nat, v: nat, note: string, rate: string)
    requires ',' !in note && '\n' !in note
    requires rate != [] && AllRateChars(rate)
    requires q == e + |note| && v == q + 2 + |rate|
    requires v + 5 <= |s| && s[e..q] == note && s[q..q + 2] == ", " && s[q + 2..v] == rate && s[v..v + 5] == " kH/s"
    ensures LazyCommaTail(s, e) == Some((q + 2, v))
  {
    assert s[q] == s[q..q + 2][0] && s[q + 1] == s[q..q + 2][1];
    RateTailAtPieces(s, q + 1, rate);
    assert forall x :: e <= x < q ==> s[x] == s[e..q][x - e];
    assert FirstTailComma(s, e, q);
    LazyCommaTailFinds(s, e, q);
  }

  /** The pattern on a share report laid out from `p`. */
  lemma MatchAtPieces(s: string, p: nat, c: nat, e: nat, q: nat, v: nat, A: string, T: string, note: string, rate: string)
    requires A != [] && AllDigits(A) && T != [] && AllDigits(T)
    requires note == [] || !IsDigit(note[0])
    requires ',' !in note && '\n' !in note
    requires rate != [] && AllRateChars(rate)
    requires PiecesAt(s, p, c, e, q, v, A, T, note, rate)
    ensures MatchAt(s, p) == Some(ShareMatch(A, T, rate))
  {
    assert s[e] == if note == [] then s[q..q + 2][0] else s[e..q][0];
    CountsAtPieces(s, p, c, e, A, T);
    CommaTailAtPieces(s, e, q, v, note, rate);
    MatchAtOfParts(s, p, p + 10, c, e, q + 2, v);
  }

  /** The pattern matches a share report at the position where it starts. */
  lemma MatchAtShareLine(s: string, p: nat, acc: nat, tot: nat, note: string, rate: string, suffix: string)
    requires note == [] || !IsDigit(note[0])
    requires ',' !in note && '\n' !in note
    requires rate != [] && AllRateChars(rate)
    requires p <= |s| && s[p..] == ShareLine(acc, tot, note, rate) + suffix
    ensures MatchAt(s, p) == Some(ShareMatch(Show(acc), Show(tot), rate))
  {
    var A, T := Show(acc), Show(tot);
    var c := p + 10 + |A|;
    var e := c + 1 + |T|;
    var q := e + |note|;
    var v := q + 2 + |rate|;
    SplitShareLine(s, p, c, e, q, v, A, T, note, rate, suffix);
    MatchAtPieces(s, p, c, e, q, v, A, T, note, rate);
  }

  /** `re.search` reports the match at the leftmost position that has one. */
  lemma SearchLeftmost(s: string, p: nat)
    requires p <= |s| && MatchAt(s, p).Some?
    requires forall j :: 0 <= j < p ==> MatchAt(s, j).None?
    ensures Search(s) == MatchAt(s, p)
  {
    var r := Search(s);
    var j :| 0 <= j <= |s| && r == MatchAt(s, j) && forall k :: 0 <= k < j ==> MatchAt(s, k).None?;
    assert j == p;
  }

  /** The parser on a line whose leftmost match starts at `p`: `int()`'s error
      when the accepted group, or else the total group, has more digits than
      the limit; otherwise the two decimal values and the rate text when
      `float()` accepts the rate, and `float()`'s error when it does not. */
  lemma ParseStatsAtLeftmost(line: string, p: nat)
    requires p <= |line| && MatchAt(line, p).Some?
    requires forall j :: 0 <= j < p ==> MatchAt(line, j).None?
    ensures var m := MatchAt(line, p).value;
            var r := ParseStatsFromLine(line);
            && (|m.accText| > IntMaxStrDigits ==> r == Err(IntTooManyDigits(|m.accText|)))
            && (|m.accText| <= IntMaxStrDigits < |m.totText| ==> r == Err(IntTooManyDigits(|m.totText|)))
            && (|m.accText| <= IntMaxStrDigits && |m.totText| <= IntMaxStrDigits ==>
                  r == if FloatAccepts(m.rate) then Ok(Stats(KiloHashText(m.rate), Value(m.accText), Value(m.totText)))
                       else Err(RateNotANumber(m.rate)))
  {
    SearchLeftmost(line, p);
  }

  /** No match starts anywhere inside a marker-free prefix of a text that starts with the marker. */
  lemma NoMatchBefore(prefix: string, line: string)
    requires !Contains(prefix, LogTail.Marker)
    requires LogTail.Marker <= line
    ensures forall j :: 0 <= j < |prefix| ==> MatchAt(prefix + line, j).None?
  {
    forall j | 0 <= j < |prefix| ensures MatchAt(prefix + line, j).None? {
      NoMatchInPrefix(prefix, line, j);
    }
  }

  /** Where the prefix has no marker, no match can start inside it: the
      marker's first letter `a` appears in it only once, so it cannot straddle
      into a text that starts with the marker. */
  lemma NoMatchInPrefix(prefix: string, line: string, j: nat)
    requires !Contains(prefix, LogTail.Marker)
    requires LogTail.Marker <= line
    requires j < |prefix|
    ensures !OccursAt(prefix + line, LogTail.Marker, j)
  {
    var s := prefix + line;
    if j + 9 <= |prefix| {
      assert s[j..j + 9] == prefix[j..j + 9];
      assert !OccursAt(prefix, LogTail.Marker, j);
    } else if j + 9 <= |s| {
      var o := |prefix| - j;
      assert s[|prefix|] == line[0] == 'a';
      assert s[j..j + 9][o] == s[|prefix|];
      assert LogTail.Marker[o] != 'a';
    }
  }

  /** Round trip: searching a share report behind a marker-free prefix (such as
      a timestamp) gives back exactly its two counts and its rate text. */
  lemma SearchShareLine(prefix: string, acc: nat, tot: nat, note: string, rate: string, suffix: string)
    requires !Contains(prefix, LogTail.Marker)
    requires note == [] || !IsDigit(note[0])
    requires ',' !in note && '\n' !in note
    requires rate != [] && AllRateChars(rate)
    ensures Search(prefix + ShareLine(acc, tot, note, rate) + suffix) == Some(ShareMatch(Show(acc), Show(tot), rate))
  {
    var line := ShareLine(acc, tot, note, rate) + suffix;
    var s := prefix + line;
    assert s == prefix + ShareLine(acc, tot, note, rate) + suffix;
    assert s[|prefix|..] == line;
    MatchAtShareLine(s, |prefix|, acc, tot, note, rate, suffix);
    ShareLineStartsWithMarker(acc, tot, note, rate, suffix);
    NoMatchBefore(prefix, line);
    SearchLeftmost(s, |prefix|);
  }

  /** What the parser returns for a share report: `int()`'s error when a count
      has more digits than the limit (the accepted count is converted first),
      otherwise the counts and the rate text when `float()` accepts it and
      `float()`'s error when it does not. Nothing ties `acc` to `tot`. */
  lemma ParseStatsOfShareLine(prefix: string, acc: nat, tot: nat, note: string, rate: string, suffix: string)
    requires !Contains(prefix, LogTail.Marker)
    requires note == [] || !IsDigit(note[0])
    requires ',' !in note && '\n' !in note
    requires rate != [] && AllRateChars(rate)
    ensures var r := ParseStatsFromLine(prefix + ShareLine(acc, tot, note, rate) + suffix);
            var a, t := |Show(acc)|, |Show(tot)|;
            && (a > IntMaxStrDigits ==> r == Err(IntTooManyDigits(a)))
            && (a <= IntMaxStrDigits < t ==> r == Err(IntTooManyDigits(t)))
            && (a <= IntMaxStrDigits && t <= IntMaxStrDigits && FloatAccepts(rate) ==>
                  r == Ok(Stats(KiloHashText(rate), acc, tot)))
            && (a <= IntMaxStrDigits && t <= IntMaxStrDigits && !FloatAccepts(rate) ==>
                  r == Err(RateNotANumber(rate)))
  {
    SearchShareLine(prefix, acc, tot, note, rate, suffix);
  }

  /** The line in the parser's own doc comment,
      `[time] accepted: 252/253 (diff ...), 3679.97 kH/s yes!`, for any time
      stamp in front of the report. */
  lemma ParseDocLine(stamp: string)
    requires !Contains(stamp, LogTail.Marker)
    ensures ParseStatsFromLine(stamp + ShareLine(252, 253, " (diff ...)", "3679.97") + " yes!")
            == Ok(Stats(KiloHashText("3679.97"), 252, 253))
  {
    var rate := "3679.97";
    FourDigits(252);
    FourDigits(253);
    assert rate == "3679" + "." + "97";
    FloatAcceptsDecimal("3679", "97");
    ParseStatsOfShareLine(stamp, 252, 253, " (diff ...)", rate, " yes!");
  }

  /** More shares accepted than submitted is taken as it stands. */
  lemma ParseAcceptsMoreThanTotal()
    ensures ParseStatsFromLine("accepted: 5/3, 1 kH/s") == Ok(Stats(KiloHashText("1"), 5, 3))
  {
    assert Show(5) == "5" && Show(3) == "3";
    assert AllRateChars("1") && IsDigit("1"[0]);
    assert [] + ShareLine(5, 3, [], "1") + [] == "accepted: 5/3, 1 kH/s";
    ParseStatsOfShareLine([], 5, 3, [], "1", []);
  }

  /** The rate class admits several dots, which `float()` rejects. */
  lemma ParseRejectsTwoDots()
    ensures ParseStatsFromLine("accepted: 1/1, 1.2.3 kH/s") == Err(RateNotANumber("1.2.3"))
  {
    assert Show(1) == "1";
    var rate := "1.2.3";
    assert AllRateChars(rate);
    assert rate[1] == '.' && rate[3] == '.';
    assert !FloatAccepts(rate);
    assert [] + ShareLine(1, 1, [], rate) + [] == "accepted: 1/1, 1.2.3 kH/s";
    ParseStatsOfShareLine([], 1, 1, [], rate, []);
  }
}
