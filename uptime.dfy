/** `uptime_string`: seconds since start as `HH:MM:SS`. */
module Uptime {
  import opened Decimal

  /** Python's `//` and `%` by a positive divisor round toward minus infinity,
      which for a positive divisor is Dafny's Euclidean `/` and `%`. */
  function Hms(secs: int): (r: (int, int, int))
    ensures r.0 * 3600 + r.1 * 60 + r.2 == secs
    ensures 0 <= r.1 < 60 && 0 <= r.2 < 60
    ensures r.0 >= 0 <==> secs >= 0
  {
    (secs / 3600, (secs % 3600) / 60, secs % 60)
  }

  /** `f"{n:02d}"`: at least two characters, zero-padded; a negative number is
      its sign and its digits, which already fill the width. */
  function Pad2(n: int): (r: string)
    ensures n >= 0 ==> AllDigits(r) && Value(r) == n
    ensures n >= 0 ==> (|r| == 2 <==> n < 100) && |r| >= 2
    ensures n < 0 ==> |r| >= 2 && r[0] == '-' && AllDigits(r[1..]) && Value(r[1..]) == -n
    ensures n >= 10 ==> r == Show(n)
    ensures n < 0 ==> r == "-" + Show(-n)
  {
    if n < 0 then "-" + Show(-n)
    else if n < 10 then
      var r := "0" + Show(n);
      assert r[..1] == "0";
      r
    else Show(n)
  }

  /** `uptime_string(secs)`: the hours, then `:MM:SS`. */
  function UptimeString(secs: int): (r: string)
    ensures |r| >= 8 && r[|r| - 6] == ':' && r[|r| - 3] == ':'
  {
    var (h, m, s) := Hms(secs);
    var H, M, S := Pad2(h), Pad2(m), Pad2(s);
    var r := H + ":" + M + ":" + S;
    assert |r| == |H| + 6 && r[|H|] == ':' && r[|H| + 3] == ':';
    r
  }

  /** The hour field ends six characters before the end: `:MM:SS` follow it. */
  lemma UptimeLayout(secs: int)
    ensures var r := UptimeString(secs);
            var (h, m, s) := Hms(secs);
            && |r| == |Pad2(h)| + 6
            && r[..|r| - 6] == Pad2(h) && r[|r| - 6] == ':'
            && r[|r| - 5..|r| - 3] == Pad2(m) && r[|r| - 3] == ':'
            && r[|r| - 2..] == Pad2(s)
  {
    var (h, m, s) := Hms(secs);
    JoinLayout(Pad2(h), Pad2(m), Pad2(s));
  }

  /** Where the three fields sit in `H:MM:SS` when the last two are two wide. */
  lemma JoinLayout(H: string, M: string, S: string)
    requires |M| == 2 && |S| == 2
    ensures var r := H + ":" + M + ":" + S;
            && |r| == |H| + 6
            && r[..|r| - 6] == H && r[|r| - 6] == ':'
            && r[|r| - 5..|r| - 3] == M && r[|r| - 3] == ':'
            && r[|r| - 2..] == S
  {
    var r := H + ":" + M + ":" + S;
    var hm := H + ":" + M;
    assert r == hm + (":" + S);
    assert r[..|hm|] == hm && r[|hm|..] == ":" + S;
    assert hm[..|H|] == H && hm[|H| + 1..] == M;
    assert r[..|H|] == H;
    assert r[|H| + 1..|H| + 3] == M;
    assert r[|H| + 4..] == S;
  }

  /** Within 100 hours the string is exactly `HH:MM:SS`. */
  lemma UptimeLength(secs: int)
    requires 0 <= secs < 360000
    ensures |UptimeString(secs)| == 8
  {
    UptimeLayout(secs);
  }

  /** Round trip: for a non-negative count the three fields read back as
      decimal numbers give hours, minutes and seconds that add up to `secs`. */
  lemma UptimeReadBack(secs: int)
    requires secs >= 0
    ensures ReadsBackAs(UptimeString(secs), secs)
  {
    UptimeLayout(secs);
  }

  /** `r` is `H:MM:SS` with decimal fields, minutes and seconds below 60, that
      add up to `secs` seconds. */
  predicate ReadsBackAs(r: string, secs: int) {
    && |r| >= 8 && r[|r| - 6] == ':' && r[|r| - 3] == ':'
    && AllDigits(r[..|r| - 6]) && AllDigits(r[|r| - 5..|r| - 3]) && AllDigits(r[|r| - 2..])
    && Value(r[..|r| - 6]) * 3600 + Value(r[|r| - 5..|r| - 3]) * 60 + Value(r[|r| - 2..]) == secs
    && Value(r[|r| - 5..|r| - 3]) < 60 && Value(r[|r| - 2..]) < 60
  }

  /** A negative count (a clock that went backwards) shows a leading minus sign. */
  lemma UptimeNegative(secs: int)
    requires secs < 0
    ensures UptimeString(secs)[0] == '-'
  {
    UptimeLayout(secs);
  }
}
