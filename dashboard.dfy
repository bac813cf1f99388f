/** One tick of the dashboard's main loop: the statistics taken from the log,
    the texts shown, and the list of drawing operations that make up the frame. */
module Dashboard {
  import opened Wrappers
  import opened Decimal
  import Text
  import opened Sanitize
  import opened LogTail
  import opened ShareParser
  import opened Uptime
  import opened Display

  // ---------------------------------------------------------------- drawing

  /** The four fonts `main` loads, by role (sizes 20, 16, 13 and 13); `load_font`
      itself is left to PIL. */
  datatype Font = TitleFont | DataFont | SmallFont | LogFont

  /** Shares per minute: zero until the dashboard has run a whole second,
      then `acc / (uptime / 60)` (the float division itself is not modelled). */
  datatype SharesPerMinute = NoRate | PerMinute(acc: nat, secs: int)

  /** What a text operation writes: a fixed string, or a formatted line kept
      as the values it is formatted from. `Shown` gives the string itself
      wherever the formatting is modelled; the two float readouts are not. */
  datatype Label =
    | Plain(text: string)
    | HashRateMhs(rate: Rate)                    // f"HR : {hashrate_mhs:5.2f} MH/s"
    | SharesRate(spm: SharesPerMinute)           // f"SPM: {spm:5.2f} shares/min"
    | SharesLine(acc: nat, tot: nat, rej: nat)  // shown as `SharesText(acc, tot, rej)`
    | UptimeLine(secs: int)                      // shown as `UptimeText(secs)`
    | LogLine(raw: string)                       // "> " + line_clean, shown as `LogText(raw)`

  datatype DrawOp =
    | TextOp(x: int, y: int, content: Label, font: Font, fill: Pixel)
    | LineOp(x0: int, y0: int, x1: int, y1: int, fill: Pixel, width: nat)

  /** `center_text`'s offset `(WIDTH - text_w) // 2`: the text sits in the
      middle, its left margin at most one pixel narrower than its right one. */
  function CenterX(textW: int): (x: int)
    ensures 2 * x <= WIDTH - textW < 2 * x + 2
  {
    (WIDTH - textW) / 2
  }

  /** The PIL image and its `ImageDraw`: the background colour it was created
      with and the operations drawn on it, in order. */
  class Canvas {
    var background: Pixel
    var ops: seq<DrawOp>

    constructor (bg: Pixel)
      ensures background == bg && ops == []
    {
      background := bg;
      ops := [];
    }

    /** `draw.text((x, y), content, font=font, fill=fill)`. */
    method Text(x: int, y: int, content: Label, font: Font, fill: Pixel)
      modifies this
      ensures background == old(background)
      ensures ops == old(ops) + [TextOp(x, y, content, font, fill)]
    {
      ops := ops + [TextOp(x, y, content, font, fill)];
    }

    /** `draw.line((x0, y0, x1, y1), fill=fill, width=width)`. */
    method Line(x0: int, y0: int, x1: int, y1: int, fill: Pixel, width: nat)
      modifies this
      ensures background == old(background)
      ensures ops == old(ops) + [LineOp(x0, y0, x1, y1, fill, width)]
    {
      ops := ops + [LineOp(x0, y0, x1, y1, fill, width)];
    }

    /** `center_text(draw, y, text, font, fill)`, given the width PIL measures for the text. */
    method CenterText(y: int, text: string, font: Font, fill: Pixel, textW: int)
      modifies this
      ensures background == old(background)
      ensures ops == old(ops) + [TextOp(CenterX(textW), y, Plain(text), font, fill)]
    {
      var x := (WIDTH - textW) / 2;
      Text(x, y, Plain(text), font, fill);
    }
  }

  // ---------------------------------------------------------- tick statistics

  /** `(hashrate_hs, acc, tot)` for the tick: zeros when there are no lines,
      otherwise what the last line parses to (and the parser's error, which
      ends the program, when its rate is not a number). */
  function TickStats(lines: seq<string>): (r: Result<Stats, ValueError>)
    ensures lines == [] ==> r == Ok(ZeroStats)
  {
    if lines == [] then Ok(ZeroStats) else ParseStatsFromLine(lines[|lines| - 1])
  }

  /** Only the last line is parsed: what comes before it does not matter. */
  lemma TickStatsLastLine(a: seq<string>, b: seq<string>, last: string)
    ensures TickStats(a + [last]) == TickStats(b + [last]) == ParseStatsFromLine(last)
  {
    assert (a + [last])[|a + [last]| - 1] == last;
    assert (b + [last])[|b + [last]| - 1] == last;
  }

  /** A tick whose newest line is a share report shows that report's counts. */
  lemma TickStatsOfShareLine(earlier: seq<string>, stamp: string, acc: nat, tot: nat,
                             note: string, rate: string, suffix: string)
    requires !Text.Contains(stamp, Marker)
    requires note == [] || !IsDigit(note[0])
    requires ',' !in note && '\n' !in note
    requires rate != [] && AllRateChars(rate) && FloatAccepts(rate)
    requires |Show(acc)| <= IntMaxStrDigits && |Show(tot)| <= IntMaxStrDigits
    ensures TickStats(earlier + [stamp + ShareLine(acc, tot, note, rate) + suffix])
            == Ok(Stats(KiloHashText(rate), acc, tot))
  {
    TickStatsLastLine(earlier, [], stamp + ShareLine(acc, tot, note, rate) + suffix);
    ParseStatsOfShareLine(stamp, acc, tot, note, rate, suffix);
  }

  /** `max(tot - acc, 0)`: never negative, and the difference itself whenever
      no more shares were accepted than submitted. */
  function Rejected(acc: int, tot: int): (rej: int)
    ensures rej >= 0
    ensures acc <= tot ==> rej == tot - acc
    ensures acc >= tot ==> rej == 0
  {
    if tot - acc > 0 then tot - acc else 0
  }

  /** The waiting message replaces the data exactly when the log is missing
      at the second look or no accepted line was found. */
  predicate Waiting(logExistsAtBranch: bool, lines: seq<string>) {
    !logExistsAtBranch || lines == []
  }

  function SharesPerMinuteOf(acc: nat, uptimeSecs: int): (spm: SharesPerMinute)
    ensures spm.NoRate? <==> uptimeSecs <= 0
  {
    if uptimeSecs > 0 then PerMinute(acc, uptimeSecs) else NoRate
  }

  // -------------------------------------------------------------------- texts

  const TitleText := "VERUS MINER // PI5"
  const PoolText := "POOL: sg.vipor.net"
  const WaitingText := "WAITING FOR MINER OUTPUT"
  const HintText := "Start ccminer with tee /tmp/verus_raw.log"
  const LogHeading := "LOG:"

  function Max(a: int, b: int): int {
    if a >= b then a else b
  }

  function Spaces(n: nat): (r: string)
    ensures |r| == n && forall k :: 0 <= k < n ==> r[k] == ' '
  {
    if n == 0 then [] else [' '] + Spaces(n - 1)
  }

  /** `f"{v:4d}"` for a shown number `s`: right-aligned in a field of width `w`. */
  function PadLeft(s: string, w: nat): (r: string)
    ensures |r| == if |s| < w then w else |s|
    ensures r[|r| - |s|..] == s
    ensures forall k :: 0 <= k < |r| - |s| ==> r[k] == ' '
  {
    if |s| < w then Spaces(w - |s|) + s else s
  }

  /** `f"{v:<4d}"`: left-aligned in a field of width `w`. */
  function PadRight(s: string, w: nat): (r: string)
    ensures |r| == if |s| < w then w else |s|
    ensures r[..|s|] == s
    ensures forall k :: |s| <= k < |r| ==> r[k] == ' '
  {
    if |s| < w then s + Spaces(w - |s|) else s
  }

  /** `f"SH : {acc:4d}/{tot:<4d}  REJ: {rej}"`: the labels and three fields,
      the two count fields at least four wide. */
  function SharesText(acc: nat, tot: nat, rej: nat): (r: string)
    ensures |r| == 5 + Max(|Show(acc)|, 4) + 1 + Max(|Show(tot)|, 4) + 7 + |Show(rej)|
    ensures r[..5] == "SH : "
  {
    SharesLayout(Show(acc), Show(tot), Show(rej))
  }

  /** The shares text around already shown fields `sa`, `st` and `sr`. */
  function SharesLayout(sa: string, st: string, sr: string): (r: string)
    ensures |r| == 5 + Max(|sa|, 4) + 1 + Max(|st|, 4) + 7 + |sr|
    ensures r[..5] == "SH : "
  {
    var a, t := PadLeft(sa, 4), PadRight(st, 4);
    assert |a| == Max(|sa|, 4) && |t| == Max(|st|, 4);
    var r := "SH : " + a + "/" + t + "  REJ: " + sr;
    assert forall k :: 0 <= k < 5 ==> r[k] == "SH : "[k];
    r
  }

  /** With counts below 10000 the shares text has fixed columns: the accepted
      count ends at column 9, the total starts at column 10, and the rejected
      count follows column 21; each reads back as its number. */
  lemma SharesTextColumns(acc: nat, tot: nat, rej: nat)
    requires acc < 10000 && tot < 10000
    ensures var t := SharesText(acc, tot, rej);
            var a := |Show(acc)|;
            var b := |Show(tot)|;
            && a <= 4 && b <= 4 && |t| == 21 + |Show(rej)|
            && t[..5] == "SH : " && t[9] == '/' && t[14..21] == "  REJ: "
            && t[9 - a..9] == Show(acc) && Value(t[9 - a..9]) == acc
            && t[10..10 + b] == Show(tot) && Value(t[10..10 + b]) == tot
            && t[21..] == Show(rej) && Value(t[21..]) == rej
            && (forall k :: 5 <= k < 9 - a ==> t[k] == ' ')
            && (forall k :: 10 + b <= k < 14 ==> t[k] == ' ')
  {
    var sa, st, sr := Show(acc), Show(tot), Show(rej);
    FourDigits(acc);
    FourDigits(tot);
    SharesColumns(sa, st, sr);
    assert SharesText(acc, tot, rej) == SharesLayout(sa, st, sr);
  }

  /** The column layout of the shares text for any fields of at most four characters. */
  lemma SharesColumns(sa: string, st: string, sr: string)
    requires |sa| <= 4 && |st| <= 4
    ensures var t := SharesLayout(sa, st, sr);
            && |t| == 21 + |sr|
            && t[..5] == "SH : " && t[9] == '/' && t[14..21] == "  REJ: "
            && t[9 - |sa|..9] == sa && t[10..10 + |st|] == st && t[21..] == sr
            && (forall k :: 5 <= k < 9 - |sa| ==> t[k] == ' ')
            && (forall k :: 10 + |st| <= k < 14 ==> t[k] == ' ')
  {
    var A, T := PadLeft(sa, 4), PadRight(st, 4);
    assert |A| == 4 && A[4 - |sa|..] == sa;
    assert |T| == 4 && T[..|st|] == st;
    SharesFields(A, T, sr, |sa|, |st|);
    assert SharesLayout(sa, st, sr) == "SH : " + A + "/" + T + "  REJ: " + sr;
  }

  /** The shares row for 252 accepted of 253 submitted. */
  lemma SharesTextExample()
    ensures SharesText(252, 253, Rejected(252, 253)) == "SH :  252/253   REJ: 1"
  {
    ExampleNumerals();
    assert SharesText(252, 253, Rejected(252, 253)) == SharesLayout("252", "253", "1");
    ExampleLayout();
  }

  lemma ExampleNumerals()
    ensures Show(252) == "252" && Show(253) == "253" && Show(1) == "1"
  {
    assert Show(2) == "2" && Show(25) == "25";
  }

  lemma ExampleLayout()
    ensures SharesLayout("252", "253", "1") == "SH :  252/253   REJ: 1"
  {
    var A, T := PadLeft("252", 4), PadRight("253", 4);
    assert Spaces(1) == " ";
    assert A == " 252" by { assert A == Spaces(1) + "252"; }
    assert T == "253 " by { assert T == "253" + Spaces(1); }
    assert SharesLayout("252", "253", "1") == "SH : " + A + "/" + T + "  REJ: " + "1";
  }

  /** Where the pieces of the shares text sit when both count fields are four
      wide, the first holding `a` characters at its right end and the second `b`
      at its left end, with spaces around them. */
  lemma SharesFields(A: string, T: string, R: string, a: nat, b: nat)
    requires |A| == 4 && |T| == 4 && a <= 4 && b <= 4
    requires forall k :: 0 <= k < 4 - a ==> A[k] == ' '
    requires forall k :: b <= k < 4 ==> T[k] == ' '
    ensures var t := "SH : " + A + "/" + T + "  REJ: " + R;
            && |t| == 21 + |R|
            && t[..5] == "SH : " && t[9] == '/' && t[14..21] == "  REJ: " && t[21..] == R
            && t[9 - a..9] == A[4 - a..] && t[10..10 + b] == T[..b]
            && (forall k :: 5 <= k < 9 - a ==> t[k] == ' ')
            && (forall k :: 10 + b <= k < 14 ==> t[k] == ' ')
  {
    var t := "SH : " + A + "/" + T + "  REJ: " + R;
    var u := "SH : " + A + "/" + T;
    assert t == u + "  REJ: " + R;
    assert u[5..9] == A && u[10..14] == T;
    assert forall k :: 5 <= k < 9 ==> t[k] == A[k - 5];
    assert forall k :: 10 <= k < 14 ==> t[k] == T[k - 10];
  }

  /** `f"UP : {uptime}"`. */
  function UptimeText(uptimeSecs: int): (r: string)
    ensures |r| >= 13 && r[..5] == "UP : " && r[5..] == UptimeString(uptimeSecs)
  {
    "UP : " + UptimeString(uptimeSecs)
  }

  /** The string a label writes, when its formatting is modelled. */
  function Shown(l: Label): Option<string> {
    match l
    case Plain(t) => Some(t)
    case SharesLine(acc, tot, rej) => Some(SharesText(acc, tot, rej))
    case UptimeLine(secs) => Some(UptimeText(secs))
    case LogLine(raw) => Some(LogText(raw))
    case HashRateMhs(_) => None
    case SharesRate(_) => None
  }

  // ---------------------------------------------------------------- log rows

  const LogLeft := 10
  const LogTop := 126
  const LogStep := 16
  const MaxChars := 60
  const Ellipsis := '…'

  /** The most rows the scroll cursor allows: after this many it has passed `HEIGHT - 8`. */
  const MaxLogRows := 12

  /** Lines longer than 60 characters keep their first 60 and get an ellipsis. */
  function Truncate(s: string): (r: string)
    ensures |r| <= MaxChars + 1
    ensures |s| <= MaxChars ==> r == s
    ensures |s| > MaxChars ==> |r| == MaxChars + 1 && r[..MaxChars] == s[..MaxChars] && r[MaxChars] == Ellipsis
  {
    if |s| > MaxChars then s[..MaxChars] + [Ellipsis] else s
  }

  /** A line is shown as it is exactly when it fits, or when it already is
      60 characters followed by an ellipsis. */
  lemma TruncateUnchangedIff(s: string)
    ensures Truncate(s) == s <==> |s| <= MaxChars || (|s| == MaxChars + 1 && s[MaxChars] == Ellipsis)
  {
    if |s| == MaxChars + 1 && s[MaxChars] == Ellipsis {
      assert s == s[..MaxChars] + [Ellipsis];
    }
  }

  /** Truncating twice is truncating once. */
  lemma TruncateIdempotent(s: string)
    ensures Truncate(Truncate(s)) == Truncate(s)
  {
    TruncateUnchangedIff(Truncate(s));
  }

  /** What a log row shows of a line: colour codes and the timestamp removed, then truncated. */
  function DisplayText(line: string): (r: string)
    ensures |r| <= MaxChars + 1
  {
    Truncate(StripTimestamp(StripAnsi(line)))
  }

  /** What a log row writes for a raw line. */
  function LogText(raw: string): (r: string)
    ensures 2 <= |r| <= MaxChars + 3
    ensures r[..2] == "> " && r[2..] == DisplayText(raw)
  {
    "> " + DisplayText(raw)
  }

  /** A log row is `> ` and then the cleaned line itself when it has at most
      60 characters, its first 60 and an ellipsis otherwise. */
  lemma LogTextShape(raw: string)
    ensures var clean := StripTimestamp(StripAnsi(raw));
            var t := LogText(raw);
            && t[..2] == "> " && |t| <= MaxChars + 3
            && (|clean| <= MaxChars ==> t[2..] == clean)
            && (|clean| > MaxChars ==> t[2..] == clean[..MaxChars] + [Ellipsis])
  {
    var t := LogText(raw);
    assert t[2..] == DisplayText(raw);
  }

  /** The row drawn for line number `i` of the log part. */
  function LogRow(i: nat, line: string): DrawOp {
    TextOp(LogLeft, LogTop + LogStep * i, LogLine(line), LogFont, FG_MAIN)
  }

  /** The first `n` rows, one per line, top to bottom. */
  function Rows(lines: seq<string>, n: nat): (r: seq<DrawOp>)
    requires n <= |lines|
    ensures |r| == n
  {
    if n == 0 then [] else Rows(lines, n - 1) + [LogRow(n - 1, lines[n - 1])]
  }

  /** Row `k` shows line `k` at height `126 + 16 k`. */
  lemma {:induction false} RowsAt(lines: seq<string>, n: nat, k: nat)
    requires k < n <= |lines|
    ensures Rows(lines, n)[k] == LogRow(k, lines[k])
  {
    if k < n - 1 {
      RowsAt(lines, n - 1, k);
    }
  }

  /** The rows of the log part: as many lines as fit. */
  function LogOps(lines: seq<string>): (r: seq<DrawOp>)
    ensures |r| == Min(|lines|, MaxLogRows)
  {
    Rows(lines, Min(|lines|, MaxLogRows))
  }

  /** Row `k` of the log part shows line `k`, for the first `min(len(lines), 12)` lines. */
  lemma LogOpsRows(lines: seq<string>)
    ensures forall k :: 0 <= k < |LogOps(lines)| ==> k < |lines| && LogOps(lines)[k] == LogRow(k, lines[k])
  {
    var n := Min(|lines|, MaxLogRows);
    assert LogOps(lines) == Rows(lines, n);
    forall k | 0 <= k < n
      ensures LogOps(lines)[k] == LogRow(k, lines[k])
    {
      RowsAt(lines, n, k);
    }
  }

  /** Every row lies on the screen, with room for a full line step below it. */
  lemma LogRowsOnScreen(lines: seq<string>)
    ensures forall k :: 0 <= k < |LogOps(lines)| ==>
              LogOps(lines)[k].TextOp? && 0 <= LogOps(lines)[k].y && LogOps(lines)[k].y + LogStep <= HEIGHT
  {
    LogOpsRows(lines);
  }

  /** The eleven lines a tick selects are all drawn, each as `> ` and its display text. */
  lemma LogOpsAllLines(lines: seq<string>)
    requires |lines| <= RecentCount
    ensures |LogOps(lines)| == |lines|
    ensures forall k :: 0 <= k < |lines| ==>
              LogOps(lines)[k].TextOp? && LogOps(lines)[k].content == LogLine(lines[k])
  {
    LogOpsRows(lines);
  }

  /** The log loop: a cursor `y` from 126 in steps of 16, leaving the loop once
      it has passed `HEIGHT - 8`. */
  method DrawLog(canvas: Canvas, lines: seq<string>)
    modifies canvas
    ensures canvas.background == old(canvas.background)
    ensures canvas.ops == old(canvas.ops) + LogOps(lines)
  {
    var y := LogTop;
    var i := 0;
    while i < |lines|
      invariant 0 <= i <= |lines| && i < MaxLogRows
      invariant y == LogTop + 16 * i
      invariant canvas.background == old(canvas.background)
      invariant canvas.ops == old(canvas.ops) + Rows(lines, i)
    {
      canvas.Text(LogLeft, y, LogLine(lines[i]), LogFont, FG_MAIN);
      y := y + LogStep;
      i := i + 1;
      if y > HEIGHT - 8 {
        assert i == MaxLogRows;
        break;
      }
    }
  }

  // -------------------------------------------------------------------- frame

  /** The header every frame starts with. */
  function HeaderOps(titleW: int, poolW: int): seq<DrawOp> {
    [ TextOp(CenterX(titleW), 2, Plain(TitleText), TitleFont, FG_MAIN),
      TextOp(CenterX(poolW), 20, Plain(PoolText), SmallFont, FG_DIM),
      LineOp(10, 36, WIDTH - 10, 36, FG_DIM, 1) ]
  }

  function WaitingOps(waitingW: int, hintW: int): seq<DrawOp> {
    [ TextOp(CenterX(waitingW), 80, Plain(WaitingText), DataFont, FG_WARN),
      TextOp(CenterX(hintW), 100, Plain(HintText), SmallFont, FG_GRAY) ]
  }

  /** The data rows, the second divider and the log heading. */
  function DataRows(stats: Stats, uptimeSecs: int): seq<DrawOp> {
    [ TextOp(10, 40, HashRateMhs(stats.rate), DataFont, FG_MAIN),
      TextOp(10, 56, SharesLine(stats.acc, stats.tot, Rejected(stats.acc, stats.tot)), DataFont, FG_MAIN),
      TextOp(10, 72, UptimeLine(uptimeSecs), DataFont, FG_MAIN),
      TextOp(10, 88, SharesRate(SharesPerMinuteOf(stats.acc, uptimeSecs)), DataFont, FG_MAIN),
      LineOp(10, 106, WIDTH - 10, 106, FG_DIM, 1),
      TextOp(10, 110, Plain(LogHeading), SmallFont, FG_GRAY) ]
  }

  /** The shares row writes the shares text of the two counts and
      `max(tot - acc, 0)`. */
  lemma SharesRowShown(stats: Stats, uptimeSecs: int)
    ensures Shown(DataRows(stats, uptimeSecs)[1].content) == Some(SharesText(stats.acc, stats.tot, Rejected(stats.acc, stats.tot)))
  {
    assert DataRows(stats, uptimeSecs)[1].content == SharesLine(stats.acc, stats.tot, Rejected(stats.acc, stats.tot));
  }

  /** The uptime row writes `UP : ` and the uptime string. */
  lemma UptimeRowShown(stats: Stats, uptimeSecs: int)
    ensures Shown(DataRows(stats, uptimeSecs)[2].content) == Some("UP : " + UptimeString(uptimeSecs))
  {
    assert DataRows(stats, uptimeSecs)[2].content == UptimeLine(uptimeSecs);
  }

  /** The data part of a frame: the data rows and then the log rows. */
  function DataOps(stats: Stats, uptimeSecs: int, lines: seq<string>): seq<DrawOp> {
    DataRows(stats, uptimeSecs) + LogOps(lines)
  }

  /** The widths PIL measures for the four centred texts. */
  datatype Widths = Widths(title: int, pool: int, waiting: int, hint: int)

  /** The whole frame of one tick: the header, then the waiting message or
      the six data rows and at most twelve log rows. */
  function FrameOps(w: Widths, stats: Stats, uptimeSecs: int, logExistsAtBranch: bool, lines: seq<string>): (r: seq<DrawOp>)
    ensures |r| == if Waiting(logExistsAtBranch, lines) then 5 else 9 + Min(|lines|, MaxLogRows)
    ensures r[..3] == HeaderOps(w.title, w.pool)
  {
    HeaderOps(w.title, w.pool)
    + if Waiting(logExistsAtBranch, lines) then WaitingOps(w.waiting, w.hint)
      else DataOps(stats, uptimeSecs, lines)
  }

  /** No row of the data part is the waiting message. */
  lemma DataOpsNotWaiting(stats: Stats, uptimeSecs: int, lines: seq<string>)
    ensures var d := DataOps(stats, uptimeSecs, lines);
            forall k :: 0 <= k < |d| && d[k].TextOp? ==> d[k].content != Plain(WaitingText)
  {
    var rows := DataRows(stats, uptimeSecs);
    var d := DataOps(stats, uptimeSecs, lines);
    DataRowsNotWaiting(stats, uptimeSecs);
    LogOpsRows(lines);
    forall k | 0 <= k < |d| && d[k].TextOp?
      ensures d[k].content != Plain(WaitingText)
    {
      if k < 6 {
        assert d[k] == rows[k];
      } else {
        assert d[k] == LogOps(lines)[k - 6];
      }
    }
  }

  lemma DataRowsNotWaiting(stats: Stats, uptimeSecs: int)
    ensures forall k :: 0 <= k < 6 && DataRows(stats, uptimeSecs)[k].TextOp? ==>
              DataRows(stats, uptimeSecs)[k].content != Plain(WaitingText)
  {
    assert WaitingText[0] == 'W';
    assert LogHeading[0] == 'L';
  }

  /** The frame shows the waiting message exactly when the tick waits; the
      data rows come only otherwise. */
  lemma FrameWaitingIff(w: Widths, stats: Stats, uptimeSecs: int, logExistsAtBranch: bool, lines: seq<string>)
    ensures var ops := FrameOps(w, stats, uptimeSecs, logExistsAtBranch, lines);
            && ((exists k :: 0 <= k < |ops| && ops[k].TextOp? && ops[k].content == Plain(WaitingText))
                <==> Waiting(logExistsAtBranch, lines))
            && (Waiting(logExistsAtBranch, lines) <==> |ops| == 5)
  {
    var ops := FrameOps(w, stats, uptimeSecs, logExistsAtBranch, lines);
    var h := HeaderOps(w.title, w.pool);
    if Waiting(logExistsAtBranch, lines) {
      assert ops[3] == WaitingOps(w.waiting, w.hint)[0];
    } else {
      var d := DataOps(stats, uptimeSecs, lines);
      assert ops == h + d;
      DataOpsNotWaiting(stats, uptimeSecs, lines);
      forall k | 0 <= k < |ops| && ops[k].TextOp?
        ensures ops[k].content != Plain(WaitingText)
      {
        if k < 3 {
          assert |h[k].content.text| != |WaitingText|;
        } else {
          assert ops[k] == d[k - 3];
        }
      }
    }
  }

  /** The title, the pool name and the first divider. */
  method DrawHeader(canvas: Canvas, w: Widths)
    modifies canvas
    ensures canvas.background == old(canvas.background)
    ensures canvas.ops == old(canvas.ops) + HeaderOps(w.title, w.pool)
  {
    canvas.CenterText(2, TitleText, TitleFont, FG_MAIN, w.title);
    canvas.CenterText(20, PoolText, SmallFont, FG_DIM, w.pool);
    canvas.Line(10, 36, WIDTH - 10, 36, FG_DIM, 1);
  }

  /** The waiting message and the hint under it. */
  method DrawWaiting(canvas: Canvas, w: Widths)
    modifies canvas
    ensures canvas.background == old(canvas.background)
    ensures canvas.ops == old(canvas.ops) + WaitingOps(w.waiting, w.hint)
  {
    canvas.CenterText(80, WaitingText, DataFont, FG_WARN, w.waiting);
    canvas.CenterText(100, HintText, SmallFont, FG_GRAY, w.hint);
  }

  /** The four readouts, the second divider and the log heading. */
  method DrawData(canvas: Canvas, stats: Stats, uptimeSecs: int)
    modifies canvas
    ensures canvas.background == old(canvas.background)
    ensures canvas.ops == old(canvas.ops) + DataRows(stats, uptimeSecs)
  {
    var rej := Rejected(stats.acc, stats.tot);
    var spm := SharesPerMinuteOf(stats.acc, uptimeSecs);
    canvas.Text(10, 40, HashRateMhs(stats.rate), DataFont, FG_MAIN);
    canvas.Text(10, 56, SharesLine(stats.acc, stats.tot, rej), DataFont, FG_MAIN);
    canvas.Text(10, 72, UptimeLine(uptimeSecs), DataFont, FG_MAIN);
    canvas.Text(10, 88, SharesRate(spm), DataFont, FG_MAIN);
    canvas.Line(10, 106, WIDTH - 10, 106, FG_DIM, 1);
    canvas.Text(10, 110, Plain(LogHeading), SmallFont, FG_GRAY);
  }

  /** Everything drawn in one tick, once the statistics are known. */
  method DrawFrame(canvas: Canvas, w: Widths, stats: Stats, uptimeSecs: int, logExistsAtBranch: bool, lines: seq<string>)
    modifies canvas
    ensures canvas.background == old(canvas.background)
    ensures canvas.ops == old(canvas.ops) + FrameOps(w, stats, uptimeSecs, logExistsAtBranch, lines)
  {
    ghost var before := canvas.ops;
    var header := HeaderOps(w.title, w.pool);
    DrawHeader(canvas, w);
    if !logExistsAtBranch || lines == [] {
      DrawWaiting(canvas, w);
      assert canvas.ops == before + (header + WaitingOps(w.waiting, w.hint));
    } else {
      DrawData(canvas, stats, uptimeSecs);
      DrawLog(canvas, lines);
      assert canvas.ops == before + (header + (DataRows(stats, uptimeSecs) + LogOps(lines)));
    }
  }

  /** One pass of the loop body: read the log, take the statistics, draw the
      frame. A rate `float()` cannot read ends the program with its error. */
  method RenderTick(uptimeSecs: int, log: Option<seq<string>>, logExistsAtBranch: bool, w: Widths)
    returns (r: Result<Canvas, ValueError>)
    ensures var lines := RecentAcceptedLines(log, RecentCount);
            && (r.Err? <==> TickStats(lines).Err?)
            && (r.Err? ==> r.error == TickStats(lines).error)
            && (r.Ok? ==> fresh(r.value) && r.value.background == BG_COLOR
                          && r.value.ops == FrameOps(w, TickStats(lines).value, uptimeSecs, logExistsAtBranch, lines))
  {
    var lines := RecentAcceptedLines(log, RecentCount);
    var parsed := TickStats(lines);
    if parsed.Err? {
      return Err(parsed.error);
    }
    var canvas := new Canvas(BG_COLOR);
    DrawFrame(canvas, w, parsed.value, uptimeSecs, logExistsAtBranch, lines);
    return Ok(canvas);
  }
}
