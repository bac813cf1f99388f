# Verus miner LCD dashboard, modelled in Dafny

`verus_lcd_dashboard.py` draws a status screen for a Verus miner onto a
480x320 framebuffer. On every tick it:

1. reads the miner's log and keeps the last eleven lines that contain
   `accepted:`;
2. parses the newest of them for the accepted and submitted share counts
   and the hashrate;
3. draws a header, then either a waiting message or the statistics and
   the cleaned log lines;
4. packs the image into 16-bit RGB565 words for `/dev/fb0`.

The model follows the source's own structure:

| module | file | models |
|---|---|---|
| `Decimal` | decimal.dfy | `int()` and `str()` on natural numbers |
| `Text` | text.dfy | character classes and maximal runs, the building blocks of the regular expressions |
| `Sanitize` | sanitize.dfy | `strip_ansi`, as a scanner for the SGR colour codes of ECMA-48 (section 8.3.117), and `strip_timestamp` |
| `LogTail` | log_tail.dfy | the filter and the `[-n:]` slice of `get_recent_accepted_lines` |
| `ShareParser` | share_parser.dfy | `parse_stats_from_line`, as a matcher for `accepted:\s+(\d+)/(\d+).*?,\s+([\d\.]+)\s+kH/s` under `re.search`, with the `int()` and `float()` steps that can fail |
| `Uptime` | uptime.dfy | `uptime_string` |
| `Display` | display.dfy | the screen size, the palette and `rgb888_to_rgb565` (a method that fills an output array) |
| `Dashboard` | dashboard.dfy | one pass of `main`'s loop, described below |

In `Dashboard`, the PIL image and its drawing context become a `Canvas`
class. It holds the background colour and the list of drawing operations
made so far. `center_text`, `draw.text` and `draw.line` are its methods, and
each one appends one operation.

Texts built with f-strings are kept as the values they are formatted from;
`Shown` gives the resulting string wherever the formatting is modelled.
`RenderTick` is one tick. It is proved to draw exactly `FrameOps`, the frame
that the per-tick decisions call for:

- stats of zero when there are no lines;
- the last line parsed;
- `max(tot - acc, 0)` rejected shares;
- the waiting branch or the data branch;
- the log loop, with its cursor from y = 126 in steps of 16 and its `break`.

The module also proves lemmas about that frame.

## Model

| member | source | states |
|---|---|---|
| Decimal.Show | verus_lcd_dashboard.py:143 | `{:d}` of a count is at least one character, all digits, with no leading zero, and reads back as the count |
| Decimal.Value | verus_lcd_dashboard.py:94-95 | `int()` of a run of `k` digits is below `10^k` |
| Decimal.ShowValue | verus_lcd_dashboard.py:94-95 | other direction of the round trip: a canonical digit string is what `str()` gives for its value |
| Decimal.ShowLength | verus_lcd_dashboard.py:143 | `str(n)` has at most `k` digits exactly when `n < 10^k` |
| Decimal.FourDigits | verus_lcd_dashboard.py:143 | a count below 10000 has at most four digits, so it fits the `{:4d}` field |
| Text.Span | verus_lcd_dashboard.py:91 | a greedy run stops at the end of the line or at the first character outside its class |
| Text.SpanRun | verus_lcd_dashboard.py:91 | every character a greedy run passes over is in its class |
| Text.Contains | verus_lcd_dashboard.py:69 | `"accepted:" in ln`: the marker occurs as a contiguous substring of the line |
| Text.FirstIndexOf | verus_lcd_dashboard.py:77 | `find` gives no index exactly when the character is absent, and otherwise an index of it with no earlier occurrence |
| Sanitize.SgrAt | verus_lcd_dashboard.py:20 | a line starts with a whole colour code of length `k` exactly when the scanner reports `k`; there is at most one such `k` |
| Sanitize.StripAnsi | verus_lcd_dashboard.py:22-24 | `strip_ansi` never lengthens a line |
| Sanitize.StripAnsiSubsequence | verus_lcd_dashboard.py:22-24 | `strip_ansi` only deletes characters: the result is a subsequence of the input and never longer |
| Sanitize.StripAnsiNoEscape | verus_lcd_dashboard.py:22-24 | a line without ESC is returned unchanged |
| Sanitize.StripAnsiLeadingSgr | verus_lcd_dashboard.py:20-24 | a leading colour code is removed and scanning resumes after it, so a line that is one colour code becomes empty |
| Sanitize.StripAnsiPlainPrefix | verus_lcd_dashboard.py:22-24 | a prefix without ESC is copied unchanged |
| Sanitize.StripAnsiUnchangedIff | verus_lcd_dashboard.py:22-24 | `strip_ansi` leaves a line unchanged exactly when no substring of it is a colour code |
| Sanitize.StripAnsiNotIdempotent | verus_lcd_dashboard.py:22-24 | ESC ESC `[m[m` becomes ESC `[m`, which becomes empty on a second pass |
| Sanitize.StripTimestamp | verus_lcd_dashboard.py:72-84 | the result is a suffix of the line, and the line is unchanged unless it starts with `[` and contains `]` |
| Sanitize.StripTimestampDecomposes | verus_lcd_dashboard.py:76-83 | when something is stripped, the line is a bracket up to its first `]`, at most one space, and the result; a following space is always taken |
| Sanitize.StripTimestampOfStamped | verus_lcd_dashboard.py:72-84 | round trip: a bracket put before a line, with or without one space, is removed again |
| Sanitize.StripTimestampNotIdempotent | verus_lcd_dashboard.py:72-84 | `[a][b]` becomes `[b]`, which becomes empty on a second pass |
| LogTail.RStripNewlines | verus_lcd_dashboard.py:69 | `rstrip("\n")` removes a run of trailing newlines and nothing else, and leaves no trailing newline |
| LogTail.RStripKeepsMarker | verus_lcd_dashboard.py:69 | stripping newlines keeps the `accepted:` marker |
| LogTail.AcceptedLines | verus_lcd_dashboard.py:69 | every kept line contains `accepted:` and has no trailing newline, and no more lines come out than went in |
| LogTail.AcceptedLinesAppend | verus_lcd_dashboard.py:69 | the filter works line by line in file order: it distributes over concatenation |
| LogTail.AcceptedLinesAt | verus_lcd_dashboard.py:69 | a line with the marker is kept at its place, newline-stripped, between what the lines before and after it give; a line without it contributes nothing |
| LogTail.AcceptedLinesNone | verus_lcd_dashboard.py:69 | lines without the marker are all excluded |
| LogTail.PySliceFrom | verus_lcd_dashboard.py:70 | Python's `xs[start:]` is a suffix of `xs` |
| LogTail.RecentAcceptedLines | verus_lcd_dashboard.py:58-70 | every returned line contains `accepted:` and has no trailing newline |
| LogTail.RecentAcceptedLinesSelects | verus_lcd_dashboard.py:58-70 | a missing or unreadable log gives `[]`; for `n >= 1` the result is the last `min(k, n)` of the `k` matching lines, in order; for `n == 0` it is all of them |
| ShareParser.RateTailAt | verus_lcd_dashboard.py:91 | a captured rate group lies after the start position and is a non-empty run of digits and dots |
| ShareParser.RateTailAtSound | verus_lcd_dashboard.py:91 | a reported rate is a whitespace run, then a maximal run of digits and dots, then whitespace and `kH/s` |
| ShareParser.RateTailAtFinds | verus_lcd_dashboard.py:91 | wherever `\s+([\d\.]+)\s+kH/s` matches with a maximal group, that group is what is reported |
| ShareParser.LazyCommaTail | verus_lcd_dashboard.py:91 | a rate found after `.*?,` lies after the start position and is a non-empty run of digits and dots |
| ShareParser.LazyCommaTailSound | verus_lcd_dashboard.py:91 | a reported rate is the tail at a comma with no newline before it and no earlier comma whose tail matches |
| ShareParser.LazyCommaTailFinds | verus_lcd_dashboard.py:91 | at the first such comma the lazy scan stops and reports that comma's tail |
| ShareParser.CountsAt | verus_lcd_dashboard.py:91 | two reported groups lie after the marker, are non-empty runs of digits, and are separated by one character |
| ShareParser.CountsAtSound | verus_lcd_dashboard.py:91 | a report is the marker, a whitespace run, a digit run, `/`, and a maximal digit run |
| ShareParser.CountsAtFinds | verus_lcd_dashboard.py:91 | wherever `accepted:\s+(\d+)/(\d+)` matches with a maximal second group, those groups are what is reported |
| ShareParser.MatchAt | verus_lcd_dashboard.py:91 | a match starts at the marker and has two non-empty digit groups and a non-empty rate of digits and dots |
| ShareParser.MatchAtSound | verus_lcd_dashboard.py:91 | a reported match has the counts at positions `b`, `c`, `e`, then a first matching comma `q`, then the rate tail at `u`, `v`; its groups are `s[b..c]`, `s[c+1..e]` and `s[u..v]` |
| ShareParser.MatchAtFinds | verus_lcd_dashboard.py:91 | wherever the pattern matches in that shape, `MatchAt` reports exactly those three groups |
| ShareParser.SearchFrom | verus_lcd_dashboard.py:91 | `re.search` fails exactly when no position matches, and otherwise returns the match at the leftmost position that has one |
| ShareParser.Search | verus_lcd_dashboard.py:91-92 | `re.search` finds nothing exactly when no position matches; a found match is well formed and the line contains `accepted:` |
| ShareParser.CountsAtPieces | verus_lcd_dashboard.py:91 | on `accepted: <A>/<T>` followed by a non-digit, the two groups are exactly `A` and `T` |
| ShareParser.RateTailAtPieces | verus_lcd_dashboard.py:91 | on ` <rate> kH/s` the rate group is exactly `rate` |
| ShareParser.CommaTailAtPieces | verus_lcd_dashboard.py:91 | `.*?,\s+([\d\.]+)\s+kH/s` on `<note>, <rate> kH/s` captures `rate` |
| ShareParser.MatchAtShareLine | verus_lcd_dashboard.py:91-95 | the pattern matches a share report where it starts and gives back its counts and rate |
| ShareParser.SearchLeftmost | verus_lcd_dashboard.py:91 | `re.search` returns the match at the leftmost matching position |
| ShareParser.NoMatchBefore | verus_lcd_dashboard.py:91 | no match starts anywhere inside a marker-free prefix of a text that starts with the marker |
| ShareParser.NoMatchInPrefix | verus_lcd_dashboard.py:91 | no match starts inside a marker-free prefix, including where a marker would straddle into the report |
| ShareParser.SearchShareLine | verus_lcd_dashboard.py:91-95 | round trip: searching a share report behind a marker-free prefix (such as a timestamp) gives back exactly its two counts and its rate text |
| ShareParser.FloatAcceptsDecimal | verus_lcd_dashboard.py:96 | `float()` reads a decimal numeral with a fraction part |
| ShareParser.FloatAccepts | verus_lcd_dashboard.py:96 | `float()` of a run of digits and dots succeeds exactly when it has a digit and at most one dot; otherwise the tick raises |
| ShareParser.ParseInt | verus_lcd_dashboard.py:94-95 | `int()` raises exactly when the group has more than 4300 digits; otherwise it gives the group's decimal value (leading zeros included, so `007` is 7), below `10^k` for `k` digits, and a numeral without leading zeros is `str()` of it |
| ShareParser.ParseStatsFromLine | verus_lcd_dashboard.py:86-97 | the zero triple exactly when no position of the line matches (with or without the marker); an error (from `int()` or `float()`) only on a line with the marker; on a match a successful result holds the decimal values of the two groups and the rate text, which `float()` accepts |
| ShareParser.ParseStatsAtLeftmost | verus_lcd_dashboard.py:91-97 | for any line whose leftmost match starts at `p`: `int()`'s error when the accepted group, or else the total group, is over the limit; otherwise the groups' values and the rate when `float()` accepts it, `float()`'s error when it does not |
| ShareParser.ParseWithoutMarker | verus_lcd_dashboard.py:91-93 | a line without `accepted:` gives the zero triple |
| ShareParser.ParseStatsOfShareLine | verus_lcd_dashboard.py:86-97 | a share report gives `int()`'s error when the accepted count, or else the total, has more than 4300 digits; otherwise its counts and rate when `float()` reads the rate, and `float()`'s error when it does not |
| ShareParser.ParseDocLine | verus_lcd_dashboard.py:87-97 | the line in the parser's doc comment gives 252, 253 and `3679.97` |
| ShareParser.ParseAcceptsMoreThanTotal | verus_lcd_dashboard.py:94-97 | `accepted: 5/3, 1 kH/s` is accepted as it stands: `acc <= tot` is not enforced |
| ShareParser.ParseRejectsTwoDots | verus_lcd_dashboard.py:91-96 | `[\d\.]+` captures `1.2.3`, and `float()` raises on it |
| Uptime.Hms | verus_lcd_dashboard.py:47-49 | `h*3600 + m*60 + s == secs`, with `0 <= m < 60` and `0 <= s < 60`; `h` is negative exactly when `secs` is |
| Uptime.Pad2 | verus_lcd_dashboard.py:50 | `{:02d}` of `n >= 0` is at least two digits and reads back as `n`, and exactly two when `n < 100`; for `n >= 10` it is `str(n)`; a negative `n` is `-` followed by `str(-n)` |
| Uptime.UptimeString | verus_lcd_dashboard.py:46-50 | at least 8 characters, with `:` six and three places from the end |
| Uptime.UptimeLayout | verus_lcd_dashboard.py:50 | the string is the three fields separated by `:` at fixed places from the end |
| Uptime.UptimeLength | verus_lcd_dashboard.py:46-50 | below 100 hours the string has exactly 8 characters |
| Uptime.UptimeReadBack | verus_lcd_dashboard.py:46-50 | round trip: for `secs >= 0` the three fields read back as hours, minutes and seconds adding up to `secs`, with minutes and seconds below 60 |
| Uptime.UptimeNegative | verus_lcd_dashboard.py:46-50 | a negative count is shown with a leading `-` |
| Display.Rgb565 | verus_lcd_dashboard.py:26-31 | the packed word of any 8-bit pixel is below 65536 |
| Display.Rgb565Fields | verus_lcd_dashboard.py:28-31 | bits 11-15, 5-10 and 0-4 of the word give back `r>>3`, `g>>2` and `b>>3` |
| Display.Expand | verus_lcd_dashboard.py:28-31 | the pixel a word stands for has zeros in the dropped low bits |
| Display.PackExpand | verus_lcd_dashboard.py:31 | every 16-bit word is the packing of some pixel |
| Display.ExpandPack | verus_lcd_dashboard.py:28-31 | packing keeps exactly the top 5, 6 and 5 bits of the channels |
| Display.Rgb565SameIff | verus_lcd_dashboard.py:28-31 | two pixels pack to the same word exactly when they agree on the kept bits |
| Display.PaletteWords | verus_lcd_dashboard.py:14-31 | black packs to 0 and `(0, 255, 0)` to `0x07E0` |
| Display.Rgb888ToRgb565 | verus_lcd_dashboard.py:26-32 | a fresh array of the image's shape, holding each pixel's packed word |
| Display.FrameToRgb565 | verus_lcd_dashboard.py:169 | a full frame gives exactly `HEIGHT` x `WIDTH` words |
| Dashboard.CenterX | verus_lcd_dashboard.py:52-56 | `x = (WIDTH - w) // 2` satisfies `2x <= WIDTH - w < 2x + 2`: margins differ by at most one pixel |
| Dashboard.Canvas.constructor | verus_lcd_dashboard.py:108-109 | a new image has the background colour and nothing drawn on it |
| Dashboard.Canvas.Text | verus_lcd_dashboard.py:142 | `draw.text` appends one text operation and changes nothing else |
| Dashboard.Canvas.Line | verus_lcd_dashboard.py:135 | `draw.line` appends one line operation and changes nothing else |
| Dashboard.Canvas.CenterText | verus_lcd_dashboard.py:52-56 | `center_text` draws the text at the centred offset for its measured width |
| Dashboard.TickStats | verus_lcd_dashboard.py:115-120 | no lines give zero statistics |
| Dashboard.TickStatsLastLine | verus_lcd_dashboard.py:119-120 | only the last line is parsed; the lines before it do not matter |
| Dashboard.TickStatsOfShareLine | verus_lcd_dashboard.py:113-120 | a tick whose newest line is a share report with counts of at most 4300 digits takes that report's counts and rate |
| Dashboard.Rejected | verus_lcd_dashboard.py:123 | `max(tot - acc, 0)` is never negative, is `tot - acc` when `acc <= tot`, and 0 otherwise |
| Dashboard.SharesPerMinuteOf | verus_lcd_dashboard.py:126-128 | the division is skipped exactly when `uptime_secs <= 0` |
| Dashboard.PadLeft | verus_lcd_dashboard.py:143 | `{:4d}` right-aligns the digits in a field of at least 4, padded with spaces |
| Dashboard.PadRight | verus_lcd_dashboard.py:143 | `{:<4d}` left-aligns the digits in a field of at least 4, padded with spaces |
| Dashboard.SharesText | verus_lcd_dashboard.py:143 | the shares row starts with `SH : ` and is as long as the labels plus both counts padded to at least 4 plus the rejected count |
| Dashboard.SharesLayout | verus_lcd_dashboard.py:143 | the same length and prefix for any three shown fields |
| Dashboard.SharesTextColumns | verus_lcd_dashboard.py:143 | with counts below 10000 the shares row has fixed columns, and each number in it reads back as the count |
| Dashboard.SharesColumns | verus_lcd_dashboard.py:143 | where the padded fields and the labels sit in the shares row |
| Dashboard.SharesTextExample | verus_lcd_dashboard.py:143 | 252 of 253 shows as `SH :  252/253   REJ: 1` |
| Dashboard.UptimeText | verus_lcd_dashboard.py:144 | the UP row is `UP : ` followed by the uptime string, at least 13 characters |
| Dashboard.Truncate | verus_lcd_dashboard.py:159-162 | at most 61 characters; a line of at most 60 is kept; a longer one keeps its first 60 and gets `…` |
| Dashboard.TruncateUnchangedIff | verus_lcd_dashboard.py:159-162 | a line is shown as it is exactly when it fits, or already is 60 characters and `…` |
| Dashboard.TruncateIdempotent | verus_lcd_dashboard.py:159-162 | truncating twice is truncating once |
| Dashboard.DisplayText | verus_lcd_dashboard.py:157-162 | the shown text of a log line has at most 61 characters |
| Dashboard.LogText | verus_lcd_dashboard.py:163 | a log row is `> ` followed by the display text, between 2 and 63 characters |
| Dashboard.LogTextShape | verus_lcd_dashboard.py:157-163 | a log row is `> ` and the cleaned line, or its first 60 characters and `…` |
| Dashboard.RowsAt | verus_lcd_dashboard.py:155-164 | row `k` shows line `k` at `y = 126 + 16k` |
| Dashboard.LogOps | verus_lcd_dashboard.py:153-166 | the log part has `min(len(lines), 12)` rows |
| Dashboard.LogOpsRows | verus_lcd_dashboard.py:153-166 | row `k` of the log part is line `k`, in order, at `y = 126 + 16k` |
| Dashboard.LogRowsOnScreen | verus_lcd_dashboard.py:153-166 | every drawn row lies on the screen with a full 16-pixel step below it |
| Dashboard.LogOpsAllLines | verus_lcd_dashboard.py:153-166 | the at most 11 lines a tick selects are all drawn, each as `> ` and its display text |
| Dashboard.DrawLog | verus_lcd_dashboard.py:153-166 | the loop with its `y` cursor and `break` draws exactly the log rows, after what was drawn before |
| Dashboard.DataRowsNotWaiting | verus_lcd_dashboard.py:141-151 | none of the data rows is the waiting message |
| Dashboard.DataOpsNotWaiting | verus_lcd_dashboard.py:141-166 | nothing in the data part is the waiting message |
| Dashboard.SharesRowShown | verus_lcd_dashboard.py:143 | the SH data row writes `SharesText` of the counts and `max(tot - acc, 0)` |
| Dashboard.UptimeRowShown | verus_lcd_dashboard.py:144 | the UP data row writes `UP : ` followed by the uptime string |
| Dashboard.Waiting | verus_lcd_dashboard.py:137 | the waiting branch is taken when the log is missing at that check or no line was selected |
| Dashboard.FrameOps | verus_lcd_dashboard.py:130-166 | a frame is the three header operations, then 2 more in the waiting branch or 6 plus `min(len(lines), 12)` otherwise |
| Dashboard.FrameWaitingIff | verus_lcd_dashboard.py:137-140 | the waiting message is drawn exactly when the log is missing or no line was selected; only then is the frame just the header and the two messages |
| Dashboard.DrawHeader | verus_lcd_dashboard.py:130-135 | draws the title, the pool name and the divider |
| Dashboard.DrawWaiting | verus_lcd_dashboard.py:137-139 | draws the waiting message and the hint |
| Dashboard.DrawData | verus_lcd_dashboard.py:141-151 | draws the four readouts, the divider and the log heading |
| Dashboard.DrawFrame | verus_lcd_dashboard.py:130-166 | draws exactly the frame for the statistics, the branch and the lines, after what was drawn before |
| Dashboard.RenderTick | verus_lcd_dashboard.py:107-166 | a tick fails exactly when parsing the last line raises (`int()` on a count over 4300 digits or `float()` on the rate), with that error; otherwise it yields a fresh black canvas holding exactly the frame for its statistics, branch and lines |

## Behaviour of the code that the model makes explicit

- Sanitizing is not idempotent: `strip_ansi` (verus_lcd_dashboard.py:20-24)
  and `strip_timestamp` (verus_lcd_dashboard.py:72-84) each remove one layer.
  `StripAnsiNotIdempotent` and `StripTimestampNotIdempotent` give inputs.
- `parse_stats_from_line` returns the two counts as matched and never
  compares them (verus_lcd_dashboard.py:94-97), and `max(tot - acc, 0)`
  (verus_lcd_dashboard.py:123) hides `acc > tot`.
  `ParseAcceptsMoreThanTotal` shows such a line.
- `[\d\.]+` (verus_lcd_dashboard.py:91) admits texts that `float()`
  (verus_lcd_dashboard.py:96) rejects, and nothing catches the `ValueError`
  inside the loop (verus_lcd_dashboard.py:107-120). `ParseRejectsTwoDots`
  shows it.
- `accepted[-n:]` (verus_lcd_dashboard.py:70) returns every matching line
  when `n == 0`.
- The parser is applied to `lines[-1]` as read (verus_lcd_dashboard.py:120),
  before any sanitizing; sanitizing happens only for display
  (verus_lcd_dashboard.py:157-158).
- Log rows are drawn in file order, oldest first (verus_lcd_dashboard.py:155).
- The timestamp bracket ends at the first `]` (verus_lcd_dashboard.py:77).

## Left out

- Reading the log file and writing `/dev/fb0` are I/O. The log is given as
  `Option<seq<string>>`, where `None` stands for a missing or unreadable
  file. The frame stops at the array of 16-bit words.
- The byte order of `tobytes()` is native, so the model does not serialise
  the words.
- The two `LOG_PATH.exists()` checks are separate reads of the file
  system. The second one is the parameter `logExistsAtBranch`.
- `load_font`, `textbbox` and PIL's rasterisation are calls into PIL. The
  measured widths of the four centred texts are inputs (`Widths`). A drawn
  operation is recorded, not rendered into pixels.
- Floating point is left out:
  - `float()` is modelled only as which texts it accepts;
  - `* 1000.0`, the MH/s division and the shares-per-minute division are
    not modelled;
  - the `%5.2f` formatting of the HR and SPM rows is not modelled, so those
    two rows stay symbolic (`HashRateMhs`, `SharesRate`).
- `time.time()`, `time.sleep(0.5)`, the endless loop and the
  `KeyboardInterrupt` handler are clock, scheduling and process lifetime.
  The uptime is a parameter of `RenderTick`, and one tick is modelled.
- `\d` is modelled as the ASCII digits. Python's `re` on `str` also accepts
  other Unicode decimal digits, which `int()` would read.
- The RGB565 packing is computed on integers. A right shift is modelled as
  division by a power of two, a left shift as a multiplication, and `|` as
  `+`, which is exact because the three fields do not overlap.
- The `int()` digit limit is taken as CPython's default of 4300. The
  `PYTHONINTMAXSTRDIGITS` setting, `sys.set_int_max_str_digits` and older
  interpreters without a limit are not modelled.
- ShareParser.RateTailAt: its own contract gives only the bounds and the
  character class of the rate group. The full shape of a match, and the
  converse, are `RateTailAtSound` and `RateTailAtFinds`. An existential in a
  function's contract would be unfolded by every proof that uses the function.
- ShareParser.LazyCommaTail: its own contract gives only the bounds and the
  character class of the rate group. Where the lazy scan stops is stated by
  `LazyCommaTailSound` and `LazyCommaTailFinds`, for the same reason.
- ShareParser.CountsAt: its own contract gives only the bounds and the
  digit classes of the two groups. The full shape of a match and its converse
  are `CountsAtSound` and `CountsAtFinds`, for the same reason.
- ShareParser.MatchAt: its own contract gives only that a match starts at the
  marker and has well-formed groups. The full shape and its converse are
  `MatchAtSound` and `MatchAtFinds`, for the same reason.
- Balance fetching and caching do not appear in `verus_lcd_dashboard.py`, so
  they are not part of this model.
