# tqdm-cxx progress bar, modelled in Dafny

This project models the core of tqdm-cxx, a header-only C++ progress bar in the style of
Python's tqdm. It covers:

- `tqdm::detail::ProgressBar` (hereafter "the bar"):
  - its counters and settings;
  - the redraw of `print_progress_line`, with its adaptive throttle;
  - the layout of one status line: the percent/count prefix, the coloured bar with the
    description, the bracketed elapsed/estimate field, and the column budget that
    decides whether the bar is drawn;
  - `start`/`begin`, `update`, the destructor and the chainable setters.
- `tqdm::Range` with its `Iterator`: the `tqdm::range(start, end, step)` progression.
- `console_codes::CodeWithIntParameter` and the terminal control constants of
  `console_codes.h`.

The files:

| file | module | what it holds |
|---|---|---|
| `wrappers.dfy` | `Wrappers` | `Option`, `Result`, `Outcome` |
| `format.dfy` | `Format` | C++ truncating `/`, decimal text of integers, `std::setw` padding, `std::string::resize` |
| `console_codes.dfy` | `ConsoleCodes` | `CodeWithIntParameter`, the ECMA-48 constants, parsing a code back |
| `markup.dfy` | `Markup` | `std::regex_replace` with `\033\[\d+\w`, which removes control codes before the line is measured; stream insertions as `Piece`s |
| `throttle.dfy` | `Throttle` | the first and next redraw estimates |
| `layout.dfy` | `Layout` | `count_places`, prefix, `print_bar`, `print_time`, suffix, free space, the composed line |
| `progress_bar.dfy` | `Tqdm` | the bar's state, the redraw and lifecycle as functions (under the corrected guard, and as written beside them), and the `ProgressBar` class whose methods change its fields in place and are proved equal to the corrected functions |
| `range.dfy` | `TqdmRange` | `Range::operator()` as written and corrected, `Range::Iterator` and a loop over it |

Modelling decisions:

- Integers are unbounded. C++ `/` and `duration_cast` truncate toward zero, and `TruncDiv` models that.
- The clock is an argument in integer nanoseconds.
- The terminal width is the `consoleCols` argument.
- The rate text that `print_speed` would write is the `speed` argument.
- An output stream is a number. Everything the bar writes is appended to a log of
  `Write(stream, output)` records. A record holds either the values a line is drawn from
  or the erase codes. `Tqdm.Text` gives a record's characters.

## Model

| member | source | states |
|---|---|---|
| Format.TruncDiv | include/tqdm/tqdm.h:265 | C++ integer division: the remainder is smaller than the divisor in magnitude and has the dividend's sign; it is Euclidean division for non-negative operands |
| Format.IntToString | include/tqdm/tqdm.h:269-273 | `out << n` writes only digits and '-' and is as long as the sign plus the digit count |
| Format.IntToStringValue | include/tqdm/tqdm.h:269-273 | `out << n` starts with '-' exactly when n is negative, and the rest is decimal digits whose value is abs(n) |
| Format.NatToStringRoundTrip | include/tqdm/tqdm.h:269-273 | the decimal text of a count reads back as the count |
| Format.DigitCountBounds | include/tqdm/tqdm.h:208-220 | the digit count d of n > 0 is the d with 10^(d-1) <= n < 10^d |
| Format.DigitCountDrop4 | include/tqdm/tqdm.h:216-217 | dropping four digits at once lowers the digit count by exactly 4 |
| Format.PadLeft | include/tqdm/tqdm.h:267-271 | `setw` pads on the left with the fill up to the width and never truncates |
| Format.Resize | include/tqdm/tqdm.h:360-361 | `resize(k, ' ')` gives exactly k characters: the original ones first, then the fill |
| Format.ResizeSplit | include/tqdm/tqdm.h:357-361 | the two resized substrings of print_bar together are the description resized to their total length |
| ConsoleCodes.CodeWithIntParameter.WithParameter | include/tqdm/console_codes.h:12-14 | `code(k)` keeps the suffix and sets the parameter to k |
| ConsoleCodes.CodeWithIntParameter.Render | include/tqdm/console_codes.h:18-21 | `out << code` writes ESC, '[', then text ending in the suffix |
| ConsoleCodes.RenderRoundTrip | include/tqdm/console_codes.h:18-21 | a code with a non-negative parameter and a suffix that does not start with a digit parses back from its rendering |
| ConsoleCodes.WithParameterRenders | include/tqdm/console_codes.h:12-21 | `code(k)` renders as ESC '[' k suffix and parses back as (suffix, k) |
| ConsoleCodes.CursorUpAndEraseLine | include/tqdm/console_codes.h:9-37 | the parameter defaults to 1: `move_cursor_up` is ESC[1A; `erase_line` reads as a code with suffix K and parameter 2 |
| ConsoleCodes.SgrConstantsForm | include/tqdm/console_codes.h:41-69 | every attribute and colour constant is ESC '[' digits 'm' |
| ConsoleCodes.ParameterlessErases | include/tqdm/console_codes.h:32-35 | `erase_display_down` and `erase_end_of_line` carry no parameter and do not parse as a code |
| Markup.MatchLength | include/tqdm/tqdm.h:326 | a match of the pattern at the front has at least 4 characters, starts with ESC and lies within the text |
| Markup.Strip | include/tqdm/tqdm.h:326 | removing the matches never lengthens the text |
| Markup.StripText | include/tqdm/tqdm.h:326 | text without ESC passes through the replacement unchanged, whatever follows it |
| Markup.StripControl | include/tqdm/tqdm.h:326 | ESC '[' digits and a letter is removed whole, whatever follows it |
| Markup.StripBacktracks | include/tqdm/tqdm.h:326 | `\d+` backtracks: in ESC[12; the last digit serves as `\w` and the match is removed; ESC[1; is kept |
| Markup.SgrIsControl | include/tqdm/console_codes.h:41-69 | every attribute and colour constant is removed by the replacement |
| Markup.RenderIsControl | include/tqdm/console_codes.h:18-38 | a rendered code with a non-negative parameter and a one-letter suffix is removed by the replacement |
| Markup.ParameterlessErasesSurvive | include/tqdm/console_codes.h:32-35 | the two parameterless erase codes are not removed by the replacement |
| Markup.StripEmit | include/tqdm/tqdm.h:317-333 | stripping the text of well-formed insertions leaves exactly their visible text, followed by the strip of what comes after |
| Throttle.IntervalNs | include/tqdm/tqdm.h:230 | the interval in ns is exactly 1,000,000 times the interval in ms: a multiple of 1,000,000 whose quotient is the ms value, zero exactly when that is zero, not negative for a non-negative interval |
| Throttle.NonZero | include/tqdm/tqdm.h:233-235 | a quotient of 0 becomes exactly 1 and any other quotient is kept, so the result is never 0 and is at least 1 for a non-negative quotient |
| Throttle.FirstEstimate | include/tqdm/tqdm.h:228-235 | the first estimate, interval / (now - last update) with 0 replaced by 1; its bounds are stated by FirstEstimateBounds |
| Throttle.NextEstimate | include/tqdm/tqdm.h:248-257 | the re-estimate, progress * interval / dt with 0 replaced by 1; its meaning is stated by NextEstimateIsRate and NextEstimateAntitone |
| Throttle.ShouldPrint | include/tqdm/tqdm.h:241 | the redraw test, progress since the last line against the estimate or 0; what it decides is stated by RedrawThrottle |
| Throttle.FirstEstimateBounds | include/tqdm/tqdm.h:228-235 | the first estimate is at least 1 and is the number of whole times the time since the last redraw fits into the interval |
| Throttle.NextEstimateIsRate | include/tqdm/tqdm.h:248-257 | the next estimate is at least 1 and is the progress the observed rate reaches in one interval, rounded down |
| Throttle.NextEstimateAntitone | include/tqdm/tqdm.h:248-257 | over a longer time, the same progress gives a next estimate that is no larger |
| Layout.CountPlaces | include/tqdm/tqdm.h:208-220 | the loop in count_places returns the number of decimal digits of abs(i) (0 for 0) |
| Layout.Percent | include/tqdm/tqdm.h:265 | `m_n * 100 / m_size` truncated toward zero; its range and overrun are stated by PercentInRange and PercentOverrun |
| Layout.PercentInRange | include/tqdm/tqdm.h:265 | within the total, the percentage is the floor of 100 n / total and lies in [0, 100] |
| Layout.PercentOverrun | include/tqdm/tqdm.h:265 | for a non-negative count the percentage passes 100 exactly when 100 n >= 101 total |
| Layout.PrefixPieces | include/tqdm/tqdm.h:263-274 | the insertions of the prefix; what they show and their width are stated by PrefixFacts and PrefixWidth |
| Layout.PrefixFacts | include/tqdm/tqdm.h:263-274 | the prefix is well formed; it shows the padded percent, "% ", the padded count, '/' and the total, or only the count when there is no total |
| Layout.PrefixWidth | include/tqdm/tqdm.h:263-274 | for a count within its total, the prefix is exactly 6 + 2 digits(total) columns wide |
| Layout.BarSplit | include/tqdm/tqdm.h:351-355 | for width >= 2 the segments are non-negative, fill width - 2 and the first is clamp(percent) * (width - 2) / 100; for a narrower bar one segment is negative |
| Layout.Segments | include/tqdm/tqdm.h:357-361 | the two description pieces have exactly the two segment lengths |
| Layout.PrintBar | include/tqdm/tqdm.h:346-380 | print_bar succeeds exactly when width >= 2, and then writes the bar's insertions |
| Layout.PrintBarFailsIffNarrow | include/tqdm/tqdm.h:353-361 | print_bar throws `std::length_error` exactly when width < 2, always at width 1 |
| Layout.BarPieces | include/tqdm/tqdm.h:346-380 | the insertions print_bar writes for width >= 2; their shape and colours are stated by BarShape and BarColourMarksOverrun |
| Layout.BarShape | include/tqdm/tqdm.h:346-380 | the bar is exactly `width` visible columns: a delimiter, the description cut or space-padded to width - 2, a delimiter; the first segment is the filled one |
| Layout.BarColourMarksOverrun | include/tqdm/tqdm.h:347-379 | nine insertions; the filled part is on red and the empty part in red exactly when the percentage is outside [0, 100], and on and in black otherwise |
| Layout.HalfwayBar | include/tqdm/tqdm.h:354 | at 50 of 100, the filled segment is half of width - 2, rounded down |
| Layout.TimeSplit | include/tqdm/tqdm.h:397-399 | for a non-negative duration: whole hours, minutes < 60 and seconds < 60 that account for all of it except under one second; hours > 0 exactly from one hour on |
| Layout.TimePieces | include/tqdm/tqdm.h:395-423 | the insertions of print_time; what they show and their width are stated by TimeVisible and TimeWidth |
| Layout.TimeVisible | include/tqdm/tqdm.h:395-423 | print_time is well formed and shows [HH:]MM:SS, with the hours when asked for or when non-zero |
| Layout.TimeWidth | include/tqdm/tqdm.h:395-423 | below 100 hours print_time is 8 columns wide with hours and 5 without |
| Layout.TimeExamples | include/tqdm/tqdm.h:395-423 | 3,725,000 ms shows as 01:02:05; 65,000 ms shows as 01:05 |
| Layout.TotalEstimate | include/tqdm/tqdm.h:293-297 | the projected total duration is present exactly when the count is positive; its value is stated by EstimateIsProjectedTotal |
| Layout.MoreThanHour | include/tqdm/tqdm.h:292-296 | the shared hours flag, set by an elapsed time or an estimate over one hour; its effect on widths is stated by PlaceholderAligned and EstimateAligned |
| Layout.EstimateIsProjectedTotal | include/tqdm/tqdm.h:294-297 | for a positive count the estimate exists and is total * elapsed / n in whole milliseconds, rounded down |
| Layout.EstimateAtCompletion | include/tqdm/tqdm.h:295 | when the count equals the total the estimate equals the elapsed time |
| Layout.ElapsedMsFacts | include/tqdm/tqdm.h:292-299 | elapsed milliseconds reach an hour exactly when the elapsed nanoseconds do |
| Layout.PlaceholderAligned | include/tqdm/tqdm.h:292-305 | with no estimate, the "??" placeholder is as wide as the elapsed field exactly when the elapsed time is not exactly one hour |
| Layout.EstimateAligned | include/tqdm/tqdm.h:292-302 | elapsed and estimate printed with the shared hours flag have the same width, away from exactly one hour |
| Layout.TimeFieldVisible | include/tqdm/tqdm.h:290-309 | the field shows elapsed/estimate, or the placeholder, with a total, and only the elapsed time without one |
| Layout.TimeFieldPieces | include/tqdm/tqdm.h:290-309 | the bracketed elapsed/estimate field; what it shows is stated by TimeFieldVisible |
| Layout.SuffixPieces | include/tqdm/tqdm.h:275-309 | the rate text and the bracketed field; what it shows is stated by SuffixVisible |
| Layout.SuffixVisible | include/tqdm/tqdm.h:283-309 | the suffix shows the rate text and the bracketed field, and is well formed when the rate text has no ESC |
| Layout.FreeSpaceVisible | include/tqdm/tqdm.h:326 | the free space is the columns minus the visible widths of prefix and suffix |
| Layout.FreeSpace | include/tqdm/tqdm.h:326 | the columns minus the length of prefix and suffix after the control codes are stripped; FreeSpaceVisible states it in visible widths |
| Layout.BarIfFitsShape | include/tqdm/tqdm.h:329-331 | under the corrected guard (free space >= 2, not the `> 0` as written) the bar is well formed and takes the whole free space, or is left out when it does not fit |
| Layout.LineWidth | include/tqdm/tqdm.h:313-335 | a line composed under the corrected guard shows the prefix, the bar when it fits, the suffix and a newline; it is exactly `cols` wide when the bar is drawn |
| Layout.WidthOneBarThrows | include/tqdm/tqdm.h:326-331 | with the guard as written, the line throws exactly when the free space is 1; otherwise it is the corrected line |
| Layout.ComposeLine | include/tqdm/tqdm.h:313-335 | the line under the corrected guard, free space >= 2; its text and width are stated by LineWidth |
| Layout.ComposeLineAsWritten | include/tqdm/tqdm.h:313-335 | the line under the guard as written, throwing at free space 1; WidthOneBarThrows states when it differs from ComposeLine |
| Tqdm.RedrawThrottle | include/tqdm/tqdm.h:227-343 | under the corrected guard, a redraw prints one line exactly when the progress reaches the estimate; what a print or a skipped print leaves in each field |
| Tqdm.Estimate | include/tqdm/tqdm.h:227-236 | the estimate a redraw works with: the first estimate from the interval when there is none and the line is not the first, otherwise the one held |
| Tqdm.Settle | include/tqdm/tqdm.h:227-239 | the state after the estimate is settled and, for the first line, the base count taken; stated within RedrawThrottle |
| Tqdm.Print | include/tqdm/tqdm.h:243-342 | a printed line under the corrected guard: re-estimate, write the line, count it and record count and time; stated by RedrawThrottle |
| Tqdm.Redraw | include/tqdm/tqdm.h:221-344 | print_progress_line under the corrected guard; its cases are stated by RedrawThrottle |
| Tqdm.AfterStart | include/tqdm/tqdm.h:94-101 | start() as a function: DoubleEnter when started, otherwise the first redraw; stated by StartOnce and StartPrints |
| Tqdm.AfterUpdate | include/tqdm/tqdm.h:86-92 | update(k) as a function; stated by UpdateDisabled and UpdateCounts |
| Tqdm.AfterFinish | include/tqdm/tqdm.h:73-84 | the destructor as a function; stated by FinishCases |
| Tqdm.StartOnce | include/tqdm/tqdm.h:94-101 | start() throws exactly when the bar was started, and changes nothing then; after a first start a second one throws |
| Tqdm.StartPrints | include/tqdm/tqdm.h:94-101 | with no earlier estimate, start() prints the first line without cursor movement and at elapsed 0, and records it |
| Tqdm.StartAfterEarlyUpdate | include/tqdm/tqdm.h:86-101 | after an early update() has left an estimate, start() prints only when that estimate is not positive |
| Tqdm.UpdateDisabled | include/tqdm/tqdm.h:86-92 | update() on a disabled bar changes nothing and writes nothing |
| Tqdm.UpdateCounts | include/tqdm/tqdm.h:86-92 | update(k) on an enabled bar adds k to the count, whatever its sign, and redraws |
| Tqdm.FinishCases | include/tqdm/tqdm.h:73-84 | the destructor does nothing unless started and enabled; with leave it prints exactly when the count has not fallen below the last printed one; without leave it writes exactly ESC[1A ESC[2K |
| Tqdm.UpdateKeepsSteady | include/tqdm/tqdm.h:227-257 | with non-negative steps and a clock that moves forward the bar stays steady: last printed count <= count, and any estimate is >= 1 |
| Tqdm.InitialSteady | include/tqdm/tqdm.h:69-71 | a new bar is steady (interval >= 0, last printed count <= count, print count >= 0), has printed nothing, holds no estimate and is not started |
| Tqdm.StartKeepsSteady | include/tqdm/tqdm.h:94-101 | start() on a steady bar leaves it steady, with the count it started at as the last printed count |
| Tqdm.FinishKeepsSteady | include/tqdm/tqdm.h:73-84 | for a clock past the last line, the destructor's redraw is defined and leaves a steady bar steady |
| Tqdm.LineShows | include/tqdm/tqdm.h:259-335 | under the corrected guard, a printed line, after the move-up/erase codes and the colours are stripped, shows prefix, bar and suffix, and is exactly `cols` wide when the bar fits |
| Tqdm.OverwriteStrips | include/tqdm/tqdm.h:313-315 | the move-up and erase codes in front of a line leave nothing visible |
| Tqdm.LineText | include/tqdm/tqdm.h:259-335 | the characters of a printed line under the corrected guard; stated by LineShows |
| Tqdm.FrameFree | include/tqdm/tqdm.h:326 | the free space of the line a frame describes |
| Tqdm.PrintAsWritten | include/tqdm/tqdm.h:243-342 | a printed line as written: at free space 1 it stops after the prefix with `std::length_error`, with the estimate and rate flag updated and nothing recorded |
| Tqdm.RedrawAsWritten | include/tqdm/tqdm.h:221-344 | print_progress_line as written; stated by RedrawAsWrittenDiffers |
| Tqdm.AfterStartAsWritten | include/tqdm/tqdm.h:94-101 | start() as written; stated by StartAsWritten and NarrowFirstLine |
| Tqdm.AfterUpdateAsWritten | include/tqdm/tqdm.h:86-92 | update(k) as written; stated by UpdateAsWritten |
| Tqdm.AfterFinishAsWritten | include/tqdm/tqdm.h:73-84 | the destructor as written, where a throw ends the program; stated by FinishAsWritten |
| Tqdm.RedrawAsWrittenDiffers | include/tqdm/tqdm.h:221-344 | the redraw as written throws exactly when the corrected one prints a line at free space 1; then it has written the cursor codes and the prefix, kept the new estimate, and left the print count, last count and time as they were; otherwise both agree |
| Tqdm.StartAsWritten | include/tqdm/tqdm.h:94-101 | start() as written fails with DoubleEnter exactly when started; otherwise it agrees with the corrected one or throws with the bar started and no print counted |
| Tqdm.UpdateAsWritten | include/tqdm/tqdm.h:86-92 | update(k) as written agrees with the corrected one, or throws after adding k with no print counted |
| Tqdm.FinishAsWritten | include/tqdm/tqdm.h:73-84 | the destructor as written agrees with the corrected one, or throws only in the final redraw of a started, enabled, leaving bar |
| Tqdm.PrintedLineAsWritten | include/tqdm/tqdm.h:313-335 | at any free space but 1 the line as written does not throw and has the same text as the corrected line |
| Tqdm.NarrowFirstLine | include/tqdm/tqdm.h:313-331 | no total, ncols(20), count 0: free space 1; the corrected start() prints and counts a line, start() as written throws after the prefix |
| Tqdm.BrokenShows | include/tqdm/tqdm.h:313-317 | what an interrupted line leaves visible is the prefix alone |
| Tqdm.ProgressBar.constructor | include/tqdm/tqdm.h:69-71 | a new bar has the given total and the field defaults of lines 188-206, and has written nothing |
| Tqdm.ProgressBar.PrintProgressLine | include/tqdm/tqdm.h:221-344 | the in-place redraw leaves the fields and the log as the redraw function says |
| Tqdm.ProgressBar.SettleEstimate | include/tqdm/tqdm.h:227-239 | settles the first estimate, or for the first line the base count |
| Tqdm.ProgressBar.PrintLine | include/tqdm/tqdm.h:243-342 | re-estimates, writes the line and records the redraw |
| Tqdm.ProgressBar.UpdateRate | include/tqdm/tqdm.h:247-281 | replaces an estimate in force by the one from the rate, and notes whether a rate is known |
| Tqdm.ProgressBar.WriteLine | include/tqdm/tqdm.h:313-342 | appends the line to the log, then counts the print and records count and time |
| Tqdm.ProgressBar.Start | include/tqdm/tqdm.h:94-101 | fails with DoubleEnter and changes nothing when started; otherwise takes the begin time and prints the first line |
| Tqdm.ProgressBar.Begin | include/tqdm/tqdm.h:104-107 | is start() |
| Tqdm.ProgressBar.Update | include/tqdm/tqdm.h:86-92 | nothing when disabled; otherwise adds k to the count and redraws |
| Tqdm.ProgressBar.Finish | include/tqdm/tqdm.h:73-84 | the destructor's final redraw forced by an estimate of 0, or the erase codes |
| Tqdm.ProgressBar.Desc | include/tqdm/tqdm.h:113-121 | sets the description and nothing else |
| Tqdm.ProgressBar.Total | include/tqdm/tqdm.h:123-131 | sets the total and nothing else |
| Tqdm.ProgressBar.Ncols | include/tqdm/tqdm.h:134-142 | sets the column count and nothing else |
| Tqdm.ProgressBar.Leave | include/tqdm/tqdm.h:145-154 | sets leave, true by default, and nothing else |
| Tqdm.ProgressBar.Disable | include/tqdm/tqdm.h:156-164 | sets disabled, false by default, and nothing else |
| Tqdm.ProgressBar.Mininterval | include/tqdm/tqdm.h:166-174 | sets the interval and nothing else |
| Tqdm.ProgressBar.File | include/tqdm/tqdm.h:176-184 | redirects later writes and changes nothing else |
| TqdmRange.RangeAsWritten | include/tqdm/tqdm.h:502-512 | operator() as written: iterator at start with the step, and the sentinel exactly `size` steps from start |
| TqdmRange.Range | include/tqdm/tqdm.h:502-512 | the corrected operator(): the same shape with a size that is never negative |
| TqdmRange.RangeTo | include/tqdm/tqdm.h:514-516 | range(end) is range(0, end, 1) |
| TqdmRange.Yielded | include/tqdm/tqdm.h:484-495 | the first `size` positions of the progression, the k-th being start + k * step; Iterate proves that a loop over the iterator sees exactly these |
| TqdmRange.Position | include/tqdm/tqdm.h:488-491 | the position after k increments; AdvanceIsNextPosition relates consecutive ones |
| TqdmRange.Iterate | include/tqdm/tqdm.h:479-500 | a range-based for loop over an iterator and a sentinel `size` steps ahead (size >= 0) takes exactly the values Yielded lists |
| TqdmRange.Iterator.constructor | include/tqdm/tqdm.h:481-482 | the iterator starts at the given position and step |
| TqdmRange.Iterator.Current | include/tqdm/tqdm.h:484-486 | `*it` is the position; used by Iterate |
| TqdmRange.Iterator.Advance | include/tqdm/tqdm.h:488-491 | `++` moves the position by the step and keeps the step |
| TqdmRange.Iterator.NotAt | include/tqdm/tqdm.h:493-495 | `it != end` compares the positions; used by Iterate |
| TqdmRange.AdvanceIsNextPosition | include/tqdm/tqdm.h:488-491 | one `++` takes position k of the progression to position k + 1 |
| TqdmRange.StopReachedAfterSize | include/tqdm/tqdm.h:493-495 | with a non-negative size, `!=` holds for each of the first `size` positions, so the loop ends after exactly `size` increments |
| TqdmRange.RangeCovers | include/tqdm/tqdm.h:502-512 | the corrected range yields the k-th position exactly when it has not reached end in the step's direction, in both directions |
| TqdmRange.PositiveStepAsWritten | include/tqdm/tqdm.h:504-506 | for a positive step and end >= start the code as written is correct: size is the ceiling of (end - start) / step |
| TqdmRange.NegativeStepUndercounts | include/tqdm/tqdm.h:507-509 | range(5, 0, -1) as written yields 5, 4, 3; the corrected range yields 5, 4, 3, 2, 1 |
| TqdmRange.NegativeStepNeverStops | include/tqdm/tqdm.h:507-509 | for a negative step with start - end <= 1 the size as written is negative and no position reaches the sentinel; the corrected size is max(start - end, 0) |
| TqdmRange.NegativeStepTwoEmpty | include/tqdm/tqdm.h:507-509 | range(2, 0, -1) as written yields nothing; the corrected range yields 2, 1 |
| TqdmRange.BackwardRangeNeverStops | include/tqdm/tqdm.h:504-506 | for a positive step and end behind start by 2 step - 1 or more, the size as written is negative and no position reaches the sentinel; the corrected size is 0 |
| TqdmRange.RangeToCounts | include/tqdm/tqdm.h:514-516 | range(end) yields 0 .. end - 1 for end >= 0; for end < 0 its size is negative |

## Left out

- `print_speed` and `format_sizeof` (tqdm.h:382-435) compute in floating point. The rate text is a
  parameter (`speed`), and the model only requires that it holds no ESC.
  `estimated_speed` is kept only as a flag saying whether a rate is known.
- `console_size::get_console_size`, which queries the terminal, is not part of this model.
  The width it returns is the `consoleCols` parameter.
- The clock is a parameter. The source reads `now()` several times per redraw (lines 231, 246 and 342).
  The model reads one value per call, so `m_last_update_time` is the time the line was
  composed from, not a slightly later reading.
- The `IteratorWrapper` and `Sentinel` of the bar (tqdm.h:25-64), `end()` and the `Tqdm` call
  operators over arrays and containers (tqdm.h:444-463) wrap an arbitrary iterator. They are
  not modelled. `Begin` does not return the wrapper.
- The `&&` overloads of the setters return a moved copy of the bar. Only the `&` form, which
  updates in place, is modelled.
- `std::endl` flushes the stream. The model writes the newline only.
- The fixed widths of the integers are not modelled: `int` percent and column count, and `long long`
  counts, total and range positions. Overflow, including the wrap-around a never-ending
  range would eventually reach, is not modelled.
- Tqdm.RedrawDefined, Tqdm.UpdateDefined, Tqdm.FinishDefined: where the source divides by zero,
  the model requires its caller not to call it. This covers three cases:
  - a total of 0, as for `range(0)` or an empty container, at line 265;
  - a zero time since the last redraw, at lines 232 and 252;
  - a step of 0 in `Range::operator()`.
- Tqdm.Text: the log stores the values each line is drawn from (`Frame`), not the characters.
  `Text` turns a record into its characters.
- Layout.PlaceholderAligned and Layout.EstimateAligned state the alignment only away from an
  elapsed time or estimate of exactly one hour. At exactly one hour, the strict `>` of
  tqdm.h:292 leaves the flag unset although the field shows its hours.
- A Dafny `char` stands for one byte of a `std::string`. Widths ("visible columns") and the
  cut of the description by `resize` (tqdm.h:360-361) are counted in bytes, as the source counts
  them; a multi-byte UTF-8 description is cut in the middle of a character and is wider or
  narrower on screen than this count. The model does not model encodings.
- IntToString: its own contract states the characters and the length only; the sign and the
  value of the digits are stated by the lemma IntToStringValue, kept apart so that this fact does
  not enter every proof that mentions the text of a number.
- `unit` is fixed at "it" in the source, so the placeholder rate text is the constant `"    ?? it/s"`.

The corrected guard. The redraw and lifecycle functions and the `ProgressBar` methods follow the
corrected guard (free space >= 2) of the Findings row for tqdm.h:329. The code as written throws
`std::length_error` at a free space of exactly 1, after the cursor codes and the prefix are
written and before the print is counted; that path is modelled by Tqdm.PrintAsWritten,
Tqdm.RedrawAsWritten and the AsWritten lifecycle functions, and related to the corrected ones by
Tqdm.RedrawAsWrittenDiffers, StartAsWritten, UpdateAsWritten and FinishAsWritten. The class
methods do not model the exception. Each member below states the corrected behaviour and therefore
promises more than the code as written at free space 1:

- LineText: composes the line under the corrected guard; at free space 1 the code as written leaves only the cursor codes and the prefix (BrokenShows).
- Print: always writes a whole line and records it; as written it throws at free space 1 (PrintAsWritten).
- Redraw: built on Print; the code as written is RedrawAsWritten (RedrawAsWrittenDiffers).
- RedrawThrottle: states every print as counted and recorded; as written the print at free space 1 throws before lines 338-342 (RedrawAsWrittenDiffers).
- StartPrints: the first line at free space 1 throws as written (StartAsWritten, NarrowFirstLine).
- StartAfterEarlyUpdate: the print it counts throws as written at free space 1 (StartAsWritten).
- FinishCases: with leave, the final line at free space 1 throws as written, and from the destructor that ends the program (FinishAsWritten).
- LineShows: states the corrected line; as written a free space of 1 leaves the prefix alone on screen (BrokenShows).
- PrintProgressLine: equals Redraw, so the method does not throw at free space 1 (RedrawAsWrittenDiffers).
- PrintLine: always records the print; as written it throws at free space 1 with the estimate already updated.
- WriteLine: always counts the print and records count and time; as written these steps are skipped by the throw at free space 1.
- Start: always prints the first line; as written it throws at free space 1 with the bar already started (StartAsWritten).
- Update: redraws with Redraw; as written its redraw can throw at free space 1 after the count is added (UpdateAsWritten).
- Finish: redraws with Redraw; as written its final redraw can throw at free space 1 (FinishAsWritten).

## Findings

| source | as written | input that shows it | evidently intended | confidence | as-written member | corrected member |
|---|---|---|---|---|---|---|
| include/tqdm/tqdm.h:329 | `free_space>0` lets a free space of 1 reach print_bar, whose width - 2 = -1 makes `resize` throw `std::length_error` after the prefix is written and before the print is recorded | a column count exactly one more than the visible width of prefix and suffix, such as no total, `ncols(20)`, count 0, at start() | draw the bar only when it has room for its two delimiters (free space >= 2) | not executed | Layout.ComposeLineAsWritten, Layout.WidthOneBarThrows, Tqdm.RedrawAsWritten, Tqdm.RedrawAsWrittenDiffers, Tqdm.NarrowFirstLine | Layout.ComposeLine, Layout.LineWidth, Tqdm.Redraw, Tqdm.RedrawThrottle |
| include/tqdm/tqdm.h:508 | for a negative step the size is `(end - start - step + 1) / step` | `range(5, 0, -1)` has size 3 and yields 5, 4, 3; `range(2, 0, -1)` yields nothing; with start - end <= 1, as in `range(1, 0, -1)` or `range(0, 0, -1)`, the size is negative and the loop never ends | the number of whole steps needed to cover start - end: (start - end - step - 1) / (-step), giving 5, 4, 3, 2, 1 and 2, 1, and an empty range or start alone when start - end <= 1 | not executed | TqdmRange.RangeAsWritten, TqdmRange.NegativeStepUndercounts, TqdmRange.NegativeStepTwoEmpty, TqdmRange.NegativeStepNeverStops | TqdmRange.Range, TqdmRange.RangeCovers |
| include/tqdm/tqdm.h:505-506 | a positive step with end behind start gives a negative size, and the sentinel lies behind the first position | `range(5, 0)` and `range(-1)`: the iterator moves away from the sentinel and the loop never ends | an empty range (size 0) | not executed | TqdmRange.RangeAsWritten, TqdmRange.BackwardRangeNeverStops | TqdmRange.Range, TqdmRange.RangeCovers |
