/**
 * `tqdm::detail::ProgressBar` (include/tqdm/tqdm.h:22-344): the counters and
 * settings of a bar, the redraw of print_progress_line with its adaptive
 * throttle, and the lifecycle of start, update and the destructor.
 *
 * The clock is an argument in integer nanoseconds, read once per call; the
 * terminal width that the source queries when no column count is set is an
 * argument too, and so is the rate text print_speed would produce. An
 * output stream is a number naming it, and everything written goes to a log
 * of (stream, output) records.
 *
 * The redraw draws the bar under the corrected guard of Layout.BarFits. The
 * code as written (guard `free_space > 0`, tqdm.h:329) is modelled beside it
 * by PrintAsWritten, RedrawAsWritten and the AsWritten lifecycle functions:
 * at a free space of exactly 1 print_bar throws std::length_error after the
 * cursor codes and the prefix are written, and the redraw is not recorded.
 */
module Tqdm {
  import opened Wrappers
  import opened Format
  import opened ConsoleCodes
  import opened Markup
  import opened Layout
  import opened Throttle

  /**
   * The values one printed line is drawn from: whether it is the first line,
   * the count, the total, the rate text, the elapsed time in ns, the columns
   * and the description.
   */
  datatype Frame = Frame(isFirst: bool, n: int, size: Option<int>, speed: string, elapsedNs: int, cols: int, message: string)

  /**
   * What one call writes: a progress line; the part of one the code as
   * written gets out before print_bar throws (the cursor codes and the
   * prefix, tqdm.h:313-317); or the codes that erase the previous line.
   */
  datatype Output = Line(frame: Frame) | Broken(frame: Frame) | Erase

  /** An output written to the stream named by `sink`. */
  datatype Write = Write(sink: nat, output: Output)

  /** What start() throws when the bar was started already (tqdm.h:95-97). */
  datatype LifecycleError = DoubleEnter

  /**
   * The fields of a ProgressBar that the redraw reads or changes
   * (tqdm.h:188-206), in the source's units: counts of items, clock readings
   * in ns, the interval in ms.
   */
  datatype BarState = BarState(
    size: Option<int>,             // m_size
    message: string,               // m_message
    ncols: Option<int>,            // m_ncols
    mininterval: int,              // m_mininterval, ms
    leave: bool,                   // m_leave
    disabled: bool,                // m_disabled
    sink: nat,                     // m_file
    started: bool,                 // m_started
    beginTime: int,                // m_begin_time
    lastUpdateTime: int,           // m_last_update_time
    n: int,                        // m_n
    nLastUpdate: int,              // m_n_last_update
    totalPrints: int,              // m_total_prints
    minIterations: Option<int>,    // m_min_iterations_to_print
    speedKnown: bool)              // estimated_speed has a value

  /** One call's effect: the new state and what it wrote. */
  datatype Step = Step(state: BarState, out: seq<Write>)

  /** The stream std::cerr, where a bar writes unless file() names another. */
  const StdErr: nat := 0

  /** A bar freshly constructed over a range of the given size (tqdm.h:69-71, 188-206). */
  function Initial(size: Option<int>): BarState {
    BarState(size, "", None, 200, true, false, StdErr, false, 0, 0, 0, 0, 0, None, false)
  }

  // ---------------------------------------------------------------- redraw

  /** tqdm.h:227-239: the estimate in force when the redraw decides whether to print. */
  function Estimate(s: BarState, isFirst: bool, now: int): Option<int>
    requires !isFirst && s.minIterations.None? ==> now != s.lastUpdateTime
  {
    if !isFirst && s.minIterations.None? then
      Some(FirstEstimate(IntervalNs(s.mininterval), now - s.lastUpdateTime))
    else s.minIterations
  }

  /** tqdm.h:237-239: the count the progress is measured from; the first line restarts it. */
  function Base(s: BarState, isFirst: bool): int {
    if isFirst then s.n else s.nLastUpdate
  }

  /**
   * The source divides by the time since the last redraw when it computes an
   * estimate, and by the total when it prints a line with one; the redraw is
   * defined when neither divisor is zero.
   */
  predicate RedrawDefined(s: BarState, isFirst: bool, now: int) {
    && (!isFirst && s.minIterations.None? ==> now != s.lastUpdateTime)
    && (ShouldPrint(s.n - Base(s, isFirst), Estimate(s, isFirst, now)) ==>
          && (Estimate(s, isFirst, now).Some? ==> now != s.lastUpdateTime)
          && s.size != Some(0))
  }

  /** tqdm.h:319-324: the configured column count, or the terminal's. */
  function Columns(s: BarState, consoleCols: int): int {
    s.ncols.GetOr(consoleCols)
  }

  /** tqdm.h:313-315: what precedes every line but the first, moving up over the previous line and erasing it. */
  const Overwrite: string := MoveCursorUp.Render() + EraseLine

  /** The percentage handed to print_bar (tqdm.h:330): the computed one with a total, 0 without. */
  function BarPercent(n: int, size: Option<int>): int
    requires size != Some(0)
  {
    if size.Some? then Percent(n, size.value) else 0
  }

  /**
   * tqdm.h:259-335 under the corrected guard: the text of one printed line,
   * from the count, the total, the rate text, the elapsed time, the columns
   * and the description.
   */
  function LineText(isFirst: bool, n: int, size: Option<int>, speed: string, elapsedNs: int, cols: int, message: string): string
    requires size != Some(0)
  {
    var prefix := PrefixPieces(n, size);
    var suffix := SuffixPieces(speed, elapsedNs, n, size);
    (if isFirst then "" else Overwrite) + ComposeLine(prefix, suffix, BarPercent(n, size), cols, message)
  }

  /** tqdm.h:326: the columns left for the bar on the line drawn from f. */
  function FrameFree(f: Frame): int
    requires f.size != Some(0)
  {
    FreeSpace(f.cols, Emit(PrefixPieces(f.n, f.size)), Emit(SuffixPieces(f.speed, f.elapsedNs, f.n, f.size)))
  }

  /** The characters of an output. */
  function Text(o: Output): string
    requires o.Line? || o.Broken? ==> o.frame.size != Some(0)
  {
    match o
    case Line(f) => LineText(f.isFirst, f.n, f.size, f.speed, f.elapsedNs, f.cols, f.message)
    case Broken(f) => (if f.isFirst then "" else Overwrite) + Emit(PrefixPieces(f.n, f.size))
    case Erase => Overwrite
  }

  /** The rate text of tqdm.h:283-287: print_speed's when a rate is known, the placeholder otherwise. */
  function SpeedText(speedKnown: bool, speed: string): string {
    if speedKnown then speed else SpeedPlaceholder
  }

  /** The line printed from state s, whose rate flag is already updated. */
  function FrameOf(s: BarState, isFirst: bool, now: int, consoleCols: int, speed: string): Frame {
    Frame(isFirst, s.n, s.size, SpeedText(s.speedKnown, speed), now - s.beginTime, Columns(s, consoleCols), s.message)
  }

  /** tqdm.h:227-239: the estimate and the base count settled before the decision. */
  function Settle(s: BarState, isFirst: bool, now: int): BarState
    requires !isFirst && s.minIterations.None? ==> now != s.lastUpdateTime
  {
    s.(nLastUpdate := Base(s, isFirst), minIterations := Estimate(s, isFirst, now))
  }

  /**
   * tqdm.h:243-342, from a settled state t: re-estimate from the rate, note
   * whether a rate is known, print the line and record the redraw.
   */
  function Print(t: BarState, isFirst: bool, now: int, consoleCols: int, speed: string): Step
    requires t.minIterations.Some? ==> now != t.lastUpdateTime
  {
    var shown := NoteRate(t, now);
    Step(Recorded(shown, now), [Write(t.sink, Line(FrameOf(shown, isFirst, now, consoleCols, speed)))])
  }

  /** tqdm.h:247-281: the estimate from the observed rate, and whether a rate is known. */
  function NoteRate(t: BarState, now: int): BarState
    requires t.minIterations.Some? ==> now != t.lastUpdateTime
  {
    var next := Reestimate(t, now);
    t.(minIterations := next, speedKnown := t.speedKnown || (next.Some? && t.n - t.nLastUpdate > 0))
  }

  /** tqdm.h:338-342: the redraw is counted, with the count and the time it was made at. */
  function Recorded(t: BarState, now: int): BarState {
    t.(totalPrints := t.totalPrints + 1, nLastUpdate := t.n, lastUpdateTime := now)
  }

  /** tqdm.h:247-256: an estimate in force is replaced by the one from the observed rate. */
  function Reestimate(t: BarState, now: int): Option<int>
    requires t.minIterations.Some? ==> now != t.lastUpdateTime
  {
    if t.minIterations.Some? then Some(NextEstimate(t.n - t.nLastUpdate, IntervalNs(t.mininterval), now - t.lastUpdateTime))
    else None
  }

  /**
   * print_progress_line (tqdm.h:221-344): settle the estimate, and when the
   * progress reaches it print a line, re-estimate from the observed rate and
   * record the redraw.
   */
  function Redraw(s: BarState, isFirst: bool, now: int, consoleCols: int, speed: string): Step
    requires RedrawDefined(s, isFirst, now)
  {
    var t := Settle(s, isFirst, now);
    if !ShouldPrint(t.n - t.nLastUpdate, t.minIterations) then Step(t, [])
    else Print(t, isFirst, now, consoleCols, speed)
  }

  // ---------------------------------------------------------------- lifecycle

  /** The state start() redraws from: the begin time is taken and the bar marked started (tqdm.h:98-99). */
  function Started(s: BarState, now: int): BarState {
    s.(beginTime := now, started := true)
  }

  /** start() (tqdm.h:94-101): throws when started already, otherwise starts and prints the first line. */
  function AfterStart(s: BarState, now: int, consoleCols: int, speed: string): Result<Step, LifecycleError>
    requires !s.started ==> RedrawDefined(Started(s, now), true, now)
  {
    if s.started then Err(DoubleEnter)
    else Ok(Redraw(Started(s, now), true, now, consoleCols, speed))
  }

  /** The condition under which update(k) divides by no zero. */
  predicate UpdateDefined(s: BarState, k: int, now: int) {
    !s.disabled ==> RedrawDefined(s.(n := s.n + k), false, now)
  }

  /** update(k) (tqdm.h:86-92): nothing when disabled, otherwise count k more items and redraw. */
  function AfterUpdate(s: BarState, k: int, now: int, consoleCols: int, speed: string): Step
    requires UpdateDefined(s, k, now)
  {
    if s.disabled then Step(s, [])
    else Redraw(s.(n := s.n + k), false, now, consoleCols, speed)
  }

  /** The condition under which the destructor divides by no zero. */
  predicate FinishDefined(s: BarState, now: int) {
    s.started && !s.disabled && s.leave ==> RedrawDefined(s.(minIterations := Some(0)), false, now)
  }

  /**
   * ~ProgressBar (tqdm.h:73-84): nothing unless started and enabled; with
   * leave, a final redraw forced by an estimate of 0; without, the line is
   * erased.
   */
  function AfterFinish(s: BarState, now: int, consoleCols: int, speed: string): Step
    requires FinishDefined(s, now)
  {
    if !s.started || s.disabled then Step(s, [])
    else if s.leave then Redraw(s.(minIterations := Some(0)), false, now, consoleCols, speed)
    else Step(s, [Write(s.sink, Erase)])
  }

  // ---------------------------------------------------------------- as written

  /**
   * How a call of the code as written ends: it returns with `step`, or
   * print_bar's exception leaves it after the writes and changes of `partial`.
   */
  datatype Attempt = Done(step: Step) | Threw(partial: Step, error: BarError)

  /**
   * tqdm.h:243-342 as written, from a settled state t: the estimate and the
   * rate flag are updated and the cursor codes and the prefix are written;
   * at a free space of 1 print_bar throws there, before the suffix, the
   * newline and the recording of tqdm.h:338-342.
   */
  function PrintAsWritten(t: BarState, isFirst: bool, now: int, consoleCols: int, speed: string): Attempt
    requires t.minIterations.Some? ==> now != t.lastUpdateTime
    requires t.size != Some(0)
  {
    var shown := NoteRate(t, now);
    var f := FrameOf(shown, isFirst, now, consoleCols, speed);
    if FrameFree(f) == 1 then Threw(Step(shown, [Write(t.sink, Broken(f))]), LengthError)
    else Done(Print(t, isFirst, now, consoleCols, speed))
  }

  /** print_progress_line (tqdm.h:221-344) as written. */
  function RedrawAsWritten(s: BarState, isFirst: bool, now: int, consoleCols: int, speed: string): Attempt
    requires RedrawDefined(s, isFirst, now)
  {
    var t := Settle(s, isFirst, now);
    if !ShouldPrint(t.n - t.nLastUpdate, t.minIterations) then Done(Step(t, []))
    else PrintAsWritten(t, isFirst, now, consoleCols, speed)
  }

  /** start() as written: an exception from the first line leaves start() with the bar already started. */
  function AfterStartAsWritten(s: BarState, now: int, consoleCols: int, speed: string): Result<Attempt, LifecycleError>
    requires !s.started ==> RedrawDefined(Started(s, now), true, now)
  {
    if s.started then Err(DoubleEnter)
    else Ok(RedrawAsWritten(Started(s, now), true, now, consoleCols, speed))
  }

  /** update(k) as written: an exception from the redraw leaves update() with the count already added. */
  function AfterUpdateAsWritten(s: BarState, k: int, now: int, consoleCols: int, speed: string): Attempt
    requires UpdateDefined(s, k, now)
  {
    if s.disabled then Done(Step(s, []))
    else RedrawAsWritten(s.(n := s.n + k), false, now, consoleCols, speed)
  }

  /**
   * The destructor as written: an exception from its final redraw cannot
   * leave a destructor, so the program ends through std::terminate.
   */
  function AfterFinishAsWritten(s: BarState, now: int, consoleCols: int, speed: string): Attempt
    requires FinishDefined(s, now)
  {
    if !s.started || s.disabled then Done(Step(s, []))
    else if s.leave then RedrawAsWritten(s.(minIterations := Some(0)), false, now, consoleCols, speed)
    else Done(Step(s, [Write(s.sink, Erase)]))
  }

  // ---------------------------------------------------------------- properties

  /**
   * The throttle: a redraw prints exactly when the progress since the last
   * redraw reaches the estimate (the first estimate when there was none).
   * Without printing only the estimate (and, for the first line, the base
   * count) changes; a print writes one line, counts it, re-estimates from the
   * rate and records the count and the time.
   */
  lemma RedrawThrottle(s: BarState, isFirst: bool, now: int, consoleCols: int, speed: string)
    requires RedrawDefined(s, isFirst, now)
    ensures var r := Redraw(s, isFirst, now, consoleCols, speed);
      var est := Estimate(s, isFirst, now);
      var progress := s.n - Base(s, isFirst);
      && (|r.out| == 1 <==> progress >= est.GetOr(0))
      && (|r.out| == 0 <==> progress < est.GetOr(0))
      && r.state.totalPrints == s.totalPrints + |r.out|
      && (|r.out| == 0 ==> r.state == s.(nLastUpdate := Base(s, isFirst), minIterations := est))
      && (|r.out| == 1 ==>
            && r.out[0] == Write(s.sink, Line(FrameOf(r.state, isFirst, now, consoleCols, speed)))
            && r.state.nLastUpdate == s.n
            && r.state.lastUpdateTime == now
            && r.state.minIterations
               == (if est.Some? then Some(NextEstimate(progress, IntervalNs(s.mininterval), now - s.lastUpdateTime)) else None)
            && r.state.speedKnown == (s.speedKnown || (est.Some? && progress > 0)))
      && r.state.n == s.n && r.state.size == s.size && r.state.message == s.message && r.state.started == s.started
      && r.state.disabled == s.disabled && r.state.leave == s.leave && r.state.beginTime == s.beginTime
      && r.state.mininterval == s.mininterval && r.state.ncols == s.ncols && r.state.sink == s.sink
  {
  }

  /** A second start() throws and changes nothing; a first one marks the bar started. */
  lemma StartOnce(s: BarState, now: int, consoleCols: int, speed: string)
    requires !s.started ==> RedrawDefined(Started(s, now), true, now)
    ensures AfterStart(s, now, consoleCols, speed).Err? <==> s.started
    ensures s.started ==> AfterStart(s, now, consoleCols, speed) == Err(DoubleEnter)
    ensures !s.started ==> var r := AfterStart(s, now, consoleCols, speed).value;
      r.state.started && r.state.beginTime == now
      && (var next := AfterStart(r.state, now, consoleCols, speed); next == Err(DoubleEnter))
  {
  }

  /**
   * start() prints its line whenever no estimate was made before it (always,
   * unless update() was called before start()), whether or not the bar is
   * disabled, with no cursor movement in front; the estimate stays unset.
   */
  lemma StartPrints(s: BarState, now: int, consoleCols: int, speed: string)
    requires !s.started && s.minIterations.None?
    requires RedrawDefined(Started(s, now), true, now)
    ensures var r := AfterStart(s, now, consoleCols, speed).value;
      && r.out == [Write(s.sink, Line(Frame(true, s.n, s.size, SpeedText(s.speedKnown, speed), 0, Columns(s, consoleCols), s.message)))]
      && r.state == Started(s, now).(nLastUpdate := s.n, lastUpdateTime := now, totalPrints := s.totalPrints + 1)
  {
    RedrawThrottle(Started(s, now), true, now, consoleCols, speed);
  }

  /**
   * update() before start() is not rejected; a start() after it prints only
   * when the estimate it left is not positive.
   */
  lemma StartAfterEarlyUpdate(s: BarState, now: int, consoleCols: int, speed: string)
    requires !s.started && s.minIterations.Some?
    requires RedrawDefined(Started(s, now), true, now)
    ensures |AfterStart(s, now, consoleCols, speed).value.out| == (if s.minIterations.value <= 0 then 1 else 0)
  {
    RedrawThrottle(Started(s, now), true, now, consoleCols, speed);
  }

  /** update() on a disabled bar changes nothing and writes nothing. */
  lemma UpdateDisabled(s: BarState, k: int, now: int, consoleCols: int, speed: string)
    requires s.disabled
    ensures AfterUpdate(s, k, now, consoleCols, speed) == Step(s, [])
  {
  }

  /**
   * update(k) on an enabled bar adds k to the count, whatever the sign of k
   * and whether or not the bar was started, and redraws.
   */
  lemma UpdateCounts(s: BarState, k: int, now: int, consoleCols: int, speed: string)
    requires !s.disabled && UpdateDefined(s, k, now)
    ensures AfterUpdate(s, k, now, consoleCols, speed).state.n == s.n + k
    ensures AfterUpdate(s, k, now, consoleCols, speed) == Redraw(s.(n := s.n + k), false, now, consoleCols, speed)
  {
    RedrawThrottle(s.(n := s.n + k), false, now, consoleCols, speed);
  }

  /**
   * The destructor: nothing unless started and enabled; with leave, a final
   * redraw that prints exactly when the count has not fallen below the last
   * printed one; without leave, exactly move up and erase the line.
   */
  lemma FinishCases(s: BarState, now: int, consoleCols: int, speed: string)
    requires FinishDefined(s, now)
    ensures !s.started || s.disabled ==> AfterFinish(s, now, consoleCols, speed) == Step(s, [])
    ensures s.started && !s.disabled && s.leave ==>
      |AfterFinish(s, now, consoleCols, speed).out| == (if s.n >= s.nLastUpdate then 1 else 0)
    ensures s.started && !s.disabled && !s.leave ==>
      AfterFinish(s, now, consoleCols, speed) == Step(s, [Write(s.sink, Erase)])
    ensures Text(Erase) == "\U{1B}[1A\U{1B}[2K"
  {
    OverwriteText();
    if s.started && !s.disabled && s.leave {
      RedrawThrottle(s.(minIterations := Some(0)), false, now, consoleCols, speed);
    }
  }

  /**
   * The state a bar keeps while its clock runs forward and its updates are
   * non-negative: the interval is not negative, the last printed count never
   * exceeds the count, and an estimate, once made, is at least 1.
   */
  predicate Steady(s: BarState) {
    && s.mininterval >= 0
    && s.nLastUpdate <= s.n
    && s.totalPrints >= 0
    && (s.minIterations.Some? ==> s.minIterations.value >= 1)
  }

  /** update() with a non-negative step and a later clock keeps a bar steady. */
  lemma UpdateKeepsSteady(s: BarState, k: int, now: int, consoleCols: int, speed: string)
    requires Steady(s) && k >= 0 && now > s.lastUpdateTime && s.size != Some(0)
    ensures UpdateDefined(s, k, now)
    ensures Steady(AfterUpdate(s, k, now, consoleCols, speed).state)
    ensures AfterUpdate(s, k, now, consoleCols, speed).state.lastUpdateTime <= now
  {
    if !s.disabled {
      var t := s.(n := s.n + k);
      var est := Estimate(t, false, now);
      var progress := t.n - t.nLastUpdate;
      FirstEstimateBounds(IntervalNs(s.mininterval), now - s.lastUpdateTime);
      if ShouldPrint(progress, est) && est.Some? {
        NextEstimateIsRate(progress, IntervalNs(s.mininterval), now - s.lastUpdateTime);
      }
      RedrawThrottle(t, false, now, consoleCols, speed);
    }
  }

  /** A freshly constructed bar is steady, with no estimate and nothing printed. */
  lemma InitialSteady(size: Option<int>)
    ensures Steady(Initial(size))
    ensures Initial(size).totalPrints == 0 && Initial(size).minIterations.None? && !Initial(size).started
  {
  }

  /** A first start() keeps a bar steady: the first line restarts the progress at the count. */
  lemma StartKeepsSteady(s: BarState, now: int, consoleCols: int, speed: string)
    requires Steady(s) && !s.started && RedrawDefined(Started(s, now), true, now)
    ensures Steady(AfterStart(s, now, consoleCols, speed).value.state)
    ensures AfterStart(s, now, consoleCols, speed).value.state.nLastUpdate == s.n
  {
    RedrawThrottle(Started(s, now), true, now, consoleCols, speed);
  }

  /**
   * The destructor with a later clock keeps a bar steady: the forced
   * estimate of 0 always redraws and is replaced by one of at least 1.
   */
  lemma FinishKeepsSteady(s: BarState, now: int, consoleCols: int, speed: string)
    requires Steady(s) && now > s.lastUpdateTime && s.size != Some(0)
    ensures FinishDefined(s, now)
    ensures Steady(AfterFinish(s, now, consoleCols, speed).state)
  {
    if s.started && !s.disabled && s.leave {
      var t := s.(minIterations := Some(0));
      NextEstimateIsRate(s.n - s.nLastUpdate, IntervalNs(s.mininterval), now - s.lastUpdateTime);
      RedrawThrottle(t, false, now, consoleCols, speed);
    }
  }

  /**
   * What a printed line shows. The move-up and erase codes and every colour
   * code are removed by the strip, so the terminal shows the prefix, the bar
   * when it fits and the suffix; when the bar is drawn, the line is exactly
   * as wide as the columns.
   */
  lemma LineShows(isFirst: bool, n: int, size: Option<int>, speed: string, elapsedNs: int, cols: int, message: string)
    requires size != Some(0) && NoEsc(speed) && NoEsc(message)
    ensures var text := LineText(isFirst, n, size, speed, elapsedNs, cols, message);
      var prefix := PrefixPieces(n, size);
      var suffix := SuffixPieces(speed, elapsedNs, n, size);
      var free := FreeSpace(cols, Emit(prefix), Emit(suffix));
      && free == cols - |Visible(prefix)| - |Visible(suffix)|
      && Strip(text) == Visible(prefix) + ShownBar(free, message) + Visible(suffix) + "\n"
      && (BarFits(free) ==> |Strip(text)| == cols + 1)
  {
    var prefix := PrefixPieces(n, size);
    var suffix := SuffixPieces(speed, elapsedNs, n, size);
    var percent := BarPercent(n, size);
    PiecesWellFormed(speed, elapsedNs, n, size);
    LineTextComposes(isFirst, n, size, speed, elapsedNs, cols, message);
    OverwrittenLine(isFirst, ComposeLine(prefix, suffix, percent, cols, message),
                    LineText(isFirst, n, size, speed, elapsedNs, cols, message));
    LineWidth(prefix, suffix, percent, cols, message);
  }

  lemma LineTextComposes(isFirst: bool, n: int, size: Option<int>, speed: string, elapsedNs: int, cols: int, message: string)
    requires size != Some(0)
    ensures LineText(isFirst, n, size, speed, elapsedNs, cols, message)
            == (if isFirst then "" else Overwrite)
               + ComposeLine(PrefixPieces(n, size), SuffixPieces(speed, elapsedNs, n, size),
                             BarPercent(n, size), cols, message)
  {
  }

  lemma PiecesWellFormed(speed: string, elapsedNs: int, n: int, size: Option<int>)
    requires size != Some(0) && NoEsc(speed)
    ensures WellFormed(PrefixPieces(n, size)) && WellFormed(SuffixPieces(speed, elapsedNs, n, size))
  {
    PrefixFacts(n, size);
    SuffixVisible(speed, elapsedNs, n, size);
  }

  /** Whatever precedes a line, the strip leaves the line's own visible text. */
  lemma OverwrittenLine(isFirst: bool, line: string, text: string)
    requires text == (if isFirst then "" else Overwrite) + line
    ensures Strip(text) == Strip(line)
  {
    if isFirst {
      assert text == line;
    } else {
      OverwriteStrips(line);
    }
  }

  /** The placeholder rate text holds no control sequence, so a line shows it as it is. */
  lemma SpeedTextNoEsc(speedKnown: bool, speed: string)
    requires NoEsc(speed)
    ensures NoEsc(SpeedText(speedKnown, speed))
  {
    assert NoEsc(SpeedPlaceholder);
  }

  lemma OverwriteText()
    ensures Overwrite == "\U{1B}[1A\U{1B}[2K"
  {
    CursorUpAndEraseLine();
  }

  /** The move-up and erase codes in front of a line leave nothing visible. */
  lemma OverwriteStrips(line: string)
    ensures Strip(Overwrite + line) == Strip(line)
  {
    RenderIsControl(MoveCursorUp);
    assert IsControl(EraseLine) by {
      assert EraseLine[2..3] == "2";
    }
    assert Overwrite + line == MoveCursorUp.Render() + (EraseLine + line);
    StripControl(MoveCursorUp.Render(), EraseLine + line);
    StripControl(EraseLine, line);
  }

  // ---------------------------------------------------------------- as written, proved

  /**
   * The redraw as written differs from the corrected one exactly when the
   * corrected one prints a line with a free space of 1: the code as written
   * then throws after writing the cursor codes and the prefix, with the
   * estimate and the rate flag updated but the print not counted and the
   * count and time not recorded. Otherwise both do the same.
   */
  lemma RedrawAsWrittenDiffers(s: BarState, isFirst: bool, now: int, consoleCols: int, speed: string)
    requires RedrawDefined(s, isFirst, now)
    ensures var r := Redraw(s, isFirst, now, consoleCols, speed);
      var a := RedrawAsWritten(s, isFirst, now, consoleCols, speed);
      var f := FrameOf(r.state, isFirst, now, consoleCols, speed);
      && (a.Threw? <==> |r.out| == 1 && s.size != Some(0) && FrameFree(f) == 1)
      && (a.Done? ==> a.step == r)
      && (a.Threw? ==>
            && a.error == LengthError
            && a.partial.out == [Write(s.sink, Broken(f))]
            && a.partial.state
               == r.state.(totalPrints := s.totalPrints, nLastUpdate := Base(s, isFirst), lastUpdateTime := s.lastUpdateTime))
  {
    RedrawThrottle(s, isFirst, now, consoleCols, speed);
  }

  /** start() as written throws only when started already or when its first line has a free space of 1; then the bar stays started. */
  lemma StartAsWritten(s: BarState, now: int, consoleCols: int, speed: string)
    requires !s.started ==> RedrawDefined(Started(s, now), true, now)
    ensures AfterStartAsWritten(s, now, consoleCols, speed).Err? <==> s.started
    ensures !s.started ==>
      var a := AfterStartAsWritten(s, now, consoleCols, speed).value;
      var r := AfterStart(s, now, consoleCols, speed).value;
      && (a.Done? ==> a.step == r)
      && (a.Threw? ==> |r.out| == 1 && a.partial.state.started && a.partial.state.beginTime == now
                       && a.partial.state.totalPrints == s.totalPrints)
  {
    if !s.started {
      RedrawAsWrittenDiffers(Started(s, now), true, now, consoleCols, speed);
    }
  }

  /** update(k) as written: when its redraw throws, the count is already added and the print is not counted. */
  lemma UpdateAsWritten(s: BarState, k: int, now: int, consoleCols: int, speed: string)
    requires UpdateDefined(s, k, now)
    ensures var a := AfterUpdateAsWritten(s, k, now, consoleCols, speed);
      var r := AfterUpdate(s, k, now, consoleCols, speed);
      && (a.Done? ==> a.step == r)
      && (a.Threw? ==> !s.disabled && |r.out| == 1 && a.partial.state.n == s.n + k
                       && a.partial.state.totalPrints == s.totalPrints)
  {
    if !s.disabled {
      var t := s.(n := s.n + k);
      assert AfterUpdateAsWritten(s, k, now, consoleCols, speed) == RedrawAsWritten(t, false, now, consoleCols, speed);
      assert AfterUpdate(s, k, now, consoleCols, speed) == Redraw(t, false, now, consoleCols, speed);
      RedrawAsWrittenDiffers(t, false, now, consoleCols, speed);
    }
  }

  /** The destructor as written throws, and so ends the program, only in the final redraw of a started, enabled, leaving bar. */
  lemma FinishAsWritten(s: BarState, now: int, consoleCols: int, speed: string)
    requires FinishDefined(s, now)
    ensures var a := AfterFinishAsWritten(s, now, consoleCols, speed);
      var r := AfterFinish(s, now, consoleCols, speed);
      && (a.Done? ==> a.step == r)
      && (a.Threw? ==> s.started && !s.disabled && s.leave && |r.out| == 1)
  {
    if s.started && !s.disabled && s.leave {
      RedrawAsWrittenDiffers(s.(minIterations := Some(0)), false, now, consoleCols, speed);
    }
  }

  /**
   * A line the code as written prints in full (free space other than 1) has
   * the same text as the corrected line: both guards draw the same bar there.
   */
  lemma PrintedLineAsWritten(f: Frame)
    requires f.size != Some(0) && FrameFree(f) != 1
    ensures var prefix := PrefixPieces(f.n, f.size);
      var suffix := SuffixPieces(f.speed, f.elapsedNs, f.n, f.size);
      var line := ComposeLineAsWritten(prefix, suffix, BarPercent(f.n, f.size), f.cols, f.message);
      line.Ok? && Text(Line(f)) == (if f.isFirst then "" else Overwrite) + line.value
  {
    var prefix := PrefixPieces(f.n, f.size);
    var suffix := SuffixPieces(f.speed, f.elapsedNs, f.n, f.size);
    LineTextComposes(f.isFirst, f.n, f.size, f.speed, f.elapsedNs, f.cols, f.message);
    WidthOneBarThrows(prefix, suffix, BarPercent(f.n, f.size), f.cols, f.message);
  }

  /**
   * The discrepancy on a concrete bar: no total, ncols(20), started at
   * count 0. The prefix "0" takes 1 column and the suffix "    ?? it/s[00:00]"
   * 18, so the free space is 1: the corrected start() prints a line without
   * a bar and counts it, while start() as written throws after the prefix.
   */
  lemma NarrowFirstLine(now: int, consoleCols: int, speed: string)
    ensures var s := Initial(None).(ncols := Some(20));
      var f := Frame(true, 0, None, SpeedPlaceholder, 0, 20, "");
      && FrameFree(f) == 1
      && AfterStart(s, now, consoleCols, speed)
         == Ok(Step(Started(s, now).(lastUpdateTime := now, totalPrints := 1), [Write(StdErr, Line(f))]))
      && AfterStartAsWritten(s, now, consoleCols, speed)
         == Ok(Threw(Step(Started(s, now), [Write(StdErr, Broken(f))]), LengthError))
  {
    var prefix := PrefixPieces(0, None);
    var suffix := SuffixPieces(SpeedPlaceholder, 0, 0, None);
    assert NoEsc(SpeedPlaceholder);
    PiecesWellFormed(SpeedPlaceholder, 0, 0, None);
    FreeSpaceVisible(20, prefix, suffix);
    PrefixFacts(0, None);
    SuffixVisible(SpeedPlaceholder, 0, 0, None);
    TimeFieldVisible(0, 0, None);
    assert ElapsedMs(0) == 0;
    TimeWidth(0, false);
    assert |Visible(suffix)| == 18;
  }

  /** What the terminal is left showing when print_bar throws: the prefix alone. */
  lemma BrokenShows(f: Frame)
    requires f.size != Some(0)
    ensures Strip(Text(Broken(f))) == Visible(PrefixPieces(f.n, f.size))
  {
    var prefix := PrefixPieces(f.n, f.size);
    PrefixFacts(f.n, f.size);
    StripEmitAlone(prefix);
    OverwrittenLine(f.isFirst, Emit(prefix), Text(Broken(f)));
  }

  // ---------------------------------------------------------------- the object

  /** A ProgressBar object: its fields change in place and its writes go to `log`. */
  class ProgressBar {
    var size: Option<int>
    var message: string
    var ncols: Option<int>
    var mininterval: int
    var leave: bool
    var disabled: bool
    var sink: nat
    var started: bool
    var beginTime: int
    var lastUpdateTime: int
    var n: int
    var nLastUpdate: int
    var totalPrints: int
    var minIterations: Option<int>
    var speedKnown: bool
    /** Everything written so far, in order. */
    var log: seq<Write>

    /** The fields as a value. */
    function Snapshot(): BarState
      reads this
    {
      BarState(size, message, ncols, mininterval, leave, disabled, sink, started,
               beginTime, lastUpdateTime, n, nLastUpdate, totalPrints, minIterations, speedKnown)
    }

    /** ProgressBar(begin, end, size) (tqdm.h:69-71) with the defaults of tqdm.h:188-206. */
    constructor(total: Option<int>)
      ensures Snapshot() == Initial(total) && log == []
    {
      size := total;
      message := "";
      ncols := None;
      mininterval := 200;
      leave := true;
      disabled := false;
      sink := StdErr;
      started := false;
      beginTime := 0;
      lastUpdateTime := 0;
      n := 0;
      nLastUpdate := 0;
      totalPrints := 0;
      minIterations := None;
      speedKnown := false;
      log := [];
    }

    /** print_progress_line (tqdm.h:221-344), step by step on the fields. */
    method PrintProgressLine(isFirst: bool, now: int, consoleCols: int, speed: string)
      modifies this
      requires RedrawDefined(Snapshot(), isFirst, now)
      ensures Snapshot() == Redraw(old(Snapshot()), isFirst, now, consoleCols, speed).state
      ensures log == old(log) + Redraw(old(Snapshot()), isFirst, now, consoleCols, speed).out
    {
      SettleEstimate(isFirst, now);
      if n - nLastUpdate >= minIterations.GetOr(0) {
        PrintLine(isFirst, now, consoleCols, speed);
      }
    }

    /** tqdm.h:227-239: the first estimate, or for the first line the base count. */
    method SettleEstimate(isFirst: bool, now: int)
      modifies this
      requires !isFirst && minIterations.None? ==> now != lastUpdateTime
      ensures Snapshot() == Settle(old(Snapshot()), isFirst, now) && log == old(log)
    {
      if !isFirst {
        if minIterations.None? {
          minIterations := Some(FirstEstimate(IntervalNs(mininterval), now - lastUpdateTime));
        }
      } else {
        nLastUpdate := n;
      }
    }

    /** tqdm.h:243-342: re-estimate, note the rate, write the line and record the redraw. */
    method PrintLine(isFirst: bool, now: int, consoleCols: int, speed: string)
      modifies this
      requires minIterations.Some? ==> now != lastUpdateTime
      ensures Snapshot() == Print(old(Snapshot()), isFirst, now, consoleCols, speed).state
      ensures log == old(log) + Print(old(Snapshot()), isFirst, now, consoleCols, speed).out
    {
      UpdateRate(now);
      WriteLine(isFirst, now, consoleCols, speed);
    }

    /** tqdm.h:247-281. */
    method UpdateRate(now: int)
      modifies this
      requires minIterations.Some? ==> now != lastUpdateTime
      ensures Snapshot() == NoteRate(old(Snapshot()), now) && log == old(log)
    {
      var next := Reestimate(Snapshot(), now);
      if next.Some? && n - nLastUpdate > 0 {
        speedKnown := true;
      }
      minIterations := next;
    }

    /** tqdm.h:313-342: the line is written to the bar's stream, then the redraw is recorded. */
    method WriteLine(isFirst: bool, now: int, consoleCols: int, speed: string)
      modifies this
      ensures Snapshot() == Recorded(old(Snapshot()), now)
      ensures log == old(log) + [Write(sink, Line(FrameOf(old(Snapshot()), isFirst, now, consoleCols, speed)))]
    {
      log := log + [Write(sink, Line(FrameOf(Snapshot(), isFirst, now, consoleCols, speed)))];
      totalPrints := totalPrints + 1;
      nLastUpdate := n;
      lastUpdateTime := now;
    }

    /** start() (tqdm.h:94-101). */
    method Start(now: int, consoleCols: int, speed: string) returns (r: Outcome<LifecycleError>)
      modifies this
      requires !started ==> RedrawDefined(Started(Snapshot(), now), true, now)
      ensures old(started) ==> r == Fail(DoubleEnter) && Snapshot() == old(Snapshot()) && log == old(log)
      ensures !old(started) ==>
        && r == Pass
        && Snapshot() == AfterStart(old(Snapshot()), now, consoleCols, speed).value.state
        && log == old(log) + AfterStart(old(Snapshot()), now, consoleCols, speed).value.out
    {
      if started {
        return Fail(DoubleEnter);
      }
      beginTime := now;
      started := true;
      PrintProgressLine(true, now, consoleCols, speed);
      r := Pass;
    }

    /** begin() (tqdm.h:104-107): start(); the iterator wrapper it returns is not modelled. */
    method Begin(now: int, consoleCols: int, speed: string) returns (r: Outcome<LifecycleError>)
      modifies this
      requires !started ==> RedrawDefined(Started(Snapshot(), now), true, now)
      ensures old(started) ==> r == Fail(DoubleEnter) && Snapshot() == old(Snapshot()) && log == old(log)
      ensures !old(started) ==>
        && r == Pass
        && Snapshot() == AfterStart(old(Snapshot()), now, consoleCols, speed).value.state
        && log == old(log) + AfterStart(old(Snapshot()), now, consoleCols, speed).value.out
    {
      r := Start(now, consoleCols, speed);
    }

    /** update(k) (tqdm.h:86-92). */
    method Update(k: int, now: int, consoleCols: int, speed: string)
      modifies this
      requires UpdateDefined(Snapshot(), k, now)
      ensures Snapshot() == AfterUpdate(old(Snapshot()), k, now, consoleCols, speed).state
      ensures log == old(log) + AfterUpdate(old(Snapshot()), k, now, consoleCols, speed).out
    {
      if disabled {
        return;
      }
      n := n + k;
      PrintProgressLine(false, now, consoleCols, speed);
    }

    /** The destructor (tqdm.h:73-84). */
    method Finish(now: int, consoleCols: int, speed: string)
      modifies this
      requires FinishDefined(Snapshot(), now)
      ensures Snapshot() == AfterFinish(old(Snapshot()), now, consoleCols, speed).state
      ensures log == old(log) + AfterFinish(old(Snapshot()), now, consoleCols, speed).out
    {
      if !started || disabled {
        return;
      }
      if leave {
        minIterations := Some(0);
        PrintProgressLine(false, now, consoleCols, speed);
      } else {
        log := log + [Write(sink, Erase)];
      }
    }

    /** desc(message) (tqdm.h:113-121). */
    method Desc(text: string)
      modifies this
      ensures Snapshot() == old(Snapshot()).(message := text) && log == old(log)
    {
      message := text;
    }

    /** total(n) (tqdm.h:123-131). */
    method Total(count: int)
      modifies this
      ensures Snapshot() == old(Snapshot()).(size := Some(count)) && log == old(log)
    {
      size := Some(count);
    }

    /** ncols(n) (tqdm.h:134-142). */
    method Ncols(cols: int)
      modifies this
      ensures Snapshot() == old(Snapshot()).(ncols := Some(cols)) && log == old(log)
    {
      ncols := Some(cols);
    }

    /** leave(flag = true) (tqdm.h:145-154). */
    method Leave(flag: bool := true)
      modifies this
      ensures Snapshot() == old(Snapshot()).(leave := flag) && log == old(log)
    {
      leave := flag;
    }

    /** disable(flag = false) (tqdm.h:156-164): called without an argument it enables the bar. */
    method Disable(flag: bool := false)
      modifies this
      ensures Snapshot() == old(Snapshot()).(disabled := flag) && log == old(log)
    {
      disabled := flag;
    }

    /** mininterval(interval) (tqdm.h:166-174), in milliseconds. */
    method Mininterval(ms: int)
      modifies this
      ensures Snapshot() == old(Snapshot()).(mininterval := ms) && log == old(log)
    {
      mininterval := ms;
    }

    /** file(out) (tqdm.h:176-184): later writes go to the named stream. */
    method File(out: nat)
      modifies this
      ensures Snapshot() == old(Snapshot()).(sink := out) && log == old(log)
    {
      sink := out;
    }
  }
}
