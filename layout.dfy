/**
 * How ProgressBar lays out one status line (include/tqdm/tqdm.h): the
 * percent/count prefix, the bar, the elapsed/estimate field and the column
 * budget that decides whether the bar is drawn. Every function returns what
 * the corresponding stream insertions write, as a sequence of Pieces.
 */
module Layout {
  import opened Wrappers
  import opened Format
  import opened ConsoleCodes
  import opened Markup

  /** What print_bar throws when asked for a negative segment length. */
  datatype BarError = LengthError

  /** count_places: the number of decimal digits of |i|, four at a time. */
  method CountPlaces(i: int) returns (places: nat)
    ensures places == DigitCount(Abs(i))
  {
    var j: nat := Abs(i);
    places := 0;
    while j != 0
      invariant places + DigitCount(j) == DigitCount(Abs(i))
      decreases j
    {
      assert DigitCount(j) == 1 + DigitCount(j / 10);
      assert DigitCount(j / 10) == (if j / 10 == 0 then 0 else 1 + DigitCount(j / 100)) by {
        assert j / 10 / 10 == j / 100;
      }
      assert DigitCount(j / 100) == (if j / 100 == 0 then 0 else 1 + DigitCount(j / 1000)) by {
        assert j / 100 / 10 == j / 1000;
      }
      assert DigitCount(j / 1000) == (if j / 1000 == 0 then 0 else 1 + DigitCount(j / 10000)) by {
        assert j / 1000 / 10 == j / 10000;
      }
      if j < 10 {
        return 1 + places;
      }
      if j < 100 {
        return 2 + places;
      }
      if j < 1000 {
        return 3 + places;
      }
      if j < 10000 {
        return 4 + places;
      }
      places := places + 4;
      j := j / 10000;
    }
  }

  // ---------------------------------------------------------------- percent

  /** `m_n * 100 / m_size`, truncated toward zero; it exceeds 100 when the count overruns the total. */
  function Percent(n: int, total: int): int
    requires total != 0
  {
    TruncDiv(n * 100, total)
  }

  /** Within the total, the percentage is the floor of 100 n / total and lies in [0, 100]. */
  lemma PercentInRange(n: int, total: int)
    requires 0 <= n <= total && total > 0
    ensures 0 <= Percent(n, total) <= 100
    ensures Percent(n, total) * total <= 100 * n < (Percent(n, total) + 1) * total
  {
    var p := Percent(n, total);
    assert p == (n * 100) / total;
    assert p * total + (n * 100) % total == n * 100;
    assert (p + 1) * total == p * total + total;
    if p > 100 {
      MulMonotone(101, p, total);
      assert false;
    }
  }

  /** With a non-negative count the percentage passes 100 exactly when 100 n reaches 101 totals. */
  lemma PercentOverrun(n: int, total: int)
    requires 0 <= n && total > 0
    ensures Percent(n, total) >= 0
    ensures Percent(n, total) > 100 <==> 100 * n >= 101 * total
  {
    var p := Percent(n, total);
    assert p == (n * 100) / total;
    assert p * total <= n * 100 < p * total + total;
    assert (p + 1) * total == p * total + total;
    if p > 100 {
      MulMonotone(101, p, total);
    } else {
      MulMonotone(p + 1, 101, total);
    }
  }

  // ---------------------------------------------------------------- text without escapes

  lemma ControlConstants()
    ensures IsControl(DisplayBright) && IsControl(ResetDisplay) && IsControl(FgYellow)
    ensures IsControl(FgMagenta) && IsControl(FgCyan) && IsControl(FgBlue) && IsControl(FgDefaultNoUnderscore)
    ensures IsControl(BgBlack) && IsControl(BgRed) && IsControl(BgWhite)
    ensures IsControl(FgWhite) && IsControl(FgBlack) && IsControl(FgRed)
  {
  }

  lemma IntToStringNoEsc(x: int)
    ensures NoEsc(IntToString(x))
  {
  }

  lemma PadLeftNoEsc(s: string, w: int, fill: char)
    requires NoEsc(s) && fill != Esc
    ensures NoEsc(PadLeft(s, w, fill))
  {
    var r := PadLeft(s, w, fill);
    forall i | 0 <= i < |r| ensures r[i] != Esc {
      if i >= |r| - |s| {
        assert r[i] == r[|r| - |s|..][i - (|r| - |s|)];
      }
    }
  }

  /** `std::setw(w) << x` with the given fill: never contains ESC. */
  lemma PaddedNumberNoEsc(x: int, w: int, fill: char)
    requires fill != Esc
    ensures NoEsc(PadLeft(IntToString(x), w, fill))
  {
    IntToStringNoEsc(x);
    PadLeftNoEsc(IntToString(x), w, fill);
  }

  // ---------------------------------------------------------------- prefix

  /** The plain text of the prefix up to the total: percent, "% ", count, '/'. */
  function CountText(n: int, t: int): string
    requires t != 0
  {
    var places := DigitCount(Abs(t));
    PadLeft(IntToString(Percent(n, t)), 3, ' ') + "% " + PadLeft(IntToString(n), places, ' ') + "/"
  }

  /** The insertions of the prefix with a total: plain text, then the total in bright. */
  function PrefixLayout(count: string, total: string): seq<Piece> {
    [Text(count)] + Styled([DisplayBright], total) + Controls([ResetDisplay])
  }

  lemma PrefixLayoutFacts(count: string, total: string)
    ensures Visible(PrefixLayout(count, total)) == count + total
    ensures NoEsc(count) && NoEsc(total) ==> WellFormed(PrefixLayout(count, total))
  {
    var head: seq<Piece> := [Text(count)];
    var mid := Styled([DisplayBright], total);
    var tail := Controls([ResetDisplay]);
    ControlConstants();
    AllControlOneTwo(DisplayBright, ResetDisplay);
    AllControlOneTwo(ResetDisplay, ResetDisplay);
    StyledFacts([DisplayBright], total);
    ControlsFacts([ResetDisplay]);
    VisibleOne(Text(count));
    EmitAppend(head, mid);
    EmitAppend(head + mid, tail);
    if NoEsc(count) && NoEsc(total) {
      WellFormedOne(Text(count));
      WellFormedAppend(head, mid);
      WellFormedAppend(head + mid, tail);
    }
  }

  /**
   * The prefix (tqdm.h:263-274): with a total, the percentage right-aligned
   * in three columns, "% ", then count and total each right-aligned in
   * count_places(total) columns around '/', the total in bright; without a
   * total, just the count.
   */
  function PrefixPieces(n: int, size: Option<int>): seq<Piece>
    requires size != Some(0)
  {
    match size
    case Some(t) => PrefixLayout(CountText(n, t), PadLeft(IntToString(t), DigitCount(Abs(t)), ' '))
    case None => [Text(IntToString(n))]
  }

  /** The prefix is plain text and control sequences, and the terminal shows its text parts. */
  lemma PrefixFacts(n: int, size: Option<int>)
    requires size != Some(0)
    ensures WellFormed(PrefixPieces(n, size))
    ensures size.Some? ==>
      Visible(PrefixPieces(n, size)) == CountText(n, size.value) + PadLeft(IntToString(size.value), DigitCount(Abs(size.value)), ' ')
    ensures size.None? ==> Visible(PrefixPieces(n, size)) == IntToString(n)
  {
    IntToStringNoEsc(n);
    if size.Some? {
      var t := size.value;
      var places := DigitCount(Abs(t));
      var pct := PadLeft(IntToString(Percent(n, t)), 3, ' ');
      var count := PadLeft(IntToString(n), places, ' ');
      PaddedNumberNoEsc(Percent(n, t), 3, ' ');
      PaddedNumberNoEsc(n, places, ' ');
      PaddedNumberNoEsc(t, places, ' ');
      NoEscAppend(pct, "% ");
      NoEscAppend(pct + "% ", count);
      NoEscAppend(pct + "% " + count, "/");
      PrefixLayoutFacts(CountText(n, t), PadLeft(IntToString(t), places, ' '));
    } else {
      VisibleOne(Text(IntToString(n)));
      WellFormedOne(Text(IntToString(n)));
    }
  }

  /**
   * For a count within a positive total the prefix has a fixed visible
   * width, 6 + 2 digits(total): percent in 3 columns, "% ", the count padded
   * to the width of the total, '/', and the total itself.
   */
  lemma PrefixWidth(n: int, t: int)
    requires 0 <= n <= t && t > 0
    ensures var d := DigitCount(t);
      && Visible(PrefixPieces(n, Some(t)))
         == PadLeft(IntToString(Percent(n, t)), 3, ' ') + "% " + PadLeft(IntToString(n), d, ' ') + "/" + IntToString(t)
      && |PadLeft(IntToString(Percent(n, t)), 3, ' ')| == 3
      && |PadLeft(IntToString(n), d, ' ')| == d
      && |IntToString(t)| == d
      && |Visible(PrefixPieces(n, Some(t)))| == 6 + 2 * d
  {
    var d := DigitCount(t);
    CountFieldWidths(n, t);
    PrefixFacts(n, Some(t));
    assert PadLeft(IntToString(t), d, ' ') == IntToString(t);
  }

  /** The widths of the three numbers of the prefix when the count is within the total. */
  lemma CountFieldWidths(n: int, t: int)
    requires 0 <= n <= t && t > 0
    ensures |PadLeft(IntToString(Percent(n, t)), 3, ' ')| == 3
    ensures |PadLeft(IntToString(n), DigitCount(t), ' ')| == DigitCount(t)
    ensures |IntToString(t)| == DigitCount(t)
  {
    PercentInRange(n, t);
    PercentFieldWidth(Percent(n, t));
    DigitCountMonotone(n, t);
    DigitCountBounds(t);
  }

  /** A percentage in [0, 100] has at most three digits, so `setw(3)` makes it exactly three columns. */
  lemma PercentFieldWidth(p: int)
    requires 0 <= p <= 100
    ensures |PadLeft(IntToString(p), 3, ' ')| == 3
  {
    if p > 0 {
      DigitCountMonotone(p, 100);
      assert DigitCount(100) == 3;
    }
  }

  // ---------------------------------------------------------------- bar

  /** `std::max(std::min(100, percent), 0)`. */
  function Clamp(percent: int): int {
    if percent > 100 then 100 else if percent < 0 then 0 else percent
  }

  /**
   * The two segment lengths of print_bar, p1 = percent * (width - 2) / 100 and
   * p2 = (width - 2) - p1, on the clamped percentage. They are both
   * non-negative and fill the field exactly when width >= 2; for a narrower
   * bar one of them is negative.
   */
  function BarSplit(percent: int, width: int): (r: (int, int))
    ensures width >= 2 ==> 0 <= r.0 && 0 <= r.1 && r.0 + r.1 == width - 2
    ensures width >= 2 ==> r.0 == Clamp(percent) * (width - 2) / 100
    ensures width < 2 ==> r.0 < 0 || r.1 < 0
  {
    var c := Clamp(percent);
    var w := width - 2;
    var p1 := TruncDiv(c * w, 100);
    SegmentArithmetic(c, w);
    (p1, w - p1)
  }

  /** The first segment c * w / 100 lies in [0, w] for w >= 0, and is above w for w < 0 unless c is 100. */
  lemma SegmentArithmetic(c: int, w: int)
    requires 0 <= c <= 100
    ensures var p1 := TruncDiv(c * w, 100);
      (w >= 0 ==> 0 <= p1 <= w) && (w < 0 ==> p1 > w || (c == 100 && p1 == w))
  {
    if w >= 0 {
      SegmentWithin(c, w);
    } else if c == 100 {
      assert TruncDiv(c * w, 100) == w;
    } else {
      SegmentAboveNegative(c, w);
    }
  }

  lemma SegmentWithin(c: int, w: int)
    requires 0 <= c <= 100 && w >= 0
    ensures 0 <= TruncDiv(c * w, 100) <= w
  {
    var x := c * w;
    MulMonotone(0, c, w);
    MulMonotone(c, 100, w);
    var p1 := x / 100;
    assert p1 * 100 <= x;
    if p1 > w {
      MulMonotone(w + 1, p1, 100);
      assert false;
    }
  }

  lemma SegmentAboveNegative(c: int, w: int)
    requires 0 <= c < 100 && w < 0
    ensures TruncDiv(c * w, 100) > w
  {
    var p1 := TruncDiv(c * w, 100);
    var v := -w;
    MulMonotone(c, 99, v);
    assert c * w == -(c * v);
    assert c * w - p1 * 100 <= 0;
    if p1 <= w {
      MulMonotone(p1, w, 100);
      assert false;
    }
  }


  /** The description, cut or padded, split over the filled and the empty segment. */
  function Segments(percent: int, width: int, text: string): (r: (string, string))
    requires width >= 2
    ensures |r.0| == BarSplit(percent, width).0 && |r.1| == BarSplit(percent, width).1
  {
    var (p1, p2) := BarSplit(percent, width);
    (Resize(text[..if p1 < |text| then p1 else |text|], p1, ' '),
     Resize(if p1 > |text| then [] else text[p1..], p2, ' '))
  }

  /** The background and foreground codes of the filled and empty segments, red when out of range. */
  function BarColours(percent: int): (string, string) {
    if percent < 0 || percent > 100 then (BgRed, FgRed) else (BgBlack, FgBlack)
  }

  /** The insertions of print_bar for given colours and segment texts. */
  function BarLayout(bg: string, fg: string, filled: string, empty: string): seq<Piece> {
    [Text("|")] + (Styled([bg, FgWhite], filled) + Styled([BgWhite, fg], empty)) + Styled([ResetDisplay], "|")
  }

  lemma BarLayoutFacts(bg: string, fg: string, filled: string, empty: string)
    ensures var ps := BarLayout(bg, fg, filled, empty);
      && Visible(ps) == "|" + (filled + empty) + "|"
      && |ps| == 9 && ps[1] == Control(bg) && ps[3] == Text(filled) && ps[5] == Control(fg) && ps[6] == Text(empty)
    ensures IsControl(bg) && IsControl(fg) && NoEsc(filled) && NoEsc(empty) ==> WellFormed(BarLayout(bg, fg, filled, empty))
  {
    var a: seq<Piece> := [Text("|")];
    var b := Styled([bg, FgWhite], filled);
    var c := Styled([BgWhite, fg], empty);
    var d := Styled([ResetDisplay], "|");
    ControlsOneTwo(bg, FgWhite);
    ControlsOneTwo(BgWhite, fg);
    ControlsOneTwo(ResetDisplay, ResetDisplay);
    StyledFacts([bg, FgWhite], filled);
    StyledFacts([BgWhite, fg], empty);
    StyledFacts([ResetDisplay], "|");
    VisibleOne(Text("|"));
    EmitAppend(b, c);
    EmitAppend(a, b + c);
    EmitAppend(a + (b + c), d);
    if IsControl(bg) && IsControl(fg) && NoEsc(filled) && NoEsc(empty) {
      BarLayoutWellFormed(bg, fg, filled, empty);
    }
  }

  lemma BarLayoutWellFormed(bg: string, fg: string, filled: string, empty: string)
    requires IsControl(bg) && IsControl(fg) && NoEsc(filled) && NoEsc(empty)
    ensures WellFormed(BarLayout(bg, fg, filled, empty))
  {
    var a: seq<Piece> := [Text("|")];
    var b := Styled([bg, FgWhite], filled);
    var c := Styled([BgWhite, fg], empty);
    var d := Styled([ResetDisplay], "|");
    ControlConstants();
    AllControlOneTwo(bg, FgWhite);
    AllControlOneTwo(BgWhite, fg);
    AllControlOneTwo(ResetDisplay, ResetDisplay);
    StyledFacts([bg, FgWhite], filled);
    StyledFacts([BgWhite, fg], empty);
    StyledFacts([ResetDisplay], "|");
    WellFormedOne(Text("|"));
    WellFormedAppend(b, c);
    WellFormedAppend(a, b + c);
    WellFormedAppend(a + (b + c), d);
  }

  /**
   * print_bar's output for width >= 2: '|', the filled segment in white on
   * black (on red when the percentage is out of range), the empty segment on
   * white, '|'.
   */
  function BarPieces(percent: int, width: int, text: string): seq<Piece>
    requires width >= 2
  {
    var (s1, s2) := Segments(percent, width, text);
    var (bg, fg) := BarColours(percent);
    BarLayout(bg, fg, s1, s2)
  }

  /**
   * print_bar as written: a negative segment length reaches
   * `std::string::resize`, which throws std::length_error.
   */
  function PrintBar(percent: int, width: int, text: string): (r: Result<string, BarError>)
    ensures r.Ok? <==> width >= 2
    ensures r.Ok? ==> r.value == Emit(BarPieces(percent, width, text))
  {
    var (p1, p2) := BarSplit(percent, width);
    if p1 < 0 || p2 < 0 then Err(LengthError) else Ok(Emit(BarPieces(percent, width, text)))
  }

  lemma BarSegmentsNoEsc(percent: int, width: int, text: string)
    requires width >= 2 && NoEsc(text)
    ensures NoEsc(Segments(percent, width, text).0) && NoEsc(Segments(percent, width, text).1)
  {
    var (p1, p2) := BarSplit(percent, width);
    var (s1, s2) := Segments(percent, width, text);
    forall i | 0 <= i < |s1| ensures s1[i] != Esc {
      if i < |text| && i < p1 {
        assert s1[i] == text[..if p1 < |text| then p1 else |text|][i];
      }
    }
    forall i | 0 <= i < |s2| ensures s2[i] != Esc {
      if p1 <= |text| && i < |text| - p1 {
        assert s2[i] == text[p1..][i];
      }
    }
  }

  /**
   * The bar is exactly `width` visible columns: '|', the description
   * truncated or space-padded to width - 2, '|'; the filled segment is the
   * first BarSplit(percent, width).0, that is clamp(percent) * (width - 2) / 100,
   * of those inner columns.
   */
  lemma BarShape(percent: int, width: int, text: string)
    requires width >= 2 && NoEsc(text)
    ensures var ps := BarPieces(percent, width, text);
      var k := BarSplit(percent, width).0;
      && WellFormed(ps)
      && Visible(ps) == "|" + Resize(text, width - 2, ' ') + "|"
      && |Visible(ps)| == width
      && Visible(ps)[1..1 + k] == Segments(percent, width, text).0
  {
    var (p1, p2) := BarSplit(percent, width);
    var (s1, s2) := Segments(percent, width, text);
    var (bg, fg) := BarColours(percent);
    ResizeSplit(text, p1, p2, ' ');
    ControlConstants();
    BarSegmentsNoEsc(percent, width, text);
    assert IsControl(bg) && IsControl(fg);
    BarLayoutFacts(bg, fg, s1, s2);
    assert BarPieces(percent, width, text) == BarLayout(bg, fg, s1, s2);
    HeadSlice("|", s1, s2, "|");
  }

  lemma HeadSlice<T>(x: seq<T>, y: seq<T>, w: seq<T>, z: seq<T>)
    ensures (x + (y + w) + z)[|x|..|x| + |y|] == y
  {
    assert (x + (y + w) + z)[|x|..|x| + |y|] == (y + w)[..|y|];
  }

  /**
   * The bar writes nine items: '|', two colour codes, the filled segment, two
   * colour codes, the empty segment, the reset and '|'. The filled segment is
   * on red and the empty one in red exactly when the percentage is outside
   * [0, 100]; otherwise they are on black and in black.
   */
  lemma BarColourMarksOverrun(percent: int, width: int, text: string)
    requires width >= 2
    ensures var ps := BarPieces(percent, width, text);
      && |ps| == 9
      && ps[3] == Text(Segments(percent, width, text).0) && ps[6] == Text(Segments(percent, width, text).1)
      && (ps[1] == Control(BgRed) <==> percent < 0 || percent > 100)
      && (ps[5] == Control(FgRed) <==> percent < 0 || percent > 100)
      && (ps[1] == Control(BgBlack) <==> 0 <= percent <= 100)
      && (ps[5] == Control(FgBlack) <==> 0 <= percent <= 100)
  {
    var (s1, s2) := Segments(percent, width, text);
    var (bg, fg) := BarColours(percent);
    BarLayoutFacts(bg, fg, s1, s2);
    assert BgRed[3] != BgBlack[3] && FgRed[3] != FgBlack[3];
  }

  /** print_bar throws exactly when the bar is narrower than its two delimiters; at width 1 it always throws. */
  lemma PrintBarFailsIffNarrow(percent: int, width: int, text: string)
    ensures PrintBar(percent, width, text) == Err(LengthError) <==> width < 2
    ensures PrintBar(percent, 1, text) == Err(LengthError)
  {
  }

  /** At 50 of 100 the bar's filled segment is half the field, rounded down. */
  lemma HalfwayBar(width: int)
    requires width >= 2
    ensures Percent(50, 100) == 50
    ensures BarSplit(Percent(50, 100), width).0 == (width - 2) / 2
  {
    var w := width - 2;
    assert 50 * w == (w / 2) * 100 + 50 * (w % 2);
    DivUnique(50 * w, 100, w / 2, 50 * (w % 2));
  }

  // ---------------------------------------------------------------- time

  const MsPerHour: int := 3600000
  const MsPerMinute: int := 60000
  const MsPerSecond: int := 1000
  const NsPerMs: int := 1000000
  const HourNs: int := 3600000000000

  /**
   * print_time's `duration_cast`s: hours, then minutes of the rest, then
   * seconds of the rest. For a non-negative duration these are the
   * [HH:]MM:SS fields, with the milliseconds dropped.
   */
  function TimeSplit(dt: int): (r: (int, int, int))
    ensures dt >= 0 ==>
      && 0 <= r.0 && 0 <= r.1 < 60 && 0 <= r.2 < 60
      && r.0 * MsPerHour + r.1 * MsPerMinute + r.2 * MsPerSecond <= dt
      && dt < r.0 * MsPerHour + r.1 * MsPerMinute + r.2 * MsPerSecond + MsPerSecond
    ensures dt >= 0 ==> (r.0 > 0 <==> dt >= MsPerHour)
  {
    var h := TruncDiv(dt, MsPerHour);
    var m := TruncDiv(dt - h * MsPerHour, MsPerMinute);
    var s := TruncDiv(dt - h * MsPerHour - m * MsPerMinute, MsPerSecond);
    (h, m, s)
  }

  /** `std::setw(2) << std::setfill('0') << x`. */
  function TwoDigits(x: int): string {
    PadLeft(IntToString(x), 2, '0')
  }

  /**
   * The insertions of print_time for given field texts: the hours field in
   * magenta when shown, then minutes in cyan and seconds in blue, each bright.
   */
  function TimeLayout(hours: string, minutes: string, seconds: string, showHours: bool): seq<Piece> {
    (if showHours then Styled([FgMagenta, DisplayBright], hours) + Styled([FgDefaultNoUnderscore], ":") else [])
    + Styled([FgCyan, DisplayBright], minutes) + Styled([FgDefaultNoUnderscore], ":")
    + Styled([FgBlue, DisplayBright], seconds) + Controls([ResetDisplay])
  }

  /**
   * print_time (tqdm.h:395-423): the hours field appears when moreThanHour
   * is set or the duration has whole hours; minutes and seconds always.
   */
  function TimePieces(dt: int, moreThanHour: bool): seq<Piece> {
    var (h, m, s) := TimeSplit(dt);
    TimeLayout(TwoDigits(h), TwoDigits(m), TwoDigits(s), moreThanHour || h > 0)
  }

  /** What print_time writes. */
  function PrintTime(dt: int, moreThanHour: bool := false): string {
    Emit(TimePieces(dt, moreThanHour))
  }

  lemma TwoDigitsSmall(x: int)
    requires 0 <= x < 100
    ensures |TwoDigits(x)| == 2
  {
    if x > 0 {
      DigitCountMonotone(x, 99);
      assert DigitCount(99) == 2;
    }
  }

  lemma TimeLayoutFacts(hours: string, minutes: string, seconds: string, showHours: bool)
    ensures Visible(TimeLayout(hours, minutes, seconds, showHours))
      == (if showHours then hours + ":" else "") + minutes + ":" + seconds
    ensures NoEsc(hours) && NoEsc(minutes) && NoEsc(seconds) ==> WellFormed(TimeLayout(hours, minutes, seconds, showHours))
  {
    var hh := Styled([FgMagenta, DisplayBright], hours);
    var colon := Styled([FgDefaultNoUnderscore], ":");
    var mm := Styled([FgCyan, DisplayBright], minutes);
    var ss := Styled([FgBlue, DisplayBright], seconds);
    var reset := Controls([ResetDisplay]);
    ControlConstants();
    AllControlOneTwo(FgMagenta, DisplayBright);
    AllControlOneTwo(FgDefaultNoUnderscore, FgDefaultNoUnderscore);
    AllControlOneTwo(FgCyan, DisplayBright);
    AllControlOneTwo(FgBlue, DisplayBright);
    AllControlOneTwo(ResetDisplay, ResetDisplay);
    StyledFacts([FgMagenta, DisplayBright], hours);
    StyledFacts([FgDefaultNoUnderscore], ":");
    StyledFacts([FgCyan, DisplayBright], minutes);
    StyledFacts([FgBlue, DisplayBright], seconds);
    ControlsFacts([ResetDisplay]);
    var head: seq<Piece> := if showHours then hh + colon else [];
    EmitAppend(hh, colon);
    EmitAppend(head, mm);
    EmitAppend(head + mm, colon);
    EmitAppend(head + mm + colon, ss);
    EmitAppend(head + mm + colon + ss, reset);
    if NoEsc(hours) && NoEsc(minutes) && NoEsc(seconds) {
      WellFormedAppend(hh, colon);
      assert WellFormed(head);
      WellFormedAppend(head, mm);
      WellFormedAppend(head + mm, colon);
      WellFormedAppend(head + mm + colon, ss);
      WellFormedAppend(head + mm + colon + ss, reset);
    }
  }

  /** The visible text of print_time is [HH:]MM:SS, for any duration. */
  lemma TimeVisible(dt: int, moreThanHour: bool)
    ensures var (h, m, s) := TimeSplit(dt);
      && WellFormed(TimePieces(dt, moreThanHour))
      && Visible(TimePieces(dt, moreThanHour))
         == (if moreThanHour || h > 0 then TwoDigits(h) + ":" else "") + TwoDigits(m) + ":" + TwoDigits(s)
  {
    var (h, m, s) := TimeSplit(dt);
    PaddedNumberNoEsc(h, 2, '0');
    PaddedNumberNoEsc(m, 2, '0');
    PaddedNumberNoEsc(s, 2, '0');
    TimeLayoutFacts(TwoDigits(h), TwoDigits(m), TwoDigits(s), moreThanHour || h > 0);
  }

  lemma TimeWellFormed(dt: int, moreThanHour: bool)
    ensures WellFormed(TimePieces(dt, moreThanHour))
  {
    TimeVisible(dt, moreThanHour);
  }

  /** Below 100 hours print_time is 8 columns wide with the hours field and 5 without. */
  lemma TimeWidth(dt: int, moreThanHour: bool)
    requires 0 <= dt < 100 * MsPerHour
    ensures |Visible(TimePieces(dt, moreThanHour))| == if moreThanHour || dt >= MsPerHour then 8 else 5
  {
    var (h, m, s) := TimeSplit(dt);
    TimeVisible(dt, moreThanHour);
    if h >= 100 {
      MulMonotone(100, h, MsPerHour);
      assert false;
    }
    TwoDigitsSmall(h);
    TwoDigitsSmall(m);
    TwoDigitsSmall(s);
  }

  lemma TimeSplitExamples()
    ensures TimeSplit(3725000) == (1, 2, 5)
    ensures TimeSplit(65000) == (0, 1, 5)
  {
    assert TruncDiv(3725000, MsPerHour) == 1;
    assert TruncDiv(3725000 - MsPerHour, MsPerMinute) == 2;
    assert TruncDiv(3725000 - MsPerHour - 2 * MsPerMinute, MsPerSecond) == 5;
    assert TruncDiv(65000, MsPerHour) == 0;
    assert TruncDiv(65000, MsPerMinute) == 1;
    assert TruncDiv(65000 - MsPerMinute, MsPerSecond) == 5;
  }

  lemma TwoDigitsExamples()
    ensures TwoDigits(1) == "01" && TwoDigits(2) == "02" && TwoDigits(5) == "05"
  {
    assert NatToString(1) == "1" && NatToString(2) == "2" && NatToString(5) == "5";
    assert Repeat('0', 1) == "0";
  }

  /** 3,725,000 ms is 01:02:05; 65,000 ms is 01:05 when no hours are asked for. */
  lemma TimeExamples()
    ensures Visible(TimePieces(3725000, false)) == "01:02:05"
    ensures Visible(TimePieces(65000, false)) == "01:05"
  {
    TimeExamplesAt(3725000, 65000);
  }

  lemma TimeExamplesAt(long: int, short: int)
    requires long == 3725000 && short == 65000
    ensures Visible(TimePieces(long, false)) == "01:02:05"
    ensures Visible(TimePieces(short, false)) == "01:05"
  {
    TimeSplitExamples();
    TwoDigitsExamples();
    TimeVisible(long, false);
    TimeVisible(short, false);
    assert "01" + ":" + "02" + ":" + "05" == "01:02:05";
    assert "01" + ":" + "05" == "01:05";
  }

  /** `duration_cast<milliseconds>` of the elapsed nanoseconds. */
  function ElapsedMs(elapsedNs: int): int {
    TruncDiv(elapsedNs, NsPerMs)
  }

  /**
   * tqdm.h:294-297: `m_size * elapsed / m_n`, cast to milliseconds, present
   * only when the count is positive. It projects the total duration of the
   * run, not the time remaining.
   */
  function TotalEstimate(elapsedNs: int, n: int, total: int): (r: Option<int>)
    ensures r.Some? <==> n > 0
  {
    if n > 0 then Some(TruncDiv(TruncDiv(total * elapsedNs, n), NsPerMs)) else None
  }

  /** tqdm.h:292 and 296: one flag for both fields, elapsed over an hour (in ns) or estimate over an hour (in ms). */
  function MoreThanHour(elapsedNs: int, estimate: Option<int>): bool {
    elapsedNs > HourNs || (estimate.Some? && estimate.value > MsPerHour)
  }

  /**
   * The estimate is the total duration extrapolated linearly from the
   * average rate: n items per elapsed time, scaled up to `total` items.
   */
  lemma EstimateIsProjectedTotal(elapsedNs: int, n: int, total: int)
    requires n > 0 && total >= 0 && elapsedNs >= 0
    ensures TotalEstimate(elapsedNs, n, total).Some?
    ensures var e := TotalEstimate(elapsedNs, n, total).value;
      e >= 0 && e * NsPerMs * n <= total * elapsedNs < (e + 1) * NsPerMs * n
  {
    var x := total * elapsedNs;
    assert x >= 0;
    NestedDivBounds(x, n, NsPerMs);
  }

  /** Dividing by a and then by b brackets x between consecutive multiples of b * a. */
  lemma NestedDivBounds(x: int, a: int, b: int)
    requires x >= 0 && a > 0 && b > 0
    ensures var e := x / a / b;
      e >= 0 && e * b * a <= x < (e + 1) * b * a
  {
    var q := x / a;
    var e := q / b;
    assert q * a <= x < q * a + a;
    assert e * b <= q < e * b + b;
    MulMonotone(e * b, q, a);
    MulMonotone(q + 1, e * b + b, a);
    assert (q + 1) * a == q * a + a;
    assert (e + 1) * b == e * b + b;
  }

  /** At completion (count equal to total) the estimate equals the elapsed time. */
  lemma EstimateAtCompletion(elapsedNs: int, total: int)
    requires total > 0 && elapsedNs >= 0
    ensures TotalEstimate(elapsedNs, total, total) == Some(ElapsedMs(elapsedNs))
  {
    DivUnique(total * elapsedNs, total, elapsedNs, 0);
  }

  const SpeedPlaceholder: string := "    ?? it/s"

  /** The placeholder written for a missing estimate, as wide as HH:MM:SS or MM:SS. */
  function EstimatePlaceholder(moreThanHour: bool): string {
    "??" + (if moreThanHour then "      " else "   ")
  }

  /** Two printed durations separated by '/'. */
  function PairLayout(first: seq<Piece>, second: seq<Piece>): seq<Piece> {
    first + [Text("/")] + second
  }

  lemma PairLayoutFacts(first: seq<Piece>, second: seq<Piece>)
    ensures Visible(PairLayout(first, second)) == Visible(first) + "/" + Visible(second)
    ensures WellFormed(first) && WellFormed(second) ==> WellFormed(PairLayout(first, second))
  {
    var slash: seq<Piece> := [Text("/")];
    VisibleOne(Text("/"));
    EmitAppend(first, slash);
    EmitAppend(first + slash, second);
    if WellFormed(first) && WellFormed(second) {
      WellFormedOne(Text("/"));
      WellFormedAppend(first, slash);
      WellFormedAppend(first + slash, second);
    }
  }

  /** The estimate when there is one, its placeholder otherwise. */
  function EstimatePieces(est: Option<int>, moreThanHour: bool): seq<Piece> {
    if est.Some? then TimePieces(est.value, moreThanHour) else [Text(EstimatePlaceholder(moreThanHour))]
  }

  lemma EstimatePiecesFacts(est: Option<int>, moreThanHour: bool)
    ensures WellFormed(EstimatePieces(est, moreThanHour))
    ensures Visible(EstimatePieces(est, moreThanHour))
      == if est.Some? then Visible(TimePieces(est.value, moreThanHour)) else EstimatePlaceholder(moreThanHour)
  {
    if est.Some? {
      TimeWellFormed(est.value, moreThanHour);
    } else {
      VisibleOne(Text(EstimatePlaceholder(moreThanHour)));
      WellFormedOne(Text(EstimatePlaceholder(moreThanHour)));
    }
  }

  /** Both durations of the field, whatever the estimate is. */
  lemma TimePairFacts(dt: int, est: Option<int>, moreThanHour: bool)
    ensures WellFormed(PairLayout(TimePieces(dt, moreThanHour), EstimatePieces(est, moreThanHour)))
    ensures Visible(PairLayout(TimePieces(dt, moreThanHour), EstimatePieces(est, moreThanHour)))
      == Visible(TimePieces(dt, moreThanHour)) + "/"
         + (if est.Some? then Visible(TimePieces(est.value, moreThanHour)) else EstimatePlaceholder(moreThanHour))
  {
    TimeWellFormed(dt, moreThanHour);
    EstimatePiecesFacts(est, moreThanHour);
    PairLayoutFacts(TimePieces(dt, moreThanHour), EstimatePieces(est, moreThanHour));
  }

  /** tqdm.h:290-309: the bracketed elapsed/estimate field. */
  function TimeFieldPieces(elapsedNs: int, n: int, size: Option<int>): seq<Piece> {
    match size
    case Some(t) =>
      var est := TotalEstimate(elapsedNs, n, t);
      var mth := MoreThanHour(elapsedNs, est);
      PairLayout(TimePieces(ElapsedMs(elapsedNs), mth), EstimatePieces(est, mth))
    case None =>
      TimePieces(ElapsedMs(elapsedNs), false)
  }

  /** One bracket of the time field: yellow, then the reset. */
  function Bracket(text: string): seq<Piece> {
    Styled([FgYellow], text) + Controls([ResetDisplay])
  }

  lemma BracketFacts(text: string)
    ensures Visible(Bracket(text)) == text
    ensures NoEsc(text) ==> WellFormed(Bracket(text))
  {
    ControlConstants();
    AllControlOneTwo(FgYellow, ResetDisplay);
    StyledFacts([FgYellow], text);
    ControlsFacts([ResetDisplay]);
    EmitAppend(Styled([FgYellow], text), Controls([ResetDisplay]));
    if NoEsc(text) {
      WellFormedAppend(Styled([FgYellow], text), Controls([ResetDisplay]));
    }
  }

  /** The insertions of the suffix around a time field: the rate text, then the field in yellow brackets. */
  function SuffixLayout(speed: string, field: seq<Piece>): seq<Piece> {
    [Text(speed)] + Bracket("[") + field + Bracket("]")
  }

  lemma SuffixLayoutFacts(speed: string, field: seq<Piece>)
    ensures Visible(SuffixLayout(speed, field)) == speed + "[" + Visible(field) + "]"
    ensures NoEsc(speed) && WellFormed(field) ==> WellFormed(SuffixLayout(speed, field))
  {
    var a: seq<Piece> := [Text(speed)];
    var open := Bracket("[");
    var close := Bracket("]");
    BracketFacts("[");
    BracketFacts("]");
    VisibleOne(Text(speed));
    EmitAppend(a, open);
    EmitAppend(a + open, field);
    EmitAppend(a + open + field, close);
    if NoEsc(speed) && WellFormed(field) {
      WellFormedOne(Text(speed));
      WellFormedAppend(a, open);
      WellFormedAppend(a + open, field);
      WellFormedAppend(a + open + field, close);
    }
  }

  /** The suffix: the rate text (or its placeholder) and the bracketed time field. */
  function SuffixPieces(speed: string, elapsedNs: int, n: int, size: Option<int>): seq<Piece> {
    SuffixLayout(speed, TimeFieldPieces(elapsedNs, n, size))
  }

  lemma ElapsedMsFacts(elapsedNs: int)
    requires elapsedNs >= 0
    ensures ElapsedMs(elapsedNs) >= 0
    ensures ElapsedMs(elapsedNs) >= MsPerHour <==> elapsedNs >= HourNs
    ensures ElapsedMs(elapsedNs) < 100 * MsPerHour <==> elapsedNs < 100 * HourNs
  {
  }

  /**
   * With no estimate (count not positive) the placeholder is exactly as wide
   * as the elapsed field, except at exactly one hour of elapsed time, where
   * the elapsed field shows its hours but the strict `>` of tqdm.h:292 does
   * not set the flag.
   */
  lemma PlaceholderAligned(elapsedNs: int)
    requires 0 <= elapsedNs < 100 * HourNs
    ensures var mth := MoreThanHour(elapsedNs, None);
      |EstimatePlaceholder(mth)| == |Visible(TimePieces(ElapsedMs(elapsedNs), mth))| <==> elapsedNs != HourNs
  {
    ElapsedMsFacts(elapsedNs);
    TimeWidth(ElapsedMs(elapsedNs), MoreThanHour(elapsedNs, None));
  }

  /**
   * When both fields are printed they share the hours flag and so have the
   * same width, unless one of them is exactly one hour (see PlaceholderAligned).
   */
  lemma EstimateAligned(elapsedNs: int, n: int, t: int)
    requires 0 <= elapsedNs < 100 * HourNs && n > 0 && t >= 0
    requires TotalEstimate(elapsedNs, n, t).value < 100 * MsPerHour
    requires elapsedNs != HourNs && TotalEstimate(elapsedNs, n, t).value != MsPerHour
    ensures var est := TotalEstimate(elapsedNs, n, t).value;
      var mth := MoreThanHour(elapsedNs, Some(est));
      |Visible(TimePieces(ElapsedMs(elapsedNs), mth))| == |Visible(TimePieces(est, mth))|
  {
    var est := TotalEstimate(elapsedNs, n, t).value;
    EstimateIsProjectedTotal(elapsedNs, n, t);
    ElapsedMsFacts(elapsedNs);
    TimeWidth(ElapsedMs(elapsedNs), MoreThanHour(elapsedNs, Some(est)));
    TimeWidth(est, MoreThanHour(elapsedNs, Some(est)));
  }

  /** The time field shows elapsed/estimate (or the placeholder) with a total, the elapsed time alone without. */
  lemma TimeFieldVisible(elapsedNs: int, n: int, size: Option<int>)
    ensures WellFormed(TimeFieldPieces(elapsedNs, n, size))
    ensures size.Some? ==>
      var est := TotalEstimate(elapsedNs, n, size.value);
      var mth := MoreThanHour(elapsedNs, est);
      Visible(TimeFieldPieces(elapsedNs, n, size))
        == Visible(TimePieces(ElapsedMs(elapsedNs), mth)) + "/"
           + (if est.Some? then Visible(TimePieces(est.value, mth)) else EstimatePlaceholder(mth))
    ensures size.None? ==> Visible(TimeFieldPieces(elapsedNs, n, size)) == Visible(TimePieces(ElapsedMs(elapsedNs), false))
  {
    if size.Some? {
      var est := TotalEstimate(elapsedNs, n, size.value);
      TimePairFacts(ElapsedMs(elapsedNs), est, MoreThanHour(elapsedNs, est));
    } else {
      TimeWellFormed(ElapsedMs(elapsedNs), false);
    }
  }

  /** The terminal shows the rate text and the bracketed time field of the suffix. */
  lemma SuffixVisible(speed: string, elapsedNs: int, n: int, size: Option<int>)
    ensures Visible(SuffixPieces(speed, elapsedNs, n, size)) == speed + "[" + Visible(TimeFieldPieces(elapsedNs, n, size)) + "]"
    ensures NoEsc(speed) ==> WellFormed(SuffixPieces(speed, elapsedNs, n, size))
  {
    TimeFieldVisible(elapsedNs, n, size);
    SuffixLayoutFacts(speed, TimeFieldPieces(elapsedNs, n, size));
  }

  // ---------------------------------------------------------------- the line

  /**
   * tqdm.h:326: the columns left for the bar, the column count minus the
   * length of prefix and suffix once the control sequences are removed.
   */
  function FreeSpace(cols: int, prefix: string, suffix: string): int {
    cols - |Strip(prefix + suffix)|
  }

  /** The guard of tqdm.h:329 as written: any positive free space draws a bar. */
  predicate BarFitsAsWritten(free: int) {
    free > 0
  }

  /** The corrected guard: the free space holds at least the two delimiters. */
  predicate BarFits(free: int) {
    free >= 2
  }

  /**
   * tqdm.h:317-335: the prefix, the bar when it fits, the suffix and the
   * newline, in that order.
   */
  function ComposeLine(prefix: seq<Piece>, suffix: seq<Piece>, percent: int, cols: int, message: string): string {
    var free := FreeSpace(cols, Emit(prefix), Emit(suffix));
    Emit(prefix + BarIfFits(percent, free, message) + suffix + [Text("\n")])
  }

  /** The bar's insertions when the guard admits it, nothing otherwise. */
  function BarIfFits(percent: int, free: int, message: string): seq<Piece> {
    if BarFits(free) then BarPieces(percent, free, message) else []
  }

  /** What the terminal shows for BarIfFits. */
  function ShownBar(free: int, message: string): string {
    if BarFits(free) then "|" + Resize(message, free - 2, ' ') + "|" else ""
  }

  lemma BarIfFitsShape(percent: int, free: int, message: string)
    requires NoEsc(message)
    ensures WellFormed(BarIfFits(percent, free, message))
    ensures Visible(BarIfFits(percent, free, message)) == ShownBar(free, message)
    ensures |ShownBar(free, message)| == if BarFits(free) then free else 0
  {
    if BarFits(free) {
      BarShape(percent, free, message);
    }
  }

  /** The same with the guard as written, where print_bar's exception escapes. */
  function ComposeLineAsWritten(prefix: seq<Piece>, suffix: seq<Piece>, percent: int, cols: int, message: string)
    : Result<string, BarError>
  {
    var free := FreeSpace(cols, Emit(prefix), Emit(suffix));
    if !BarFitsAsWritten(free) then Ok(Emit(prefix) + Emit(suffix) + "\n")
    else
      match PrintBar(percent, free, message)
      case Ok(bar) => Ok(Emit(prefix) + bar + Emit(suffix) + "\n")
      case Err(e) => Err(e)
  }

  /** Any prefix, bar and suffix followed by the newline write their texts in order and show their visible texts in order. */
  lemma LineFacts(prefix: seq<Piece>, bar: seq<Piece>, suffix: seq<Piece>)
    ensures Emit(prefix + bar + suffix + [Text("\n")]) == Emit(prefix) + Emit(bar) + Emit(suffix) + "\n"
    ensures WellFormed(prefix) && WellFormed(bar) && WellFormed(suffix) ==>
      && Strip(Emit(prefix + bar + suffix + [Text("\n")])) == Visible(prefix) + Visible(bar) + Visible(suffix) + "\n"
      && |Strip(Emit(prefix + bar + suffix + [Text("\n")]))| == |Visible(prefix)| + |Visible(bar)| + |Visible(suffix)| + 1
  {
    var nl: seq<Piece> := [Text("\n")];
    VisibleOne(Text("\n"));
    EmitAppend(prefix + bar + suffix, nl);
    EmitAppend(prefix + bar, suffix);
    EmitAppend(prefix, bar);
    if WellFormed(prefix) && WellFormed(bar) && WellFormed(suffix) {
      WellFormedOne(Text("\n"));
      WellFormedAppend(prefix, bar);
      WellFormedAppend(prefix + bar, suffix);
      WellFormedAppend(prefix + bar + suffix, nl);
      StripEmitAlone(prefix + bar + suffix + nl);
    }
  }

  /** The free space is measured on the visible text of prefix and suffix. */
  lemma FreeSpaceVisible(cols: int, prefix: seq<Piece>, suffix: seq<Piece>)
    requires WellFormed(prefix) && WellFormed(suffix)
    ensures FreeSpace(cols, Emit(prefix), Emit(suffix)) == cols - |Visible(prefix)| - |Visible(suffix)|
  {
    EmitAppend(prefix, suffix);
    WellFormedAppend(prefix, suffix);
    StripEmitAlone(prefix + suffix);
  }

  /**
   * The free space is measured on visible text; the composed line shows the
   * prefix, the bar when it fits, the suffix and a newline, so it is exactly
   * `cols` columns wide whenever the bar is drawn, and cols - free otherwise.
   */
  lemma LineWidth(prefix: seq<Piece>, suffix: seq<Piece>, percent: int, cols: int, message: string)
    requires WellFormed(prefix) && WellFormed(suffix) && NoEsc(message)
    ensures FreeSpace(cols, Emit(prefix), Emit(suffix)) == cols - |Visible(prefix)| - |Visible(suffix)|
    ensures var free := FreeSpace(cols, Emit(prefix), Emit(suffix));
      && Strip(ComposeLine(prefix, suffix, percent, cols, message))
         == Visible(prefix) + ShownBar(free, message) + Visible(suffix) + "\n"
      && |Strip(ComposeLine(prefix, suffix, percent, cols, message))| == (if BarFits(free) then cols else cols - free) + 1
  {
    FreeSpaceVisible(cols, prefix, suffix);
    var free := FreeSpace(cols, Emit(prefix), Emit(suffix));
    BarIfFitsShape(percent, free, message);
    LineFacts(prefix, BarIfFits(percent, free, message), suffix);
  }

  /**
   * The written guard and the model's agree except at a free space of
   * exactly 1, where the as-written code asks print_bar for a segment of
   * length -1 and throws.
   */
  lemma WidthOneBarThrows(prefix: seq<Piece>, suffix: seq<Piece>, percent: int, cols: int, message: string)
    ensures var free := FreeSpace(cols, Emit(prefix), Emit(suffix));
      && (free == 1 <==> ComposeLineAsWritten(prefix, suffix, percent, cols, message) == Err(LengthError))
      && (free != 1 ==> ComposeLineAsWritten(prefix, suffix, percent, cols, message)
                        == Ok(ComposeLine(prefix, suffix, percent, cols, message)))
  {
    var free := FreeSpace(cols, Emit(prefix), Emit(suffix));
    var bar := BarIfFits(percent, free, message);
    var line := Emit(prefix) + Emit(bar) + Emit(suffix) + "\n";
    LineFacts(prefix, bar, suffix);
    if free <= 0 {
      assert Emit(bar) == [];
      assert Emit(prefix) + Emit(bar) == Emit(prefix);
    } else if free == 1 {
      assert PrintBar(percent, free, message) == Err(LengthError);
    } else {
      assert PrintBar(percent, free, message) == Ok(Emit(bar));
    }
  }
}
