/**
 * The terminal control sequences of include/tqdm/console_codes.h. They are
 * ECMA-48 control sequences: CSI (ESC '[', section 8.3.16 of ECMA-48), decimal
 * parameters and a final character naming the function.
 */
module ConsoleCodes {
  import opened Wrappers
  import opened Format

  const Esc: char := '\U{1B}'

  /**
   * A control sequence with one integer parameter. The fields are `const` in
   * the source, so a value of this datatype is never changed in place.
   */
  datatype CodeWithIntParameter = CodeWithIntParameter(suffix: string, n: int := 1) {

    /** `code(k)`: a new code with the same final characters and parameter k. */
    function WithParameter(k: int): (r: CodeWithIntParameter)
      ensures r.suffix == suffix && r.n == k
      ensures r == this.(n := k)
    {
      CodeWithIntParameter(suffix, k)
    }

    /** `out << code`: ESC, '[', the parameter in decimal, then the suffix. */
    function Render(): (s: string)
      ensures |s| >= 3 + |suffix| && s[0] == Esc && s[1] == '['
      ensures s[|s| - |suffix|..] == suffix
    {
      [Esc, '['] + IntToString(n) + suffix
    }
  }

  // Cursor movement (CUU 8.3.22, CUD 8.3.19, CUF 8.3.20, CUB 8.3.18, CHA 8.3.9).
  const MoveCursorUp := CodeWithIntParameter("A")
  const MoveCursorDown := CodeWithIntParameter("B")
  const MoveCursorRight := CodeWithIntParameter("C")
  const MoveCursorLeft := CodeWithIntParameter("D")
  // ECMA-48 names E "cursor next line" (CNL, 8.3.12) and F "cursor preceding
  // line" (CPL, 8.3.13); the source's names have them the other way round and
  // the model keeps the final characters as written.
  const MoveCursorToCol1Up := CodeWithIntParameter("E")
  const MoveCursorToCol1Down := CodeWithIntParameter("F")
  const MoveCursorToCol := CodeWithIntParameter("G")
  // Insert and delete lines (IL 8.3.67, DL 8.3.32).
  const InsertLines := CodeWithIntParameter("L")
  const DeleteLines := CodeWithIntParameter("M")

  // Erasing (ED 8.3.39, EL 8.3.41).
  const EraseDisplayDown: string := "\U{1B}[J"
  const EraseDisplayUp: string := "\U{1B}[1J"
  const EraseDisplay: string := "\U{1B}[2J"
  const EraseEndOfLine: string := "\U{1B}[K"
  const EraseStartOfLine: string := "\U{1B}[1K"
  const EraseLine: string := "\U{1B}[2K"

  // Select graphic rendition (SGR 8.3.117): attributes and colours.
  const ResetDisplay: string := "\U{1B}[0m"
  const DisplayBright: string := "\U{1B}[1m"
  const DisplayDim: string := "\U{1B}[2m"
  const DisplayUnderscore: string := "\U{1B}[4m"
  const DisplayBlink: string := "\U{1B}[5m"
  const DisplayReverse: string := "\U{1B}[7m"
  const DisplayHidden: string := "\U{1B}[8m"

  const FgBlack: string := "\U{1B}[30m"
  const FgRed: string := "\U{1B}[31m"
  const FgGreen: string := "\U{1B}[32m"
  const FgYellow: string := "\U{1B}[33m"
  const FgBlue: string := "\U{1B}[34m"
  const FgMagenta: string := "\U{1B}[35m"
  const FgCyan: string := "\U{1B}[36m"
  const FgWhite: string := "\U{1B}[37m"
  const FgDefaultUnderscore: string := "\U{1B}[38m"
  const FgDefaultNoUnderscore: string := "\U{1B}[39m"

  const BgBlack: string := "\U{1B}[40m"
  const BgRed: string := "\U{1B}[41m"
  const BgGreen: string := "\U{1B}[42m"
  const BgYellow: string := "\U{1B}[43m"
  const BgBlue: string := "\U{1B}[44m"
  const BgMagenta: string := "\U{1B}[45m"
  const BgCyan: string := "\U{1B}[46m"
  const BgWhite: string := "\U{1B}[47m"
  const BgDefault: string := "\U{1B}[49m"

  /** Every attribute and colour constant of the header. */
  const SgrConstants: seq<string> := [
    ResetDisplay, DisplayBright, DisplayDim, DisplayUnderscore, DisplayBlink, DisplayReverse, DisplayHidden,
    FgBlack, FgRed, FgGreen, FgYellow, FgBlue, FgMagenta, FgCyan, FgWhite, FgDefaultUnderscore, FgDefaultNoUnderscore,
    BgBlack, BgRed, BgGreen, BgYellow, BgBlue, BgMagenta, BgCyan, BgWhite, BgDefault]

  /** The SGR form: ESC '[' one or more decimal digits 'm'. */
  predicate IsSgr(s: string) {
    |s| >= 4 && s[0] == Esc && s[1] == '[' && s[|s| - 1] == 'm' && AllDigits(s[2..|s| - 1])
  }

  /**
   * Reads a control sequence with one decimal parameter back: ESC '[', a
   * non-empty run of digits, and a non-empty suffix not starting with a digit.
   */
  function ParseCode(s: string): Option<CodeWithIntParameter> {
    if |s| < 3 || s[0] != Esc || s[1] != '[' then None
    else
      var k := LeadingDigits(s[2..]);
      assert s[2..2 + k] == s[2..][..k];
      if k == 0 || 2 + k == |s| then None
      else Some(CodeWithIntParameter(s[2 + k..], DigitsValue(s[2..2 + k])))
  }

  /** The length of the run of decimal digits s starts with. */
  function LeadingDigits(s: string): (k: nat)
    ensures k <= |s| && AllDigits(s[..k])
    ensures k < |s| ==> !IsDigit(s[k])
  {
    if s != [] && IsDigit(s[0]) then
      var k := 1 + LeadingDigits(s[1..]);
      assert s[..k] == [s[0]] + s[1..][..k - 1];
      k
    else 0
  }

  /** A maximal digit run followed by a non-digit has exactly that length. */
  lemma {:induction false} LeadingDigitsOf(digits: string, rest: string)
    requires AllDigits(digits)
    requires rest != [] ==> !IsDigit(rest[0])
    ensures LeadingDigits(digits + rest) == |digits|
  {
    if digits == [] {
      assert digits + rest == rest;
    } else {
      assert (digits + rest)[1..] == digits[1..] + rest;
      LeadingDigitsOf(digits[1..], rest);
    }
  }

  /**
   * Rendering and parsing are inverse for a non-negative parameter and a
   * suffix that does not start with a digit (all the header's codes).
   */
  lemma RenderRoundTrip(c: CodeWithIntParameter)
    requires c.n >= 0 && |c.suffix| >= 1 && !IsDigit(c.suffix[0])
    ensures ParseCode(c.Render()) == Some(c)
  {
    var s := c.Render();
    var digits := NatToString(c.n);
    assert s == [Esc, '['] + digits + c.suffix;
    assert s[2..] == digits + c.suffix;
    LeadingDigitsOf(digits, c.suffix);
    assert s[2..2 + |digits|] == digits;
    assert s[2 + |digits|..] == c.suffix;
    NatToStringRoundTrip(c.n);
  }

  /** `code(k)` changes only the parameter: the rendering reads back as (suffix, k). */
  lemma WithParameterRenders(c: CodeWithIntParameter, k: int)
    requires k >= 0 && |c.suffix| >= 1 && !IsDigit(c.suffix[0])
    ensures ParseCode(c.WithParameter(k).Render()) == Some(CodeWithIntParameter(c.suffix, k))
    ensures c.WithParameter(k).Render() == [Esc, '['] + NatToString(k) + c.suffix
  {
    RenderRoundTrip(c.WithParameter(k));
  }

  /** The parameter defaults to 1: move_cursor_up is CUU of one line and EL erases the whole line. */
  lemma CursorUpAndEraseLine()
    ensures MoveCursorUp.Render() == "\U{1B}[1A"
    ensures ParseCode(MoveCursorUp.Render()) == Some(CodeWithIntParameter("A", 1))
    ensures ParseCode(EraseLine) == Some(CodeWithIntParameter("K", 2))
  {
    assert NatToString(1) == "1";
    RenderRoundTrip(MoveCursorUp);
    assert EraseLine == CodeWithIntParameter("K", 2).Render() by {
      assert NatToString(2) == "2";
    }
    RenderRoundTrip(CodeWithIntParameter("K", 2));
  }

  /** Every attribute and colour constant has the form ESC '[' digits 'm'. */
  lemma SgrConstantsForm()
    ensures forall i :: 0 <= i < |SgrConstants| ==> IsSgr(SgrConstants[i])
  {
  }

  /** erase_display_down and erase_end_of_line carry no parameter digits. */
  lemma ParameterlessErases()
    ensures ParseCode(EraseDisplayDown) == None && ParseCode(EraseEndOfLine) == None
    ensures !IsDigit(EraseDisplayDown[2]) && !IsDigit(EraseEndOfLine[2])
  {
    assert LeadingDigits(EraseDisplayDown[2..]) == 0;
    assert LeadingDigits(EraseEndOfLine[2..]) == 0;
  }
}
