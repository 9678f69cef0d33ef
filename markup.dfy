/**
 * What print_progress_line writes into its string streams, and how it
 * measures them: the items inserted with `<<` (plain text or control
 * sequences) and the `std::regex_replace(…, std::regex("\033\\[\\d+\\w"), "")`
 * of include/tqdm/tqdm.h:326 that removes control sequences before the
 * visible length is taken.
 */
module Markup {
  import opened Format
  import opened ConsoleCodes

  /**
   * The length of a match of the ECMAScript pattern `\033\[\d+\w` at the
   * start of s, or 0 when there is none. `\d+` is greedy, so it first takes
   * the whole digit run and needs a word character after it; failing that it
   * backtracks by one digit, which then serves as the `\w`.
   */
  function MatchLength(s: string): (m: nat)
    ensures m <= |s|
    ensures m != 0 ==> m >= 4 && s[0] == Esc
  {
    if |s| < 2 || s[0] != Esc || s[1] != '[' then 0
    else
      var k := LeadingDigits(s[2..]);
      if k == 0 then 0
      else if 2 + k < |s| && IsWordChar(s[2 + k]) then 3 + k
      else if k >= 2 then 2 + k
      else 0
  }

  predicate NoEsc(s: string) {
    forall i :: 0 <= i < |s| ==> s[i] != Esc
  }

  lemma NoEscAppend(a: string, b: string)
    requires NoEsc(a) && NoEsc(b)
    ensures NoEsc(a + b)
  {
    forall i | 0 <= i < |a + b| ensures (a + b)[i] != Esc {
      if i < |a| {
        assert (a + b)[i] == a[i];
      } else {
        assert (a + b)[i] == b[i - |a|];
      }
    }
  }

  /**
   * `std::regex_replace(s, re, "")`: scanning from the left, every match is
   * removed and the search resumes after it; where there is no match one
   * character is kept.
   */
  function Strip(s: string): (r: string)
    ensures |r| <= |s|
    decreases |s|
  {
    if s == [] then []
    else
      var m := MatchLength(s);
      if m != 0 then Strip(s[m..]) else [s[0]] + Strip(s[1..])
  }

  /**
   * The form the pattern removes whole, whatever follows it: ESC '[', decimal
   * digits, and one final character that is a letter or '_'.
   */
  predicate IsControl(s: string) {
    |s| >= 4 && s[0] == Esc && s[1] == '[' && AllDigits(s[2..|s| - 1])
    && IsWordChar(s[|s| - 1]) && !IsDigit(s[|s| - 1])
  }

  /** Text without ESC passes through the strip unchanged, whatever follows it. */
  lemma {:induction false} StripText(t: string, rest: string)
    requires NoEsc(t)
    ensures Strip(t + rest) == t + Strip(rest)
  {
    if t == [] {
      assert t + rest == rest;
    } else {
      var s := t + rest;
      assert s[0] == t[0] != Esc;
      assert MatchLength(s) == 0;
      assert s[1..] == t[1..] + rest;
      assert NoEsc(t[1..]);
      StripText(t[1..], rest);
      var tail := Strip(rest);
      calc {
        Strip(s);
        [t[0]] + Strip(t[1..] + rest);
        [t[0]] + (t[1..] + tail);
        { assert t == [t[0]] + t[1..]; }
        t + tail;
      }
    }
  }

  /** A control sequence is removed whole, whatever follows it. */
  lemma StripControl(c: string, rest: string)
    requires IsControl(c)
    ensures Strip(c + rest) == Strip(rest)
  {
    var s := c + rest;
    var digits := c[2..|c| - 1];
    assert s[2..] == digits + ([c[|c| - 1]] + rest);
    LeadingDigitsOf(digits, [c[|c| - 1]] + rest);
    assert s[2 + |digits|] == c[|c| - 1];
    assert MatchLength(s) == |c|;
    assert s[|c|..] == rest;
  }

  /** Every SGR constant is removed by the strip. */
  lemma SgrIsControl(s: string)
    requires IsSgr(s)
    ensures IsControl(s)
  {
  }

  /** A rendered code with a non-negative parameter and a one-letter suffix is removed by the strip. */
  lemma RenderIsControl(c: CodeWithIntParameter)
    requires c.n >= 0 && |c.suffix| == 1 && IsWordChar(c.suffix[0]) && !IsDigit(c.suffix[0])
    ensures IsControl(c.Render())
  {
    var s := c.Render();
    assert s == [Esc, '['] + NatToString(c.n) + c.suffix;
    assert s[2..|s| - 1] == NatToString(c.n);
  }

  /**
   * The two parameterless erase codes are not in the strippable form: the
   * strip leaves them in place.
   */
  lemma ParameterlessErasesSurvive()
    ensures Strip(EraseDisplayDown) == EraseDisplayDown
    ensures Strip(EraseEndOfLine) == EraseEndOfLine
  {
    assert LeadingDigits(EraseDisplayDown[2..]) == 0;
    assert MatchLength(EraseDisplayDown) == 0;
    assert Strip(EraseDisplayDown[1..]) == EraseDisplayDown[1..];
    assert LeadingDigits(EraseEndOfLine[2..]) == 0;
    assert MatchLength(EraseEndOfLine) == 0;
    assert Strip(EraseEndOfLine[1..]) == EraseEndOfLine[1..];
  }

  /** Backtracking: with no word character after the digits, the last digit is the `\w`. */
  lemma StripBacktracks()
    ensures Strip("\U{1B}[12;") == ";"
    ensures Strip("\U{1B}[1;") == "\U{1B}[1;"
  {
    var a := "\U{1B}[12;";
    assert a[2..] == "12;";
    assert LeadingDigits("12;") == 2 by {
      LeadingDigitsOf("12", ";");
    }
    assert MatchLength(a) == 4;
    assert a[4..] == ";";
    var b := "\U{1B}[1;";
    assert b[2..] == "1;";
    assert LeadingDigits("1;") == 1 by {
      LeadingDigitsOf("1", ";");
    }
    assert MatchLength(b) == 0;
    assert Strip(b[1..]) == b[1..];
  }

  /** One item inserted into a stream with `<<`. */
  datatype Piece = Text(text: string) | Control(code: string)

  function PieceString(p: Piece): string {
    match p
    case Text(t) => t
    case Control(c) => c
  }

  /** The characters a sequence of insertions writes. */
  function Emit(ps: seq<Piece>): string {
    if ps == [] then [] else PieceString(ps[0]) + Emit(ps[1..])
  }

  /** What a terminal shows of them: the text without the control sequences. */
  function Visible(ps: seq<Piece>): string {
    if ps == [] then []
    else (match ps[0] case Text(t) => t case Control(_) => []) + Visible(ps[1..])
  }

  predicate PieceOk(p: Piece) {
    match p
    case Text(t) => NoEsc(t)
    case Control(c) => IsControl(c)
  }

  /** Every text piece is free of ESC and every control piece is in the strippable form. */
  predicate WellFormed(ps: seq<Piece>) {
    ps == [] || (PieceOk(ps[0]) && WellFormed(ps[1..]))
  }

  lemma {:induction false} EmitAppend(a: seq<Piece>, b: seq<Piece>)
    ensures Emit(a + b) == Emit(a) + Emit(b)
    ensures Visible(a + b) == Visible(a) + Visible(b)
  {
    if a == [] {
      assert a + b == b;
    } else {
      assert (a + b)[1..] == a[1..] + b;
      EmitAppend(a[1..], b);
    }
  }

  /**
   * Stripping what well-formed insertions wrote leaves exactly their visible
   * text, and the result composes with whatever is written after them.
   */
  lemma {:induction false} StripEmit(ps: seq<Piece>, rest: string)
    requires WellFormed(ps)
    ensures Strip(Emit(ps) + rest) == Visible(ps) + Strip(rest)
  {
    if ps == [] {
      assert Emit(ps) + rest == rest;
    } else {
      var head := PieceString(ps[0]);
      var more := Emit(ps[1..]) + rest;
      assert Emit(ps) + rest == head + more;
      StripEmit(ps[1..], rest);
      var tail := Visible(ps[1..]) + Strip(rest);
      match ps[0]
      case Text(t) =>
        StripText(t, more);
        assert Visible(ps) == t + Visible(ps[1..]);
        Associative(t, Visible(ps[1..]), Strip(rest));
      case Control(c) =>
        StripControl(c, more);
        assert Visible(ps) == Visible(ps[1..]);
    }
  }

  lemma Associative<T>(a: seq<T>, b: seq<T>, c: seq<T>)
    ensures a + (b + c) == (a + b) + c
  {
  }

  lemma {:induction false} WellFormedAppend(a: seq<Piece>, b: seq<Piece>)
    requires WellFormed(a) && WellFormed(b)
    ensures WellFormed(a + b)
  {
    if a == [] {
      assert a + b == b;
    } else {
      assert (a + b)[1..] == a[1..] + b;
      WellFormedAppend(a[1..], b);
    }
  }

  lemma WellFormedOne(p: Piece)
    requires PieceOk(p)
    ensures WellFormed([p])
  {
    assert [p][1..] == [];
  }

  /** A run of control sequences with no text between them. */
  function Controls(codes: seq<string>): seq<Piece> {
    if codes == [] then [] else [Control(codes[0])] + Controls(codes[1..])
  }

  lemma ControlsOneTwo(c1: string, c2: string)
    ensures Controls([c1]) == [Control(c1)]
    ensures Controls([c1, c2]) == [Control(c1), Control(c2)]
  {
    assert [c1][1..] == [];
    assert [c1, c2][1..] == [c2];
    assert [c2][1..] == [];
  }

  /** Text written after the control sequences that style it. */
  function Styled(codes: seq<string>, text: string): seq<Piece> {
    Controls(codes) + [Text(text)]
  }

  predicate AllControl(codes: seq<string>) {
    forall i :: 0 <= i < |codes| ==> IsControl(codes[i])
  }

  lemma AllControlOneTwo(c1: string, c2: string)
    requires IsControl(c1) && IsControl(c2)
    ensures AllControl([c1]) && AllControl([c1, c2])
  {
  }

  lemma {:induction false} ControlsFacts(codes: seq<string>)
    ensures Visible(Controls(codes)) == []
    ensures AllControl(codes) ==> WellFormed(Controls(codes))
  {
    if codes != [] {
      var rest := Controls(codes[1..]);
      ControlsFacts(codes[1..]);
      EmitAppend([Control(codes[0])], rest);
      VisibleOne(Control(codes[0]));
      if AllControl(codes) {
        assert AllControl(codes[1..]) by {
          forall i | 0 <= i < |codes| - 1 ensures IsControl(codes[1..][i]) {
            assert codes[1..][i] == codes[i + 1];
          }
        }
        WellFormedOne(Control(codes[0]));
        WellFormedAppend([Control(codes[0])], rest);
      }
    }
  }

  /** The terminal shows only the text of a styled run; it is well formed when the codes are controls and the text has no ESC. */
  lemma StyledFacts(codes: seq<string>, text: string)
    ensures Visible(Styled(codes, text)) == text
    ensures AllControl(codes) && NoEsc(text) ==> WellFormed(Styled(codes, text))
  {
    ControlsFacts(codes);
    EmitAppend(Controls(codes), [Text(text)]);
    VisibleOne(Text(text));
    if AllControl(codes) && NoEsc(text) {
      WellFormedOne(Text(text));
      WellFormedAppend(Controls(codes), [Text(text)]);
    }
  }

  lemma VisibleOne(p: Piece)
    ensures Visible([p]) == (if p.Text? then p.text else [])
    ensures Emit([p]) == PieceString(p)
  {
    assert [p][1..] == [];
  }

  lemma StripEmitAlone(ps: seq<Piece>)
    requires WellFormed(ps)
    ensures Strip(Emit(ps)) == Visible(ps)
  {
    StripEmit(ps, []);
    assert Emit(ps) + [] == Emit(ps);
    assert Visible(ps) + [] == Visible(ps);
  }
}
