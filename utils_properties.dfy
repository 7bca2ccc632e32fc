/** What the IRC formatting decoder promises, stated over `Utils.Scan` and `Utils.Decode`. */
module UtilsProperties {
  import opened Wrappers
  import opened JavaLang
  import opened FormattedText
  import opened Utils

  // ---------------------------------------------------------------------------
  // Colour codes
  // ---------------------------------------------------------------------------

  /**
   * The two characters that `Integer.parseInt` accepts and that then name a
   * colour: two digits, `+` and a digit, or `-0` (every other negative value is
   * below the table).
   */
  predicate WellFormedCode(first: char, second: char) {
    || (IsDigit(first) && IsDigit(second))
    || (first == '+' && IsDigit(second))
    || (first == '-' && second == '0')
  }

  /** The two-digit code of `d`, as a user would type it. */
  function TwoDigitCode(d: nat): (code: string)
    requires d < 100
    ensures |code| == 2 && IsDigit(code[0]) && IsDigit(code[1])
  {
    [DigitChar(d / 10), DigitChar(d % 10)]
  }

  lemma TwoDigitCodeRoundTrip(d: nat)
    requires d < 100
    ensures ParseIntPair(TwoDigitCode(d)[0], TwoDigitCode(d)[1]) == Some(d)
  {
    assert 10 * (d / 10) + d % 10 == d;
  }

  /** Two digits after the introducer select colour `value mod PaletteSize`. */
  lemma ForegroundIsCodeModuloPalette(text: string)
    requires |text| >= 2 && IsDigit(text[0]) && IsDigit(text[1])
    ensures ParseForegroundColor(text)
         == Success((10 * DigitValue(text[0]) + DigitValue(text[1])) % PaletteSize)
  {
  }

  /** The two-digit code of `d` selects colour `d mod PaletteSize`. */
  lemma TwoDigitCodeColor(d: nat)
    requires d < 100
    ensures ParseForegroundColor(TwoDigitCode(d)) == Success(d % PaletteSize)
  {
    var code := TwoDigitCode(d);
    TwoDigitCodeRoundTrip(d);
    assert ParseIntPair(code[0], code[1]) == Some(d);
    assert JavaRem(d, PaletteSize) == d % PaletteSize;
  }

  /** Codes `d` and `d + PaletteSize` select the same colour. */
  lemma CongruentCodesSelectSameColor(d: nat)
    requires d + PaletteSize < 100
    ensures ParseForegroundColor(TwoDigitCode(d)) == Success(d % PaletteSize)
    ensures ParseForegroundColor(TwoDigitCode(d + PaletteSize)) == ParseForegroundColor(TwoDigitCode(d))
  {
    TwoDigitCodeColor(d);
    TwoDigitCodeColor(d + PaletteSize);
    ShiftByPalette(d);
  }

  lemma ShiftByPalette(d: nat)
    ensures (d + PaletteSize) % PaletteSize == d % PaletteSize
  {
  }

  lemma CodesZeroAndSixteenCoincide()
    ensures ParseForegroundColor("00") == ParseForegroundColor("16") == Success(0)
  {
    CongruentCodesSelectSameColor(0);
    assert TwoDigitCode(0) == "00" && TwoDigitCode(16) == "16";
  }

  /** A sign followed by a digit: `+d` is colour d, `-d` names no colour unless d is 0. */
  lemma SignedCodes(text: string)
    requires |text| >= 2 && IsDigit(text[1])
    ensures text[0] == '+' ==> ParseForegroundColor(text) == Success(DigitValue(text[1]))
    ensures text[0] == '-' && text[1] != '0' ==> ParseForegroundColor(text) == Failure(UnknownColor)
    ensures text[0] == '-' && text[1] == '0' ==> ParseForegroundColor(text) == Success(0)
  {
  }

  /** When a foreground code is read, and why it is not. */
  lemma ForegroundSucceedsIff(text: string)
    ensures ParseForegroundColor(text).Success? <==> |text| >= 2 && WellFormedCode(text[0], text[1])
    ensures |text| < 2 ==> ParseForegroundColor(text) == Failure(MissingCode)
    ensures |text| >= 2 && ParseIntPair(text[0], text[1]).None? ==>
              ParseForegroundColor(text) == Failure(NotANumber)
  {
    if |text| >= 2 && IsDigit(text[1]) && !IsDigit(text[0]) && text[0] == '-' {
      SignedCodes(text);
    }
  }

  /** A background code is a foreground code behind a `,` separator. */
  lemma BackgroundIsSeparatedForeground(text: string)
    ensures |text| == 0 ==> ParseBackgroundColor(text) == Failure(MissingCode)
    ensures |text| > 0 && text[0] != ',' ==> ParseBackgroundColor(text) == Failure(NoSeparator)
    ensures |text| > 0 && text[0] == ',' ==> ParseBackgroundColor(text) == ParseForegroundColor(text[1..])
  {
  }

  lemma BackgroundSucceedsIff(text: string)
    ensures ParseBackgroundColor(text).Success?
        <==> |text| >= 3 && text[0] == ',' && WellFormedCode(text[1], text[2])
  {
    BackgroundIsSeparatedForeground(text);
    if |text| > 0 && text[0] == ',' {
      ForegroundSucceedsIff(text[1..]);
    }
  }

  /**
   * How many characters after an introducer a colour code consumes: 5 for a
   * foreground and a background, 2 for a foreground alone, 0 when there is no
   * foreground, in which case no background is looked for either.
   */
  lemma ColorCodeConsumption(rest: string)
    ensures var spec := ParseColorCode(rest);
      && (spec.consumed == 5 <==>
            |rest| >= 5 && WellFormedCode(rest[0], rest[1]) && rest[2] == ',' && WellFormedCode(rest[3], rest[4]))
      && (spec.consumed == 2 <==>
            && |rest| >= 2 && WellFormedCode(rest[0], rest[1])
            && !(|rest| >= 5 && rest[2] == ',' && WellFormedCode(rest[3], rest[4])))
      && (spec.consumed == 0 <==> !(|rest| >= 2 && WellFormedCode(rest[0], rest[1])))
      && (spec.background.Some? <==> spec.consumed == 5)
  {
    ForegroundSucceedsIff(rest);
    if |rest| >= 2 {
      BackgroundSucceedsIff(rest[2..]);
    }
  }

  // ---------------------------------------------------------------------------
  // The scan
  // ---------------------------------------------------------------------------

  /** The style a toggle character switches. */
  function ToggledStyle(c: char): (style: ControlChar)
    requires c == BoldChar || c == ItalicsChar || c == UnderlineChar
    ensures !style.ColorFormat?
  {
    if c == BoldChar then Bold else if c == ItalicsChar then Italics else Underline
  }

  /**
   * A toggle character cancels its style (with flag true) when it is active
   * and applies it otherwise; only that style changes.
   */
  lemma ToggleFlipsOnlyItsOwnStyle(text: string, i: nat, st: Styles)
    requires i < |text| && (text[i] == BoldChar || text[i] == ItalicsChar || text[i] == UnderlineChar)
    ensures var style := ToggledStyle(text[i]);
      var kind := style.KindOf();
      var step := ScanStep(text, i, st);
      var after := Effect(st, step.cmd);
      && step.skip == 0
      && step.cmd == (if st.IsActive(kind) then Cancel(kind, true) else Apply(style))
      && after.IsActive(kind) == !st.IsActive(kind)
      && (forall k :: k != kind ==> after.IsActive(k) == st.IsActive(k))
      && after.color == st.color
  {
  }

  /** Two consecutive occurrences of a toggle character restore the styles. */
  lemma DoubleToggleRestores(text: string, i: nat, st: Styles)
    requires i + 1 < |text| && text[i] == text[i + 1]
    requires text[i] == BoldChar || text[i] == ItalicsChar || text[i] == UnderlineChar
    ensures var style := ToggledStyle(text[i]);
      var first := Toggle(st, style);
      var second := Toggle(Effect(st, first), style);
      && Effect(Effect(st, first), second) == st
      && Scan(text, i, st) == [first, second] + Scan(text, i + 2, st)
  {
    var style := ToggledStyle(text[i]);
    var first := Toggle(st, style);
    var mid := Effect(st, first);
    var second := Toggle(mid, style);
    ToggleTwiceRestores(st, style);
    ToggleStep(text, i, st);
    ToggleStep(text, i + 1, mid);
    ScanAt(text, i + 1, mid);
    var rest := Scan(text, i + 2, st);
    assert Scan(text, i + 1, mid) == [second] + rest;
    ScanAt(text, i, st);
    assert Scan(text, i, st) == [first] + ([second] + rest);
    assert [first] + ([second] + rest) == [first, second] + rest;
  }

  lemma ToggleStep(text: string, i: nat, st: Styles)
    requires i < |text| && (text[i] == BoldChar || text[i] == ItalicsChar || text[i] == UnderlineChar)
    ensures ScanStep(text, i, st) == Step(Toggle(st, ToggledStyle(text[i])), 0)
  {
  }

  /** Toggling a style twice, each time after the styles the first toggle left, restores the styles. */
  lemma ToggleTwiceRestores(st: Styles, style: ControlChar)
    requires !style.ColorFormat?
    ensures var mid := Effect(st, Toggle(st, style));
      Effect(mid, Toggle(mid, style)) == st
  {
  }

  /** The reset character always calls cancelAll, and the scan goes on with no style active. */
  lemma ResetClearsEverything(text: string, i: nat, st: Styles)
    requires i < |text| && text[i] == ResetChar
    ensures Scan(text, i, st) == [CancelAll] + Scan(text, i + 1, NoStyles)
    ensures forall k :: !Effect(st, CancelAll).IsActive(k)
  {
    ScanAt(text, i, st);
  }

  /**
   * A foreground that cannot be read cancels the colour, consumes nothing,
   * and the characters after the introducer are scanned as ordinary input.
   */
  lemma FailedForegroundCancelsColor(text: string, i: nat, st: Styles)
    requires i < |text| && text[i] == ColorChar
    requires ParseForegroundColor(text[i + 1..]).Failure?
    ensures Scan(text, i, st)
         == [Cancel(ColorFormatKind, false)] + Scan(text, i + 1, st.Cancelled(ColorFormatKind))
  {
    ScanAt(text, i, st);
  }

  /** A foreground without a readable background is applied alone; two characters are consumed. */
  lemma FailedBackgroundKeepsForeground(text: string, i: nat, st: Styles, fg: Color)
    requires i < |text| && text[i] == ColorChar
    requires ParseForegroundColor(text[i + 1..]) == Success(fg)
    requires ParseBackgroundColor(text[i + 3..]).Failure?
    ensures var cmd := Apply(ColorFormat(Some(fg), None));
      Scan(text, i, st) == [cmd] + Scan(text, i + 3, Effect(st, cmd))
  {
    assert text[i + 1..][2..] == text[i + 3..];
    ScanAt(text, i, st);
  }

  /** A foreground and a background are applied together; five characters are consumed. */
  lemma FullColorCode(text: string, i: nat, st: Styles, fg: Color, bg: Color)
    requires i < |text| && text[i] == ColorChar
    requires ParseForegroundColor(text[i + 1..]) == Success(fg)
    requires ParseBackgroundColor(text[i + 3..]) == Success(bg)
    ensures var cmd := Apply(ColorFormat(Some(fg), Some(bg)));
      Scan(text, i, st) == [cmd] + Scan(text, i + 6, Effect(st, cmd))
  {
    assert text[i + 1..][2..] == text[i + 3..];
    ScanAt(text, i, st);
  }

  /** Is this call a colour format applied without a foreground? */
  predicate ColorWithoutForeground(cmd: Cmd) {
    cmd.Apply? && cmd.style.ColorFormat? && cmd.style.foreground.None?
  }

  /** Every colour format the scan applies has a foreground. */
  lemma {:induction false} AppliedColorsHaveForeground(text: string, i: nat, st: Styles)
    requires i <= |text|
    ensures forall k :: 0 <= k < |Scan(text, i, st)| ==> !ColorWithoutForeground(Scan(text, i, st)[k])
    decreases |text| - i
  {
    if i < |text| {
      var step := ScanStep(text, i, st);
      ScanAt(text, i, st);
      AppliedColorsHaveForeground(text, i + 1 + step.skip, Effect(st, step.cmd));
    }
  }

  lemma DecodeAppliesNoColorWithoutForeground(text: string)
    ensures forall k :: 0 <= k < |Decode(text)| ==> !ColorWithoutForeground(Decode(text)[k])
  {
    AppliedColorsHaveForeground(text, 0, NoStyles);
  }

  // ---------------------------------------------------------------------------
  // Literal text
  // ---------------------------------------------------------------------------

  /** One append call per character, in order. */
  function AppendEach(s: string): (cmds: seq<Cmd>)
    ensures |cmds| == |s|
    ensures forall k :: 0 <= k < |s| ==> cmds[k] == Append(s[k])
  {
    seq(|s|, k requires 0 <= k < |s| => Append(s[k]))
  }

  /** No control character at or after position `i`. */
  predicate NoControlCharsFrom(text: string, i: nat) {
    forall k :: i <= k < |text| ==> !IsControlChar(text[k])
  }

  lemma {:induction false} PlainScanAppendsEach(text: string, i: nat, st: Styles)
    requires i <= |text| && NoControlCharsFrom(text, i)
    ensures Scan(text, i, st) == AppendEach(text[i..])
    decreases |text| - i
  {
    if i < |text| {
      ScanAt(text, i, st);
      PlainScanAppendsEach(text, i + 1, st);
      assert AppendEach(text[i..]) == [Append(text[i])] + AppendEach(text[i + 1..]);
    }
  }

  /** Text with no control character is appended verbatim and nothing else is called but done(). */
  lemma PlainTextIsAppendedVerbatim(text: string)
    requires NoControlCharsFrom(text, 0)
    ensures Decode(text) == AppendEach(text) + [Done]
  {
    assert text[0..] == text;
    PlainScanAppendsEach(text, 0, NoStyles);
  }

  /** The characters passed to append, in order. */
  function Literals(cmds: seq<Cmd>): string {
    if cmds == [] then []
    else (if cmds[0].Append? then [cmds[0].c] else []) + Literals(cmds[1..])
  }

  /** The text with every control character removed. */
  function StripControls(s: string): string {
    if s == [] then []
    else (if IsControlChar(s[0]) then [] else [s[0]]) + StripControls(s[1..])
  }

  /**
   * Without colour introducers every character is scanned on its own, and the
   * appended characters are the text with the control characters removed.
   */
  lemma {:induction false} LiteralsWithoutColor(text: string, i: nat, st: Styles)
    requires i <= |text| && ColorChar !in text[i..]
    ensures |Scan(text, i, st)| == |text| - i
    ensures Literals(Scan(text, i, st)) == StripControls(text[i..])
    decreases |text| - i
  {
    if i < |text| {
      var step := ScanStep(text, i, st);
      assert text[i] == text[i..][0];
      assert text[i..][1..] == text[i + 1..];
      ScanAt(text, i, st);
      LiteralsWithoutColor(text, i + 1, Effect(st, step.cmd));
      assert ([step.cmd] + Scan(text, i + 1, Effect(st, step.cmd)))[1..] == Scan(text, i + 1, Effect(st, step.cmd));
    }
  }

  // ---------------------------------------------------------------------------
  // Examples
  // ---------------------------------------------------------------------------

  /** Bold and italics, then a reset: `x` is appended with both active, `y` with none. */
  lemma ResetExample()
    ensures Decode([BoldChar, ItalicsChar, 'x', ResetChar, 'y'])
         == [Apply(Bold), Apply(Italics), Append('x'), CancelAll, Append('y'), Done]
  {
    var text := [BoldChar, ItalicsChar, 'x', ResetChar, 'y'];
    var bold := NoStyles.(bold := true);
    var both := bold.(italics := true);
    ScanAt(text, 4, NoStyles);
    assert Scan(text, 4, NoStyles) == [Append('y')];
    ScanAt(text, 3, both);
    assert Scan(text, 3, both) == [CancelAll, Append('y')];
    ScanAt(text, 2, both);
    ScanAt(text, 1, bold);
    ScanAt(text, 0, NoStyles);
  }

  /** A colour introducer followed by non-digits cancels the colour and keeps the text. */
  lemma MalformedColorExample()
    ensures Decode([ColorChar, 'z', 'z']) == [Cancel(ColorFormatKind, false), Append('z'), Append('z'), Done]
  {
    var text := [ColorChar, 'z', 'z'];
    assert text[1..] == "zz";
    ScanAt(text, 0, NoStyles);
    ScanAt(text, 1, NoStyles);
    ScanAt(text, 2, NoStyles);
  }
}
