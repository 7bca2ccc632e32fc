/**
 * The IRC inline-formatting decoder: a single left-to-right scan of a message
 * that turns the mIRC control characters into calls on a formatted-text builder.
 *
 * The scan is given twice: `Parse` is the loop over a builder object, and
 * `Scan`/`Decode` is the same scan as a function from the text to the calls
 * made, which `Parse` is proved to agree with and which the lemmas in
 * module UtilsProperties are about.
 */
module Utils {
  import opened Wrappers
  import opened JavaLang
  import opened FormattedText

  /** Length of a background code `,NN`, counted from the separator. */
  const IndexEndColorCode: nat := 3

  /** Length of a foreground code `NN`. */
  const ForegroundCodeLength: nat := 2

  const BoldChar: char := '\U{0002}'
  const ItalicsChar: char := '\U{0016}'
  const UnderlineChar: char := '\U{001F}'
  const ColorChar: char := '\U{0003}'
  const ResetChar: char := '\U{000F}'

  predicate IsControlChar(c: char) {
    c == BoldChar || c == ItalicsChar || c == UnderlineChar || c == ColorChar || c == ResetChar
  }

  /** Why a colour code was not read; each stands for an exception the source catches. */
  datatype ColorError =
    | MissingCode   // the text ended inside the code
    | NotANumber    // Integer.parseInt rejected the two characters
    | UnknownColor  // the reduced value is not an index of the colour table
    | NoSeparator   // the background code does not start with ','

  /** `Color.values()[index]`, which fails outside the table. */
  function ColorAt(index: int): Result<Color, ColorError> {
    if 0 <= index < PaletteSize then Success(index) else Failure(UnknownColor)
  }

  /** Reads the foreground colour from the two characters at the start of `text`. */
  function ParseForegroundColor(text: string): (r: Result<Color, ColorError>)
    ensures r.Success? ==> |text| >= ForegroundCodeLength
  {
    if |text| < ForegroundCodeLength then Failure(MissingCode)
    else
      match ParseIntPair(text[0], text[1])
      case None => Failure(NotANumber)
      case Some(color) => ColorAt(JavaRem(color, PaletteSize))
  }

  /** Reads the background colour from `,NN` at the start of `text`. */
  function ParseBackgroundColor(text: string): (r: Result<Color, ColorError>)
    ensures r.Success? ==> |text| >= IndexEndColorCode && text[0] == ','
  {
    if |text| == 0 then Failure(MissingCode)
    else if text[0] != ',' then Failure(NoSeparator)
    else if |text| < IndexEndColorCode then Failure(MissingCode)
    else
      match ParseIntPair(text[1], text[2])
      case None => Failure(NotANumber)
      case Some(color) => ColorAt(JavaRem(color, PaletteSize))
  }

  /** The colours read after a colour introducer, and how many characters they took. */
  datatype ColorSpec = ColorSpec(foreground: Option<Color>, background: Option<Color>, consumed: nat)

  /**
   * The colour code in `rest`, the text after an introducer: a foreground,
   * then a background only if the foreground was read.
   */
  function ParseColorCode(rest: string): (spec: ColorSpec)
    ensures spec.consumed <= |rest|
    ensures spec.consumed == 0 <==> spec.foreground.None?
    ensures spec.foreground.None? ==> spec.background.None?
  {
    match ParseForegroundColor(rest)
    case Failure(_) => ColorSpec(None, None, 0)
    case Success(fg) =>
      match ParseBackgroundColor(rest[ForegroundCodeLength..])
      case Failure(_) => ColorSpec(Some(fg), None, ForegroundCodeLength)
      case Success(bg) => ColorSpec(Some(fg), Some(bg), ForegroundCodeLength + IndexEndColorCode)
  }

  /** The call a toggle character makes: cancel the style if active, apply it otherwise. */
  function Toggle(st: Styles, style: ControlChar): Cmd {
    if st.IsActive(style.KindOf()) then Cancel(style.KindOf(), true) else Apply(style)
  }

  /** One pass of the loop body: the call made and how many further characters were consumed. */
  datatype Step = Step(cmd: Cmd, skip: nat)

  /** The dispatch on the character at `i` with styles `st` active. */
  function ScanStep(text: string, i: nat, st: Styles): (r: Step)
    requires i < |text|
    ensures i + 1 + r.skip <= |text|
    ensures r.skip == 0 || r.skip == ForegroundCodeLength || r.skip == ForegroundCodeLength + IndexEndColorCode
    ensures r.skip != 0 ==> text[i] == ColorChar
    ensures !r.cmd.Done?
  {
    var val := text[i];
    if val == BoldChar then Step(Toggle(st, Bold), 0)
    else if val == ItalicsChar then Step(Toggle(st, Italics), 0)
    else if val == UnderlineChar then Step(Toggle(st, Underline), 0)
    else if val == ColorChar then
      var spec := ParseColorCode(text[i + 1..]);
      if spec.foreground.None? && spec.background.None? then
        Step(Cancel(ColorFormatKind, false), spec.consumed)
      else
        Step(Apply(ColorFormat(spec.foreground, spec.background)), spec.consumed)
    else if val == ResetChar then Step(CancelAll, 0)
    else Step(Append(val), 0)
  }

  /** The calls made while scanning `text` from position `i` with styles `st` active. */
  function Scan(text: string, i: nat, st: Styles): (cmds: seq<Cmd>)
    requires i <= |text|
    ensures |cmds| <= |text| - i
    ensures forall k :: 0 <= k < |cmds| ==> !cmds[k].Done?
    decreases |text| - i
  {
    if i == |text| then []
    else
      var step := ScanStep(text, i, st);
      [step.cmd] + Scan(text, i + 1 + step.skip, Effect(st, step.cmd))
  }

  /** The call the scan makes at `i`, then the rest of the scan. */
  lemma ScanAt(text: string, i: nat, st: Styles)
    requires i < |text|
    ensures var step := ScanStep(text, i, st);
      Scan(text, i, st) == [step.cmd] + Scan(text, i + 1 + step.skip, Effect(st, step.cmd))
  {
  }

  /** The loop invariant of `parse` carried over one pass: calls made so far, then the rest of the scan. */
  lemma ScanAdvance(text: string, i: nat, st: Styles, made: seq<Cmd>)
    requires i < |text|
    ensures var step := ScanStep(text, i, st);
      made + Scan(text, i, st) == (made + [step.cmd]) + Scan(text, i + 1 + step.skip, Effect(st, step.cmd))
  {
    ScanAt(text, i, st);
  }

  /**
   * One pass of the loop body of `parse`: dispatch on the character at `i`,
   * make the one call on the builder that it calls for, and return the index
   * the loop continues from.
   */
  method ProcessChar(builder: FormattedTextBuilder, t: string, i: nat) returns (next: nat)
    requires i < |t| && builder.Valid() && !builder.finished
    modifies builder
    ensures builder.Valid() && !builder.finished
    ensures var step := ScanStep(t, i, old(builder.State()));
      && builder.log == old(builder.log) + [step.cmd]
      && builder.State() == Effect(old(builder.State()), step.cmd)
      && next == i + 1 + step.skip
  {
    ghost var before := builder.State();
    ghost var cmd: Cmd;
    next := i;
    var val := t[i];
    if val == BoldChar {
      if builder.IsActive(BoldKind) {
        builder.Cancel(BoldKind, true);
      } else {
        builder.Apply(Bold);
      }
      cmd := Toggle(before, Bold);
    } else if val == ItalicsChar {
      if builder.IsActive(ItalicsKind) {
        builder.Cancel(ItalicsKind, true);
      } else {
        builder.Apply(Italics);
      }
      cmd := Toggle(before, Italics);
    } else if val == UnderlineChar {
      if builder.IsActive(UnderlineKind) {
        builder.Cancel(UnderlineKind, true);
      } else {
        builder.Apply(Underline);
      }
      cmd := Toggle(before, Underline);
    } else if val == ColorChar {
      var foreground: Option<Color> := None;
      var background: Option<Color> := None;
      var fg := ParseForegroundColor(t[next + 1..]);
      if fg.Success? {
        foreground := Some(fg.value);
        next := next + ForegroundCodeLength;
        var bg := ParseBackgroundColor(t[next + 1..]);
        if bg.Success? {
          background := Some(bg.value);
          next := next + IndexEndColorCode;
        }
      }
      assert ParseColorCode(t[i + 1..]) == ColorSpec(foreground, background, next - i) by {
        if fg.Success? {
          assert t[i + 1..][ForegroundCodeLength..] == t[i + 1 + ForegroundCodeLength..];
        }
      }
      if foreground.None? && background.None? {
        builder.Cancel(ColorFormatKind, false);
        cmd := Cancel(ColorFormatKind, false);
      } else {
        builder.Apply(ColorFormat(foreground, background));
        cmd := Apply(ColorFormat(foreground, background));
      }
      assert ScanStep(t, i, before) == Step(cmd, next - i);
    } else if val == ResetChar {
      builder.CancelAll();
      cmd := CancelAll;
    } else {
      builder.Append(val);
      cmd := Append(val);
    }
    next := next + 1;
  }

  /** Every call `parse` makes on its builder, ending with the single call to done(). */
  function Decode(text: string): (cmds: seq<Cmd>)
    ensures 1 <= |cmds| <= |text| + 1
    ensures cmds[|cmds| - 1] == Done
    ensures forall k :: 0 <= k < |cmds| - 1 ==> !cmds[k].Done?
  {
    Scan(text, 0, NoStyles) + [Done]
  }

  /**
   * Parses an IRC message: null gives null; otherwise one builder is created,
   * driven over the text, and done() is called once at the end.
   */
  method Parse(text: Option<string>) returns (result: Option<seq<Cmd>>)
    ensures text.None? <==> result.None?
    ensures text.Some? ==> result == Some(Decode(text.value))
  {
    if text.None? {
      return None;
    }
    var t := text.value;
    var builder := new FormattedTextBuilder();
    var i := 0;
    while i < |t|
      invariant i <= |t|
      invariant builder.Valid() && !builder.finished
      invariant builder.log + Scan(t, i, builder.State()) == Scan(t, 0, NoStyles)
    {
      ghost var start, before, logBefore := i, builder.State(), builder.log;
      i := ProcessChar(builder, t, i);
      ScanAdvance(t, start, before, logBefore);
    }
    assert builder.log == Scan(t, 0, NoStyles);
    var out := builder.Done();
    return Some(out);
  }
}
