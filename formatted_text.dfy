/**
 * The formatted-text builder that the IRC parser drives. Its source is not
 * part of this model; what is modelled is the state the parser can observe
 * through `isActive` (one flag per toggle style and the current colour pair)
 * and the sequence of calls made on it. That apply sets a style, cancel clears
 * one and cancelAll clears all of them is an assumption about that class.
 */
module FormattedText {
  import opened Wrappers

  /** Number of entries in the colour table; colour codes are reduced modulo this. */
  const PaletteSize: nat := 16

  /** A colour, identified by its index in the colour table. */
  type Color = c: nat | c < PaletteSize

  /** The style kinds, used as the argument of isActive and cancel. */
  datatype Kind = BoldKind | ItalicsKind | UnderlineKind | ColorFormatKind

  /** The style values passed to apply. */
  datatype ControlChar =
    | Bold
    | Italics
    | Underline
    | ColorFormat(foreground: Option<Color>, background: Option<Color>)
  {
    function KindOf(): Kind {
      match this
      case Bold => BoldKind
      case Italics => ItalicsKind
      case Underline => UnderlineKind
      case ColorFormat(_, _) => ColorFormatKind
    }
  }

  /** One call made on the builder. */
  datatype Cmd =
    | Apply(style: ControlChar)
    | Cancel(kind: Kind, flag: bool)
    | CancelAll
    | Append(c: char)
    | Done

  /** The builder's active styles. */
  datatype Styles = Styles(bold: bool, italics: bool, underline: bool,
                           color: Option<(Option<Color>, Option<Color>)>)
  {
    predicate IsActive(kind: Kind) {
      match kind
      case BoldKind => bold
      case ItalicsKind => italics
      case UnderlineKind => underline
      case ColorFormatKind => color.Some?
    }

    /** The styles after apply(style): that style is active, nothing else changes. */
    function Applied(style: ControlChar): (s: Styles)
      ensures s.IsActive(style.KindOf())
      ensures forall k :: k != style.KindOf() ==> s.IsActive(k) == IsActive(k)
      ensures style.ColorFormat? ==> s.color == Some((style.foreground, style.background))
      ensures !style.ColorFormat? ==> s.color == color
    {
      match style
      case Bold => this.(bold := true)
      case Italics => this.(italics := true)
      case Underline => this.(underline := true)
      case ColorFormat(fg, bg) => this.(color := Some((fg, bg)))
    }

    /** The styles after cancel(kind, _): that kind is inactive, nothing else changes. */
    function Cancelled(kind: Kind): (s: Styles)
      ensures !s.IsActive(kind)
      ensures forall k :: k != kind ==> s.IsActive(k) == IsActive(k)
      ensures kind != ColorFormatKind ==> s.color == color
    {
      match kind
      case BoldKind => this.(bold := false)
      case ItalicsKind => this.(italics := false)
      case UnderlineKind => this.(underline := false)
      case ColorFormatKind => this.(color := None)
    }
  }

  /** A fresh builder: no style active. */
  const NoStyles: Styles := Styles(false, false, false, None)

  /** The effect of one call on the active styles. */
  function Effect(st: Styles, cmd: Cmd): Styles {
    match cmd
    case Apply(style) => st.Applied(style)
    case Cancel(kind, _) => st.Cancelled(kind)
    case CancelAll => NoStyles
    case Append(_) => st
    case Done => st
  }

  /** The active styles after a sequence of calls. */
  function Effects(st: Styles, cmds: seq<Cmd>): Styles
  {
    if cmds == [] then st else Effect(Effects(st, cmds[..|cmds| - 1]), cmds[|cmds| - 1])
  }

  /** One more call: its effect on the styles the earlier calls left. */
  lemma EffectsOfOneMore(st: Styles, cmds: seq<Cmd>, cmd: Cmd)
    ensures Effects(st, cmds + [cmd]) == Effect(Effects(st, cmds), cmd)
  {
    assert (cmds + [cmd])[..|cmds|] == cmds;
  }

  class FormattedTextBuilder {
    var bold: bool
    var italics: bool
    var underline: bool
    var color: Option<(Option<Color>, Option<Color>)>
    /** Every call made so far, oldest first; done() hands it out as the result. */
    var log: seq<Cmd>
    var finished: bool

    function State(): Styles
      reads this
    {
      Styles(bold, italics, underline, color)
    }

    /** The flags are exactly what the calls made so far imply. */
    ghost predicate Valid()
      reads this
    {
      && State() == Effects(NoStyles, log)
      && (finished <==> Cmd.Done in log)
    }

    constructor ()
      ensures Valid() && !finished
      ensures log == [] && State() == NoStyles
    {
      bold, italics, underline, color := false, false, false, None;
      log := [];
      finished := false;
    }

    /** Whether a style of this kind is active: its flag, or a colour pair being set. */
    function IsActive(kind: Kind): (r: bool)
      reads this
      ensures kind == BoldKind ==> (r <==> bold)
      ensures kind == ItalicsKind ==> (r <==> italics)
      ensures kind == UnderlineKind ==> (r <==> underline)
      ensures kind == ColorFormatKind ==> (r <==> color.Some?)
    {
      State().IsActive(kind)
    }

    method Apply(style: ControlChar)
      requires Valid() && !finished
      modifies this
      ensures Valid() && !finished
      ensures log == old(log) + [Cmd.Apply(style)]
      ensures State() == old(State()).Applied(style)
    {
      var next := State().Applied(style);
      EffectsOfOneMore(NoStyles, log, Cmd.Apply(style));
      bold, italics, underline, color := next.bold, next.italics, next.underline, next.color;
      log := log + [Cmd.Apply(style)];
    }

    method Cancel(kind: Kind, flag: bool)
      requires Valid() && !finished
      modifies this
      ensures Valid() && !finished
      ensures log == old(log) + [Cmd.Cancel(kind, flag)]
      ensures State() == old(State()).Cancelled(kind)
    {
      var next := State().Cancelled(kind);
      EffectsOfOneMore(NoStyles, log, Cmd.Cancel(kind, flag));
      bold, italics, underline, color := next.bold, next.italics, next.underline, next.color;
      log := log + [Cmd.Cancel(kind, flag)];
    }

    method CancelAll()
      requires Valid() && !finished
      modifies this
      ensures Valid() && !finished
      ensures log == old(log) + [Cmd.CancelAll]
      ensures State() == NoStyles
    {
      bold, italics, underline, color := false, false, false, None;
      EffectsOfOneMore(NoStyles, log, Cmd.CancelAll);
      log := log + [Cmd.CancelAll];
    }

    method Append(c: char)
      requires Valid() && !finished
      modifies this
      ensures Valid() && !finished
      ensures log == old(log) + [Cmd.Append(c)]
      ensures State() == old(State())
    {
      EffectsOfOneMore(NoStyles, log, Cmd.Append(c));
      assert Effect(State(), Cmd.Append(c)) == State();
      log := log + [Cmd.Append(c)];
    }

    /** Seals the builder and returns what was built. */
    method Done() returns (out: seq<Cmd>)
      requires Valid() && !finished
      modifies this
      ensures Valid() && finished
      ensures log == old(log) + [Cmd.Done] && out == log
      ensures State() == old(State())
    {
      log := log + [Cmd.Done];
      finished := true;
      out := log;
    }
  }
}
