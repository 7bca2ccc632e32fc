# IRC inline-formatting decoder

This project models `Utils.parse`, the decoder that the IRC protocol provider
applies to incoming messages, along with its two colour-code helpers,
`parseForegroundColor` and `parseBackgroundColor`. The decoder follows the
mIRC convention for control characters: U+0002 toggles bold, U+0016 toggles
italics, U+001F toggles underline, U+0003 introduces a colour code `NN[,NN]`,
and U+000F resets every style. `parse` reads the message once, from left to
right. For each character not consumed by a colour code it makes one call on
a `FormattedTextBuilder` (`apply`, `cancel`, `cancelAll` or `append`); the
two or five characters of a colour code that was read get no call of their
own. At the end it returns
`done()`. A null message gives null.

## Structure

- `wrappers.dfy`, module `Wrappers`: `Option` stands in for null and `Result`
  stands in for thrown exceptions.
- `java_lang.dfy`, module `JavaLang`: the two library behaviours the colour
  parser relies on.
  - `Integer.parseInt` on the two characters it is given. An optional sign is
    allowed, so `"+5"` is 5 and `"-5"` is -5.
  - Java's `%`, which truncates toward zero, so `-5 % 16` is -5.
- `formatted_text.dfy`, module `FormattedText`: the builder, modelled
  abstractly because its source is not part of this model.
  - Its state is one flag each for bold, italics and underline, plus the
    current colour pair.
  - `FormattedTextBuilder` is a class with those fields and a log of every
    call made on it. `Done` seals the builder and returns the log.
  - `Valid()` says the flags are exactly what the logged calls imply.
  - The palette is a table of `PaletteSize = 16` colours, and a colour is its
    index. The size comes from the TODO at Utils.java:37-38.
- `utils.dfy`, module `Utils`: the decoder.
  - `ParseForegroundColor`, `ParseBackgroundColor` and `ParseColorCode` parse
    colour codes.
  - `ScanStep`, `Scan` and `Decode` are the scan written as functions: from
    the text to the sequence of builder calls.
  - `Parse` is the loop over a builder object. Its loop body is the method
    `ProcessChar`, which holds the `i += 2` and `i += INDEX_END_COLOR_CODE`
    index bumps. `Parse` is proved to return `Decode` of its input.
- `utils_properties.dfy`, module `UtilsProperties`: what the decoder
  promises, proved about `Scan` and `Decode`.

The output of the model is the sequence of calls `parse` makes on its
builder, ending in the single `done()` call. It is not the HTML string that
the builder renders from those calls.

## Behaviour of the code worth knowing

- A background colour is only looked for after a foreground colour was read.
  The exception from a failed foreground leaves the `try` block before
  line 97. So `parse` never applies a colour with only a background, and it
  never skips an unreadable foreground to read a background.
- After U+0003, the scan skips exactly 0, 2 or 5 characters. It skips 0 when
  the foreground fails, 2 for a foreground alone, and 5 for a foreground with
  a background. The characters it does not skip are scanned as ordinary input.
- `Integer.parseInt` accepts a sign.
  - `+d` selects colour d.
  - `-0` selects colour 0.
  - `-d` with d from 1 to 9 gives a negative index. The array access then
    fails, so there is no colour.
- The `catch (ArrayIndexOutOfBoundsException e)` at Utils.java:105-109 can
  never run. Both helpers turn that exception into an
  IllegalArgumentException.

## Model

| member | source | states |
|---|---|---|
| `Utils.Parse` | src/net/java/sip/communicator/impl/protocol/irc/Utils.java:44-130 | A null message gives null. Otherwise the result is exactly the calls of `Decode`: one builder, driven over the text, then `done()`. |
| `Utils.ProcessChar` | src/net/java/sip/communicator/impl/protocol/irc/Utils.java:54-127 | One pass of the loop body makes exactly the one builder call that `ScanStep` names. The styles change as that call says. The loop continues after the characters the colour code consumed. |
| `Utils.ScanStep` | src/net/java/sip/communicator/impl/protocol/irc/Utils.java:52-127 | The index the loop continues from never passes the end of the text, so every `charAt`/`substring(i + 1)` is in bounds. Only a colour introducer skips characters, and it skips 0, 2 or 5. The loop body never calls `done()`. |
| `Utils.Scan` | src/net/java/sip/communicator/impl/protocol/irc/Utils.java:52-128 | The scan terminates. It makes at most one call per character and never calls `done()`. |
| `Utils.Decode` | src/net/java/sip/communicator/impl/protocol/irc/Utils.java:51-129 | `done()` is called exactly once, as the last call. There are at most `\|text\| + 1` calls. |
| `Utils.ParseForegroundColor` | src/net/java/sip/communicator/impl/protocol/irc/Utils.java:183-213 | A foreground colour is read only when two characters follow. |
| `Utils.ParseBackgroundColor` | src/net/java/sip/communicator/impl/protocol/irc/Utils.java:138-175 | A background colour is read only when a `,` and two more characters follow. |
| `Utils.ParseColorCode` | src/net/java/sip/communicator/impl/protocol/irc/Utils.java:88-98 | Never consumes more than remains. Consumes nothing exactly when no foreground was read. Never reads a background without a foreground. |
| `JavaLang.ParseIntPair` | src/net/java/sip/communicator/impl/protocol/irc/Utils.java:187 | `Integer.parseInt` on two characters yields a value from -9 to 99. |
| `JavaLang.JavaRem` | src/net/java/sip/communicator/impl/protocol/irc/Utils.java:188 | Java's `%`. For a non-negative code it is the mathematical remainder. For a negative code it lies in (-N, 0], so the table index can be negative. |
| `FormattedText.FormattedTextBuilder.constructor` | src/net/java/sip/communicator/impl/protocol/irc/Utils.java:51 | A new builder has an empty log, no active style, is not sealed and satisfies `Valid()`. |
| `FormattedText.FormattedTextBuilder.IsActive` | src/net/java/sip/communicator/impl/protocol/irc/Utils.java:58 | `isActive` of a kind is that kind's flag; for the colour kind, whether a colour pair is set. |
| `FormattedText.FormattedTextBuilder.Apply` | src/net/java/sip/communicator/impl/protocol/irc/Utils.java:64 | `apply` makes its style active, logs the call and keeps `Valid()`. |
| `FormattedText.FormattedTextBuilder.Cancel` | src/net/java/sip/communicator/impl/protocol/irc/Utils.java:60 | `cancel` makes its kind inactive, logs the call and keeps `Valid()`. |
| `FormattedText.FormattedTextBuilder.CancelAll` | src/net/java/sip/communicator/impl/protocol/irc/Utils.java:121 | `cancelAll` leaves no style active. |
| `FormattedText.FormattedTextBuilder.Append` | src/net/java/sip/communicator/impl/protocol/irc/Utils.java:125 | `append` logs the character and changes no style. |
| `FormattedText.FormattedTextBuilder.Done` | src/net/java/sip/communicator/impl/protocol/irc/Utils.java:129 | `done` seals the builder and returns everything built. |
| `UtilsProperties.TwoDigitCodeRoundTrip` | src/net/java/sip/communicator/impl/protocol/irc/Utils.java:187 | `parseInt` on the two-digit code of d gives d back. |
| `UtilsProperties.ForegroundIsCodeModuloPalette` | src/net/java/sip/communicator/impl/protocol/irc/Utils.java:187-189 | Two digits read as d select colour d mod N. |
| `UtilsProperties.CongruentCodesSelectSameColor` | src/net/java/sip/communicator/impl/protocol/irc/Utils.java:187-189 | Codes d and d + N select the same colour. |
| `UtilsProperties.CodesZeroAndSixteenCoincide` | src/net/java/sip/communicator/impl/protocol/irc/Utils.java:37-38 | `00` and `16` both select colour 0. |
| `UtilsProperties.SignedCodes` | src/net/java/sip/communicator/impl/protocol/irc/Utils.java:187-211 | `+d` selects colour d and `-0` selects colour 0. `-d` for d > 0 fails as an unknown colour. |
| `UtilsProperties.ForegroundSucceedsIff` | src/net/java/sip/communicator/impl/protocol/irc/Utils.java:183-213 | A foreground is read if and only if two well-formed characters follow. Fewer than two characters is a missing code. A pair `parseInt` rejects is not a number. |
| `UtilsProperties.BackgroundIsSeparatedForeground` | src/net/java/sip/communicator/impl/protocol/irc/Utils.java:138-175 | Empty text is a missing code, and text not starting with `,` has no separator. Otherwise the background is the foreground rule applied after the `,`. |
| `UtilsProperties.BackgroundSucceedsIff` | src/net/java/sip/communicator/impl/protocol/irc/Utils.java:142-151 | A background is read if and only if `,` and two well-formed characters follow. |
| `UtilsProperties.ColorCodeConsumption` | src/net/java/sip/communicator/impl/protocol/irc/Utils.java:93-98 | After U+0003 the code consumes 5, 2 or 0 characters, and each count is characterised in terms of the characters that follow. A background is present exactly when 5 are consumed. |
| `UtilsProperties.ToggleFlipsOnlyItsOwnStyle` | src/net/java/sip/communicator/impl/protocol/irc/Utils.java:57-86 | A toggle character calls `cancel(kind, true)` when its style is active and `apply` otherwise. It flips only its own style, and the colour is unchanged. |
| `UtilsProperties.ToggleTwiceRestores` | src/net/java/sip/communicator/impl/protocol/irc/Utils.java:57-86 | Toggling the same style twice restores the styles. |
| `UtilsProperties.DoubleToggleRestores` | src/net/java/sip/communicator/impl/protocol/irc/Utils.java:57-86 | Two consecutive identical toggle characters make their two calls. The scan then continues in exactly the prior styles. |
| `UtilsProperties.ResetClearsEverything` | src/net/java/sip/communicator/impl/protocol/irc/Utils.java:120-122 | U+000F always calls `cancelAll`, whatever is active. The scan continues with no style active. |
| `UtilsProperties.FailedForegroundCancelsColor` | src/net/java/sip/communicator/impl/protocol/irc/Utils.java:88-113 | An unreadable foreground calls `cancel(ColorFormat, false)`, consumes nothing and does not propagate. The following characters are scanned as ordinary input. |
| `UtilsProperties.FailedBackgroundKeepsForeground` | src/net/java/sip/communicator/impl/protocol/irc/Utils.java:93-118 | A readable foreground without a readable background applies `ColorFormat(fg, null)` and consumes 2 characters. |
| `UtilsProperties.FullColorCode` | src/net/java/sip/communicator/impl/protocol/irc/Utils.java:93-118 | A foreground and a background apply `ColorFormat(fg, bg)` and consume 5 characters. |
| `UtilsProperties.AppliedColorsHaveForeground` | src/net/java/sip/communicator/impl/protocol/irc/Utils.java:88-118 | Every colour format the scan applies has a non-null foreground. |
| `UtilsProperties.DecodeAppliesNoColorWithoutForeground` | src/net/java/sip/communicator/impl/protocol/irc/Utils.java:44-130 | The same holds for every call of `parse`. |
| `UtilsProperties.PlainScanAppendsEach` | src/net/java/sip/communicator/impl/protocol/irc/Utils.java:52-55 | With no control character from position i on, the scan appends each character in order and makes no other call. |
| `UtilsProperties.PlainTextIsAppendedVerbatim` | src/net/java/sip/communicator/impl/protocol/irc/Utils.java:123-126 | A message with no control character is appended verbatim, followed only by `done()`. |
| `UtilsProperties.LiteralsWithoutColor` | src/net/java/sip/communicator/impl/protocol/irc/Utils.java:52-127 | Without colour introducers, every character is scanned on its own. The appended characters are the text with the control characters removed. |
| `UtilsProperties.ResetExample` | src/net/java/sip/communicator/impl/protocol/irc/Utils.java:57-76 | Bold, italics, `x`, reset, `y` makes the calls apply, apply, append `x`, cancelAll, append `y`, done. |
| `UtilsProperties.MalformedColorExample` | src/net/java/sip/communicator/impl/protocol/irc/Utils.java:87-126 | U+0003 followed by `zz` cancels the colour and appends `zz`. |

## Left out

- The HTML that `FormattedTextBuilder` renders is not modelled: tag names, nesting-aware closing and reopening, and the exact string `done()` returns. That class is not part of this model. The model's output is the sequence of builder calls.
- The builder's behaviour is an assumption: `apply` sets a style, `cancel` clears one, `cancelAll` clears all of them, `isActive` reads them, and the builder is not used after `done()`. Its `cancel` flag is recorded but has no modelled effect.
- `Color` and `ControlChar` are not part of this model. A colour is an index below `PaletteSize` = 16, and the concrete colour table is not modelled.
- The exceptions become `Result` values, and `ColorError` says which exception applied. Logging (`LOGGER.debug`, `LOGGER.trace`) and the exception messages are left out: they only observe a failure.
- `JavaLang.ParseIntPair`: `Integer.parseInt` also accepts non-ASCII Unicode digits. The model accepts only ASCII `0`-`9`, so such a code reads as "no colour" in the model but as a colour in Java.
- Java strings are sequences of UTF-16 code units. The model's `string` is a sequence of Unicode scalar values, so unpaired surrogates are not represented. All five control characters and every colour-code character are single code units, so control characters and colour codes are read alike. A character outside the Basic Multilingual Plane differs: Java sees two code units and makes two `append(char)` calls, one per surrogate, while the model makes one `Append`. The bounds `|cmds| <= |text|` of `Scan` and `Decode` count scalar values, not Java's `length()`.
- `formatMessage`, `formatNotice` and `formatAction` (Utils.java:221-248) are one-line string templates around the decoder's output.
- `UIContactDetailAction` is a one-method UI callback interface with no behaviour.
