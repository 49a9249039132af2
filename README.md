# loaf — configuration and hotkey toggle, modelled in Dafny

loaf is a macOS utility that shows a web page in a small, translucent,
always-on-top window and toggles the window's opacity with a global hotkey.
This project models the part of `main.swift` that carries logic:

- `AppConfig`: the command line is right-aligned into four positional slots
  `[screen, height, alpha, url]`. Each slot is then resolved into the screen,
  window size, window origin, opacity and URL. A bad or missing field silently
  falls back to a default. The code stops only at two traps: `height * 4`
  overflowing for an absurdly large height (see Findings) and `NSScreen.main!`
  when there is no main screen.
- The hotkey signature: the bytes of `"loaf"` folded big-endian into a
  32-bit value.
- `AppDelegate.handleHotkey`: the window's opacity alternates between the
  configured alpha (Visible) and 0 (Hidden). Every press also makes the
  window ignore mouse events.

Files:

- `wrappers.dfy`: `Option`.
- `swift_int.dfy`: Swift's 64-bit `Int` and its string initialiser `Int(_:)`.
- `configuration.dfy`: slotting, screen selection, size, origin, alpha, URL.
- `presentation.dfy`: the signature fold, and the window and delegate classes
  for the toggle.

Modelling choices:

- `NSScreen.screens` and `NSScreen.main` are a `Displays` value: an ordered
  sequence of screens and the index of the main one. Each screen is its
  visible frame, as integer points with non-negative sizes; frames are
  assumed integral (see Left out).
  `NSScreen.main!` traps when there is no main screen. The model assumes a main
  screen always exists (`Displays.HasMain`), although the source reads it only
  on the fallback path.
- `Int(_:)` is written out as Swift documents it. It accepts an optional `+`
  or `-` and then one or more decimal digits, with nothing before or after.
  Any other text gives nil, and so does a value outside the 64-bit range.
- `Float(_:)` and the scheme of `URL(string:)` are function parameters. The
  model only requires that the fixed default URL has scheme `https`. Opacity is
  a `real`.
- The lazy properties are each evaluated once from fixed inputs, so each is
  a pure function. `Resolve` evaluates all of them together.
- `handleHotkey` updates two fields of the window in place. So `Window` is a
  class with `alphaValue` and `ignoresMouseEvents`, and
  `AppDelegate.HandleHotkey` is a method that modifies only that window.

Later revisions of loaf accept 1–3 arguments, stop with a usage message on
bad input, require a height of at least 3 and place the window at y = 0.
This model follows the four-slot revision in `main.swift`. That revision
never rejects an argument, accepts any positive height and places the window
on the visible frame's bottom edge (`minY`).

## Model

| member | source | states |
|---|---|---|
| `Configuration.Argument` | main.swift:12-17 | a slot is `""` or a user argument; with n ≤ 4 arguments only the last n slots can be non-blank and slot i holds argument i - (4 - n); with n ≥ 4 slot i holds argument i |
| `Configuration.Slots` | main.swift:8-19 | exactly four slots; each slot is either `""` or one of the user's arguments (never something else) |
| `Configuration.SlotsIgnoreProgramName` | main.swift:9-11 | element 0 of the command line has no influence on any slot |
| `Configuration.SlotsRightAligned` | main.swift:12-18 | with n ≤ 4 user arguments the slots are `4 - n` blanks followed by the arguments in order (one argument lands in the url slot) |
| `Configuration.SlotsTruncated` | main.swift:12-18 | with n ≥ 4 user arguments the slots are the first four arguments; later ones are ignored |
| `Configuration.SlotsOfEmptyCommandLine` | main.swift:11-18 | an empty command line gives four blank slots |
| `SwiftInt.ParseInt` | main.swift:23 | `Int(_:)` yields only values in the 64-bit range, only for text that starts with a digit or a sign, and a negative value only after `-` |
| `SwiftInt.DecimalValue` | main.swift:23 | reading back the decimal spelling of n gives n |
| `SwiftInt.LeadingZeroValue` | main.swift:23 | a leading zero does not change the value of a run of digits |
| `SwiftInt.ParseDecimal` | main.swift:23 | `Int` parses the decimal spelling of every n in 0…Int.max back to n |
| `SwiftInt.ParseNegativeDecimal` | main.swift:23 | `Int` parses `-` plus the spelling of n back to -n for every negative `Int` |
| `SwiftInt.ParseRejectsOverflow` | main.swift:23 | the spelling of a number above Int.max does not parse |
| `SwiftInt.ParseRejectsNoDigits` | main.swift:23 | `""`, `"+"` and `"-"` do not parse |
| `Configuration.SelectScreen` | main.swift:21-28 | the chosen screen is one of the screens; a slot that parses to k with 0 ≤ k < count selects screens[k], and the result differs from the main screen only in that case |
| `Configuration.SelectScreenByIndex` | main.swift:22-24 | every in-range index in decimal selects exactly that screen |
| `Configuration.SelectScreenPlusSign` | main.swift:22-24 | `+k` selects the same screen as `k` |
| `Configuration.SelectScreenLeadingZero` | main.swift:22-24 | `0k` selects the same screen as `k` |
| `Configuration.SelectScreenMinusZero` | main.swift:22-24 | `-0` selects screen 0, not the main screen |
| `Configuration.SelectScreenNegative` | main.swift:23-27 | a negative index selects the main screen |
| `Configuration.SelectScreenTooLarge` | main.swift:23-27 | an index ≥ the screen count (even one too large for `Int`) selects the main screen |
| `Configuration.SelectScreenBlank` | main.swift:23-27 | a blank slot selects the main screen |
| `Configuration.WindowSizeAsWritten` | main.swift:30-40 | the `size` code as written traps exactly when the slot parses to a height above Int.max/4; otherwise it equals the corrected `WindowSize` |
| `Configuration.WindowSizeAsWrittenTraps` | main.swift:31-33 | a height in (Int.max/4, Int.max] parses, yet `height * 4` traps instead of falling back |
| `Configuration.FrameSize` | main.swift:34-38 | fallback: the width is the visible frame's width; the height is the largest value that is at most the frame height and keeps height ≤ 3/4 of the width |
| `Configuration.WindowSize` | main.swift:30-40 | a usable positive height h gives height h and width ⌊4h/3⌋ (3w ≤ 4h < 3w + 3); anything else gives the fallback size |
| `Configuration.WindowSizeForHeight` | main.swift:31-33 | every height 1…Int.max/4 in decimal gives the size (h*4/3, h) |
| `Configuration.WindowOrigin` | main.swift:42-47 | the window's right edge is on the visible frame's right edge (x + width = maxX) and y = minY |
| `Configuration.Alpha` | main.swift:49-55 | the opacity is in [0, 1]; a parsed value in [0, 1] is used, and any other outcome gives the default 0.1 |
| `Configuration.ResolveUrl` | main.swift:57-63 | the URL always has scheme http or https; it is the slot itself when the slot's scheme is http/https, else the default page |
| `Configuration.Resolve` | main.swift:21-63 | the resolved configuration (with the corrected size, so heights above Int.max/4 fall back instead of trapping): a listed screen, a non-negative size, a window right-aligned on the screen's visible frame and resting on its bottom edge, an opacity in [0, 1] and a web URL |
| `Configuration.FallbackWindowInsideVisibleFrame` | main.swift:34-46 | without a usable height the window lies entirely within the chosen visible frame, flush with its bottom-left and right edges |
| `Configuration.SingleArgumentIsUrl` | main.swift:8-63 | a single web-URL argument is shown on the main screen at the fallback size |
| `Presentation.FoldStep` | main.swift:100 | one step `(acc << 8) + byte` never overflows and equals (acc·256 + byte) mod 2^32 |
| `Presentation.PackSignature` | main.swift:100 | the `reduce` over any bytes never traps and stays below 2^32 |
| `Presentation.BigEndianBound` | main.swift:100 | n bytes read big-endian are below 256^n |
| `Presentation.PackSignatureIsBigEndian` | main.swift:100 | the fold's result is the big-endian value of the bytes modulo 2^32 |
| `Presentation.PackSignatureFits` | main.swift:100 | for at most four bytes the fold is exactly the big-endian value (no overflow) |
| `Presentation.LoafPacksBigEndian` | main.swift:100 | folding the bytes of "loaf" gives (('l'·256 + 'o')·256 + 'a')·256 + 'f' = 0x6C6F6166 |
| `Presentation.Signature` | main.swift:100 | the hotkey signature is 0x6C6F6166, the big-endian packing of "loaf" |
| `Presentation.Toggled` | main.swift:115 | a press gives the configured alpha or 0; for a non-zero alpha it gives the configured alpha exactly when the window showed something else |
| `Presentation.TwoPressesFromVisible` | main.swift:115 | two presses from Visible return exactly to the configured alpha |
| `Presentation.ToggledIsInvolution` | main.swift:115 | on the two states {configured alpha, 0} a press undoes the previous one |
| `Presentation.Window.constructor` | main.swift:68-75 | the window starts at the configured opacity and receives mouse events |
| `Presentation.AppDelegate.constructor` | main.swift:84-86 | the delegate keeps the configured alpha; its window starts Visible |
| `Presentation.AppDelegate.HandleHotkey` | main.swift:113-116 | after a press the window ignores mouse events, its opacity is the toggled value, it is in one of the two states, and nothing else changes |

## Left out

- Window, web-view and application setup (main.swift:66-80, 88-95, 119-126): calls into AppKit and WebKit with no logic of their own.
- Carbon hotkey registration and the opaque-pointer callback bridge (main.swift:97-111): foreign C APIs. Only the signature value at line 100 is modelled. The key code, the modifier mask and the callback's nil-pointer `eventNotHandledErr` path are not.
- `Float(_:)` and `URL(string:)` are parameters: their parsing is Swift and Foundation code that is not part of this model. `Float` to `CGFloat` conversion and floating-point rounding are not modelled (opacity is a `real`).
- `Configuration.FrameSize`: the screen geometry is assumed small enough that `Int(width)`, `width * 3` and `maxX - width` cannot overflow or trap. Real visible frames are a few thousand points.
- `Configuration.Resolve`: built on the corrected `WindowSize`, so for a height in (Int.max/4, Int.max] it returns a configuration where the code as written traps; `Configuration.WindowSizeAsWritten` models the trap.
- Visible frames are assumed integral, and CGFloat rounding is not modelled: `maxX - size.width` (main.swift:44) and the `NSSize`/`NSPoint` values are CGFloat in the source, so a fractional frame, or a width above 2^53, rounds there and not here.
- `Configuration.SelectScreenByIndex`: stated only for indices up to Int.max. No Swift array holds more elements.
- `NSScreen.main` is modelled as a fixed index into the screen list. The notion "the screen with keyboard focus" is not.
- Lazy evaluation order and memoisation of `AppConfig`'s properties. The inputs are fixed, so evaluating each once is the same as evaluating it when first used.
- The delivery of hotkey presses by the event loop: each press is one call of `HandleHotkey`.

## Findings

| source | as written | input that shows it | evidently intended | confidence | as-written member | corrected member |
|---|---|---|---|---|---|---|
| main.swift:31-32 | `Int(arguments[1])` accepts any positive `Int`, then `height * 4` is computed in 64-bit `Int` and traps on overflow | height argument `2305843009213693952` (Int.max/4 + 1) | every unusable field falls back to a default, as every other property in `AppConfig` does; such a height should give the screen-derived size | medium; not executed | `Configuration.WindowSizeAsWrittenTraps` | `Configuration.WindowSize` |
