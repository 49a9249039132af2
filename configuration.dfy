/** `AppConfig` of main.swift: the command line is right-aligned into four
    positional slots `[screen, height, alpha, url]`, and each slot is resolved
    with a silent fallback. The code stops only where `height * 4` overflows
    (see `WindowSizeAsWritten`) or where there is no main screen.

    The screen list (`NSScreen.screens`) and the main screen (`NSScreen.main`)
    are a `Displays` value given as a parameter; each screen is represented by
    its visible frame in integer points. `Float(_:)` and the scheme of
    `URL(string:)` are parameters too. The lazy properties are computed once
    from these fixed inputs, so each is a function here. */
module Configuration {
  import opened Wrappers
  import opened SwiftInt

  /** Number of leading command-line elements dropped (the program name). */
  const Starting: nat := 1
  /** Number of positional slots. */
  const SlotCount: nat := 4

  const ScreenSlot: nat := 0
  const HeightSlot: nat := 1
  const AlphaSlot: nat := 2
  const UrlSlot: nat := 3

  const DefaultAlpha: real := 0.1
  const DefaultUrl: string := "https://www.google.com/"

  /** `n` empty strings. */
  function Blanks(n: nat): (r: seq<string>)
    ensures |r| == n && forall i :: 0 <= i < n ==> r[i] == ""
  {
    seq(n, _ => "")
  }

  /** `dropFirst(1)`: removes the program name; an empty list stays empty. */
  function DropFirst(commandLine: seq<string>): (arguments: seq<string>)
    ensures |commandLine| > 0 ==> arguments == commandLine[1..]
    ensures |commandLine| == 0 ==> arguments == []
  {
    if |commandLine| < Starting then [] else commandLine[Starting..]
  }

  /** The closure `argument`: slot `item` takes the user argument `item - omitted`
      when that index exists, and `""` otherwise. */
  function Argument(arguments: seq<string>, item: int): (a: string)
    ensures a == "" || a in arguments
    ensures |arguments| <= SlotCount ==>
              (a != "" ==> SlotCount - |arguments| <= item)
    ensures |arguments| <= SlotCount && SlotCount - |arguments| <= item < SlotCount ==>
              a == arguments[item - (SlotCount - |arguments|)]
    ensures SlotCount <= |arguments| && 0 <= item < SlotCount ==> a == arguments[item]
  {
    var omitted := if SlotCount - |arguments| > 0 then SlotCount - |arguments| else 0;
    var offset := item - omitted;
    if 0 <= offset < |arguments| then arguments[offset] else ""
  }

  /** `AppConfig.init`: exactly four slots, each a user argument or `""`. */
  function Slots(commandLine: seq<string>): (slots: seq<string>)
    ensures |slots| == SlotCount
    ensures forall i :: 0 <= i < SlotCount ==> slots[i] == "" || slots[i] in DropFirst(commandLine)
  {
    var arguments := DropFirst(commandLine);
    seq(SlotCount, item => Argument(arguments, item))
  }

  /** The program name never reaches a slot: two command lines that differ only
      in element 0 give the same slots. */
  lemma SlotsIgnoreProgramName(programName: string, otherName: string, arguments: seq<string>)
    ensures Slots([programName] + arguments) == Slots([otherName] + arguments)
  {
    assert DropFirst([programName] + arguments) == arguments;
    assert DropFirst([otherName] + arguments) == arguments;
  }

  /** With at most four user arguments they fill the LAST slots in order and the
      leading slots are blank; e.g. a single argument lands in the url slot. */
  lemma SlotsRightAligned(programName: string, arguments: seq<string>)
    requires |arguments| <= SlotCount
    ensures Slots([programName] + arguments) == Blanks(SlotCount - |arguments|) + arguments
  {
    var commandLine := [programName] + arguments;
    assert DropFirst(commandLine) == arguments;
    var slots := Slots(commandLine);
    var expected := Blanks(SlotCount - |arguments|) + arguments;
    forall i | 0 <= i < SlotCount
      ensures slots[i] == expected[i]
    {
      assert slots[i] == Argument(arguments, i);
    }
  }

  /** With four or more user arguments the slots are the first four of them;
      the fifth and later are ignored. */
  lemma SlotsTruncated(programName: string, arguments: seq<string>)
    requires |arguments| >= SlotCount
    ensures Slots([programName] + arguments) == arguments[..SlotCount]
  {
    var commandLine := [programName] + arguments;
    assert DropFirst(commandLine) == arguments;
    var slots := Slots(commandLine);
    forall i | 0 <= i < SlotCount
      ensures slots[i] == arguments[i]
    {
      assert slots[i] == Argument(arguments, i);
    }
  }

  /** An empty command line (not even a program name) gives four blank slots. */
  lemma SlotsOfEmptyCommandLine()
    ensures Slots([]) == Blanks(SlotCount)
  {
    var slots := Slots([]);
    forall i | 0 <= i < SlotCount
      ensures slots[i] == ""
    {
      assert slots[i] == Argument([], i);
    }
  }

  // ---------------------------------------------------------------------------
  // Screens and geometry

  /** An axis-aligned rectangle in points; origin at the bottom-left corner. */
  datatype Rect = Rect(x: int, y: int, width: nat, height: nat) {
    function MinX(): int { x }
    function MaxX(): int { x + width }
    function MinY(): int { y }
    function MaxY(): int { y + height }

    /** `other` lies entirely inside this rectangle. */
    predicate Contains(other: Rect) {
      MinX() <= other.MinX() && other.MaxX() <= MaxX() &&
      MinY() <= other.MinY() && other.MaxY() <= MaxY()
    }
  }

  /** An `NSScreen`, represented by its `visibleFrame`. */
  datatype Screen = Screen(visibleFrame: Rect)

  /** `NSScreen.screens` in order, and the index of `NSScreen.main` in it. */
  datatype Displays = Displays(screens: seq<Screen>, main: nat) {
    /** `NSScreen.main!` does not trap: a main screen exists. */
    predicate HasMain() {
      main < |screens|
    }
  }

  datatype Size = Size(width: int, height: int)
  datatype Point = Point(x: int, y: int)

  /** The `screen` property: the slot selects a screen when it parses to an
      index in range, and the main screen otherwise. */
  function SelectScreen(slot: string, displays: Displays): (screen: Screen)
    requires displays.HasMain()
    ensures screen in displays.screens
    ensures screen != displays.screens[displays.main] ==>
              ParseInt(slot).Some? && 0 <= ParseInt(slot).value < |displays.screens|
    ensures ParseInt(slot).Some? && 0 <= ParseInt(slot).value < |displays.screens| ==>
              screen == displays.screens[ParseInt(slot).value]
  {
    match ParseInt(slot)
    case Some(index) =>
      if 0 <= index < |displays.screens| then displays.screens[index] else displays.screens[displays.main]
    case None => displays.screens[displays.main]
  }

  /** Every in-range index, written in decimal, selects exactly that screen. */
  lemma SelectScreenByIndex(k: nat, displays: Displays)
    requires displays.HasMain() && k < |displays.screens| && k <= IntMax
    ensures SelectScreen(Decimal(k), displays) == displays.screens[k]
  {
    ParseDecimal(k);
  }

  /** A leading `+` selects the same screen. */
  lemma SelectScreenPlusSign(k: nat, displays: Displays)
    requires displays.HasMain() && k < |displays.screens| && k <= IntMax
    ensures SelectScreen("+" + Decimal(k), displays) == displays.screens[k]
  {
    var slot := "+" + Decimal(k);
    assert slot[1..] == Decimal(k);
    DecimalValue(k);
    assert ParseInt(slot) == Some(k);
  }

  /** A leading zero selects the same screen. */
  lemma SelectScreenLeadingZero(k: nat, displays: Displays)
    requires displays.HasMain() && k < |displays.screens| && k <= IntMax
    ensures SelectScreen("0" + Decimal(k), displays) == displays.screens[k]
  {
    var slot := "0" + Decimal(k);
    DecimalValue(k);
    LeadingZeroValue(Decimal(k));
    assert ParseInt(slot) == Some(k);
  }

  /** `-0` is index 0, not a negative index. */
  lemma SelectScreenMinusZero(displays: Displays)
    requires displays.HasMain()
    ensures SelectScreen("-0", displays) == displays.screens[0]
  {
    assert "-0"[1..] == "0" && "0"[..0] == "";
    assert DigitsValue("0") == 0;
    assert ParseInt("-0") == Some(0);
  }

  /** A negative index selects the main screen. */
  lemma SelectScreenNegative(k: nat, displays: Displays)
    requires displays.HasMain() && 0 < k <= -IntMin
    ensures SelectScreen("-" + Decimal(k), displays) == displays.screens[displays.main]
  {
    ParseNegativeDecimal(k);
  }

  /** An index past the last screen selects the main screen. */
  lemma SelectScreenTooLarge(k: nat, displays: Displays)
    requires displays.HasMain() && |displays.screens| <= k
    ensures SelectScreen(Decimal(k), displays) == displays.screens[displays.main]
  {
    if k <= IntMax {
      ParseDecimal(k);
    } else {
      ParseRejectsOverflow(k);
    }
  }

  /** A blank slot (no argument given) selects the main screen. */
  lemma SelectScreenBlank(displays: Displays)
    requires displays.HasMain()
    ensures SelectScreen("", displays) == displays.screens[displays.main]
  {
    ParseRejectsNoDigits();
  }

  /** Largest requested height for which `height * 4` fits in `Int`. */
  const MaxHeight: int := IntMax / 4

  /** The height slot holds a usable height. */
  predicate HasHeight(slot: string) {
    ParseInt(slot).Some? && 0 < ParseInt(slot).value <= MaxHeight
  }

  /** The `size` property as written: `height * 4` traps (None) once it leaves
      the range of `Int`. */
  function WindowSizeAsWritten(slot: string, frame: Rect): (r: Option<Size>)
    ensures r.None? <==> ParseInt(slot).Some? && ParseInt(slot).value > MaxHeight
    ensures r.Some? ==> r.value == WindowSize(slot, frame)
  {
    match ParseInt(slot)
    case Some(height) =>
      if height > 0 then
        if InIntRange(height * 4) then Some(Size(height * 4 / 3, height)) else None
      else Some(FrameSize(frame))
    case None => Some(FrameSize(frame))
  }

  /** A height between `Int.max / 4` and `Int.max` parses, but sizing the window
      with it traps instead of falling back. */
  lemma WindowSizeAsWrittenTraps(h: nat, frame: Rect)
    requires MaxHeight < h <= IntMax
    ensures ParseInt(Decimal(h)) == Some(h)
    ensures WindowSizeAsWritten(Decimal(h), frame).None?
  {
    ParseDecimal(h);
  }

  /** The fallback size: the visible frame's width, and its height capped so the
      window is no taller than 4:3. */
  function FrameSize(frame: Rect): (r: Size)
    ensures r.width == frame.width
    ensures r.height <= frame.height && 4 * r.height <= 3 * r.width
    ensures r.height == frame.height || 3 * r.width < 4 * (r.height + 1)
  {
    var width := frame.width;
    var height := if frame.height <= width * 3 / 4 then frame.height else width * 3 / 4;
    Size(width, height)
  }

  /** The `size` property: a usable height gives a 4:3 window whose width is
      `height * 4 / 3` truncated; anything else gives the fallback size. */
  function WindowSize(slot: string, frame: Rect): (r: Size)
    ensures HasHeight(slot) ==> r.height == ParseInt(slot).value
    ensures HasHeight(slot) ==> 3 * r.width <= 4 * r.height < 3 * r.width + 3
    ensures !HasHeight(slot) ==> r == FrameSize(frame)
  {
    if HasHeight(slot) then
      var height := ParseInt(slot).value;
      Size(height * 4 / 3, height)
    else
      FrameSize(frame)
  }

  /** Every height from 1 to `Int.max / 4`, written in decimal, gives that height
      and a 4:3 width. */
  lemma WindowSizeForHeight(h: nat, frame: Rect)
    requires 0 < h <= MaxHeight
    ensures WindowSize(Decimal(h), frame) == Size(h * 4 / 3, h)
  {
    ParseDecimal(h);
  }

  /** The `origin` property: the window's right edge is on the visible frame's
      right edge and its bottom edge on the visible frame's bottom edge. */
  function WindowOrigin(frame: Rect, size: Size): (p: Point)
    ensures p.x + size.width == frame.MaxX()
    ensures p.y == frame.MinY()
  {
    Point(frame.MaxX() - size.width, frame.MinY())
  }

  /** The `alpha` property: a slot that parses to a value in [0, 1] is used,
      anything else gives 0.1. */
  function Alpha(slot: string, parseFloat: string -> Option<real>): (a: real)
    ensures 0.0 <= a <= 1.0
    ensures a != DefaultAlpha ==> parseFloat(slot) == Some(a)
    ensures parseFloat(slot).Some? && 0.0 <= parseFloat(slot).value <= 1.0 ==>
              a == parseFloat(slot).value
  {
    match parseFloat(slot)
    case Some(alpha) => if 0.0 <= alpha <= 1.0 then alpha else DefaultAlpha
    case None => DefaultAlpha
  }

  predicate IsWebScheme(scheme: Option<string>) {
    scheme == Some("http") || scheme == Some("https")
  }

  /** The `url` property: the slot when its scheme is http or https, the fixed
      default page otherwise. `urlScheme(s)` is the scheme of `URL(string: s)`,
      None when the text is not a URL or the URL has no scheme. */
  function ResolveUrl(slot: string, urlScheme: string -> Option<string>): (url: string)
    requires urlScheme(DefaultUrl) == Some("https")
    ensures IsWebScheme(urlScheme(url))
    ensures url == slot || url == DefaultUrl
    ensures IsWebScheme(urlScheme(slot)) ==> url == slot
  {
    if IsWebScheme(urlScheme(slot)) then slot else DefaultUrl
  }

  /** The resolved configuration. */
  datatype Config = Config(screen: Screen, size: Size, origin: Point, alpha: real, url: string) {
    /** The window's frame on screen. */
    function Frame(): Rect
      requires size.width >= 0 && size.height >= 0
    {
      Rect(origin.x, origin.y, size.width, size.height)
    }
  }

  /** An `AppConfig` with every lazy property evaluated. */
  function Resolve(commandLine: seq<string>, displays: Displays,
                   parseFloat: string -> Option<real>,
                   urlScheme: string -> Option<string>): (c: Config)
    requires displays.HasMain()
    requires urlScheme(DefaultUrl) == Some("https")
    ensures c.screen in displays.screens
    ensures c.size.width >= 0 && c.size.height >= 0
    ensures c.origin.x + c.size.width == c.screen.visibleFrame.MaxX()
    ensures c.origin.y == c.screen.visibleFrame.MinY()
    ensures 0.0 <= c.alpha <= 1.0 && IsWebScheme(urlScheme(c.url))
  {
    var slots := Slots(commandLine);
    var screen := SelectScreen(slots[ScreenSlot], displays);
    var size := WindowSize(slots[HeightSlot], screen.visibleFrame);
    Config(screen, size, WindowOrigin(screen.visibleFrame, size),
           Alpha(slots[AlphaSlot], parseFloat), ResolveUrl(slots[UrlSlot], urlScheme))
  }

  /** Without a usable height the window lies entirely inside the chosen screen's
      visible frame, flush with its bottom-right corner. */
  lemma FallbackWindowInsideVisibleFrame(commandLine: seq<string>, displays: Displays,
                                         parseFloat: string -> Option<real>,
                                         urlScheme: string -> Option<string>)
    requires displays.HasMain()
    requires urlScheme(DefaultUrl) == Some("https")
    requires !HasHeight(Slots(commandLine)[HeightSlot])
    ensures var c := Resolve(commandLine, displays, parseFloat, urlScheme);
            c.screen.visibleFrame.Contains(c.Frame()) &&
            c.Frame().MinX() == c.screen.visibleFrame.MinX() &&
            c.Frame().MinY() == c.screen.visibleFrame.MinY()
  {
  }

  /** A one-argument command line shows that argument (when it is a web URL) on
      the main screen at the fallback size. */
  lemma SingleArgumentIsUrl(programName: string, url: string, displays: Displays,
                            parseFloat: string -> Option<real>,
                            urlScheme: string -> Option<string>)
    requires displays.HasMain()
    requires urlScheme(DefaultUrl) == Some("https") && IsWebScheme(urlScheme(url))
    ensures var c := Resolve([programName, url], displays, parseFloat, urlScheme);
            c.url == url &&
            c.screen == displays.screens[displays.main] &&
            c.size == FrameSize(c.screen.visibleFrame)
  {
    SlotsRightAligned(programName, [url]);
    ParseRejectsNoDigits();
  }
}
