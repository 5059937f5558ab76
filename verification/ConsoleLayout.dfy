/**
 The text of a console line: colours, prefix, body, padding and suffix, and what a terminal shows of it.
 Rendered pieces are inputs; colour escapes, padding and the integer arithmetic of the width are modelled.
 */
module ConsoleLayout {
  import opened Bytes
  import opened DltProtocol

  const ESC: byte := 27
  const LETTER_M: byte := 109
  const NEWLINE: byte := 10

  const ANSI_COLOR_OFF: bytes := [27, 91, 48, 109]
  const ANSI_COLOR_RED: bytes := [27, 91, 51, 49, 109]
  const ANSI_COLOR_GREEN: bytes := [27, 91, 51, 50, 109]
  const ANSI_COLOR_MAGENTA: bytes := [27, 91, 51, 53, 109]
  const ANSI_COLOR_BRIGHT: bytes := [27, 91, 49, 109]

  const DEFAULT_WIDTH: nat := 150

  function HeaderColor(colors: bool, level: LogLevel): bytes {
    if !colors then []
    else if level.Warning? then ANSI_COLOR_MAGENTA
    else if level.Error? || level.Fatal? then ANSI_COLOR_RED + ANSI_COLOR_BRIGHT
    else if level.Verbose? then ANSI_COLOR_GREEN
    else ANSI_COLOR_OFF
  }

  function ResetColor(colors: bool): bytes {
    if colors then ANSI_COLOR_OFF + ANSI_COLOR_OFF else []
  }

  // ---- the width arithmetic ----------------------------------------------------------------

  /** Conversion of an unsigned value to a 32-bit int. */
  function Int32(x: int): (v: int)
    ensures -0x8000_0000 <= v < 0x8000_0000
  {
    var low := x % 0x1_0000_0000;
    if low >= 0x8000_0000 then low - 0x1_0000_0000 else low
  }

  /** `width -= contentSize + suffixSize - invisible`, computed in 64-bit unsigned and stored in an int. */
  function Remaining(width: int, contentSize: nat, suffixSize: nat, invisible: int): int {
    Int32((width - (contentSize + suffixSize - invisible) % 0x1_0000_0000_0000_0000) % 0x1_0000_0000_0000_0000)
  }

  lemma {:induction false} RemainingExact(width: int, contentSize: nat, suffixSize: nat, invisible: int)
    ensures
      var exact := width - (contentSize + suffixSize - invisible);
      Remaining(width, contentSize, suffixSize, invisible) == exact <==> -0x8000_0000 <= exact < 0x8000_0000
  {
    var sum := contentSize + suffixSize - invisible;
    WrapOnce(width, sum);
    WrapTwice(width - sum);
    Int32Exact(width - sum);
  }

  lemma WrapOnce(a: int, b: int)
    ensures (a - b % 0x1_0000_0000_0000_0000) % 0x1_0000_0000_0000_0000 == (a - b) % 0x1_0000_0000_0000_0000
  {
    var q := b / 0x1_0000_0000_0000_0000;
    assert a - b % 0x1_0000_0000_0000_0000 == (a - b) + q * 0x1_0000_0000_0000_0000;
  }

  lemma AddMultiple(y: int, k: int)
    ensures (y + k * 0x1_0000_0000) % 0x1_0000_0000 == y % 0x1_0000_0000
  {
  }

  lemma WrapTwice(x: int)
    ensures Int32(x % 0x1_0000_0000_0000_0000) == Int32(x)
  {
    var y, q := x % 0x1_0000_0000_0000_0000, x / 0x1_0000_0000_0000_0000;
    AddMultiple(y, q * 0x1_0000_0000);
    assert x == y + (q * 0x1_0000_0000) * 0x1_0000_0000;
  }

  lemma Int32Exact(x: int)
    ensures Int32(x) == x <==> -0x8000_0000 <= x < 0x8000_0000
  {
  }

  function Max(a: int, b: int): int {
    if a >= b then a else b
  }

  /**
   What is written between the line and its suffix; `width` and `widthAgain` are two readings of the
   console width.
   */
  function Padding(contentSize: nat, suffixSize: nat, invisible: int, width: nat, widthAgain: nat): bytes {
    var remaining := Remaining(if width == 0 then DEFAULT_WIDTH else width, contentSize, suffixSize, invisible);
    if remaining < 0 then [NEWLINE] + Spaces(Max(0, Int32(widthAgain - suffixSize))) else Spaces(remaining)
  }

  // ---- what a terminal shows ---------------------------------------------------------------

  /** What is shown of `s`; `inside` says that an escape sequence is open before it. */
  function Shown(inside: bool, s: bytes): (shown: bytes)
    ensures |shown| <= |s|
    decreases s
  {
    if s == [] then []
    else if inside then Shown(s[0] != LETTER_M, s[1..])
    else if s[0] == ESC then Shown(true, s[1..])
    else [s[0]] + Shown(false, s[1..])
  }

  /** Whether an escape sequence is open after `s`. */
  predicate Inside(inside: bool, s: bytes)
    decreases s
  {
    if s == [] then inside else Inside(if inside then s[0] != LETTER_M else s[0] == ESC, s[1..])
  }

  function Visible(s: bytes): (shown: bytes)
    ensures |shown| <= |s|
  {
    Shown(false, s)
  }

  predicate NoEscape(s: bytes) {
    forall i | 0 <= i < |s| :: s[i] != ESC
  }

  lemma {:induction false} ShownConcat(inside: bool, a: bytes, b: bytes)
    ensures Shown(inside, a + b) == Shown(inside, a) + Shown(Inside(inside, a), b)
    ensures Inside(inside, a + b) == Inside(Inside(inside, a), b)
    decreases a
  {
    if a == [] {
      assert a + b == b;
    } else {
      assert (a + b)[1..] == a[1..] + b;
      ShownConcat(if inside then a[0] != LETTER_M else a[0] == ESC, a[1..], b);
    }
  }

  /** A text is shown unchanged, or only as long as it is, exactly if it holds no escape character. */
  lemma {:induction false} ShownWhole(s: bytes)
    ensures |Shown(false, s)| == |s| <==> NoEscape(s)
    ensures NoEscape(s) ==> Shown(false, s) == s && !Inside(false, s)
  {
    if s != [] {
      ShownWhole(s[1..]);
      assert s == [s[0]] + s[1..];
    }
  }

  /** Escape sequences are hidden whole, even inside another one, and leave none open. */
  ghost predicate AllHidden(s: bytes) {
    forall inside :: Shown(inside, s) == [] && Inside(inside, s) == (inside && s == [])
  }

  lemma {:induction false} EscapeBody(w: bytes)
    requires LETTER_M !in w
    ensures Shown(true, w + [LETTER_M]) == [] && !Inside(true, w + [LETTER_M])
  {
    if w == [] {
      assert w + [LETTER_M] == [LETTER_M];
    } else {
      EscapeBody(w[1..]);
      assert (w + [LETTER_M])[1..] == w[1..] + [LETTER_M];
    }
  }

  lemma EscapeHidden(w: bytes)
    requires LETTER_M !in w
    ensures AllHidden([ESC] + w + [LETTER_M])
  {
    EscapeBody(w);
    EscapeBody([ESC] + w);
    assert ([ESC] + w + [LETTER_M])[1..] == w + [LETTER_M];
  }

  lemma HiddenTwice(a: bytes, b: bytes)
    requires AllHidden(a) && AllHidden(b) && a != []
    ensures AllHidden(a + b)
  {
    hide Shown, Inside;
    forall inside ensures Shown(inside, a + b) == [] && !Inside(inside, a + b) {
      ShownConcat(inside, a, b);
    }
  }

  lemma ColorsHidden(colors: bool, level: LogLevel)
    ensures AllHidden(HeaderColor(colors, level)) && AllHidden(ResetColor(colors))
  {
    assert AllHidden([]);
    hide AllHidden;
    EscapeHidden([91, 48]);
    EscapeHidden([91, 51, 49]);
    EscapeHidden([91, 51, 50]);
    EscapeHidden([91, 51, 53]);
    EscapeHidden([91, 49]);
    assert [ESC] + [91, 48] + [LETTER_M] == ANSI_COLOR_OFF && [ESC] + [91, 49] + [LETTER_M] == ANSI_COLOR_BRIGHT;
    assert [ESC] + [91, 51, 49] + [LETTER_M] == ANSI_COLOR_RED && [ESC] + [91, 51, 50] + [LETTER_M] == ANSI_COLOR_GREEN;
    assert [ESC] + [91, 51, 53] + [LETTER_M] == ANSI_COLOR_MAGENTA;
    HiddenTwice(ANSI_COLOR_OFF, ANSI_COLOR_OFF);
    HiddenTwice(ANSI_COLOR_RED, ANSI_COLOR_BRIGHT);
  }

  // ---- a whole line ------------------------------------------------------------------------

  /** The line when its padding is computed: coloured prefix, body, and the colour of the suffix. */
  function LineStart(colors: bool, level: LogLevel, prefix: bytes, body: bytes): bytes {
    HeaderColor(colors, level) + prefix + ResetColor(colors) + body + HeaderColor(colors, level)
  }

  /** m_invisibleCharacterCount at that time. */
  function InvisibleCount(colors: bool, level: LogLevel): nat {
    |HeaderColor(colors, level)| + |ResetColor(colors)| + |HeaderColor(colors, level)|
  }

  function WholeLine(
    colors: bool, level: LogLevel, prefix: bytes, body: bytes, suffix: bytes, width: nat, widthAgain: nat): bytes
  {
    var start := LineStart(colors, level, prefix, body);
    start + Padding(|start|, |suffix|, InvisibleCount(colors, level), width, widthAgain) + suffix + ResetColor(colors)
  }

  /** Colours are hidden, and close what the prefix or the body leaves open. */
  lemma LineStartShown(colors: bool, level: LogLevel, prefix: bytes, body: bytes)
    ensures
      var start, inside := LineStart(colors, level, prefix, body), !colors && Inside(false, prefix);
      && Visible(start) == Shown(false, prefix) + Shown(inside, body)
      && Inside(false, start) == (!colors && Inside(inside, body))
  {
    hide Shown, Inside;
    ColorsHidden(colors, level);
    var color, reset := HeaderColor(colors, level), ResetColor(colors);
    ShownConcat(false, color, prefix);
    ShownConcat(false, color + prefix, reset);
    ShownConcat(false, color + prefix + reset, body);
    ShownConcat(false, color + prefix + reset + body, color);
  }

  /** The count of invisible characters is right exactly if prefix and body bring no escape of their own. */
  lemma LineStartVisible(colors: bool, level: LogLevel, prefix: bytes, body: bytes)
    ensures
      var start, plain := LineStart(colors, level, prefix, body), NoEscape(prefix) && NoEscape(body);
      && InvisibleCount(colors, level) <= |start| - |Visible(start)|
      && (InvisibleCount(colors, level) == |start| - |Visible(start)| <==> plain)
      && (Visible(start) == prefix + body <==> plain)
      && (plain ==> !Inside(false, start))
  {
    hide Shown, Inside, HeaderColor, ResetColor, NoEscape;
    LineStartShown(colors, level, prefix, body);
    ShownWhole(prefix);
    ShownWhole(body);
  }

  /**
   A terminal shows exactly prefix, body, padding and suffix if these bring no escape of their own, and
   less if not.
   */
  lemma WholeLineVisible(
    colors: bool, level: LogLevel, prefix: bytes, body: bytes, suffix: bytes, width: nat, widthAgain: nat)
    ensures
      var padding := Padding(|LineStart(colors, level, prefix, body)|, |suffix|, InvisibleCount(colors, level),
        width, widthAgain);
      var shown := Visible(WholeLine(colors, level, prefix, body, suffix, width, widthAgain));
      var plain := NoEscape(prefix) && NoEscape(body) && NoEscape(suffix);
      && (shown == prefix + body + padding + suffix <==> plain)
      && (|shown| == |prefix| + |body| + |padding| + |suffix| <==> plain)
      && |shown| <= |prefix| + |body| + |padding| + |suffix|
  {
    hide Shown, Inside, HeaderColor, ResetColor, LineStart, InvisibleCount, Remaining, NoEscape;
    LineStartVisible(colors, level, prefix, body);
    ColorsHidden(colors, level);
    LineStartSize(colors, level, prefix, body);
    var start, reset := LineStart(colors, level, prefix, body), ResetColor(colors);
    var padding := Padding(|start|, |suffix|, InvisibleCount(colors, level), width, widthAgain);
    PaddingPlain(|start|, |suffix|, InvisibleCount(colors, level), width, widthAgain);
    ShownWhole(padding);
    ShownWhole(suffix);
    ShownConcat(false, start, padding);
    ShownConcat(false, start + padding, suffix);
    ShownConcat(false, start + padding + suffix, reset);
  }

  lemma PaddingPlain(contentSize: nat, suffixSize: nat, invisible: int, width: nat, widthAgain: nat)
    ensures NoEscape(Padding(contentSize, suffixSize, invisible, width, widthAgain))
  {
    hide Remaining, Int32;
  }

  /**
   The layout of a console line (the suffix includes the newline). If everything fits in the width, the
   visible length is exactly the width; otherwise the suffix starts a new line that is as long as the
   console is wide, or as the suffix if that is longer. Both exactly if the pieces bring no escape
   characters of their own: any that they bring make the visible line too short.
   */
  lemma Layout(
    colors: bool, level: LogLevel, prefix: bytes, body: bytes, suffix: bytes, width: nat, widthAgain: nat)
    requires |prefix| + |body| + |suffix| < 0x8000_0000 && width < 0x8000_0000 && widthAgain < 0x8000_0000
    ensures
      var shown := Visible(WholeLine(colors, level, prefix, body, suffix, width, widthAgain));
      var chosen, needed := if width == 0 then 150 else width, |prefix| + |body| + |suffix|;
      var plain := NoEscape(prefix) && NoEscape(body) && NoEscape(suffix);
      if needed <= chosen then
        && (shown == prefix + body + Spaces(chosen - needed) + suffix <==> plain)
        && |shown| <= chosen && (|shown| == chosen <==> plain)
      else
        var second := Spaces(Max(0, widthAgain - |suffix|)) + suffix;
        (shown == prefix + body + [10] + second <==> plain) && |second| == Max(widthAgain, |suffix|)
  {
    hide Visible, LineStart, InvisibleCount, HeaderColor, ResetColor, Padding, NoEscape;
    WholeLineVisible(colors, level, prefix, body, suffix, width, widthAgain);
    LineStartSize(colors, level, prefix, body);
    PaddingIs(|LineStart(colors, level, prefix, body)|, |suffix|, InvisibleCount(colors, level), width, widthAgain);
  }

  /** The padding of a line of moderate size. */
  lemma PaddingIs(contentSize: nat, suffixSize: nat, invisible: nat, width: nat, widthAgain: nat)
    requires invisible <= contentSize && contentSize + suffixSize - invisible < 0x8000_0000
    requires width < 0x8000_0000 && widthAgain < 0x8000_0000
    ensures
      var chosen, needed := if width == 0 then 150 else width, contentSize + suffixSize - invisible;
      Padding(contentSize, suffixSize, invisible, width, widthAgain) ==
        if needed <= chosen then Spaces(chosen - needed) else [10] + Spaces(Max(0, widthAgain - suffixSize))
  {
    hide Spaces;
    RemainingExact(if width == 0 then DEFAULT_WIDTH else width, contentSize, suffixSize, invisible);
    hide Remaining;
    Int32Exact(widthAgain - suffixSize);
  }

  lemma LineStartSize(colors: bool, level: LogLevel, prefix: bytes, body: bytes)
    ensures |LineStart(colors, level, prefix, body)| == |prefix| + |body| + InvisibleCount(colors, level)
  {
    hide HeaderColor, ResetColor;
  }

  /** A body with a colour of its own is not aligned: of 80 columns, five are missing. */
  lemma MisalignedExample()
    ensures |Visible(WholeLine(false, Info, [], ANSI_COLOR_RED + [65], [NEWLINE], 80, 80))| == 75
  {
    hide Shown, Inside, Remaining;
    var body := ANSI_COLOR_RED + [65];
    var start := LineStart(false, Info, [], body);
    assert start == body;
    var padding := Padding(|start|, 1, InvisibleCount(false, Info), 80, 80);
    assert |padding| == 73 by { RemainingExact(80, |start|, 1, 0); }
    assert WholeLine(false, Info, [], body, [NEWLINE], 80, 80) == ANSI_COLOR_RED + ([65] + padding + [NEWLINE]);
    PaddingPlain(|start|, 1, 0, 80, 80);
    RedHidden();
    ShownConcat(false, ANSI_COLOR_RED, [65] + padding + [NEWLINE]);
    ShownWhole([65] + padding + [NEWLINE]);
  }

  lemma RedHidden()
    ensures AllHidden(ANSI_COLOR_RED)
  {
    EscapeHidden([91, 51, 49]);
    assert [ESC] + [91, 51, 49] + [LETTER_M] == ANSI_COLOR_RED;
  }
}
