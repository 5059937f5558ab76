/**
 What a terminal does with the colours of a console line: it reads the select graphic rendition sequences
 (section 8.3.117 of ECMA-48) and shows every other character in the style they have selected.
 */
module ConsoleStyle {
  import opened Bytes
  import opened DltProtocol
  import opened ConsoleLayout

  datatype Color = Default | Red | Green | Magenta | AnotherColor

  datatype Style = Style(color: Color, bright: bool)

  /** Inside an escape sequence: after its introducer, in a number, or in what the terminal does not know. */
  datatype Mode = Reading | Escaped | Number(n: nat) | Skipping

  datatype Terminal = Terminal(mode: Mode, style: Style)

  /** A terminal that shows plain text. */
  const PLAIN := Terminal(Reading, Style(Default, false))

  function Selected(style: Style, code: nat): Style {
    if code == 0 then Style(Default, false)
    else if code == 1 then style.(bright := true)
    else if code == 31 then style.(color := Red)
    else if code == 32 then style.(color := Green)
    else if code == 35 then style.(color := Magenta)
    else if 30 <= code < 38 then style.(color := AnotherColor)
    else style
  }

  function Next(t: Terminal, b: byte): Terminal {
    match t.mode
    case Reading => if b == 27 then t.(mode := Escaped) else t
    case Escaped => t.(mode := if b == 91 then Number(0) else if b == 109 then Reading else Skipping)
    case Number(n) =>
      if 48 <= b <= 57 then t.(mode := Number(10 * n + (b - 48)))
      else if b == 109 then Terminal(Reading, Selected(t.style, n))
      else if b == 59 then Terminal(Number(0), Selected(t.style, n))
      else t.(mode := Skipping)
    case Skipping => t.(mode := if b == 109 then Reading else Skipping)
  }

  function After(t: Terminal, s: bytes): Terminal
    decreases s
  {
    if s == [] then t else After(Next(t, s[0]), s[1..])
  }

  /** The characters that are shown, each with its style. */
  function Displayed(t: Terminal, s: bytes): seq<(byte, Style)>
    decreases s
  {
    if s == [] then []
    else
      (if t.mode == Reading && s[0] != 27 then [(s[0], t.style)] else []) + Displayed(Next(t, s[0]), s[1..])
  }

  function Styled(s: bytes, style: Style): (d: seq<(byte, Style)>)
    ensures |d| == |s| && forall i | 0 <= i < |s| :: d[i] == (s[i], style)
  {
    seq(|s|, i requires 0 <= i < |s| => (s[i], style))
  }

  function Characters(d: seq<(byte, Style)>): (s: bytes)
    ensures |s| == |d| && forall i | 0 <= i < |d| :: s[i] == d[i].0
  {
    seq(|d|, i requires 0 <= i < |d| => d[i].0)
  }

  lemma {:induction false} DisplayedConcat(t: Terminal, a: bytes, b: bytes)
    ensures After(t, a + b) == After(After(t, a), b)
    ensures Displayed(t, a + b) == Displayed(t, a) + Displayed(After(t, a), b)
    decreases a
  {
    if a == [] {
      assert a + b == b && [] + Displayed(t, b) == Displayed(t, b);
    } else {
      hide Next, After, Displayed;
      var all, next := a + b, Next(t, a[0]);
      DisplayedConcat(next, a[1..], b);
      assert all[0] == a[0] && all[1..] == a[1..] + b;
      DisplayedFirst(t, a);
      DisplayedFirst(t, all);
      var first := if t.mode == Reading && a[0] != 27 then [(a[0], t.style)] else [];
      Associative(first, Displayed(next, a[1..]), Displayed(After(next, a[1..]), b));
    }
  }

  lemma DisplayedFirst(t: Terminal, s: bytes)
    requires s != []
    ensures After(t, s) == After(Next(t, s[0]), s[1..])
    ensures Displayed(t, s) ==
      (if t.mode == Reading && s[0] != 27 then [(s[0], t.style)] else []) + Displayed(Next(t, s[0]), s[1..])
  {
    hide Next;
  }

  lemma Associative(a: seq<(byte, Style)>, b: seq<(byte, Style)>, c: seq<(byte, Style)>)
    ensures a + b + c == a + (b + c)
  {
  }

  /** The characters are those that are visible without a regard to styles. */
  lemma {:induction false} DisplayedIsShown(t: Terminal, s: bytes)
    ensures Characters(Displayed(t, s)) == Shown(t.mode != Reading, s)
    ensures (After(t, s).mode != Reading) == Inside(t.mode != Reading, s)
    decreases s
  {
    if s != [] {
      DisplayedIsShown(Next(t, s[0]), s[1..]);
    }
  }

  lemma {:induction false} DisplayedPlainly(style: Style, s: bytes)
    requires NoEscape(s)
    ensures var t := Terminal(Reading, style); After(t, s) == t && Displayed(t, s) == Styled(s, style)
  {
    if s != [] { DisplayedPlainly(style, s[1..]); }
  }

  /** The sequences of one and of two digits. */
  lemma OneDigit(style: Style, d: byte)
    requires 48 <= d <= 57
    ensures var t, s := Terminal(Reading, style), [27, 91, d, 109];
      After(t, s) == Terminal(Reading, Selected(style, d - 48)) && Displayed(t, s) == []
  {
    hide Selected;
    var t, s := Terminal(Reading, style), [27, 91, d, 109];
    var t1, t2, t3 := t.(mode := Escaped), t.(mode := Number(0)), t.(mode := Number(d - 48));
    assert s[1..] == [91, d, 109] && [91, d, 109][1..] == [d, 109] && [d, 109][1..] == [109] && [109][1..] == [];
    assert Next(t, 27) == t1 && Next(t1, 91) == t2 && Next(t2, d) == t3;
    hide Next;
    assert After(t1, [91, d, 109]) == After(t2, [d, 109]) == After(t3, [109]) == After(Next(t3, 109), []);
    assert Displayed(t1, [91, d, 109]) == Displayed(t2, [d, 109]) == Displayed(t3, [109]) == [];
  }

  lemma TwoDigits(style: Style, c: byte, d: byte)
    requires 48 <= c <= 57 && 48 <= d <= 57
    ensures var t, s := Terminal(Reading, style), [27, 91, c, d, 109];
      After(t, s) == Terminal(Reading, Selected(style, 10 * (c - 48) + (d - 48))) && Displayed(t, s) == []
  {
    hide Selected;
    var t, s := Terminal(Reading, style), [27, 91, c, d, 109];
    var t1, t2, t3 := t.(mode := Escaped), t.(mode := Number(0)), t.(mode := Number(c - 48));
    var t4 := t.(mode := Number(10 * (c - 48) + (d - 48)));
    assert s[1..] == [91, c, d, 109] && [91, c, d, 109][1..] == [c, d, 109] && [c, d, 109][1..] == [d, 109];
    assert [d, 109][1..] == [109] && [109][1..] == [];
    assert Next(t, 27) == t1 && Next(t1, 91) == t2 && Next(t2, c) == t3 && Next(t3, d) == t4;
    hide Next;
    assert After(t1, [91, c, d, 109]) == After(t2, [c, d, 109]) == After(t3, [d, 109]) == After(t4, [109]);
    assert After(t4, [109]) == After(Next(t4, 109), []);
    assert Displayed(t1, [91, c, d, 109]) == Displayed(t2, [c, d, 109]) == Displayed(t3, [d, 109]);
    assert Displayed(t3, [d, 109]) == Displayed(t4, [109]) == [];
  }

  /** What the opening colour selects on a plain terminal, and what the reset leaves of any style. */
  lemma ColorsSelect(level: LogLevel, style: Style)
    ensures
      var selected :=
        if level == Warning then Style(Magenta, false)
        else if level == Error || level == Fatal then Style(Red, true)
        else if level == Verbose then Style(Green, false)
        else Style(Default, false);
      && After(PLAIN, HeaderColor(true, level)) == Terminal(Reading, selected)
      && Displayed(PLAIN, HeaderColor(true, level)) == []
    ensures After(Terminal(Reading, style), ResetColor(true)) == PLAIN
    ensures Displayed(Terminal(Reading, style), ResetColor(true)) == []
  {
    hide After, Displayed;
    OneDigit(PLAIN.style, 48);
    OneDigit(style, 48);
    TwoDigits(PLAIN.style, 51, 49);
    TwoDigits(PLAIN.style, 51, 50);
    TwoDigits(PLAIN.style, 51, 53);
    OneDigit(Style(Red, false), 49);
    DisplayedConcat(PLAIN, ANSI_COLOR_RED, ANSI_COLOR_BRIGHT);
    DisplayedConcat(Terminal(Reading, style), ANSI_COLOR_OFF, ANSI_COLOR_OFF);
  }

  /**
   On a plain terminal a line with colours shows its prefix, padding and suffix in the style of its level
   and its body plainly, and leaves the terminal plain.
   */
  lemma LineDisplayed(
    level: LogLevel, prefix: bytes, body: bytes, suffix: bytes, width: nat, widthAgain: nat)
    requires NoEscape(prefix) && NoEscape(body) && NoEscape(suffix)
    ensures
      var line := WholeLine(true, level, prefix, body, suffix, width, widthAgain);
      var padding :=
        Padding(|LineStart(true, level, prefix, body)|, |suffix|, InvisibleCount(true, level), width, widthAgain);
      var style :=
        if level == Warning then Style(Magenta, false)
        else if level == Error || level == Fatal then Style(Red, true)
        else if level == Verbose then Style(Green, false)
        else Style(Default, false);
      && Displayed(PLAIN, line) ==
           Styled(prefix, style) + Styled(body, Style(Default, false)) + Styled(padding, style) + Styled(suffix, style)
      && After(PLAIN, line) == PLAIN
  {
    hide After, Displayed, HeaderColor, ResetColor, InvisibleCount, Padding, NoEscape, Styled;
    var color, reset := HeaderColor(true, level), ResetColor(true);
    var padding :=
      Padding(|LineStart(true, level, prefix, body)|, |suffix|, InvisibleCount(true, level), width, widthAgain);
    var t := After(PLAIN, color);
    ColorsSelect(level, t.style);
    PaddingPlain(|LineStart(true, level, prefix, body)|, |suffix|, InvisibleCount(true, level), width, widthAgain);
    PrefixDisplayed(level, prefix);
    DisplayedPlainly(PLAIN.style, body);
    DisplayedPlainly(t.style, padding);
    DisplayedPlainly(t.style, suffix);
    var opening := color + prefix + reset;
    DisplayedConcat(PLAIN, opening, body);
    DisplayedConcat(PLAIN, opening + body, color);
    DisplayedConcat(PLAIN, opening + body + color, padding);
    DisplayedConcat(PLAIN, opening + body + color + padding, suffix);
    DisplayedConcat(PLAIN, opening + body + color + padding + suffix, reset);
  }

  /** The coloured prefix by itself. */
  lemma PrefixDisplayed(level: LogLevel, prefix: bytes)
    requires NoEscape(prefix)
    ensures
      var opening := HeaderColor(true, level) + prefix + ResetColor(true);
      var style :=
        if level == Warning then Style(Magenta, false)
        else if level == Error || level == Fatal then Style(Red, true)
        else if level == Verbose then Style(Green, false)
        else Style(Default, false);
      Displayed(PLAIN, opening) == Styled(prefix, style) && After(PLAIN, opening) == PLAIN
  {
    hide After, Displayed, HeaderColor, ResetColor, NoEscape, Styled;
    var color, reset := HeaderColor(true, level), ResetColor(true);
    var t := After(PLAIN, color);
    ColorsSelect(level, t.style);
    DisplayedPlainly(t.style, prefix);
    DisplayedConcat(PLAIN, color, prefix);
    DisplayedConcat(PLAIN, color + prefix, reset);
  }

  /** Without colours everything is shown in the style the terminal has. */
  lemma LineWithoutColors(
    level: LogLevel, prefix: bytes, body: bytes, suffix: bytes, width: nat, widthAgain: nat, style: Style)
    requires NoEscape(prefix) && NoEscape(body) && NoEscape(suffix)
    ensures
      var line, t := WholeLine(false, level, prefix, body, suffix, width, widthAgain), Terminal(Reading, style);
      Displayed(t, line) == Styled(line, style) && After(t, line) == t
  {
    hide Remaining, Int32;
    var padding :=
      Padding(|LineStart(false, level, prefix, body)|, |suffix|, InvisibleCount(false, level), width, widthAgain);
    PaddingPlain(|LineStart(false, level, prefix, body)|, |suffix|, InvisibleCount(false, level), width, widthAgain);
    hide Padding;
    assert WholeLine(false, level, prefix, body, suffix, width, widthAgain) == prefix + body + padding + suffix;
    DisplayedPlainly(style, prefix + body + padding + suffix);
  }
}
