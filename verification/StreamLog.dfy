/** The console log entry: formatted writes into a byte array, layout of the suffix, and the flush. */
module StreamLog {
  import opened Bytes
  import opened DltProtocol
  import opened ByteArrays
  import opened ConsoleLayout
  import ConsoleStyle

  function Flatten(pieces: seq<bytes>): bytes {
    if pieces == [] then [] else Flatten(pieces[..|pieces| - 1]) + pieces[|pieces| - 1]
  }

  /** What "%s" prints of an array that has a NUL past its end. */
  function PrintedOf(a: ByteArray): (text: bytes)
    requires a.Valid() && a.NulPastEnd()
    reads a, a.Repr()
    ensures text == CString(a.Contents() + [0])
  {
    hide CString;
    CStringPrefix(a.Storage()[..], a.Size());
    assert a.Storage()[..][..a.Size()] == a.Contents();
    CString(a.Storage()[..])
  }

  class OutputFile {
    var text: bytes

    constructor ()
      ensures text == []
    {
      text := [];
    }

    /** fprintf(file, "%s", s) */
    method Print(s: bytes)
      requires 0 in s
      modifies this
      ensures text == old(text) + CString(s)
    {
      text := text + CString(s);
    }
  }

  /**
   StreamLogData::writeFormatted on a byte array: room for the text and its NUL is made, both are written,
   and the NUL is dropped again from the contents, not from the storage.
   */
  method FormatInto(target: ByteArray, rendered: bytes)
    requires target.Valid()
    modifies target.Repr()
    ensures target.Valid() && fresh(target.Repr() - old(target.Repr()))
    ensures target.Contents() == old(target.Contents()) + rendered && target.NulPastEnd()
    ensures target.UsesStaticBuffer() ==
      (old(target.UsesStaticBuffer()) && old(target.Size()) + |rendered| + 1 <= STATIC_SIZE)
  {
    var start := target.Size();
    target.Resize(start + |rendered| + 1);
    assert target.Storage()[..start] == old(target.Contents());
    target.CopyInto(rendered + [0], start);
    ghost var written := target.Storage()[..];
    assert target.Contents() == old(target.Contents()) + (rendered + [0]);
    target.Resize(target.Size() - 1);
    assert target.Storage()[..] == written;
  }

  class ConsoleLogData {
    const content: ByteArray
    var invisibleCharacterCount: int
    /** Whether the context's level admits the entry; fixed for the entry's life. */
    const enabled: bool
    const colors: bool
    const level: LogLevel

    ghost predicate Valid()
      reads this, content
    {
      content.Valid()
    }

    constructor (enabled: bool, colors: bool, level: LogLevel)
      ensures Valid() && content.Contents() == [] && invisibleCharacterCount == 0 && fresh(content.Repr())
      ensures content.UsesStaticBuffer() && this.enabled == enabled && this.colors == colors && this.level == level
    {
      content := new ByteArray();
      invisibleCharacterCount := 0;
      this.enabled, this.colors, this.level := enabled, colors, level;
    }

    method WriteFormatted(rendered: bytes)
      requires Valid()
      modifies content.Repr()
      ensures Valid() && fresh(content.Repr() - old(content.Repr()))
      ensures content.Contents() == old(content.Contents()) + (if enabled then rendered else [])
      ensures enabled ==> content.NulPastEnd()
      ensures content.UsesStaticBuffer() ==
        (old(content.UsesStaticBuffer()) && (enabled ==> old(content.Size()) + |rendered| + 1 <= STATIC_SIZE))
    {
      if enabled {
        FormatInto(content, rendered);
      }
    }

    /**
     For every sequence of formatted writes the content is the concatenation of the texts, a NUL follows
     it, and the extra byte of the last NUL alone can force the switch to dynamic storage.
     */
    method WriteAll(pieces: seq<bytes>)
      requires Valid() && enabled
      modifies content.Repr()
      ensures Valid() && fresh(content.Repr() - old(content.Repr()))
      ensures content.Contents() == old(content.Contents()) + Flatten(pieces)
      ensures pieces != [] ==> content.NulPastEnd()
      ensures content.UsesStaticBuffer() ==
        (old(content.UsesStaticBuffer())
          && (pieces != [] ==> old(content.Size()) + |Flatten(pieces)| + 1 <= STATIC_SIZE))
    {
      for i := 0 to |pieces|
        invariant Valid() && fresh(content.Repr() - old(content.Repr()))
        invariant content.Contents() == old(content.Contents()) + Flatten(pieces[..i])
        invariant i > 0 ==> content.NulPastEnd()
        invariant content.UsesStaticBuffer() ==
          (old(content.UsesStaticBuffer())
            && (i > 0 ==> old(content.Size()) + |Flatten(pieces[..i])| + 1 <= STATIC_SIZE))
      {
        WriteFormatted(pieces[i]);
        assert pieces[..i + 1][..i] == pieces[..i];
      }
      assert pieces[..|pieces|] == pieces;
    }

    method WriteEscape(escape: bytes)
      requires Valid()
      modifies this`invisibleCharacterCount, content.Repr()
      ensures Valid() && fresh(content.Repr() - old(content.Repr()))
      ensures content.Contents() == old(content.Contents()) + (if enabled then escape else [])
      ensures invisibleCharacterCount == old(invisibleCharacterCount) + |escape|
    {
      WriteFormatted(escape);
      invisibleCharacterCount := invisibleCharacterCount + |escape|;
    }

    method WriteHeaderColor()
      requires Valid()
      modifies this`invisibleCharacterCount, content.Repr()
      ensures Valid() && fresh(content.Repr() - old(content.Repr()))
      ensures content.Contents() == old(content.Contents()) + (if enabled then HeaderColor(colors, level) else [])
      ensures invisibleCharacterCount == old(invisibleCharacterCount) + |HeaderColor(colors, level)|
    {
      if colors {
        WriteEscape(HeaderColor(colors, level));
      }
    }

    method ResetTheColor()
      requires Valid()
      modifies this`invisibleCharacterCount, content.Repr()
      ensures Valid() && fresh(content.Repr() - old(content.Repr()))
      ensures content.Contents() == old(content.Contents()) + (if enabled then ResetColor(colors) else [])
      ensures invisibleCharacterCount == old(invisibleCharacterCount) + |ResetColor(colors)|
    {
      if colors {
        WriteEscape(ANSI_COLOR_OFF + ANSI_COLOR_OFF);
      }
    }

    /** StreamLogData::init: an enabled entry starts with its prefix. */
    method Init(prefix: bytes)
      requires Valid() && content.Contents() == [] && invisibleCharacterCount == 0
      modifies this`invisibleCharacterCount, content.Repr()
      ensures Valid() && fresh(content.Repr() - old(content.Repr()))
      ensures content.Contents() == if enabled then HeaderColor(colors, level) + prefix + ResetColor(colors) else []
      ensures enabled ==> invisibleCharacterCount == |HeaderColor(colors, level)| + |ResetColor(colors)|
      ensures enabled && colors && NoEscape(prefix) ==>
        var style :=
          if level == Warning then ConsoleStyle.Style(ConsoleStyle.Magenta, false)
          else if level == Error || level == Fatal then ConsoleStyle.Style(ConsoleStyle.Red, true)
          else if level == Verbose then ConsoleStyle.Style(ConsoleStyle.Green, false)
          else ConsoleStyle.Style(ConsoleStyle.Default, false);
        && ConsoleStyle.Displayed(ConsoleStyle.PLAIN, content.Contents()) == ConsoleStyle.Styled(prefix, style)
        && ConsoleStyle.After(ConsoleStyle.PLAIN, content.Contents()) == ConsoleStyle.PLAIN
    {
      hide HeaderColor, ResetColor, ConsoleStyle.Displayed, ConsoleStyle.After, ConsoleStyle.Styled, NoEscape;
      if NoEscape(prefix) { ConsoleStyle.PrefixDisplayed(level, prefix); }
      if enabled {
        WriteHeaderColor();
        WriteFormatted(prefix);
        ResetTheColor();
      }
    }

    /** A new entry that was initialised, and not written to yet. */
    ghost predicate Begun(enabled: bool, colors: bool, level: LogLevel, prefix: bytes)
      reads this, content, content.Repr()
    {
      && Valid() && this.enabled == enabled && this.colors == colors && this.level == level
      && content.Contents() == (if enabled then HeaderColor(colors, level) + prefix + ResetColor(colors) else [])
      && (enabled ==> invisibleCharacterCount == |HeaderColor(colors, level)| + |ResetColor(colors)|)
    }

    /** The suffix, with its newline, in an array of its own. */
    method GetSuffix(location: bytes, thread: Option<bytes>) returns (suffixArray: ByteArray)
      ensures suffixArray.Valid() && fresh(suffixArray.Repr())
      ensures suffixArray.Contents() == location + thread.GetOr([]) + [NEWLINE] && suffixArray.NulPastEnd()
    {
      suffixArray := new ByteArray();
      FormatInto(suffixArray, location);
      if thread.Some? {
        FormatInto(suffixArray, thread.value);
      }
      FormatInto(suffixArray, [NEWLINE]);
    }

    method WriteSpaces(width: int)
      requires Valid() && enabled
      modifies content.Repr()
      ensures Valid() && fresh(content.Repr() - old(content.Repr()))
      ensures content.Contents() == old(content.Contents()) + Spaces(Max(0, width))
    {
      var i := 0;
      while i < width
        invariant 0 <= i <= Max(0, width)
        invariant Valid() && fresh(content.Repr() - old(content.Repr()))
        invariant content.Contents() == old(content.Contents()) + Spaces(i)
      {
        WriteFormatted([32]);
        i := i + 1;
      }
    }

    /** Fills the line up to the suffix, or starts a new one for it; the console width is read up to twice. */
    method WritePadding(suffixSize: nat, consoleWidth: nat, consoleWidthAgain: nat)
      requires Valid() && enabled
      modifies content.Repr()
      ensures Valid() && fresh(content.Repr() - old(content.Repr()))
      ensures content.Contents() == old(content.Contents())
        + Padding(|old(content.Contents())|, suffixSize, invisibleCharacterCount, consoleWidth, consoleWidthAgain)
    {
      hide Remaining, Int32, Spaces;
      var width := if consoleWidth == 0 then DEFAULT_WIDTH else consoleWidth;
      width := Remaining(width, content.Size(), suffixSize, invisibleCharacterCount);
      if width < 0 {
        WriteFormatted([NEWLINE]);
        width := Int32(consoleWidthAgain - suffixSize);
      }
      WriteSpaces(width);
    }

    method WriteSuffixText(text: bytes)
      requires Valid() && enabled
      modifies this`invisibleCharacterCount, content.Repr()
      ensures Valid() && fresh(content.Repr() - old(content.Repr()))
      ensures content.Contents() == old(content.Contents()) + text + ResetColor(colors)
    {
      hide ResetColor;
      WriteFormatted(text);
      ResetTheColor();
    }

    /** `location` and `thread` are the rendered parts of the suffix. */
    method WriteSuffix(location: bytes, thread: Option<bytes>, consoleWidth: nat, consoleWidthAgain: nat)
      requires Valid() && enabled
      modifies this`invisibleCharacterCount, content.Repr()
      ensures Valid() && fresh(content.Repr() - old(content.Repr()))
      ensures content.Contents() ==
        SuffixedLine(colors, level, old(content.Contents()), old(invisibleCharacterCount),
          location + thread.GetOr([]) + [NEWLINE],
                     consoleWidth, consoleWidthAgain)
    {
      hide Padding, HeaderColor, ResetColor, CString;
      WriteHeaderColor();
      ghost var start := content.Contents();
      var suffixArray := GetSuffix(location, thread);
      var suffixSize, suffixText := suffixArray.Size(), PrintedOf(suffixArray);
      assert content.Contents() == start;
      WritePadding(suffixSize, consoleWidth, consoleWidthAgain);
      ghost var padded := content.Contents();
      assert padded == start + Padding(|start|, suffixSize, invisibleCharacterCount, consoleWidth, consoleWidthAgain);
      WriteSuffixText(suffixText);
    }

    method FlushLog(location: bytes, thread: Option<bytes>, consoleWidth: nat, consoleWidthAgain: nat, file: OutputFile)
      requires Valid() && file !in content.Repr()
      modifies this`invisibleCharacterCount, content.Repr(), file
      ensures Valid() && fresh(content.Repr() - old(content.Repr()))
      ensures !enabled ==> file.text == old(file.text) && content.Contents() == old(content.Contents())
      ensures
        var line := SuffixedLine(colors, level, old(content.Contents()), old(invisibleCharacterCount),
          location + thread.GetOr([]) + [NEWLINE],
                                 consoleWidth, consoleWidthAgain);
        enabled ==> content.Contents() == line + [0]
      ensures enabled ==> file.text == old(file.text) + CString(content.Contents())
    {
      hide SuffixedLine, CString;
      if enabled {
        WriteSuffix(location, thread, consoleWidth, consoleWidthAgain);
        AddNul();
        file.Print(content.Storage()[..content.Size()]);
      }
    }

    /** The terminal NUL of a flush: the one place where it becomes part of the contents. */
    method AddNul()
      requires Valid()
      modifies content.Repr()
      ensures Valid() && fresh(content.Repr() - old(content.Repr()))
      ensures content.Contents() == old(content.Contents()) + [0]
    {
      content.Resize(content.Size() + 1);
      assert content.Storage()[..content.Size() - 1] == old(content.Contents());
      content.CopyInto([0], content.Size() - 1);
    }

    /**
     The life of an entry appends to its file what `%s` prints of its line, or nothing if it is disabled.
     That is the whole line of ConsoleLayout, whatever its size, exactly if the pieces hold no NUL.
     */
    method Live(
      prefix: bytes, body: seq<bytes>, location: bytes, thread: Option<bytes>, consoleWidth: nat,
      consoleWidthAgain: nat, file: OutputFile)
      requires Valid() && content.Contents() == [] && invisibleCharacterCount == 0 && file !in content.Repr()
      modifies this`invisibleCharacterCount, content.Repr(), file
      ensures Valid() && (!enabled ==> file.text == old(file.text))
      ensures
        var suffix := location + thread.GetOr([]) + [NEWLINE];
        enabled ==>
          && file.text == old(file.text)
               + CString(EntryLine(colors, level, prefix, Flatten(body), suffix, consoleWidth, consoleWidthAgain) + [0])
          && (file.text == old(file.text)
                + WholeLine(colors, level, prefix, Flatten(body), suffix, consoleWidth, consoleWidthAgain)
              <==> 0 !in prefix && 0 !in Flatten(body) && 0 !in location && 0 !in thread.GetOr([]))
    {
      hide WholeLine, SuffixedLine, HeaderColor, ResetColor, CString, Flatten;
      Init(prefix);
      if enabled {
        WriteAll(body);
        PrintedIsWhole(
          file.text, colors, level, prefix, Flatten(body), location, thread.GetOr([]), consoleWidth, consoleWidthAgain);
      }
      FlushLog(location, thread, consoleWidth, consoleWidthAgain, file);
    }
  }

  lemma PrintedIsWhole(
    text: bytes, colors: bool, level: LogLevel, prefix: bytes, body: bytes, location: bytes, thread: bytes, width: nat,
    widthAgain: nat)
    ensures
      var suffix := location + thread + [NEWLINE];
      text + CString(EntryLine(colors, level, prefix, body, suffix, width, widthAgain) + [0]) ==
        text + WholeLine(colors, level, prefix, body, suffix, width, widthAgain)
      <==> 0 !in prefix && 0 !in body && 0 !in location && 0 !in thread
  {
    hide WholeLine, EntryLine, CString;
    var suffix := location + thread + [NEWLINE];
    NoNulConcat(location, thread, [NEWLINE]);
    EntryLineIsWhole(colors, level, prefix, body, suffix, width, widthAgain);
    SameAfter(
      text, CString(EntryLine(colors, level, prefix, body, suffix, width, widthAgain) + [0]),
      WholeLine(colors, level, prefix, body, suffix, width, widthAgain));
  }

  lemma NoNulConcat(a: bytes, b: bytes, c: bytes)
    ensures 0 !in a + b + c <==> 0 !in a && 0 !in b && 0 !in c
  {
  }

  /** The console's context: its own level and the global one. */
  class ConsoleLogContext {
    const colorSupport: bool
    var logLevel: LogLevel
    var globalLogLevel: LogLevel

    constructor (colorSupport: bool, logLevel: LogLevel, globalLogLevel: LogLevel)
      ensures this.colorSupport == colorSupport && this.logLevel == logLevel && this.globalLogLevel == globalLogLevel
    {
      this.colorSupport, this.logLevel, this.globalLogLevel := colorSupport, logLevel, globalLogLevel;
    }

    predicate IsEnabled(level: LogLevel)
      reads this
    {
      Rank(level) <= Rank(logLevel) && Rank(level) <= Rank(globalLogLevel)
    }

    /** A level is admitted if it stands no later in this list than the context's own and the global level. */
    lemma EnabledByPlace(level: LogLevel, n: nat, own: nat, global: nat)
      requires n < 9 && own < 9 && global < 9
      requires level == [None_, Fatal, Error, Warning, Info, Debug, Verbose, All, Invalid][n]
      requires logLevel == [None_, Fatal, Error, Warning, Info, Debug, Verbose, All, Invalid][own]
      requires globalLogLevel == [None_, Fatal, Error, Warning, Info, Debug, Verbose, All, Invalid][global]
      ensures IsEnabled(level) <==> n <= own && n <= global
    {
      RankByPlace(n);
      RankByPlace(own);
      RankByPlace(global);
    }

    /** A new entry, with its prefix if it is enabled. */
    method CreateLog(level: LogLevel, prefix: bytes) returns (text: ConsoleLogData)
      ensures fresh(text) && fresh(text.content.Repr()) && text.Valid()
        && text.Begun(IsEnabled(level), colorSupport, level, prefix)
    {
      text := new ConsoleLogData(IsEnabled(level), colorSupport, level);
      text.Init(prefix);
    }
  }

  /** The line with its suffix, from what was written `before` and its count of invisible characters. */
  ghost function SuffixedLine(
    colors: bool, level: LogLevel, before: bytes, invisible: int, suffix: bytes, width: nat, widthAgain: nat): bytes
  {
    var start := before + HeaderColor(colors, level);
    start + Padding(|start|, |suffix|, invisible + |HeaderColor(colors, level)|, width, widthAgain)
    + CString(suffix + [0]) + ResetColor(colors)
  }

  /** The line of an entry from its pieces, as it is built step by step. */
  ghost function EntryLine(
    colors: bool, level: LogLevel, prefix: bytes, body: bytes, suffix: bytes, width: nat, widthAgain: nat): bytes
  {
    var before := HeaderColor(colors, level) + prefix + ResetColor(colors) + body;
    SuffixedLine(colors, level, before, |HeaderColor(colors, level)| + |ResetColor(colors)|, suffix, width, widthAgain)
  }

  /** The flush prints the whole line of ConsoleLayout exactly if no piece holds a NUL. */
  lemma EntryLineIsWhole(
    colors: bool, level: LogLevel, prefix: bytes, body: bytes, suffix: bytes, width: nat, widthAgain: nat)
    ensures
      var line := EntryLine(colors, level, prefix, body, suffix, width, widthAgain);
      var whole := WholeLine(colors, level, prefix, body, suffix, width, widthAgain);
      && (line == whole <==> 0 !in suffix)
      && (CString(line + [0]) == whole <==> 0 !in prefix && 0 !in body && 0 !in suffix)
  {
    hide Padding, CString, HeaderColor, ResetColor;
    var start := LineStart(colors, level, prefix, body);
    var padding := Padding(|start|, |suffix|, InvisibleCount(colors, level), width, widthAgain);
    var line, whole := start + padding + CString(suffix + [0]) + ResetColor(colors),
      start + padding + suffix + ResetColor(colors);
    assert EntryLine(colors, level, prefix, body, suffix, width, widthAgain) == line;
    assert WholeLine(colors, level, prefix, body, suffix, width, widthAgain) == whole;
    CStringWhole(suffix);
    CStringWhole(line);
    PaddingHasNoNul(|start|, |suffix|, InvisibleCount(colors, level), width, widthAgain);
    WholeLineNoNul(colors, level, prefix, body, padding, suffix);
  }

  lemma WholeLineNoNul(colors: bool, level: LogLevel, prefix: bytes, body: bytes, padding: bytes, suffix: bytes)
    requires 0 !in padding
    ensures 0 !in LineStart(colors, level, prefix, body) + padding + suffix + ResetColor(colors)
            <==> 0 !in prefix && 0 !in body && 0 !in suffix
  {
    ColorsHaveNoNul(colors, level);
    hide HeaderColor, ResetColor;
    var color, reset := HeaderColor(colors, level), ResetColor(colors);
    NoNulConcat(color, prefix, reset);
    NoNulConcat(color + prefix + reset, body, color);
    NoNulConcat(LineStart(colors, level, prefix, body) + padding, suffix, reset);
  }

  lemma ColorsHaveNoNul(colors: bool, level: LogLevel)
    ensures 0 !in HeaderColor(colors, level) && 0 !in ResetColor(colors)
  {
  }

  lemma PaddingHasNoNul(contentSize: nat, suffixSize: nat, invisible: int, width: nat, widthAgain: nat)
    ensures 0 !in Padding(contentSize, suffixSize, invisible, width, widthAgain)
  {
    hide Remaining, Int32;
  }
}
