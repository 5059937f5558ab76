/** The DLT backend's context and log entry: a fixed buffer that argument writes fill in place. */
module LogData {
  import opened Bytes
  import opened DltProtocol
  import opened Payload
  import Encoder

  class DltContext {
    const id: Id
    const description: bytes
    var header: Header
    var messageCount: byte
    var logLevelPos: int
    var activeLogLevel: int

    constructor (id: Id, description: bytes)
      ensures this.id == id && this.description == description
      ensures header == BLANK_HEADER && messageCount == 0 && logLevelPos == -1 && activeLogLevel == DLT_LOG_VERBOSE
    {
      this.id, this.description := id, description;
      header, messageCount, logLevelPos, activeLogLevel := BLANK_HEADER, 0, -1, DLT_LOG_VERBOSE;
    }

    predicate IsEnabled(level: LogLevel)
      reads this
    {
      DltLogLevel(level) <= activeLogLevel
    }

    /** fetch_add on an 8-bit counter. */
    method MessageCounter() returns (taken: byte)
      modifies this`messageCount
      ensures taken == old(messageCount) && messageCount == (old(messageCount) + 1) % 256
    {
      taken := messageCount;
      messageCount := (messageCount + 1) % 256;
    }

    method SetActiveLogLevel(level: int)
      modifies this`activeLogLevel
      ensures activeLogLevel == level
    {
      activeLogLevel := level;
    }
  }

  /** The bytes of a string argument: type info, length with the NUL, characters, NUL. */
  ghost function TextBytes(text: bytes): bytes {
    Le(DLT_TYPE_INFO_STRG + DLT_SCOD_UTF8, 4) + Le(|text| + 1, 2) + (text + [0])
  }

  lemma {:induction false} TextBytesPieces(before: bytes, text: bytes)
    ensures before + Le(DLT_TYPE_INFO_STRG + DLT_SCOD_UTF8, 4) + Le(|text| + 1, 2) + (text + [0]) ==
      before + TextBytes(text)
  {
    hide Le;
    var info, length := Le(DLT_TYPE_INFO_STRG + DLT_SCOD_UTF8, 4), Le(|text| + 1, 2);
    Assoc(before, info, length);
    Assoc(before, info + length, text + [0]);
  }

  lemma TextBytesEncode(text: bytes)
    requires WellFormed(Text(text))
    ensures TextBytes(text) == EncodeArg(Text(text))
  {
    hide Le;
    var info, length := Le(DLT_TYPE_INFO_STRG + DLT_SCOD_UTF8, 4), Le(|text| + 1, 2);
    Assoc(length, text, [0]);
    Assoc(info, length, text + [0]);
  }

  lemma LeTwo(n: nat)
    requires n < 0x1_0000
    ensures Le(n, 2) == [n % 256, n / 256]
  {
    assert Le(n, 2) == [n % 256] + Le(n / 256, 1);
    assert Le(n / 256, 1) == [n / 256] + Le(0, 0);
  }

  class DltLogData {
    const content: array<byte>
    var contentSize: nat
    var argsCount: byte
    var isFull: bool
    const context: DltContext
    const dltLogLevel: int
    const enabled: bool
    const messageCount: byte
    var hexEnabled: bool
    ghost var args: seq<Arg>

    ghost function View(): Encoder.Log
      reads this
    {
      Encoder.Log(args, isFull)
    }

    /** The buffer holds exactly the encoded arguments, within the bounds of Encoder.Valid. */
    ghost predicate Valid()
      reads this, content
    {
      && content.Length == Encoder.MAX_MESSAGE_SIZE && contentSize <= content.Length
      && Encoder.Valid(View())
      && content[..contentSize] == EncodeAll(args)
      && argsCount == |args| % 256
      && DLT_LOG_DEFAULT <= dltLogLevel <= DLT_LOG_VERBOSE
    }

    /** DltCppLogData::init: the level test and the message counter are taken here. */
    constructor (context: DltContext, level: LogLevel)
      modifies context`messageCount
      ensures Valid() && View() == Encoder.EMPTY && fresh(content)
      ensures this.context == context && dltLogLevel == DltLogLevel(level) && !hexEnabled
      ensures enabled == old(context.IsEnabled(level)) == (dltLogLevel <= old(context.activeLogLevel))
      ensures
        if level == All || level == Invalid then dltLogLevel == -1
        else 0 <= dltLogLevel < 7 && [None_, Fatal, Error, Warning, Info, Debug, Verbose][dltLogLevel] == level
      ensures messageCount == old(context.messageCount) && context.messageCount == (old(context.messageCount) + 1) % 256
    {
      content := new byte[Encoder.MAX_MESSAGE_SIZE];
      contentSize, argsCount, isFull, hexEnabled, args := 0, 0, false, false, [];
      this.context, dltLogLevel, enabled := context, DltLogLevel(level), context.IsEnabled(level);
      DltLevelByPlace(level);
      var taken := context.MessageCounter();
      messageCount := taken;
    }

    function AvailableSpace(infoSize: nat): (space: nat)
      requires Valid()
      reads this, content
      ensures space == Encoder.Room(View(), infoSize)
      ensures !isFull ==> contentSize <= Encoder.MAX_CONTENT_SIZE
    {
      var free := Encoder.MAX_CONTENT_SIZE - contentSize;
      if !isFull && free >= infoSize then free - infoSize else 0
    }

    // ---- raw writes: the buffer grows, its arguments are accounted for by the caller ----------

    method WriteBuffer(v: bytes)
      requires isFull || contentSize + |v| <= content.Length
      modifies this`contentSize, content
      ensures isFull ==> contentSize == old(contentSize) && content[..] == old(content[..])
      ensures !isFull ==>
        contentSize == old(contentSize) + |v| && content[..contentSize] == old(content[..contentSize]) + v
    {
      if !isFull {
        forall i | 0 <= i < |v| {
          content[contentSize + i] := v[i];
        }
        contentSize := contentSize + |v|;
      }
    }

    method WriteType(info: nat)
      requires isFull || contentSize + 4 <= content.Length
      modifies this`contentSize, this`argsCount, content
      ensures argsCount == (old(argsCount) + 1) % 256
      ensures isFull ==> contentSize == old(contentSize) && content[..] == old(content[..])
      ensures !isFull ==>
        contentSize == old(contentSize) + 4 && content[..contentSize] == old(content[..contentSize]) + Le(info, 4)
    {
      WriteBuffer(Le(info, 4));
      argsCount := (argsCount + 1) % 256;
    }

    method Reserve(size: nat) returns (at: nat)
      modifies this`contentSize
      ensures at == old(contentSize) && contentSize == at + size
    {
      at := contentSize;
      contentSize := contentSize + size;
    }

    /** snprintf: at most `space - 1` characters of the rendered text and a NUL; returns the full length. */
    method Snprintf(at: nat, space: nat, text: bytes) returns (length: nat)
      requires 0 < space && at + space <= content.Length
      modifies content
      ensures length == |text| && content[..at] == old(content[..at])
      ensures var n := if |text| < space then |text| else space - 1;
              content[at..at + n + 1] == text[..n] + [0]
    {
      var n := if |text| < space then |text| else space - 1;
      forall i | 0 <= i < n {
        content[at + i] := text[i];
      }
      content[at + n] := 0;
      assert content[at..at + n] == text[..n];
      length := |text|;
    }

    /** Fills in a length slot reserved earlier. */
    method PatchLength(at: nat, length: nat)
      requires length < 0x1_0000 && at + 2 <= contentSize <= content.Length
      modifies content
      ensures content[..contentSize] == old(content[..at]) + Le(length, 2) + old(content[at + 2..contentSize])
    {
      content[at], content[at + 1] := length % 256, length / 256;
      LeTwo(length);
      assert content[..at] == old(content[..at]) && content[at + 2..contentSize] == old(content[at + 2..contentSize]);
      assert content[..contentSize] == content[..at] + content[at..at + 2] + content[at + 2..contentSize];
    }

    /** Stores a rendered text behind a length slot that is filled in afterwards. */
    method StoreFormatted(space: nat, text: bytes) returns (stringSize: nat)
      requires 0 < space < 0x1_0000 && contentSize + 6 + space <= content.Length && !isFull
      modifies this`contentSize, this`argsCount, content
      ensures stringSize == |text| && argsCount == (old(argsCount) + 1) % 256
      ensures var n := if |text| < space then |text| else space - 1;
              contentSize == old(contentSize) + 7 + n
              && content[..contentSize] == old(content[..contentSize]) + TextBytes(text[..n])
    {
      hide Le;
      WriteType(DLT_TYPE_INFO_STRG + DLT_SCOD_UTF8);
      ghost var head := content[..contentSize];
      var size := Reserve(2);
      stringSize := Snprintf(contentSize, space, text);
      assert content[..size] == head;
      var stringSizeInBuffer := if stringSize + 1 < space then stringSize + 1 else space;
      contentSize := contentSize + stringSizeInBuffer;
      ghost var stored := text[..stringSizeInBuffer - 1];
      assert content[size + 2..contentSize] == stored + [0];
      PatchLength(size, stringSizeInBuffer);
      TextBytesPieces(old(content[..contentSize]), stored);
    }

    method StoreString(v: bytes)
      requires contentSize + 7 + |v| <= content.Length && !isFull
      modifies this`contentSize, this`argsCount, content
      ensures argsCount == (old(argsCount) + 1) % 256
      ensures contentSize == old(contentSize) + 7 + |v|
      ensures content[..contentSize] == old(content[..contentSize]) + TextBytes(v)
    {
      hide Le, TextBytes;
      WriteType(DLT_TYPE_INFO_STRG + DLT_SCOD_UTF8);
      WriteBuffer(Le(|v| + 1, 2));
      ghost var head := content[..contentSize];
      WriteBuffer(v);
      WriteBuffer([0]);
      Assoc(head, v, [0]);
      TextBytesPieces(old(content[..contentSize]), v);
    }

    /** What makes an argument count: its bytes are in place and its count is taken. */
    ghost method Account(a: Arg, before: Encoder.Log)
      requires content.Length == Encoder.MAX_MESSAGE_SIZE && contentSize <= content.Length
      requires WellFormed(a) && args == before.args && Encoder.Valid(before)
        && Encoder.Valid(Encoder.Log(args + [a], isFull))
      requires content[..contentSize] == EncodeAll(args) + EncodeArg(a)
      requires argsCount == (|args| % 256 + 1) % 256 && DLT_LOG_DEFAULT <= dltLogLevel <= DLT_LOG_VERBOSE
      modifies this`args
      ensures Valid() && View() == Encoder.Log(before.args + [a], isFull)
    {
      hide EncodeAll, EncodeArg, WellFormed, TotalSize, Size;
      EncodeAllAppend(args, a);
      NextRemainder(|args|);
      args := args + [a];
    }

    // ---- the writes of the interface ---------------------------------------------------------

    /** Copies a whole argument into the buffer and closes it. */
    method CloseWith(last: Arg)
      requires Valid() && !isFull && WellFormed(last)
      requires Encoder.Valid(Encoder.Log(args + [last], true))
      modifies this`contentSize, this`argsCount, this`isFull, this`args, content
      ensures Valid() && View() == Encoder.Log(old(args) + [last], true)
    {
      hide WellFormed, Size, TotalSize, EncodeArg;
      ghost var before := View();
      Encoder.TotalSizeAppend(args, last);
      WriteBuffer(EncodeArg(last));
      argsCount := (argsCount + 1) % 256;
      isFull := true;
      Account(last, before);
    }

    method AddMessageTooLargeIndication()
      requires Valid()
      modifies this`contentSize, this`argsCount, this`isFull, this`args, content
      ensures Valid() && View() == Encoder.Overflow(old(View()))
    {
      if !isFull {
        Encoder.OverflowValid(View());
        CloseWith(Encoder.MARKER);
      }
    }

    method CheckOverflow(additionalSize: nat) returns (hasRoom: bool)
      requires Valid()
      modifies this`contentSize, this`argsCount, this`isFull, this`args, content
      ensures Valid() && hasRoom == !isFull
      ensures View() == if Encoder.Room(old(View()), additionalSize) == 0 then Encoder.Overflow(old(View()))
        else old(View())
    {
      if !isFull && AvailableSpace(additionalSize) == 0 {
        AddMessageTooLargeIndication();
      }
      hasRoom := !isFull;
    }

    method WriteWithTypeInfo(info: nat, value: bytes, ghost a: Arg)
      requires Valid()
      requires WellFormed(a) && !a.Text? && info == TypeInfo(a) && value == Body(a)
      modifies this`contentSize, this`argsCount, this`isFull, this`args, content
      ensures Valid() && View() == Encoder.Step(old(View()), Encoder.Scalar(a))
    {
      hide TypeInfo, Body, WellFormed, Size, TotalSize, EncodeAll, Le;
      ghost var before := View();
      assert |EncodeArg(a)| == |value| + 4;
      Encoder.StepValid(before, Encoder.Scalar(a));
      var hasRoom := CheckOverflow(|value| + 4);
      if hasRoom {
        WriteType(info);
        WriteBuffer(value);
        assert content[..contentSize] == EncodeAll(args) + EncodeArg(a);
        Account(a, before);
      }
    }

    method WriteBool(v: bool)
      requires Valid()
      modifies this`contentSize, this`argsCount, this`isFull, this`args, content
      ensures Valid() && View() == Encoder.Step(old(View()), Encoder.Scalar(Bool(v)))
    {
      WriteWithTypeInfo(DLT_TYPE_INFO_BOOL, [if v then 1 else 0], Bool(v));
    }

    method WriteUnsigned(width: nat, v: nat)
      requires Valid() && IntWidth(width) && v < Range(width)
      modifies this`contentSize, this`argsCount, this`isFull, this`args, content
      ensures Valid() && View() == Encoder.Step(old(View()), Encoder.Scalar(UInt(width, hexEnabled, v)))
    {
      WriteWithTypeInfo(DLT_TYPE_INFO_UINT + Tyle(width) + (if hexEnabled then DLT_SCOD_HEX else 0), Le(v, width),
        UInt(width, hexEnabled, v));
    }

    method WriteSigned(width: nat, v: int)
      requires Valid() && IntWidth(width) && -Range(width) <= 2 * v < Range(width)
      modifies this`contentSize, this`argsCount, this`isFull, this`args, content
      ensures Valid() && View() == Encoder.Step(old(View()), Encoder.Scalar(SInt(width, v)))
    {
      WriteWithTypeInfo(DLT_TYPE_INFO_SINT + Tyle(width), Le(Unsigned(v, width), width), SInt(width, v));
    }

    method WriteFloat(width: nat, raw: bytes)
      requires Valid() && (width == 4 || width == 8) && |raw| == width
      modifies this`contentSize, this`argsCount, this`isFull, this`args, content
      ensures Valid() && View() == Encoder.Step(old(View()), Encoder.Scalar(Float(width, raw)))
    {
      WriteWithTypeInfo(DLT_TYPE_INFO_FLOA + Tyle(width), raw, Float(width, raw));
    }

    method WriteString(v: bytes)
      requires Valid()
      modifies this`contentSize, this`argsCount, this`isFull, this`args, content
      ensures Valid() && View() == Encoder.Step(old(View()), Encoder.Plain(v))
    {
      hide WellFormed, TotalSize, EncodeAll, EncodeArg, TextBytes;
      var available := AvailableSpace(Encoder.TEXT_OVERHEAD);
      var space := if |v| <= available then |v| else available;
      if space > 0 {
        ghost var before, stored := View(), v[..space];
        Encoder.PutTextValid(before, stored);
        StoreString(v[..space]);
        TextBytesEncode(stored);
        Account(Text(stored), before);
      }
      if space < |v| {
        AddMessageTooLargeIndication();
      }
    }

    method WriteFormatted(text: bytes)
      requires Valid()
      modifies this`contentSize, this`argsCount, this`isFull, this`args, content
      ensures Valid() && View() == Encoder.Step(old(View()), Encoder.Formatted(text))
    {
      hide WellFormed, TotalSize, EncodeAll, EncodeArg, TextBytes;
      var space := AvailableSpace(Encoder.TEXT_OVERHEAD);
      var overflow := true;
      if space > 0 {
        ghost var before, cut := View(), if |text| < space then text else text[..space - 1];
        Encoder.PutTextValid(before, cut);
        var stringSize := StoreFormatted(space, text);
        overflow := space < stringSize;
        assert text[..|text|] == text;
        TextBytesEncode(cut);
        Account(Text(cut), before);
      }
      if overflow {
        AddMessageTooLargeIndication();
      }
    }

    /** One write of the interface, with the hex flag set as a preceding std::hex or std::dec leaves it. */
    method Write(w: Encoder.Write)
      requires Valid() && Encoder.WellFormedWrite(w)
      modifies this`contentSize, this`argsCount, this`isFull, this`args, this`hexEnabled, content
      ensures Valid() && View() == Encoder.Step(old(View()), w)
    {
      hide Encoder.Step, Encoder.Valid, EncodeAll;
      match w {
        case Plain(text) => WriteString(text);
        case Formatted(text) => WriteFormatted(text);
        case Scalar(Bool(v)) => WriteBool(v);
        case Scalar(UInt(width, hex, v)) =>
          hexEnabled := hex;
          WriteUnsigned(width, v);
        case Scalar(SInt(width, v)) => WriteSigned(width, v);
        case Scalar(Float(width, raw)) => WriteFloat(width, raw);
      }
    }

    lemma Readable()
      requires Valid()
      ensures (forall a <- args :: WellFormed(a)) && DecodeAll(EncodeAll(args)) == Some(args)
    {
      DecodeAllInverts(args);
    }

    // ---- what the destructor adds ------------------------------------------------------------

    method WriteSourceInfo(info: EntryInfo)
      requires Valid() && SInt32(info.line)
      modifies this`contentSize, this`argsCount, this`isFull, this`args, content
      ensures Valid() && View() == Encoder.RunFrom(old(View()), SourceTrailer(info))
    {
      hide Encoder.Step, Encoder.Valid, EncodeAll, Encoder.RunFrom;
      ghost var start, done := View(), [Encoder.Plain(SEPARATOR)];
      Encoder.RunFromStep(start, [], Encoder.Plain(SEPARATOR));
      WriteString(SEPARATOR);
      if info.fileName.Some? {
        Encoder.RunFromStep(start, done, Encoder.Plain(info.fileName.value));
        done := done + [Encoder.Plain(info.fileName.value)];
        WriteString(info.fileName.value);
      }
      if info.line != -1 {
        Encoder.RunFromStep(start, done, Encoder.Scalar(SInt(4, info.line)));
        done := done + [Encoder.Scalar(SInt(4, info.line))];
        WriteSigned(4, info.line);
      }
      if info.prettyFunction.Some? {
        Encoder.RunFromStep(start, done, Encoder.Plain(info.prettyFunction.value));
        done := done + [Encoder.Plain(info.prettyFunction.value)];
        WriteString(info.prettyFunction.value);
      }
      assert done == SourceTrailer(info);
    }

    method WriteThreadInfo(info: EntryInfo)
      requires Valid() && SInt32(info.threadId)
      modifies this`contentSize, this`argsCount, this`isFull, this`args, content
      ensures Valid() && View() == Encoder.RunFrom(old(View()), ThreadTrailer(info))
    {
      hide Encoder.Step, Encoder.Valid, EncodeAll, Encoder.RunFrom;
      ghost var start := View();
      var title, id, name := Encoder.Plain(THREAD_ID), Encoder.Scalar(SInt(4, info.threadId)),
        Encoder.Plain(info.threadName);
      Encoder.RunFromStep(start, [], title);
      Encoder.RunFromStep(start, [title], id);
      Encoder.RunFromStep(start, [title, id], name);
      assert [title] + [id] == [title, id] && [title, id] + [name] == ThreadTrailer(info);
      WriteString(THREAD_ID);
      WriteSigned(4, info.threadId);
      WriteString(info.threadName);
    }

    method WriteTrailer(info: EntryInfo, sourceInfo: bool, threadInfo: bool)
      requires Valid() && SInt32(info.line) && SInt32(info.threadId)
      modifies this`contentSize, this`argsCount, this`isFull, this`args, content
      ensures Valid() && View() == Encoder.RunFrom(old(View()), Trailer(info, sourceInfo, threadInfo))
      ensures
        var said := TrailerArgs(info, sourceInfo, threadInfo);
        !old(isFull) && TotalSize(old(args)) + TotalSize(said) < 16366 ==> !isFull && args == old(args) + said
    {
      TrailerFits(View(), info, sourceInfo, threadInfo);
      WriteTrailerParts(info, sourceInfo, threadInfo);
    }

    method WriteTrailerParts(info: EntryInfo, sourceInfo: bool, threadInfo: bool)
      requires Valid() && SInt32(info.line) && SInt32(info.threadId)
      modifies this`contentSize, this`argsCount, this`isFull, this`args, content
      ensures Valid() && View() == Encoder.RunFrom(old(View()), Trailer(info, sourceInfo, threadInfo))
    {
      hide Encoder.RunFrom, Encoder.Valid, SourceTrailer, ThreadTrailer, EncodeAll;
      ghost var start := View();
      Encoder.RunFromStep(start, [], Encoder.Plain([]));
      if sourceInfo {
        WriteSourceInfo(info);
      }
      ghost var first := if sourceInfo then SourceTrailer(info) else [];
      assert first + [] == first;
      if threadInfo {
        Encoder.RunFromRunFrom(start, first, ThreadTrailer(info));
        WriteThreadInfo(info);
      }
    }
  }

  /** What the end of an entry may add: where it was logged, and by which thread. */
  datatype EntryInfo = EntryInfo(
    fileName: Option<bytes>, line: int, prettyFunction: Option<bytes>, threadId: int, threadName: bytes)

  predicate SInt32(v: int) {
    -0x8000_0000 <= v < 0x8000_0000
  }

  /** 52 spaces and "| " */
  const SEPARATOR: bytes := Spaces(52) + [124, 32]

  /** "ThreadID" */
  const THREAD_ID: bytes := [84, 104, 114, 101, 97, 100, 73, 68]

  function SourceTrailer(info: EntryInfo): seq<Encoder.Write> {
    [Encoder.Plain(SEPARATOR)]
    + (if info.fileName.Some? then [Encoder.Plain(info.fileName.value)] else [])
    + (if info.line != -1 then [Encoder.Scalar(SInt(4, info.line))] else [])
    + (if info.prettyFunction.Some? then [Encoder.Plain(info.prettyFunction.value)] else [])
  }

  function ThreadTrailer(info: EntryInfo): seq<Encoder.Write> {
    [Encoder.Plain(THREAD_ID), Encoder.Scalar(SInt(4, info.threadId)), Encoder.Plain(info.threadName)]
  }

  /** The destructor's writes, with source and thread information switched on or off for the process. */
  function Trailer(info: EntryInfo, sourceInfo: bool, threadInfo: bool): seq<Encoder.Write> {
    (if sourceInfo then SourceTrailer(info) else []) + (if threadInfo then ThreadTrailer(info) else [])
  }

  /** The arguments of a trailer, as a reader finds them. */
  function TrailerArgs(info: EntryInfo, sourceInfo: bool, threadInfo: bool): seq<Arg> {
    (if sourceInfo then
       [Text(Spaces(52) + [124, 32])] + Known(info.fileName)
       + (if info.line != -1 then [SInt(4, info.line)] else []) + Known(info.prettyFunction)
     else [])
    + (if threadInfo then
         [Text([84, 104, 114, 101, 97, 100, 73, 68]), SInt(4, info.threadId)] + Known(Some(info.threadName))
       else [])
  }

  /** A text that is known; an empty one leaves no argument. */
  function Known(text: Option<bytes>): seq<Arg> {
    if text.Some? && text.value != [] then [Text(text.value)] else []
  }

  // ---- what a trailer says -----------------------------------------------------------------

  lemma TrailerWellFormed(info: EntryInfo, sourceInfo: bool, threadInfo: bool)
    requires SInt32(info.line) && SInt32(info.threadId)
    ensures forall w <- Trailer(info, sourceInfo, threadInfo) :: Encoder.WellFormedWrite(w)
  {
    Ranges();
  }

  lemma SourceSays(info: EntryInfo)
    ensures Encoder.Images(Encoder.Loud(SourceTrailer(info))) ==
      [Text(Spaces(52) + [124, 32])]
      + (if info.fileName.Some? && info.fileName.value != [] then [Text(info.fileName.value)] else [])
      + (if info.line != -1 then [SInt(4, info.line)] else [])
      + (if info.prettyFunction.Some? && info.prettyFunction.value != [] then [Text(info.prettyFunction.value)] else [])
  {
    var a := [Encoder.Plain(SEPARATOR)];
    var b := if info.fileName.Some? then [Encoder.Plain(info.fileName.value)] else [];
    var c := if info.line != -1 then [Encoder.Scalar(SInt(4, info.line))] else [];
    var d := if info.prettyFunction.Some? then [Encoder.Plain(info.prettyFunction.value)] else [];
    OneSays(a);
    OneSays(b);
    OneSays(c);
    OneSays(d);
    TwoSay(a, b);
    TwoSay(a + b, c);
    TwoSay(a + b + c, d);
    hide Encoder.Images, Encoder.Loud;
    assert SourceTrailer(info) == a + b + c + d;
  }

  /** At most one write says its argument, if it is not silent. */
  lemma OneSays(ws: seq<Encoder.Write>)
    requires |ws| <= 1
    ensures Encoder.Images(Encoder.Loud(ws)) ==
      if ws == [] || Encoder.Silent(ws[0]) then [] else [Encoder.Image(ws[0])]
  {
    if ws != [] { assert ws[..0] == []; }
  }

  lemma TwoSay(a: seq<Encoder.Write>, b: seq<Encoder.Write>)
    ensures Encoder.Images(Encoder.Loud(a + b)) == Encoder.Images(Encoder.Loud(a)) + Encoder.Images(Encoder.Loud(b))
  {
    Encoder.LoudConcat(a, b);
    Encoder.ImagesConcat(Encoder.Loud(a), Encoder.Loud(b));
  }

  lemma ThreadSays(info: EntryInfo)
    ensures Encoder.Images(Encoder.Loud(ThreadTrailer(info))) ==
      [Text([84, 104, 114, 101, 97, 100, 73, 68]), SInt(4, info.threadId)]
      + (if info.threadName != [] then [Text(info.threadName)] else [])
  {
    var a, b, c :=
      [Encoder.Plain(THREAD_ID)], [Encoder.Scalar(SInt(4, info.threadId))], [Encoder.Plain(info.threadName)];
    OneSays(a);
    OneSays(b);
    OneSays(c);
    TwoSay(a, b);
    TwoSay(a + b, c);
    hide Encoder.Images, Encoder.Loud;
    assert ThreadTrailer(info) == a + b + c;
  }

  /**
   The arguments of a trailer: the separator, then file name, line and function as far as they are known, and
   "ThreadID" with the thread's id and name.
   */
  lemma TrailerSays(info: EntryInfo, sourceInfo: bool, threadInfo: bool)
    ensures
      var said :=
        (if sourceInfo then
           [Text(Spaces(52) + [124, 32])]
           + (if info.fileName.Some? && info.fileName.value != [] then [Text(info.fileName.value)] else [])
           + (if info.line != -1 then [SInt(4, info.line)] else [])
           + (if info.prettyFunction.Some? && info.prettyFunction.value != [] then [Text(info.prettyFunction.value)]
              else [])
         else [])
        + (if threadInfo then
             [Text([84, 104, 114, 101, 97, 100, 73, 68]), SInt(4, info.threadId)]
             + (if info.threadName != [] then [Text(info.threadName)] else [])
           else []);
      Encoder.Images(Encoder.Loud(Trailer(info, sourceInfo, threadInfo))) == said
      && said == TrailerArgs(info, sourceInfo, threadInfo)
  {
    hide SourceTrailer, ThreadTrailer;
    SourceSays(info);
    ThreadSays(info);
    var a, b := if sourceInfo then SourceTrailer(info) else [], if threadInfo then ThreadTrailer(info) else [];
    OneSays([]);
    TwoSay(a, b);
    hide Encoder.Images, Encoder.Loud, Spaces;
  }

  /** If there is room for a trailer, it is added as it is. */
  lemma TrailerFits(l: Encoder.Log, info: EntryInfo, sourceInfo: bool, threadInfo: bool)
    requires SInt32(info.line) && SInt32(info.threadId)
    ensures
      var said := TrailerArgs(info, sourceInfo, threadInfo);
      !l.full && TotalSize(l.args) + TotalSize(said) < 16366 ==>
        Encoder.RunFrom(l, Trailer(info, sourceInfo, threadInfo)) == Encoder.Log(l.args + said, false)
  {
    hide Trailer, TrailerArgs, Encoder.RunFrom, Encoder.Images, Encoder.Loud, TotalSize;
    TrailerSays(info, sourceInfo, threadInfo);
    TrailerWellFormed(info, sourceInfo, threadInfo);
    var ws := Trailer(info, sourceInfo, threadInfo);
    if !l.full && TotalSize(l.args) + TotalSize(Encoder.Images(Encoder.Loud(ws))) < 16366 {
      Encoder.RunFromFits(l, ws);
    }
  }
}
