/**
 The default log type: contexts and entries that hold a DLT backend and a console backend side by side. A
 context registers itself with the daemon on the first query; a log statement is a query and, if any
 backend admits its level, an entry that both backends see.
 */
module DefaultBackends {
  import opened Bytes
  import opened DltProtocol
  import opened LogData
  import opened Daemon
  import opened StreamLog
  import opened Machine
  import opened Statements
  import ConsoleLayout
  import Encoder
  import Messages
  import Session

  class LogEntry {
    const dlt: DltLogData
    const console: ConsoleLogData

    ghost predicate Valid()
      reads this, dlt, dlt.content, console, console.content
    {
      dlt.Valid() && console.Valid() && dlt.content !in console.content.Repr()
    }

    constructor (dlt: DltLogData, console: ConsoleLogData)
      requires dlt.Valid() && console.Valid() && dlt.content !in console.content.Repr()
      ensures Valid() && this.dlt == dlt && this.console == console
    {
      this.dlt, this.console := dlt, console;
    }

    /** One argument: `w` is the write DLT sees, `rendered` the text the console makes of it. */
    method Write(w: Encoder.Write, rendered: bytes)
      requires Valid() && Encoder.WellFormedWrite(w)
      modifies dlt`contentSize, dlt`argsCount, dlt`isFull, dlt`args, dlt`hexEnabled, dlt.content, console.content.Repr()
      ensures Valid() && fresh(console.content.Repr() - old(console.content.Repr()))
      ensures dlt.View() == if dlt.enabled then Encoder.Step(old(dlt.View()), w) else old(dlt.View())
      ensures console.content.Contents() == old(console.content.Contents()) + (if console.enabled then rendered else [])
    {
      hide Encoder.Step, DltLogData.Valid, DltLogData.View;
      if dlt.enabled {
        dlt.Write(w);
      }
      if console.enabled {
        console.WriteFormatted(rendered);
      }
    }

    /** Whatever is written, each backend ends as if it were the only one. */
    method WriteAll(ws: seq<Encoder.Write>, texts: seq<bytes>)
      requires Valid() && |ws| == |texts| && forall w <- ws :: Encoder.WellFormedWrite(w)
      modifies dlt`contentSize, dlt`argsCount, dlt`isFull, dlt`args, dlt`hexEnabled, dlt.content, console.content.Repr()
      ensures Valid() && fresh(console.content.Repr() - old(console.content.Repr()))
      ensures dlt.View() == if dlt.enabled then Encoder.RunFrom(old(dlt.View()), ws) else old(dlt.View())
      ensures console.content.Contents() ==
        old(console.content.Contents()) + (if console.enabled then Flatten(texts) else [])
    {
      hide Encoder.Step, Encoder.RunFrom, Encoder.WellFormedWrite, DltLogData.Valid, DltLogData.View, Flatten;
      ghost var start, text := dlt.View(), console.content.Contents();
      Nothing(start);
      for i := 0 to |ws|
        invariant Valid() && fresh(console.content.Repr() - old(console.content.Repr()))
        invariant dlt.View() == if dlt.enabled then Encoder.RunFrom(start, ws[..i]) else start
        invariant console.content.Contents() == text + (if console.enabled then Flatten(texts[..i]) else [])
      {
        Encoder.RunFromStep(start, ws[..i], ws[i]);
        FlattenStep(texts[..i], texts[i]);
        assert ws[..i + 1] == ws[..i] + [ws[i]] && texts[..i + 1] == texts[..i] + [texts[i]];
        Write(ws[i], texts[i]);
      }
      assert ws[..|ws|] == ws && texts[..|ws|] == texts;
    }
  }

  class LogContext {
    const dlt: DltContext
    const console: ConsoleLogContext
    const daemon: DaemonConnection
    var registered: bool

    ghost predicate Valid()
      reads this, daemon, daemon.contexts, dlt
    {
      && daemon.Valid() && (registered <==> dlt in daemon.contexts) && |dlt.description| < Messages.UINT32
      && (!registered ==> ViewOf(dlt) == NewContext(dlt.id, dlt.description))
    }

    constructor (dlt: DltContext, console: ConsoleLogContext, daemon: DaemonConnection)
      requires daemon.Valid() && dlt !in daemon.contexts && |dlt.description| < Messages.UINT32
      requires ViewOf(dlt) == NewContext(dlt.id, dlt.description)
      ensures Valid() && !registered && this.dlt == dlt && this.console == console && this.daemon == daemon
    {
      this.dlt, this.console, this.daemon, registered := dlt, console, daemon, false;
    }

    /** The connection once the context is registered, and its place in it. */
    ghost function Checked(): (c: Session.Conn)
      reads this, daemon, daemon.contexts, dlt
      ensures |c.contexts| == |daemon.contexts| + if registered then 0 else 1
    {
      if registered then daemon.View()
      else Session.RegisterCtx(daemon.app, daemon.View(), ViewOf(dlt), daemon.fate)
    }

    ghost function Position(): (pos: nat)
      requires Valid()
      reads this, daemon, daemon.contexts, dlt
      ensures pos < |Checked().contexts|
    {
      if registered then dlt.logLevelPos else |daemon.contexts|
    }

    /** The connection after a log statement. */
    ghost function Logged(s: Statement): Session.Conn
      requires Valid()
      reads this, daemon, daemon.contexts, dlt, console
    {
      var c, pos := Checked(), Position();
      if !dlt.IsEnabled(s.level) && !console.IsEnabled(s.level) then c
      else if !dlt.IsEnabled(s.level) then Counted(c, pos)
      else
        Session.SendLogEntry(
          daemon.app, Counted(c, pos), Session.Registered(pos),
          Sent(dlt.messageCount, DltLogLevel(s.level), s.ws + s.ending.Trailer()), s.ending.tmsp, daemon.fate)
    }

    /** The text a log statement appends to the console's file. */
    ghost function Printed(s: Statement): bytes
      reads console
    {
      if !console.IsEnabled(s.level) then []
      else
        CString(EntryLine(
          console.colorSupport, s.level, s.prefix, Flatten(s.texts),
          s.ending.location + s.ending.thread.GetOr([]) + [10], s.ending.consoleWidth,
          s.ending.consoleWidthAgain) + [0])
    }

    /** A statement prints its line if its level stands no later in this list than both levels of the console. */
    lemma PrintedByPlace(s: Statement, n: nat, own: nat, global: nat)
      requires n < 9 && own < 9 && global < 9
      requires s.level == [None_, Fatal, Error, Warning, Info, Debug, Verbose, All, Invalid][n]
      requires console.logLevel == [None_, Fatal, Error, Warning, Info, Debug, Verbose, All, Invalid][own]
      requires console.globalLogLevel == [None_, Fatal, Error, Warning, Info, Debug, Verbose, All, Invalid][global]
      ensures Printed(s) ==
        if n <= own && n <= global then
          CString(EntryLine(
            console.colorSupport, s.level, s.prefix, Flatten(s.texts),
            s.ending.location + s.ending.thread.GetOr([]) + [10], s.ending.consoleWidth,
            s.ending.consoleWidthAgain) + [0])
        else []
    {
      hide EntryLine, Flatten, CString;
      console.EnabledByPlace(s.level, n, own, global);
    }

    /** A query says yes if the level is within the one in force at the daemon, or within both of the console. */
    lemma QueryByPlace(level: LogLevel, n: nat, own: nat, global: nat)
      requires n < 9 && own < 9 && global < 9
      requires level == [None_, Fatal, Error, Warning, Info, Debug, Verbose, All, Invalid][n]
      requires console.logLevel == [None_, Fatal, Error, Warning, Info, Debug, Verbose, All, Invalid][own]
      requires console.globalLogLevel == [None_, Fatal, Error, Warning, Info, Debug, Verbose, All, Invalid][global]
      ensures dlt.IsEnabled(level) || console.IsEnabled(level) <==>
        (if n < 7 then n else -1) <= dlt.activeLogLevel || (n <= own && n <= global)
    {
      console.EnabledByPlace(level, n, own, global);
      DltLevelByPlace(level);
    }

    method CheckContext()
      requires Valid() && (registered || |daemon.contexts| + 1 < 0x8000_0000)
      modifies this`registered, daemon, dlt`logLevelPos, dlt`header, (set x <- daemon.contexts)`header
      ensures Valid() && registered && daemon.View() == Checked() == old(Checked())
        && dlt.logLevelPos == old(Position())
      ensures daemon.contexts == old(daemon.contexts) + (if old(registered) then [] else [dlt])
    {
      hide DaemonConnection.Valid, DaemonConnection.View, Session.RegisterCtx;
      if !registered {
        var _ := daemon.RegisterContext(dlt);
        registered := true;
      }
    }

    method IsEnabled(level: LogLevel) returns (enabled: bool)
      requires Valid() && (registered || |daemon.contexts| + 1 < 0x8000_0000)
      modifies this`registered, daemon, dlt`logLevelPos, dlt`header, (set x <- daemon.contexts)`header
      ensures Valid() && registered && daemon.View() == Checked() == old(Checked())
        && dlt.logLevelPos == old(Position())
      ensures daemon.contexts == old(daemon.contexts) + (if old(registered) then [] else [dlt])
      ensures enabled == (old(dlt.IsEnabled(level)) || old(console.IsEnabled(level)))
      ensures forall n, own, global | 0 <= n < 9 && 0 <= own < 9 && 0 <= global < 9 ::
        var levels := [None_, Fatal, Error, Warning, Info, Debug, Verbose, All, Invalid];
        level == levels[n] && console.logLevel == levels[own] && console.globalLogLevel == levels[global] ==>
          (enabled <==> (if n < 7 then n else -1) <= dlt.activeLogLevel || (n <= own && n <= global))
    {
      hide DaemonConnection.Valid, DaemonConnection.View, LogContext.Checked;
      CheckContext();
      enabled := dlt.IsEnabled(level);
      enabled := console.IsEnabled(level) || enabled;
      forall n, own, global | 0 <= n < 9 && 0 <= own < 9 && 0 <= global < 9
        ensures
          var levels := [None_, Fatal, Error, Warning, Info, Debug, Verbose, All, Invalid];
          level == levels[n] && console.logLevel == levels[own] && console.globalLogLevel == levels[global] ==>
            (enabled <==> (if n < 7 then n else -1) <= dlt.activeLogLevel || (n <= own && n <= global))
      {
        var levels := [None_, Fatal, Error, Warning, Info, Debug, Verbose, All, Invalid];
        if level == levels[n] && console.logLevel == levels[own] && console.globalLogLevel == levels[global] {
          QueryByPlace(level, n, own, global);
        }
      }
    }

    /** However often a context is queried, it is registered with the daemon once. */
    method QueryAll(levels: seq<LogLevel>) returns (answers: seq<bool>)
      requires Valid() && (registered || |daemon.contexts| + 1 < 0x8000_0000)
      modifies this`registered, daemon, dlt`logLevelPos, dlt`header, (set x <- daemon.contexts)`header
      ensures Valid() && (levels != [] ==> registered && daemon.View() == old(Checked()))
      ensures daemon.contexts == old(daemon.contexts) + (if old(registered) || levels == [] then [] else [dlt])
      ensures |answers| == |levels|
      ensures forall i | 0 <= i < |levels| ::
        answers[i] == (old(dlt.IsEnabled(levels[i])) || old(console.IsEnabled(levels[i])))
    {
      hide DaemonConnection.Valid, DaemonConnection.View, LogContext.Checked;
      answers := [];
      for i := 0 to |levels|
        invariant Valid() && Checked() == old(Checked()) && |answers| == i
        invariant daemon.contexts == old(daemon.contexts) + (if old(registered) || i == 0 then [] else [dlt])
        invariant if i == 0 then registered == old(registered) else registered && daemon.View() == Checked()
        invariant forall j | 0 <= j < i ::
          answers[j] == (old(dlt.IsEnabled(levels[j])) || old(console.IsEnabled(levels[j])))
      {
        var answer := IsEnabled(levels[i]);
        answers := answers + [answer];
      }
    }

    lemma Place()
      requires Valid() && registered
      ensures 0 <= dlt.logLevelPos < |daemon.contexts| && daemon.contexts[dlt.logLevelPos] == dlt
      ensures daemon.View().contexts[dlt.logLevelPos] == ViewOf(dlt)
    {
    }

    method CreateLog(level: LogLevel, prefix: bytes) returns (entry: LogEntry)
      requires Valid() && registered
      modifies dlt`messageCount
      ensures Valid() && daemon.View() == Counted(old(daemon.View()), old(Position()))
      ensures fresh(entry) && fresh(entry.dlt) && fresh(entry.dlt.content)
      ensures entry.Valid() && fresh(entry.console) && fresh(entry.console.content.Repr())
      ensures var data := entry.dlt;
        && data.View() == Encoder.EMPTY && data.context == dlt && data.enabled == dlt.IsEnabled(level)
        && data.dltLogLevel == DltLogLevel(level) && data.messageCount == old(dlt.messageCount)
      ensures entry.console.Begun(console.IsEnabled(level), console.colorSupport, level, prefix)
    {
      hide DltLogData.Valid, DltLogData.View, DaemonConnection.Valid, DaemonConnection.View, ConsoleLogData.Begun;
      Place();
      var data := daemon.CreateLog(dlt.logLevelPos, level);
      var text := console.CreateLog(level, prefix);
      entry := new LogEntry(data, text);
    }

    method EndDlt(data: DltLogData, ghost ws: seq<GoodWrite>, ending: Ending)
      requires Valid() && registered && data.Valid() && data.context == dlt && ending.tmsp < Messages.UINT32
      requires data.enabled ==> data.View() == Encoder.Run(ws)
      modifies daemon`connected, daemon`tick, daemon`wire, daemon`session, daemon`closed,
        (set x <- daemon.contexts)`header
      modifies data`contentSize, data`argsCount, data`isFull, data`args, data.content
      ensures Valid()
      ensures !data.enabled ==> daemon.View() == old(daemon.View())
      ensures data.enabled ==>
        daemon.View() == Session.SendLogEntry(
          daemon.app, old(daemon.View()), Session.Registered(dlt.logLevelPos),
          Sent(data.messageCount, data.dltLogLevel, ws + ending.Trailer()), ending.tmsp, daemon.fate)
    {
      hide DltLogData.Valid, DaemonConnection.Valid, DaemonConnection.View, Encoder.RunFrom, Session.SendLogEntry;
      Place();
      Encoder.RunFromRunFrom(Encoder.EMPTY, ws, ending.Trailer());
      daemon.Finish(data, ending.info, ending.sourceInfo, ending.threadInfo, ending.tmsp);
    }

    /** The destructors of an entry's backends. */
    method EndLog(entry: LogEntry, ghost ws: seq<GoodWrite>, ending: Ending, file: OutputFile)
      requires Valid() && registered && entry.Valid() && file !in entry.console.content.Repr()
      requires entry.dlt.context == dlt && ending.tmsp < Messages.UINT32
      requires entry.dlt.enabled ==> entry.dlt.View() == Encoder.Run(ws)
      modifies daemon`connected, daemon`tick, daemon`wire, daemon`session, daemon`closed,
        (set x <- daemon.contexts)`header
      modifies entry.dlt`contentSize, entry.dlt`argsCount, entry.dlt`isFull, entry.dlt`args, entry.dlt.content
      modifies entry.console`invisibleCharacterCount, entry.console.content.Repr(), file
      ensures Valid()
      ensures !entry.dlt.enabled ==> daemon.View() == old(daemon.View())
      ensures entry.dlt.enabled ==>
        daemon.View() == Session.SendLogEntry(
          daemon.app, old(daemon.View()), Session.Registered(dlt.logLevelPos),
          Sent(entry.dlt.messageCount, entry.dlt.dltLogLevel, ws + ending.Trailer()), ending.tmsp, daemon.fate)
      ensures !entry.console.enabled ==> file.text == old(file.text)
      ensures entry.console.enabled ==>
        file.text == old(file.text) + CString(SuffixedLine(
          entry.console.colors, entry.console.level, old(entry.console.content.Contents()),
          old(entry.console.invisibleCharacterCount), ending.Suffix(), ending.consoleWidth, ending.consoleWidthAgain)
          + [0])
    {
      hide DltLogData.Valid, DltLogData.View, DaemonConnection.Valid, DaemonConnection.View, Encoder.RunFrom;
      hide CString, SuffixedLine;
      hide Session.SendLogEntry, Sent, LogContext.Valid;
      EndDlt(entry.dlt, ws, ending);
      entry.console.FlushLog(ending.location, ending.thread, ending.consoleWidth, ending.consoleWidthAgain, file);
    }

    method CreateAndWrite(level: LogLevel, prefix: bytes, ws: seq<GoodWrite>, texts: seq<bytes>)
      returns (entry: LogEntry)
      requires Valid() && registered && |ws| == |texts|
      modifies dlt`messageCount
      ensures Valid() && daemon.View() == Counted(old(daemon.View()), old(Position()))
      ensures entry.Valid() && fresh(entry.dlt) && fresh(entry.dlt.content)
      ensures fresh(entry.console) && fresh(entry.console.content.Repr())
      ensures var data := entry.dlt;
        && data.context == dlt && data.enabled == dlt.IsEnabled(level)
        && data.dltLogLevel == DltLogLevel(level) && data.messageCount == old(dlt.messageCount)
        && (data.enabled ==> data.View() == Encoder.Run(ws))
      ensures var text, color, reset := entry.console,
        ConsoleLayout.HeaderColor(console.colorSupport, level), ConsoleLayout.ResetColor(console.colorSupport);
        && text.enabled == console.IsEnabled(level) && text.colors == console.colorSupport && text.level == level
        && (text.enabled ==>
              && text.content.Contents() == color + prefix + reset + Flatten(texts)
              && text.invisibleCharacterCount == |color| + |reset|)
    {
      hide DltLogData.Valid, DltLogData.View, DaemonConnection.Valid, DaemonConnection.View, Encoder.RunFrom, Counted;
      hide LogContext.Checked, LogContext.Valid, Flatten, ConsoleLayout.HeaderColor, ConsoleLayout.ResetColor;
      Place();
      entry := CreateLog(level, prefix);
      entry.WriteAll(ws, texts);
    }

    /** An entry from its creation to its end. */
    method LogEnabled(s: Statement, file: OutputFile)
      requires Valid() && registered && StatementOk(s)
      modifies daemon`connected, daemon`tick, daemon`wire, daemon`session, daemon`closed,
        (set x <- daemon.contexts)`header
      modifies dlt`messageCount, file
      ensures Valid()
      ensures daemon.View() == (
        var counted := Counted(old(daemon.View()), old(Position()));
        if !dlt.IsEnabled(s.level) then counted
        else
          Session.SendLogEntry(
            daemon.app, counted, Session.Registered(old(Position())),
            Sent(old(dlt.messageCount), DltLogLevel(s.level), s.ws + s.ending.Trailer()), s.ending.tmsp, daemon.fate))
      ensures file.text == old(file.text) + Printed(s)
    {
      hide DltLogData.Valid, DltLogData.View, DaemonConnection.Valid, DaemonConnection.View, Encoder.RunFrom;
      hide Session.SendLogEntry, Sent, LogContext.Checked, LogContext.Valid, Flatten, Counted, CString, SuffixedLine;
      hide ConsoleLayout.HeaderColor, ConsoleLayout.ResetColor;
      Place();
      var entry := CreateAndWrite(s.level, s.prefix, s.ws, s.texts);
      EndLog(entry, s.ws, s.ending, file);
    }

    lemma NothingPrinted(s: Statement)
      ensures console.globalLogLevel == None_ && s.level != None_ ==> Printed(s) == []
      ensures !console.IsEnabled(s.level) ==> Printed(s) == []
    {
    }

    lemma AllPrintedByPlace(s: Statement)
      ensures forall n, own, global | 0 <= n < 9 && 0 <= own < 9 && 0 <= global < 9 ::
        var levels := [None_, Fatal, Error, Warning, Info, Debug, Verbose, All, Invalid];
        s.level == levels[n] && console.logLevel == levels[own] && console.globalLogLevel == levels[global] ==>
          Printed(s) ==
            if n <= own && n <= global then
              CString(EntryLine(
                console.colorSupport, s.level, s.prefix, Flatten(s.texts),
                s.ending.location + s.ending.thread.GetOr([]) + [10], s.ending.consoleWidth,
                s.ending.consoleWidthAgain) + [0])
            else []
    {
      hide EntryLine, Flatten, CString, LogContext.Printed;
      var levels := [None_, Fatal, Error, Warning, Info, Debug, Verbose, All, Invalid];
      forall n, own, global | 0 <= n < 9 && 0 <= own < 9 && 0 <= global < 9 && s.level == levels[n]
          && console.logLevel == levels[own] && console.globalLogLevel == levels[global]
        ensures
          Printed(s) ==
            if n <= own && n <= global then
              CString(EntryLine(
                console.colorSupport, s.level, s.prefix, Flatten(s.texts),
                s.ending.location + s.ending.thread.GetOr([]) + [10], s.ending.consoleWidth,
                s.ending.consoleWidthAgain) + [0])
            else []
      {
        PrintedByPlace(s, n, own, global);
      }
    }

    /**
     A log statement: the query, and if any backend admits the level, an entry with its writes and its end.
     Each backend ends as if it were the only one, but an entry made for the console alone uses up one of
     the message counters of DLT.
     */
    method Log(s: Statement, file: OutputFile)
      requires Valid() && (registered || |daemon.contexts| + 1 < 0x8000_0000) && StatementOk(s)
      modifies this`registered, daemon, dlt`logLevelPos, dlt`header, dlt`messageCount,
        (set x <- daemon.contexts)`header, file
      ensures Valid() && registered && dlt.logLevelPos == old(Position())
      ensures daemon.contexts == old(daemon.contexts) + (if old(registered) then [] else [dlt])
      ensures daemon.View() == old(Logged(s)) && file.text == old(file.text) + Printed(s)
      ensures forall n, own, global | 0 <= n < 9 && 0 <= own < 9 && 0 <= global < 9 ::
        var levels := [None_, Fatal, Error, Warning, Info, Debug, Verbose, All, Invalid];
        s.level == levels[n] && console.logLevel == levels[own] && console.globalLogLevel == levels[global] ==>
          file.text == old(file.text) +
            if n <= own && n <= global then
              CString(EntryLine(
                console.colorSupport, s.level, s.prefix, Flatten(s.texts),
                s.ending.location + s.ending.thread.GetOr([]) + [10], s.ending.consoleWidth,
                s.ending.consoleWidthAgain) + [0])
            else []
      ensures console.globalLogLevel == None_ && s.level != None_ ==> file.text == old(file.text)
    {
      hide DaemonConnection.Valid, DaemonConnection.View, CString, EntryLine;
      hide Session.SendLogEntry, Sent, LogContext.Checked, LogContext.Valid, Flatten;
      hide LogContext.Printed;
      NothingPrinted(s);
      AllPrintedByPlace(s);
      var enabled := IsEnabled(s.level);
      if enabled {
        LogEnabled(s, file);
      }
    }

    /** A log statement as events of Machine, after a run that created `k` entries. */
    ghost function Events(s: Statement, k: nat): seq<Event>
      requires Valid()
      reads this, daemon, daemon.contexts, dlt, console
    {
      CallEvents(s, k, Position(), !registered, dlt.IsEnabled(s.level) || console.IsEnabled(s.level),
        dlt.id, dlt.description)
    }

    lemma CheckedIsRun(evs: seq<Event>)
      requires Valid() && EventsOk(evs) && Reach(daemon.app, evs, daemon.fate).conn == daemon.View()
      requires registered || |daemon.contexts| + 1 < 0x8000_0000
      ensures
        var r := Reach(daemon.app, evs + RegisterEvents(!registered, dlt.id, dlt.description), daemon.fate);
        && r.conn == Checked() && r.entries == Reach(daemon.app, evs, daemon.fate).entries
        && r.conn.contexts[Position()].level == dlt.activeLogLevel
        && r.conn.contexts[Position()].created == dlt.messageCount
    {
      hide Reach, Session.RegisterCtx, DaemonConnection.View;
      if registered {
        Place();
        assert evs + [] == evs;
      } else {
        RegisterIsRun(daemon.app, evs, dlt.id, dlt.description, daemon.fate);
      }
    }

    /** A log statement continues the run: everything proved of Machine's runs holds after it. */
    lemma LoggedIsRun(evs: seq<Event>, s: Statement)
      requires Valid() && EventsOk(evs) && Reach(daemon.app, evs, daemon.fate).conn == daemon.View()
      requires registered || |daemon.contexts| + 1 < 0x8000_0000
      ensures
        var k := |Reach(daemon.app, evs, daemon.fate).entries|;
        Reach(daemon.app, evs + Events(s, k), daemon.fate).conn == Logged(s)
    {
      hide Reach, Session.RegisterCtx, Session.SendLogEntry, Sent, DaemonConnection.View, StatementEvents;
      hide LogContext.Checked, RegisterEvents;
      CheckedIsRun(evs);
      var k := |Reach(daemon.app, evs, daemon.fate).entries|;
      var first := RegisterEvents(!registered, dlt.id, dlt.description);
      if !dlt.IsEnabled(s.level) && !console.IsEnabled(s.level) {
        assert first + [] == first;
      } else {
        SameEvents(evs, first, StatementEvents(s, k, Position()));
        StatementIsRun(daemon.app, evs + first, s, Position(), daemon.fate);
      }
    }

    /** The same for a connection that followed the run `evs` so far: it still follows a run. */
    method LogInRun(s: Statement, file: OutputFile, ghost evs: seq<Event>) returns (ghost after: seq<Event>)
      requires Valid() && (registered || |daemon.contexts| + 1 < 0x8000_0000) && StatementOk(s) && EventsOk(evs)
      requires Reach(daemon.app, evs, daemon.fate).conn == daemon.View()
      modifies this`registered, daemon, dlt`logLevelPos, dlt`header, dlt`messageCount,
        (set x <- daemon.contexts)`header, file
      ensures Valid() && registered && dlt.logLevelPos == old(Position())
      ensures daemon.contexts == old(daemon.contexts) + (if old(registered) then [] else [dlt])
      ensures after == evs + old(Events(s, |Reach(daemon.app, evs, daemon.fate).entries|)) && EventsOk(after)
      ensures Reach(daemon.app, after, daemon.fate).conn == daemon.View()
      ensures file.text == old(file.text) + Printed(s)
    {
      hide Reach, DaemonConnection.View, LogContext.Valid, LogContext.Logged, LogContext.Printed, EventsOk, CallEvents;
      assert daemon.Valid() && |dlt.description| < Messages.UINT32 by { Parts(); }
      assert |daemon.contexts| == |RegisteredIds(evs)| by { RegisteredInRun(evs); }
      ghost var k := |Reach(daemon.app, evs, daemon.fate).entries|;
      after := evs + Events(s, k);
      LoggedIsRun(evs, s);
      CallEventsOk(evs, s, k, Position(), !registered, dlt.IsEnabled(s.level) || console.IsEnabled(s.level),
        dlt.id, dlt.description);
      Log(s, file);
    }

    lemma Parts()
      requires Valid()
      ensures daemon.Valid() && |dlt.description| < Messages.UINT32
    {
    }

    /** The level in force is that of the last level message to the context's place. */
    lemma LevelInRun(evs: seq<Event>)
      requires Valid() && EventsOk(evs) && Reach(daemon.app, evs, daemon.fate).conn == daemon.View()
      ensures dlt.activeLogLevel == LastLevel(evs, Position())
    {
      hide Reach, Session.Inv, RegisteredIds, EventsOk, LastLevel, DaemonConnection.View;
      ReachInv(daemon.app, evs, daemon.fate);
      ReachLevels(daemon.app, evs, daemon.fate);
      if registered {
        Place();
      } else {
        NotYetAddressed(evs, |daemon.contexts|);
      }
    }

    lemma RegisteredInRun(evs: seq<Event>)
      requires Valid() && EventsOk(evs) && Reach(daemon.app, evs, daemon.fate).conn == daemon.View()
      ensures |daemon.contexts| == |RegisteredIds(evs)|
    {
      hide Reach, Session.Inv, RegisteredIds, EventsOk;
      ReachInv(daemon.app, evs, daemon.fate);
    }
  }

  lemma Nothing(l: Encoder.Log)
    ensures Encoder.RunFrom(l, []) == l && Flatten([]) == []
  {
  }

  lemma FlattenStep(pieces: seq<bytes>, piece: bytes)
    ensures Flatten(pieces + [piece]) == Flatten(pieces) + piece
  {
    assert (pieces + [piece])[..|pieces|] == pieces;
  }
}
