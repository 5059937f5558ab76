/**
 Sequences of log statements on any number of contexts of one connection, with the daemon's buffers in
 between: the connection follows the run of Machine made of their events.
 */
module LogRuns {
  import opened Bytes
  import opened DltProtocol
  import opened LogData
  import opened Daemon
  import opened StreamLog
  import opened Machine
  import opened Statements
  import opened DefaultBackends
  import ControlInput

  /** Different contexts of one connection. */
  ghost predicate Together(contexts: seq<LogContext>, daemon: DaemonConnection)
    reads contexts, daemon, daemon.contexts, set c <- contexts :: c.dlt
  {
    && daemon.Valid() && (forall c <- contexts :: c.daemon == daemon && c.Valid())
    && (forall i, j | 0 <= i < j < |contexts| :: contexts[i] != contexts[j] && contexts[i].dlt != contexts[j].dlt)
  }

  /** A log statement on one of the contexts, or a buffer from the daemon. */
  datatype Call = Say(context: nat, statement: Statement) | Hear(received: bytes, stale: bytes)

  ghost function Parsed(call: Call): ControlInput.Parsed
    requires call.Hear?
  {
    ControlInput.Parse(call.received + call.stale, |call.received|)
  }

  /** The call does not make the behaviour undefined. */
  ghost predicate Defined(call: Call) {
    call.Hear? ==> Parsed(call).defined
  }

  ghost predicate DefinedUpTo(calls: seq<Call>, n: nat)
    requires n <= |calls|
  {
    forall i | 0 <= i < n :: Defined(calls[i])
  }

  predicate CallsOk(contexts: seq<LogContext>, calls: seq<Call>) {
    forall c <- calls :: c.Say? ==> c.context < |contexts| && StatementOk(c.statement)
  }

  predicate Used(calls: seq<Call>, context: nat) {
    exists c <- calls :: c.Say? && c.context == context
  }

  /**
   `after` is `before` and the events of the call. A log statement's context has the place `place`, and it
   is enabled by the level in force there or by the console.
   */
  ghost predicate Performed(
    contexts: seq<LogContext>, call: Call, before: seq<Event>, after: seq<Event>, place: int, first: bool,
    console: bool)
    requires call.Say? ==> call.context < |contexts|
  {
    match call
    case Say(c, s) =>
      && place >= 0
      && var x := contexts[c];
      var k := |Reach(x.daemon.app, before, x.daemon.fate).entries|;
      var enabled := DltLogLevel(s.level) <= LastLevel(before, place) || console;
      after == before + CallEvents(s, k, place, first, enabled, x.dlt.id, x.dlt.description)
    case Hear(_, _) => after == before + LevelMessages(Parsed(call).changes)
  }

  /** Which contexts are registered, and their places. */
  ghost function Known(contexts: seq<LogContext>): (known: seq<bool>)
    reads contexts
    ensures |known| == |contexts|
  {
    seq(|contexts|, j requires 0 <= j < |contexts| reads contexts => contexts[j].registered)
  }

  ghost function Places(contexts: seq<LogContext>): (places: seq<int>)
    reads set c <- contexts :: c.dlt
    ensures |places| == |contexts|
  {
    seq(|contexts|, j requires 0 <= j < |contexts| reads set c <- contexts :: c.dlt => contexts[j].dlt.logLevelPos)
  }

  /** Which calls the console admits, and what each of the calls appends to its file. */
  ghost function Admitted(contexts: seq<LogContext>, calls: seq<Call>): (admitted: seq<bool>)
    requires CallsOk(contexts, calls)
    reads set c <- contexts :: c.console
    ensures |admitted| == |calls|
  {
    seq(|calls|, n requires 0 <= n < |calls| && CallsOk(contexts, calls) reads set c <- contexts :: c.console =>
      calls[n].Say? && contexts[calls[n].context].console.IsEnabled(calls[n].statement.level))
  }

  ghost function Lines(contexts: seq<LogContext>, calls: seq<Call>): (lines: seq<bytes>)
    requires CallsOk(contexts, calls)
    reads set c <- contexts :: c.console
    ensures |lines| == |calls|
  {
    seq(|calls|, n requires 0 <= n < |calls| && CallsOk(contexts, calls) reads set c <- contexts :: c.console =>
      if calls[n].Say? then contexts[calls[n].context].Printed(calls[n].statement) else [])
  }

  lemma CallAt(contexts: seq<LogContext>, calls: seq<Call>, i: nat)
    requires i < |calls| && CallsOk(contexts, calls)
    ensures calls[i].Say? ==>
      var c, s := contexts[calls[i].context], calls[i].statement;
      Admitted(contexts, calls)[i] == c.console.IsEnabled(s.level) && Lines(contexts, calls)[i] == c.Printed(s)
    ensures calls[i].Hear? ==> Lines(contexts, calls)[i] == []
  {
    hide LogContext.Printed;
  }

  // ---- one call ----------------------------------------------------------------------------

  /** A log statement on one context leaves the others as they are. */
  method SayTogether(contexts: seq<LogContext>, daemon: DaemonConnection, c: nat, s: Statement, file: OutputFile,
    ghost evs: seq<Event>) returns (ghost after: seq<Event>)
    requires Together(contexts, daemon) && c < |contexts| && StatementOk(s)
    requires contexts[c].registered || |daemon.contexts| + 1 < 0x8000_0000
    requires EventsOk(evs) && Reach(daemon.app, evs, daemon.fate).conn == daemon.View()
    modifies {contexts[c]}`registered, daemon, {contexts[c].dlt}`logLevelPos, {contexts[c].dlt}`header,
      {contexts[c].dlt}`messageCount, (set x <- daemon.contexts)`header, file
    ensures Together(contexts, daemon) && EventsOk(after) && Reach(daemon.app, after, daemon.fate).conn == daemon.View()
    ensures daemon.contexts == old(daemon.contexts) + (if old(contexts[c].registered) then [] else [contexts[c].dlt])
    ensures Known(contexts) == old(Known(contexts))[c := true]
    ensures forall j | 0 <= j < |contexts| && old(Known(contexts))[j] ::
      Places(contexts)[j] == old(Places(contexts))[j]
    ensures file.text == old(file.text) + contexts[c].Printed(s)
    ensures after == evs + old(contexts[c].Events(s, |Reach(daemon.app, evs, daemon.fate).entries|))
    ensures Places(contexts)[c] == old(contexts[c].Position())
  {
    hide Reach, DaemonConnection.View, DaemonConnection.Valid, EventsOk, StatementOk, LogContext.Events;
    hide LogContext.Printed, LogContext.Checked;
    var context := contexts[c];
    after := context.LogInRun(s, file, evs);
    assert Known(contexts) == old(Known(contexts))[c := true];
  }

  /** A log statement, on a connection that followed the run `evs` so far. */
  method SayOn(contexts: seq<LogContext>, daemon: DaemonConnection, calls: seq<Call>, i: nat, file: OutputFile,
    ghost evs: seq<Event>) returns (ghost after: seq<Event>)
    requires Together(contexts, daemon) && CallsOk(contexts, calls) && i < |calls| && calls[i].Say?
    requires contexts[calls[i].context].registered || |daemon.contexts| + 1 < 0x8000_0000
    requires EventsOk(evs) && Reach(daemon.app, evs, daemon.fate).conn == daemon.View()
    modifies {contexts[calls[i].context]}`registered, daemon, {contexts[calls[i].context].dlt}`logLevelPos,
      {contexts[calls[i].context].dlt}`header, {contexts[calls[i].context].dlt}`messageCount,
      (set x <- daemon.contexts)`header, file
    ensures Together(contexts, daemon) && EventsOk(after) && Reach(daemon.app, after, daemon.fate).conn == daemon.View()
    ensures daemon.contexts ==
      old(daemon.contexts) + (if old(Known(contexts))[calls[i].context] then [] else [contexts[calls[i].context].dlt])
    ensures Known(contexts) == old(Known(contexts))[calls[i].context := true]
    ensures forall j | 0 <= j < |contexts| && old(Known(contexts))[j] ::
      Places(contexts)[j] == old(Places(contexts))[j]
    ensures file.text == old(file.text) + Lines(contexts, calls)[i]
    ensures Performed(
      contexts, calls[i], evs, after, Places(contexts)[calls[i].context], !old(Known(contexts))[calls[i].context],
      Admitted(contexts, calls)[i])
  {
    hide Reach, DaemonConnection.View, DaemonConnection.Valid, EventsOk, StatementOk, CallEvents, LogContext.Printed;
    hide Admitted, Lines, LastLevel, Places, LogContext.Valid, LogContext.Checked, LogContext.Position;
    CallAt(contexts, calls, i);
    contexts[calls[i].context].LevelInRun(evs);
    after := SayTogether(contexts, daemon, calls[i].context, calls[i].statement, file, evs);
  }

  /** A buffer from the daemon, on a connection that followed the run `evs` so far. */
  method HearOn(contexts: seq<LogContext>, daemon: DaemonConnection, call: Call, ghost evs: seq<Event>)
    returns (ok: bool, ghost after: seq<Event>)
    requires Together(contexts, daemon) && call.Hear?
    requires EventsOk(evs) && Reach(daemon.app, evs, daemon.fate).conn == daemon.View()
    modifies (set x <- daemon.contexts)`activeLogLevel
    ensures Together(contexts, daemon) && ok == Defined(call)
    ensures EventsOk(after) && Reach(daemon.app, after, daemon.fate).conn == daemon.View()
    ensures Known(contexts) == old(Known(contexts)) && Places(contexts) == old(Places(contexts))
    ensures Performed(contexts, call, evs, after, 0, false, false)
    ensures var found := ControlInput.Parse(call.received + call.stale, |call.received|);
      ok == found.defined && after == evs + LevelMessages(found.changes)
  {
    hide Reach, DaemonConnection.View, DaemonConnection.Valid, EventsOk, LevelMessages, ControlInput.Parse;
    hide Session.ApplyChanges;
    ok := daemon.HandleIncomingMessage(call.received + call.stale, |call.received|);
    after := evs + LevelMessages(Parsed(call).changes);
    ReachLevelMessages(daemon.app, evs, Parsed(call).changes, daemon.fate);
    LevelMessagesOk(evs, Parsed(call).changes);
    assert Known(contexts) == old(Known(contexts)) && Places(contexts) == old(Places(contexts));
  }

  // ---- any number of calls -----------------------------------------------------------------

  /** The contexts of the connection, and those that may still be registered with it. */
  ghost function Registrable(contexts: seq<LogContext>, daemon: DaemonConnection): set<DltContext>
    reads daemon
  {
    (set x <- daemon.contexts) + (set c <- contexts :: c.dlt)
  }

  lemma {:induction false} DistinctSize(xs: seq<DltContext>)
    requires forall i, j | 0 <= i < j < |xs| :: xs[i] != xs[j]
    ensures |(set x <- xs)| == |xs|
  {
    if xs != [] {
      var front, last := xs[..|xs| - 1], xs[|xs| - 1];
      DistinctSize(front);
      assert (set x <- xs) == (set x <- front) + {last};
    }
  }

  lemma {:induction false} SubsetSize(a: set<DltContext>, b: set<DltContext>)
    requires a <= b
    ensures |a| <= |b|
  {
    if a != {} {
      var x :| x in a;
      SubsetSize(a - {x}, b - {x});
    }
  }

  lemma NotThere(context: LogContext)
    requires context.Valid() && !context.registered
    ensures var all := context.daemon.contexts + [context.dlt];
      forall i, j | 0 <= i < j < |all| :: all[i] != all[j]
  {
  }

  lemma RoomForCall(contexts: seq<LogContext>, daemon: DaemonConnection, c: nat)
    requires Together(contexts, daemon) && c < |contexts| && |Registrable(contexts, daemon)| < 0x8000_0000
    ensures contexts[c].registered || |daemon.contexts| + 1 < 0x8000_0000
    ensures contexts[c].registered == Known(contexts)[c]
  {
    if !contexts[c].registered {
      var all := daemon.contexts + [contexts[c].dlt];
      NotThere(contexts[c]);
      DistinctSize(all);
      var members := set x <- all;
      assert members <= Registrable(contexts, daemon);
      SubsetSize(members, Registrable(contexts, daemon));
    }
  }

  /** Either kind of call. */
  method Perform(contexts: seq<LogContext>, daemon: DaemonConnection, calls: seq<Call>, i: nat, file: OutputFile,
    ghost evs: seq<Event>) returns (ok: bool, ghost after: seq<Event>)
    requires Together(contexts, daemon) && CallsOk(contexts, calls) && |Registrable(contexts, daemon)| < 0x8000_0000
    requires i < |calls| && EventsOk(evs) && Reach(daemon.app, evs, daemon.fate).conn == daemon.View()
    modifies (set c <- contexts)`registered, daemon, (set c <- contexts :: c.dlt)`logLevelPos,
      (set c <- contexts :: c.dlt)`messageCount, Registrable(contexts, daemon)`header,
      Registrable(contexts, daemon)`activeLogLevel, file
    ensures Together(contexts, daemon) && Registrable(contexts, daemon) == old(Registrable(contexts, daemon))
    ensures EventsOk(after) && Reach(daemon.app, after, daemon.fate).conn == daemon.View()
    ensures ok == Defined(calls[i]) && file.text == old(file.text) + Lines(contexts, calls)[i]
    ensures calls[i].Say? ==>
      var c := calls[i].context;
      && Known(contexts) == old(Known(contexts))[c := true]
      && Performed(
           contexts, calls[i], evs, after, Places(contexts)[c], !old(Known(contexts))[c], Admitted(contexts, calls)[i])
    ensures calls[i].Hear? ==>
      Known(contexts) == old(Known(contexts)) && Performed(contexts, calls[i], evs, after, 0, false, false)
    ensures forall j | 0 <= j < |contexts| && old(Known(contexts))[j] ::
      Places(contexts)[j] == old(Places(contexts))[j]
  {
    hide Reach, DaemonConnection.View, EventsOk, StatementOk, Performed, LogContext.Printed, Together;
    hide Known, Admitted, Places, Lines;
    if calls[i].Say? {
      RoomForCall(contexts, daemon, calls[i].context);
      after := SayOn(contexts, daemon, calls, i, file, evs);
      ok := true;
    } else {
      CallAt(contexts, calls, i);
      ok, after := HearOn(contexts, daemon, calls[i], evs);
    }
  }

  /**
   `trace` holds the run before the first of `i` calls and after each of them; a context is registered by
   its first use.
   */
  ghost predicate Follows(
    contexts: seq<LogContext>, calls: seq<Call>, i: nat, trace: seq<seq<Event>>, places: seq<int>, known: seq<bool>,
    admitted: seq<bool>)
    requires CallsOk(contexts, calls) && i <= |calls| == |admitted| && |known| == |contexts| == |places|
  {
    && |trace| == i + 1
    && forall n | 0 <= n < i ::
         if calls[n].Say? then
           var c := calls[n].context;
           Performed(
             contexts, calls[n], trace[n], trace[n + 1], places[c], !known[c] && !Used(calls[..n], c), admitted[n])
         else Performed(contexts, calls[n], trace[n], trace[n + 1], 0, false, false)
  }

  /**
   For every sequence of log statements on any contexts of one connection, with buffers from the daemon in
   between: the connection follows the run of their events, in which a context is registered by its first
   use, a statement is enabled by the level the buffers left in force, and the console's lines are appended
   to its file, in order. It ends early, with `ok` false, after a buffer that makes the behaviour undefined.
   */
  method LogAll(contexts: seq<LogContext>, daemon: DaemonConnection, calls: seq<Call>, file: OutputFile,
    ghost evs: seq<Event>) returns (done: nat, ok: bool, ghost trace: seq<seq<Event>>)
    requires Together(contexts, daemon) && CallsOk(contexts, calls) && |Registrable(contexts, daemon)| < 0x8000_0000
    requires EventsOk(evs) && Reach(daemon.app, evs, daemon.fate).conn == daemon.View()
    modifies (set c <- contexts)`registered, daemon, (set c <- contexts :: c.dlt)`logLevelPos,
      (set c <- contexts :: c.dlt)`messageCount, Registrable(contexts, daemon)`header,
      Registrable(contexts, daemon)`activeLogLevel, file
    ensures Together(contexts, daemon) && Registrable(contexts, daemon) == old(Registrable(contexts, daemon))
    ensures done <= |calls| && ok == DefinedUpTo(calls, done)
    ensures if ok then done == |calls| else done > 0 && DefinedUpTo(calls, done - 1)
    ensures |trace| == done + 1 && trace[0] == evs && EventsOk(trace[done])
    ensures Follows(
      contexts, calls, done, trace, Places(contexts), old(Known(contexts)), Admitted(contexts, calls))
    ensures Reach(daemon.app, trace[done], daemon.fate).conn == daemon.View()
    ensures file.text == old(file.text) + Flatten(Lines(contexts, calls)[..done])
    ensures Silenced(contexts, calls) ==> file.text == old(file.text)
  {
    hide Reach, DaemonConnection.View, EventsOk, StatementOk, Performed, LogContext.Printed, Together, Progress;
    hide Known, Admitted, Places, Lines, Follows, Flatten, Defined, Registrable;
    trace, done, ok := [evs], 0, true;
    ghost var start := Start(Known(contexts), Admitted(contexts, calls), Lines(contexts, calls), file.text);
    NoProgress(contexts, calls, evs, Places(contexts), start);
    while ok && done < |calls|
      invariant done <= |calls| && |trace| == done + 1 && trace[0] == evs
      invariant Together(contexts, daemon) && EventsOk(trace[done])
      invariant Reach(daemon.app, trace[done], daemon.fate).conn == daemon.View()
      invariant Registrable(contexts, daemon) == old(Registrable(contexts, daemon))
      invariant Admitted(contexts, calls) == start.admitted && Lines(contexts, calls) == start.lines
      invariant Progress(contexts, calls, done, start, Course(trace, Places(contexts), Known(contexts), file.text))
      invariant ok == DefinedUpTo(calls, done) && (!ok ==> done > 0 && DefinedUpTo(calls, done - 1))
    {
      ghost var before := Course(trace, Places(contexts), Known(contexts), file.text);
      ghost var after;
      ok, after := Perform(contexts, daemon, calls, done, file, before.trace[done]);
      trace := before.trace + [after];
      MoreProgress(
        contexts, calls, done, start, before, Course(trace, Places(contexts), Known(contexts), file.text), after);
      done := done + 1;
    }
    AllProgress(contexts, calls, done, start, Course(trace, Places(contexts), Known(contexts), file.text));
    if Silenced(contexts, calls) { SilencedLines(contexts, calls, done); }
  }

  /** The global level of every console that a statement would print to is None, and the statement's is not. */
  ghost predicate Silenced(contexts: seq<LogContext>, calls: seq<Call>)
    requires CallsOk(contexts, calls)
    reads set c <- contexts :: c.console
  {
    forall c <- calls | c.Say? :: contexts[c.context].console.globalLogLevel == None_ && c.statement.level != None_
  }

  lemma {:induction false} SilencedLines(contexts: seq<LogContext>, calls: seq<Call>, n: nat)
    requires CallsOk(contexts, calls) && n <= |calls| && Silenced(contexts, calls)
    ensures Flatten(Lines(contexts, calls)[..n]) == []
  {
    if n > 0 {
      hide LogContext.Printed, Lines;
      SilencedLines(contexts, calls, n - 1);
      CallAt(contexts, calls, n - 1);
      var call := calls[n - 1];
      assert call in calls;
      if call.Say? { contexts[call.context].NothingPrinted(call.statement); }
      FlattenStep(Lines(contexts, calls)[..n - 1], Lines(contexts, calls)[n - 1]);
      assert Lines(contexts, calls)[..n] == Lines(contexts, calls)[..n - 1] + [Lines(contexts, calls)[n - 1]];
    }
  }

  // ---- the invariant of LogAll, on values --------------------------------------------------

  /** What is fixed before the first call, and what the calls change. */
  datatype Start = Start(known: seq<bool>, admitted: seq<bool>, lines: seq<bytes>, text: bytes)

  datatype Course = Course(trace: seq<seq<Event>>, places: seq<int>, known: seq<bool>, text: bytes)

  predicate Fits(contexts: seq<LogContext>, calls: seq<Call>, start: Start, now: Course) {
    && CallsOk(contexts, calls) && |calls| == |start.admitted| == |start.lines|
    && |contexts| == |start.known| == |now.known| == |now.places|
  }

  /** What holds after `i` calls. */
  ghost predicate Progress(contexts: seq<LogContext>, calls: seq<Call>, i: nat, start: Start, now: Course)
    requires Fits(contexts, calls, start, now) && i <= |calls|
  {
    && Follows(contexts, calls, i, now.trace, now.places, start.known, start.admitted)
    && (forall j | 0 <= j < |contexts| :: now.known[j] == (start.known[j] || Used(calls[..i], j)))
    && now.text == start.text + Flatten(start.lines[..i])
  }

  lemma NoProgress(contexts: seq<LogContext>, calls: seq<Call>, evs: seq<Event>, places: seq<int>, start: Start)
    requires var now := Course([evs], places, start.known, start.text); Fits(contexts, calls, start, now)
    ensures Progress(contexts, calls, 0, start, Course([evs], places, start.known, start.text))
  {
    assert start.text + [] == start.text;
  }

  lemma AllProgress(contexts: seq<LogContext>, calls: seq<Call>, i: nat, start: Start, now: Course)
    requires Fits(contexts, calls, start, now) && i <= |calls| && Progress(contexts, calls, i, start, now)
    ensures Follows(contexts, calls, i, now.trace, now.places, start.known, start.admitted)
    ensures now.text == start.text + Flatten(start.lines[..i])
  {
  }

  lemma MoreProgress(
    contexts: seq<LogContext>, calls: seq<Call>, i: nat, start: Start, now: Course, next: Course, after: seq<Event>)
    requires i < |calls| && Fits(contexts, calls, start, now) && Fits(contexts, calls, start, next)
    requires Progress(contexts, calls, i, start, now) && |now.trace| == i + 1 && next.trace == now.trace + [after]
    requires next.text == now.text + start.lines[i]
    requires calls[i].Say? ==>
      && next.known == now.known[calls[i].context := true]
      && Performed(
           contexts, calls[i], now.trace[i], after, next.places[calls[i].context], !now.known[calls[i].context],
           start.admitted[i])
    requires calls[i].Hear? ==>
      next.known == now.known && Performed(contexts, calls[i], now.trace[i], after, 0, false, false)
    requires forall j | 0 <= j < |contexts| && now.known[j] :: next.places[j] == now.places[j]
    ensures Progress(contexts, calls, i + 1, start, next)
  {
    hide Performed, Used, Flatten, Follows;
    FlattenStep(start.lines[..i], start.lines[i]);
    assert start.lines[..i + 1] == start.lines[..i] + [start.lines[i]];
    forall j | 0 <= j < |contexts| { NextUsed(calls, i, j); }
    PastUsed(calls, i);
    FollowsMore(contexts, calls, i, now.trace, after, now.places, next.places, start.known, start.admitted);
  }

  lemma FollowsMore(
    contexts: seq<LogContext>, calls: seq<Call>, i: nat, trace: seq<seq<Event>>, after: seq<Event>, places: seq<int>,
    places': seq<int>, known: seq<bool>, admitted: seq<bool>)
    requires CallsOk(contexts, calls) && i < |calls| == |admitted| && |known| == |contexts| == |places| == |places'|
    requires Follows(contexts, calls, i, trace, places, known, admitted)
    requires forall n | 0 <= n < i && calls[n].Say? :: places'[calls[n].context] == places[calls[n].context]
    requires calls[i].Say? ==>
      var c := calls[i].context;
      Performed(contexts, calls[i], trace[i], after, places'[c], !known[c] && !Used(calls[..i], c), admitted[i])
    requires calls[i].Hear? ==> Performed(contexts, calls[i], trace[i], after, 0, false, false)
    ensures Follows(contexts, calls, i + 1, trace + [after], places', known, admitted)
  {
    hide Performed, Used;
  }

  lemma PastUsed(calls: seq<Call>, i: nat)
    requires i <= |calls|
    ensures forall n | 0 <= n < i && calls[n].Say? :: Used(calls[..i], calls[n].context)
  {
    forall n | 0 <= n < i && calls[n].Say? ensures Used(calls[..i], calls[n].context) {
      assert calls[n] in calls[..i];
    }
  }

  lemma NextUsed(calls: seq<Call>, i: nat, context: nat)
    requires i < |calls|
    ensures Used(calls[..i + 1], context) <==>
      Used(calls[..i], context) || (calls[i].Say? && context == calls[i].context)
  {
    assert calls[..i + 1] == calls[..i] + [calls[i]];
  }
}
