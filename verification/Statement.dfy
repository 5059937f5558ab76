/**
 A log statement as a piece of a run of Machine: the registration of its context if that is the first use,
 and the events of its entry.
 */
module Statements {
  import opened Bytes
  import opened DltProtocol
  import opened LogData
  import opened Machine
  import opened Applications
  import ConsoleLayout
  import ControlInput
  import Encoder
  import Messages
  import Session

  /** What the end of an entry looks up: trailer and time for DLT, the suffix and the widths for the console. */
  datatype Ending = Ending(
    info: GoodInfo, sourceInfo: bool, threadInfo: bool, tmsp: nat,
    location: bytes, thread: Option<bytes>, consoleWidth: nat, consoleWidthAgain: nat)
  {
    function Trailer(): seq<GoodWrite> {
      GoodTrailer(info, sourceInfo, threadInfo)
    }

    function Suffix(): bytes {
      location + thread.GetOr([]) + [ConsoleLayout.NEWLINE]
    }
  }

  /** One use of a logging macro; `texts` is what the console makes of the arguments `ws`. */
  datatype Statement = Statement(level: LogLevel, prefix: bytes, ws: seq<GoodWrite>, texts: seq<bytes>, ending: Ending)

  predicate StatementOk(s: Statement) {
    |s.ws| == |s.texts| && s.ending.tmsp < Messages.UINT32
  }

  /** What the trailer of an ending says. */
  lemma EndingSays(e: Ending)
    ensures
      Encoder.Images(Encoder.Loud(e.Trailer())) == TrailerArgs(e.info, e.sourceInfo, e.threadInfo)
  {
    TrailerSays(e.info, e.sourceInfo, e.threadInfo);
  }

  /** What an entry that was written `ws`, its trailer included, contributes to its message. */
  ghost function Sent(counter: byte, level: int, ws: seq<GoodWrite>): Session.Outgoing {
    Session.Outgoing(counter, level, |Encoder.Run(ws).args| % 256, PayloadOf(ws))
  }

  /** A context that was not registered yet. */
  function NewContext(id: Id, description: bytes): Session.Ctx {
    Session.Ctx(id, description, DLT_LOG_VERBOSE, BLANK_HEADER, 0)
  }

  /** The next entry of the context at `pos` takes its message counter. */
  ghost function Counted(c: Session.Conn, pos: nat): (r: Session.Conn)
    requires pos < |c.contexts|
    ensures |r.contexts| == |c.contexts|
  {
    var x := c.contexts[pos];
    c.(contexts := c.contexts[pos := x.(created := (x.created + 1) % 256)])
  }

  lemma RegisterIsRun(app: Session.App, evs: seq<Event>, id: Id, description: bytes, fate: Session.Fate)
    requires Session.AppOk(app) && EventsOk(evs) && |description| < Messages.UINT32
    requires |Reach(app, evs, fate).conn.contexts| + 1 < 0x8000_0000
    ensures
      var s, r := Reach(app, evs, fate), Reach(app, evs + [Event.Register(id, description)], fate);
      && r.conn == Session.RegisterCtx(app, s.conn, NewContext(id, description), fate) && r.entries == s.entries
      && var x := r.conn.contexts[|s.conn.contexts|];
      x.level == DLT_LOG_VERBOSE && x.created == 0
  {
    hide Reach, Session.RegisterCtx, Session.Inv, RegisteredIds;
    ReachInv(app, evs, fate);
    StepContexts(app, Reach(app, evs, fate), Event.Register(id, description), |evs|, fate);
    ReachAppend(app, evs, Event.Register(id, description), fate);
  }

  lemma SameEvents(a: seq<Event>, b: seq<Event>, c: seq<Event>)
    ensures a + (b + c) == a + b + c
  {
  }

  function WriteEvents(k: nat, ws: seq<GoodWrite>): (es: seq<Event>)
    ensures |es| == |ws|
  {
    seq(|ws|, i requires 0 <= i < |ws| => WriteArgument(k, ws[i]))
  }

  /** The events of the entry of a statement, of which `k` were created before, on the context at `pos`. */
  function StatementEvents(s: Statement, k: nat, pos: nat): (es: seq<Event>)
    ensures |es| == |s.ws| + 2
  {
    [Event.Create(pos, s.level)] + WriteEvents(k, s.ws) + [Event.Finish(k, s.ending.Trailer(), s.ending.tmsp)]
  }

  function RegisterEvents(first: bool, id: Id, description: bytes): (es: seq<Event>)
    ensures |es| <= 1
  {
    if first then [Event.Register(id, description)] else []
  }

  /** All events of a statement: whether it is the first use of its context, and whether a backend admits its level. */
  function CallEvents(
    s: Statement, k: nat, pos: nat, first: bool, enabled: bool, id: Id, description: bytes): (es: seq<Event>)
    ensures |es| <= |s.ws| + 3
  {
    RegisterEvents(first, id, description) + if enabled then StatementEvents(s, k, pos) else []
  }

  lemma CallEventsOk(
    evs: seq<Event>, s: Statement, k: nat, pos: nat, first: bool, enabled: bool, id: Id, description: bytes)
    requires EventsOk(evs) && StatementOk(s) && |description| < Messages.UINT32
    requires first ==> |RegisteredIds(evs)| + 1 < 0x8000_0000
    ensures EventsOk(evs + CallEvents(s, k, pos, first, enabled, id, description))
  {
    hide EventOk, RegisteredIds, RegisterEvents, StatementEvents;
    var register, entry := RegisterEvents(first, id, description), if enabled then StatementEvents(s, k, pos) else [];
    RegisterEventsOk(first, id, description);
    StatementEventsOk(s, k, pos);
    NoneRegistered([]);
    NoneRegistered(entry);
    RegisteredIdsAppend(register, entry);
    EventsOkAppend(evs, register + entry);
  }

  lemma RegisterEventsOk(first: bool, id: Id, description: bytes)
    requires |description| < Messages.UINT32
    ensures var es := RegisterEvents(first, id, description);
      |RegisteredIds(es)| == (if first then 1 else 0) && forall e <- es :: EventOk(e)
  {
  }

  lemma StatementEventsOk(s: Statement, k: nat, pos: nat)
    requires StatementOk(s)
    ensures forall e <- StatementEvents(s, k, pos) :: EventOk(e) && !e.Register?
  {
  }

  lemma LevelMessagesOk(evs: seq<Event>, changes: seq<ControlInput.LevelChange>)
    requires EventsOk(evs)
    ensures EventsOk(evs + LevelMessages(changes))
  {
    hide EventOk, RegisteredIds;
    LevelMessagesAre(changes);
    NoneRegistered(LevelMessages(changes));
    EventsOkAppend(evs, LevelMessages(changes));
  }

  lemma {:induction false} LevelMessagesAre(changes: seq<ControlInput.LevelChange>)
    ensures forall e <- LevelMessages(changes) :: e.LevelMessage? && EventOk(e)
  {
    if changes != [] { LevelMessagesAre(changes[1..]); }
  }

  lemma {:induction false} NoneRegistered(es: seq<Event>)
    requires forall e <- es :: !e.Register?
    ensures RegisteredIds(es) == []
  {
    if es != [] { NoneRegistered(es[..|es| - 1]); }
  }

  ghost function AppendAll(s: State, k: nat, ws: seq<GoodWrite>): State {
    if Open(s, k) then s.(entries := s.entries[k := s.entries[k].(writes := s.entries[k].writes + ws)]) else s
  }

  lemma {:induction false} ReachWriteEvents(
    app: Session.App, evs: seq<Event>, k: nat, ws: seq<GoodWrite>, fate: Session.Fate)
    ensures Reach(app, evs + WriteEvents(k, ws), fate) == AppendAll(Reach(app, evs, fate), k, ws)
  {
    hide Reach;
    var s := Reach(app, evs, fate);
    if ws == [] {
      assert evs + WriteEvents(k, ws) == evs;
      assert Open(s, k) ==> s.entries[k].writes + ws == s.entries[k].writes;
    } else {
      var front, w := ws[..|ws| - 1], ws[|ws| - 1];
      ReachWriteEvents(app, evs, k, front, fate);
      ReachAppend(app, evs + WriteEvents(k, front), WriteArgument(k, w), fate);
      assert evs + WriteEvents(k, ws) == evs + WriteEvents(k, front) + [WriteArgument(k, w)];
      assert Open(s, k) ==> s.entries[k].writes + ws == s.entries[k].writes + front + [w];
    }
  }

  /** A log statement on a registered context, by its level in force and its counter. */
  lemma StatementIsRun(app: Session.App, evs: seq<Event>, s: Statement, pos: nat, fate: Session.Fate)
    requires pos < |Reach(app, evs, fate).conn.contexts|
    ensures
      var before := Reach(app, evs, fate);
      var x, counted := before.conn.contexts[pos], Counted(before.conn, pos);
      Reach(app, evs + StatementEvents(s, |before.entries|, pos), fate).conn ==
        if DltLogLevel(s.level) <= x.level then
          Session.SendLogEntry(
            app, counted, Session.Registered(pos), Sent(x.created, DltLogLevel(s.level), s.ws + s.ending.Trailer()),
            s.ending.tmsp, fate)
        else counted
  {
    hide Reach, Machine.Apply, CreateEntry, Session.SendLogEntry, Sent, DltLogLevel;
    var before, trailer, tmsp := Reach(app, evs, fate), s.ending.Trailer(), s.ending.tmsp;
    var k, create, written := |before.entries|, Event.Create(pos, s.level), WriteEvents(|before.entries|, s.ws);
    ReachAppend(app, evs, create, fate);
    CreateFacts(app, before, pos, s.level, |evs|, fate);
    ReachWriteEvents(app, evs + [create], k, s.ws, fate);
    ReachAppend(app, evs + [create] + written, Event.Finish(k, trailer, tmsp), fate);
    assert evs + StatementEvents(s, k, pos) == evs + [create] + written + [Event.Finish(k, trailer, tmsp)];
    CreateAndAppend(before, pos, s.level, |evs|, s.ws);
    hide AppendAll;
    FinishSends(
      app, AppendAll(CreateEntry(before, pos, s.level, |evs|), k, s.ws), k, trailer, tmsp,
      |evs + [create] + written|, fate);
  }

  lemma CreateAndAppend(s: State, pos: nat, level: LogLevel, at: nat, ws: seq<GoodWrite>)
    requires pos < |s.conn.contexts|
    ensures
      var x, r := s.conn.contexts[pos], AppendAll(CreateEntry(s, pos, level, at), |s.entries|, ws);
      && r.conn == Counted(s.conn, pos) && |r.entries| == |s.entries| + 1
      && (DltLogLevel(level) <= x.level ==>
            r.entries[|s.entries|] == Entry(pos, DltLogLevel(level), true, x.created, at, ws, None))
      && (DltLogLevel(level) > x.level ==> !r.entries[|s.entries|].enabled)
  {
    assert [] + ws == ws;
  }

  lemma FinishSends(
    app: Session.App, s: State, k: nat, trailer: seq<GoodWrite>, tmsp: nat, at: nat, fate: Session.Fate)
    requires k < |s.entries|
    ensures
      var e, r := s.entries[k], Apply(app, s, Event.Finish(k, trailer, tmsp), at, fate);
      r.conn ==
        if Open(s, k) then
          Session.SendLogEntry(
            app, s.conn, Session.Registered(e.pos), Sent(e.counter, e.level, e.writes + trailer), tmsp, fate)
        else s.conn
  {
    hide Session.SendLogEntry, PayloadOf, Encoder.Run;
  }
}
