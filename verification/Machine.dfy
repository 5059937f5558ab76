/**
 The DLT backend as a whole, over any interleaving of its atomic steps: contexts are registered, level
 messages arrive, entries are created, written to and finished, while opens and writes to the daemon
 succeed or fail as `fate` says. Threads do not appear: a run is the order in which their steps happened.
 */
module Machine {
  import opened Bytes
  import opened DltProtocol
  import opened Session
  import opened Encoder
  import ControlInput
  import Messages
  import Payload

  type GoodWrite = w: Write | WellFormedWrite(w) witness Plain([])

  datatype Event =
    | Register(id: Id, description: bytes)
    | LevelMessage(pos: nat, level: byte)
    | Create(pos: nat, logLevel: LogLevel)
    | WriteArgument(entry: nat, w: GoodWrite)
    | Finish(entry: nat, trailer: seq<GoodWrite>, tmsp: nat)

  /** When an enabled entry ended: the number of events before that, and the time stamp it was given. */
  datatype End = End(at: nat, tmsp: nat)

  /** A log entry; `createdAt` is the number of events before its creation. */
  datatype Entry = Entry(
    pos: nat, level: DltLevel, enabled: bool, counter: byte, createdAt: nat, writes: seq<GoodWrite>, end: Option<End>)

  /** `delivered` lists the entries whose message was written to a daemon, in the order they were. */
  datatype State = State(conn: Conn, entries: seq<Entry>, delivered: seq<nat>)

  ghost function PayloadOf(ws: seq<GoodWrite>): bytes {
    RunValid(ws);
    Payload.EncodeAll(Run(ws).args)
  }

  ghost function OutgoingOf(e: Entry): Outgoing {
    Outgoing(e.counter, e.level, |Run(e.writes).args| % 256, PayloadOf(e.writes))
  }

  /** The message of an entry whose context has its header filled. */
  ghost function FrameOf(app: App, s: State, k: nat): Messages.Message
    requires k < |s.entries| && s.entries[k].pos < |s.conn.contexts|
  {
    var e := s.entries[k];
    LogMessage(app, Header(app.apid, s.conn.contexts[e.pos].id), OutgoingOf(e), e.end.GetOr(End(0, 0)).tmsp)
  }

  function RegisterEvent(app: App, s: State, id: Id, description: bytes, fate: Fate): State {
    s.(conn := RegisterCtx(app, s.conn, Ctx(id, description, DLT_LOG_VERBOSE, BLANK_HEADER, 0), fate))
  }

  function LevelEvent(s: State, pos: nat, level: byte): State {
    s.(conn := ApplyLogLevel(s.conn, pos, level))
  }

  ghost function CreateEntry(s: State, pos: nat, logLevel: LogLevel, at: nat): State
    requires pos < |s.conn.contexts|
  {
    var x := s.conn.contexts[pos];
    var e := Entry(pos, DltLogLevel(logLevel), DltLogLevel(logLevel) <= x.level, x.created, at, [], None);
    State(s.conn.(contexts := s.conn.contexts[pos := x.(created := (x.created + 1) % 256)]), s.entries + [e],
      s.delivered)
  }

  predicate Open(s: State, entry: nat) {
    entry < |s.entries| && s.entries[entry].enabled && s.entries[entry].end.None?
      && s.entries[entry].pos < |s.conn.contexts|
  }

  ghost function AppendWrite(s: State, entry: nat, w: GoodWrite): State
    requires Open(s, entry)
  {
    s.(entries := s.entries[entry := s.entries[entry].(writes := s.entries[entry].writes + [w])])
  }

  function Ended(e: Entry, trailer: seq<GoodWrite>, tmsp: nat, at: nat): Entry {
    e.(writes := e.writes + trailer, end := Some(End(at, tmsp)))
  }

  ghost function FinishEntry(
    app: App, s: State, entry: nat, trailer: seq<GoodWrite>, tmsp: nat, at: nat, fate: Fate): State
    requires Open(s, entry)
  {
    var e := Ended(s.entries[entry], trailer, tmsp, at);
    var sent := SendLogEntry(app, s.conn, Registered(e.pos), OutgoingOf(e), tmsp, fate);
    State(sent, s.entries[entry := e], if sent.connected then s.delivered + [entry] else s.delivered)
  }

  ghost function Apply(app: App, s: State, e: Event, at: nat, fate: Fate): State {
    match e
    case Register(id, description) => RegisterEvent(app, s, id, description, fate)
    case LevelMessage(pos, level) => LevelEvent(s, pos, level)
    case Create(pos, logLevel) => if pos < |s.conn.contexts| then CreateEntry(s, pos, logLevel, at) else s
    case WriteArgument(entry, w) =>
      if Open(s, entry) then AppendWrite(s, entry, w) else s
    case Finish(entry, trailer, tmsp) =>
      if Open(s, entry) then FinishEntry(app, s, entry, trailer, tmsp, at, fate) else s
  }

  lemma CreateFacts(app: App, s: State, pos: nat, logLevel: LogLevel, at: nat, fate: Fate)
    requires pos < |s.conn.contexts|
    ensures var x, r := s.conn.contexts[pos], CreateEntry(s, pos, logLevel, at);
      && r == Apply(app, s, Create(pos, logLevel), at, fate)
      && r.conn == s.conn.(contexts := s.conn.contexts[pos := x.(created := (x.created + 1) % 256)])
      && r.entries ==
         s.entries + [Entry(pos, DltLogLevel(logLevel), DltLogLevel(logLevel) <= x.level, x.created, at, [], None)]
  {
    hide FinishEntry, AppendWrite, RegisterEvent, LevelEvent;
  }

  const INITIAL := State(START, [], [])

  ghost function Reach(app: App, evs: seq<Event>, fate: Fate): State {
    if evs == [] then INITIAL
    else Apply(app, Reach(app, evs[..|evs| - 1], fate), evs[|evs| - 1], |evs| - 1, fate)
  }

  lemma ReachStep(app: App, evs: seq<Event>, fate: Fate)
    ensures evs == [] ==> Reach(app, evs, fate) == INITIAL
    ensures evs != [] ==>
      Reach(app, evs, fate) == Apply(app, Reach(app, evs[..|evs| - 1], fate), evs[|evs| - 1], |evs| - 1, fate)
  {
    hide Apply;
  }

  lemma ReachAppend(app: App, evs: seq<Event>, e: Event, fate: Fate)
    ensures Reach(app, evs + [e], fate) == Apply(app, Reach(app, evs, fate), e, |evs|, fate)
  {
    hide Apply;
    assert (evs + [e])[..|evs|] == evs;
  }

  /** The level changes of one buffer, as events. */
  function LevelMessages(changes: seq<ControlInput.LevelChange>): seq<Event> {
    if changes == [] then [] else [LevelMessage(changes[0].pos, changes[0].level)] + LevelMessages(changes[1..])
  }

  lemma {:induction false} ReachLevelMessages(
    app: App, evs: seq<Event>, changes: seq<ControlInput.LevelChange>, fate: Fate)
    ensures var s := Reach(app, evs, fate);
      Reach(app, evs + LevelMessages(changes), fate) == s.(conn := ApplyChanges(s.conn, changes))
    decreases |changes|
  {
    hide Reach;
    if changes == [] {
      assert evs + LevelMessages(changes) == evs;
    } else {
      hide ApplyLogLevel;
      var first := LevelMessage(changes[0].pos, changes[0].level);
      ReachAppend(app, evs, first, fate);
      ReachLevelMessages(app, evs + [first], changes[1..], fate);
      assert evs + LevelMessages(changes) == (evs + [first]) + LevelMessages(changes[1..]);
    }
  }

  /** What the environment guarantees about the events: sizes that fit the protocol's fields. */
  ghost predicate EventOk(e: Event) {
    (e.Register? ==> |e.description| < Messages.UINT32) && (e.Finish? ==> e.tmsp < Messages.UINT32)
  }

  ghost predicate EventsOk(evs: seq<Event>) {
    |RegisteredIds(evs)| < 0x8000_0000 && forall e <- evs :: EventOk(e)
  }

  // ---- references computed from the events alone -------------------------------------------

  function RegisteredIds(evs: seq<Event>): seq<Id> {
    if evs == [] then []
    else
      var front, last := RegisteredIds(evs[..|evs| - 1]), evs[|evs| - 1];
      if last.Register? then front + [last.id] else front
  }

  /** The level in force for the context at `pos`: that of the last message addressed to it since it exists. */
  function LastLevel(evs: seq<Event>, pos: nat): int {
    if evs == [] then DLT_LOG_VERBOSE
    else
      var front, last := evs[..|evs| - 1], evs[|evs| - 1];
      if last.LevelMessage? && last.pos == pos && pos < |RegisteredIds(front)| then last.level
      else LastLevel(front, pos)
  }

  /** Whether entry `k`, created by event `at`, is finished by one of the events. */
  predicate FinishedIn(evs: seq<Event>, k: nat, at: nat) {
    exists j :: at < j < |evs| && evs[j].Finish? && evs[j].entry == k
  }

  /** What the events write to entry `k`, created by event `at`, up to its end and including its trailer. */
  function WrittenTo(evs: seq<Event>, k: nat, at: nat): seq<GoodWrite> {
    if |evs| <= at + 1 then []
    else
      var front, last := evs[..|evs| - 1], evs[|evs| - 1];
      if FinishedIn(front, k, at) then WrittenTo(front, k, at)
      else if last.WriteArgument? && last.entry == k then WrittenTo(front, k, at) + [last.w]
      else if last.Finish? && last.entry == k then WrittenTo(front, k, at) + last.trailer
      else WrittenTo(front, k, at)
  }

  /** How many of the first `k` entries belong to the context at `pos`. */
  function CreatedBefore(entries: seq<Entry>, pos: nat, k: nat): (n: nat)
    requires k <= |entries|
    ensures n <= k
  {
    if k == 0 then 0 else CreatedBefore(entries, pos, k - 1) + if entries[k - 1].pos == pos then 1 else 0
  }

  function Logs(ms: seq<Messages.Message>): seq<Messages.Message> {
    if ms == [] then []
    else
      var front, last := Logs(ms[..|ms| - 1]), ms[|ms| - 1];
      if last.SendLog? then front + [last] else front
  }

  function LogsOfAll(sessions: seq<seq<Messages.Message>>): seq<Messages.Message> {
    if sessions == [] then [] else LogsOfAll(sessions[..|sessions| - 1]) + Logs(sessions[|sessions| - 1])
  }

  /** All log messages ever delivered, over all connections, oldest first. */
  function AllLogs(c: Conn): seq<Messages.Message> {
    LogsOfAll(c.closed) + Logs(c.session)
  }

  // ---- steps: what happens to the contexts -------------------------------------------------

  lemma OutgoingFits(e: Entry)
    ensures Messages.LOG_HEADERS_SIZE + |OutgoingOf(e).payload| < 0x1_0000
  {
    hide Run, Payload.EncodeAll;
    ReadBack(e.writes);
  }

  /** Whatever was written to an entry, the length field of its message is right. */
  lemma FrameLengthField(app: App, header: Header, e: Entry, tmsp: nat)
    ensures var b := Messages.LogBytes(LogMessage(app, header, OutgoingOf(e), tmsp));
      FromBe(b[10..12]) == |b| - 8
  {
    hide FromBe, OutgoingOf;
    var m := LogMessage(app, header, OutgoingOf(e), tmsp);
    OutgoingFits(e);
    Messages.LengthField(m);
  }

  /** The registered contexts after a step, seen through their ids, levels and counters. */
  ghost predicate ContextsStep(s: State, e: Event, r: State) {
    var before, after := s.conn.contexts, r.conn.contexts;
    && |after| == |before| + (if e.Register? then 1 else 0)
    && (forall i | 0 <= i < |before| ::
          && after[i].id == before[i].id
          && after[i].level == (if e.LevelMessage? && e.pos == i then e.level else before[i].level)
          && after[i].created == (if e.Create? && e.pos == i then (before[i].created + 1) % 256 else before[i].created))
    && (e.Register? ==>
          after[|before|].id == e.id && after[|before|].level == DLT_LOG_VERBOSE && after[|before|].created == 0)
  }

  lemma StepContexts(app: App, s: State, e: Event, at: nat, fate: Fate)
    requires Inv(app, s.conn) && EventOk(e) && (e.Register? ==> |s.conn.contexts| + 1 < 0x8000_0000)
    ensures var r := Apply(app, s, e, at, fate); Inv(app, r.conn) && ContextsStep(s, e, r)
  {
    hide Inv, RegisterCtx, SendLogEntry, PayloadOf;
    match e
    case Register(id, description) =>
      assert ContextsOk(s.conn.contexts) by { InvParts(app, s.conn); }
      RegisterKeeps(app, s.conn, Ctx(id, description, DLT_LOG_VERBOSE, BLANK_HEADER, 0), fate);
    case LevelMessage(pos, level) =>
      ApplyLogLevelKeeps(app, s.conn, pos, level);
    case Create(pos, logLevel) =>
      if pos < |s.conn.contexts| { CountingKeeps(app, s.conn, pos); }
    case WriteArgument(entry, w) =>
    case Finish(entry, trailer, tmsp) =>
      if Open(s, entry) {
        var sending := Ended(s.entries[entry], trailer, tmsp, at);
        OutgoingFits(sending);
        SendLogKeeps(app, s.conn, sending.pos, OutgoingOf(sending), tmsp, fate);
      }
  }

  lemma InvParts(app: App, c: Conn)
    requires Inv(app, c)
    ensures ContextsOk(c.contexts)
  {
  }

  lemma CountingKeeps(app: App, c: Conn, pos: nat)
    requires Inv(app, c) && pos < |c.contexts|
    ensures var x := c.contexts[pos];
      Inv(app, c.(contexts := c.contexts[pos := x.(created := (x.created + 1) % 256)]))
  {
    hide GoodSession, Table;
    var x := c.contexts[pos];
    var r := c.(contexts := c.contexts[pos := x.(created := (x.created + 1) % 256)]);
    assert SessionsGood(app, r) && ContextsOk(r.contexts);
    hide SessionsGood, ContextsOk;
    assert r.contexts[..|r.contexts|] == r.contexts && c.contexts[..|c.contexts|] == c.contexts;
    assert TableOf(r.contexts) == TableOf(c.contexts);
  }

  lemma EventsOkFront(evs: seq<Event>)
    requires evs != [] && EventsOk(evs)
    ensures EventsOk(evs[..|evs| - 1]) && EventOk(evs[|evs| - 1])
    ensures evs[|evs| - 1].Register? ==> |RegisteredIds(evs[..|evs| - 1])| + 1 < 0x8000_0000
  {
    hide EventOk;
  }

  lemma {:induction false} RegisteredIdsAppend(a: seq<Event>, b: seq<Event>)
    ensures RegisteredIds(a + b) == RegisteredIds(a) + RegisteredIds(b)
  {
    if b == [] {
      assert a + b == a;
    } else {
      RegisteredIdsAppend(a, b[..|b| - 1]);
      assert (a + b)[..|a + b| - 1] == a + b[..|b| - 1];
    }
  }

  /** A run may go on as long as the registrations of both parts stay within the bound. */
  lemma EventsOkAppend(a: seq<Event>, b: seq<Event>)
    requires EventsOk(a) && |RegisteredIds(a)| + |RegisteredIds(b)| < 0x8000_0000 && forall e <- b :: EventOk(e)
    ensures EventsOk(a + b)
  {
    hide EventOk, RegisteredIds;
    RegisteredIdsAppend(a, b);
  }

  /** In every reachable state the session invariant holds, and positions are those of the registrations. */
  lemma {:induction false} ReachInv(app: App, evs: seq<Event>, fate: Fate)
    requires AppOk(app) && EventsOk(evs)
    ensures var c := Reach(app, evs, fate).conn;
      && Inv(app, c) && |c.contexts| == |RegisteredIds(evs)|
      && forall i | 0 <= i < |c.contexts| :: c.contexts[i].id == RegisteredIds(evs)[i]
  {
    hide Apply, EventOk;
    if evs == [] {
      StartInv(app);
    } else {
      hide Inv;
      EventsOkFront(evs);
      var n := |evs| - 1;
      ReachInv(app, evs[..n], fate);
      StepContexts(app, Reach(app, evs[..n], fate), evs[n], n, fate);
    }
  }

  lemma StartInv(app: App)
    requires AppOk(app)
    ensures Inv(app, START)
  {
    assert Table([]) == TableOf([]);
  }

  function RegisteredTexts(evs: seq<Event>): seq<bytes> {
    if evs == [] then []
    else
      var front, last := RegisteredTexts(evs[..|evs| - 1]), evs[|evs| - 1];
      if last.Register? then front + [last.description] else front
  }

  ghost predicate TextsConform(evs: seq<Event>, c: Conn) {
    |c.contexts| == |RegisteredTexts(evs)| && forall i | 0 <= i < |c.contexts| ::
      c.contexts[i].description == RegisteredTexts(evs)[i]
  }

  lemma StepOwn(app: App, s: State, e: Event, at: nat, fate: Fate)
    requires OwnSessions(app, s.conn)
    ensures var r := Apply(app, s, e, at, fate);
      && OwnSessions(app, r.conn) && Extends(s.conn.contexts, r.conn.contexts)
      && |r.conn.contexts| == |s.conn.contexts| + (if e.Register? then 1 else 0)
      && (e.Register? ==> r.conn.contexts[|s.conn.contexts|].description == e.description)
  {
    hide RegisterCtx, SendLogEntry, PayloadOf, OwnSessions;
    match e
    case Register(id, description) =>
      RegisterOwn(app, s.conn, Ctx(id, description, DLT_LOG_VERBOSE, BLANK_HEADER, 0), fate);
    case LevelMessage(_, _) =>
      OwnExtended(app, s.conn, Apply(app, s, e, at, fate).conn.contexts);
    case Create(_, _) =>
      OwnExtended(app, s.conn, Apply(app, s, e, at, fate).conn.contexts);
    case WriteArgument(_, _) =>
    case Finish(entry, trailer, tmsp) =>
      if Open(s, entry) {
        var sending := Ended(s.entries[entry], trailer, tmsp, at);
        SendLogOwn(app, s.conn, Registered(sending.pos), OutgoingOf(sending), tmsp, fate);
        SendLogSize(app, s.conn, sending.pos, OutgoingOf(sending), tmsp, fate);
      }
  }

  lemma SendLogSize(app: App, c: Conn, pos: nat, log: Outgoing, tmsp: nat, fate: Fate)
    requires pos < |c.contexts|
    ensures |SendLogEntry(app, c, Registered(pos), log, tmsp, fate).contexts| == |c.contexts|
  {
    hide InitDaemonConnection;
  }

  /** In every reachable state, all registrations ever delivered say what the events registered. */
  lemma {:induction false} ReachRegistrations(app: App, evs: seq<Event>, fate: Fate)
    ensures var c := Reach(app, evs, fate).conn; OwnSessions(app, c) && TextsConform(evs, c)
  {
    ReachStep(app, evs, fate);
    if evs != [] {
      hide Apply, OwnSessions, Reach;
      var n := |evs| - 1;
      ReachRegistrations(app, evs[..n], fate);
      StepOwn(app, Reach(app, evs[..n], fate), evs[n], n, fate);
    }
  }

  lemma StepOnce(app: App, s: State, e: Event, at: nat, fate: Fate)
    requires Inv(app, s.conn) && EventOk(e) && (e.Register? ==> |s.conn.contexts| + 1 < 0x8000_0000)
    requires RegisteredOnce(s.conn)
    ensures RegisteredOnce(Apply(app, s, e, at, fate).conn)
  {
    hide Inv, RegisterCtx, SendLogEntry, PayloadOf, RegisteredOnce;
    match e
    case Register(id, description) =>
      assert ContextsOk(s.conn.contexts) by { InvParts(app, s.conn); }
      RegisterOnce(app, s.conn, Ctx(id, description, DLT_LOG_VERBOSE, BLANK_HEADER, 0), fate);
    case LevelMessage(pos, level) =>
      SameSession(s.conn, Apply(app, s, e, at, fate).conn);
    case Create(pos, logLevel) =>
      SameSession(s.conn, Apply(app, s, e, at, fate).conn);
    case WriteArgument(entry, w) =>
    case Finish(entry, trailer, tmsp) =>
      if Open(s, entry) {
        var sending := Ended(s.entries[entry], trailer, tmsp, at);
        SendLogOnce(app, s.conn, sending.pos, OutgoingOf(sending), tmsp, fate);
      }
  }

  lemma SameSession(a: Conn, b: Conn)
    requires RegisteredOnce(a) && a.session == b.session && a.connected == b.connected
    requires |a.contexts| == |b.contexts|
    ensures RegisteredOnce(b)
  {
    hide Times;
    if b.connected {
      var twice :| OnceBut(a, twice);
      assert OnceBut(b, twice);
    }
  }

  /** In every reachable connected state, the session registered every context once, at most one of them twice. */
  lemma {:induction false} ReachOnce(app: App, evs: seq<Event>, fate: Fate)
    requires AppOk(app) && EventsOk(evs)
    ensures RegisteredOnce(Reach(app, evs, fate).conn)
  {
    if evs != [] {
      hide Apply, EventOk, Inv, RegisteredOnce;
      EventsOkFront(evs);
      var n := |evs| - 1;
      ReachInv(app, evs[..n], fate);
      ReachOnce(app, evs[..n], fate);
      StepOnce(app, Reach(app, evs[..n], fate), evs[n], n, fate);
    }
  }

  // ---- levels ------------------------------------------------------------------------------

  /** A context's active level is that of the last message addressed to it; reconnects do not change it. */
  lemma {:induction false} ReachLevels(app: App, evs: seq<Event>, fate: Fate)
    requires AppOk(app) && EventsOk(evs)
    ensures var c := Reach(app, evs, fate).conn;
      forall i | 0 <= i < |c.contexts| :: c.contexts[i].level == LastLevel(evs, i)
  {
    hide Apply, EventOk, Inv;
    if evs != [] {
      EventsOkFront(evs);
      var n := |evs| - 1;
      var before := Reach(app, evs[..n], fate);
      ReachInv(app, evs[..n], fate);
      ReachLevels(app, evs[..n], fate);
      StepContexts(app, before, evs[n], n, fate);
      NotYetAddressed(evs[..n], |before.conn.contexts|);
    }
  }

  lemma {:induction false} NotYetAddressed(evs: seq<Event>, pos: nat)
    requires pos >= |RegisteredIds(evs)|
    ensures LastLevel(evs, pos) == DLT_LOG_VERBOSE
  {
    if evs != [] { NotYetAddressed(evs[..|evs| - 1], pos); }
  }

  // ---- entries -----------------------------------------------------------------------------

  /** An entry was enabled by the level in force at its creation, and numbered by the entries before it. */
  ghost predicate EntryConforms(evs: seq<Event>, entries: seq<Entry>, k: nat)
    requires k < |entries|
  {
    var e := entries[k];
    && e.createdAt < |evs| && evs[e.createdAt].Create? && evs[e.createdAt].pos == e.pos
    && e.pos < |RegisteredIds(evs[..e.createdAt])|
    && e.level == DltLogLevel(evs[e.createdAt].logLevel)
    && e.enabled == (e.level <= LastLevel(evs[..e.createdAt], e.pos))
    && e.counter == CreatedBefore(entries, e.pos, k) % 256
  }

  /** Entries keep everything but what is written to them. */
  ghost predicate SameEntries(a: seq<Entry>, b: seq<Entry>) {
    |a| <= |b| && forall k | 0 <= k < |a| :: b[k] == a[k].(writes := b[k].writes, end := b[k].end)
  }

  lemma {:induction false} CreatedBeforeSame(a: seq<Entry>, b: seq<Entry>, pos: nat, k: nat)
    requires SameEntries(a, b) && k <= |a|
    ensures CreatedBefore(a, pos, k) == CreatedBefore(b, pos, k)
  {
    if k > 0 { CreatedBeforeSame(a, b, pos, k - 1); }
  }

  lemma EntryConformsLater(evs: seq<Event>, e: Event, a: seq<Entry>, b: seq<Entry>, k: nat)
    requires SameEntries(a, b) && k < |a| && EntryConforms(evs, a, k)
    ensures EntryConforms(evs + [e], b, k)
  {
    CreatedBeforeSame(a, b, a[k].pos, k);
    assert (evs + [e])[..a[k].createdAt] == evs[..a[k].createdAt];
  }

  lemma StepEntries(app: App, s: State, e: Event, at: nat, fate: Fate)
    ensures var r := Apply(app, s, e, at, fate);
      && SameEntries(s.entries, r.entries)
      && |r.entries| == |s.entries| + (if e.Create? && e.pos < |s.conn.contexts| then 1 else 0)
      && (|r.entries| > |s.entries| ==> r.entries[|s.entries|].pos == e.pos)
  {
    hide RegisterCtx, SendLogEntry, PayloadOf;
  }

  lemma {:induction false} NoneCreated(entries: seq<Entry>, pos: nat, k: nat)
    requires k <= |entries| && forall i | 0 <= i < k :: entries[i].pos != pos
    ensures CreatedBefore(entries, pos, k) == 0
  {
    if k > 0 { NoneCreated(entries, pos, k - 1); }
  }

  ghost predicate CountersConform(s: State) {
    forall i | 0 <= i < |s.conn.contexts| ::
      s.conn.contexts[i].created == CreatedBefore(s.entries, i, |s.entries|) % 256
  }

  ghost predicate EntriesConform(evs: seq<Event>, s: State) {
    forall k | 0 <= k < |s.entries| :: EntryConforms(evs, s.entries, k) && s.entries[k].pos < |s.conn.contexts|
  }

  lemma StepCounters(s: State, e: Event, r: State)
    requires ContextsStep(s, e, r) && SameEntries(s.entries, r.entries) && CountersConform(s)
    requires |r.entries| == |s.entries| + (if e.Create? && e.pos < |s.conn.contexts| then 1 else 0)
    requires |r.entries| > |s.entries| ==> r.entries[|s.entries|].pos == e.pos
    requires forall k | 0 <= k < |s.entries| :: s.entries[k].pos < |s.conn.contexts|
    ensures CountersConform(r)
  {
    forall i | 0 <= i < |r.conn.contexts|
      ensures r.conn.contexts[i].created == CreatedBefore(r.entries, i, |r.entries|) % 256
    {
      CreatedStep(s.entries, r.entries, i);
      if i == |s.conn.contexts| {
        NoneCreated(s.entries, i, |s.entries|);
      }
      hide CreatedBefore, SameEntries;
      NextRemainder(CreatedBefore(s.entries, i, |s.entries|));
    }
  }

  lemma CreatedStep(a: seq<Entry>, b: seq<Entry>, pos: nat)
    requires SameEntries(a, b) && |b| <= |a| + 1
    ensures CreatedBefore(b, pos, |b|) == CreatedBefore(a, pos, |a|) + (if |b| > |a| && b[|a|].pos == pos then 1 else 0)
  {
    CreatedBeforeSame(a, b, pos, |a|);
  }

  lemma NewEntryConforms(app: App, evs: seq<Event>, e: Event, s: State, fate: Fate)
    requires e.Create? && e.pos < |s.conn.contexts| == |RegisteredIds(evs)|
    requires CountersConform(s) && s.conn.contexts[e.pos].level == LastLevel(evs, e.pos)
    ensures EntryConforms(evs + [e], Apply(app, s, e, |evs|, fate).entries, |s.entries|)
  {
    var r := Apply(app, s, e, |evs|, fate);
    assert (evs + [e])[..|evs|] == evs;
    CreatedBeforeSame(s.entries, r.entries, e.pos, |s.entries|);
  }

  lemma {:induction false} StepConforms(app: App, evs: seq<Event>, e: Event, s: State, fate: Fate)
    requires CountersConform(s) && EntriesConform(evs, s) && |s.conn.contexts| == |RegisteredIds(evs)|
    requires forall i | 0 <= i < |s.conn.contexts| :: s.conn.contexts[i].level == LastLevel(evs, i)
    requires ContextsStep(s, e, Apply(app, s, e, |evs|, fate))
    ensures var r := Apply(app, s, e, |evs|, fate); CountersConform(r) && EntriesConform(evs + [e], r)
  {
    hide EntryConforms, LastLevel, RegisteredIds, CountersConform, Apply;
    var r := Apply(app, s, e, |evs|, fate);
    StepEntries(app, s, e, |evs|, fate);
    if |r.entries| > |s.entries| {
      NewEntryConforms(app, evs, e, s, fate);
    }
    forall k | 0 <= k < |s.entries|
      ensures EntryConforms(evs + [e], r.entries, k) && r.entries[k].pos < |r.conn.contexts|
    {
      EntryConformsLater(evs, e, s.entries, r.entries, k);
    }
    StepCounters(s, e, r);
  }

  lemma InitialConforms()
    ensures CountersConform(INITIAL) && EntriesConform([], INITIAL)
  {
  }

  lemma {:induction false} ReachEntries(app: App, evs: seq<Event>, fate: Fate)
    requires AppOk(app) && EventsOk(evs)
    ensures CountersConform(Reach(app, evs, fate)) && EntriesConform(evs, Reach(app, evs, fate))
  {
    hide *;
    ReachStep(app, evs, fate);
    InitialConforms();
    if evs != [] {
      EventsOkFront(evs);
      var n := |evs| - 1;
      var front, e := evs[..n], evs[n];
      var s := Reach(app, front, fate);
      ReachInv(app, front, fate);
      ReachLevels(app, front, fate);
      ReachEntries(app, front, fate);
      StepContexts(app, s, e, n, fate);
      StepConforms(app, front, e, s, fate);
      assert evs == front + [e];
    }
  }

  // ---- what is written to an entry ---------------------------------------------------------

  /** Event `end.at` is the first that finishes entry `k`, created by event `at`. */
  predicate EndsAt(evs: seq<Event>, k: nat, at: nat, end: End) {
    && at < end.at < |evs| && evs[end.at].Finish? && evs[end.at].entry == k && evs[end.at].tmsp == end.tmsp
    && !FinishedIn(evs[..end.at], k, at)
  }

  /** An enabled entry holds exactly what the events wrote to it, and ends with the first event that says so. */
  ghost predicate HoldsWritten(evs: seq<Event>, e: Entry, k: nat) {
    e.enabled ==>
      && e.writes == WrittenTo(evs, k, e.createdAt) && (e.end.Some? <==> FinishedIn(evs, k, e.createdAt))
      && (e.end.Some? ==> EndsAt(evs, k, e.createdAt, e.end.value))
  }

  ghost predicate WritesConform(evs: seq<Event>, s: State) {
    forall k | 0 <= k < |s.entries| :: s.entries[k].createdAt < |evs| && HoldsWritten(evs, s.entries[k], k)
  }

  lemma NextWritten(evs: seq<Event>, e: Event, k: nat, at: nat)
    requires at < |evs|
    ensures FinishedIn(evs + [e], k, at) <==> FinishedIn(evs, k, at) || (e.Finish? && e.entry == k)
    ensures WrittenTo(evs + [e], k, at) ==
      if FinishedIn(evs, k, at) then WrittenTo(evs, k, at)
      else if e.WriteArgument? && e.entry == k then WrittenTo(evs, k, at) + [e.w]
      else if e.Finish? && e.entry == k then WrittenTo(evs, k, at) + e.trailer
      else WrittenTo(evs, k, at)
  {
    var all := evs + [e];
    assert all[..|evs|] == evs && all[|evs|] == e;
    if FinishedIn(evs, k, at) {
      var j :| at < j < |evs| && evs[j].Finish? && evs[j].entry == k;
      assert all[j].Finish? && all[j].entry == k;
    }
  }

  lemma NextEnds(evs: seq<Event>, e: Event, k: nat, at: nat)
    requires at < |evs|
    ensures forall end | EndsAt(evs, k, at, end) :: EndsAt(evs + [e], k, at, end)
    ensures e.Finish? && e.entry == k && !FinishedIn(evs, k, at) ==> EndsAt(evs + [e], k, at, End(|evs|, e.tmsp))
  {
    hide FinishedIn;
    assert (evs + [e])[..|evs|] == evs;
    forall end | EndsAt(evs, k, at, end) ensures EndsAt(evs + [e], k, at, end) {
      assert (evs + [e])[..end.at] == evs[..end.at];
    }
  }

  /** How one event changes one entry that exists already. */
  lemma StepEntry(app: App, s: State, e: Event, at: nat, fate: Fate, k: nat)
    requires k < |s.entries| && s.entries[k].pos < |s.conn.contexts|
    ensures var r, was := Apply(app, s, e, at, fate).entries, s.entries[k];
      && k < |r| && r[k].createdAt == was.createdAt && r[k].enabled == was.enabled
      && (was.enabled ==>
            && r[k].writes == (if was.end.Some? then was.writes
                               else if e.WriteArgument? && e.entry == k then was.writes + [e.w]
                               else if e.Finish? && e.entry == k then was.writes + e.trailer
                               else was.writes)
            && r[k].end == (if was.end.None? && e.Finish? && e.entry == k then Some(End(at, e.tmsp)) else was.end))
  {
    hide RegisterCtx, SendLogEntry, PayloadOf, Run;
  }

  lemma StepWrites(app: App, evs: seq<Event>, e: Event, s: State, fate: Fate)
    requires WritesConform(evs, s) && forall k | 0 <= k < |s.entries| :: s.entries[k].pos < |s.conn.contexts|
    ensures WritesConform(evs + [e], Apply(app, s, e, |evs|, fate))
  {
    hide Apply, WrittenTo, FinishedIn, EndsAt;
    var r := Apply(app, s, e, |evs|, fate);
    StepEntries(app, s, e, |evs|, fate);
    forall k | 0 <= k < |r.entries|
      ensures r.entries[k].createdAt < |evs| + 1 && HoldsWritten(evs + [e], r.entries[k], k)
    {
      if k < |s.entries| {
        StepEntry(app, s, e, |evs|, fate, k);
        NextWritten(evs, e, k, s.entries[k].createdAt);
        NextEnds(evs, e, k, s.entries[k].createdAt);
      } else {
        CreateFacts(app, s, e.pos, e.logLevel, |evs|, fate);
        NothingWritten(evs + [e], k, |evs|);
      }
    }
  }

  lemma NothingWritten(evs: seq<Event>, k: nat, at: nat)
    requires |evs| == at + 1
    ensures WrittenTo(evs, k, at) == [] && !FinishedIn(evs, k, at)
  {
  }

  lemma InitialWrites()
    ensures WritesConform([], INITIAL)
  {
  }

  lemma {:induction false} ReachWrites(app: App, evs: seq<Event>, fate: Fate)
    requires AppOk(app) && EventsOk(evs)
    ensures WritesConform(evs, Reach(app, evs, fate))
  {
    hide *;
    ReachStep(app, evs, fate);
    InitialWrites();
    if evs != [] {
      EventsOkFront(evs);
      var n := |evs| - 1;
      ReachWrites(app, evs[..n], fate);
      ReachEntries(app, evs[..n], fate);
      EntriesHavePlaces(evs[..n], Reach(app, evs[..n], fate));
      StepWrites(app, evs[..n], evs[n], Reach(app, evs[..n], fate), fate);
      assert evs == evs[..n] + [evs[n]];
    }
  }

  lemma EntriesHavePlaces(evs: seq<Event>, s: State)
    requires EntriesConform(evs, s)
    ensures forall k | 0 <= k < |s.entries| :: s.entries[k].pos < |s.conn.contexts|
  {
  }

  lemma {:induction false} CreatedGrows(entries: seq<Entry>, pos: nat, j: nat, k: nat)
    requires j < k <= |entries| && entries[j].pos == pos
    ensures CreatedBefore(entries, pos, j) < CreatedBefore(entries, pos, k)
  {
    if j < k - 1 { CreatedGrows(entries, pos, j, k - 1); }
  }

  lemma {:induction false} CountersRepeat(evs: seq<Event>, entries: seq<Entry>, j: nat, k: nat)
    requires j < k < |entries| && entries[j].pos == entries[k].pos
    requires EntryConforms(evs, entries, j) && EntryConforms(evs, entries, k)
    ensures var between := CreatedBefore(entries, entries[k].pos, k) - CreatedBefore(entries, entries[k].pos, j);
      between > 0 && (entries[j].counter == entries[k].counter <==> between % 256 == 0)
  {
    hide EntryConforms;
    CounterOf(evs, entries, j);
    CounterOf(evs, entries, k);
    CreatedGrows(entries, entries[k].pos, j, k);
    hide CreatedBefore;
    SameRemainder(CreatedBefore(entries, entries[k].pos, j), CreatedBefore(entries, entries[k].pos, k));
  }

  /**
   A daemon sees no gap between the counters of two entries of one context exactly when, modulo 256, one
   entry was created from the first up to the second. Disabled entries count, so they leave gaps.
   */
  lemma {:induction false} CountersFollow(app: App, evs: seq<Event>, fate: Fate, j: nat, k: nat)
    requires AppOk(app) && EventsOk(evs)
    requires j < k < |Reach(app, evs, fate).entries|
    requires Reach(app, evs, fate).entries[j].pos == Reach(app, evs, fate).entries[k].pos
    ensures var entries := Reach(app, evs, fate).entries;
      var between := CreatedBefore(entries, entries[k].pos, k) - CreatedBefore(entries, entries[k].pos, j);
      between > 0 && (entries[k].counter == (entries[j].counter + 1) % 256 <==> between % 256 == 1)
  {
    hide Apply, EntryConforms, CreatedBefore;
    ReachEntries(app, evs, fate);
    var entries := Reach(app, evs, fate).entries;
    hide Reach;
    CounterOf(evs, entries, j);
    CounterOf(evs, entries, k);
    CreatedGrows(entries, entries[k].pos, j, k);
    NextRemainders(CreatedBefore(entries, entries[k].pos, j), CreatedBefore(entries, entries[k].pos, k));
  }

  lemma NextRemainders(a: nat, b: nat)
    ensures b % 256 == (a % 256 + 1) % 256 <==> (b - a) % 256 == 1
  {
  }

  /** An entry that its level disables leaves such a gap: its counter is taken, but never sent. */
  lemma CounterGapExample(app: App, id: Id, fate: Fate)
    requires AppOk(app)
    ensures
      var evs := [Register(id, []), LevelMessage(0, 3), Create(0, Error), Create(0, Debug), Create(0, Error)];
      var entries := Reach(app, evs, fate).entries;
      && |entries| == 3 && entries[0].enabled && !entries[1].enabled && entries[2].enabled
      && entries[0].counter == 0 && entries[2].counter == 2
  {
    hide *;
    var a := [Register(id, []), LevelMessage(0, 3)];
    var b := a + [Create(0, Error)];
    var c := b + [Create(0, Debug)];
    FirstContext(app, id, 3, fate);
    CreateOnFirst(app, a, Error, fate);
    CreateOnFirst(app, b, Debug, fate);
    CreateOnFirst(app, c, Error, fate);
    assert DltLogLevel(Error) == 2 && DltLogLevel(Debug) == 5 by { Levels(); }
    assert c + [Create(0, Error)] ==
      [Register(id, []), LevelMessage(0, 3), Create(0, Error), Create(0, Debug), Create(0, Error)];
  }

  lemma Levels()
    ensures DltLogLevel(Error) == 2 && DltLogLevel(Debug) == 5
  {
  }

  lemma CreateOnFirst(app: App, evs: seq<Event>, level: LogLevel, fate: Fate)
    requires |Reach(app, evs, fate).conn.contexts| == 1
    ensures
      var s, r := Reach(app, evs, fate), Reach(app, evs + [Create(0, level)], fate);
      var x := s.conn.contexts[0];
      && |r.conn.contexts| == 1 && r.conn.contexts[0].level == x.level
      && r.conn.contexts[0].created == (x.created + 1) % 256
      && |r.entries| == |s.entries| + 1 && r.entries[..|s.entries|] == s.entries
      && r.entries[|s.entries|].enabled == (DltLogLevel(level) <= x.level)
      && r.entries[|s.entries|].counter == x.created
  {
    hide Reach, Apply, CreateEntry;
    ReachAppend(app, evs, Create(0, level), fate);
    CreateFacts(app, Reach(app, evs, fate), 0, level, |evs|, fate);
  }

  lemma FirstContext(app: App, id: Id, level: byte, fate: Fate)
    requires AppOk(app)
    ensures
      var s := Reach(app, [Register(id, []), LevelMessage(0, level)], fate);
      |s.conn.contexts| == 1 && s.conn.contexts[0].level == level && s.conn.contexts[0].created == 0 && s.entries == []
  {
    hide Reach, Apply, Inv;
    var register, change := Register(id, []), LevelMessage(0, level);
    assert [] + [register] == [register] && [register] + [change] == [register, change];
    ReachStep(app, [], fate);
    StartInv(app);
    StepContexts(app, INITIAL, register, 0, fate);
    StepEntries(app, INITIAL, register, 0, fate);
    ReachAppend(app, [], register, fate);
    StepContexts(app, Reach(app, [register], fate), change, 1, fate);
    StepEntries(app, Reach(app, [register], fate), change, 1, fate);
    ReachAppend(app, [register], change, fate);
  }

  /**
   Two entries of one context carry the same message counter exactly when a positive multiple of 256
   entries of the context were created from the first up to the second.
   */
  lemma {:induction false} CountersRepeatAfter256(app: App, evs: seq<Event>, fate: Fate, j: nat, k: nat)
    requires AppOk(app) && EventsOk(evs)
    requires j < k < |Reach(app, evs, fate).entries|
    requires Reach(app, evs, fate).entries[j].pos == Reach(app, evs, fate).entries[k].pos
    ensures var entries := Reach(app, evs, fate).entries;
      var between := CreatedBefore(entries, entries[k].pos, k) - CreatedBefore(entries, entries[k].pos, j);
      between > 0 && (entries[j].counter == entries[k].counter <==> between % 256 == 0)
  {
    hide Apply, EntryConforms, CreatedBefore;
    ReachEntries(app, evs, fate);
    hide Reach;
    CountersRepeat(evs, Reach(app, evs, fate).entries, j, k);
  }

  lemma CounterOf(evs: seq<Event>, entries: seq<Entry>, k: nat)
    requires k < |entries| && EntryConforms(evs, entries, k)
    ensures entries[k].counter == CreatedBefore(entries, entries[k].pos, k) % 256
  {
  }

  lemma SameRemainder(a: nat, b: nat)
    ensures a % 256 == b % 256 <==> (b - a) % 256 == 0
  {
  }

  // ---- delivered logs ----------------------------------------------------------------------

  lemma LogsAppend(ms: seq<Messages.Message>, m: Messages.Message)
    ensures Logs(ms + [m]) == Logs(ms) + (if m.SendLog? then [m] else [])
  {
    assert (ms + [m])[..|ms|] == ms;
  }

  lemma LogsDeliver(c: Conn, m: Messages.Message, fate: Fate)
    ensures var r := Deliver(c, m, fate);
      AllLogs(r) == AllLogs(c) + (if m.SendLog? && r.connected then [m] else [])
  {
    if c.connected {
      LogsAppend(c.session, m);
      assert (c.closed + [c.session])[..|c.closed|] == c.closed;
    }
  }

  lemma {:induction false} LogsSendRegistrations(app: App, c: Conn, pos: nat, fate: Fate)
    requires pos <= |c.contexts|
    ensures AllLogs(SendRegistrations(app, c, pos, fate)) == AllLogs(c)
    decreases |c.contexts| - pos
  {
    if pos < |c.contexts| {
      LogsSendRegistration(app, c, pos, fate);
      LogsSendRegistrations(app, SendRegistration(app, c, pos, fate), pos + 1, fate);
    }
  }

  lemma LogsSendRegistration(app: App, c: Conn, pos: nat, fate: Fate)
    requires pos < |c.contexts|
    ensures AllLogs(SendRegistration(app, c, pos, fate)) == AllLogs(c)
  {
    hide Deliver;
    var x := c.contexts[pos];
    LogsDeliver(c.(contexts := c.contexts[pos := x.(header := Header(app.apid, x.id))]), ContextMessage(app, x, pos),
      fate);
  }

  lemma LogsInit(app: App, c: Conn, fate: Fate)
    requires SessionsGood(app, c)
    ensures AllLogs(InitDaemonConnection(app, c, fate)) == AllLogs(c)
  {
    hide GoodSession, SendRegistrations;
    if !c.connected && fate(c.tick) {
      hide Deliver;
      var linked := c.(connected := true, session := [], tick := c.tick + 1);
      LogsDeliver(linked, AppMessage(app), fate);
      LogsSendRegistrations(app, Deliver(linked, AppMessage(app), fate), 0, fate);
    }
  }

  lemma LogsRegister(app: App, c: Conn, x: Ctx, fate: Fate)
    requires SessionsGood(app, c)
    ensures AllLogs(RegisterCtx(app, c, x, fate)) == AllLogs(c)
  {
    hide GoodSession, SendRegistration;
    var added := c.(contexts := c.contexts + [x]);
    LogsInit(app, added, fate);
    hide InitDaemonConnection;
    var tried := InitDaemonConnection(app, added, fate);
    if tried.connected { LogsSendRegistration(app, tried, |c.contexts|, fate); }
  }

  lemma LogsSendEntry(app: App, c: Conn, pos: nat, log: Outgoing, tmsp: nat, fate: Fate)
    requires Inv(app, c) && pos < |c.contexts|
    ensures var r := SendLogEntry(app, c, Registered(pos), log, tmsp, fate);
      AllLogs(r) == AllLogs(c)
        + (if r.connected then [LogMessage(app, Header(app.apid, c.contexts[pos].id), log, tmsp)] else [])
  {
    hide GoodSession, Table, AllLogs;
    InitKeeps(app, c, fate);
    LogsInit(app, c, fate);
    hide InitDaemonConnection;
    var tried := InitDaemonConnection(app, c, fate);
    if tried.connected {
      var m := LogMessage(app, HeaderOf(tried, Registered(pos)), log, tmsp);
      LogsDeliver(tried, m, fate);
    }
  }

  /** A delivered entry is enabled and finished. */
  predicate Finished(s: State, k: nat) {
    k < |s.entries| && s.entries[k].enabled && s.entries[k].end.Some? && s.entries[k].pos < |s.conn.contexts|
  }

  /** The place in the run of the event that finished entry `k`. */
  function EndedAt(s: State, k: nat): nat
    requires Finished(s, k)
  {
    s.entries[k].end.value.at
  }

  ghost function Frames(app: App, s: State): seq<Messages.Message>
    requires forall i | 0 <= i < |s.delivered| :: Finished(s, s.delivered[i])
  {
    seq(|s.delivered|,
        i requires 0 <= i < |s.delivered| && Finished(s, s.delivered[i]) => FrameOf(app, s, s.delivered[i]))
  }

  /** The log messages of all connections are the frames of the delivered entries, in the order they ended. */
  ghost predicate DeliveredConform(app: App, s: State) {
    && (forall i | 0 <= i < |s.delivered| :: Finished(s, s.delivered[i]))
    && (forall i, j | 0 <= i < j < |s.delivered| :: EndedAt(s, s.delivered[i]) < EndedAt(s, s.delivered[j]))
    && AllLogs(s.conn) == Frames(app, s)
  }

  lemma StepFrames(app: App, s: State, e: Event, at: nat, fate: Fate, k: nat)
    requires Finished(s, k) && ContextsStep(s, e, Apply(app, s, e, at, fate))
    ensures var r := Apply(app, s, e, at, fate);
      Finished(r, k) && FrameOf(app, r, k) == FrameOf(app, s, k) && EndedAt(r, k) == EndedAt(s, k)
  {
    hide RegisterCtx, SendLogEntry, PayloadOf, Run;
  }

  lemma StepLogs(app: App, s: State, e: Event, at: nat, fate: Fate)
    requires Inv(app, s.conn) && ContextsStep(s, e, Apply(app, s, e, at, fate))
    ensures var r := Apply(app, s, e, at, fate);
      if e.Finish? && Open(s, e.entry) && r.conn.connected then
        && r.delivered == s.delivered + [e.entry] && Finished(r, e.entry) && EndedAt(r, e.entry) == at
        && AllLogs(r.conn) == AllLogs(s.conn) + [FrameOf(app, r, e.entry)]
      else r.delivered == s.delivered && AllLogs(r.conn) == AllLogs(s.conn)
  {
    hide RegisterCtx, SendLogEntry, PayloadOf, Run, GoodSession;
    match e
    case Register(id, description) =>
      LogsRegister(app, s.conn, Ctx(id, description, DLT_LOG_VERBOSE, BLANK_HEADER, 0), fate);
    case LevelMessage(_, _) =>
    case Create(_, _) =>
    case WriteArgument(_, _) =>
    case Finish(entry, trailer, tmsp) =>
      if Open(s, entry) {
        var sending := Ended(s.entries[entry], trailer, tmsp, at);
        LogsSendEntry(app, s.conn, sending.pos, OutgoingOf(sending), tmsp, fate);
      }
  }

  lemma StepDelivered(app: App, s: State, e: Event, at: nat, fate: Fate)
    requires Inv(app, s.conn) && DeliveredConform(app, s) && ContextsStep(s, e, Apply(app, s, e, at, fate))
    requires forall i | 0 <= i < |s.delivered| :: EndedAt(s, s.delivered[i]) < at
    ensures DeliveredConform(app, Apply(app, s, e, at, fate))
  {
    hide Inv, ContextsStep, Apply, FrameOf, AllLogs;
    var r := Apply(app, s, e, at, fate);
    StepLogs(app, s, e, at, fate);
    forall i | 0 <= i < |s.delivered|
      ensures Finished(r, s.delivered[i]) && FrameOf(app, r, s.delivered[i]) == FrameOf(app, s, s.delivered[i])
      ensures EndedAt(r, s.delivered[i]) == EndedAt(s, s.delivered[i])
    {
      StepFrames(app, s, e, at, fate, s.delivered[i]);
    }
    assert forall i | 0 <= i < |r.delivered| :: Finished(r, r.delivered[i]);
    if r.delivered == s.delivered {
      assert Frames(app, r) == Frames(app, s);
    } else {
      assert Frames(app, r) == Frames(app, s) + [FrameOf(app, r, e.entry)];
    }
  }

  lemma EndedBefore(app: App, evs: seq<Event>, s: State)
    requires WritesConform(evs, s) && DeliveredConform(app, s)
    ensures forall i | 0 <= i < |s.delivered| :: EndedAt(s, s.delivered[i]) < |evs|
  {
    hide FinishedIn, WrittenTo, AllLogs, Frames;
  }

  lemma {:induction false} ReachDelivered(app: App, evs: seq<Event>, fate: Fate)
    requires AppOk(app) && EventsOk(evs)
    ensures DeliveredConform(app, Reach(app, evs, fate))
  {
    if evs != [] {
      hide Inv, EventOk, EventsOk, DeliveredConform, Apply, ContextsStep;
      EventsOkFront(evs);
      var n := |evs| - 1;
      ReachInv(app, evs[..n], fate);
      ReachDelivered(app, evs[..n], fate);
      ReachWrites(app, evs[..n], fate);
      EndedBefore(app, evs[..n], Reach(app, evs[..n], fate));
      StepContexts(app, Reach(app, evs[..n], fate), evs[n], n, fate);
      StepDelivered(app, Reach(app, evs[..n], fate), evs[n], n, fate);
    }
  }

  // ---- main results ------------------------------------------------------------------------

  /**
   For every run, the bytes of every connection, past or present, decode to exactly the messages sent on
   it; each starts with the application's registration, and no log message precedes the registration of
   its context. While connected, the registrations fold to the application's table of contexts.
   */
  lemma {:induction false} EveryConnectionDecodes(app: App, evs: seq<Event>, fate: Fate, ms: seq<Messages.Message>)
    requires AppOk(app) && EventsOk(evs)
    requires var c := Reach(app, evs, fate).conn; ms in c.closed || ms == c.session
    ensures GoodSession(app, ms)
    ensures Messages.DecodeStream(Messages.EncodeStream(ms)) == Some(ms)
    ensures var c := Reach(app, evs, fate).conn;
      c.connected && ms == c.session ==>
        && ms != [] && ms[0] == AppMessage(app)
        && Table(ms) == map i: nat | i < |RegisteredIds(evs)| :: RegisteredIds(evs)[i]
  {
    hide Apply, EventsOk, RegisteredIds, GoodSession;
    ReachInv(app, evs, fate);
    var c := Reach(app, evs, fate).conn;
    hide Reach;
    GoodSessionDecodes(app, ms);
    if c.connected && ms == c.session {
      ConnectedTable(app, c, RegisteredIds(evs));
    }
  }

  lemma GoodSessionDecodes(app: App, ms: seq<Messages.Message>)
    requires GoodSession(app, ms)
    ensures Messages.DecodeStream(Messages.EncodeStream(ms)) == Some(ms)
  {
    hide Messages.WellFormed;
    Messages.DecodeStreamInverts(ms);
  }

  lemma ConnectedTable(app: App, c: Conn, ids: seq<Id>)
    requires Inv(app, c) && c.connected && |c.contexts| == |ids|
    requires forall i | 0 <= i < |ids| :: c.contexts[i].id == ids[i]
    ensures c.session != [] && c.session[0] == AppMessage(app) && Table(c.session) == map i: nat | i < |ids| :: ids[i]
  {
    hide Table, Messages.WellFormed;
    assert c.contexts[..|c.contexts|] == c.contexts;
  }

  /** The message type info says verbose, log, and in its upper half the place of the level in this list, or 15. */
  ghost predicate LevelOnWire(level: LogLevel, m: Messages.Message)
    requires m.SendLog?
  {
    var upper := Messages.LogBytes(m)[24] / 16;
    && Messages.LogBytes(m)[24] == 1 + 16 * upper
    && if level == All || level == Invalid then m.level == -1 && upper == 15
       else m.level == upper < 7 && [None_, Fatal, Error, Warning, Info, Debug, Verbose][upper] == level
  }

  lemma LevelIsOnWire(level: LogLevel, m: Messages.Message)
    requires m.SendLog? && m.level == DltLogLevel(level)
    ensures LevelOnWire(level, m)
  {
    DltLevelByPlace(level);
    Messages.LogLayout(m);
    hide Messages.LogBytes;
  }

  /** What a reader can rely on for a log message made from entry `k`. */
  ghost predicate Genuine(app: App, evs: seq<Event>, s: State, k: nat, m: Messages.Message) {
    && k < |s.entries| && m.SendLog?
    && var e, at := s.entries[k], s.entries[k].createdAt;
    && at < |evs| && evs[at].Create? && e.pos == evs[at].pos < |RegisteredIds(evs[..at])|
    && |RegisteredIds(evs)| >= |RegisteredIds(evs[..at])|
    && e.end.Some? && EndsAt(evs, k, at, e.end.value) && m.tmsp == e.end.value.tmsp
    // it names the application, its process and the context the entry was created on,
    && m.apid == app.apid && m.seid == app.pid && m.ctid == RegisteredIds(evs)[e.pos]
    // its level is that of the statement, and was within the last level applied to that context at that time,
    && LevelOnWire(evs[at].logLevel, m) && m.level <= LastLevel(evs[..at], e.pos)
    // its counter numbers the entries of the context, enabled or not,
    && m.mcnt == CreatedBefore(s.entries, e.pos, k) % 256
    // and its payload decodes to what the writes to the entry leave, announced modulo 256.
    && exists log: Log ::
         && Arrived(log, Loud(WrittenTo(evs, k, at)))
         && Payload.DecodeAll(m.payload) == Some(log.args) && m.noar == |log.args| % 256
  }

  lemma {:induction false} RegisteredIdsGrow(evs: seq<Event>, n: nat)
    requires n <= |evs|
    ensures |RegisteredIds(evs[..n])| <= |RegisteredIds(evs)|
  {
    if n == |evs| {
      assert evs[..n] == evs;
    } else {
      RegisteredIdsGrow(evs[..|evs| - 1], n);
      assert evs[..|evs| - 1][..n] == evs[..n];
    }
  }

  lemma {:induction false} FinishedIsGenuine(app: App, evs: seq<Event>, s: State, k: nat)
    requires Finished(s, k) && EntryConforms(evs, s.entries, k) && HoldsWritten(evs, s.entries[k], k)
    requires |s.conn.contexts| == |RegisteredIds(evs)|
    requires forall i | 0 <= i < |s.conn.contexts| :: s.conn.contexts[i].id == RegisteredIds(evs)[i]
    ensures Genuine(app, evs, s, k, FrameOf(app, s, k))
  {
    hide RegisteredIds, LastLevel, CreatedBefore, WrittenTo, FinishedIn, Run, Arrived, Loud;
    hide Payload.DecodeAll, Payload.EncodeAll;
    var e := s.entries[k];
    RegisteredIdsGrow(evs, e.createdAt);
    ReadBack(e.writes);
    LevelIsOnWire(evs[e.createdAt].logLevel, FrameOf(app, s, k));
    hide LevelOnWire;
    var log := Run(e.writes);
    assert Arrived(log, Loud(e.writes)) && Payload.DecodeAll(PayloadOf(e.writes)) == Some(log.args);
  }

  /**
   For every run, the log messages delivered over all connections are those of distinct finished entries,
   in the order of the events that finished them, each genuine.
   */
  lemma {:induction false} EveryLogIsGenuine(app: App, evs: seq<Event>, fate: Fate)
    requires AppOk(app) && EventsOk(evs)
    ensures var s := Reach(app, evs, fate);
      && |AllLogs(s.conn)| == |s.delivered|
      && (forall i | 0 <= i < |s.delivered| :: Finished(s, s.delivered[i]))
      && (forall i, j | 0 <= i < j < |s.delivered| :: EndedAt(s, s.delivered[i]) < EndedAt(s, s.delivered[j]))
      && (forall i | 0 <= i < |s.delivered| :: Genuine(app, evs, s, s.delivered[i], AllLogs(s.conn)[i]))
  {
    hide Apply, Inv, EventsOk, RegisteredIds, Genuine, EntryConforms, FrameOf, AllLogs, HoldsWritten;
    ReachInv(app, evs, fate);
    ReachEntries(app, evs, fate);
    ReachWrites(app, evs, fate);
    ReachDelivered(app, evs, fate);
    var s := Reach(app, evs, fate);
    hide Reach;
    forall i | 0 <= i < |s.delivered| ensures Genuine(app, evs, s, s.delivered[i], AllLogs(s.conn)[i]) {
      assert Finished(s, s.delivered[i]);
      FinishedIsGenuine(app, evs, s, s.delivered[i]);
    }
  }

  /** An entry at a level of this list is enabled exactly if its place is within the level in force. */
  lemma EnabledByPlace(app: App, evs: seq<Event>, fate: Fate, k: nat)
    requires AppOk(app) && EventsOk(evs) && k < |Reach(app, evs, fate).entries|
    ensures
      var e := Reach(app, evs, fate).entries[k];
      && e.createdAt < |evs| && evs[e.createdAt].Create?
      && var level, inForce := evs[e.createdAt].logLevel, LastLevel(evs[..e.createdAt], evs[e.createdAt].pos);
      && (level == All || level == Invalid ==> e.enabled)
      && forall n | 0 <= n < 7 && level == [None_, Fatal, Error, Warning, Info, Debug, Verbose][n] ::
           e.enabled <==> n <= inForce
  {
    hide Apply, DltLogLevel;
    ReachEntries(app, evs, fate);
    hide Reach;
    var e := Reach(app, evs, fate).entries[k];
    assert EntryConforms(evs, Reach(app, evs, fate).entries, k);
    DltLevelByPlace(evs[e.createdAt].logLevel);
    LastLevelNotNegative(evs[..e.createdAt], e.pos);
    Distinct(evs[e.createdAt].logLevel);
  }

  lemma Distinct(level: LogLevel)
    ensures forall a, b | 0 <= a < b < 7 ::
      [None_, Fatal, Error, Warning, Info, Debug, Verbose][a] != [None_, Fatal, Error, Warning, Info, Debug, Verbose][b]
  {
  }

  /** Until a message changes it, the level in force lets everything up to Verbose through. */
  lemma {:induction false} LastLevelNotNegative(evs: seq<Event>, pos: nat)
    ensures LastLevel(evs, pos) >= 0
    ensures (forall e <- evs :: !e.LevelMessage?) ==> LastLevel(evs, pos) == 6
  {
    if evs != [] { LastLevelNotNegative(evs[..|evs| - 1], pos); }
  }

  // ---- a daemon that never fails gets everything -------------------------------------------

  ghost predicate Reliable(fate: Fate) {
    forall t :: fate(t)
  }

  lemma {:induction false} SendRegistrationsConnected(app: App, c: Conn, pos: nat, fate: Fate)
    requires Reliable(fate) && c.connected && pos <= |c.contexts|
    ensures SendRegistrations(app, c, pos, fate).connected
    decreases |c.contexts| - pos
  {
    if pos < |c.contexts| { SendRegistrationsConnected(app, SendRegistration(app, c, pos, fate), pos + 1, fate); }
  }

  lemma SendLogConnected(app: App, c: Conn, pos: nat, log: Outgoing, tmsp: nat, fate: Fate)
    requires Reliable(fate) && pos < |c.contexts|
    ensures SendLogEntry(app, c, Registered(pos), log, tmsp, fate).connected
  {
    hide SendRegistrations;
    if !c.connected {
      var linked := c.(connected := true, session := [], tick := c.tick + 1);
      SendRegistrationsConnected(app, Deliver(linked, AppMessage(app), fate), 0, fate);
    }
  }

  /** With no failures, exactly the finished enabled entries are delivered. */
  lemma {:induction false} ReliableDeliversAll(app: App, evs: seq<Event>, fate: Fate)
    requires AppOk(app) && EventsOk(evs) && Reliable(fate)
    ensures var s := Reach(app, evs, fate); forall k: nat :: Finished(s, k) <==> k in s.delivered
  {
    if evs != [] {
      EventsOkFront(evs);
      hide EventsOk, EventOk, Inv, Apply, ContextsStep, AllLogs, Frames, Finished;
      var n := |evs| - 1;
      var s, e := Reach(app, evs[..n], fate), evs[n];
      ReachInv(app, evs[..n], fate);
      ReachEntries(app, evs[..n], fate);
      ReliableDeliversAll(app, evs[..n], fate);
      StepContexts(app, s, e, n, fate);
      StepReliable(app, s, e, n, fate);
    }
    ReachDelivered(app, evs, fate);
  }

  lemma StepReliable(app: App, s: State, e: Event, at: nat, fate: Fate)
    requires Reliable(fate) && ContextsStep(s, e, Apply(app, s, e, at, fate))
    requires forall k | 0 <= k < |s.entries| :: s.entries[k].pos < |s.conn.contexts|
    requires forall k: nat :: Finished(s, k) ==> k in s.delivered
    ensures var r := Apply(app, s, e, at, fate); forall k: nat :: Finished(r, k) ==> k in r.delivered
  {
    hide RegisterCtx, SendLogEntry, PayloadOf, Run;
    if e.Finish? && Open(s, e.entry) {
      var sending := Ended(s.entries[e.entry], e.trailer, e.tmsp, at);
      SendLogConnected(app, s.conn, sending.pos, OutgoingOf(sending), e.tmsp, fate);
    }
  }
}
