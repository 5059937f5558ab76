/**
 The session protocol between the application and the DLT daemon: what each operation of the connection
 does to the registered contexts and to the messages delivered on the current connection.

 `fate` answers, in order, every open and every write to a connected daemon: true means success.
 A write that fails closes the connection and ends the session; a write is delivered whole or not at all.
 */
module Session {
  import opened Bytes
  import opened DltProtocol
  import opened Messages
  import ControlInput

  type Fate = nat -> bool

  /** The application's ids; its description already includes the process id. */
  datatype App = App(apid: Id, pid: nat, description: bytes)

  datatype Ctx = Ctx(id: Id, description: bytes, level: int, header: Header, created: byte)

  datatype Conn = Conn(contexts: seq<Ctx>, connected: bool, session: seq<Message>, closed: seq<seq<Message>>, tick: nat)

  const START := Conn([], false, [], [], 0)

  /** A log entry comes from a context registered at a position, or from one that was never registered. */
  datatype Sender = Registered(pos: nat) | Unregistered(header: Header)

  /** What a finished entry contributes to its message. */
  datatype Outgoing = Outgoing(mcnt: byte, level: int, noar: byte, payload: bytes)

  function AppMessage(app: App): Message {
    RegisterApp(app.apid, app.pid, app.description)
  }

  function ContextMessage(app: App, x: Ctx, pos: nat): Message {
    RegisterContext(app.apid, x.id, pos, NOT_SET, NOT_SET, app.pid, x.description)
  }

  function LogMessage(app: App, header: Header, log: Outgoing, tmsp: nat): Message {
    SendLog(log.mcnt, app.pid, tmsp, log.level, log.noar, header.apid, header.ctid, log.payload)
  }

  function Deliver(c: Conn, m: Message, fate: Fate): Conn {
    if !c.connected then c
    else if fate(c.tick) then c.(session := c.session + [m], tick := c.tick + 1)
    else c.(connected := false, session := [], closed := c.closed + [c.session], tick := c.tick + 1)
  }

  /** Fills in the header of the context, then sends its registration. */
  function SendRegistration(app: App, c: Conn, pos: nat, fate: Fate): (r: Conn)
    requires pos < |c.contexts|
    ensures |r.contexts| == |c.contexts|
  {
    var x := c.contexts[pos];
    Deliver(c.(contexts := c.contexts[pos := x.(header := Header(app.apid, x.id))]), ContextMessage(app, x, pos), fate)
  }

  function SendRegistrations(app: App, c: Conn, pos: nat, fate: Fate): (r: Conn)
    requires pos <= |c.contexts|
    ensures |r.contexts| == |c.contexts|
    decreases |c.contexts| - pos
  {
    if pos == |c.contexts| then c else SendRegistrations(app, SendRegistration(app, c, pos, fate), pos + 1, fate)
  }

  function InitDaemonConnection(app: App, c: Conn, fate: Fate): (r: Conn)
    ensures |r.contexts| == |c.contexts|
  {
    if c.connected then c
    else if !fate(c.tick) then c.(tick := c.tick + 1)
    else
      var linked := c.(connected := true, session := [], tick := c.tick + 1);
      SendRegistrations(app, Deliver(linked, AppMessage(app), fate), 0, fate)
  }

  function RegisterCtx(app: App, c: Conn, x: Ctx, fate: Fate): (r: Conn)
    ensures |r.contexts| == |c.contexts| + 1
  {
    var tried := InitDaemonConnection(app, c.(contexts := c.contexts + [x]), fate);
    if tried.connected then SendRegistration(app, tried, |c.contexts|, fate) else tried
  }

  function HeaderOf(c: Conn, who: Sender): Header
    requires who.Registered? ==> who.pos < |c.contexts|
  {
    if who.Registered? then c.contexts[who.pos].header else who.header
  }

  function SendLogEntry(app: App, c: Conn, who: Sender, log: Outgoing, tmsp: nat, fate: Fate): Conn
    requires who.Registered? ==> who.pos < |c.contexts|
  {
    var tried := InitDaemonConnection(app, c, fate);
    if tried.connected then Deliver(tried, LogMessage(app, HeaderOf(tried, who), log, tmsp), fate) else tried
  }

  function ApplyLogLevel(c: Conn, pos: nat, level: int): Conn {
    if pos < |c.contexts| then c.(contexts := c.contexts[pos := c.contexts[pos].(level := level)]) else c
  }

  function ApplyChanges(c: Conn, changes: seq<ControlInput.LevelChange>): Conn
    decreases |changes|
  {
    if changes == [] then c
    else ApplyChanges(ApplyLogLevel(c, changes[0].pos, changes[0].level), changes[1..])
  }

  lemma ApplyFirst(c: Conn, first: ControlInput.LevelChange, others: seq<ControlInput.LevelChange>)
    ensures ApplyChanges(c, []) == c
    ensures ApplyChanges(c, [first] + others) == ApplyChanges(ApplyLogLevel(c, first.pos, first.level), others)
  {
    assert ([first] + others)[1..] == others;
  }

  // ---- the daemon's view -------------------------------------------------------------------

  /** Position -> context id, as a daemon that folds the registrations of a session has it. */
  function Table(ms: seq<Message>): map<nat, Id> {
    if ms == [] then map[]
    else
      var t, last := Table(ms[..|ms| - 1]), ms[|ms| - 1];
      if last.RegisterContext? then t[last.pos := last.ctid] else t
  }

  /** The same table as the application has it. */
  function TableOf(contexts: seq<Ctx>): map<nat, Id> {
    map i: nat | i < |contexts| :: contexts[i].id
  }

  /** Every log message names the application and a context that the session registered before it. */
  ghost predicate GoodSession(app: App, ms: seq<Message>) {
    && (forall m <- ms :: WellFormed(m))
    && (ms != [] ==> ms[0] == AppMessage(app))
    && (forall j | 0 <= j < |ms| && ms[j].SendLog? :: ms[j].apid == app.apid && ms[j].ctid in Table(ms[..j]).Values)
  }

  ghost predicate AppOk(app: App) {
    app.pid < UINT32 && |app.description| < 1024
  }

  ghost predicate ContextsOk(contexts: seq<Ctx>) {
    |contexts| < 0x8000_0000 && forall x <- contexts :: |x.description| < UINT32
  }

  ghost predicate HeadersFilled(app: App, contexts: seq<Ctx>, n: nat)
    requires n <= |contexts|
  {
    forall i | 0 <= i < n :: contexts[i].header == Header(app.apid, contexts[i].id)
  }

  ghost predicate SessionsGood(app: App, c: Conn) {
    && GoodSession(app, c.session)
    && (forall s <- c.closed :: GoodSession(app, s))
    && (!c.connected ==> c.session == [])
  }

  /** Connected implies: the session has registered exactly the application's table, and all headers are filled. */
  ghost predicate Synced(app: App, c: Conn, n: nat)
    requires n <= |c.contexts|
  {
    c.connected ==> c.session != [] && Table(c.session) == TableOf(c.contexts[..n]) && HeadersFilled(app, c.contexts, n)
  }

  ghost predicate Inv(app: App, c: Conn) {
    AppOk(app) && ContextsOk(c.contexts) && SessionsGood(app, c) && Synced(app, c, |c.contexts|)
  }

  /** An operation leaves ids, descriptions, levels and counters of the contexts alone, and their positions. */
  ghost predicate SameContexts(a: seq<Ctx>, b: seq<Ctx>) {
    |a| == |b| && forall i | 0 <= i < |a| :: b[i] == a[i].(header := b[i].header)
  }

  // ---- every operation keeps the invariant -------------------------------------------------

  lemma {:induction false} GoodAppend(app: App, ms: seq<Message>, m: Message)
    requires GoodSession(app, ms) && WellFormed(m)
    requires ms == [] ==> m == AppMessage(app)
    requires m.SendLog? ==> m.apid == app.apid && m.ctid in Table(ms).Values
    ensures GoodSession(app, ms + [m])
    ensures Table(ms + [m]) == if m.RegisterContext? then Table(ms)[m.pos := m.ctid] else Table(ms)
  {
    hide WellFormed;
    var all := ms + [m];
    assert all[..|ms|] == ms;
    forall j | 0 <= j < |all| && all[j].SendLog?
      ensures all[j].apid == app.apid && all[j].ctid in Table(all[..j]).Values
    {
      if j < |ms| { assert all[..j] == ms[..j]; }
    }
  }

  lemma DeliverGood(app: App, c: Conn, m: Message, fate: Fate)
    requires SessionsGood(app, c) && WellFormed(m)
    requires c.connected && c.session == [] ==> m == AppMessage(app)
    requires c.connected && m.SendLog? ==> m.apid == app.apid && m.ctid in Table(c.session).Values
    ensures var r := Deliver(c, m, fate);
      && SessionsGood(app, r) && r.contexts == c.contexts
      && (r.connected ==> c.connected && r.session == c.session + [m])
      && (r.connected && m.RegisterContext? ==> Table(r.session) == Table(c.session)[m.pos := m.ctid])
      && (r.connected && !m.RegisterContext? ==> Table(r.session) == Table(c.session))
  {
    hide WellFormed;
    if c.connected {
      GoodAppend(app, c.session, m);
      hide GoodSession, Table;
    }
  }

  lemma SendRegistrationKeeps(app: App, c: Conn, pos: nat, n: nat, fate: Fate)
    requires AppOk(app) && ContextsOk(c.contexts) && SessionsGood(app, c)
    requires n <= |c.contexts| && pos <= n && pos < |c.contexts| && Synced(app, c, n)
    ensures var r := SendRegistration(app, c, pos, fate);
      && SessionsGood(app, r) && SameContexts(c.contexts, r.contexts) && ContextsOk(r.contexts)
      && Synced(app, r, if pos == n then n + 1 else n)
  {
    hide GoodSession, Table;
    var x := c.contexts[pos];
    var filled := c.(contexts := c.contexts[pos := x.(header := Header(app.apid, x.id))]);
    DeliverGood(app, filled, ContextMessage(app, x, pos), fate);
    var n' := if pos == n then n + 1 else n;
    assert TableOf(filled.contexts[..n']) == TableOf(c.contexts[..n])[pos := x.id];
  }

  lemma {:induction false} SendRegistrationsKeeps(app: App, c: Conn, pos: nat, fate: Fate)
    requires AppOk(app) && ContextsOk(c.contexts) && SessionsGood(app, c)
    requires pos <= |c.contexts| && Synced(app, c, pos)
    ensures var r := SendRegistrations(app, c, pos, fate);
      && SessionsGood(app, r) && SameContexts(c.contexts, r.contexts) && ContextsOk(r.contexts)
      && Synced(app, r, |r.contexts|)
    decreases |c.contexts| - pos
  {
    if pos < |c.contexts| {
      hide SendRegistration, SessionsGood, Synced, ContextsOk, SameContexts;
      var sent := SendRegistration(app, c, pos, fate);
      SendRegistrationKeeps(app, c, pos, pos, fate);
      SendRegistrationsKeeps(app, sent, pos + 1, fate);
      SameTwice(c.contexts, sent.contexts, SendRegistrations(app, sent, pos + 1, fate).contexts);
    } else {
      SameTwice(c.contexts, c.contexts, c.contexts);
    }
  }

  lemma SameTwice(a: seq<Ctx>, b: seq<Ctx>, c: seq<Ctx>)
    ensures SameContexts(a, a) && (SameContexts(a, b) && SameContexts(b, c) ==> SameContexts(a, c))
  {
  }

  lemma OpenedSynced(app: App, c: Conn, fate: Fate)
    requires AppOk(app) && SessionsGood(app, c) && !c.connected
    ensures var started := Deliver(c.(connected := true, session := [], tick := c.tick + 1), AppMessage(app), fate);
      SessionsGood(app, started) && started.contexts == c.contexts && Synced(app, started, 0)
  {
    hide GoodSession;
    var linked := c.(connected := true, session := [], tick := c.tick + 1);
    DeliverGood(app, linked, AppMessage(app), fate);
    assert Table([]) == TableOf(c.contexts[..0]);
  }

  lemma InitKeeps(app: App, c: Conn, fate: Fate)
    requires AppOk(app) && ContextsOk(c.contexts) && SessionsGood(app, c)
    requires Synced(app, c, |c.contexts|)
    ensures var r := InitDaemonConnection(app, c, fate); Inv(app, r) && SameContexts(c.contexts, r.contexts)
  {
    hide GoodSession, Table, TableOf, HeadersFilled, SendRegistrations;
    if !c.connected && fate(c.tick) {
      hide SessionsGood, Synced, Deliver;
      OpenedSynced(app, c, fate);
      SendRegistrationsKeeps(app,
        Deliver(c.(connected := true, session := [], tick := c.tick + 1), AppMessage(app), fate), 0, fate);
    }
  }

  lemma RegisterKeeps(app: App, c: Conn, x: Ctx, fate: Fate)
    requires Inv(app, c) && ContextsOk(c.contexts + [x])
    ensures var r := RegisterCtx(app, c, x, fate); Inv(app, r) && SameContexts(c.contexts + [x], r.contexts)
  {
    var added, n := c.(contexts := c.contexts + [x]), |c.contexts|;
    assert SessionsGood(app, added) && added.contexts[..n] == c.contexts[..n];
    assert Synced(app, added, n);
    hide GoodSession, Table, TableOf, HeadersFilled, SessionsGood, SendRegistration;
    if c.connected {
      SendRegistrationKeeps(app, added, n, n, fate);
    } else {
      assert Synced(app, added, n + 1);
      hide InitDaemonConnection, Synced, ContextsOk;
      InitKeeps(app, added, fate);
      var tried := InitDaemonConnection(app, added, fate);
      if tried.connected {
        SendRegistrationKeeps(app, tried, n, n + 1, fate);
      } else {
        NotConnectedSynced(app, tried);
      }
    }
  }

  lemma NotConnectedSynced(app: App, c: Conn)
    requires !c.connected
    ensures Synced(app, c, |c.contexts|)
  {
  }

  lemma SendLogKeeps(app: App, c: Conn, pos: nat, log: Outgoing, tmsp: nat, fate: Fate)
    requires Inv(app, c) && pos < |c.contexts|
    requires tmsp < UINT32 && -1 <= log.level <= 6 && LOG_HEADERS_SIZE + |log.payload| < 0x1_0000
    ensures var r := SendLogEntry(app, c, Registered(pos), log, tmsp, fate);
      Inv(app, r) && SameContexts(c.contexts, r.contexts)
  {
    hide GoodSession, Table;
    InitKeeps(app, c, fate);
    var tried := InitDaemonConnection(app, c, fate);
    if tried.connected {
      hide InitDaemonConnection;
      assert tried.contexts[..|tried.contexts|] == tried.contexts;
      assert pos in Table(tried.session) && Table(tried.session)[pos] == tried.contexts[pos].id;
      DeliverGood(app, tried, LogMessage(app, HeaderOf(tried, Registered(pos)), log, tmsp), fate);
    }
  }

  lemma ApplyLogLevelKeeps(app: App, c: Conn, pos: nat, level: int)
    requires Inv(app, c)
    ensures Inv(app, ApplyLogLevel(c, pos, level))
  {
    hide GoodSession, Table;
    var r := ApplyLogLevel(c, pos, level);
    assert SessionsGood(app, r) && ContextsOk(r.contexts);
    hide SessionsGood, ContextsOk;
    assert r.contexts[..|r.contexts|] == r.contexts && c.contexts[..|c.contexts|] == c.contexts;
    assert TableOf(r.contexts) == TableOf(c.contexts);
  }

  // ---- what the registrations say ----------------------------------------------------------

  /** A registration names the application and its process, and for a context its id, description and no levels. */
  ghost predicate OwnRegistration(app: App, contexts: seq<Ctx>, m: Message) {
    && (m.RegisterApp? ==> m.apid == app.apid && m.pid == app.pid && m.description == app.description)
    && (m.RegisterContext? ==>
          && m.pos < |contexts| && m.ctid == contexts[m.pos].id && m.description == contexts[m.pos].description
          && m.apid == app.apid && m.pid == app.pid && m.level == -2 && m.traceStatus == -2)
  }

  ghost predicate OwnSession(app: App, contexts: seq<Ctx>, ms: seq<Message>) {
    forall m <- ms :: OwnRegistration(app, contexts, m)
  }

  /** In all sessions, present and past. */
  ghost predicate OwnSessions(app: App, c: Conn) {
    OwnSession(app, c.contexts, c.session) && forall ms <- c.closed :: OwnSession(app, c.contexts, ms)
  }

  /** Contexts keep their places, ids and descriptions. */
  ghost predicate Extends(a: seq<Ctx>, b: seq<Ctx>) {
    |a| <= |b| && forall i | 0 <= i < |a| :: b[i].id == a[i].id && b[i].description == a[i].description
  }

  lemma OwnExtended(app: App, c: Conn, contexts: seq<Ctx>)
    requires OwnSessions(app, c) && Extends(c.contexts, contexts)
    ensures OwnSessions(app, c.(contexts := contexts))
  {
    OwnSessionExtended(app, c.contexts, contexts, c.session);
    forall ms <- c.closed ensures OwnSession(app, contexts, ms) {
      OwnSessionExtended(app, c.contexts, contexts, ms);
    }
  }

  lemma OwnSessionExtended(app: App, a: seq<Ctx>, b: seq<Ctx>, ms: seq<Message>)
    requires OwnSession(app, a, ms) && Extends(a, b)
    ensures OwnSession(app, b, ms)
  {
    forall m <- ms ensures OwnRegistration(app, b, m) {
      assert OwnRegistration(app, a, m);
    }
  }

  lemma DeliverOwn(app: App, c: Conn, m: Message, fate: Fate)
    requires OwnSessions(app, c) && OwnRegistration(app, c.contexts, m)
    ensures OwnSessions(app, Deliver(c, m, fate)) && Deliver(c, m, fate).contexts == c.contexts
  {
    hide OwnRegistration;
  }

  lemma SendRegistrationOwn(app: App, c: Conn, pos: nat, fate: Fate)
    requires OwnSessions(app, c) && pos < |c.contexts|
    ensures var r := SendRegistration(app, c, pos, fate); OwnSessions(app, r) && Extends(c.contexts, r.contexts)
  {
    hide OwnSessions, Deliver;
    var x := c.contexts[pos];
    var filled := c.contexts[pos := x.(header := Header(app.apid, x.id))];
    OwnExtended(app, c, filled);
    DeliverOwn(app, c.(contexts := filled), ContextMessage(app, x, pos), fate);
  }

  lemma {:induction false} SendRegistrationsOwn(app: App, c: Conn, pos: nat, fate: Fate)
    requires OwnSessions(app, c) && pos <= |c.contexts|
    ensures var r := SendRegistrations(app, c, pos, fate); OwnSessions(app, r) && Extends(c.contexts, r.contexts)
    decreases |c.contexts| - pos
  {
    hide OwnSessions, SendRegistration;
    if pos < |c.contexts| {
      SendRegistrationOwn(app, c, pos, fate);
      SendRegistrationsOwn(app, SendRegistration(app, c, pos, fate), pos + 1, fate);
    }
  }

  lemma InitOwn(app: App, c: Conn, fate: Fate)
    requires OwnSessions(app, c)
    ensures var r := InitDaemonConnection(app, c, fate); OwnSessions(app, r) && Extends(c.contexts, r.contexts)
  {
    hide SendRegistrations;
    if !c.connected && fate(c.tick) {
      hide Deliver;
      var linked := c.(connected := true, session := [], tick := c.tick + 1);
      DeliverOwn(app, linked, AppMessage(app), fate);
      SendRegistrationsOwn(app, Deliver(linked, AppMessage(app), fate), 0, fate);
    }
  }

  lemma RegisterOwn(app: App, c: Conn, x: Ctx, fate: Fate)
    requires OwnSessions(app, c)
    ensures var r := RegisterCtx(app, c, x, fate); OwnSessions(app, r) && Extends(c.contexts + [x], r.contexts)
  {
    hide OwnSessions, InitDaemonConnection, SendRegistration;
    var added := c.(contexts := c.contexts + [x]);
    OwnExtended(app, c, c.contexts + [x]);
    InitOwn(app, added, fate);
    var tried := InitDaemonConnection(app, added, fate);
    if tried.connected { SendRegistrationOwn(app, tried, |c.contexts|, fate); }
  }

  lemma SendLogOwn(app: App, c: Conn, who: Sender, log: Outgoing, tmsp: nat, fate: Fate)
    requires OwnSessions(app, c) && (who.Registered? ==> who.pos < |c.contexts|)
    ensures var r := SendLogEntry(app, c, who, log, tmsp, fate); OwnSessions(app, r) && Extends(c.contexts, r.contexts)
  {
    hide OwnSessions, InitDaemonConnection, Deliver;
    InitOwn(app, c, fate);
    var tried := InitDaemonConnection(app, c, fate);
    if tried.connected { DeliverOwn(app, tried, LogMessage(app, HeaderOf(tried, who), log, tmsp), fate); }
  }

  lemma SendLogLast(app: App, c: Conn, who: Sender, log: Outgoing, tmsp: nat, fate: Fate)
    requires who.Registered? ==> who.pos < |c.contexts|
    ensures var r := SendLogEntry(app, c, who, log, tmsp, fate);
      r.connected ==>
        r.session != [] && r.session[|r.session| - 1].SendLog? && r.session[|r.session| - 1].payload == log.payload
  {
    hide InitDaemonConnection;
  }

  /** The registrations of the contexts from `pos` on, in order. */
  function Announced(app: App, contexts: seq<Ctx>, pos: nat): seq<Message>
    requires pos <= |contexts|
    decreases |contexts| - pos
  {
    if pos == |contexts| then []
    else
      var x := contexts[pos];
      [RegisterContext(app.apid, x.id, pos, -2, -2, app.pid, x.description)] + Announced(app, contexts, pos + 1)
  }

  lemma {:induction false} AnnouncedSame(app: App, a: seq<Ctx>, b: seq<Ctx>, pos: nat)
    requires pos <= |a| == |b| && Extends(a, b)
    ensures Announced(app, a, pos) == Announced(app, b, pos)
    decreases |a| - pos
  {
    if pos < |a| { AnnouncedSame(app, a, b, pos + 1); }
  }

  lemma {:induction false} SendRegistrationsExact(app: App, c: Conn, pos: nat, fate: Fate)
    requires pos <= |c.contexts|
    ensures var r := SendRegistrations(app, c, pos, fate);
      r.connected ==> c.connected && r.session == c.session + Announced(app, c.contexts, pos)
    decreases |c.contexts| - pos
  {
    if pos < |c.contexts| {
      var sent := SendRegistration(app, c, pos, fate);
      SendRegistrationsExact(app, sent, pos + 1, fate);
      AnnouncedSame(app, sent.contexts, c.contexts, pos + 1);
    }
  }

  /** A session that is opened starts with the application and then all its contexts, in the order of their places. */
  lemma OpenedSession(app: App, c: Conn, fate: Fate)
    requires !c.connected
    ensures var r := InitDaemonConnection(app, c, fate);
      r.connected ==>
        r.session == [RegisterApp(app.apid, app.pid, app.description)] + Announced(app, c.contexts, 0)
  {
    hide SendRegistrations, Announced;
    if fate(c.tick) {
      var linked := c.(connected := true, session := [], tick := c.tick + 1);
      SendRegistrationsExact(app, Deliver(linked, AppMessage(app), fate), 0, fate);
    }
  }

  // ---- how often a context is registered ---------------------------------------------------

  /** How many registrations of the context at `pos` are among the messages. */
  function Times(ms: seq<Message>, pos: nat): nat {
    if ms == [] then 0
    else
      var last := ms[|ms| - 1];
      Times(ms[..|ms| - 1], pos) + if last.RegisterContext? && last.pos == pos then 1 else 0
  }

  lemma TimesAppend(ms: seq<Message>, m: Message, pos: nat)
    ensures Times(ms + [m], pos) == Times(ms, pos) + if m.RegisterContext? && m.pos == pos then 1 else 0
  {
    assert (ms + [m])[..|ms|] == ms;
  }

  lemma {:induction false} TimesInTable(ms: seq<Message>, pos: nat)
    ensures pos in Table(ms) <==> Times(ms, pos) > 0
  {
    if ms != [] { TimesInTable(ms[..|ms| - 1], pos); }
  }

  /** The contexts from `first` on are registered once more each. */
  lemma {:induction false} TimesSendRegistrations(app: App, c: Conn, first: nat, pos: nat, fate: Fate)
    requires first <= |c.contexts|
    ensures var r := SendRegistrations(app, c, first, fate);
      r.connected ==>
        c.connected && Times(r.session, pos) == Times(c.session, pos) + if first <= pos < |c.contexts| then 1 else 0
    decreases |c.contexts| - first
  {
    if first < |c.contexts| {
      TimesSendRegistrations(app, SendRegistration(app, c, first, fate), first + 1, pos, fate);
      TimesAppend(c.session, ContextMessage(app, c.contexts[first], first), pos);
    }
  }

  /** A connection that is opened registers every context once; an open one sends nothing. */
  lemma TimesInit(app: App, c: Conn, pos: nat, fate: Fate)
    requires pos < |c.contexts|
    ensures var r := InitDaemonConnection(app, c, fate);
      r.connected ==> Times(r.session, pos) == if c.connected then Times(c.session, pos) else 1
  {
    hide SendRegistrations, Times;
    if !c.connected && fate(c.tick) {
      var linked := c.(connected := true, session := [], tick := c.tick + 1);
      TimesSendRegistrations(app, Deliver(linked, AppMessage(app), fate), 0, pos, fate);
      TimesAppend([], AppMessage(app), pos);
      assert [] + [AppMessage(app)] == [AppMessage(app)];
      NoTimes(pos);
    }
  }

  lemma NoTimes(pos: nat)
    ensures Times([], pos) == 0
  {
  }

  /**
   The registration of a new context is sent once if the connection was open before, and twice if this
   opens it. The other contexts are registered once more exactly if this opens the connection.
   */
  lemma RegistrationsSent(app: App, c: Conn, x: Ctx, fate: Fate)
    requires Inv(app, c) && ContextsOk(c.contexts + [x])
    ensures var r := RegisterCtx(app, c, x, fate);
      r.connected ==>
        && Times(r.session, |c.contexts|) == (if c.connected then 1 else 2)
        && forall pos | 0 <= pos < |c.contexts| ::
             Times(r.session, pos) == if c.connected then Times(c.session, pos) else 1
  {
    hide GoodSession, Table, Times, InitDaemonConnection;
    var n, added := |c.contexts|, c.(contexts := c.contexts + [x]);
    var tried, r := InitDaemonConnection(app, added, fate), RegisterCtx(app, c, x, fate);
    if r.connected {
      forall pos | 0 <= pos <= n
        ensures Times(r.session, pos) ==
          (if c.connected then Times(c.session, pos) else 1) + if pos == n then 1 else 0
      {
        TimesInit(app, added, pos, fate);
        TimesAppend(tried.session, ContextMessage(app, tried.contexts[n], n), pos);
      }
      if c.connected { NotRegistered(app, c); }
    }
  }

  /** The session registers every context once, but the one at `twice`, if there is one, twice. */
  ghost predicate OnceBut(c: Conn, twice: int) {
    forall pos | 0 <= pos < |c.contexts| :: Times(c.session, pos) == if pos == twice then 2 else 1
  }

  /** A session sends one registration too many at most, for the context whose registration opened it. */
  ghost predicate RegisteredOnce(c: Conn) {
    c.connected ==> exists twice: int :: OnceBut(c, twice)
  }

  lemma RegisterOnce(app: App, c: Conn, x: Ctx, fate: Fate)
    requires Inv(app, c) && ContextsOk(c.contexts + [x]) && RegisteredOnce(c)
    ensures RegisteredOnce(RegisterCtx(app, c, x, fate))
  {
    hide Inv, ContextsOk, Times, RegisterCtx;
    RegistrationsSent(app, c, x, fate);
    var r, n := RegisterCtx(app, c, x, fate), |c.contexts|;
    if r.connected {
      if c.connected {
        var twice :| OnceBut(c, twice);
        assert OnceBut(r, if twice < n then twice else -1);
      } else {
        assert OnceBut(r, n);
      }
    }
  }

  lemma SendLogOnce(app: App, c: Conn, pos: nat, log: Outgoing, tmsp: nat, fate: Fate)
    requires pos < |c.contexts| && RegisteredOnce(c)
    ensures RegisteredOnce(SendLogEntry(app, c, Registered(pos), log, tmsp, fate))
  {
    hide InitDaemonConnection, Times;
    var tried, r := InitDaemonConnection(app, c, fate), SendLogEntry(app, c, Registered(pos), log, tmsp, fate);
    if r.connected {
      forall p: nat | p < |c.contexts| ensures Times(r.session, p) == if c.connected then Times(c.session, p) else 1 {
        TimesInit(app, c, p, fate);
        TimesAppend(tried.session, LogMessage(app, HeaderOf(tried, Registered(pos)), log, tmsp), p);
      }
      if c.connected {
        var twice :| OnceBut(c, twice);
        assert OnceBut(r, twice);
      } else {
        assert OnceBut(r, -1);
      }
    }
  }

  /** A position that no context has yet was never registered on the connection. */
  lemma NotRegistered(app: App, c: Conn)
    requires Inv(app, c) && c.connected
    ensures Times(c.session, |c.contexts|) == 0
  {
    hide GoodSession, Table, Times;
    TimesInTable(c.session, |c.contexts|);
  }

  /** The registration that opens the very first connection is followed by itself. */
  lemma RegisteredTwiceExample(app: App, x: Ctx, fate: Fate)
    requires fate(0) && fate(1) && fate(2) && fate(3)
    ensures RegisterCtx(app, START, x, fate).session ==
      [AppMessage(app), ContextMessage(app, x, 0), ContextMessage(app, x, 0)]
  {
    var linked := Conn([x], true, [AppMessage(app)], [], 2);
    var sent := SendRegistration(app, linked, 0, fate);
    assert SendRegistrations(app, linked, 0, fate) == SendRegistrations(app, sent, 1, fate) == sent;
    assert START.contexts + [x] == [x] && [] + [AppMessage(app)] == [AppMessage(app)];
  }

  /** A log entry of a context that was never registered opens the connection and goes out without ids. */
  lemma UnregisteredExample(app: App, log: Outgoing, tmsp: nat, fate: Fate)
    requires fate(0) && fate(1) && fate(2)
    ensures SendLogEntry(app, START, Unregistered(BLANK_HEADER), log, tmsp, fate).session ==
      [AppMessage(app), LogMessage(app, BLANK_HEADER, log, tmsp)]
  {
    assert [] + [AppMessage(app)] == [AppMessage(app)];
  }

  /**
   A log message carries the ids of its own context exactly when that context was registered, which the
   logging macros ensure by querying isEnabled first. A context that never was still has a blank header.
   */
  lemma OwnIdsIffRegistered(app: App, c: Conn, who: Sender, own: Header, log: Outgoing, tmsp: nat, fate: Fate)
    requires Inv(app, c) && own != BLANK_HEADER
    requires who.Registered? ==> who.pos < |c.contexts| && own == Header(app.apid, c.contexts[who.pos].id)
    requires who.Unregistered? ==> who.header == BLANK_HEADER
    ensures var r := SendLogEntry(app, c, who, log, tmsp, fate);
      r.connected ==>
        var sent := r.session[|r.session| - 1];
        sent.SendLog? && (Header(sent.apid, sent.ctid) == own <==> who.Registered?)
  {
    hide GoodSession, Table, InitDaemonConnection;
    InitKeeps(app, c, fate);
  }
}
