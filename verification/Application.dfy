/**
 A program that uses the DLT backend's objects. Each of its operations is recorded as events of Machine,
 and the objects are always in the state Machine reaches by them: what is proved there of every run holds
 of the objects.
 */
module Applications {
  import opened Bytes
  import opened DltProtocol
  import opened LogData
  import opened Daemon
  import opened Machine
  import ControlInput
  import Encoder
  import Messages
  import Payload
  import Session

  type GoodInfo = info: EntryInfo | SInt32(info.line) && SInt32(info.threadId) witness EntryInfo(None, -1, None, 0, [])

  /** The destructor's writes, as writes of Machine. */
  function GoodTrailer(info: GoodInfo, sourceInfo: bool, threadInfo: bool): (ws: seq<GoodWrite>)
    ensures ws == Trailer(info, sourceInfo, threadInfo)
  {
    Ranges();
    Trailer(info, sourceInfo, threadInfo)
  }

  class Application {
    const daemon: DaemonConnection
    ghost var events: seq<Event>

    /** The state Machine reaches by the events so far. */
    ghost function Model(): State
      reads this
    {
      Reach(daemon.app, events, daemon.fate)
    }

    ghost predicate Valid()
      reads this, daemon, daemon.contexts
    {
      daemon.Valid() && Model().conn == daemon.View()
    }

    /** `data` is the object of entry `k`, which is not finished yet. */
    ghost predicate Holds(data: DltLogData, k: nat)
      reads this, daemon, data, data.content
    {
      && k < |Model().entries|
      && var e := Model().entries[k];
      && data.Valid() && data.View() == Encoder.Run(e.writes) && e.end == None
      && data.enabled == e.enabled && data.dltLogLevel == e.level && data.messageCount == e.counter
      && e.pos < |daemon.contexts| && data.context == daemon.contexts[e.pos]
    }

    /** An operation on entry `k` leaves the other entries as they are. */
    twostate predicate OthersSame(k: nat)
      reads this
    {
      && |old(Model()).entries| <= |Model().entries|
      && forall j | 0 <= j < |old(Model()).entries| && j != k :: Model().entries[j] == old(Model()).entries[j]
    }

    constructor (app: Session.App, fate: Session.Fate)
      requires Session.AppOk(app)
      ensures Valid() && events == [] && daemon.app == app && daemon.fate == fate
      ensures fresh(daemon) && daemon.contexts == []
    {
      daemon := new DaemonConnection(app, fate);
      events := [];
    }

    method Register(id: Id, description: bytes)
      requires Valid() && |daemon.contexts| + 1 < 0x8000_0000 && |description| < Messages.UINT32
      modifies this`events, daemon, (set x <- daemon.contexts)`header
      ensures Valid() && events == old(events) + [Event.Register(id, description)]
      ensures Model().entries == old(Model()).entries
      ensures |daemon.contexts| == |old(daemon.contexts)| + 1 && old(daemon.contexts) <= daemon.contexts
      ensures var context := daemon.contexts[|old(daemon.contexts)|];
        fresh(context) && context.id == id && context.description == description
    {
      hide DaemonConnection.Valid, DaemonConnection.View, Session.RegisterCtx, Reach;
      ReachAppend(daemon.app, events, Event.Register(id, description), daemon.fate);
      var context := new DltContext(id, description);
      var _ := daemon.RegisterContext(context);
      events := events + [Event.Register(id, description)];
    }

    method ReceiveLevel(pos: nat, level: byte)
      requires Valid()
      modifies this`events, (set x <- daemon.contexts)`activeLogLevel
      ensures Valid() && events == old(events) + [LevelMessage(pos, level)]
      ensures Model().entries == old(Model()).entries
    {
      hide DaemonConnection.Valid, DaemonConnection.View, Session.ApplyLogLevel, Reach;
      ReachAppend(daemon.app, events, LevelMessage(pos, level), daemon.fate);
      var _ := daemon.ApplyLogLevel(pos, level);
      events := events + [LevelMessage(pos, level)];
    }

    /** A buffer from the daemon is as good as the level messages in it, up to where its meaning ends. */
    method ReceiveBuffer(buffer: bytes, byteCount: nat) returns (ok: bool)
      requires Valid() && byteCount <= |buffer|
      modifies this`events, (set x <- daemon.contexts)`activeLogLevel
      ensures Valid() && ok == ControlInput.Parse(buffer, byteCount).defined
      ensures events == old(events) + LevelMessages(ControlInput.Parse(buffer, byteCount).changes)
      ensures Model().entries == old(Model()).entries
    {
      hide DaemonConnection.Valid, DaemonConnection.View, Session.ApplyChanges, LevelMessages, Reach;
      hide ControlInput.Parse;
      ghost var changes := ControlInput.Parse(buffer, byteCount).changes;
      ReachLevelMessages(daemon.app, events, changes, daemon.fate);
      ok := daemon.HandleIncomingMessage(buffer, byteCount);
      events := events + LevelMessages(changes);
    }

    method Create(pos: nat, logLevel: LogLevel) returns (data: DltLogData, ghost k: nat)
      requires Valid() && pos < |daemon.contexts|
      modifies this`events, {daemon.contexts[pos]}`messageCount
      ensures Valid() && events == old(events) + [Event.Create(pos, logLevel)]
      ensures k == |old(Model()).entries| && |Model().entries| == k + 1 && OthersSame(k)
      ensures Holds(data, k) && fresh(data) && fresh(data.content) && data.context == daemon.contexts[pos]
      ensures
        if logLevel == All || logLevel == Invalid then data.dltLogLevel == -1
        else
          && 0 <= data.dltLogLevel < 7
          && [None_, Fatal, Error, Warning, Info, Debug, Verbose][data.dltLogLevel] == logLevel
    {
      hide Holds, DaemonConnection.Valid, DaemonConnection.View, DltLogData.Valid, DltLogData.View, Reach;
      hide Machine.Apply, CreateEntry, DltLogLevel;
      CreateFacts(daemon.app, Model(), pos, logLevel, |events|, daemon.fate);
      DltLevelByPlace(logLevel);
      ReachAppend(daemon.app, events, Event.Create(pos, logLevel), daemon.fate);
      k := |Model().entries|;
      data := daemon.CreateLog(pos, logLevel);
      events := events + [Event.Create(pos, logLevel)];
      NewHolds(data, k);
    }

    lemma NewHolds(data: DltLogData, k: nat)
      requires k < |Model().entries| && Model().entries[k].pos < |daemon.contexts|
      requires data.Valid() && data.View() == Encoder.EMPTY && data.context == daemon.contexts[Model().entries[k].pos]
      requires var e := Model().entries[k];
        e == Entry(e.pos, data.dltLogLevel, data.enabled, data.messageCount, e.createdAt, [], None)
      ensures Holds(data, k)
    {
      hide Reach;
      assert Encoder.Run([]) == Encoder.EMPTY;
    }

    method Write(data: DltLogData, ghost k: nat, w: GoodWrite)
      requires Valid() && Holds(data, k)
      modifies this`events, data, data.content
      ensures Valid() && Holds(data, k) && events == old(events) + [WriteArgument(k, w)]
      ensures data.View() == if data.enabled then Encoder.Step(old(data.View()), w) else old(data.View())
      ensures |Model().entries| == |old(Model()).entries| && OthersSame(k)
    {
      hide DaemonConnection.Valid, DaemonConnection.View, DltLogData.View, Encoder.Valid, Encoder.RunFrom;
      hide Encoder.Step, Reach;
      ReachAppend(daemon.app, events, WriteArgument(k, w), daemon.fate);
      Encoder.RunFromStep(Encoder.EMPTY, Model().entries[k].writes, w);
      events := events + [WriteArgument(k, w)];
      if data.enabled {
        data.Write(w);
      }
    }

    method Finish(data: DltLogData, ghost k: nat, info: GoodInfo, sourceInfo: bool, threadInfo: bool, tmsp: nat)
      requires Valid() && Holds(data, k) && tmsp < Messages.UINT32
      modifies this`events
      modifies daemon`connected, daemon`tick, daemon`wire, daemon`session, daemon`closed,
        (set x <- daemon.contexts)`header
      modifies data`contentSize, data`argsCount, data`isFull, data`args, data.content
      ensures Valid() && events == old(events) + [Event.Finish(k, GoodTrailer(info, sourceInfo, threadInfo), tmsp)]
      ensures |Model().entries| == |old(Model()).entries| && OthersSame(k)
      ensures Model().entries[k].enabled ==> Model().entries[k].end.Some?
    {
      hide DaemonConnection.Valid, DaemonConnection.View, DltLogData.Valid, Encoder.RunFrom;
      hide Session.SendLogEntry, Trailer, Reach;
      ghost var e, trailer := Model().entries[k], GoodTrailer(info, sourceInfo, threadInfo);
      assert daemon.SenderOf(data.context) == Session.Registered(e.pos) by { RegisteredSender(daemon, e.pos); }
      ReachAppend(daemon.app, events, Event.Finish(k, trailer, tmsp), daemon.fate);
      Encoder.RunFromRunFrom(Encoder.EMPTY, e.writes, trailer);
      events := events + [Event.Finish(k, trailer, tmsp)];
      daemon.Finish(data, info, sourceInfo, threadInfo, tmsp);
    }

    /** No context at that position, or no entry that is alive. */
    ghost predicate Idle(e: Event)
      reads this, daemon
    {
      && (e.Create? ==> e.pos >= |daemon.contexts|)
      && (e.WriteArgument? || e.Finish? ==> !Open(Model(), e.entry))
      && !e.Register? && !e.LevelMessage?
    }

    lemma IdleIsNothing(e: Event)
      requires Valid() && Idle(e)
      ensures Apply(daemon.app, Model(), e, |events|, daemon.fate) == Model()
    {
      hide Reach;
    }

    /** An event that changes nothing. */
    ghost method Skip(e: Event)
      requires Valid() && Idle(e)
      modifies this`events
      ensures Valid() && events == old(events) + [e] && Model() == old(Model())
    {
      hide DaemonConnection.Valid, DaemonConnection.View, Reach, Machine.Apply, Idle;
      IdleIsNothing(e);
      ReachAppend(daemon.app, events, e, daemon.fate);
      events := events + [e];
    }

    // ---- what the runs of Machine say about the objects --------------------------------------

    lemma RoomForContext(e: Event)
      requires Valid() && Session.AppOk(daemon.app) && EventsOk(events + [e])
      ensures EventOk(e) && (e.Register? ==> |daemon.contexts| + 1 < 0x8000_0000)
    {
      hide Reach, EventOk, Session.Inv, RegisteredIds;
      EventsOkFront(events + [e]);
      assert (events + [e])[..|events|] == events;
      ReachInv(daemon.app, events, daemon.fate);
    }

    /** The bytes on the daemon's FIFO decode to a well-ordered session of genuine messages. */
    ghost predicate Decodable()
      reads this, daemon, daemon.contexts
    {
      && Messages.DecodeStream(daemon.wire) == Some(daemon.session) && Session.GoodSession(daemon.app, daemon.session)
      && (daemon.connected ==>
            Session.Table(daemon.session) == map i: nat | i < |RegisteredIds(events)| :: RegisteredIds(events)[i])
      && |AllLogs(daemon.View())| == |Model().delivered|
      && forall i | 0 <= i < |Model().delivered| ::
           Genuine(daemon.app, events, Model(), Model().delivered[i], AllLogs(daemon.View())[i])
    }

    lemma WireIsDecodable()
      requires Valid() && Session.AppOk(daemon.app) && EventsOk(events)
      ensures Decodable()
    {
      hide Reach, Genuine, Session.GoodSession, Session.Table, AllLogs, EventsOk, Messages.DecodeStream;
      hide Messages.EncodeStream;
      EveryConnectionDecodes(daemon.app, events, daemon.fate, daemon.session);
      EveryLogIsGenuine(daemon.app, events, daemon.fate);
    }
  }

  lemma RegisteredSender(daemon: DaemonConnection, pos: nat)
    requires daemon.Valid() && pos < |daemon.contexts|
    ensures daemon.SenderOf(daemon.contexts[pos]) == Session.Registered(pos)
  {
  }

  /**
   A delivered log whose writes and trailer fit decodes to the written arguments, then the separator, file
   name, line and function as far as they are known, and "ThreadID" with the thread's id and name.
   */
  lemma DeliveredTrailer(
    app: Session.App, evs: seq<Event>, s: State, k: nat, m: Messages.Message, ws: seq<GoodWrite>, info: GoodInfo,
    sourceInfo: bool, threadInfo: bool)
    requires Genuine(app, evs, s, k, m)
    requires WrittenTo(evs, k, s.entries[k].createdAt) == ws + GoodTrailer(info, sourceInfo, threadInfo)
    ensures
      var said :=
        (if sourceInfo then
           [Payload.Text(Spaces(52) + [124, 32])]
           + (if info.fileName.Some? && info.fileName.value != [] then [Payload.Text(info.fileName.value)]
              else [])
           + (if info.line != -1 then [Payload.SInt(4, info.line)] else [])
           + (if info.prettyFunction.Some? && info.prettyFunction.value != []
              then [Payload.Text(info.prettyFunction.value)] else [])
         else [])
        + (if threadInfo then
             [Payload.Text([84, 104, 114, 101, 97, 100, 73, 68]), Payload.SInt(4, info.threadId)]
             + (if info.threadName != [] then [Payload.Text(info.threadName)] else [])
           else []);
      var written := Encoder.Images(Encoder.Loud(ws));
      Payload.TotalSize(written) + Payload.TotalSize(said) < 16366 ==>
        Payload.DecodeAll(m.payload) == Some(written + said)
  {
    hide Encoder.Loud, Encoder.Images, Payload.DecodeAll, WrittenTo, Trailer, Payload.TotalSize, LevelOnWire, EndsAt;
    TrailerSays(info, sourceInfo, threadInfo);
    var trailer: seq<Encoder.Write> := GoodTrailer(info, sourceInfo, threadInfo);
    var all := ws + GoodTrailer(info, sourceInfo, threadInfo);
    Encoder.LoudConcat(ws, trailer);
    Encoder.ImagesConcat(Encoder.Loud(ws), Encoder.Loud(trailer));
    Encoder.TotalSizeConcat(Encoder.Images(Encoder.Loud(ws)), Encoder.Images(Encoder.Loud(trailer)));
    var log: Encoder.Log :|
      Encoder.Arrived(log, Encoder.Loud(all)) && Payload.DecodeAll(m.payload) == Some(log.args);
  }
}
