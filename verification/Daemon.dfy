/** The connection to the DLT daemon, as a mutable object, and the end of a DLT log entry. */
module Daemon {
  import opened Bytes
  import opened DltProtocol
  import opened LogData
  import opened Session
  import ControlInput
  import Encoder
  import Messages
  import Payload

  ghost function ViewOf(x: DltContext): Ctx
    reads x
  {
    Ctx(x.id, x.description, x.activeLogLevel, x.header, x.messageCount)
  }

  ghost function Views(xs: seq<DltContext>): (v: seq<Ctx>)
    reads xs
    ensures |v| == |xs| && forall i | 0 <= i < |xs| :: v[i] == ViewOf(xs[i])
  {
    seq(|xs|, i requires 0 <= i < |xs| reads xs => ViewOf(xs[i]))
  }

  /** The bytes writev gathers from its buffers. */
  function Gather(buffers: seq<bytes>): bytes {
    if buffers == [] then [] else buffers[0] + Gather(buffers[1..])
  }

  class DaemonConnection {
    const app: App
    const fate: Fate
    var contexts: seq<DltContext>
    var connected: bool
    /** How many answers of `fate` have been used. */
    var tick: nat
    /** The bytes written on the current connection, and the messages they are. */
    var wire: bytes
    ghost var session: seq<Messages.Message>
    ghost var closed: seq<seq<Messages.Message>>

    ghost function View(): (c: Conn)
      reads this, contexts
      ensures |c.contexts| == |contexts|
    {
      Conn(Views(contexts), connected, session, closed, tick)
    }

    ghost predicate Valid()
      reads this, contexts
    {
      && AppOk(app) && |contexts| < 0x8000_0000 && (forall x <- contexts :: |x.description| < Messages.UINT32)
      && (forall i, j | 0 <= i < j < |contexts| :: contexts[i] != contexts[j])
      && (forall i | 0 <= i < |contexts| :: contexts[i].logLevelPos == i)
      && (forall m <- session :: Messages.WellFormed(m))
      && wire == Messages.EncodeStream(session)
    }

    constructor (app: App, fate: Fate)
      requires AppOk(app)
      ensures Valid() && View() == START && contexts == [] && this.app == app && this.fate == fate
    {
      this.app, this.fate := app, fate;
      contexts, connected, tick, wire, session, closed := [], false, 0, [], [], [];
    }

    /** writev on the daemon's FIFO; on failure the FIFO is closed. */
    method Send(buffers: seq<bytes>, ghost m: Messages.Message)
      requires Valid() && Messages.WellFormed(m) && Gather(buffers) == Messages.Encode(m)
      modifies this`connected, this`tick, this`wire, this`session, this`closed
      ensures Valid() && View() == Deliver(old(View()), m, fate)
    {
      hide Messages.Encode, Messages.WellFormed, Messages.EncodeStream;
      if connected {
        var written := fate(tick);
        tick := tick + 1;
        if written {
          Messages.EncodeStreamAppend(session, m);
          wire, session := wire + Gather(buffers), session + [m];
        } else {
          Messages.EmptyStream();
          connected, closed := false, closed + [session];
          wire, session := [], [];
        }
      }
    }

    method SendContextRegistration(context: DltContext)
      requires Valid() && context in contexts
      modifies this`connected, this`tick, this`wire, this`session, this`closed, context`header
      ensures Valid() && View() == SendRegistration(app, old(View()), context.logLevelPos, fate)
    {
      hide Messages.WellFormed, Messages.Encode, Messages.EncodeStream, Le, Gather;
      ghost var before := View();
      var pos := context.logLevelPos;
      context.header := Header(app.apid, context.id);
      assert Views(contexts) == before.contexts[pos := before.contexts[pos].(header := context.header)];
      assert Valid();
      var userHeader := Messages.UserHeader(REGISTER_CONTEXT);
      var registerMessage := app.apid + context.id + Le(pos, 4) + [Messages.Int8(NOT_SET), Messages.Int8(NOT_SET)]
                             + Le(app.pid, 4) + Le(|context.description|, 4);
      ContextMessageBytes(app, before.contexts[pos], pos);
      Send([userHeader, registerMessage, context.description], ContextMessage(app, before.contexts[pos], pos));
    }

    method SendAppRegistration()
      requires Valid()
      modifies this`connected, this`tick, this`wire, this`session, this`closed
      ensures Valid() && View() == Deliver(old(View()), AppMessage(app), fate)
    {
      hide Messages.WellFormed, Messages.Encode, Messages.EncodeStream, Le, Gather;
      var userHeader := Messages.UserHeader(REGISTER_APP);
      var registerMessage := app.apid + Le(app.pid, 4) + Le(|app.description|, 4);
      AppMessageBytes(app);
      Send([userHeader, registerMessage, app.description], AppMessage(app));
    }

    /** Registers all contexts again, on a connection that was just opened. */
    method SendContextRegistrations()
      requires Valid()
      modifies this`connected, this`tick, this`wire, this`session, this`closed, (set x <- contexts)`header
      ensures Valid() && View() == SendRegistrations(app, old(View()), 0, fate)
    {
      hide Messages.WellFormed, Messages.Encode, Messages.EncodeStream, SendRegistration;
      ghost var start := View();
      for i := 0 to |contexts|
        invariant Valid() && |View().contexts| == |start.contexts|
        invariant SendRegistrations(app, View(), i, fate) == SendRegistrations(app, start, 0, fate)
      {
        SendContextRegistration(contexts[i]);
      }
    }

    /** Tries to open the daemon's FIFO; a new connection starts with nothing written on it. */
    method OpenFifo()
      requires Valid() && !connected
      modifies this`connected, this`tick, this`wire, this`session
      ensures Valid() && connected == fate(old(tick))
      ensures View() == if connected then old(View()).(connected := true, session := [], tick := old(tick) + 1)
                        else old(View()).(tick := old(tick) + 1)
    {
      hide Messages.WellFormed, Messages.EncodeStream;
      connected := fate(tick);
      tick := tick + 1;
      if connected {
        wire, session := [], [];
        Messages.EmptyStream();
      }
    }

    method InitDaemonConnection()
      requires Valid()
      modifies this`connected, this`tick, this`wire, this`session, this`closed, (set x <- contexts)`header
      ensures Valid() && View() == Session.InitDaemonConnection(app, old(View()), fate)
    {
      hide Messages.WellFormed, Messages.EncodeStream, SendRegistrations, Deliver;
      if !connected {
        OpenFifo();
        if connected {
          SendAppRegistration();
          SendContextRegistrations();
        }
      }
    }

    /** Where a log entry's context stands with this connection. */
    ghost function SenderOf(context: DltContext): Sender
      reads this, context
    {
      if context in contexts && context.logLevelPos >= 0 then Registered(context.logLevelPos)
      else Unregistered(context.header)
    }

    /** The context must not be registered yet, which DefaultBackends.LogContext ensures. */
    method RegisterContext(context: DltContext) returns (pos: nat)
      requires Valid() && context !in contexts
      requires |contexts| + 1 < 0x8000_0000 && |context.description| < Messages.UINT32
      modifies this, context`logLevelPos, context`header, (set x <- contexts)`header
      ensures Valid() && pos == |old(contexts)| == context.logLevelPos && contexts == old(contexts) + [context]
      ensures View() == RegisterCtx(app, old(View()), old(ViewOf(context)), fate)
    {
      hide Messages.WellFormed, Messages.Encode, Messages.EncodeStream, SendRegistration, Session.InitDaemonConnection;
      pos := |contexts|;
      context.logLevelPos := pos;
      ghost var before := View();
      contexts := contexts + [context];
      assert Views(contexts) == before.contexts + [ViewOf(context)];
      InitDaemonConnection();
      if connected {
        SendContextRegistration(context);
      }
    }

    /** A new entry on a registered context takes the context's next message counter. */
    method CreateLog(pos: nat, level: LogLevel) returns (data: DltLogData)
      requires Valid() && pos < |contexts|
      modifies {contexts[pos]}`messageCount
      ensures Valid()
      ensures var x := old(View()).contexts[pos];
        && View() == old(View()).(contexts := old(View()).contexts[pos := x.(created := (x.created + 1) % 256)])
        && data.enabled == (DltLogLevel(level) <= x.level) && data.messageCount == x.created
      ensures fresh(data) && fresh(data.content) && data.Valid() && data.View() == Encoder.EMPTY
      ensures data.context == contexts[pos] && data.dltLogLevel == DltLogLevel(level)
    {
      hide Messages.WellFormed, Messages.EncodeStream, Encoder.Valid;
      ghost var before := View();
      data := new DltLogData(contexts[pos], level);
      assert Views(contexts) ==
        before.contexts[pos := before.contexts[pos].(created := (before.contexts[pos].created + 1) % 256)];
    }

    /** A negative position passes the source's test and is used as an index; `ok` is false then. */
    method ApplyLogLevel(pos: int, level: int) returns (ok: bool)
      requires Valid()
      modifies (set x <- contexts)`activeLogLevel
      ensures Valid() && ok == (pos >= 0)
      ensures View() == if ok then Session.ApplyLogLevel(old(View()), pos, level) else old(View())
    {
      ok := pos >= 0;
      if 0 <= pos < |contexts| {
        ghost var before := View();
        contexts[pos].SetActiveLogLevel(level);
        assert Views(contexts) == before.contexts[pos := before.contexts[pos].(level := level)];
      }
    }

    /** Handles the message at `message`, of which the header is complete, and moves on if it is known. */
    method HandleMessage(buffer: bytes, message: nat) returns (next: nat, known: bool, ok: bool)
      requires Valid() && message + ControlInput.USER_HEADER_SIZE < |buffer|
      modifies (set x <- contexts)`activeLogLevel
      ensures Valid() && next <= |buffer|
      ensures
        var handled := ControlInput.First(buffer[message..]);
        && known == (handled.Ignored? || handled.Applied?) && ok == !handled.Undefined?
        && (known ==> next == message + if handled.Ignored? then 9 else 14)
        && View() ==
             if handled.Applied? then Session.ApplyLogLevel(old(View()), handled.change.pos, handled.change.level)
             else old(View())
    {
      hide FromLe, ControlInput.Int32, Session.ApplyLogLevel, Messages.WellFormed, Messages.EncodeStream;
      hide DaemonConnection.View;
      ghost var rest := buffer[message..];
      assert rest[4..8] == buffer[message + 4..message + 8];
      var messageType := FromLe(buffer[message + 4..message + 8]);
      next, known, ok := message + ControlInput.USER_HEADER_SIZE, true, true;
      if messageType == DLT_USER_MESSAGE_LOG_STATE {
        next := next + ControlInput.LOG_STATE_SIZE;
      } else if messageType == DLT_USER_MESSAGE_LOG_LEVEL {
        if next + ControlInput.LOG_LEVEL_SIZE <= |buffer| {
          assert rest[10..14] == buffer[message + 10..message + 14];
          var level, pos := buffer[next], ControlInput.Int32(buffer[next + 2..next + 6]);
          next := next + ControlInput.LOG_LEVEL_SIZE;
          ok := ApplyLogLevel(pos, level);
        } else {
          ok := false;
        }
        known := ok;
      } else {
        known := false;
      }
    }

    /**
     Takes the buffer a read of the application's FIFO filled; `byteCount` is what read() returned, -1 on
     error. It stops with `ok` false where the behaviour of the source becomes undefined.
     */
    method HandleIncomingMessage(buffer: bytes, byteCount: int) returns (ok: bool)
      requires Valid() && -1 <= byteCount <= |buffer|
      modifies (set x <- contexts)`activeLogLevel
      ensures Valid() && ok == (byteCount == -1 || ControlInput.Parse(buffer, byteCount).defined)
      ensures View() == if byteCount == -1 then old(View())
                        else ApplyChanges(old(View()), ControlInput.Parse(buffer, byteCount).changes)
    {
      hide ApplyChanges, ControlInput.Parse, ControlInput.First, Messages.WellFormed, Messages.EncodeStream;
      hide AppOk, FromLe;
      hide Session.ApplyLogLevel, DaemonConnection.View;
      ok := true;
      if byteCount != -1 {
        ghost var start, all := View(), ControlInput.Parse(buffer, byteCount);
        ghost var rest := all.changes;
        var message, known := 0, true;
        assert buffer[0..] == buffer;
        while known && byteCount > message + ControlInput.USER_HEADER_SIZE
          invariant message <= |buffer| && Valid()
          invariant known ==> ok && ControlInput.Parse(buffer[message..], byteCount - message).defined == all.defined
          invariant known ==> rest == ControlInput.Parse(buffer[message..], byteCount - message).changes
          invariant !known ==> rest == [] && ok == all.defined
          invariant ApplyChanges(View(), rest) == ApplyChanges(start, all.changes)
          decreases known, |buffer| - message
        {
          ControlInput.ParseStep(buffer, message, byteCount);
          ghost var handled := ControlInput.First(buffer[message..]);
          if handled.Applied? {
            rest := rest[1..];
            ApplyFirst(View(), handled.change, rest);
          }
          message, known, ok := HandleMessage(buffer, message);
        }
        if known {
          ControlInput.ParseNothing(buffer[message..], byteCount - message);
        }
        ApplyFirst(View(), ControlInput.LevelChange(0, 0), []);
      }
    }

    method SendLog(data: DltLogData, tmsp: nat)
      requires Valid() && data.Valid() && tmsp < Messages.UINT32
      modifies this`connected, this`tick, this`wire, this`session, this`closed, (set x <- contexts)`header
      ensures Valid() && data.Valid()
      ensures View() == SendLogEntry(app, old(View()), old(SenderOf(data.context)),
                                     Outgoing(data.messageCount, data.dltLogLevel, |data.args| % 256,
                                       Payload.EncodeAll(data.args)), tmsp, fate)
    {
      hide Messages.WellFormed, Messages.Encode, Messages.EncodeStream, Session.InitDaemonConnection;
      hide Payload.EncodeAll, Encoder.Valid;
      ghost var who := SenderOf(data.context);
      InitDaemonConnection();
      if connected {
        var header := data.context.header;
        assert header == HeaderOf(View(), who);
        var size := Messages.LOG_HEADERS_SIZE + data.contentSize;
        var payload := data.content[..data.contentSize];
        ghost var log := Outgoing(data.messageCount, data.dltLogLevel, data.argsCount, payload);
        LogMessageBytes(app, header, log, tmsp);
        Send([Messages.UserHeader(SEND_LOG), Messages.StandardHeader(data.messageCount, size),
              Messages.HeaderExtra(app.pid, tmsp),
              Messages.ExtendedHeader(data.dltLogLevel, data.argsCount, header.apid, header.ctid), payload],
             LogMessage(app, header, log, tmsp));
      }
    }

    /** The payload that is sent decodes to the arguments of the entry. */
    method SendReadable(data: DltLogData, tmsp: nat)
      requires Valid() && data.Valid() && tmsp < Messages.UINT32
      modifies this`connected, this`tick, this`wire, this`session, this`closed, (set x <- contexts)`header
      ensures Valid() && data.Valid()
      ensures View() == SendLogEntry(app, old(View()), old(SenderOf(data.context)),
                                     Outgoing(data.messageCount, data.dltLogLevel, |data.args| % 256,
                                       Payload.EncodeAll(data.args)), tmsp, fate)
      ensures connected ==>
        && session != [] && session[|session| - 1].SendLog?
        && Payload.DecodeAll(session[|session| - 1].payload) == Some(data.args)
    {
      hide Encoder.Valid, SendLogEntry, Messages.EncodeStream, Messages.WellFormed, Payload.EncodeAll;
      data.Readable();
      ghost var log := Outgoing(data.messageCount, data.dltLogLevel, |data.args| % 256, Payload.EncodeAll(data.args));
      SendLogLast(app, View(), SenderOf(data.context), log, tmsp, fate);
      SendLog(data, tmsp);
    }

    /** The destructor of a log entry: it may add source and thread information, then sends the entry. */
    method Finish(data: DltLogData, info: EntryInfo, sourceInfo: bool, threadInfo: bool, tmsp: nat)
      requires Valid() && data.Valid() && tmsp < Messages.UINT32 && SInt32(info.line) && SInt32(info.threadId)
      modifies this`connected, this`tick, this`wire, this`session, this`closed, (set x <- contexts)`header
      modifies data`contentSize, data`argsCount, data`isFull, data`args, data.content
      ensures Valid() && data.Valid()
      ensures !data.enabled ==> View() == old(View()) && data.View() == old(data.View())
      ensures data.enabled ==>
        && data.View() == Encoder.RunFrom(old(data.View()), Trailer(info, sourceInfo, threadInfo))
        && View() == SendLogEntry(app, old(View()), old(SenderOf(data.context)),
                                  Outgoing(data.messageCount, data.dltLogLevel, |data.args| % 256,
                                    Payload.EncodeAll(data.args)), tmsp, fate)
      ensures data.enabled && connected ==>
        && session != [] && session[|session| - 1].SendLog?
        && Payload.DecodeAll(session[|session| - 1].payload) == Some(data.args)
      ensures
        var said := TrailerArgs(info, sourceInfo, threadInfo);
        data.enabled && !old(data.isFull) && Payload.TotalSize(old(data.args)) + Payload.TotalSize(said) < 16366 ==>
          data.args == old(data.args) + said
    {
      hide Encoder.RunFrom, Encoder.Valid, Trailer, TrailerArgs, SendLogEntry, Messages.EncodeStream;
      hide Messages.WellFormed, Payload.EncodeAll, Payload.DecodeAll, Payload.TotalSize;
      if data.enabled {
        data.WriteTrailer(info, sourceInfo, threadInfo);
        SendReadable(data, tmsp);
      }
    }
  }

  lemma LogMessageBytes(app: App, header: Header, log: Outgoing, tmsp: nat)
    requires AppOk(app) && tmsp < Messages.UINT32 && DLT_LOG_DEFAULT <= log.level <= DLT_LOG_VERBOSE
    requires |log.payload| <= Encoder.MAX_MESSAGE_SIZE
    ensures
      var m, size := LogMessage(app, header, log, tmsp), Messages.LOG_HEADERS_SIZE + |log.payload|;
      && Messages.WellFormed(m)
      && Gather([Messages.UserHeader(SEND_LOG), Messages.StandardHeader(log.mcnt, size),
                 Messages.HeaderExtra(app.pid, tmsp),
                 Messages.ExtendedHeader(log.level, log.noar, header.apid, header.ctid), log.payload])
         == Messages.Encode(m)
  {
    hide Messages.UserHeader, Messages.StandardHeader, Messages.HeaderExtra, Messages.ExtendedHeader, Gather;
    var size := Messages.LOG_HEADERS_SIZE + |log.payload|;
    GatherFive(Messages.UserHeader(SEND_LOG), Messages.StandardHeader(log.mcnt, size),
               Messages.HeaderExtra(app.pid, tmsp),
               Messages.ExtendedHeader(log.level, log.noar, header.apid, header.ctid), log.payload);
  }

  lemma ContextMessageBytes(app: App, x: Ctx, pos: nat)
    requires AppOk(app) && pos < 0x8000_0000 && |x.description| < Messages.UINT32
    ensures
      var m := ContextMessage(app, x, pos);
      && Messages.WellFormed(m)
      && Gather([Messages.UserHeader(REGISTER_CONTEXT),
                 app.apid + x.id + Le(pos, 4) + [Messages.Int8(NOT_SET), Messages.Int8(NOT_SET)] + Le(app.pid, 4)
                 + Le(|x.description|, 4),
                 x.description]) == Messages.Encode(m)
  {
    hide Le, Messages.UserHeader, Gather;
    var m := ContextMessage(app, x, pos);
    var u, r := Messages.UserHeader(REGISTER_CONTEXT),
                app.apid + x.id + Le(pos, 4) + [Messages.Int8(NOT_SET), Messages.Int8(NOT_SET)] + Le(app.pid, 4)
                + Le(|x.description|, 4);
    assert Messages.Fields(m) == r + x.description;
    hide Messages.Fields;
    GatherThree(u, r, x.description);
  }

  lemma AppMessageBytes(app: App)
    requires AppOk(app)
    ensures
      var m := AppMessage(app);
      && Messages.WellFormed(m)
      && Gather([Messages.UserHeader(REGISTER_APP), app.apid + Le(app.pid, 4) + Le(|app.description|, 4),
                 app.description])
         == Messages.Encode(m)
  {
    hide Le;
    GatherThree(Messages.UserHeader(REGISTER_APP), app.apid + Le(app.pid, 4) + Le(|app.description|, 4),
                app.description);
  }

  lemma GatherThree(a: bytes, b: bytes, c: bytes)
    ensures Gather([a, b, c]) == a + (b + c)
  {
    assert Gather([a, b, c]) == a + Gather([b, c]);
    assert Gather([b, c]) == b + Gather([c]);
    assert Gather([c]) == c;
  }

  lemma GatherFive(a: bytes, b: bytes, c: bytes, d: bytes, e: bytes)
    ensures Gather([a, b, c, d, e]) == a + (b + c + d + e)
  {
    assert [a, b, c, d, e][1..] == [b, c, d, e] && [b, c, d, e][1..] == [c, d, e];
    hide Gather;
    GatherThree(c, d, e);
    GatherFront(a, [b, c, d, e]);
    GatherFront(b, [c, d, e]);
    assert b + (c + (d + e)) == b + c + d + e;
  }

  lemma GatherFront(a: bytes, others: seq<bytes>)
    ensures Gather([a] + others) == a + Gather(others)
  {
    assert ([a] + others)[1..] == others;
  }
}
