/**
 Any program: a sequence of operations on a connection, its contexts and any number of entries that are
 alive at the same time, with the buffers the daemon sends in between.
 */
module Programs {
  import opened Bytes
  import opened DltProtocol
  import opened LogData
  import opened Daemon
  import opened Machine
  import opened Applications
  import ControlInput
  import ControlStream
  import Encoder
  import Messages
  import Session

  datatype Op =
    | AddContext(id: Id, description: bytes)
    | ReadFifo(received: bytes, stale: bytes)
    | NewEntry(pos: nat, logLevel: LogLevel)
    | WriteTo(entry: nat, w: GoodWrite)
    | EndEntry(entry: nat, info: GoodInfo, sourceInfo: bool, threadInfo: bool, tmsp: nat)

  function EventsOf(op: Op): seq<Event> {
    match op
    case AddContext(id, description) => [Event.Register(id, description)]
    case ReadFifo(received, stale) => LevelMessages(ControlInput.Parse(received + stale, |received|).changes)
    case NewEntry(pos, logLevel) => [Event.Create(pos, logLevel)]
    case WriteTo(entry, w) => [WriteArgument(entry, w)]
    case EndEntry(entry, info, sourceInfo, threadInfo, tmsp) =>
      [Event.Finish(entry, GoodTrailer(info, sourceInfo, threadInfo), tmsp)]
  }

  /** What the end of an entry says, and when. */
  lemma EndEntrySays(op: Op)
    requires op.EndEntry?
    ensures
      && |EventsOf(op)| == 1 && EventsOf(op)[0].Finish?
      && EventsOf(op)[0].entry == op.entry && EventsOf(op)[0].tmsp == op.tmsp
      && Encoder.Images(Encoder.Loud(EventsOf(op)[0].trailer)) == TrailerArgs(op.info, op.sourceInfo, op.threadInfo)
  {
    TrailerSays(op.info, op.sourceInfo, op.threadInfo);
  }

  function AllEvents(ops: seq<Op>): seq<Event> {
    if ops == [] then [] else AllEvents(ops[..|ops| - 1]) + EventsOf(ops[|ops| - 1])
  }

  /** No buffer makes the behaviour of the program undefined. */
  predicate Defined(op: Op) {
    op.ReadFifo? ==> ControlInput.Parse(op.received + op.stale, |op.received|).defined
  }

  predicate AllDefined(ops: seq<Op>) {
    forall op <- ops :: Defined(op)
  }

  /** The first operation that makes the behaviour undefined. */
  predicate StopsAt(ops: seq<Op>, n: nat) {
    n < |ops| && AllDefined(ops[..n]) && !Defined(ops[n])
  }

  /** An entry object of a context at a level, by the place of the level in this list. */
  ghost predicate AtLevel(data: DltLogData, context: DltContext, logLevel: LogLevel) {
    && data.context == context
    && if logLevel == All || logLevel == Invalid then data.dltLogLevel == -1
       else
         && 0 <= data.dltLogLevel < 7
         && [None_, Fatal, Error, Warning, Info, Debug, Verbose][data.dltLogLevel] == logLevel
  }

  class Program {
    const app: Application
    /** The entries that are alive, by the number of entries created before them. */
    var live: map<nat, DltLogData>
    var created: nat

    ghost var Repr: set<object>

    ghost predicate Owned()
      reads this, app.daemon
    {
      && this in Repr && app in Repr && app.daemon in Repr && (forall x <- app.daemon.contexts :: x in Repr)
      && (forall k <- live.Keys :: live[k] in Repr && live[k].content in Repr)
      && (forall j, k | j in live && k in live && j != k :: live[j] != live[k] && live[j].content != live[k].content)
    }

    ghost predicate Unfinished(k: nat)
      reads app
    {
      k < |app.Model().entries| && app.Model().entries[k].enabled && app.Model().entries[k].end.None?
    }

    ghost predicate Held()
      reads this, app, app.daemon, live.Values, set data <- live.Values :: data.content
    {
      && created == |app.Model().entries| && (forall k <- live.Keys :: k < created && app.Holds(live[k], k))
      && (forall k | 0 <= k < created && Unfinished(k) :: k in live)
    }

    ghost predicate Valid()
      reads this, app.daemon, Repr
    {
      Owned() && Held() && app.Valid()
    }

    constructor (app: Session.App, fate: Session.Fate)
      requires Session.AppOk(app)
      ensures Valid() && fresh(Repr) && this.app.events == []
      ensures this.app.daemon.app == app && this.app.daemon.fate == fate
    {
      this.app := new Application(app, fate);
      live, created := map[], 0;
      new;
      Repr := {this, this.app, this.app.daemon};
    }

    /** An operation on entry `touched`, or on none, leaves the objects of the other entries theirs. */
    twostate lemma StillHeld(touched: nat)
      requires old(Held()) && app.OthersSame(touched) && old(app.daemon.contexts) <= app.daemon.contexts
      requires forall k | k in old(live) && k != touched :: unchanged(old(live)[k]) && unchanged(old(live)[k].content)
      ensures forall k | k in old(live) && k != touched :: app.Holds(old(live)[k], k)
      ensures forall k | 0 <= k < old(created) && k != touched && Unfinished(k) :: k in old(live)
    {
      hide Reach, DltLogData.Valid;
    }

    method Register(id: Id, description: bytes)
      requires Valid() && |app.daemon.contexts| + 1 < 0x8000_0000 && |description| < Messages.UINT32
      modifies Repr
      ensures Valid() && fresh(Repr - old(Repr)) && app.events == old(app.events) + [Event.Register(id, description)]
      ensures live == old(live) && |app.daemon.contexts| == |old(app.daemon.contexts)| + 1
      ensures var context := app.daemon.contexts[|old(app.daemon.contexts)|];
        context.id == id && context.description == description
    {
      hide Reach, Machine.Apply, Application.Holds, Application.Valid;
      app.Register(id, description);
      StillHeld(created);
      Repr := Repr + {app.daemon.contexts[|old(app.daemon.contexts)|]};
    }

    method Read(received: bytes, stale: bytes) returns (ok: bool)
      requires Valid()
      modifies Repr
      ensures Valid() && fresh(Repr - old(Repr)) && ok == Defined(ReadFifo(received, stale))
      ensures app.events == old(app.events) + EventsOf(ReadFifo(received, stale))
    {
      hide Reach, Application.Holds, Application.Valid, ControlInput.Parse, LevelMessages;
      ok := app.ReceiveBuffer(received + stale, |received|);
      StillHeld(created);
    }

    method Adopt(data: DltLogData)
      requires Owned() && created !in live
      requires forall k <- live.Keys :: live[k] != data && live[k].content != data.content
      modifies this`live, this`created, this`Repr
      ensures Owned() && live == old(live)[old(created) := data] && created == old(created) + 1
      ensures Repr == old(Repr) + {data, data.content}
    {
      live, created, Repr := live[created := data], created + 1, Repr + {data, data.content};
    }

    method Drop(entry: nat)
      requires Owned()
      modifies this`live
      ensures Owned() && live == old(live) - {entry}
    {
      live := live - {entry};
    }

    method Create(pos: nat, logLevel: LogLevel)
      requires Valid()
      modifies Repr
      ensures Valid() && fresh(Repr - old(Repr)) && app.events == old(app.events) + [Event.Create(pos, logLevel)]
      ensures app.daemon.contexts == old(app.daemon.contexts)
      ensures pos >= |app.daemon.contexts| ==> live == old(live)
      ensures pos < |app.daemon.contexts| ==>
        && old(created) in live && live == old(live)[old(created) := live[old(created)]]
        && AtLevel(live[old(created)], app.daemon.contexts[pos], logLevel)
    {
      hide Reach, Machine.Apply, Application.Holds, Application.Valid;
      if pos < |app.daemon.contexts| {
        hide Application.OthersSame, Program.Unfinished;
        var data, k := app.Create(pos, logLevel);
        StillHeld(created);
        Adopt(data);
      } else {
        app.Skip(Event.Create(pos, logLevel));
        StillHeld(created);
      }
    }

    method Write(entry: nat, w: GoodWrite)
      requires Valid()
      modifies Repr
      ensures Valid() && fresh(Repr - old(Repr)) && app.events == old(app.events) + [WriteArgument(entry, w)]
      ensures live == old(live)
      ensures forall k <- live.Keys ::
        live[k].View() ==
          if k == entry && live[k].enabled then Encoder.Step(old(live[k].View()), w) else old(live[k].View())
    {
      hide Reach, Machine.Apply, Application.Holds, Application.Valid;
      if entry in live {
        app.Write(live[entry], entry, w);
        StillHeld(entry);
      } else {
        app.Skip(WriteArgument(entry, w));
        StillHeld(created);
      }
    }

    method Finish(entry: nat, info: GoodInfo, sourceInfo: bool, threadInfo: bool, tmsp: nat)
      requires Valid() && tmsp < Messages.UINT32
      modifies Repr
      ensures Valid() && fresh(Repr - old(Repr)) && live == old(live) - {entry}
      ensures app.events == old(app.events) + [Event.Finish(entry, GoodTrailer(info, sourceInfo, threadInfo), tmsp)]
    {
      hide Reach, Machine.Apply, Application.Holds, Application.Valid;
      if entry in live {
        hide Application.OthersSame;
        app.Finish(live[entry], entry, info, sourceInfo, threadInfo, tmsp);
        StillHeld(entry);
        Drop(entry);
      } else {
        app.Skip(Event.Finish(entry, GoodTrailer(info, sourceInfo, threadInfo), tmsp));
        StillHeld(created);
      }
    }

    lemma Decodes()
      requires Valid() && Session.AppOk(app.daemon.app) && EventsOk(app.events)
      ensures app.Decodable()
    {
      app.WireIsDecodable();
    }

    /** One operation; `ok` is false if a buffer made the behaviour undefined. */
    method Do(op: Op) returns (ok: bool)
      requires Valid() && Session.AppOk(app.daemon.app) && EventsOk(app.events + EventsOf(op))
      modifies Repr
      ensures Valid() && fresh(Repr - old(Repr)) && ok == Defined(op) && app.events == old(app.events) + EventsOf(op)
      // What the operations are for: the objects they touch, and those they leave alone.
      ensures op.AddContext? ==>
        && live == old(live) && |app.daemon.contexts| == |old(app.daemon.contexts)| + 1
        && var context := app.daemon.contexts[|old(app.daemon.contexts)|];
           context.id == op.id && context.description == op.description
      ensures op.NewEntry? ==>
        && app.daemon.contexts == old(app.daemon.contexts)
        && if op.pos >= |app.daemon.contexts| then live == old(live)
           else
             && old(created) in live && live == old(live)[old(created) := live[old(created)]]
             && AtLevel(live[old(created)], app.daemon.contexts[op.pos], op.logLevel)
      ensures op.WriteTo? ==>
        && live == old(live)
        && forall k <- live.Keys ::
             live[k].View() ==
               if k == op.entry && live[k].enabled then Encoder.Step(old(live[k].View()), op.w)
               else old(live[k].View())
      ensures op.EndEntry? ==> live == old(live) - {op.entry}
    {
      hide Program.Owned, Program.Held, Application.Valid, ControlInput.Parse, EventsOk;
      ok := true;
      match op {
        case AddContext(id, description) =>
          app.RoomForContext(Event.Register(id, description));
          Register(id, description);
        case ReadFifo(received, stale) =>
          ok := Read(received, stale);
        case NewEntry(pos, logLevel) =>
          Create(pos, logLevel);
        case WriteTo(entry, w) =>
          Write(entry, w);
        case EndEntry(entry, info, sourceInfo, threadInfo, tmsp) =>
          app.RoomForContext(Event.Finish(entry, GoodTrailer(info, sourceInfo, threadInfo), tmsp));
          Finish(entry, info, sourceInfo, threadInfo, tmsp);
      }
    }
  }

  lemma {:induction false} AllEventsPrefix(ops: seq<Op>, n: nat)
    requires n <= |ops|
    ensures AllEvents(ops[..n]) <= AllEvents(ops)
  {
    if n == |ops| {
      assert ops[..n] == ops;
    } else {
      hide EventsOf;
      AllEventsPrefix(ops[..|ops| - 1], n);
      assert ops[..|ops| - 1][..n] == ops[..n];
    }
  }

  lemma EventsOkPrefix(a: seq<Event>, b: seq<Event>)
    requires a <= b && EventsOk(b)
    ensures EventsOk(a)
  {
    hide EventOk, RegisteredIds;
    forall e <- a ensures EventOk(e) { assert e in b; }
    RegisteredIdsAppend(a, b[|a|..]);
    assert a + b[|a|..] == b;
  }

  lemma NextDefined(ops: seq<Op>, i: nat)
    requires i < |ops|
    ensures AllDefined(ops[..i + 1]) <==> AllDefined(ops[..i]) && Defined(ops[i])
    ensures AllDefined(ops) ==> AllDefined(ops[..i + 1])
  {
    hide Defined;
    assert ops[..i + 1] == ops[..i] + [ops[i]];
  }

  lemma NextOp(ops: seq<Op>, i: nat)
    requires i < |ops| && EventsOk(AllEvents(ops))
    ensures AllEvents(ops[..i + 1]) == AllEvents(ops[..i]) + EventsOf(ops[i])
      && AllEvents(ops[..i + 1]) <= AllEvents(ops)
    ensures EventsOk(AllEvents(ops[..i + 1])) && (AllDefined(ops[..i + 1]) <==> AllDefined(ops[..i]) && Defined(ops[i]))
    ensures AllDefined(ops) ==> AllDefined(ops[..i + 1])
  {
    hide EventsOf, Defined, EventsOk, AllDefined;
    assert ops[..i + 1][..i] == ops[..i];
    NextDefined(ops, i);
    AllEventsPrefix(ops, i + 1);
    EventsOkPrefix(AllEvents(ops[..i + 1]), AllEvents(ops));
  }

  lemma NoOp(ops: seq<Op>)
    requires EventsOk(AllEvents(ops))
    ensures AllEvents(ops[..0]) == [] <= AllEvents(ops) && AllDefined(ops[..0]) && EventsOk([])
  {
  }

  /**
   For every program: the objects perform the events of its operations, all of them or up to the first that
   makes the behaviour undefined, and what they have written to the daemon decodes to a well-ordered
   session of genuine messages.
   */
  method Run(app: Session.App, fate: Session.Fate, ops: seq<Op>) returns (p: Program, ok: bool)
    requires Session.AppOk(app) && EventsOk(AllEvents(ops))
    ensures p.Valid() && p.app.daemon.app == app && p.app.daemon.fate == fate && p.app.Decodable()
    ensures ok == AllDefined(ops)
    ensures p.app.events <= AllEvents(ops) && (ok ==> p.app.events == AllEvents(ops))
    ensures !ok ==> exists n :: 0 <= n < |ops| && StopsAt(ops, n) && p.app.events == AllEvents(ops[..n + 1])
  {
    hide Program.Valid, Application.Decodable, AllEvents, AllDefined, Defined, EventsOf, EventsOk, Session.AppOk;
    hide RegisteredIds;
    p := new Program(app, fate);
    ok := true;
    var i := 0;
    NoOp(ops);
    while ok && i < |ops|
      invariant i <= |ops| && p.Valid() && fresh(p.Repr) && p.app.daemon.app == app && p.app.daemon.fate == fate
      invariant p.app.events == AllEvents(ops[..i]) <= AllEvents(ops) && EventsOk(p.app.events)
      invariant ok == AllDefined(ops[..i]) && (AllDefined(ops) ==> ok)
      invariant !ok ==> i > 0 && StopsAt(ops, i - 1)
    {
      NextOp(ops, i);
      ok := p.Do(ops[i]);
      i := i + 1;
    }
    assert ok ==> ops[..i] == ops;
    p.Decodes();
  }

  // ---- a program that reads the daemon's stream --------------------------------------------

  function Reading(pieces: seq<ControlStream.Read>): (ops: seq<Op>)
    ensures |ops| == |pieces|
    ensures forall i | 0 <= i < |pieces| :: ops[i] == ReadFifo(pieces[i].received, pieces[i].stale)
  {
    if pieces == [] then [] else [ReadFifo(pieces[0].received, pieces[0].stale)] + Reading(pieces[1..])
  }

  lemma {:induction false} AllEventsFront(op: Op, ops: seq<Op>)
    ensures AllEvents([op] + ops) == EventsOf(op) + AllEvents(ops)
  {
    hide EventsOf;
    var all := [op] + ops;
    if ops == [] {
      assert all[..0] == [] && all == [op];
    } else {
      var front, last := ops[..|ops| - 1], ops[|ops| - 1];
      AllEventsFront(op, front);
      assert all[..|all| - 1] == [op] + front && all[|all| - 1] == last;
      assert AllEvents(all) == (EventsOf(op) + AllEvents(front)) + EventsOf(last);
    }
  }

  lemma LevelMessagesFront(a: seq<ControlInput.LevelChange>)
    requires a != []
    ensures LevelMessages(a) == [LevelMessage(a[0].pos, a[0].level)] + LevelMessages(a[1..])
  {
  }

  lemma SameEvents(a: seq<Event>, b: seq<Event>, c: seq<Event>)
    ensures a + b + c == a + (b + c)
  {
  }

  lemma {:induction false} LevelMessagesConcat(a: seq<ControlInput.LevelChange>, b: seq<ControlInput.LevelChange>)
    ensures LevelMessages(a + b) == LevelMessages(a) + LevelMessages(b)
  {
    if a == [] {
      assert a + b == b;
    } else {
      hide LevelMessages;
      LevelMessagesConcat(a[1..], b);
      assert (a + b)[0] == a[0] && (a + b)[1..] == a[1..] + b;
      LevelMessagesFront(a);
      LevelMessagesFront(a + b);
      SameEvents([LevelMessage(a[0].pos, a[0].level)], LevelMessages(a[1..]), LevelMessages(b));
    }
  }

  lemma {:induction false} ReadingEvents(pieces: seq<ControlStream.Read>)
    ensures AllEvents(Reading(pieces)) == LevelMessages(ControlStream.Heard(pieces))
  {
    if pieces != [] {
      hide ControlInput.Parse, LevelMessages;
      ReadingEvents(pieces[1..]);
      AllEventsFront(Reading(pieces)[0], Reading(pieces[1..]));
      LevelMessagesConcat(ControlStream.Parsed(pieces[0]).changes, ControlStream.Heard(pieces[1..]));
    }
  }

  /** A program whose reads keep the daemon's messages performs exactly the level events of the stream. */
  lemma StreamReachesProgram(pieces: seq<ControlStream.Read>, ms: seq<ControlInput.Control>)
    requires forall m <- ms :: ControlInput.WellFormed(m)
    requires ControlStream.Received(pieces) == ControlInput.EncodeControls(ms)
    requires ControlStream.AllUnmistaken(pieces, [], ms) && ControlStream.AllKept(pieces, [], ms)
    ensures AllEvents(Reading(pieces)) == LevelMessages(ControlInput.Changes(ms)) && AllDefined(Reading(pieces))
  {
    hide ControlInput.Parse, ControlInput.EncodeControls, ControlInput.Changes, ControlInput.WellFormed;
    hide ControlStream.AllKept, ControlStream.AllUnmistaken, LevelMessages, AllEvents;
    assert ControlStream.Received(pieces) == [] + ControlInput.EncodeControls(ms);
    ControlStream.StreamHeard(pieces, [], ms);
    ReadingEvents(pieces);
    forall op <- Reading(pieces) ensures Defined(op) {
      var i :| 0 <= i < |pieces| && op == ReadFifo(pieces[i].received, pieces[i].stale);
      assert pieces[i] in pieces;
    }
  }
}
