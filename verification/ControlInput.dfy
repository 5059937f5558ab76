/**
 The control messages the daemon writes to the application's FIFO, and what the application reads out of
 one buffer of them.
 */
module ControlInput {
  import opened Bytes
  import opened DltProtocol

  /** The header pattern is never looked at, so it can be anything. */
  datatype Control =
    | LogState(pattern: Id, state: byte)
    | LogLevelMsg(pattern: Id, level: byte, traceStatus: byte, pos: nat)

  datatype LevelChange = LevelChange(pos: nat, level: byte)

  const USER_HEADER_SIZE: nat := 8
  const LOG_STATE_SIZE: nat := 1
  const LOG_LEVEL_SIZE: nat := 6

  function EncodeControl(m: Control): (b: bytes)
    ensures |b| == if m.LogState? then 9 else 14
  {
    match m
    case LogState(p, state) => p + Le(DLT_USER_MESSAGE_LOG_STATE, 4) + [state]
    case LogLevelMsg(p, level, trace, pos) => p + Le(DLT_USER_MESSAGE_LOG_LEVEL, 4) + [level, trace] + Le(pos, 4)
  }

  /** The places of the fields; numbers are little-endian. */
  lemma ControlLayout(m: Control)
    ensures m.LogState? ==> EncodeControl(m) == m.pattern + [12, 0, 0, 0, m.state]
    ensures m.LogLevelMsg? ==> EncodeControl(m) == m.pattern + [6, 0, 0, 0, m.level, m.traceStatus] + Le(m.pos, 4)
  {
    SmallLe(12);
    SmallLe(6);
    hide Le;
  }

  function EncodeControls(ms: seq<Control>): bytes {
    if ms == [] then [] else EncodeControl(ms[0]) + EncodeControls(ms[1..])
  }

  ghost predicate WellFormed(m: Control) {
    m.LogLevelMsg? ==> m.pos < 0x8000_0000
  }

  function Changes(ms: seq<Control>): seq<LevelChange> {
    if ms == [] then []
    else (if ms[0].LogLevelMsg? then [LevelChange(ms[0].pos, ms[0].level)] else []) + Changes(ms[1..])
  }

  // ---- the application's reader ------------------------------------------------------------

  /**
   What one round of the reading loop does. The reader only checks that something follows a header: a
   level message may end outside the received part, or outside the buffer; and its position may be
   negative as a signed number, which is smaller than the number of contexts and then used as an index.
   In the last two cases the behaviour of the program is undefined.
   */
  datatype Handled = Ignored | Applied(change: LevelChange) | Unknown | Undefined

  /** `defined` says that nothing undefined was met; `changes` are the level changes applied up to there. */
  datatype Parsed = Parsed(changes: seq<LevelChange>, cursor: nat, defined: bool)

  function TypeAt(b: bytes): nat
    requires |b| >= USER_HEADER_SIZE
  {
    FromLe(b[4..8])
  }

  /** An int32_t as it is stored. */
  function Int32(b: bytes): int {
    var n := FromLe(b);
    if n < 0x8000_0000 then n else n - 0x1_0000_0000
  }

  /** The message at the front of the rest of the buffer. */
  function First(b: bytes): (h: Handled)
    requires |b| > USER_HEADER_SIZE
    ensures h.Applied? ==> |b| >= 14
  {
    if TypeAt(b) == DLT_USER_MESSAGE_LOG_STATE then Ignored
    else if TypeAt(b) != DLT_USER_MESSAGE_LOG_LEVEL then Unknown
    else if |b| < 14 || Int32(b[10..14]) < 0 then Undefined
    else Applied(LevelChange(Int32(b[10..14]), b[8]))
  }

  /** `b` is the rest of the read buffer, of which the first `n` bytes were received. */
  function Parse(b: bytes, n: int): Parsed
    requires n <= |b|
    decreases |b|
  {
    if n <= USER_HEADER_SIZE then Parsed([], 0, true)
    else
      match First(b)
      case Ignored =>
        var rest := Parse(b[9..], n - 9);
        Parsed(rest.changes, 9 + rest.cursor, rest.defined)
      case Applied(change) =>
        var rest := Parse(b[14..], n - 14);
        Parsed([change] + rest.changes, 14 + rest.cursor, rest.defined)
      case Unknown => Parsed([], USER_HEADER_SIZE, true)
      case Undefined => Parsed([], USER_HEADER_SIZE, false)
  }

  /** One round of the reading loop at position `at` of the buffer. */
  lemma ParseStep(buffer: bytes, at: nat, n: int)
    requires at + USER_HEADER_SIZE < n <= |buffer|
    ensures
      var handled, all := First(buffer[at..]), Parse(buffer[at..], n - at);
      && (handled.Ignored? ==>
            && at + 9 <= |buffer|
            && var rest := Parse(buffer[at + 9..], n - at - 9);
            all.changes == rest.changes && all.defined == rest.defined)
      && (handled.Applied? ==>
            && at + 14 <= |buffer|
            && var rest := Parse(buffer[at + 14..], n - at - 14);
            all.changes == [handled.change] + rest.changes && all.defined == rest.defined)
      && (handled.Unknown? || handled.Undefined? ==> all.changes == [] && all.defined == handled.Unknown?)
  {
    hide First;
    var b := buffer[at..];
    assert b[9..] == buffer[at + 9..];
    if |b| >= 14 { assert b[14..] == buffer[at + 14..]; }
  }

  lemma ParseNothing(b: bytes, n: int)
    requires n <= |b| && n <= USER_HEADER_SIZE
    ensures Parse(b, n) == Parsed([], 0, true)
  {
  }

  // ---- the reader inverts the encoding -----------------------------------------------------

  lemma ControlFields(m: Control, rest: bytes)
    requires WellFormed(m)
    ensures var b := EncodeControl(m) + rest;
      && b[|EncodeControl(m)|..] == rest
      && First(b) == if m.LogState? then Ignored else Applied(LevelChange(m.pos, m.level))
  {
    hide Le, FromLe;
    Ranges();
    var t := if m.LogState? then DLT_USER_MESSAGE_LOG_STATE else DLT_USER_MESSAGE_LOG_LEVEL;
    LeRoundTrip(t, 4);
    var b := EncodeControl(m) + rest;
    assert b[4..8] == Le(t, 4);
    if m.LogLevelMsg? {
      LeRoundTrip(m.pos, 4);
      assert b[10..14] == Le(m.pos, 4);
    }
  }

  lemma ParseOne(m: Control, rest: bytes, n: nat)
    requires WellFormed(m) && n <= |rest|
    ensures var one, others := EncodeControl(m), Parse(rest, n);
      Parse(one + rest, |one| + n) == Parsed(Changes([m]) + others.changes, |one| + others.cursor, others.defined)
  {
    hide EncodeControl, Le, FromLe, First;
    ControlFields(m, rest);
    assert [m][1..] == [] && Changes([]) == [];
  }

  /** Whole messages at the front are read one by one, whatever follows them. */
  lemma {:induction false} ParseMessages(ms: seq<Control>, rest: bytes, n: nat)
    requires forall m <- ms :: WellFormed(m)
    requires n <= |rest|
    ensures var all, others := EncodeControls(ms), Parse(rest, n);
      Parse(all + rest, |all| + n) == Parsed(Changes(ms) + others.changes, |all| + others.cursor, others.defined)
  {
    hide EncodeControl, Parse, WellFormed, EncodeControls, Changes;
    var all := EncodeControls(ms);
    Front(ms);
    if ms == [] {
      assert all + rest == rest && Changes(ms) + Parse(rest, n).changes == Parse(rest, n).changes;
    } else {
      var m, others := ms[0], EncodeControls(ms[1..]);
      ParseMessages(ms[1..], rest, n);
      assert m in ms;
      ParseOne(m, others + rest, |others| + n);
      assert all + rest == EncodeControl(m) + (others + rest);
    }
  }

  lemma Front(ms: seq<Control>)
    ensures ms == [] ==> EncodeControls(ms) == [] && Changes(ms) == []
    ensures ms != [] ==> EncodeControls(ms) == EncodeControl(ms[0]) + EncodeControls(ms[1..])
    ensures ms != [] ==> Changes(ms) == Changes([ms[0]]) + Changes(ms[1..])
  {
    hide EncodeControl;
    if ms != [] { assert [ms[0]][1..] == [] && Changes([]) == []; }
  }

  /** A buffer of whole messages applies exactly their level changes, in order, and is read to its end. */
  lemma ParseInverts(ms: seq<Control>, stale: bytes)
    requires forall m <- ms :: WellFormed(m)
    ensures var all := EncodeControls(ms);
      Parse(all + stale, |all|) == Parsed(Changes(ms), |all|, true)
  {
    hide WellFormed, EncodeControls, Changes;
    ParseMessages(ms, stale, 0);
  }

  /** A message of another type ends the reading; only what came before it is applied. */
  lemma ParseStopsAtUnknown(ms: seq<Control>, unknown: bytes, n: nat)
    requires forall m <- ms :: WellFormed(m)
    requires USER_HEADER_SIZE < n <= |unknown|
    requires TypeAt(unknown) != DLT_USER_MESSAGE_LOG_STATE && TypeAt(unknown) != DLT_USER_MESSAGE_LOG_LEVEL
    ensures var all := EncodeControls(ms);
      Parse(all + unknown, |all| + n) == Parsed(Changes(ms), |all| + USER_HEADER_SIZE, true)
  {
    hide WellFormed, EncodeControls, Changes, TypeAt;
    ParseMessages(ms, unknown, n);
  }

  // ---- a message cut by the read -----------------------------------------------------------

  /**
   When a read returns only the first `k` bytes of a level message, `rest` is those and the stale bytes
   after them. With at most its header the message is lost. With more, its level goes to the position
   found in `rest`, if that lies in the buffer and is not negative; otherwise the behaviour is undefined.
   */
  lemma TornLevelMessage(ms: seq<Control>, torn: Control, k: nat, stale: bytes)
    requires forall m <- ms :: WellFormed(m)
    requires torn.LogLevelMsg? && k < |EncodeControl(torn)|
    ensures
      var all, rest := EncodeControls(ms), EncodeControl(torn)[..k] + stale;
      var found := Parse(all + rest, |all| + k);
      && (found.defined <==> k <= USER_HEADER_SIZE || (|rest| >= 14 && Int32(rest[10..14]) >= 0))
      && found.changes == Changes(ms) + (if found.defined && k > USER_HEADER_SIZE
                                         then [LevelChange(Int32(rest[10..14]), torn.level)] else [])
  {
    hide WellFormed, EncodeControls, Changes, Le, FromLe, Int32;
    var whole := EncodeControl(torn);
    var rest := whole[..k] + stale;
    if k > USER_HEADER_SIZE {
      Ranges();
      LeRoundTrip(DLT_USER_MESSAGE_LOG_LEVEL, 4);
      assert rest[4..8] == whole[4..8] == Le(DLT_USER_MESSAGE_LOG_LEVEL, 4);
      assert rest[8] == torn.level;
    }
    ParseMessages(ms, rest, k);
  }

  /** What the stale bytes after ten received ones can do. */
  lemma TornExamples(torn: Control)
    requires torn.LogLevelMsg?
    ensures var received := EncodeControl(torn)[..10];
      // The sign bit is set: the level of a context before the first would be changed.
      && !Parse(received + [0, 0, 0, 128], 10).defined
      // The buffer ends here: the position is read past it.
      && !Parse(received, 10).defined
      // Any other position: the level goes to a context the daemon did not address.
      && Parse(received + [7, 0, 0, 0], 10).changes == [LevelChange(7, torn.level)]
  {
    hide EncodeControl, Parse;
    assert [0, 0, 0, 128][..4] == [0, 0, 0, 128] && [7, 0, 0, 0][..4] == [7, 0, 0, 0];
    assert EncodeControl(torn)[..10] + [] == EncodeControl(torn)[..10];
    TornAtTen(torn, [0, 0, 0, 128]);
    TornAtTen(torn, []);
    TornAtTen(torn, [7, 0, 0, 0]);
    FourBytes(0, 128);
    FourBytes(7, 0);
  }

  lemma TornAtTen(torn: Control, stale: bytes)
    requires torn.LogLevelMsg?
    ensures
      var found := Parse(EncodeControl(torn)[..10] + stale, 10);
      && (found.defined <==> |stale| >= 4 && Int32(stale[..4]) >= 0)
      && (found.defined ==> found.changes == [LevelChange(Int32(stale[..4]), torn.level)])
  {
    hide Parse, Int32;
    TornLevelMessage([], torn, 10, stale);
    var rest := EncodeControl(torn)[..10] + stale;
    assert [] + rest == rest;
    if |stale| >= 4 { assert rest[10..14] == stale[..4]; }
  }

  lemma FourBytes(first: byte, last: byte)
    ensures FromLe([first, 0, 0, last]) == first + 0x100_0000 * last
  {
    assert FromLe([0, 0, last]) == 256 * FromLe([0, last]) && FromLe([0, last]) == 256 * FromLe([last]);
    assert FromLe([last]) == last + 256 * FromLe([]);
  }
}
