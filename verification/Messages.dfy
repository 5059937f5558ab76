/**
 The messages an application sends to the DLT daemon, their bytes, and the daemon's decoder. Log messages
 carry a standard header (section 5.1.1 of the AUTOSAR PRS Log and Trace Protocol) with its extra
 fields, an extended header (section 5.1.2) and the payload.
 */
module Messages {
  import opened Bytes
  import opened DltProtocol

  datatype Message =
    | RegisterApp(apid: Id, pid: nat, description: bytes)
    | RegisterContext(apid: Id, ctid: Id, pos: nat, level: int, traceStatus: int, pid: nat, description: bytes)
    | SendLog(mcnt: byte, seid: nat, tmsp: nat, level: int, noar: byte, apid: Id, ctid: Id, payload: bytes)

  const UINT32: nat := 0x1_0000_0000
  const LOG_HEADERS_SIZE: nat := DLT_STANDARD_HEADER_SIZE + DLT_STANDARD_HEADER_EXTRA_SIZE + DLT_EXTENDED_HEADER_SIZE

  ghost predicate WellFormed(m: Message) {
    match m
    case RegisterApp(_, pid, d) => pid < UINT32 && |d| < UINT32
    case RegisterContext(_, _, pos, level, trace, pid, d) =>
      pos < 0x8000_0000 && -128 <= level < 128 && -128 <= trace < 128 && pid < UINT32 && |d| < UINT32
    case SendLog(_, seid, tmsp, level, _, _, _, payload) =>
      seid < UINT32 && tmsp < UINT32 && -1 <= level <= 6 && LOG_HEADERS_SIZE + |payload| < 0x1_0000
  }

  function MessageType(m: Message): nat {
    match m
    case RegisterApp(_, _, _) => REGISTER_APP
    case RegisterContext(_, _, _, _, _, _, _) => REGISTER_CONTEXT
    case SendLog(_, _, _, _, _, _, _, _) => SEND_LOG
  }

  function UserHeader(messageType: nat): bytes {
    USER_HEADER_PATTERN + Le(messageType, 4)
  }

  /** An int8_t as its byte. */
  function Int8(v: int): byte
    requires -128 <= v < 128
  {
    if v < 0 then v + 256 else v
  }

  /** msin: verbose, type log (0), and the level in the upper half. */
  function Msin(level: int): byte {
    DLT_MSIN_VERB + 16 * (level % 16)
  }

  function StandardHeader(mcnt: byte, length: nat): bytes {
    [DLT_HTYP, mcnt] + Be(length, 2)
  }

  function HeaderExtra(seid: nat, tmsp: nat): bytes {
    ECU_ID + Be(seid, 4) + Be(tmsp, 4)
  }

  function ExtendedHeader(level: int, noar: byte, apid: Id, ctid: Id): bytes {
    [Msin(level), noar] + apid + ctid
  }

  function Fields(m: Message): bytes
    requires WellFormed(m)
  {
    match m
    case RegisterApp(apid, pid, d) => apid + Le(pid, 4) + Le(|d|, 4) + d
    case RegisterContext(apid, ctid, pos, level, trace, pid, d) =>
      apid + ctid + Le(pos, 4) + [Int8(level), Int8(trace)] + Le(pid, 4) + Le(|d|, 4) + d
    case SendLog(mcnt, seid, tmsp, level, noar, apid, ctid, payload) =>
      StandardHeader(mcnt, LOG_HEADERS_SIZE + |payload|) + HeaderExtra(seid, tmsp)
      + ExtendedHeader(level, noar, apid, ctid) + payload
  }

  function Encode(m: Message): bytes
    requires WellFormed(m)
  {
    UserHeader(MessageType(m)) + Fields(m)
  }

  function EncodeStream(ms: seq<Message>): bytes
    requires forall m <- ms :: WellFormed(m)
  {
    if ms == [] then [] else EncodeStream(ms[..|ms| - 1]) + Encode(ms[|ms| - 1])
  }

  // ---- the daemon's side -------------------------------------------------------------------

  function FromInt8(b: byte): int {
    if b < 128 then b else b - 256
  }

  function LevelOf(msin: byte): int {
    if msin / 16 == 15 then -1 else msin / 16
  }

  function DecodeRegisterApp(b: bytes): (r: Option<(Message, bytes)>)
    ensures r.Some? ==> |r.value.1| <= |b|
  {
    if |b| < 12 then None else
    var n := FromLe(b[8..12]);
    if |b| < 12 + n then None
    else Some((RegisterApp(b[..4], FromLe(b[4..8]), b[12..12 + n]), b[12 + n..]))
  }

  function DecodeRegisterContext(b: bytes): (r: Option<(Message, bytes)>)
    ensures r.Some? ==> |r.value.1| <= |b|
  {
    if |b| < 22 then None else
    var n := FromLe(b[18..22]);
    if |b| < 22 + n then None
    else Some((RegisterContext(b[..4], b[4..8], FromLe(b[8..12]), FromInt8(b[12]), FromInt8(b[13]),
                               FromLe(b[14..18]), b[22..22 + n]),
               b[22 + n..]))
  }

  /** The length field of the standard header delimits a log message: it counts all bytes after the user header. */
  function DecodeSendLog(b: bytes): (r: Option<(Message, bytes)>)
    ensures r.Some? ==> |r.value.1| <= |b|
  {
    if |b| < LOG_HEADERS_SIZE then None else
    var standard, extra, extended := b[..4], b[4..16], b[16..26];
    if standard[0] != DLT_HTYP || extra[..4] != ECU_ID || extended[0] % 16 != DLT_MSIN_VERB then None else
    var length := FromBe(standard[2..4]);
    if length < LOG_HEADERS_SIZE || |b| < length then None
    else
      Some((SendLog(standard[1], FromBe(extra[4..8]), FromBe(extra[8..12]),
                    LevelOf(extended[0]), extended[1], extended[2..6], extended[6..10], b[26..length]), b[length..]))
  }

  function Decode(b: bytes): (r: Option<(Message, bytes)>)
    ensures r.Some? ==> |r.value.1| < |b|
  {
    if |b| < 8 || b[..4] != USER_HEADER_PATTERN then None else
    var messageType, rest := FromLe(b[4..8]), b[8..];
    if messageType == REGISTER_APP then DecodeRegisterApp(rest)
    else if messageType == REGISTER_CONTEXT then DecodeRegisterContext(rest)
    else if messageType == SEND_LOG then DecodeSendLog(rest)
    else None
  }

  function DecodeStream(b: bytes): Option<seq<Message>>
    decreases |b|
  {
    if b == [] then Some([]) else
    var first := Decode(b);
    if first.None? then None else
    var others := DecodeStream(first.value.1);
    if others.None? then None else Some([first.value.0] + others.value)
  }

  // ---- round trips -------------------------------------------------------------------------

  lemma Le4(n: nat)
    requires n < UINT32
    ensures FromLe(Le(n, 4)) == n
  {
    Ranges();
    LeRoundTrip(n, 4);
  }

  lemma Be4(n: nat)
    requires n < UINT32
    ensures FromBe(Be(n, 4)) == n
  {
    Ranges();
    BeRoundTrip(n, 4);
  }

  lemma Be2(n: nat)
    requires n < 0x1_0000
    ensures FromBe(Be(n, 2)) == n
  {
    Ranges();
    BeRoundTrip(n, 2);
  }

  lemma RegisterAppInverts(m: Message, rest: bytes)
    requires WellFormed(m) && m.RegisterApp?
    ensures DecodeRegisterApp(Fields(m) + rest) == Some((m, rest))
  {
    hide Le, FromLe;
    var b, n := Fields(m) + rest, |m.description|;
    Le4(m.pid);
    Le4(n);
    assert b[..4] == m.apid && b[4..8] == Le(m.pid, 4) && b[8..12] == Le(n, 4);
    assert b[12..12 + n] == m.description && b[12 + n..] == rest;
  }

  lemma RegisterContextInverts(m: Message, rest: bytes)
    requires WellFormed(m) && m.RegisterContext?
    ensures DecodeRegisterContext(Fields(m) + rest) == Some((m, rest))
  {
    hide Le, FromLe;
    var b, n := Fields(m) + rest, |m.description|;
    Le4(m.pos);
    Le4(m.pid);
    Le4(n);
    assert b[..4] == m.apid && b[4..8] == m.ctid && b[8..12] == Le(m.pos, 4);
    assert b[12] == Int8(m.level) && b[13] == Int8(m.traceStatus);
    assert b[14..18] == Le(m.pid, 4) && b[18..22] == Le(n, 4);
    assert b[22..22 + n] == m.description && b[22 + n..] == rest;
  }

  lemma SendLogInverts(m: Message, rest: bytes)
    requires WellFormed(m) && m.SendLog?
    ensures DecodeSendLog(Fields(m) + rest) == Some((m, rest))
  {
    hide Be, FromBe;
    var length := LOG_HEADERS_SIZE + |m.payload|;
    var standard, extra, extended := StandardHeader(m.mcnt, length), HeaderExtra(m.seid, m.tmsp),
      ExtendedHeader(m.level, m.noar, m.apid, m.ctid);
    HeaderFields(m, length);
    hide StandardHeader, HeaderExtra, ExtendedHeader;
    var b := Fields(m) + rest;
    assert b[..4] == standard && b[4..16] == extra && b[16..26] == extended;
    assert b[26..length] == m.payload && b[length..] == rest;
  }

  lemma HeaderFields(m: Message, length: nat)
    requires m.SendLog? && WellFormed(m) && length < 0x1_0000
    ensures var s := StandardHeader(m.mcnt, length);
            |s| == 4 && s[0] == DLT_HTYP && s[1] == m.mcnt && FromBe(s[2..4]) == length
    ensures var x := HeaderExtra(m.seid, m.tmsp);
            |x| == 12 && x[..4] == ECU_ID && FromBe(x[4..8]) == m.seid && FromBe(x[8..12]) == m.tmsp
    ensures var e := ExtendedHeader(m.level, m.noar, m.apid, m.ctid);
            |e| == 10 && e[0] % 16 == DLT_MSIN_VERB && LevelOf(e[0]) == m.level && e[1] == m.noar
              && e[2..6] == m.apid && e[6..10] == m.ctid
  {
    hide Be, FromBe;
    Be2(length);
    Be4(m.seid);
    Be4(m.tmsp);
    assert StandardHeader(m.mcnt, length)[2..4] == Be(length, 2);
    assert HeaderExtra(m.seid, m.tmsp)[4..8] == Be(m.seid, 4) && HeaderExtra(m.seid, m.tmsp)[8..12] == Be(m.tmsp, 4);
  }

  lemma DecodeInverts(m: Message, rest: bytes)
    requires WellFormed(m)
    ensures Decode(Encode(m) + rest) == Some((m, rest))
  {
    hide Le, FromLe, Fields, WellFormed, DecodeRegisterApp, DecodeRegisterContext, DecodeSendLog;
    var b := Encode(m) + rest;
    Le4(MessageType(m));
    assert b[..4] == USER_HEADER_PATTERN && b[4..8] == Le(MessageType(m), 4) && b[8..] == Fields(m) + rest;
    match m
    case RegisterApp(_, _, _) => RegisterAppInverts(m, rest);
    case RegisterContext(_, _, _, _, _, _, _) => RegisterContextInverts(m, rest);
    case SendLog(_, _, _, _, _, _, _, _) => SendLogInverts(m, rest);
  }

  lemma EncodeStreamAppend(ms: seq<Message>, m: Message)
    requires forall x <- ms :: WellFormed(x)
    requires WellFormed(m)
    ensures forall x <- ms + [m] :: WellFormed(x)
    ensures EncodeStream(ms + [m]) == EncodeStream(ms) + Encode(m)
  {
    hide Encode, WellFormed;
    assert (ms + [m])[..|ms|] == ms;
  }

  lemma {:induction false} EncodeStreamFront(ms: seq<Message>)
    requires ms != []
    requires forall m <- ms :: WellFormed(m)
    ensures EncodeStream(ms) == Encode(ms[0]) + EncodeStream(ms[1..])
  {
    hide Encode, WellFormed, EncodeStream;
    var front, last := ms[..|ms| - 1], ms[|ms| - 1];
    assert ms == front + [last];
    EncodeStreamAppend(front, last);
    if front == [] {
      assert ms[1..] == [];
      EmptyStream();
    } else {
      EncodeStreamFront(front);
      EncodeStreamAppend(front[1..], last);
      assert ms[1..] == front[1..] + [last];
    }
  }

  lemma EmptyStream()
    ensures EncodeStream([]) == []
  {
  }

  /** The bytes of one connection are self-delimiting: the daemon gets back exactly the messages sent. */
  lemma {:induction false} DecodeStreamInverts(ms: seq<Message>)
    requires forall m <- ms :: WellFormed(m)
    ensures DecodeStream(EncodeStream(ms)) == Some(ms)
  {
    if ms == [] {
      EmptyStream();
    } else {
      hide Encode, Decode, WellFormed, EncodeStream;
      EncodeStreamFront(ms);
      assert ms[0] in ms;
      DecodeInverts(ms[0], EncodeStream(ms[1..]));
      DecodeStreamInverts(ms[1..]);
      assert ms == [ms[0]] + ms[1..];
    }
  }

  /** The bytes sent for a log message, whatever its size. */
  function LogBytes(m: Message): (b: bytes)
    requires m.SendLog?
    ensures WellFormed(m) ==> b == Encode(m)
  {
    UserHeader(SEND_LOG) + (StandardHeader(m.mcnt, LOG_HEADERS_SIZE + |m.payload|) + HeaderExtra(m.seid, m.tmsp)
    + ExtendedHeader(m.level, m.noar, m.apid, m.ctid) + m.payload)
  }

  /** "DUH" 0x01 and the message type. */
  lemma UserLayout(m: Message)
    ensures
      var code := match m case RegisterApp(_, _, _) => 2 case RegisterContext(_, _, _, _, _, _, _) => 4 case _ => 1;
      UserHeader(MessageType(m)) == [68, 85, 72, 1, code, 0, 0, 0]
  {
    SmallLe(1);
    SmallLe(2);
    SmallLe(4);
    hide Le;
  }

  lemma HeaderLayout(m: Message, length: nat)
    requires m.SendLog?
    ensures var s := StandardHeader(m.mcnt, length);
      |s| == 4 && s[0] == 61 && s[1] == m.mcnt && s[2..] == Be(length, 2)
    ensures var x := HeaderExtra(m.seid, m.tmsp);
      |x| == 12 && x[..4] == [69, 67, 85, 49] && x[4..8] == Be(m.seid, 4) && x[8..] == Be(m.tmsp, 4)
    ensures var e := ExtendedHeader(m.level, m.noar, m.apid, m.ctid);
      |e| == 10 && e[0] == 1 + 16 * (m.level % 16) && e[1] == m.noar && e[2..6] == m.apid && e[6..] == m.ctid
  {
    hide Be;
  }

  /** The places of the fields of a log message; numbers are big-endian here. */
  lemma LogLayout(m: Message)
    requires m.SendLog?
    ensures
      var b := LogBytes(m);
      // user header
      && |b| == 34 + |m.payload| && b[..8] == [68, 85, 72, 1, 1, 0, 0, 0]
      // standard header: version 1 with all extra fields, counter, length; "ECU1", session, time
      && b[8] == 61 && b[9] == m.mcnt && b[10..12] == Be(26 + |m.payload|, 2)
      && b[12..16] == [69, 67, 85, 49] && b[16..20] == Be(m.seid, 4) && b[20..24] == Be(m.tmsp, 4)
      // extended header: verbose log with its level, number of arguments, application, context; then the payload
      && b[24] == 1 + 16 * (m.level % 16) && b[25] == m.noar && b[26..30] == m.apid && b[30..34] == m.ctid
      && b[34..] == m.payload
  {
    UserLayout(m);
    var length := 26 + |m.payload|;
    HeaderLayout(m, length);
    var user, standard, extra := UserHeader(SEND_LOG), StandardHeader(m.mcnt, length), HeaderExtra(m.seid, m.tmsp);
    var extended := ExtendedHeader(m.level, m.noar, m.apid, m.ctid);
    var b := LogBytes(m);
    hide Be, UserHeader, StandardHeader, HeaderExtra, ExtendedHeader;
    LogPieces(user, standard, extra, extended, m.payload);
    assert b == user + (standard + extra + extended + m.payload);
    hide LogBytes;
    InnerPieces(b);
  }

  lemma InnerPieces(b: bytes)
    requires |b| >= 34
    ensures b[8] == b[8..12][0] && b[9] == b[8..12][1] && b[10..12] == b[8..12][2..]
    ensures b[12..16] == b[12..24][..4] && b[16..20] == b[12..24][4..8] && b[20..24] == b[12..24][8..]
    ensures b[24] == b[24..34][0] && b[25] == b[24..34][1]
    ensures b[26..30] == b[24..34][2..6] && b[30..34] == b[24..34][6..]
  {
    Inside(b, 8, 12, 2, 4);
    Inside(b, 12, 24, 0, 4);
    Inside(b, 12, 24, 4, 8);
    Inside(b, 12, 24, 8, 12);
    Inside(b, 24, 34, 2, 6);
    Inside(b, 24, 34, 6, 10);
  }

  lemma Inside(b: bytes, from: nat, to: nat, i: nat, j: nat)
    requires i <= j <= to - from && to <= |b|
    ensures b[from..to][i..j] == b[from + i..from + j]
  {
    var part := b[from..to];
    assert forall k :: i <= k < j ==> part[k] == b[from + k];
    forall k | 0 <= k < j - i ensures part[i..j][k] == b[from + i..from + j][k] {
      assert part[i..j][k] == part[i + k] == b[from + (i + k)];
    }
  }

  lemma LogPieces(a: bytes, b: bytes, c: bytes, d: bytes, e: bytes)
    requires |a| == 8 && |b| == 4 && |c| == 12 && |d| == 10
    ensures var s := a + (b + c + d + e);
      s[..8] == a && s[8..12] == b && s[12..24] == c && s[24..34] == d && s[34..] == e
  {
  }

  /** The places of the fields of the registrations; numbers are little-endian here. */
  lemma RegisterAppLayout(m: Message)
    requires WellFormed(m) && m.RegisterApp?
    ensures
      var b := Encode(m);
      && b[..8] == [68, 85, 72, 1, 2, 0, 0, 0] && b[8..12] == m.apid && b[12..16] == Le(m.pid, 4)
      && b[16..20] == Le(|m.description|, 4) && b[20..] == m.description
  {
    UserLayout(m);
    hide Le, UserHeader;
  }

  lemma RegisterContextLayout(m: Message)
    requires WellFormed(m) && m.RegisterContext?
    ensures
      var b := Encode(m);
      && b[..8] == [68, 85, 72, 1, 4, 0, 0, 0] && b[8..12] == m.apid && b[12..16] == m.ctid
      && b[16..20] == Le(m.pos, 4) && b[20] == m.level % 256 && b[21] == m.traceStatus % 256
      && b[22..26] == Le(m.pid, 4) && b[26..30] == Le(|m.description|, 4) && b[30..] == m.description
  {
    UserLayout(m);
    hide Le, UserHeader;
    ContextPieces(
      UserHeader(REGISTER_CONTEXT), m.apid, m.ctid, Le(m.pos, 4), [Int8(m.level), Int8(m.traceStatus)], Le(m.pid, 4),
      Le(|m.description|, 4), m.description);
  }

  lemma ContextPieces(a: bytes, b: bytes, c: bytes, d: bytes, e: bytes, f: bytes, g: bytes, h: bytes)
    requires |a| == 8 && |b| == |c| == |d| == |f| == |g| == 4 && |e| == 2
    ensures var s := a + (b + c + d + e + f + g + h);
      && s[..8] == a && s[8..12] == b && s[12..16] == c && s[16..20] == d && s[20] == e[0] && s[21] == e[1]
      && s[22..26] == f && s[26..30] == g && s[30..] == h
  {
  }

  lemma Be2Wraps(n: nat)
    ensures FromBe(Be(n, 2)) == n % 0x1_0000
  {
    var high, low := n / 256 % 256, n % 256;
    assert Be(n, 2) == Be(n / 256, 1) + [low] && Be(n / 256, 1) == Be(n / 256 / 256, 0) + [high];
    assert Be(n, 2) == [high, low];
    assert [high, low][..1] == [high];
    hide Be;
    assert FromBe([high]) == 256 * FromBe([high][..0]) + high;
    hide FromBe;
    TwoDigits(n);
  }

  lemma TwoDigits(n: nat)
    ensures n % 0x1_0000 == 256 * (n / 256 % 256) + n % 256
  {
    var rest := 256 * (n / 256 % 256) + n % 256;
    assert n == rest + (n / 256 / 256) * 0x1_0000;
  }

  /** The 16-bit length field equals the number of bytes after the user header exactly when it can hold it. */
  lemma LengthField(m: Message)
    requires m.SendLog?
    ensures var b := LogBytes(m); FromBe(b[10..12]) == |b| - 8 <==> |b| - 8 < 0x1_0000
  {
    hide Be, FromBe, Le;
    var length := LOG_HEADERS_SIZE + |m.payload|;
    Be2Wraps(length);
    assert LogBytes(m)[10..12] == Be(length, 2);
    assert |LogBytes(m)| == length + 8;
  }
}
