/**
 The daemon's stream of control messages, cut into the pieces that successive reads return. Every read is
 taken to start with a message header, whatever it starts with.
 */
module ControlStream {
  import opened Bytes
  import opened DltProtocol
  import opened ControlInput

  /** What one read returned, and what its buffer holds behind that. */
  datatype Read = Read(received: bytes, stale: bytes)

  function Received(pieces: seq<Read>): bytes {
    if pieces == [] then [] else pieces[0].received + Received(pieces[1..])
  }

  function Parsed(read: Read): ControlInput.Parsed {
    Parse(read.received + read.stale, |read.received|)
  }

  /** The level changes applied after all reads. */
  function Heard(pieces: seq<Read>): seq<LevelChange> {
    if pieces == [] then [] else Parsed(pieces[0]).changes + Heard(pieces[1..])
  }

  predicate AllDefined(pieces: seq<Read>) {
    forall read <- pieces :: Parsed(read).defined
  }

  // ---- where a read ends -------------------------------------------------------------------

  /** How many of the messages lie within the first `n` bytes, and how much of the next one does. */
  function Whole(ms: seq<Control>, n: nat): (j: nat)
    ensures j <= |ms|
  {
    if ms == [] || n < |EncodeControl(ms[0])| then 0 else 1 + Whole(ms[1..], n - |EncodeControl(ms[0])|)
  }

  function Into(ms: seq<Control>, n: nat): (k: nat)
    ensures k > 0 ==> Whole(ms, n) < |ms| && k < |EncodeControl(ms[Whole(ms, n)])|
  {
    if ms == [] then 0
    else if n < |EncodeControl(ms[0])| then n
    else Into(ms[1..], n - |EncodeControl(ms[0])|)
  }

  /**
   The stream is `tail`, the rest of a message that a read has cut, and then `ms`. These are the number of
   messages that begin in its first `n` bytes, and the new rest.
   */
  function Begun(tail: bytes, ms: seq<Control>, n: nat): (j: nat)
    ensures j <= |ms|
  {
    if n <= |tail| then 0
    else Whole(ms, n - |tail|) + if Into(ms, n - |tail|) > 0 then 1 else 0
  }

  function NextTail(tail: bytes, ms: seq<Control>, n: nat): bytes {
    if n <= |tail| then tail[n..]
    else
      var j, k := Whole(ms, n - |tail|), Into(ms, n - |tail|);
      if k > 0 then EncodeControl(ms[j])[k..] else []
  }

  lemma Overlap(a: bytes, b: bytes, c: bytes, d: bytes)
    requires a + b == c + d && |a| <= |c|
    ensures a == c[..|a|] && c == a + c[|a|..] && b == c[|a|..] + d
  {
    var all := a + b;
    assert a == all[..|a|] && c[..|a|] == all[..|a|] && b == all[|a|..] && c[|a|..] + d == all[|a|..];
  }

  /** The bytes of the first `n` are those of the whole messages and of the part of the next one. */
  lemma {:induction false} SplitAt(ms: seq<Control>, a: bytes, b: bytes)
    requires a + b == EncodeControls(ms)
    ensures
      var j, k := Whole(ms, |a|), Into(ms, |a|);
      && a == EncodeControls(ms[..j]) + (if k > 0 then EncodeControl(ms[j])[..k] else [])
      && b == if k > 0 then EncodeControl(ms[j])[k..] + EncodeControls(ms[j + 1..]) else EncodeControls(ms[j..])
  {
    hide EncodeControl, EncodeControls, Whole, Into;
    Front(ms);
    Front([]);
    NextWhole(ms, |a|);
    if ms != [] {
      var one, others := EncodeControl(ms[0]), EncodeControls(ms[1..]);
      if |a| < |one| {
        Overlap(a, b, one, others);
        assert ms[..0] == [] && ms[0..] == ms;
      } else {
        Overlap(one, others, a, b);
        var rest := a[|one|..];
        SplitAt(ms[1..], rest, b);
        var j, k := Whole(ms[1..], |rest|), Into(ms[1..], |rest|);
        SplitOne(ms, j);
        Assoc(one, EncodeControls(ms[1..][..j]), if k > 0 then EncodeControl(ms[1..][j])[..k] else []);
      }
    }
  }

  lemma NextWhole(ms: seq<Control>, n: nat)
    ensures ms == [] ==> Whole(ms, n) == Into(ms, n) == 0
    ensures ms != [] && n < |EncodeControl(ms[0])| ==> Whole(ms, n) == 0 && Into(ms, n) == n
    ensures ms != [] && n >= |EncodeControl(ms[0])| ==>
      var rest := n - |EncodeControl(ms[0])|;
      Whole(ms, n) == 1 + Whole(ms[1..], rest) && Into(ms, n) == Into(ms[1..], rest)
  {
  }

  lemma SplitOne(ms: seq<Control>, j: nat)
    requires j < |ms|
    ensures EncodeControls(ms[..j + 1]) == EncodeControl(ms[0]) + EncodeControls(ms[1..][..j])
    ensures ms[j + 1..] == ms[1..][j..]
  {
    hide EncodeControl, EncodeControls;
    Front(ms[..j + 1]);
    assert ms[..j + 1][0] == ms[0] && ms[..j + 1][1..] == ms[1..][..j];
  }

  lemma NextRest(tail: bytes, ms: seq<Control>, a: bytes, b: bytes)
    requires a + b == tail + EncodeControls(ms)
    ensures b == NextTail(tail, ms, |a|) + EncodeControls(ms[Begun(tail, ms, |a|)..])
  {
    hide EncodeControl, EncodeControls, Whole, Into;
    if |a| <= |tail| {
      Overlap(a, b, tail, EncodeControls(ms));
    } else {
      Overlap(tail, EncodeControls(ms), a, b);
      SplitAt(ms, a[|tail|..], b);
    }
  }

  // ---- what a read does --------------------------------------------------------------------

  /** A read that starts inside a message is not taken for a known one. */
  predicate Unmistaken(read: Read, tail: bytes) {
    tail != [] && |read.received| > USER_HEADER_SIZE ==>
      TypeAt(read.received) != DLT_USER_MESSAGE_LOG_STATE && TypeAt(read.received) != DLT_USER_MESSAGE_LOG_LEVEL
  }

  /** The position that is found for a message of which `k` bytes were received, if there is one. */
  predicate PositionFound(m: Control, k: nat, stale: bytes)
    requires m.LogLevelMsg? && k <= |EncodeControl(m)|
  {
    var found := EncodeControl(m)[..k] + stale;
    k > USER_HEADER_SIZE && |found| >= 14 && Int32(found[10..14]) == m.pos
  }

  /**
   Every level message that begins in the read has its effect: if the read starts on a message, that is so
   unless it cuts one before its position is known; if it starts inside one, there must be none.
   */
  predicate Kept(read: Read, tail: bytes, ms: seq<Control>) {
    var n := |read.received|;
    if tail != [] then forall i | 0 <= i < Begun(tail, ms, n) :: ms[i].LogState?
    else
      var j, k := Whole(ms, n), Into(ms, n);
      k > 0 && ms[j].LogLevelMsg? ==> PositionFound(ms[j], k, read.stale)
  }

  lemma {:induction false} ChangesConcat(a: seq<Control>, b: seq<Control>)
    ensures Changes(a + b) == Changes(a) + Changes(b)
  {
    hide Changes;
    if a == [] {
      assert a + b == b;
      OneChange([], b);
    } else {
      var m, others := a[0], a[1..];
      ChangesConcat(others, b);
      assert a == [m] + others && a + b == [m] + (others + b);
      OneChange([m], others);
      OneChange([m], others + b);
      Associative(Changes([m]), Changes(others), Changes(b));
    }
  }

  /** The changes of a single message, or of none, come first. */
  lemma OneChange(one: seq<Control>, others: seq<Control>)
    requires |one| <= 1
    ensures Changes(one + others) == Changes(one) + Changes(others)
    ensures Changes(one) ==
      if one != [] && one[0].LogLevelMsg? then [LevelChange(one[0].pos, one[0].level)] else []
  {
    if one != [] {
      assert one[1..] == [] && Changes([]) == [];
      assert (one + others)[1..] == others;
    } else {
      assert one + others == others;
    }
  }

  lemma Associative(a: seq<LevelChange>, b: seq<LevelChange>, c: seq<LevelChange>)
    ensures a + b + c == a + (b + c)
  {
  }

  lemma {:induction false} NoChanges(ms: seq<Control>)
    ensures Changes(ms) == [] <==> forall i | 0 <= i < |ms| :: ms[i].LogState?
  {
    if ms != [] { NoChanges(ms[1..]); }
  }

  /** A read never applies more than the messages that begin in it ask for, and exactly that if it keeps them. */
  lemma ReadStep(read: Read, tail: bytes, ms: seq<Control>, rest: bytes)
    requires forall m <- ms :: WellFormed(m)
    requires read.received + rest == tail + EncodeControls(ms) && Unmistaken(read, tail)
    ensures
      var found, asked := Parsed(read), Changes(ms[..Begun(tail, ms, |read.received|)]);
      && |found.changes| <= |asked|
      && (found.defined && found.changes == asked <==> Kept(read, tail, ms))
  {
    hide Parsed, EncodeControl, EncodeControls, WellFormed, Whole, Into;
    if tail != [] {
      hide Begun, Changes;
      ReadInside(read, tail);
      NoChanges(ms[..Begun(tail, ms, |read.received|)]);
    } else {
      assert tail + EncodeControls(ms) == EncodeControls(ms);
      ReadOnMessage(read, ms, rest);
    }
  }

  lemma ReadInside(read: Read, tail: bytes)
    requires tail != [] && Unmistaken(read, tail)
    ensures Parsed(read).changes == [] && Parsed(read).defined
  {
    hide FromLe;
    if |read.received| > USER_HEADER_SIZE {
      assert (read.received + read.stale)[4..8] == read.received[4..8];
    }
  }

  lemma ReadOnMessage(read: Read, ms: seq<Control>, rest: bytes)
    requires forall m <- ms :: WellFormed(m)
    requires read.received + rest == EncodeControls(ms)
    ensures
      var found, asked := Parsed(read), Changes(ms[..Begun([], ms, |read.received|)]);
      && |found.changes| <= |asked|
      && (found.defined && found.changes == asked <==> Kept(read, [], ms))
  {
    hide EncodeControl, EncodeControls, Changes, Whole, Into, Parsed, WellFormed, PositionFound;
    var n := |read.received|;
    var j, k := Whole(ms, n), Into(ms, n);
    var front := ms[..j];
    SplitAt(ms, read.received, rest);
    PrefixWellFormed(ms, j);
    if n == 0 { NothingYet(ms); }
    if k == 0 {
      assert Begun([], ms, n) == j;
      WholeRead(front, read);
    } else {
      var m := ms[j];
      assert Begun([], ms, n) == j + 1;
      OneMore(ms, j);
      CutRead(front, m, k, read);
    }
  }

  lemma PrefixWellFormed(ms: seq<Control>, j: nat)
    requires j <= |ms| && forall m <- ms :: WellFormed(m)
    ensures (forall m <- ms[..j] :: WellFormed(m)) && (j < |ms| ==> WellFormed(ms[j]))
  {
    hide WellFormed;
  }

  lemma OneMore(ms: seq<Control>, j: nat)
    requires j < |ms|
    ensures Changes(ms[..j + 1]) ==
      Changes(ms[..j]) + if ms[j].LogLevelMsg? then [LevelChange(ms[j].pos, ms[j].level)] else []
  {
    hide Changes;
    assert ms[..j + 1] == ms[..j] + [ms[j]];
    ChangesConcat(ms[..j], [ms[j]]);
    OneChange([ms[j]], []);
  }

  lemma WholeRead(front: seq<Control>, read: Read)
    requires forall m <- front :: WellFormed(m)
    requires read.received == EncodeControls(front)
    ensures Parsed(read).changes == Changes(front) && Parsed(read).defined
  {
    hide WellFormed, EncodeControls, Changes, Parse;
    ParseInverts(front, read.stale);
  }

  /** A read that starts on a message and ends `k` bytes into the message `m`. */
  lemma CutRead(front: seq<Control>, m: Control, k: nat, read: Read)
    requires (forall x <- front :: WellFormed(x)) && WellFormed(m) && 0 < k < |EncodeControl(m)|
    requires read.received == EncodeControls(front) + EncodeControl(m)[..k]
    ensures
      var found, asked := Parsed(read), if m.LogLevelMsg? then [LevelChange(m.pos, m.level)] else [];
      && |found.changes| <= |Changes(front) + asked|
      && (found.defined && found.changes == Changes(front) + asked
          <==> (m.LogLevelMsg? ==> PositionFound(m, k, read.stale)))
  {
    hide EncodeControl, EncodeControls, Changes, Parse, WellFormed, Int32;
    var part := EncodeControl(m)[..k];
    Assoc(EncodeControls(front), part, read.stale);
    if m.LogState? {
      ParseMessages(front, part + read.stale, k);
      ParseNothing(part + read.stale, k);
    } else {
      TornLevelMessage(front, m, k, read.stale);
      NotNegative(m);
      if k > USER_HEADER_SIZE && Parsed(read).defined {
        var found := (part + read.stale)[10..14];
        SameLast(Changes(front), LevelChange(Int32(found), m.level), LevelChange(m.pos, m.level));
      }
    }
  }

  lemma SameLast(front: seq<LevelChange>, a: LevelChange, b: LevelChange)
    ensures front + [a] == front + [b] <==> a == b
  {
    assert (front + [a])[|front|] == a && (front + [b])[|front|] == b;
  }

  lemma NothingYet(ms: seq<Control>)
    ensures Whole(ms, 0) == 0 && Into(ms, 0) == 0
  {
  }

  lemma NotNegative(m: Control)
    requires WellFormed(m) && m.LogLevelMsg?
    ensures 0 <= m.pos < 0x8000_0000
  {
  }

  // ---- all reads ---------------------------------------------------------------------------

  predicate AllUnmistaken(pieces: seq<Read>, tail: bytes, ms: seq<Control>) {
    pieces != [] ==>
      var n := |pieces[0].received|;
      Unmistaken(pieces[0], tail) && AllUnmistaken(pieces[1..], NextTail(tail, ms, n), ms[Begun(tail, ms, n)..])
  }

  predicate AllKept(pieces: seq<Read>, tail: bytes, ms: seq<Control>) {
    pieces != [] ==>
      var n := |pieces[0].received|;
      Kept(pieces[0], tail, ms) && AllKept(pieces[1..], NextTail(tail, ms, n), ms[Begun(tail, ms, n)..])
  }

  /** If neither part is longer than it should be, a whole is right exactly if its parts are. */
  lemma SameParts(a: seq<LevelChange>, b: seq<LevelChange>, c: seq<LevelChange>, d: seq<LevelChange>)
    requires |a| <= |c| && |b| <= |d|
    ensures a + b == c + d <==> a == c && b == d
  {
    if a + b == c + d {
      assert |a| + |b| == |c| + |d|;
      assert a == (a + b)[..|a|] && c == (c + d)[..|c|];
      assert b == (a + b)[|a|..] && d == (c + d)[|c|..];
    }
  }

  /**
   For every stream of control messages and every way to cut it into reads: the changes applied are those
   of the stream exactly if every read keeps the level messages that begin in it. Never are there more.
   */
  lemma {:induction false} StreamHeard(pieces: seq<Read>, tail: bytes, ms: seq<Control>)
    requires forall m <- ms :: WellFormed(m)
    requires Received(pieces) == tail + EncodeControls(ms) && AllUnmistaken(pieces, tail, ms)
    ensures |Heard(pieces)| <= |Changes(ms)|
    ensures AllDefined(pieces) && Heard(pieces) == Changes(ms) <==> AllKept(pieces, tail, ms)
  {
    hide EncodeControl, EncodeControls, Changes, Parsed, WellFormed, Kept, Unmistaken, NextTail, Begun;
    if pieces == [] {
      NoMessages(tail, ms);
    } else {
      var read, others := pieces[0], pieces[1..];
      var j, next := Begun(tail, ms, |read.received|), NextTail(tail, ms, |read.received|);
      ReadStep(read, tail, ms, Received(others));
      NextRest(tail, ms, read.received, Received(others));
      StreamHeard(others, next, ms[j..]);
      ChangesConcat(ms[..j], ms[j..]);
      assert ms == ms[..j] + ms[j..];
      SameParts(Parsed(read).changes, Heard(others), Changes(ms[..j]), Changes(ms[j..]));
      assert pieces == [read] + others;
    }
  }

  lemma NoMessages(tail: bytes, ms: seq<Control>)
    requires [] == tail + EncodeControls(ms)
    ensures ms == [] && Changes(ms) == []
  {
    assert tail + EncodeControls(ms) == [];
    assert |EncodeControls(ms)| == 0;
  }

  // ---- reads that end between messages -----------------------------------------------------

  predicate AllBetween(pieces: seq<Read>, ms: seq<Control>) {
    pieces != [] ==>
      var n := |pieces[0].received|;
      Into(ms, n) == 0 && AllBetween(pieces[1..], ms[Whole(ms, n)..])
  }

  /** Then nothing is lost or misplaced, whatever the messages and the stale bytes are. */
  lemma {:induction false} CutBetween(pieces: seq<Read>, ms: seq<Control>)
    requires forall m <- ms :: WellFormed(m)
    requires Received(pieces) == EncodeControls(ms) && AllBetween(pieces, ms)
    ensures AllUnmistaken(pieces, [], ms) && AllKept(pieces, [], ms)
    ensures AllDefined(pieces) && Heard(pieces) == Changes(ms)
  {
    hide WellFormed, EncodeControls, Changes, Parsed;
    KeptBetween(pieces, ms);
    assert Received(pieces) == [] + EncodeControls(ms);
    StreamHeard(pieces, [], ms);
  }

  lemma {:induction false} KeptBetween(pieces: seq<Read>, ms: seq<Control>)
    requires AllBetween(pieces, ms)
    ensures AllUnmistaken(pieces, [], ms) && AllKept(pieces, [], ms)
  {
    hide EncodeControl, Whole, Into, Begun, NextTail, PositionFound;
    if pieces != [] {
      var n := |pieces[0].received|;
      EndBetween(ms, n);
      KeptBetween(pieces[1..], ms[Whole(ms, n)..]);
    }
  }

  lemma EndBetween(ms: seq<Control>, n: nat)
    requires Into(ms, n) == 0
    ensures Begun([], ms, n) == Whole(ms, n) && NextTail([], ms, n) == []
  {
    hide EncodeControl;
    if n == 0 { NothingYet(ms); }
  }

  // ---- reads that start inside a message ---------------------------------------------------

  ghost predicate FromDaemon(m: Control) {
    WellFormed(m) && m.pattern == USER_HEADER_PATTERN
  }

  predicate TypeCode(b: byte) {
    b == DLT_USER_MESSAGE_LOG_LEVEL || b == DLT_USER_MESSAGE_LOG_STATE
  }

  /** A level message whose own fields look like the type of a message, if `c` bytes of it are cut off. */
  predicate Ambiguous(m: Control, c: nat) {
    && m.LogLevelMsg?
    && if c == 4 then TypeCode(m.level) && m.traceStatus == 0 && m.pos % 0x1_0000 == 0
       else if c == 5 then TypeCode(m.traceStatus) && m.pos % 0x100_0000 == 0
       else c == 6 && (m.pos == DLT_USER_MESSAGE_LOG_LEVEL || m.pos == DLT_USER_MESSAGE_LOG_STATE)
  }

  /** Four bytes are one of the two types exactly if the first one is and the others are zero. */
  lemma TypeOfFour(b: bytes)
    requires |b| == 4
    ensures FromLe(b) == DLT_USER_MESSAGE_LOG_LEVEL || FromLe(b) == DLT_USER_MESSAGE_LOG_STATE
            <==> TypeCode(b[0]) && b[1] == 0 && b[2] == 0 && b[3] == 0
  {
    assert FromLe(b) == b[0] + 256 * FromLe(b[1..]) && FromLe(b[1..]) == b[1] + 256 * FromLe(b[2..]);
    assert FromLe(b[2..]) == b[2] + 256 * FromLe(b[3..]) && FromLe(b[3..]) == b[3] + 256 * FromLe(b[4..]);
  }

  lemma LeFour(n: nat)
    requires n < 0x8000_0000
    ensures Le(n, 4) == [n % 256, n / 256 % 256, n / 0x1_0000 % 256, n / 0x100_0000]
  {
    assert Le(n, 4) == [n % 256] + Le(n / 256, 3) && Le(n / 256, 3) == [n / 256 % 256] + Le(n / 256 / 256, 2);
    assert Le(n / 256 / 256, 2) == [n / 256 / 256 % 256] + Le(n / 256 / 256 / 256, 1);
    assert Le(n / 256 / 256 / 256, 1) == [n / 256 / 256 / 256 % 256] + Le(n / 256 / 256 / 256 / 256, 0);
  }

  lemma PositionDigits(n: nat)
    ensures
      var a, b, c, d := n % 256, n / 256 % 256, n / 0x1_0000 % 256, n / 0x100_0000;
      && n == a + 256 * b + 0x1_0000 * c + 0x100_0000 * d
      && (n % 0x1_0000 == 0 <==> a == b == 0) && (n % 0x100_0000 == 0 <==> a == b == c == 0)
  {
    assert n / 0x1_0000 == n / 256 / 256 && n / 0x100_0000 == n / 0x1_0000 / 256;
    assert n % 0x1_0000 == n % 256 + 256 * (n / 256 % 256);
    assert n % 0x100_0000 == n % 0x1_0000 + 0x1_0000 * (n / 0x1_0000 % 256);
  }

  /** The bytes that every message starts with, and the fields of a level message. */
  lemma MessageBytes(m: Control)
    requires FromDaemon(m)
    ensures
      var b := EncodeControl(m);
      && b[0] == 68 && b[1] == 85 && b[2] == 72 && b[3] == 1 && TypeCode(b[4]) && b[5] == b[6] == b[7] == 0
      && (m.LogLevelMsg? ==>
            && b[8] == m.level && b[9] == m.traceStatus && b[10] == m.pos % 256 && b[11] == m.pos / 256 % 256
            && b[12] == m.pos / 0x1_0000 % 256 && b[13] == m.pos / 0x100_0000)
  {
    hide Le;
    LeFour(DLT_USER_MESSAGE_LOG_LEVEL);
    LeFour(DLT_USER_MESSAGE_LOG_STATE);
    if m.LogLevelMsg? { LeFour(m.pos); }
  }

  /** The type that a read sees when it starts `c` bytes into the message `m`. */
  lemma MistakenBytes(m: Control, c: nat, b: bytes)
    requires FromDaemon(m) && 0 < c < |EncodeControl(m)| && c + 8 <= |b| && |EncodeControl(m)| <= |b|
    requires b[..|EncodeControl(m)|] == EncodeControl(m)
    requires var n := |EncodeControl(m)|;
      forall i | n <= i < |b| && i < n + 4 :: b[i] == [68, 85, 72, 1][i - n]
    ensures TypeCode(b[c + 4]) && b[c + 5] == 0 && b[c + 6] == 0 && b[c + 7] == 0 <==> Ambiguous(m, c)
  {
    hide EncodeControl;
    MessageBytes(m);
    var n, one := |EncodeControl(m)|, EncodeControl(m);
    assert forall i | 0 <= i < n :: b[i] == one[i];
    if m.LogLevelMsg? {
      PositionDigits(m.pos);
      assert c == 1 || c == 2 || c == 3 || c == 4 || c == 5 || c == 6 || c == 7 || c == 8 || c == 9 || c == 10
        || c == 11 || c == 12 || c == 13;
    } else {
      assert c == 1 || c == 2 || c == 3 || c == 4 || c == 5 || c == 6 || c == 7 || c == 8;
    }
  }

  /**
   In a stream from the daemon, a read that starts `c` bytes into a message is taken for a known message
   exactly if that one is ambiguous there.
   */
  lemma MistakenIff(m: Control, c: nat, ms: seq<Control>, read: Read, rest: bytes)
    requires FromDaemon(m) && (forall x <- ms :: FromDaemon(x)) && 0 < c < |EncodeControl(m)|
    requires read.received + rest == EncodeControl(m)[c..] + EncodeControls(ms)
    requires |read.received| > USER_HEADER_SIZE
    ensures Unmistaken(read, EncodeControl(m)[c..]) <==> !Ambiguous(m, c)
  {
    hide EncodeControl, EncodeControls, FromLe, Ambiguous, FromDaemon;
    var one, others := EncodeControl(m), EncodeControls(ms);
    var b := one + others;
    assert b == one[..c] + (read.received + rest);
    StreamStart(ms);
    MistakenBytes(m, c, b);
    var type4 := read.received[4..8];
    assert type4[0] == b[c + 4] && type4[1] == b[c + 5] && type4[2] == b[c + 6] && type4[3] == b[c + 7];
    TypeOfFour(type4);
  }

  lemma StreamStart(ms: seq<Control>)
    requires forall m <- ms :: FromDaemon(m)
    ensures var b := EncodeControls(ms);
      b != [] ==> |b| >= 4 && b[0] == 68 && b[1] == 85 && b[2] == 72 && b[3] == 1
  {
    hide EncodeControl, FromDaemon;
    if ms != [] {
      assert ms[0] in ms;
      MessageBytes(ms[0]);
    }
  }

  /**
   Such a message is the one for position 6 when a read ends after its sixth byte: it is lost, and the next
   read applies the level 68, a byte of the header that follows, to a position made of the rest of it.
   */
  lemma MistakenExample(level: byte, trace: byte, next: Control, stale: bytes)
    requires FromDaemon(next) && next.LogLevelMsg?
    ensures
      var m := LogLevelMsg(USER_HEADER_PATTERN, level, trace, 6);
      var all := EncodeControls([m, next]);
      var pieces := [Read(all[..6], stale), Read(all[6..], stale)];
      && Ambiguous(m, 6) && Received(pieces) == all
      && LevelChange(0x0006_0148, 68) in Heard(pieces)
  {
    var m := LogLevelMsg(USER_HEADER_PATTERN, level, trace, 6);
    TwoMessages(m, next);
    hide EncodeControl, EncodeControls, Parse;
    var all := EncodeControls([m, next]);
    var first, second := Read(all[..6], stale), Read(all[6..], stale);
    assert all[..6] + (all[6..] + []) == all;
    assert all[6..] == EncodeControl(m)[6..] + EncodeControl(next);
    SecondRead(m, next, stale);
    HeardTwo(first, second);
  }

  lemma SecondRead(m: Control, next: Control, stale: bytes)
    requires FromDaemon(m) && m.LogLevelMsg? && m.pos == 6 && FromDaemon(next) && next.LogLevelMsg?
    ensures
      var found := Parsed(Read(EncodeControl(m)[6..] + EncodeControl(next), stale)).changes;
      found != [] && found[0] == LevelChange(0x0006_0148, 68)
  {
    MessageBytes(m);
    MessageBytes(next);
    NextTypeCode(next);
    hide EncodeControl, FromDaemon, Parse, FromLe;
    var one, two := EncodeControl(m), EncodeControl(next);
    var b := (one[6..] + two) + stale;
    assert b[4] == one[10] && b[5] == one[11] && b[6] == one[12] && b[7] == one[13];
    assert b[8] == two[0] && b[10] == two[2] && b[11] == two[3] && b[12] == two[4] && b[13] == two[5];
    assert b[4..8] == [6, 0, 0, 0] && b[10..14] == [72, 1, 6, 0];
    FromFour(6, 0, 0, 0);
    FromFour(72, 1, 6, 0);
    AppliedFirst(b, |one[6..] + two|);
  }

  lemma AppliedFirst(b: bytes, n: nat)
    requires USER_HEADER_SIZE < n <= |b| && First(b).Applied?
    ensures Parse(b, n).changes != [] && Parse(b, n).changes[0] == First(b).change
  {
    hide First;
  }

  lemma TwoMessages(a: Control, b: Control)
    ensures EncodeControls([a, b]) == EncodeControl(a) + EncodeControl(b)
  {
    hide EncodeControl;
    assert [a, b][1..] == [b] && [b][1..] == [];
    assert EncodeControls([b]) == EncodeControl(b) + EncodeControls([]);
  }

  lemma HeardTwo(a: Read, b: Read)
    ensures Heard([a, b]) == Parsed(a).changes + (Parsed(b).changes + [])
    ensures Received([a, b]) == a.received + (b.received + [])
  {
    hide Parsed;
    assert [a, b][1..] == [b] && [b][1..] == [];
    assert Heard([b]) == Parsed(b).changes + Heard([]) && Received([b]) == b.received + Received([]);
  }

  lemma NextTypeCode(m: Control)
    requires m.LogLevelMsg?
    ensures EncodeControl(m)[4] == 6
  {
    LeFour(DLT_USER_MESSAGE_LOG_LEVEL);
  }

  lemma FromFour(a: byte, b: byte, c: byte, d: byte)
    ensures FromLe([a, b, c, d]) == a + 256 * b + 0x1_0000 * c + 0x100_0000 * d
  {
    assert FromLe([a, b, c, d]) == a + 256 * FromLe([b, c, d]) && FromLe([b, c, d]) == b + 256 * FromLe([c, d]);
    assert FromLe([c, d]) == c + 256 * FromLe([d]) && FromLe([d]) == d + 256 * FromLe([]);
  }
}
