/**
 The verbose payload of a DLT message: the arguments, their bytes, and the decoder a daemon or viewer
 applies to them (AUTOSAR PRS Log and Trace Protocol, section 5.1.3).
 */
module Payload {
  import opened Bytes
  import opened DltProtocol

  datatype Arg =
    | Bool(flag: bool)
    | UInt(width: nat, hex: bool, natural: nat)
    | SInt(width: nat, value: int)
    | Float(width: nat, raw: bytes)
    | Text(text: bytes)

  predicate IntWidth(width: nat) {
    width == 1 || width == 2 || width == 4 || width == 8
  }

  predicate WellFormed(a: Arg) {
    match a
    case Bool(_) => true
    case UInt(w, _, n) => IntWidth(w) && n < Range(w)
    case SInt(w, v) => IntWidth(w) && -Range(w) <= 2 * v < Range(w)
    case Float(w, raw) => (w == 4 || w == 8) && |raw| == w
    case Text(t) => |t| + 1 < 0x1_0000
  }

  /** The size in bytes of an argument on the wire. */
  function Size(a: Arg): (n: nat)
    ensures n >= 4
  {
    match a
    case Bool(_) => 4 + 1
    case UInt(w, _, _) => 4 + w
    case SInt(w, _) => 4 + w
    case Float(w, _) => 4 + w
    case Text(t) => 4 + 2 + |t| + 1
  }

  function TotalSize(args: seq<Arg>): nat {
    if args == [] then 0 else TotalSize(args[..|args| - 1]) + Size(args[|args| - 1])
  }

  function Tyle(width: nat): nat {
    if width == 1 then DLT_TYLE_8BIT
    else if width == 2 then DLT_TYLE_16BIT
    else if width == 4 then DLT_TYLE_32BIT
    else DLT_TYLE_64BIT
  }

  function TypeInfo(a: Arg): nat {
    match a
    case Bool(_) => DLT_TYPE_INFO_BOOL
    case UInt(w, hex, _) => DLT_TYPE_INFO_UINT + Tyle(w) + (if hex then DLT_SCOD_HEX else 0)
    case SInt(w, _) => DLT_TYPE_INFO_SINT + Tyle(w)
    case Float(w, _) => DLT_TYPE_INFO_FLOA + Tyle(w)
    case Text(_) => DLT_TYPE_INFO_STRG + DLT_SCOD_UTF8
  }

  function Body(a: Arg): bytes
    requires WellFormed(a)
  {
    match a
    case Bool(f) => [if f then 1 else 0]
    case UInt(w, _, n) => Le(n, w)
    case SInt(w, v) => Le(Unsigned(v, w), w)
    case Float(_, raw) => raw
    case Text(t) => Le(|t| + 1, 2) + t + [0]
  }

  function EncodeArg(a: Arg): (b: bytes)
    requires WellFormed(a)
    ensures |b| == Size(a)
  {
    Le(TypeInfo(a), 4) + Body(a)
  }

  function EncodeAll(args: seq<Arg>): (b: bytes)
    requires forall a <- args :: WellFormed(a)
    ensures |b| == TotalSize(args)
  {
    if args == [] then [] else EncodeAll(args[..|args| - 1]) + EncodeArg(args[|args| - 1])
  }

  // ---- the reader's side -------------------------------------------------------------------

  function WidthOf(tyle: nat): Option<nat> {
    if tyle == 1 then Some(1)
    else if tyle == 2 then Some(2)
    else if tyle == 3 then Some(4)
    else if tyle == 4 then Some(8)
    else None
  }

  /** The value of a number of `w` bytes; the reader knows it by the kind and coding bits of its type info. */
  function DecodeNumber(kind: nat, coding: nat, w: nat, raw: bytes): Option<Arg>
    requires |raw| == w
  {
    if kind == 0x4 && coding == 0 then Some(UInt(w, false, FromLe(raw)))
    else if kind == 0x4 && coding == 2 then Some(UInt(w, true, FromLe(raw)))
    else if kind == 0x2 && coding == 0 then Some(SInt(w, Signed(FromLe(raw), w)))
    else if kind == 0x8 && coding == 0 && w >= 4 then Some(Float(w, raw))
    else None
  }

  /**
   Reads the value bytes that follow the type info; returns the argument and what is left. The lowest four
   bits of the type info are the width, those from 0x10 to 0x4000 the kind and those above the coding. A
   combination without a meaning is rejected.
   */
  function DecodeBody(info: nat, b: bytes): (r: Option<(Arg, bytes)>)
    ensures r.Some? ==> |r.value.1| < |b|
  {
    var tyle, kind, coding := info % 0x10, info / 0x10 % 0x800, info / 0x8000;
    if kind == 0x20 then
      if tyle != 0 || coding != 1 || |b| < 2 then None else
      var length := FromLe(b[..2]);
      if length == 0 || |b| < 2 + length || b[1 + length] != 0 then None
      else Some((Text(b[2..1 + length]), b[2 + length..]))
    else if kind == 0x1 then
      if tyle != 0 || coding != 0 || |b| < 1 || b[0] > 1 then None else Some((Bool(b[0] == 1), b[1..]))
    else if WidthOf(tyle).None? || |b| < WidthOf(tyle).value then None
    else
      var w := WidthOf(tyle).value;
      var number := DecodeNumber(kind, coding, w, b[..w]);
      if number.None? then None else
      assert |b[w..]| < |b|;
      Some((number.value, b[w..]))
  }

  function DecodeArg(b: bytes): (r: Option<(Arg, bytes)>)
    ensures r.Some? ==> |r.value.1| < |b|
  {
    if |b| < 4 then None else DecodeBody(FromLe(b[..4]), b[4..])
  }

  /** Reads arguments up to the end of the payload. */
  function DecodeAll(b: bytes): Option<seq<Arg>>
    decreases |b|
  {
    if b == [] then Some([]) else
    var first := DecodeArg(b);
    if first.None? then None else
    var others := DecodeAll(first.value.1);
    if others.None? then None else Some([first.value.0] + others.value)
  }

  /** Reads as many arguments as the message announces. */
  function DecodeCount(b: bytes, count: nat): Option<seq<Arg>> {
    if count == 0 then Some([]) else
    var first := DecodeArg(b);
    if first.None? then None else
    var others := DecodeCount(first.value.1, count - 1);
    if others.None? then None else Some([first.value.0] + others.value)
  }

  // ---- round trips -------------------------------------------------------------------------

  lemma TypeInfoFields(a: Arg)
    requires WellFormed(a)
    ensures
      var info := TypeInfo(a);
      var tyle, kind, coding := info % 0x10, info / 0x10 % 0x800, info / 0x8000;
      match a
      case Bool(_) => tyle == 0 && kind == 0x1 && coding == 0
      case UInt(w, hex, _) => WidthOf(tyle) == Some(w) && kind == 0x4 && coding == if hex then 2 else 0
      case SInt(w, _) => WidthOf(tyle) == Some(w) && kind == 0x2 && coding == 0
      case Float(w, _) => WidthOf(tyle) == Some(w) && kind == 0x8 && coding == 0
      case Text(_) => tyle == 0 && kind == 0x20 && coding == 1
    ensures TypeInfo(a) < 0x1_0000_0000
  {
    hide Range;
  }

  lemma DecodeNumberInverts(a: Arg)
    requires WellFormed(a) && !a.Text? && !a.Bool?
    ensures
      var kind, coding :=
        if a.UInt? then 0x4 else if a.SInt? then 0x2 else 0x8, if a.UInt? && a.hex then 2 else 0;
      DecodeNumber(kind, coding, a.width, Body(a)) == Some(a)
  {
    hide Le, FromLe, Range;
    match a
    case UInt(w, _, n) => LeRoundTrip(n, w);
    case SInt(w, v) => LeRoundTrip(Unsigned(v, w), w);
    case _ =>
  }

  lemma {:induction false} DecodeBodyInverts(a: Arg, rest: bytes)
    requires WellFormed(a)
    ensures DecodeBody(TypeInfo(a), Body(a) + rest) == Some((a, rest))
  {
    hide WidthOf, TypeInfo, Le, FromLe, Range, DecodeNumber;
    TypeInfoFields(a);
    var b := Body(a) + rest;
    if a.UInt? || a.SInt? || a.Float? { DecodeNumberInverts(a); }
    match a
    case Bool(_) =>
      assert b[1..] == rest;
    case UInt(w, _, n) =>
      assert b[..w] == Le(n, w) && b[w..] == rest;
    case SInt(w, v) =>
      assert b[..w] == Le(Unsigned(v, w), w) && b[w..] == rest;
    case Float(w, raw) =>
      assert b[..w] == raw && b[w..] == rest;
    case Text(t) =>
      Ranges();
      LeRoundTrip(|t| + 1, 2);
      assert b[..2] == Le(|t| + 1, 2) && b[2..2 + |t|] == t && b[3 + |t|..] == rest;
  }

  lemma {:induction false} DecodeArgInverts(a: Arg, rest: bytes)
    requires WellFormed(a)
    ensures DecodeArg(EncodeArg(a) + rest) == Some((a, rest))
  {
    hide TypeInfo, Body, DecodeBody, Le, FromLe, Range, WellFormed;
    TypeInfoFields(a);
    var b := EncodeArg(a) + rest;
    assert b[..4] == Le(TypeInfo(a), 4) && b[4..] == Body(a) + rest;
    Ranges();
    LeRoundTrip(TypeInfo(a), 4);
    DecodeBodyInverts(a, rest);
  }

  // ---- the reader accepts nothing else -----------------------------------------------------

  lemma TypeInfoExact(info: nat, a: Arg)
    requires WellFormed(a) && TypeInfo(a) % 0x10 == info % 0x10
    requires TypeInfo(a) / 0x10 % 0x800 == info / 0x10 % 0x800 && TypeInfo(a) / 0x8000 == info / 0x8000
    ensures TypeInfo(a) == info
  {
    hide TypeInfo;
    assert info == info % 0x10 + 0x10 * (info / 0x10 % 0x800) + 0x8000 * (info / 0x8000);
    var t := TypeInfo(a);
    assert t == t % 0x10 + 0x10 * (t / 0x10 % 0x800) + 0x8000 * (t / 0x8000);
  }

  lemma SameWidth(x: nat, y: nat)
    requires x < 0x10 && y < 0x10 && WidthOf(x) == WidthOf(y) != None
    ensures x == y
  {
  }

  lemma {:induction false} NumberExact(kind: nat, coding: nat, w: nat, raw: bytes)
    requires |raw| == w && IntWidth(w)
    ensures var a := DecodeNumber(kind, coding, w, raw);
      a.Some? ==>
        && WellFormed(a.value) && Body(a.value) == raw
        && match a.value
           case UInt(v, hex, _) => v == w && kind == 0x4 && coding == if hex then 2 else 0
           case SInt(v, _) => v == w && kind == 0x2 && coding == 0
           case Float(v, _) => v == w && kind == 0x8 && coding == 0
           case _ => false
  {
    hide Le, FromLe;
    LeExact(raw);
  }

  lemma WidthsOnly(tyle: nat)
    ensures WidthOf(tyle).Some? ==> IntWidth(WidthOf(tyle).value)
  {
  }

  lemma {:induction false} DecodeBodyExact(info: nat, b: bytes)
    ensures var r := DecodeBody(info, b);
      r.Some? ==>
        && WellFormed(r.value.0) && TypeInfo(r.value.0) == info
        && b == Body(r.value.0) + r.value.1
  {
    var r := DecodeBody(info, b);
    if r.Some? {
      hide TypeInfo, Le, FromLe, Range, DecodeNumber;
      var a, tyle, kind, coding := r.value.0, info % 0x10, info / 0x10 % 0x800, info / 0x8000;
      if kind == 0x20 {
        LeExact(b[..2]);
        Ranges();
        assert b == b[..2] + b[2..1 + FromLe(b[..2])] + [0] + r.value.1;
      } else if kind == 0x1 {
        assert b == [b[0]] + b[1..];
      } else {
        WidthsOnly(tyle);
        var w := WidthOf(tyle).value;
        NumberExact(kind, coding, w, b[..w]);
        assert b == b[..w] + b[w..];
      }
      TypeInfoFields(a);
      TypeInfoMatches(info, a);
    }
  }

  /** The fields of a type info determine it. */
  lemma TypeInfoMatches(info: nat, a: Arg)
    requires WellFormed(a)
    requires
      var tyle, kind, coding := info % 0x10, info / 0x10 % 0x800, info / 0x8000;
      match a
      case Bool(_) => tyle == 0 && kind == 0x1 && coding == 0
      case UInt(w, hex, _) => WidthOf(tyle) == Some(w) && kind == 0x4 && coding == if hex then 2 else 0
      case SInt(w, _) => WidthOf(tyle) == Some(w) && kind == 0x2 && coding == 0
      case Float(w, _) => WidthOf(tyle) == Some(w) && kind == 0x8 && coding == 0
      case Text(_) => tyle == 0 && kind == 0x20 && coding == 1
    ensures TypeInfo(a) == info
  {
    hide TypeInfo, WidthOf, Range;
    TypeInfoFields(a);
    if a.UInt? || a.SInt? || a.Float? { SameWidth(TypeInfo(a) % 0x10, info % 0x10); }
    TypeInfoExact(info, a);
  }

  /** What is read as an argument is exactly its encoding: no other bytes are taken for it. */
  lemma {:induction false} DecodeArgExact(b: bytes)
    ensures var r := DecodeArg(b);
      r.Some? ==> WellFormed(r.value.0) && b == EncodeArg(r.value.0) + r.value.1
  {
    hide TypeInfo, Body, DecodeBody, Le, FromLe, WellFormed;
    if DecodeArg(b).Some? {
      DecodeBodyExact(FromLe(b[..4]), b[4..]);
      LeExact(b[..4]);
      assert b == b[..4] + b[4..];
    }
  }

  /** A payload that can be read is the encoding of what is read. */
  lemma {:induction false} DecodeAllExact(b: bytes)
    ensures var r := DecodeAll(b);
      r.Some? ==> (forall a <- r.value :: WellFormed(a)) && EncodeAll(r.value) == b
    decreases |b|
  {
    hide EncodeArg, WellFormed, DecodeArg, EncodeAll;
    if b == [] {
      assert EncodeAll([]) == [] by { NoArgs(); }
    } else if DecodeAll(b).Some? {
      var first := DecodeArg(b).value;
      DecodeArgExact(b);
      DecodeAllExact(first.1);
      var all := DecodeAll(b).value;
      assert all[0] == first.0 && all[1..] == DecodeAll(first.1).value;
      EncodeAllFront(all);
    }
  }

  lemma NoArgs()
    ensures EncodeAll([]) == []
  {
  }

  lemma {:induction false} EncodeAllAppend(args: seq<Arg>, a: Arg)
    requires forall x <- args :: WellFormed(x)
    requires WellFormed(a)
    ensures forall x <- args + [a] :: WellFormed(x)
    ensures EncodeAll(args + [a]) == EncodeAll(args) + EncodeArg(a)
  {
    hide EncodeArg, WellFormed;
    assert (args + [a])[..|args|] == args;
  }

  lemma {:induction false} EncodeAllFront(args: seq<Arg>)
    requires args != []
    requires forall a <- args :: WellFormed(a)
    ensures EncodeAll(args) == EncodeArg(args[0]) + EncodeAll(args[1..])
  {
    hide EncodeArg, WellFormed, EncodeAll, Size;
    var front, last := args[..|args| - 1], args[|args| - 1];
    assert args == front + [last];
    EncodeAllAppend(front, last);
    if front == [] {
      assert args[1..] == [];
      NoArgs();
    } else {
      EncodeAllFront(front);
      assert front[0] == args[0] && args[1..] == front[1..] + [last];
      EncodeAllAppend(front[1..], last);
      Assoc(EncodeArg(args[0]), EncodeAll(front[1..]), EncodeArg(last));
    }
  }

  /** The reader's first step on a whole payload. */
  lemma {:induction false} FirstArg(args: seq<Arg>)
    requires args != []
    requires forall a <- args :: WellFormed(a)
    ensures EncodeAll(args) != []
    ensures DecodeArg(EncodeAll(args)) == Some((args[0], EncodeAll(args[1..])))
  {
    hide DecodeArg, EncodeArg, WellFormed, EncodeAll;
    EncodeAllFront(args);
    assert args[0] in args;
    DecodeArgInverts(args[0], EncodeAll(args[1..]));
  }

  /** A payload is self-delimiting: a reader gets back every argument, with type, width, sign and hex flag. */
  lemma {:induction false} DecodeAllInverts(args: seq<Arg>)
    requires forall a <- args :: WellFormed(a)
    ensures DecodeAll(EncodeAll(args)) == Some(args)
  {
    if args == [] {
      assert EncodeAll(args) == [];
    } else {
      hide DecodeArg, EncodeArg, WellFormed, EncodeAll;
      FirstArg(args);
      DecodeAllInverts(args[1..]);
      assert args == [args[0]] + args[1..];
    }
  }

  lemma {:induction false} DecodeCountInverts(args: seq<Arg>, count: nat)
    requires forall a <- args :: WellFormed(a)
    requires count <= |args|
    ensures DecodeCount(EncodeAll(args), count) == Some(args[..count])
  {
    hide DecodeArg, EncodeArg, WellFormed, EncodeAll;
    if count > 0 {
      FirstArg(args);
      DecodeCountInverts(args[1..], count - 1);
      assert args[..count] == [args[0]] + args[1..][..count - 1];
    }
  }

  /**
   The header announces the number of arguments modulo 256. Reading that many arguments recovers the
   whole message exactly when it has fewer than 256.
   */
  lemma {:induction false} AnnouncedCountSuffices(args: seq<Arg>)
    requires forall a <- args :: WellFormed(a)
    ensures DecodeCount(EncodeAll(args), |args| % 256) == Some(args) <==> |args| < 256
  {
    hide DecodeCount, EncodeAll, WellFormed;
    var n := |args| % 256;
    DecodeCountInverts(args, n);
    assert |args| < 256 ==> args[..n] == args;
    assert |args[..n]| == n;
  }

  lemma {:induction false} EncodeAllInjective(a: seq<Arg>, b: seq<Arg>)
    requires forall x <- a :: WellFormed(x)
    requires forall x <- b :: WellFormed(x)
    requires EncodeAll(a) == EncodeAll(b)
    ensures a == b
  {
    DecodeAllInverts(a);
    DecodeAllInverts(b);
  }
}
