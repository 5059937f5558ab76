/**
 What a DLT log entry holds after a run of argument writes.

 `Step` gives the effect of one write on the list of encoded arguments; the class in LogData.dfy is proved
 against it. `Arrived` says, without following the run, what the whole run leaves: all arguments if their
 encoded total fits, otherwise the longest fitting prefix, one shortened string, and the truncation marker.
 */
module Encoder {
  import opened Bytes
  import opened Payload

  const MAX_MESSAGE_SIZE: nat := 16384
  const MAX_CONTENT_SIZE: nat := MAX_MESSAGE_SIZE - MARKER_SIZE

  /** "..truncated" */
  const MARKER := Text([46, 46, 116, 114, 117, 110, 99, 97, 116, 101, 100])

  /** The size of the marker as an argument. */
  const MARKER_SIZE: nat := 18

  /** Type info, length and terminating NUL: what a string needs besides its characters. */
  const TEXT_OVERHEAD: nat := 7

  /** An argument write: a scalar, a string of given length, or text rendered from a format. */
  datatype Write = Scalar(arg: Arg) | Plain(text: bytes) | Formatted(text: bytes)

  predicate WellFormedWrite(w: Write) {
    w.Scalar? ==> WellFormed(w.arg) && !w.arg.Text?
  }

  datatype Log = Log(args: seq<Arg>, full: bool)

  const EMPTY := Log([], false)

  /** Free bytes left after reserving `info`; 0 when full. */
  function Room(l: Log, info: nat): nat {
    var free := MAX_CONTENT_SIZE - TotalSize(l.args);
    if !l.full && free >= info then free - info else 0
  }

  function Overflow(l: Log): Log {
    if l.full then l else Log(l.args + [MARKER], true)
  }

  function Put(l: Log, a: Arg): Log {
    l.(args := l.args + [a])
  }

  function PutScalar(l: Log, a: Arg): Log {
    if l.full then l else if Room(l, Size(a)) == 0 then Overflow(l) else Put(l, a)
  }

  function PutPlain(l: Log, text: bytes): Log {
    var space := if |text| <= Room(l, TEXT_OVERHEAD) then |text| else Room(l, TEXT_OVERHEAD);
    var stored := if space > 0 then Put(l, Text(text[..space])) else l;
    if space < |text| then Overflow(stored) else stored
  }

  function PutFormatted(l: Log, text: bytes): Log {
    var space := Room(l, TEXT_OVERHEAD);
    var stored := if space > 0 then Put(l, Text(if |text| < space then text else text[..space - 1])) else l;
    if space == 0 || space < |text| then Overflow(stored) else stored
  }

  function Step(l: Log, w: Write): Log {
    match w
    case Scalar(a) => PutScalar(l, a)
    case Plain(t) => PutPlain(l, t)
    case Formatted(t) => PutFormatted(l, t)
  }

  function RunFrom(l: Log, ws: seq<Write>): Log {
    if ws == [] then l else Step(RunFrom(l, ws[..|ws| - 1]), ws[|ws| - 1])
  }

  lemma RunFromStep(l: Log, ws: seq<Write>, w: Write)
    ensures RunFrom(l, ws + [w]) == Step(RunFrom(l, ws), w)
    ensures ws == [] ==> RunFrom(l, ws) == l && RunFrom(l, [w]) == Step(l, w)
  {
    hide Step;
    assert (ws + [w])[..|ws|] == ws;
    assert [w][..0] == [];
  }

  lemma {:induction false} RunFromRunFrom(l: Log, a: seq<Write>, b: seq<Write>)
    ensures RunFrom(RunFrom(l, a), b) == RunFrom(l, a + b)
  {
    if b == [] {
      assert a + b == a;
    } else {
      hide Step;
      RunFromRunFrom(l, a, b[..|b| - 1]);
      assert (a + b)[..|a + b| - 1] == a + b[..|b| - 1];
    }
  }

  /** The log of an entry after the writes `ws`. */
  function Run(ws: seq<Write>): Log {
    RunFrom(EMPTY, ws)
  }

  // ---- bounds ------------------------------------------------------------------------------

  /** The bounds every reachable entry keeps: the marker always has its 18 bytes until it is used. */
  ghost predicate Valid(l: Log) {
    && (forall a <- l.args :: WellFormed(a))
    && TotalSize(l.args) <= (if l.full then MAX_MESSAGE_SIZE else MAX_CONTENT_SIZE)
    && (l.full ==> l.args != [] && l.args[|l.args| - 1] == MARKER)
  }

  lemma TotalSizeAppend(args: seq<Arg>, a: Arg)
    ensures TotalSize(args + [a]) == TotalSize(args) + Size(a)
  {
    assert (args + [a])[..|args|] == args;
  }

  lemma PutValid(l: Log, a: Arg)
    requires Valid(l) && !l.full && WellFormed(a) && TotalSize(l.args) + Size(a) <= MAX_CONTENT_SIZE
    ensures Valid(Put(l, a))
  {
    TotalSizeAppend(l.args, a);
  }

  lemma OverflowValid(l: Log)
    requires Valid(l)
    ensures Valid(Overflow(l)) && Overflow(l).full
  {
    TotalSizeAppend(l.args, MARKER);
  }

  lemma StepValid(l: Log, w: Write)
    requires Valid(l) && WellFormedWrite(w)
    ensures Valid(Step(l, w))
    ensures l.full ==> Step(l, w) == l
  {
    hide TotalSize, WellFormed;
    OverflowValid(l);
    match w
    case Scalar(a) =>
      if !l.full && Room(l, Size(a)) > 0 { PutValid(l, a); }
    case Plain(t) =>
      var room := Room(l, TEXT_OVERHEAD);
      var space := if |t| <= room then |t| else room;
      if space > 0 {
        PutTextValid(l, t[..space]);
        OverflowValid(Put(l, Text(t[..space])));
      }
    case Formatted(t) =>
      var space := Room(l, TEXT_OVERHEAD);
      if space > 0 {
        var cut := if |t| < space then t else t[..space - 1];
        PutTextValid(l, cut);
        OverflowValid(Put(l, Text(cut)));
      }
  }

  lemma PutTextValid(l: Log, text: bytes)
    requires Valid(l) && |text| <= Room(l, TEXT_OVERHEAD) && 0 < Room(l, TEXT_OVERHEAD)
    ensures Valid(Put(l, Text(text)))
  {
    PutValid(l, Text(text));
  }

  lemma {:induction false} RunValid(ws: seq<Write>)
    requires forall w <- ws :: WellFormedWrite(w)
    ensures Valid(Run(ws))
  {
    if ws != [] {
      RunValid(ws[..|ws| - 1]);
      StepValid(Run(ws[..|ws| - 1]), ws[|ws| - 1]);
    }
  }

  // ---- what arrives ------------------------------------------------------------------------

  /** Writing an empty string of given length leaves no argument. */
  predicate Silent(w: Write) {
    w == Plain([])
  }

  function Loud(ws: seq<Write>): seq<Write> {
    if ws == [] then []
    else
      var front, last := Loud(ws[..|ws| - 1]), ws[|ws| - 1];
      if Silent(last) then front else front + [last]
  }

  /** The argument a write asks for. */
  function Image(w: Write): Arg {
    if w.Scalar? then w.arg else Text(w.text)
  }

  function Images(ws: seq<Write>): (args: seq<Arg>)
    ensures |args| == |ws|
    ensures forall i | 0 <= i < |ws| :: args[i] == Image(ws[i])
  {
    seq(|ws|, i requires 0 <= i < |ws| => Image(ws[i]))
  }

  /** A total of exactly MAX_CONTENT_SIZE fits only if the last write is a string of given length. */
  predicate Fits(v: seq<Write>) {
    var total := TotalSize(Images(v));
    total < MAX_CONTENT_SIZE || (total == MAX_CONTENT_SIZE && v != [] && v[|v| - 1].Plain?)
  }

  /** The part of a string that does not fit which is still stored: at most `room` characters. */
  function Shortened(w: Write, room: int): seq<Arg> {
    if w.Scalar? || room <= 0 then []
    else if w.Plain? then [Text(if |w.text| <= room then w.text else w.text[..room])]
    else [Text(if |w.text| < room then w.text else w.text[..room - 1])]
  }

  /** `v[k]` is the first write that does not fit, and `l` is what is left of `v`. */
  ghost predicate CutAt(l: Log, v: seq<Write>, k: nat) {
    && k < |v| && Fits(v[..k]) && !Fits(v[..k + 1])
    && var room := MAX_CONTENT_SIZE - TotalSize(Images(v[..k])) - TEXT_OVERHEAD;
    var kept := Images(v[..k]) + Shortened(v[k], room);
    if k == |v| - 1 && v[k].Formatted? && 0 < |v[k].text| == room then l == Log(kept, false)
    else l == Log(kept + [MARKER], true)
  }

  ghost predicate Arrived(l: Log, v: seq<Write>) {
    if Fits(v) then l == Log(Images(v), false) else exists k: nat :: CutAt(l, v, k)
  }

  lemma FitsAppend(v: seq<Write>, w: Write)
    ensures Images(v + [w]) == Images(v) + [Image(w)]
    ensures TotalSize(Images(v + [w])) == TotalSize(Images(v)) + Size(Image(w))
    ensures (v + [w])[..|v|] == v
    ensures Fits(v + [w]) ==> Fits(v)
  {
    hide TotalSize, Size, Images;
    assert Images(v + [w]) == Images(v) + [Image(w)];
    TotalSizeAppend(Images(v), Image(w));
  }

  lemma {:induction false} StepFitting(l: Log, v: seq<Write>, w: Write)
    requires Fits(v) && l == Log(Images(v), false) && !Silent(w) && WellFormedWrite(w)
    ensures Arrived(Step(l, w), v + [w])
  {
    hide TotalSize, WellFormed;
    FitsAppend(v, w);
    var v' := v + [w];
    assert v'[..|v| + 1] == v';
    if Fits(v') {
      assert w.Plain? ==> w.text[..|w.text|] == w.text;
    } else {
      var room := MAX_CONTENT_SIZE - TotalSize(l.args) - TEXT_OVERHEAD;
      var kept := Images(v) + Shortened(w, room);
      assert w.Plain? && 0 < room ==> |w.text| > room;
      assert kept == l.args + Shortened(w, room);
      assert CutAt(Step(l, w), v', |v|);
    }
  }

  lemma {:induction false} StepCut(l: Log, v: seq<Write>, k: nat, w: Write)
    requires CutAt(l, v, k) && !Silent(w) && WellFormedWrite(w)
    ensures Arrived(Step(l, w), v + [w])
  {
    hide TotalSize, WellFormed, Fits;
    var v' := v + [w];
    assert v'[..k] == v[..k] && v'[..k + 1] == v[..k + 1];
    FitsAppend(v, w);
    CutStays(v, k);
    if !l.full {
      var room := MAX_CONTENT_SIZE - TotalSize(Images(v[..k])) - TEXT_OVERHEAD;
      FullButForOne(v, k, room);
      assert TotalSize(l.args) == MAX_CONTENT_SIZE - 1;
      assert Step(l, w) == Overflow(l);
    }
    assert CutAt(Step(l, w), v', k);
  }

  /** Once a prefix does not fit, nothing longer does. */
  lemma {:induction false} CutStays(v: seq<Write>, k: nat)
    requires k < |v| && !Fits(v[..k + 1])
    ensures !Fits(v)
  {
    hide *;
    if k + 1 < |v| {
      var front := v[..|v| - 1];
      assert front[..k + 1] == v[..k + 1];
      CutStays(front, k);
      FitsAppend(front, v[|v| - 1]);
      assert v == front + [v[|v| - 1]];
    } else {
      assert v[..k + 1] == v;
    }
  }

  lemma FullButForOne(v: seq<Write>, k: nat, room: int)
    requires k < |v| && Fits(v[..k]) && v[k].Formatted? && 0 < |v[k].text| == room
    requires room == MAX_CONTENT_SIZE - TotalSize(Images(v[..k])) - TEXT_OVERHEAD
    ensures TotalSize(Images(v[..k]) + Shortened(v[k], room)) == MAX_CONTENT_SIZE - 1
  {
    TotalSizeAppend(Images(v[..k]), Text(v[k].text[..room - 1]));
  }

  /** For every run of writes, the entry holds exactly what `Arrived` says of the non-silent ones. */
  lemma {:induction false} RunArrived(ws: seq<Write>)
    requires forall w <- ws :: WellFormedWrite(w)
    ensures Arrived(Run(ws), Loud(ws))
  {
    if ws != [] {
      hide Arrived, CutAt, Fits, Step;
      var front, w := ws[..|ws| - 1], ws[|ws| - 1];
      RunArrived(front);
      ArrivedStep(Run(front), Loud(front), w);
    } else {
      assert Images([]) == [];
    }
  }

  lemma ArrivedStep(l: Log, v: seq<Write>, w: Write)
    requires Arrived(l, v) && WellFormedWrite(w)
    ensures Arrived(Step(l, w), if Silent(w) then v else v + [w])
  {
    hide Fits, CutAt, Step;
    if Silent(w) {
      SilentStep(l, w);
    } else if Fits(v) {
      StepFitting(l, v, w);
    } else {
      var k: nat :| CutAt(l, v, k);
      StepCut(l, v, k, w);
    }
  }

  lemma SilentStep(l: Log, w: Write)
    requires Silent(w)
    ensures Step(l, w) == l
  {
  }

  // ---- writes that fit ---------------------------------------------------------------------

  lemma {:induction false} LoudConcat(a: seq<Write>, b: seq<Write>)
    ensures Loud(a + b) == Loud(a) + Loud(b)
  {
    if b == [] {
      assert a + b == a;
    } else {
      LoudConcat(a, b[..|b| - 1]);
      assert (a + b)[..|a + b| - 1] == a + b[..|b| - 1];
    }
  }

  lemma ImagesConcat(a: seq<Write>, b: seq<Write>)
    ensures Images(a + b) == Images(a) + Images(b)
  {
  }

  lemma {:induction false} TotalSizeConcat(a: seq<Arg>, b: seq<Arg>)
    ensures TotalSize(a + b) == TotalSize(a) + TotalSize(b)
  {
    hide Size;
    if b == [] {
      assert a + b == a;
    } else {
      TotalSizeConcat(a, b[..|b| - 1]);
      assert (a + b)[..|a + b| - 1] == a + b[..|b| - 1];
    }
  }

  lemma StepFits(l: Log, w: Write)
    requires WellFormedWrite(w) && !l.full && TotalSize(l.args) + Size(Image(w)) < MAX_CONTENT_SIZE
    ensures Step(l, w) == if Silent(w) then l else Log(l.args + [Image(w)], false)
  {
    hide TotalSize;
    if w.Plain? { assert w.text[..|w.text|] == w.text; }
  }

  lemma AssocArgs(a: seq<Arg>, b: seq<Arg>, c: seq<Arg>)
    ensures a + b + c == a + (b + c)
  {
  }

  /** As long as fewer bytes than 16366 are used, everything is stored as it was written. */
  lemma {:induction false} RunFromFits(l: Log, ws: seq<Write>)
    requires forall w <- ws :: WellFormedWrite(w)
    requires !l.full && TotalSize(l.args) + TotalSize(Images(Loud(ws))) < 16366
    ensures RunFrom(l, ws) == Log(l.args + Images(Loud(ws)), false)
  {
    if ws == [] {
      assert l.args + Images(Loud(ws)) == l.args;
    } else {
      hide Step, Size, TotalSize, WellFormedWrite, Images, Image;
      var front, w := ws[..|ws| - 1], ws[|ws| - 1];
      if Silent(w) {
        RunFromFits(l, front);
        SilentStep(RunFrom(l, front), w);
      } else {
        FitsAppend(Loud(front), w);
        RunFromFits(l, front);
        TotalSizeConcat(l.args, Images(Loud(front)));
        StepFits(RunFrom(l, front), w);
        AssocArgs(l.args, Images(Loud(front)), [Image(w)]);
      }
    }
  }

  /** The sizes: 16384 bytes with the marker, 16366 without it. */
  lemma {:induction false} RunSizes(ws: seq<Write>)
    requires forall w <- ws :: WellFormedWrite(w)
    ensures
      var l := Run(ws);
      && TotalSize(l.args) <= (if l.full then 16384 else 16366)
      // the last argument of a full entry is "..truncated"
      && (l.full ==>
            l.args != []
            && l.args[|l.args| - 1] == Text([46, 46, 116, 114, 117, 110, 99, 97, 116, 101, 100]))
  {
    hide TotalSize, WellFormed, Run;
    RunValid(ws);
  }

  // ---- consequences ------------------------------------------------------------------------

  /** The one loss the truncation marker does not report: a rendered text that would end exactly at the limit. */
  predicate QuietLoss(v: seq<Write>) {
    v != [] && v[|v| - 1].Formatted? && v[|v| - 1].text != [] && TotalSize(Images(v)) == MAX_CONTENT_SIZE
  }

  lemma {:induction false} PrefixTotal(v: seq<Write>, k: nat)
    requires k < |v|
    ensures TotalSize(Images(v[..k])) < TotalSize(Images(v))
  {
    var front := v[..|v| - 1];
    assert v == front + [v[|v| - 1]];
    FitsAppend(front, v[|v| - 1]);
    if k < |v| - 1 {
      PrefixTotal(front, k);
      assert front[..k] == v[..k];
    } else {
      assert v[..k] == front;
    }
  }

  lemma {:induction false} CutIsQuiet(l: Log, v: seq<Write>, k: nat)
    requires CutAt(l, v, k)
    ensures !l.full <==> QuietLoss(v)
  {
    hide TotalSize;
    var w := v[k];
    assert v[..k + 1] == v[..k] + [w];
    FitsAppend(v[..k], w);
    if k < |v| - 1 {
      PrefixTotal(v, k + 1);
    } else {
      assert v[..k + 1] == v;
    }
  }

  /** Everything written is stored, unshortened and unmarked, exactly when it fits. */
  lemma {:induction false} CompleteIffFits(ws: seq<Write>)
    requires forall w <- ws :: WellFormedWrite(w)
    ensures Run(ws) == Log(Images(Loud(ws)), false) <==> Fits(Loud(ws))
  {
    hide Fits, CutAt, Images, TotalSize;
    RunArrived(ws);
    var l, v := Run(ws), Loud(ws);
    if !Fits(v) {
      var k: nat :| CutAt(l, v, k);
      CutDiffers(l, v, k);
    }
  }

  lemma CutDiffers(l: Log, v: seq<Write>, k: nat)
    requires CutAt(l, v, k)
    ensures l != Log(Images(v), false)
  {
    var room := MAX_CONTENT_SIZE - TotalSize(Images(v[..k])) - TEXT_OVERHEAD;
    if !l.full {
      assert l.args[k] == Text(v[k].text[..room - 1]);
      assert Images(v)[k] == Text(v[k].text);
      assert |v[k].text[..room - 1]| < |v[k].text|;
    }
  }

  /** The marker is written exactly when something does not fit, but for one quiet case. */
  lemma {:induction false} MarkedIffLost(ws: seq<Write>)
    requires forall w <- ws :: WellFormedWrite(w)
    ensures Run(ws).full <==> !Fits(Loud(ws)) && !QuietLoss(Loud(ws))
  {
    hide CutAt, Images, TotalSize;
    RunArrived(ws);
    var l, v := Run(ws), Loud(ws);
    if !Fits(v) {
      var k: nat :| CutAt(l, v, k);
      CutIsQuiet(l, v, k);
    }
  }

  /** The bytes a reader gets decode to the stored arguments, which are those `Arrived` describes. */
  lemma {:induction false} ReadBack(ws: seq<Write>)
    requires forall w <- ws :: WellFormedWrite(w)
    ensures Valid(Run(ws)) && Arrived(Run(ws), Loud(ws))
    ensures DecodeAll(EncodeAll(Run(ws).args)) == Some(Run(ws).args)
    ensures |EncodeAll(Run(ws).args)| <= MAX_MESSAGE_SIZE
  {
    hide Arrived, Run, DecodeAll, EncodeAll;
    RunValid(ws);
    RunArrived(ws);
    DecodeAllInverts(Run(ws).args);
  }

  /** A quiet loss happens: one character of rendered text gone, no marker. */
  lemma QuietLossExample(text: bytes)
    requires |text| == 16359
    ensures Run([Formatted(text)]) == Log([Text(text[..|text| - 1])], false)
  {
    RunFromStep(EMPTY, [], Formatted(text));
    assert TotalSize([]) == 0;
  }

  /** Any number of booleans that fit are all stored. */
  lemma {:induction false} BooleansFit(ws: seq<Write>)
    requires forall w <- ws :: w == Scalar(Bool(true))
    requires 5 * |ws| < MAX_CONTENT_SIZE
    ensures var l := Run(ws);
      !l.full && |l.args| == |ws| && TotalSize(l.args) == 5 * |ws| && forall a <- l.args :: a == Bool(true)
  {
    hide Step, TotalSize;
    assert TotalSize([]) == 0 by { NoSize(); }
    if ws != [] {
      var front := ws[..|ws| - 1];
      forall w <- front ensures w == Scalar(Bool(true)) { assert w in ws; }
      BooleansFit(front);
      assert ws[|ws| - 1] in ws && ws == front + [ws[|ws| - 1]];
      RunFromStep(EMPTY, front, Scalar(Bool(true)));
      BooleanFits(Run(front));
    }
  }

  lemma NoSize()
    ensures TotalSize([]) == 0
  {
  }

  lemma BooleanFits(l: Log)
    requires !l.full && TotalSize(l.args) + 5 < MAX_CONTENT_SIZE
    ensures Step(l, Scalar(Bool(true))) == Log(l.args + [Bool(true)], false)
    ensures TotalSize(l.args + [Bool(true)]) == TotalSize(l.args) + 5
  {
    TotalSizeAppend(l.args, Bool(true));
    assert Size(Bool(true)) == 5;
  }

  /** An entry of 256 booleans announces no arguments, and a reader who relies on that finds none. */
  lemma AnnouncedCountExample(ws: seq<Write>)
    requires |ws| == 256 && forall w <- ws :: w == Scalar(Bool(true))
    ensures var l := Run(ws);
      && !l.full && |l.args| == 256 && |l.args| % 256 == 0 && (forall a <- l.args :: a == Bool(true))
      && DecodeCount(EncodeAll(l.args), |l.args| % 256) == Some([])
  {
    hide Run;
    BooleansFit(ws);
  }

  /** The two string encoders leave the same bytes and the same full flag exactly in these cases. */
  lemma {:induction false} StringEncodersAgree(l: Log, text: bytes)
    requires Valid(l)
    ensures
      var plain, formatted := Step(l, Plain(text)), Step(l, Formatted(text));
      var room := Room(l, TEXT_OVERHEAD);
      && Valid(plain) && Valid(formatted)
      && (EncodeAll(plain.args) == EncodeAll(formatted.args) && plain.full == formatted.full
          <==> l.full || (room == 0 && text != []) || 0 < |text| < room)
  {
    hide TotalSize, EncodeAll;
    StepValid(l, Plain(text));
    StepValid(l, Formatted(text));
    var plain, formatted := Step(l, Plain(text)), Step(l, Formatted(text));
    if EncodeAll(plain.args) == EncodeAll(formatted.args) {
      EncodeAllInjective(plain.args, formatted.args);
    }
    var room, n := Room(l, TEXT_OVERHEAD), |l.args|;
    if 0 < |text| < room {
      assert text[..|text|] == text;
    } else if !l.full && 0 < room && text != [] {
      var stored := if |text| <= room then |text| else room;
      assert plain.args[n] == Text(text[..stored]) && formatted.args[n] == Text(text[..room - 1]);
      assert |text[..stored]| != |text[..room - 1]|;
    }
  }
}
