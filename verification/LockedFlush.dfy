/**
 Threads that build log entries privately and flush them under one mutex. The flush takes the mutex, writes
 the text to its file byte by byte, and releases the mutex; the scheduler may switch threads between any two
 of these actions. An entry without a file takes and releases the mutex only.
 */
module LockedFlush {
  import opened Bytes

  datatype Flush = Flush(file: Option<nat>, text: bytes)

  /** `programs[t]` are the entries thread `t` flushes, in its program order. */
  type Programs = seq<seq<Flush>>

  datatype Action = Acquire(t: nat) | Emit(t: nat) | Release(t: nat)

  /** A completed flush: entry `k` of thread `t`. */
  datatype Done = Done(t: nat, k: nat)

  datatype State = State(
    flushed: seq<nat>, owner: Option<nat>, emitted: nat, files: map<nat, bytes>, history: seq<Done>)

  function Start(programs: Programs): State {
    State(seq(|programs|, (t: nat) => 0), None, 0, map[], [])
  }

  function FileText(s: State, file: nat): bytes {
    if file in s.files then s.files[file] else []
  }

  predicate HasCurrent(programs: Programs, s: State, t: nat) {
    t < |programs| && t < |s.flushed| && s.flushed[t] < |programs[t]|
  }

  /** Whether an action can happen: only a free mutex is acquired, only its owner writes and releases. */
  predicate Enabled(programs: Programs, s: State, a: Action) {
    && HasCurrent(programs, s, a.t)
    && var f := programs[a.t][s.flushed[a.t]];
       match a
       case Acquire(_) => s.owner == None
       case Emit(t) => s.owner == Some(t) && f.file.Some? && s.emitted < |f.text|
       case Release(t) => s.owner == Some(t) && (f.file.Some? ==> s.emitted >= |f.text|)
  }

  function Perform(programs: Programs, s: State, a: Action): State
    requires Enabled(programs, s, a)
  {
    var f := programs[a.t][s.flushed[a.t]];
    match a
    case Acquire(t) => s.(owner := Some(t), emitted := 0)
    case Emit(_) =>
      s.(files := s.files[f.file.value := FileText(s, f.file.value) + [f.text[s.emitted]]], emitted := s.emitted + 1)
    case Release(t) =>
      s.(flushed := s.flushed[t := s.flushed[t] + 1], owner := None, emitted := 0,
         history := s.history + [Done(t, s.flushed[t])])
  }

  /** The state after a schedule; actions that cannot happen are skipped. */
  function Run(programs: Programs, schedule: seq<Action>): State {
    if schedule == [] then Start(programs)
    else
      var s, a := Run(programs, schedule[..|schedule| - 1]), schedule[|schedule| - 1];
      if Enabled(programs, s, a) then Perform(programs, s, a) else s
  }

  // ---- what the files hold -----------------------------------------------------------------

  predicate Recorded(programs: Programs, d: Done) {
    d.t < |programs| && d.k < |programs[d.t]|
  }

  /** The whole entries for `file` among the completed flushes, in the order of completion. */
  function WholeEntries(programs: Programs, history: seq<Done>, file: nat): bytes
    requires forall i | 0 <= i < |history| :: Recorded(programs, history[i])
  {
    if history == [] then []
    else
      var front, d := history[..|history| - 1], history[|history| - 1];
      assert Recorded(programs, d);
      WholeEntries(programs, front, file)
        + (if programs[d.t][d.k].file == Some(file) then programs[d.t][d.k].text else [])
  }

  /** The entries of thread `t` among the completed flushes. */
  function EntriesOf(history: seq<Done>, t: nat): seq<nat> {
    if history == [] then []
    else
      var front, d := EntriesOf(history[..|history| - 1], t), history[|history| - 1];
      if d.t == t then front + [d.k] else front
  }

  /** What the owner of the mutex has written so far of its entry for `file`. */
  function Partial(programs: Programs, s: State, file: nat): bytes {
    if s.owner.Some? && HasCurrent(programs, s, s.owner.value)
    then
      var f := programs[s.owner.value][s.flushed[s.owner.value]];
      if f.file == Some(file) && s.emitted <= |f.text| then f.text[..s.emitted] else []
    else []
  }

  ghost predicate Inv(programs: Programs, s: State) {
    && |s.flushed| == |programs|
    && (forall t | 0 <= t < |programs| :: s.flushed[t] <= |programs[t]|)
    && (forall i | 0 <= i < |s.history| :: Recorded(programs, s.history[i]))
    && (s.owner.Some? ==> HasCurrent(programs, s, s.owner.value))
    && (s.owner.Some? ==>
          var f := programs[s.owner.value][s.flushed[s.owner.value]];
          if f.file.Some? then s.emitted <= |f.text| else s.emitted == 0)
    && (forall file: nat :: FileText(s, file) == WholeEntries(programs, s.history, file) + Partial(programs, s, file))
    && (forall t: nat | t < |programs| :: EntriesOf(s.history, t) == seq(s.flushed[t], (k: nat) => k))
  }

  lemma HistoryAppend(programs: Programs, history: seq<Done>, d: Done, file: nat, t: nat)
    requires (forall i | 0 <= i < |history| :: Recorded(programs, history[i])) && Recorded(programs, d)
    ensures forall i | 0 <= i < |history + [d]| :: Recorded(programs, (history + [d])[i])
    ensures WholeEntries(programs, history + [d], file) ==
      WholeEntries(programs, history, file)
        + (if programs[d.t][d.k].file == Some(file) then programs[d.t][d.k].text else [])
    ensures EntriesOf(history + [d], t) == EntriesOf(history, t) + (if d.t == t then [d.k] else [])
  {
    assert (history + [d])[..|history|] == history;
  }

  lemma {:induction false} AcquireKeeps(programs: Programs, s: State, a: Action)
    requires Inv(programs, s) && Enabled(programs, s, a) && a.Acquire?
    ensures Inv(programs, Perform(programs, s, a))
  {
    var r := Perform(programs, s, a);
    forall file: nat ensures FileText(r, file) == WholeEntries(programs, r.history, file) + Partial(programs, r, file) {
      assert FileText(s, file) == WholeEntries(programs, s.history, file) + [];
    }
  }

  lemma EmitFile(programs: Programs, s: State, a: Action, file: nat)
    requires Enabled(programs, s, a) && a.Emit? && s.emitted <= |programs[a.t][s.flushed[a.t]].text|
    ensures var r, f := Perform(programs, s, a), programs[a.t][s.flushed[a.t]];
      if f.file == Some(file) then
        && FileText(r, file) == FileText(s, file) + [f.text[s.emitted]]
        && Partial(programs, r, file) == Partial(programs, s, file) + [f.text[s.emitted]]
      else FileText(r, file) == FileText(s, file) && Partial(programs, r, file) == [] == Partial(programs, s, file)
  {
    var f := programs[a.t][s.flushed[a.t]];
    assert f.text[..s.emitted + 1] == f.text[..s.emitted] + [f.text[s.emitted]];
  }

  lemma {:induction false} EmitKeeps(programs: Programs, s: State, a: Action)
    requires Inv(programs, s) && Enabled(programs, s, a) && a.Emit?
    ensures Inv(programs, Perform(programs, s, a))
  {
    hide WholeEntries, EntriesOf, Partial, FileText;
    var r := Perform(programs, s, a);
    forall file: nat ensures FileText(r, file) == WholeEntries(programs, r.history, file) + Partial(programs, r, file) {
      EmitFile(programs, s, a, file);
    }
  }

  lemma ReleaseFile(programs: Programs, s: State, a: Action, file: nat)
    requires Inv(programs, s) && Enabled(programs, s, a) && a.Release?
    requires forall i | 0 <= i < |Perform(programs, s, a).history| ::
      Recorded(programs, Perform(programs, s, a).history[i])
    ensures var r := Perform(programs, s, a);
      FileText(r, file) == WholeEntries(programs, r.history, file) + Partial(programs, r, file)
  {
    hide WholeEntries, EntriesOf;
    var f := programs[a.t][s.flushed[a.t]];
    assert f.text[..|f.text|] == f.text;
    assert FileText(s, file) == WholeEntries(programs, s.history, file) + Partial(programs, s, file);
    HistoryAppend(programs, s.history, Done(a.t, s.flushed[a.t]), file, 0);
  }

  lemma {:induction false} ReleaseKeeps(programs: Programs, s: State, a: Action)
    requires Inv(programs, s) && Enabled(programs, s, a) && a.Release?
    ensures Inv(programs, Perform(programs, s, a))
  {
    hide WholeEntries, EntriesOf, Partial, FileText;
    var r, d := Perform(programs, s, a), Done(a.t, s.flushed[a.t]);
    HistoryAppend(programs, s.history, d, 0, 0);
    forall file: nat ensures FileText(r, file) == WholeEntries(programs, r.history, file) + Partial(programs, r, file) {
      ReleaseFile(programs, s, a, file);
    }
    forall t: nat | t < |programs| ensures EntriesOf(r.history, t) == seq(r.flushed[t], (k: nat) => k) {
      HistoryAppend(programs, s.history, d, 0, t);
      if t == a.t { assert seq(s.flushed[t] + 1, (k: nat) => k) == seq(s.flushed[t], (k: nat) => k) + [s.flushed[t]]; }
    }
  }

  /**
   For every interleaving, each file is a concatenation of whole entries, followed at most by the beginning
   of the entry whose thread holds the mutex, and every thread's entries were completed in its own order.
   */
  lemma {:induction false} FilesHoldWholeEntries(programs: Programs, schedule: seq<Action>)
    ensures Inv(programs, Run(programs, schedule))
  {
    if schedule != [] {
      hide Inv;
      var s, a := Run(programs, schedule[..|schedule| - 1]), schedule[|schedule| - 1];
      FilesHoldWholeEntries(programs, schedule[..|schedule| - 1]);
      if Enabled(programs, s, a) {
        match a
        case Acquire(_) => AcquireKeeps(programs, s, a);
        case Emit(_) => EmitKeeps(programs, s, a);
        case Release(_) => ReleaseKeeps(programs, s, a);
      }
    }
  }

  /** When the mutex is free, a file holds whole entries only. */
  lemma FreeMutexMeansWhole(programs: Programs, schedule: seq<Action>, file: nat)
    requires Run(programs, schedule).owner == None
    ensures
      var s := Run(programs, schedule);
      (forall i | 0 <= i < |s.history| :: Recorded(programs, s.history[i]))
        && FileText(s, file) == WholeEntries(programs, s.history, file)
  {
    hide Run;
    FilesHoldWholeEntries(programs, schedule);
  }

  /** No schedule is stuck before every thread has flushed all its entries. */
  lemma SomeoneCanAct(programs: Programs, schedule: seq<Action>, t: nat)
    requires t < |programs| && HasCurrent(programs, Run(programs, schedule), t)
    ensures exists a: Action :: Enabled(programs, Run(programs, schedule), a)
  {
    hide Run;
    FilesHoldWholeEntries(programs, schedule);
    var s := Run(programs, schedule);
    if s.owner == None {
      assert Enabled(programs, s, Acquire(t));
    } else {
      var o := s.owner.value;
      var f := programs[o][s.flushed[o]];
      assert Enabled(programs, s, Emit(o)) || Enabled(programs, s, Release(o));
    }
  }

  // ---- how long it takes -------------------------------------------------------------------

  /** The actions of one flush: taking the mutex, writing every byte, releasing the mutex. */
  function Work(f: Flush): nat {
    2 + if f.file.Some? then |f.text| else 0
  }

  function WorkOf(fs: seq<Flush>): nat {
    if fs == [] then 0 else Work(fs[0]) + WorkOf(fs[1..])
  }

  /** The work of the first `n` threads, apart from the entries they have flushed already. */
  function WorkLeft(programs: Programs, flushed: seq<nat>, n: nat): nat
    requires n <= |programs| == |flushed| && forall t | 0 <= t < |programs| :: flushed[t] <= |programs[t]|
  {
    if n == 0 then 0 else WorkLeft(programs, flushed, n - 1) + WorkOf(programs[n - 1][flushed[n - 1]..])
  }

  function AllWork(programs: Programs): nat {
    WorkLeft(programs, Start(programs).flushed, |programs|)
  }

  /** How many actions of the schedule did happen. */
  function Effective(programs: Programs, schedule: seq<Action>): nat {
    if schedule == [] then 0
    else
      var front, a := schedule[..|schedule| - 1], schedule[|schedule| - 1];
      Effective(programs, front) + if Enabled(programs, Run(programs, front), a) then 1 else 0
  }

  predicate AllFlushed(programs: Programs, s: State) {
    |s.flushed| == |programs| && forall t | 0 <= t < |programs| :: s.flushed[t] == |programs[t]|
  }

  /** What is still to be done, with the flush in progress. */
  ghost function Left(programs: Programs, s: State): int
    requires Inv(programs, s)
  {
    WorkLeft(programs, s.flushed, |programs|) - if s.owner.Some? then 1 + s.emitted else 0
  }

  lemma {:induction false} WorkLeftSame(programs: Programs, a: seq<nat>, b: seq<nat>, n: nat)
    requires n <= |programs| == |a| == |b| && forall t | 0 <= t < n :: a[t] == b[t]
    requires forall t | 0 <= t < |programs| :: a[t] <= |programs[t]| && b[t] <= |programs[t]|
    ensures WorkLeft(programs, a, n) == WorkLeft(programs, b, n)
  {
    if n > 0 { WorkLeftSame(programs, a, b, n - 1); }
  }

  lemma {:induction false} WorkLeftNext(programs: Programs, flushed: seq<nat>, t: nat, n: nat)
    requires t < n <= |programs| == |flushed| && flushed[t] < |programs[t]|
    requires forall i | 0 <= i < |programs| :: flushed[i] <= |programs[i]|
    ensures WorkLeft(programs, flushed, n) ==
      WorkLeft(programs, flushed[t := flushed[t] + 1], n) + Work(programs[t][flushed[t]])
  {
    var next := flushed[t := flushed[t] + 1];
    if n == t + 1 {
      WorkLeftSame(programs, flushed, next, t);
      assert programs[t][flushed[t]..][1..] == programs[t][flushed[t] + 1..];
    } else {
      WorkLeftNext(programs, flushed, t, n - 1);
    }
  }

  lemma OneLess(programs: Programs, s: State, a: Action)
    requires Inv(programs, s) && Enabled(programs, s, a) && Inv(programs, Perform(programs, s, a))
    ensures Left(programs, Perform(programs, s, a)) == Left(programs, s) - 1
  {
    hide WholeEntries, EntriesOf, Partial, FileText, Recorded;
    if a.Release? { WorkLeftNext(programs, s.flushed, a.t, |programs|); }
  }

  lemma {:induction false} NothingLeft(programs: Programs, flushed: seq<nat>, n: nat)
    requires n <= |programs| == |flushed| && forall t | 0 <= t < |programs| :: flushed[t] <= |programs[t]|
    ensures WorkLeft(programs, flushed, n) == 0 <==> forall t | 0 <= t < n :: flushed[t] == |programs[t]|
  {
    if n > 0 { NothingLeft(programs, flushed, n - 1); }
  }

  lemma LeftUntilFlushed(programs: Programs, s: State)
    requires Inv(programs, s)
    ensures Left(programs, s) >= 0 && (Left(programs, s) == 0 <==> AllFlushed(programs, s))
  {
    hide WholeEntries, EntriesOf, Partial, FileText, Recorded;
    NothingLeft(programs, s.flushed, |programs|);
    if s.owner.Some? { WorkLeftNext(programs, s.flushed, s.owner.value, |programs|); }
  }

  lemma {:induction false} EffectiveIsDone(programs: Programs, schedule: seq<Action>)
    ensures Inv(programs, Run(programs, schedule))
    ensures Effective(programs, schedule) + Left(programs, Run(programs, schedule)) == AllWork(programs)
  {
    hide Inv, Left, Perform;
    FilesHoldWholeEntries(programs, schedule);
    if schedule == [] {
      LeftAtStart(programs);
    } else {
      var front, a := schedule[..|schedule| - 1], schedule[|schedule| - 1];
      EffectiveIsDone(programs, front);
      if Enabled(programs, Run(programs, front), a) { OneLess(programs, Run(programs, front), a); }
    }
  }

  lemma LeftAtStart(programs: Programs)
    requires Inv(programs, Start(programs))
    ensures Left(programs, Start(programs)) == AllWork(programs)
  {
  }

  /**
   The flushes take a fixed number of actions, however they are interleaved: no schedule has more that
   happen, and exactly those with all of them flush every entry. Then the mutex is free and the files hold
   all entries, those of each thread in its order.
   */
  lemma AllWorkFlushesAll(programs: Programs, schedule: seq<Action>)
    ensures
      var s := Run(programs, schedule);
      && Effective(programs, schedule) <= AllWork(programs)
      && (Effective(programs, schedule) == AllWork(programs) <==> AllFlushed(programs, s))
      && (AllFlushed(programs, s) ==>
            && s.owner == None && (forall i | 0 <= i < |s.history| :: Recorded(programs, s.history[i]))
            && (forall file: nat :: FileText(s, file) == WholeEntries(programs, s.history, file))
            && forall t: nat | t < |programs| :: EntriesOf(s.history, t) == seq(|programs[t]|, (k: nat) => k))
  {
    hide Inv, Left, Run, AllFlushed;
    EffectiveIsDone(programs, schedule);
    LeftUntilFlushed(programs, Run(programs, schedule));
    if AllFlushed(programs, Run(programs, schedule)) { FlushedFiles(programs, Run(programs, schedule)); }
  }

  lemma FlushedFiles(programs: Programs, s: State)
    requires Inv(programs, s) && AllFlushed(programs, s)
    ensures s.owner == None && (forall i | 0 <= i < |s.history| :: Recorded(programs, s.history[i]))
    ensures forall file: nat :: FileText(s, file) == WholeEntries(programs, s.history, file)
    ensures forall t: nat | t < |programs| :: EntriesOf(s.history, t) == seq(|programs[t]|, (k: nat) => k)
  {
    hide WholeEntries, EntriesOf;
    forall file: nat ensures FileText(s, file) == WholeEntries(programs, s.history, file) {
      assert FileText(s, file) == WholeEntries(programs, s.history, file) + Partial(programs, s, file);
    }
  }
}
