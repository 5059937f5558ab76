/**
 One log statement, several backends. A backend's log data is any state with a step for each write; a
 context fans queries, registrations and entries out to all its backends in turn.
 */
module FanOut {
  import opened DltProtocol

  /** What a backend that is alone and receives `ws` ends in; a disabled one ignores them. */
  function Solo<S, W>(step: (S, W) -> S, enabled: bool, s: S, ws: seq<W>): S {
    if ws == [] || !enabled then s else step(Solo(step, enabled, s, ws[..|ws| - 1]), ws[|ws| - 1])
  }

  /** The log data of one backend; its level is fixed while the entry lives. */
  class BackendData<S, W> {
    const step: (S, W) -> S
    const enabled: bool
    var state: S

    constructor (step: (S, W) -> S, enabled: bool, state: S)
      ensures this.step == step && this.enabled == enabled && this.state == state
    {
      this.step, this.enabled, this.state := step, enabled, state;
    }

    method Write(w: W)
      modifies this
      ensures state == step(old(state), w)
    {
      state := step(state, w);
    }
  }

  class LogEntry<S, W> {
    const backends: seq<BackendData<S, W>>

    ghost predicate Valid() {
      forall i, j | 0 <= i < j < |backends| :: backends[i] != backends[j]
    }

    constructor (backends: seq<BackendData<S, W>>)
      requires forall i, j | 0 <= i < j < |backends| :: backends[i] != backends[j]
      ensures Valid() && this.backends == backends
    {
      this.backends := backends;
    }

    /** LogEntry::write and writeFormatted: each backend is asked whether it is enabled. */
    method Write(w: W)
      requires Valid()
      modifies backends
      ensures forall i | 0 <= i < |backends| ::
        backends[i].state ==
          (if backends[i].enabled then backends[i].step(old(backends[i].state), w) else old(backends[i].state))
    {
      for k := 0 to |backends|
        invariant forall i | k <= i < |backends| :: backends[i].state == old(backends[i].state)
        invariant forall i | 0 <= i < k ::
          backends[i].state ==
            (if backends[i].enabled then backends[i].step(old(backends[i].state), w) else old(backends[i].state))
      {
        var log := backends[k];
        if log.enabled {
          log.Write(w);
        }
      }
    }

    /** For every sequence of writes, every backend ends as if it were the only one. */
    method WriteAll(ws: seq<W>)
      requires Valid()
      modifies backends
      ensures forall i | 0 <= i < |backends| ::
        backends[i].state == Solo(backends[i].step, backends[i].enabled, old(backends[i].state), ws)
    {
      for k := 0 to |ws|
        invariant forall i | 0 <= i < |backends| ::
          backends[i].state == Solo(backends[i].step, backends[i].enabled, old(backends[i].state), ws[..k])
      {
        assert ws[..k + 1][..k] == ws[..k];
        Write(ws[k]);
      }
      assert ws[..|ws|] == ws;
    }
  }

  /** How a backend's context filters: by the DLT level in force, or by its own and the global level. */
  datatype Filter = DltFilter(activeLogLevel: int) | StreamFilter(logLevel: LogLevel, globalLogLevel: LogLevel)

  predicate Admits(f: Filter, level: LogLevel) {
    match f
    case DltFilter(active) => DltLogLevel(level) <= active
    case StreamFilter(own, global) => Rank(level) <= Rank(own) && Rank(level) <= Rank(global)
  }

  /** What the filters admit, by the places of the levels in the list of all levels. */
  lemma AdmitsByPlace(level: LogLevel, n: nat, own: nat, global: nat, active: int)
    requires n < 9 && own < 9 && global < 9
    requires level == [None_, Fatal, Error, Warning, Info, Debug, Verbose, All, Invalid][n]
    ensures
      var levels := [None_, Fatal, Error, Warning, Info, Debug, Verbose, All, Invalid];
      && (Admits(StreamFilter(levels[own], levels[global]), level) <==> n <= own && n <= global)
      && (Admits(DltFilter(active), level) <==> (if n < 7 then n else -1) <= active)
  {
    RankByPlace(n);
    RankByPlace(own);
    RankByPlace(global);
    DltLevelByPlace(level);
  }

  /** A backend's context: its filter, and how often it was registered. */
  class BackendContext {
    var filter: Filter
    var registrations: nat

    constructor (filter: Filter)
      ensures this.filter == filter && registrations == 0
    {
      this.filter, registrations := filter, 0;
    }

    method RegisterContext()
      modifies this`registrations
      ensures registrations == old(registrations) + 1
    {
      registrations := registrations + 1;
    }

    predicate IsEnabled(level: LogLevel)
      reads this
    {
      Admits(filter, level)
    }
  }

  class LogContext {
    const contexts: seq<BackendContext>
    var registered: bool

    /** Before the first query no backend is registered, after it each is, once. */
    ghost predicate Valid()
      reads this, contexts
    {
      && (forall i, j | 0 <= i < j < |contexts| :: contexts[i] != contexts[j])
      && (forall i | 0 <= i < |contexts| :: contexts[i].registrations == if registered then 1 else 0)
    }

    constructor (contexts: seq<BackendContext>)
      requires forall i, j | 0 <= i < j < |contexts| :: contexts[i] != contexts[j]
      requires forall x <- contexts :: x.registrations == 0
      ensures Valid() && this.contexts == contexts && !registered
    {
      this.contexts, registered := contexts, false;
    }

    method CheckContext()
      requires Valid()
      modifies this`registered, (set x <- contexts)`registrations
      ensures Valid() && registered
    {
      if !registered {
        for k := 0 to |contexts|
          invariant forall i | 0 <= i < |contexts| :: contexts[i].registrations == if i < k then 1 else 0
        {
          contexts[k].RegisterContext();
        }
        registered := true;
      }
    }

    method IsEnabled(level: LogLevel) returns (enabled: bool)
      requires Valid()
      modifies this`registered, (set x <- contexts)`registrations
      ensures Valid() && registered
      ensures enabled <==> exists i :: 0 <= i < |contexts| && contexts[i].IsEnabled(level)
    {
      CheckContext();
      enabled := false;
      for k := 0 to |contexts|
        invariant enabled <==> exists i :: 0 <= i < k && contexts[i].IsEnabled(level)
      {
        enabled := enabled || contexts[k].IsEnabled(level);
      }
    }

    /** However often the context is queried, every backend is registered exactly once. */
    method QueryAll(levels: seq<LogLevel>) returns (answers: seq<bool>)
      requires Valid()
      modifies this`registered, (set x <- contexts)`registrations
      ensures levels != [] ==> forall i | 0 <= i < |contexts| :: contexts[i].registrations == 1
      ensures |answers| == |levels|
      ensures forall j | 0 <= j < |levels| ::
        answers[j] <==> exists i :: 0 <= i < |contexts| && contexts[i].IsEnabled(levels[j])
    {
      answers := [];
      for j := 0 to |levels|
        invariant Valid() && (j > 0 ==> registered) && |answers| == j
        invariant forall m | 0 <= m < j ::
          answers[m] <==> exists i :: 0 <= i < |contexts| && contexts[i].IsEnabled(levels[m])
      {
        var answer := IsEnabled(levels[j]);
        answers := answers + [answer];
      }
    }
  }

  /** Solo runs of two parts of a sequence of writes compose, so an entry may be written to from anywhere. */
  lemma {:induction false} SoloConcat<S, W>(step: (S, W) -> S, enabled: bool, s: S, a: seq<W>, b: seq<W>)
    ensures Solo(step, enabled, Solo(step, enabled, s, a), b) == Solo(step, enabled, s, a + b)
  {
    if b == [] {
      assert a + b == a;
    } else {
      SoloConcat(step, enabled, s, a, b[..|b| - 1]);
      assert (a + b)[..|a + b| - 1] == a + b[..|b| - 1];
    }
  }
}
