/** Per-task-type circuit breaker with a state file (cos_lib/circuit_breaker.py). Clock readings are
    parameters; timestamps are stored in whole seconds. */
module CircuitBreaker {
  import opened Common

  datatype State = Closed | Open | HalfOpen

  datatype Circuit = Circuit(taskType: string, state: State, failures: int,
                             lastFailureAt: Option<int>, openedAt: Option<int>, cooldown: int)

  type Circuits = map<string, Circuit>

  datatype Config = Config(threshold: int, cooldown: int)

  /** The breaker in memory and its state file, if one has been written. */
  datatype Memory = Image(circuits: Circuits, file: Option<Circuits>)

  function Get(circuits: Circuits, task: string, cfg: Config): Circuit {
    if task in circuits then circuits[task] else Circuit(task, Closed, 0, None, None, cfg.cooldown)
  }

  /** A failure at `at`; `again` is the second reading of the clock, which dates an opening. */
  function Failed(c: Circuit, at: real, again: real, cfg: Config): Circuit {
    var counted := c.(failures := c.failures + 1, lastFailureAt := Some(at.Floor));
    if counted.failures >= cfg.threshold then
      counted.(state := Open, openedAt := if c.openedAt.None? then Some(again.Floor) else c.openedAt)
    else counted
  }

  function Succeeded(c: Circuit): Circuit {
    c.(state := Closed, failures := 0, lastFailureAt := None, openedAt := None)
  }

  predicate CooledDown(openedAt: int, now: real, cfg: Config) {
    now - openedAt as real >= cfg.cooldown as real
  }

  predicate Probes(c: Circuit, now: real, cfg: Config) {
    c.state.Open? && c.openedAt.Some? && CooledDown(c.openedAt.value, now, cfg)
  }

  /** The answer of `can_launch`. */
  predicate MayLaunch(c: Circuit, now: real, cfg: Config) {
    !c.state.Open? || Probes(c, now, cfg)
  }

  datatype Event =
    | Failure(task: string, at: real, again: real)
    | Success(task: string)
    | Query(task: string, at: real)
    | Restart

  function Saved(circuits: Circuits): Memory {
    Image(circuits, Some(circuits))
  }

  function Loaded(file: Option<Circuits>): Memory {
    Image(if file.Some? then file.value else map[], file)
  }

  function Next(m: Memory, ev: Event, cfg: Config): Memory {
    match ev
    case Failure(task, at, again) => Saved(m.circuits[task := Failed(Get(m.circuits, task, cfg), at, again, cfg)])
    case Success(task) => Saved(m.circuits[task := Succeeded(Get(m.circuits, task, cfg))])
    case Query(task, at) =>
      var c := Get(m.circuits, task, cfg);
      if Probes(c, at, cfg) then Saved(m.circuits[task := c.(state := HalfOpen)])
      else m.(circuits := m.circuits[task := c])
    case Restart => Loaded(m.file)
  }

  function Run(m: Memory, history: seq<Event>, cfg: Config): Memory {
    if history == [] then m
    else Next(Run(m, history[..|history| - 1], cfg), history[|history| - 1], cfg)
  }

  class Breaker {
    var circuits: Circuits
    var file: Option<Circuits>
    const cfg: Config

    function Memory(): Memory
      reads this
    {
      Image(circuits, file)
    }

    constructor (stateFile: Option<Circuits>, cfg: Config)
      ensures Memory() == Loaded(stateFile) && this.cfg == cfg
    {
      this.cfg := cfg;
      file := stateFile;
      circuits := if stateFile.Some? then stateFile.value else map[];
    }

    method GetOrCreate(task: string) returns (c: Circuit)
      modifies this
      ensures c == Get(old(circuits), task, cfg)
      ensures circuits == old(circuits)[task := c] && file == old(file)
    {
      if task !in circuits {
        circuits := circuits[task := Circuit(task, Closed, 0, None, None, cfg.cooldown)];
      }
      c := circuits[task];
      assert circuits == old(circuits)[task := c];
    }

    method Save()
      modifies this
      ensures circuits == old(circuits) && file == Some(circuits)
    {
      file := Some(circuits);
    }

    method RecordFailure(task: string, at: real, again: real) returns (c: Circuit)
      modifies this
      ensures Memory() == Next(old(Memory()), Failure(task, at, again), cfg)
      ensures c == circuits[task]
    {
      c := GetOrCreate(task);
      c := c.(failures := c.failures + 1, lastFailureAt := Some(at.Floor));
      if c.failures >= cfg.threshold {
        c := c.(state := Open);
        if c.openedAt.None? {
          c := c.(openedAt := Some(again.Floor));
        }
      }
      circuits := circuits[task := c];
      assert circuits == old(circuits)[task := c];
      Save();
    }

    method RecordSuccess(task: string) returns (c: Circuit)
      modifies this
      ensures Memory() == Next(old(Memory()), Success(task), cfg)
      ensures c == circuits[task]
    {
      c := GetOrCreate(task);
      c := c.(failures := 0, lastFailureAt := None, openedAt := None, state := Closed);
      circuits := circuits[task := c];
      assert circuits == old(circuits)[task := c];
      Save();
    }

    method CanLaunch(task: string, now: real) returns (allowed: bool)
      modifies this
      ensures Memory() == Next(old(Memory()), Query(task, now), cfg)
      ensures allowed == MayLaunch(Get(old(circuits), task, cfg), now, cfg)
    {
      var c := GetOrCreate(task);
      if c.state.Closed? || c.state.HalfOpen? {
        return true;
      }
      if c.openedAt.Some? {
        var elapsed := now - c.openedAt.value as real;
        if elapsed >= cfg.cooldown as real {
          circuits := circuits[task := c.(state := HalfOpen)];
          assert circuits == old(circuits)[task := c.(state := HalfOpen)];
          Save();
          return true;
        }
      }
      return false;
    }
  }

  // ---- The breaker as a function of history --------------------------------------------------

  predicate SucceedsIn(ev: Event, task: string) {
    ev.Success? && ev.task == task
  }

  predicate FailsIn(ev: Event, task: string) {
    ev.Failure? && ev.task == task
  }

  /** The dates of a task type's failures since its last success. */
  function FailureRun(history: seq<Event>, task: string): seq<int> {
    if history == [] then []
    else
      var ev, before := history[|history| - 1], FailureRun(history[..|history| - 1], task);
      if SucceedsIn(ev, task) then [] else if FailsIn(ev, task) then before + [ev.again.Floor] else before
  }

  /** How many failures open the circuit: even a threshold below one needs a first failure. */
  function Needed(cfg: Config): nat {
    Max(1, cfg.threshold)
  }

  /** Fewer failures than needed since the last success, or the cooldown has elapsed since the
      failure that reached the threshold. */
  predicate HistoryAllows(history: seq<Event>, task: string, now: real, cfg: Config) {
    var run := FailureRun(history, task);
    |run| < Needed(cfg) || now - run[Needed(cfg) - 1] as real >= cfg.cooldown as real
  }

  /** When the task type's last failure since its last success was recorded. */
  function LastFailure(history: seq<Event>, task: string): Option<int> {
    if history == [] then None
    else
      var ev, before := history[|history| - 1], LastFailure(history[..|history| - 1], task);
      if SucceedsIn(ev, task) then None else if FailsIn(ev, task) then Some(ev.at.Floor) else before
  }

  /** A probe has been let through since the task type's last failure or success. */
  predicate Probed(history: seq<Event>, task: string, cfg: Config) {
    history != [] &&
    var ev, before := history[|history| - 1], history[..|history| - 1];
    if SucceedsIn(ev, task) || FailsIn(ev, task) then false
    else
      || Probed(before, task, cfg)
      || (ev.Query? && ev.task == task
          && |FailureRun(before, task)| >= Needed(cfg) && HistoryAllows(before, task, ev.at, cfg))
  }

  /** The circuit of a task type, field by field, from its history alone. */
  lemma {:induction false} CircuitExactly(history: seq<Event>, task: string, cfg: Config)
    ensures var m, run := Run(Loaded(None), history, cfg), FailureRun(history, task);
            var open := |run| >= Needed(cfg);
            && Synced(m, cfg)
            && Get(m.circuits, task, cfg) ==
               Circuit(task, if !open then Closed else if Probed(history, task, cfg) then HalfOpen else Open,
                       |run|, LastFailure(history, task), if open then Some(run[Needed(cfg) - 1]) else None,
                       cfg.cooldown)
  {
    if history != [] {
      var ev, before := history[|history| - 1], history[..|history| - 1];
      CircuitExactly(before, task, cfg);
      var m := Run(Loaded(None), before, cfg);
      NextIsSynced(m, ev, cfg);
      if ev.Restart? || ev.task != task {
        NextElsewhere(m, ev, task, cfg);
      }
    }
  }

  /** The clock readings in `history` never go back and none is after `now`. */
  ghost predicate Timely(history: seq<Event>, now: real) {
    history == [] ||
    (var ev, before := history[|history| - 1], history[..|history| - 1];
     match ev
     case Failure(_, at, again) => at <= again <= now && Timely(before, at)
     case Query(_, at) => at <= now && Timely(before, at)
     case _ => Timely(before, now))
  }

  /** What a circuit looks like after a given run of failures, at a time not before `now`. */
  ghost predicate Reflects(c: Circuit, run: seq<int>, now: real, cfg: Config) {
    && c.failures == |run|
    && (if |run| < Needed(cfg) then c.state.Closed? && c.openedAt.None?
        else
          && !c.state.Closed?
          && c.openedAt == Some(run[Needed(cfg) - 1])
          && (c.state.HalfOpen? ==> CooledDown(run[Needed(cfg) - 1], now, cfg)))
  }

  /** What is in the state file says the same about every task as what is in memory. */
  ghost predicate Synced(m: Memory, cfg: Config) {
    forall task :: Get(m.circuits, task, cfg) == Get(Loaded(m.file).circuits, task, cfg)
  }

  lemma NextIsSynced(m: Memory, ev: Event, cfg: Config)
    requires Synced(m, cfg)
    ensures Synced(Next(m, ev, cfg), cfg)
  {
  }

  lemma NextElsewhere(m: Memory, ev: Event, task: string, cfg: Config)
    requires Synced(m, cfg)
    requires ev.Restart? || ev.task != task
    ensures Get(Next(m, ev, cfg).circuits, task, cfg) == Get(m.circuits, task, cfg)
  {
  }

  lemma {:induction false} RunReflectsHistory(history: seq<Event>, task: string, now: real, cfg: Config)
    requires Timely(history, now)
    ensures var m := Run(Loaded(None), history, cfg);
            Synced(m, cfg) && Reflects(Get(m.circuits, task, cfg), FailureRun(history, task), now, cfg)
  {
    if history != [] {
      var ev, before := history[|history| - 1], history[..|history| - 1];
      var upTo := if ev.Failure? || ev.Query? then ev.at else now;
      RunReflectsHistory(before, task, upTo, cfg);
      var m := Run(Loaded(None), before, cfg);
      NextIsSynced(m, ev, cfg);
      if ev.Restart? || ev.task != task {
        NextElsewhere(m, ev, task, cfg);
      }
    }
  }

  /** `can_launch` is a function of the task type's own history: which probes were made, what others
      did and how often the breaker was restarted from its file play no part. */
  lemma BreakerIsItsHistory(history: seq<Event>, task: string, now: real, cfg: Config)
    requires Timely(history, now)
    ensures MayLaunch(Get(Run(Loaded(None), history, cfg).circuits, task, cfg), now, cfg)
       <==> HistoryAllows(history, task, now, cfg)
  {
    RunReflectsHistory(history, task, now, cfg);
  }

  lemma {:induction false} RunGrows(history: seq<Event>, more: seq<Event>, task: string)
    requires forall ev <- more :: !SucceedsIn(ev, task)
    ensures FailureRun(history, task) <= FailureRun(history + more, task)
  {
    if more == [] {
      assert history + more == history;
    } else {
      var n := |more| - 1;
      assert more[n] in more && (history + more)[..|history| + n] == history + more[..n];
      RunGrows(history, more[..n], task);
    }
  }

  /** Failed probes do not renew the cooldown: once an opened circuit may launch, it may at any later
      time, however many failures are recorded in between, until a success. */
  lemma CooldownIsNotRenewed(history: seq<Event>, more: seq<Event>, task: string, now: real, later: real, cfg: Config)
    requires Timely(history, now) && Timely(history + more, later) && now <= later
    requires forall ev <- more :: !SucceedsIn(ev, task)
    requires |FailureRun(history, task)| >= Needed(cfg)
    requires MayLaunch(Get(Run(Loaded(None), history, cfg).circuits, task, cfg), now, cfg)
    ensures MayLaunch(Get(Run(Loaded(None), history + more, cfg).circuits, task, cfg), later, cfg)
  {
    BreakerIsItsHistory(history, task, now, cfg);
    BreakerIsItsHistory(history + more, task, later, cfg);
    RunGrows(history, more, task);
  }

  /** With a threshold of one, a failed probe at the end of the cooldown may be followed by the next
      launch at once. */
  lemma FailedProbeLaunchesAgain(cfg: Config)
    requires cfg.threshold == 1 && cfg.cooldown >= 0
    ensures var end := cfg.cooldown as real;
            var history := [Failure("t", 0.0, 0.0), Query("t", end), Failure("t", end, end)];
            Timely(history, end) && MayLaunch(Get(Run(Loaded(None), history, cfg).circuits, "t", cfg), end, cfg)
  {
    var end := cfg.cooldown as real;
    var first, probe, again := Failure("t", 0.0, 0.0), Query("t", end), Failure("t", end, end);
    assert [first, probe, again][..2] == [first, probe] && [first, probe][..1] == [first] && [first][..0] == [];
    assert Timely([first], end) && Timely([first, probe], end);
    assert FailureRun([first], "t") == [0] && FailureRun([first, probe], "t") == [0];
    assert FailureRun([first, probe, again], "t") == [0] + [end.Floor];
    BreakerIsItsHistory([first, probe, again], "t", end, cfg);
  }

  // ---- Restart transparency --------------------------------------------------------------------

  ghost predicate Alike(m: Memory, m': Memory, cfg: Config) {
    && Synced(m, cfg) && Synced(m', cfg)
    && forall task :: Get(m.circuits, task, cfg) == Get(m'.circuits, task, cfg)
  }

  lemma NextKeepsAlike(m: Memory, m': Memory, ev: Event, cfg: Config)
    requires Alike(m, m', cfg)
    ensures Alike(Next(m, ev, cfg), Next(m', ev, cfg), cfg)
  {
    NextIsSynced(m, ev, cfg);
    NextIsSynced(m', ev, cfg);
    forall task ensures Get(Next(m, ev, cfg).circuits, task, cfg) == Get(Next(m', ev, cfg).circuits, task, cfg) {
      if ev.Restart? || ev.task != task {
        NextElsewhere(m, ev, task, cfg);
        NextElsewhere(m', ev, task, cfg);
      }
    }
  }

  lemma {:induction false} RunKeepsAlike(m: Memory, m': Memory, history: seq<Event>, cfg: Config)
    requires Alike(m, m', cfg)
    ensures Alike(Run(m, history, cfg), Run(m', history, cfg), cfg)
  {
    if history != [] {
      var ev, before := history[|history| - 1], history[..|history| - 1];
      RunKeepsAlike(m, m', before, cfg);
      NextKeepsAlike(Run(m, before, cfg), Run(m', before, cfg), ev, cfg);
    }
  }

  lemma {:induction false} RunAppend(m: Memory, first: seq<Event>, second: seq<Event>, cfg: Config)
    ensures Run(m, first + second, cfg) == Run(Run(m, first, cfg), second, cfg)
  {
    if second == [] {
      assert first + second == first;
    } else {
      var n := |second| - 1;
      assert (first + second)[..|first| + n] == first + second[..n];
      RunAppend(m, first, second[..n], cfg);
    }
  }

  /** Restart transparency: whatever file the breaker started from and whatever the clock does,
      replacing it at any point by one loaded from its state file changes no later answer. */
  lemma RestartIsTransparent(file: Option<Circuits>, first: seq<Event>, second: seq<Event>, task: string,
                             now: real, cfg: Config)
    ensures MayLaunch(Get(Run(Loaded(file), first + [Restart] + second, cfg).circuits, task, cfg), now, cfg)
         == MayLaunch(Get(Run(Loaded(file), first + second, cfg).circuits, task, cfg), now, cfg)
  {
    var m := Loaded(file);
    RunKeepsAlike(m, m, first, cfg);
    var mid := Run(m, first, cfg);
    RunAppend(m, first, [Restart], cfg);
    RunAppend(m, first + [Restart], second, cfg);
    RunAppend(m, first, second, cfg);
    assert Run(mid, [Restart], cfg) == Next(mid, Restart, cfg) by {
      assert [Restart][..0] == [];
    }
    RunKeepsAlike(Next(mid, Restart, cfg), mid, second, cfg);
  }
}
