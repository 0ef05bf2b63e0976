/** Branch ownership leases (cos_lib/branch_lock.py).

    The lock directory is a map from lock-file name to row. Everything done under the flock is one
    step; the clock samples and live-PID probes a step makes are its `Env`. */
module BranchLock {
  import opened Common

  // ---- Lock-file names ------------------------------------------------------------------

  predicate Safe(c: char) {
    'A' <= c <= 'Z' || 'a' <= c <= 'z' || '0' <= c <= '9' || c == '_' || c == '.' || c == '-'
  }

  /** Each maximal run of unsafe characters becomes one dash. */
  function Dashed(s: string, inRun: bool): string {
    if s == [] then []
    else if Safe(s[0]) then [s[0]] + Dashed(s[1..], false)
    else if inRun then Dashed(s[1..], true)
    else "-" + Dashed(s[1..], true)
  }

  function Slug(branch: string): string {
    var cleaned := Strip(Dashed(Strip(branch, IsSpace), false), c => c == '-');
    if cleaned == "" then "detached" else cleaned
  }

  /** `release_all_for_session` skips names that start with a dot. */
  predicate Hidden(name: string) {
    name != "" && name[0] == '.'
  }

  // ---- Rows and the environment of one step -----------------------------------------------

  datatype Row = Row(branch: string, session: string, pid: int, worktree: string,
                     acquiredAt: real, renewedAt: real, ttl: int, expiresAt: real)

  type Files = map<string, Row>

  /** What one call reads from its surroundings: the clock before the flock is taken (`entry`), in
      `holder` (`seen`) and before a renewal is written (`write`); the live PIDs when `holder`
      probes and when `acquire` probes again. */
  datatype Env = Env(entry: real, seen: real, write: real, aliveSeen: set<int>, aliveAgain: set<int>) {
    predicate Valid() { entry <= seen <= write }
  }

  predicate PidAlive(pid: int, alive: set<int>) {
    pid > 0 && pid in alive
  }

  predicate IsExpired(row: Row, now: real) {
    row.expiresAt <= now
  }

  datatype Op =
    | Acquire(branch: string, session: string, pid: int, worktree: string, ttl: int)
    | Renew(branch: string, session: string, ttl: int)
    | Release(branch: string, session: string)
    | ReleaseAll(session: string)
    | Holder(branch: string)

  datatype Event = Event(op: Op, env: Env)

  datatype Reply =
    | Acquired(row: Row)
    | Blocked(heldBy: Row)
    | Done(ok: bool)
    | Count(n: nat)
    | Held(current: Option<Row>)

  // ---- What one step does -----------------------------------------------------------------

  predicate Stale(files: Files, name: string, env: Env) {
    name in files && IsExpired(files[name], env.seen) && !PidAlive(files[name].pid, env.aliveSeen)
  }

  function AfterHolder(files: Files, name: string, env: Env): Files {
    if Stale(files, name, env) then files - {name} else files
  }

  function HolderOf(files: Files, name: string, env: Env): Option<Row> {
    if name in files && !Stale(files, name, env) then Some(files[name]) else None
  }

  predicate Blocks(current: Option<Row>, session: string, env: Env) {
    && current.Some?
    && current.value.session != session
    && (PidAlive(current.value.pid, env.aliveAgain) || !IsExpired(current.value, env.entry))
  }

  function NewRow(op: Op, current: Option<Row>, now: real): Row
    requires op.Acquire?
  {
    var since := if current.None? || current.value.acquiredAt == 0.0 then now else current.value.acquiredAt;
    Row(op.branch, op.session, op.pid, op.worktree, since, now, op.ttl, now + op.ttl as real)
  }

  function Renewed(row: Row, ttl: int, now: real): Row {
    row.(renewedAt := now, ttl := ttl, expiresAt := now + ttl as real)
  }

  predicate Owns(files: Files, name: string, session: string) {
    name in files && files[name].session == session
  }

  function Sweepable(files: Files, session: string): set<string> {
    set name | name in files && !Hidden(name) && files[name].session == session
  }

  function After(files: Files, ev: Event): Files {
    match ev.op
    case Acquire(branch, session, _, _, _) =>
      var name := Slug(branch);
      var current := HolderOf(files, name, ev.env);
      if Blocks(current, session, ev.env) then AfterHolder(files, name, ev.env)
      else AfterHolder(files, name, ev.env)[name := NewRow(ev.op, current, ev.env.entry)]
    case Renew(branch, session, ttl) =>
      var name := Slug(branch);
      var kept := AfterHolder(files, name, ev.env);
      if Owns(kept, name, session) then kept[name := Renewed(kept[name], ttl, ev.env.write)] else kept
    case Release(branch, session) =>
      var name := Slug(branch);
      var kept := AfterHolder(files, name, ev.env);
      if Owns(kept, name, session) then kept - {name} else kept
    case ReleaseAll(session) => files - Sweepable(files, session)
    case Holder(branch) => AfterHolder(files, Slug(branch), ev.env)
  }

  function Answer(files: Files, ev: Event): Reply {
    match ev.op
    case Acquire(branch, session, _, _, _) =>
      var current := HolderOf(files, Slug(branch), ev.env);
      if Blocks(current, session, ev.env) then Blocked(current.value)
      else Acquired(NewRow(ev.op, current, ev.env.entry))
    case Renew(branch, session, _) => Done(Owns(AfterHolder(files, Slug(branch), ev.env), Slug(branch), session))
    case Release(branch, session) => Done(Owns(AfterHolder(files, Slug(branch), ev.env), Slug(branch), session))
    case ReleaseAll(session) => Count(|Sweepable(files, session)|)
    case Holder(branch) => Held(HolderOf(files, Slug(branch), ev.env))
  }

  lemma SweepOne(was: Files, session: string, listing: set<string>, swept: set<string>, name: string)
    requires name in listing && listing <= was.Keys && swept == Sweepable(was, session) - listing
    ensures name in was - swept && (was - swept)[name] == was[name]
    ensures Sweepable(was, session) - (listing - {name})
         == if name in Sweepable(was, session) then swept + {name} else swept
    ensures (was - swept) - {name} == was - (swept + {name})
    ensures |swept + {name}| == |swept| + 1
  {
  }

  // ---- The lock directory -----------------------------------------------------------------

  class LockDirectory {
    var files: Files

    constructor ()
      ensures files == map[]
    {
      files := map[];
    }

    method Holder(branch: string, env: Env) returns (row: Option<Row>)
      modifies this
      ensures files == AfterHolder(old(files), Slug(branch), env)
      ensures row == HolderOf(old(files), Slug(branch), env)
    {
      var name := Slug(branch);
      if name !in files {
        return None;
      }
      if IsExpired(files[name], env.seen) && !PidAlive(files[name].pid, env.aliveSeen) {
        files := files - {name};
        return None;
      }
      return Some(files[name]);
    }

    method Acquire(branch: string, session: string, pid: int, worktree: string, ttl: int, env: Env)
      returns (reply: Reply)
      modifies this
      ensures var ev := Event(Op.Acquire(branch, session, pid, worktree, ttl), env);
              files == After(old(files), ev) && reply == Answer(old(files), ev)
    {
      var now := env.entry;
      var current := Holder(branch, env);
      if current.Some? && current.value.session != session {
        if PidAlive(current.value.pid, env.aliveAgain) || !IsExpired(current.value, now) {
          return Blocked(current.value);
        }
      }
      var since := if current.None? || current.value.acquiredAt == 0.0 then now else current.value.acquiredAt;
      var row := Row(branch, session, pid, worktree, since, now, ttl, now + ttl as real);
      files := files[Slug(branch) := row];
      return Acquired(row);
    }

    method Renew(branch: string, session: string, ttl: int, env: Env) returns (reply: Reply)
      modifies this
      ensures var ev := Event(Op.Renew(branch, session, ttl), env);
              files == After(old(files), ev) && reply == Answer(old(files), ev)
    {
      var row := Holder(branch, env);
      if row.None? || row.value.session != session {
        return Done(false);
      }
      var now := env.write;
      files := files[Slug(branch) := row.value.(renewedAt := now, ttl := ttl, expiresAt := now + ttl as real)];
      return Done(true);
    }

    method Release(branch: string, session: string, env: Env) returns (reply: Reply)
      modifies this
      ensures var ev := Event(Op.Release(branch, session), env);
              files == After(old(files), ev) && reply == Answer(old(files), ev)
    {
      var row := Holder(branch, env);
      if row.None? || row.value.session != session {
        return Done(false);
      }
      files := files - {Slug(branch)};
      return Done(true);
    }

    method ReleaseAll(session: string, env: Env) returns (reply: Reply)
      modifies this
      ensures var ev := Event(Op.ReleaseAll(session), env);
              files == After(old(files), ev) && reply == Answer(old(files), ev)
    {
      var count := 0;
      var listing := files.Keys;
      ghost var was, swept: set<string> := files, {};
      while listing != {}
        invariant listing <= was.Keys
        invariant swept == Sweepable(was, session) - listing
        invariant files == was - swept
        invariant count == |swept|
        decreases listing
      {
        var name :| name in listing;
        SweepOne(was, session, listing, swept, name);
        listing := listing - {name};
        if Hidden(name) {
          continue;
        }
        if files[name].session == session {
          files, count := files - {name}, count + 1;
          swept := swept + {name};
        }
      }
      return Count(count);
    }
  }

  // ---- What each operation does, field by field ----------------------------------------------

  /** A row that `holder` removes: its expiry is not after the clock and its PID names no process. */
  predicate Gone(row: Row, now: real, alive: set<int>) {
    row.expiresAt <= now && (row.pid <= 0 || row.pid !in alive)
  }

  /** `acquire`: who is refused, and the row that anyone else gets. */
  lemma AcquireWrites(files: Files, branch: string, session: string, pid: int, worktree: string, ttl: int, env: Env)
    ensures var ev := Event(Op.Acquire(branch, session, pid, worktree, ttl), env);
            var name := Slug(branch);
            var free := name !in files || Gone(files[name], env.seen, env.aliveSeen);
            if free || files[name].session == session || Gone(files[name], env.entry, env.aliveAgain) then
              var since := if free || files[name].acquiredAt == 0.0 then env.entry else files[name].acquiredAt;
              var row := Row(branch, session, pid, worktree, since, env.entry, ttl, env.entry + ttl as real);
              Answer(files, ev) == Acquired(row) && After(files, ev) == files[name := row]
            else
              Answer(files, ev) == Blocked(files[name]) && After(files, ev) == files
  {
    var name := Slug(branch);
    var row := After(files, Event(Op.Acquire(branch, session, pid, worktree, ttl), env));
    assert name in row ==> (files - {name})[name := row[name]] == files[name := row[name]];
  }

  /** `renew` extends the lease from the clock reading before the write, and touches nothing else. */
  lemma RenewExtends(files: Files, branch: string, session: string, ttl: int, env: Env)
    ensures var ev := Event(Op.Renew(branch, session, ttl), env);
            var name, after := Slug(branch), After(files, ev);
            if name in files && files[name].session == session && !Gone(files[name], env.seen, env.aliveSeen) then
              && Answer(files, ev) == Done(true)
              && after.Keys == files.Keys
              && (forall other <- files :: other != name ==> after[other] == files[other])
              && after[name].expiresAt == env.write + ttl as real
              && after[name].renewedAt == env.write && after[name].ttl == ttl
              && after[name].acquiredAt == files[name].acquiredAt
              && after[name].branch == files[name].branch && after[name].session == session
              && after[name].pid == files[name].pid && after[name].worktree == files[name].worktree
            else
              Answer(files, ev) == Done(false) && IsAfterHolder(files, name, env, after)
  {
  }

  /** The directory after `holder` has looked at one name. */
  ghost predicate IsAfterHolder(files: Files, name: string, env: Env, after: Files) {
    after == if name in files && Gone(files[name], env.seen, env.aliveSeen) then files - {name} else files
  }

  /** `holder` and `release`. */
  lemma HolderAndRelease(files: Files, branch: string, session: string, env: Env)
    ensures var ev, name := Event(Op.Holder(branch), env), Slug(branch);
            && IsAfterHolder(files, name, env, After(files, ev))
            && Answer(files, ev) == Held(if name in files && !Gone(files[name], env.seen, env.aliveSeen)
                                         then Some(files[name]) else None)
    ensures var ev, name := Event(Op.Release(branch, session), env), Slug(branch);
            if name in files && files[name].session == session && !Gone(files[name], env.seen, env.aliveSeen)
            then Answer(files, ev) == Done(true) && After(files, ev) == files - {name}
            else Answer(files, ev) == Done(false) && IsAfterHolder(files, name, env, After(files, ev))
  {
  }

  // ---- One step: who can lose a lock --------------------------------------------------------

  /** `session` itself removes its row for `name`. */
  predicate GivesUp(files: Files, ev: Event, name: string, session: string) {
    && Owns(files, name, session)
    && ((ev.op.Release? && Slug(ev.op.branch) == name && ev.op.session == session)
        || (ev.op.ReleaseAll? && ev.op.session == session && !Hidden(name)))
  }

  /** A probe that the step really makes finds the row's PID dead, and the clock reading that goes
      with that probe is past the row's expiry. Only `acquire` probes a second time. */
  predicate Lapsed(row: Row, ev: Event) {
    Gone(row, ev.env.seen, ev.env.aliveSeen) || (ev.op.Acquire? && Gone(row, ev.env.entry, ev.env.aliveAgain))
  }

  /** The clock reading of an acquisition or a renewal, and its time to live on top. */
  function LeaseEnd(ev: Event): real
    requires ev.op.Acquire? || ev.op.Renew?
  {
    (if ev.op.Acquire? then ev.env.entry else ev.env.write) + ev.op.ttl as real
  }

  /** `ev` writes a row for `name` on behalf of `session`. */
  predicate Writes(files: Files, ev: Event, name: string, session: string) {
    && (ev.op.Acquire? || ev.op.Renew?)
    && Slug(ev.op.branch) == name && ev.op.session == session
    && (Answer(files, ev).Acquired? || Answer(files, ev) == Done(true))
  }

  predicate Acquires(files: Files, ev: Event, name: string, session: string) {
    ev.op.Acquire? && Writes(files, ev, name, session)
  }

  /** Whether a session gets a lock held by another: the exact condition, both directions. */
  lemma AcquireExactly(files: Files, ev: Event)
    requires ev.env.Valid() && ev.op.Acquire?
    ensures var name := Slug(ev.op.branch);
            Acquires(files, ev, name, ev.op.session) <==>
            || name !in files
            || files[name].session == ev.op.session
            || Lapsed(files[name], ev)
    ensures var name := Slug(ev.op.branch);
            Acquires(files, ev, name, ev.op.session) ==>
            && Owns(After(files, ev), name, ev.op.session)
            && After(files, ev)[name].pid == ev.op.pid
            && After(files, ev)[name].expiresAt == LeaseEnd(ev)
    ensures forall other :: other in files && other != Slug(ev.op.branch) ==>
              other in After(files, ev) && After(files, ev)[other] == files[other]
  {
  }

  /** In one step an owner keeps its row untouched or rewrites it; if it loses the lock, it gave it
      up or its row has lapsed. */
  lemma OwnerStep(files: Files, ev: Event, name: string, session: string)
    requires ev.env.Valid()
    requires Owns(files, name, session)
    ensures Owns(After(files, ev), name, session) ==>
              || After(files, ev)[name] == files[name]
              || (Writes(files, ev, name, session) && After(files, ev)[name].expiresAt == LeaseEnd(ev))
    ensures !Owns(After(files, ev), name, session) ==>
              GivesUp(files, ev, name, session) || Lapsed(files[name], ev)
    ensures GivesUp(files, ev, name, session) ==> name !in After(files, ev)
  {
  }

  // ---- Whole runs ---------------------------------------------------------------------------

  /** `states[i]` is the lock directory before `events[i]`; steps follow the order of the flock, so
      the clock read inside the flock never goes back. */
  ghost predicate IsRun(states: seq<Files>, events: seq<Event>) {
    && |states| == |events| + 1
    && (forall i :: 0 <= i < |events| ==> states[i + 1] == After(states[i], events[i]))
    && (forall i :: 0 <= i < |events| ==> events[i].env.Valid())
    && (forall i :: 0 <= i < |events| - 1 ==> events[i].env.write <= events[i + 1].env.seen)
  }

  predicate Leaves(files: Files, ev: Event, name: string, row: Row) {
    GivesUp(files, ev, name, row.session) || Lapsed(row, ev)
  }

  /** From a moment at which `session` owns the lock and wrote its row last at `w0`, up to a moment
      at which it no longer owns it: the step `k` at which it loses the lock, and its last write. */
  lemma {:induction false} OwnershipEnds(states: seq<Files>, events: seq<Event>, name: string, session: string,
                                         w0: nat, i: nat, j: nat)
    returns (w: nat, k: nat)
    requires IsRun(states, events)
    requires w0 < i <= j < |states|
    requires Writes(states[w0], events[w0], name, session)
    requires forall m :: w0 < m <= i ==> name in states[m] && states[m][name] == states[w0 + 1][name]
    requires Owns(states[i], name, session)
    requires !Owns(states[j], name, session)
    ensures w0 <= w < k < j
    ensures Writes(states[w], events[w], name, session)
    ensures Owns(states[k], name, session) && !Owns(states[k + 1], name, session)
    ensures forall m :: w < m <= k ==> name in states[m] && states[m][name] == states[w + 1][name]
    ensures Leaves(states[k], events[k], name, states[w + 1][name])
    decreases j - i
  {
    assert states[i + 1] == After(states[i], events[i]);
    OwnerStep(states[i], events[i], name, session);
    if !Owns(states[i + 1], name, session) {
      w, k := w0, i;
    } else if Writes(states[i], events[i], name, session) {
      w, k := OwnershipEnds(states, events, name, session, i, i + 1, j);
    } else {
      w, k := OwnershipEnds(states, events, name, session, w0, i + 1, j);
    }
  }

  lemma {:induction false} ClockAdvances(states: seq<Files>, events: seq<Event>, k: nat, j: nat)
    requires IsRun(states, events)
    requires k <= j < |events|
    ensures events[k].env.seen <= events[j].env.seen
    decreases j
  {
    if k < j {
      ClockAdvances(states, events, k, j - 1);
      assert events[j - 1].env.Valid() && events[j - 1].env.write <= events[j - 1 + 1].env.seen;
    }
  }

  /** Takeover safety. If A acquired a lock file at step `i` and another session B acquires it at a
      later step `j`, then A lost it at some step `k` in between (possibly `j` itself): A's session
      released it there, or that step found the PID in the last row A wrote (at step `w`) dead and
      the expiry in it passed. PIDs may come and go freely: nothing is assumed about them between steps. */
  lemma TakeoverSafety(states: seq<Files>, events: seq<Event>, name: string, a: string, b: string, i: nat, j: nat)
    returns (w: nat, k: nat)
    requires IsRun(states, events)
    requires i < j < |events| && a != b
    requires Acquires(states[i], events[i], name, a)
    requires Acquires(states[j], events[j], name, b)
    ensures i <= w < k <= j
    ensures Writes(states[w], events[w], name, a)
    ensures Owns(states[k], name, a) && !Owns(states[k + 1], name, a)
    ensures forall m :: w < m <= k ==> name in states[m] && states[m][name] == states[w + 1][name]
    ensures || GivesUp(states[k], events[k], name, a)
            || (Lapsed(states[w + 1][name], events[k]) && LeaseEnd(events[w]) <= events[j].env.seen)
  {
    assert states[i + 1] == After(states[i], events[i]);
    assert states[j + 1] == After(states[j], events[j]);
    AcquireExactly(states[i], events[i]);
    AcquireExactly(states[j], events[j]);
    w, k := OwnershipEnds(states, events, name, a, i, i + 1, j + 1);
    ClockAdvances(states, events, k, j);
  }

  /** Nothing `session` does at `ev` releases the lock, and every probe made finds its PID alive. */
  predicate Faithful(files: Files, ev: Event, name: string, session: string) {
    && !GivesUp(files, ev, name, session)
    && (Owns(files, name, session) ==>
          && files[name].pid > 0 && files[name].pid in ev.env.aliveSeen
          && (ev.op.Acquire? ==> files[name].pid in ev.env.aliveAgain))
  }

  /** A live owner keeps its lock however long ago its lease expired. */
  lemma {:induction false} LiveOwnerKeepsLock(states: seq<Files>, events: seq<Event>, name: string, a: string,
                                              i: nat, j: nat)
    requires IsRun(states, events)
    requires i < j < |states|
    requires Acquires(states[i], events[i], name, a)
    requires forall m :: i < m < |events| ==> Faithful(states[m], events[m], name, a)
    ensures Owns(states[j], name, a)
    decreases j
  {
    var m := j - 1;
    assert states[m + 1] == After(states[m], events[m]);
    AcquireExactly(states[i], events[i]);
    if i < m {
      LiveOwnerKeepsLock(states, events, name, a, i, m);
      assert Faithful(states[m], events[m], name, a);
      OwnerStep(states[m], events[m], name, a);
    }
  }

  /** What the other calls see while a live owner holds the lock. */
  lemma LiveOwnerIsRespected(states: seq<Files>, events: seq<Event>, name: string, a: string, i: nat, j: nat)
    requires IsRun(states, events)
    requires i < j < |events|
    requires Acquires(states[i], events[i], name, a)
    requires forall m :: i < m < |events| ==> Faithful(states[m], events[m], name, a)
    ensures Owns(states[j], name, a)
    ensures var row, op, reply := states[j][name], events[j].op, Answer(states[j], events[j]);
            match op
            case Acquire(branch, session, _, _, _) =>
              Slug(branch) == name && session != a ==> reply == Blocked(row) && states[j + 1] == states[j]
            case Renew(branch, session, ttl) =>
              Slug(branch) == name ==> reply == Done(session == a)
            case Release(branch, session) =>
              Slug(branch) == name ==> reply == Done(false) && states[j + 1] == states[j]
            case ReleaseAll(session) =>
              name in states[j + 1] && states[j + 1][name] == row
            case Holder(branch) =>
              Slug(branch) == name ==> reply == Held(Some(row)) && states[j + 1] == states[j]
  {
    LiveOwnerKeepsLock(states, events, name, a, i, j);
    assert Faithful(states[j], events[j], name, a);
    assert states[j + 1] == After(states[j], events[j]);
  }

  /** Leases move on: once the owner's row is stale for both of its probes, any session gets the lock. */
  lemma StaleLockIsFree(files: Files, ev: Event)
    requires ev.env.Valid() && ev.op.Acquire?
    requires var name := Slug(ev.op.branch); name in files && Gone(files[name], ev.env.seen, ev.env.aliveSeen)
    ensures Owns(After(files, ev), Slug(ev.op.branch), ev.op.session)
    ensures After(files, ev)[Slug(ev.op.branch)].acquiredAt == ev.env.entry
  {
  }

  /** When the owner dies between the two probes, the session that takes over keeps the date at which
      its predecessor acquired the lock. */
  lemma TakeoverInheritsDate(files: Files, ev: Event)
    requires ev.env.Valid() && ev.op.Acquire?
    requires var name := Slug(ev.op.branch);
             && Acquires(files, ev, name, ev.op.session) && name in files && files[name].session != ev.op.session
    requires files[Slug(ev.op.branch)].acquiredAt != 0.0
    ensures var name := Slug(ev.op.branch);
            var since := After(files, ev)[name].acquiredAt;
            since == if Gone(files[name], ev.env.seen, ev.env.aliveSeen) then ev.env.entry
                     else files[name].acquiredAt
  {
  }

  /** After `release_all_for_session` a session holds a lock exactly when its name starts with a dot,
      everyone else's rows are as they were, and the count is that of the rows gone. */
  lemma SweepIsComplete(files: Files, session: string, env: Env, name: string)
    ensures var ev := Event(Op.ReleaseAll(session), env);
            var rest := After(files, ev);
            && (name in rest <==> name in files && (files[name].session != session || (name != "" && name[0] == '.')))
            && (name in rest ==> rest[name] == files[name])
            && Answer(files, ev) == Count(|files.Keys - rest.Keys|)
  {
  }

  /** A branch whose lock survives the sweep of its own session. */
  lemma DotBranchIsHidden(files: Files, session: string, env: Env)
    ensures Slug(".wip") == ".wip" && Hidden(Slug(".wip"))
    ensures Owns(files, Slug(".wip"), session) ==>
              Owns(After(files, Event(Op.ReleaseAll(session), env)), Slug(".wip"), session)
  {
    WipIsItsSlug();
    SweepIsComplete(files, session, env, ".wip");
  }

  lemma WipIsItsSlug()
    ensures Slug(".wip") == ".wip"
  {
    var b := ".wip";
    assert AllSafe(b);
    assert !IsSpace(b[0]) && !IsSpace(b[3]);
    StripKeeps(b, IsSpace);
    DashedIsSafe(b, false);
    StripKeeps(b, c => c == '-');
  }

  // ---- Lock-file names are canonical but not injective -------------------------------------

  ghost predicate AllSafe(s: string) {
    forall i :: 0 <= i < |s| ==> Safe(s[i])
  }

  lemma {:induction false} DashedIsSafe(s: string, inRun: bool)
    ensures AllSafe(Dashed(s, inRun))
    ensures AllSafe(s) ==> Dashed(s, inRun) == s
  {
    if s != [] {
      DashedIsSafe(s[1..], false);
      DashedIsSafe(s[1..], true);
      if AllSafe(s) {
        assert Safe(s[0]);
        assert s == [s[0]] + s[1..];
      }
    }
  }

  lemma StripTrims(s: string, drop: char -> bool)
    ensures var t := Strip(s, drop); t != "" ==> !drop(t[0]) && !drop(t[|t| - 1])
    ensures AllSafe(s) ==> AllSafe(Strip(s, drop))
  {
    StripLeftKeeps(s, drop);
    StripRightKeeps(StripLeft(s, drop), drop);
  }

  /** Every lock-file name is non-empty, safe, and its own slug. */
  lemma SlugIsCanonical(branch: string)
    ensures Slug(branch) != "" && AllSafe(Slug(branch))
    ensures Slug(Slug(branch)) == Slug(branch)
  {
    var dash := (c: char) => c == '-';
    var trimmed := Strip(branch, IsSpace);
    DashedIsSafe(trimmed, false);
    StripTrims(Dashed(trimmed, false), dash);
    BareNameIsOwnSlug(Slug(branch));
  }

  lemma BareNameIsOwnSlug(s: string)
    requires s != "" && AllSafe(s) && s[0] != '-' && s[|s| - 1] != '-'
    ensures Slug(s) == s
  {
    assert Safe(s[0]) && Safe(s[|s| - 1]);
    StripKeeps(s, IsSpace);
    DashedIsSafe(s, false);
    StripKeeps(s, c => c == '-');
  }

  /** Words with something between each and the next. */
  function Spliced(words: seq<string>, between: seq<string>): string
    requires |words| == |between| + 1
  {
    if between == [] then words[0] else words[0] + between[0] + Spliced(words[1..], between[1..])
  }

  function Dashes(n: nat): seq<string> {
    seq(n, _ => "-")
  }

  /** Safe words with runs of unsafe characters between them. */
  ghost predicate WordsAndRuns(words: seq<string>, runs: seq<string>) {
    && |words| == |runs| + 1
    && (forall i :: 0 <= i < |words| ==> words[i] != "" && AllSafe(words[i]))
    && (forall i :: 0 <= i < |runs| ==> runs[i] != "" && NoneSafe(runs[i]))
  }

  ghost predicate NoneSafe(s: string) {
    forall i :: 0 <= i < |s| ==> !Safe(s[i])
  }

  lemma {:induction false} RunIsDash(run: string, rest: string, inRun: bool)
    requires NoneSafe(run)
    ensures Dashed(run + rest, inRun) == (if inRun || run == "" then "" else "-") + Dashed(rest, inRun || run != "")
  {
    if run == "" {
      assert run + rest == rest;
    } else {
      assert (run + rest)[1..] == run[1..] + rest;
      RunIsDash(run[1..], rest, true);
    }
  }

  lemma {:induction false} WordIsKept(word: string, rest: string, inRun: bool)
    requires AllSafe(word) && word != ""
    ensures Dashed(word + rest, inRun) == word + Dashed(rest, false)
  {
    assert (word + rest)[1..] == word[1..] + rest;
    if |word| == 1 {
      assert word[1..] + rest == rest;
    } else {
      WordIsKept(word[1..], rest, false);
    }
    assert word == [word[0]] + word[1..];
  }

  lemma {:induction false} DashedSplices(words: seq<string>, runs: seq<string>, inRun: bool)
    requires WordsAndRuns(words, runs)
    ensures Dashed(Spliced(words, runs), inRun) == Spliced(words, Dashes(|runs|))
  {
    if runs == [] {
      assert words[0] + "" == words[0];
      WordIsKept(words[0], "", inRun);
    } else {
      var rest := Spliced(words[1..], runs[1..]);
      assert words[0] + runs[0] + rest == words[0] + (runs[0] + rest);
      WordIsKept(words[0], runs[0] + rest, inRun);
      RunIsDash(runs[0], rest, false);
      DashedSplices(words[1..], runs[1..], true);
      assert Dashes(|runs|)[1..] == Dashes(|runs| - 1);
    }
  }

  lemma {:induction false} SplicedEnds(words: seq<string>, between: seq<string>)
    requires |words| == |between| + 1 && forall i :: 0 <= i < |words| ==> words[i] != ""
    ensures var s, last := Spliced(words, between), words[|words| - 1];
            s != "" && s[0] == words[0][0] && s[|s| - 1] == last[|last| - 1]
  {
    if between != [] {
      SplicedEnds(words[1..], between[1..]);
    }
  }

  /** A slug puts one dash for each run of unsafe characters between its words. */
  lemma SlugJoinsWords(words: seq<string>, runs: seq<string>)
    requires WordsAndRuns(words, runs)
    requires var last := words[|words| - 1]; words[0][0] != '-' && last[|last| - 1] != '-'
    ensures Slug(Spliced(words, runs)) == Spliced(words, Dashes(|runs|))
  {
    var branch, last := Spliced(words, runs), words[|words| - 1];
    assert Safe(words[0][0]) && Safe(last[|last| - 1]);
    SplicedEnds(words, runs);
    SplicedEnds(words, Dashes(|runs|));
    StripKeeps(branch, IsSpace);
    DashedSplices(words, runs, false);
    StripKeeps(Spliced(words, Dashes(|runs|)), c => c == '-');
  }

  /** A branch without a safe character is called "detached". */
  lemma NamelessIsDetached(branch: string)
    requires NoneSafe(branch)
    ensures Slug(branch) == "detached"
  {
    var trimmed := Strip(branch, IsSpace);
    StripLeftKeeps(branch, IsSpace);
    StripRightKeeps(StripLeft(branch, IsSpace), IsSpace);
    RunIsDash(trimmed, "", false);
    assert trimmed + "" == trimmed;
    DashGoes();
  }

  lemma DashGoes()
    ensures Strip("-", c => c == '-') == Strip("", c => c == '-') == ""
  {
    assert "-"[1..] == "";
  }

  /** Every kind of safe character is kept. */
  lemma SafeNameIsKept()
    ensures Slug("_aAzZ.-09") == "_aAzZ.-09"
  {
    assert AllSafe("_aAzZ.-09");
    SlugJoinsWords(["_aAzZ.-09"], []);
  }

  /** Two branches can share a lock file, so a lease on one blocks the other. */
  lemma SlugsCollide()
    ensures "a/b" != "a-b" && Slug("a/b") == "a-b" == Slug("a-b")
  {
    SlugIsCanonical("a/b");
    assert Slug("a/b") == "a-b" by {
      assert "a/b"[1..] == "/b" && "/b"[1..] == "b" && "b"[1..] == [];
      assert Dashed("/b", false) == "-b";
      assert Dashed("a/b", false) == "a-b";
    }
  }
}
