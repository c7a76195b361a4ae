/** Taking over a host that nobody holds, and so the exact condition for exclusion to last: a
    live execution that does not hold its lock rows has already lost its hosts to whoever asks
    next. */
module Takeover {
  import opened Common
  import opened Rows
  import opened Protocol
  import opened Consistency
  import opened Exclusion
  import opened LeaseExclusion
  import Lifecycle

  // ---------------------------------------------------------------- a fresh run takes a host

  lemma {:induction false} FreshNumber(used: set<int>) returns (x: int)
    ensures forall y | y in used :: y < x
    decreases used
  {
    x := 0;
    if used != {} {
      var y := Pick(used);
      var most := FreshNumber(used - {y});
      x := Max(most, y + 1);
      assert forall z | z in used :: z == y || z in used - {y};
    }
  }

  lemma {:induction false} FreshOwner(used: set<Owner>) returns (w: Owner)
    ensures forall y | y in used :: |y| < |w|
    decreases used
  {
    w := "";
    if used != {} {
      var y := Pick(used);
      w := FreshOwner(used - {y});
      w := w + y + "w";
    }
  }

  lemma ClaimOneHost(db: Database, worker: Owner, run: RunId, host: HostId, now: Time, expires: Time)
    requires run in db.runs && db.runs[run].status.Queued? && HostsOf(db, run) == {host} &&
      Lockable(db.locks, host, now)
    ensures ClaimSelected(db, worker, run, now, expires) ==
            Some(MarkClaimed(db, worker, run, now).(
              locks := db.locks[host := LockRow(ByRun(run), worker, now, expires)]))
  {
    var marked := MarkClaimed(db, worker, run, now);
    HostsKept(db, marked);
    hide HostsOf;
    assert UpsertRunLocks(marked, worker, run, now, expires).locks ==
      db.locks[host := LockRow(ByRun(run), worker, now, expires)];
  }

  /** A run nobody has heard of, on one host. */
  function RunOn(q: RunId, t: TargetId, h: HostId): QueueStep {
    CreateRun(q, map[t := h])
  }

  lemma CreatedHosts(db: Database, q: RunId, t: TargetId, h: HostId, now: Time)
    requires Consistent(db) && q !in db.runs && t !in db.targets
    ensures var db' := CreateRunRows(db, q, map[t := h], now);
      HostsOf(db', q) == {h} && forall r | r in db.runs :: HostsOf(db', r) == HostsOf(db, r)
  {
    var db' := CreateRunRows(db, q, map[t := h], now);
    assert db'.targets[t] == TargetRow(q, h, TargetPending, None);
    assert forall u | u in db.targets :: u in db'.targets && db'.targets[u] == db.targets[u] && db.targets[u].run != q;
  }

  /** A worker without a lease holds nothing, so its claim renews nothing. */
  lemma NewcomerClaims(db: Database, w: Owner, q: RunId, h: HostId, now: Time, expires: Time)
    requires Consistent(db) && w !in db.leases && q in db.runs && db.runs[q].status.Queued?
    requires HostsOf(db, q) == {h} && Lockable(db.locks, h, now)
    ensures ClaimRows(db, w, Some(q), now, expires) ==
            Some(MarkClaimed(db, w, q, now).(
              leases := db.leases[w := LeaseRow(Some(q), now, expires)],
              locks := db.locks[h := LockRow(ByRun(q), w, now, expires)]))
  {
    var renewed := HeartbeatRows(db, w, None, now, expires);
    assert forall l | l in db.locks && db.locks[l].holder.ByRun? :: db.locks[l].owner != w;
    assert renewed.locks == db.locks;
    HostsKept(db, renewed);
    ClaimOneHost(renewed, w, q, h, now, expires);
    hide HostsOf, ClaimSelected;
    var claimed := ClaimSelected(renewed, w, q, now, expires).value;
    assert RenewRunLocks(claimed.locks, w, expires) == claimed.locks;
    var lease := LeaseRow(Some(q), now, expires);
    assert claimed.leases[w := lease] == db.leases[w := lease];
  }

  lemma NewcomerIsIdle(db: Database, w: Owner)
    requires Consistent(db) && w !in db.leases
    ensures RunsOf(db, w) == {}
  {
  }

  /** What a takeover of `h` by the fresh run `q` leaves: every live run and every session as it
      was, and `q` live on the host. */
  predicate TakenBy(s: State, s': State, q: RunId, h: HostId) {
    && q !in s.db.runs && LiveRun(s', q) && h in HostsOf(s'.db, q)
    && s'.clock == s.clock && s'.acked == s.acked && s'.db.sessions == s.db.sessions
    && (forall r | r in s.db.runs && LiveRun(s, r) :: LiveRun(s', r) && HostsOf(s'.db, r) == HostsOf(s.db, r))
  }

  /** A schedule with nothing wrong in it: legal, safe, workers and shells timely. */
  ghost predicate Sound(cfg: Config, s: State, steps: seq<Step>) {
    LegalRun(cfg, s, steps) && SafeRun(cfg, s, steps) && TimelyRun(cfg, s, steps) && ShellsTimely(cfg, s, steps)
  }

  lemma TwoSteps(cfg: Config, s: State, a: Step, b: Step)
    ensures var s1 := Next(cfg, s, a);
      && Run(cfg, s, [a, b]) == Next(cfg, s1, b)
      && (Sound(cfg, s, [a, b]) <==>
            && Legal(s.db, a) && SafeStep(s, a) && TimelyStep(s, a) && ShellTimely(s, a)
            && Legal(s1.db, b) && SafeStep(s1, b) && TimelyStep(s1, b) && ShellTimely(s1, b))
  {
    hide Next, Legal, SafeStep, TimelyStep, ShellTimely;
    var s1 := Next(cfg, s, a);
    assert [a, b][1..] == [b] && [b][1..] == [];
    assert Run(cfg, s1, [b]) == Run(cfg, Next(cfg, s1, b), []);
    assert LegalRun(cfg, s1, [b]) == Legal(s1.db, b);
    assert SafeRun(cfg, s1, [b]) == SafeStep(s1, b);
    assert TimelyRun(cfg, s1, [b]) == TimelyStep(s1, b);
    assert ShellsTimely(cfg, s1, [b]) == ShellTimely(s1, b);
  }

  /** A host nobody holds can be taken at once. */
  lemma TakeHost(cfg: Config, s: State, h: HostId) returns (steps: seq<Step>, q: RunId)
    requires cfg.Valid() && Consistent(s.db) && Lockable(s.db.locks, h, s.clock)
    ensures Sound(cfg, s, steps) && TakenBy(s, Run(cfg, s, steps), q, h)
  {
    hide Consistent, HostsOf, ClaimRows, CreateRunRows;
    q := FreshNumber(s.db.runs.Keys);
    var t := FreshNumber(s.db.targets.Keys);
    var w := FreshOwner(s.db.leases.Keys);
    var now, expires := s.clock, s.clock + cfg.workerLease;
    var create, claim := Queue(RunOn(q, t, h), now), Queue(WorkerClaim(w, Some(q)), now);
    steps := [create, claim];
    var s1 := Next(cfg, s, create);
    CreatedRows(s.db, q, t, h, now);
    NewcomerIsIdle(s1.db, w);
    NewcomerClaims(s1.db, w, q, h, now, expires);
    TwoSteps(cfg, s, create, claim);
    var s2 := Next(cfg, s1, claim);
    assert s2.db.targets == s1.db.targets;
    SameTargetsHosts(s1.db, s2.db);
  }

  lemma CreatedRows(db: Database, q: RunId, t: TargetId, h: HostId, now: Time)
    requires Consistent(db) && q !in db.runs && t !in db.targets
    ensures var db' := CreateRunRows(db, q, map[t := h], now);
      && Consistent(db') && db'.leases == db.leases && db'.locks == db.locks && db'.sessions == db.sessions
      && q in db'.runs && db'.runs[q].status.Queued?
      && (forall r | r in db.runs :: r in db'.runs && db'.runs[r] == db.runs[r])
      && HostsOf(db', q) == {h} && (forall r | r in db.runs :: HostsOf(db', r) == HostsOf(db, r))
  {
    RunRowsConsistent(db, q, map[t := h], now);
    CreatedHosts(db, q, t, h, now);
  }

  lemma SameTargetsHosts(db: Database, db': Database)
    requires db'.targets == db.targets
    ensures forall r :: HostsOf(db', r) == HostsOf(db, r)
  {
  }
}
