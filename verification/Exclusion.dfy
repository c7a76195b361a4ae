/** Host exclusion: no two live executions share a host.

    Nothing is assumed about the order of clock readings. Of the holders only workers need
    an assumption, because `heartbeat` renews a worker's lease without looking at its locks. */
module Exclusion {
  import opened Common
  import opened Rows
  import opened Protocol
  import opened Consistency

  predicate LiveRun(s: State, run: RunId) {
    && run in s.db.runs && s.db.runs[run].status.Active()
    && s.db.runs[run].claimedBy.Some? && s.db.runs[run].claimedBy.value in s.db.leases
    && s.db.leases[s.db.runs[run].claimedBy.value].expires > s.clock
  }

  predicate LiveShell(s: State, x: SessionId) {
    x in s.db.sessions && x in s.acked && s.acked[x] > s.clock
  }

  predicate Live(s: State, e: Holder) {
    match e
    case ByRun(run) => LiveRun(s, run)
    case ByShell(x) => LiveShell(s, x)
  }

  /** The hosts an execution works on. */
  function Hosts(db: Database, e: Holder): set<HostId> {
    match e
    case ByRun(run) => HostsOf(db, run)
    case ByShell(x) => if x in db.sessions then {db.sessions[x].host} else {}
  }

  /** The property the locks are for. */
  ghost predicate HostsExclusive(s: State) {
    forall e, f :: Live(s, e) && Live(s, f) && e != f ==> Hosts(s.db, e) !! Hosts(s.db, f)
  }

  /** The run `run` still holds the lock row of every one of its hosts. */
  predicate HoldsLocks(db: Database, run: RunId) {
    forall h | h in HostsOf(db, run) :: h in db.locks && db.locks[h].holder == ByRun(run)
  }

  predicate LiveRunsHold(s: State) {
    forall run | run in s.db.runs && LiveRun(s, run) :: HoldsLocks(s.db, run)
  }

  /** A session whose caller was told it is held owns its host's lock row, and lock, lease
      and report expire together. */
  predicate ShellHolds(db: Database, x: SessionId, until: Time)
    requires x in db.sessions
  {
    && db.sessions[x].host in db.locks
    && db.locks[db.sessions[x].host].holder == ByShell(x)
    && db.locks[db.sessions[x].host].owner == db.sessions[x].LockOwner()
    && db.locks[db.sessions[x].host].expires == until
    && db.sessions[x].leaseExpires == until
    && (db.sessions[x].state.ShellPending? ==> db.sessions[x].ticketExpires == until)
  }

  predicate LiveShellsHold(s: State) {
    forall x | x in s.db.sessions && LiveShell(s, x) :: ShellHolds(s.db, x, s.acked[x])
  }

  /** A shell-held lock expires when its session was last told. */
  predicate ShellLocksReported(s: State) {
    forall h | h in s.db.locks && s.db.locks[h].holder.ByShell? ::
      s.db.locks[h].holder.session in s.acked && s.acked[s.db.locks[h].holder.session] == s.db.locks[h].expires
  }

  /** What holds in every reachable state, however late the renewals. */
  predicate ShellsGuarded(s: State) {
    Consistent(s.db) && LiveShellsHold(s) && ShellLocksReported(s)
  }

  predicate Guarded(s: State) {
    ShellsGuarded(s) && LiveRunsHold(s)
  }

  lemma GuardedShells(s: State)
    requires Guarded(s)
    ensures ShellsGuarded(s)
  {
  }

  /** Each live holder owns the one lock row of every host it works on. */
  lemma GuardedIsExclusive(s: State)
    requires Guarded(s)
    ensures HostsExclusive(s)
  {
  }

  // ---------------------------------------------------------------- renewals

  /** The runs a worker's heartbeat brings back to life. */
  function RunsOf(db: Database, worker: Owner): set<RunId> {
    set r | r in db.runs && Owns(db, worker, r)
  }

  /** Every active run of `worker` still holds all its lock rows. */
  predicate RenewalSafe(db: Database, worker: Owner) {
    forall r | r in RunsOf(db, worker) :: HoldsLocks(db, r)
  }

  /** The schedule a worker is meant to keep: it renews before its lease runs out, unless
      it executes nothing. */
  predicate Timely(s: State, worker: Owner, now: Time) {
    RunsOf(s.db, worker) == {} || (worker in s.db.leases && s.db.leases[worker].expires > Max(s.clock, now))
  }

  lemma TimelyIsSafe(s: State, worker: Owner, now: Time)
    requires Guarded(s) && Timely(s, worker, now)
    ensures RenewalSafe(s.db, worker)
  {
  }

  predicate Renews(step: Step) {
    step.Queue? && (step.queue.WorkerHeartbeat? || step.queue.WorkerClaim?)
  }

  /** Only workers' renewals are restricted; every other step is free. */
  predicate SafeStep(s: State, step: Step) {
    Renews(step) ==> RenewalSafe(s.db, step.queue.worker)
  }

  predicate TimelyStep(s: State, step: Step) {
    Renews(step) ==> Timely(s, step.queue.worker, step.now)
  }

  // ---------------------------------------------------------------- one step

  lemma HeartbeatGuarded(s: State, worker: Owner, busy: Option<RunId>, now: Time, expires: Time)
    requires Guarded(s) && RenewalSafe(s.db, worker) && now <= s.clock
    ensures Guarded(s.(db := HeartbeatRows(s.db, worker, busy, now, expires)))
  {
    var s' := s.(db := HeartbeatRows(s.db, worker, busy, now, expires));
    HeartbeatConsistent(s.db, worker, busy, now, expires);
    forall r | r in s'.db.runs && LiveRun(s', r) ensures HoldsLocks(s'.db, r) {
      assert HostsOf(s'.db, r) == HostsOf(s.db, r);
      if s.db.runs[r].claimedBy == Some(worker) {
        assert r in RunsOf(s.db, worker);
      } else {
        assert LiveRun(s, r);
      }
      assert HoldsLocks(s.db, r);
    }
    forall x | x in s'.db.sessions && LiveShell(s', x) ensures ShellHolds(s'.db, x, s'.acked[x]) {
      assert ShellHolds(s.db, x, s.acked[x]);
    }
  }

  lemma ClockGuarded(s: State, clock: Time)
    requires Guarded(s) && s.clock <= clock
    ensures Guarded(s.(clock := clock))
  {
  }

  /** The upsert of a claim takes only rows that no live holder, and no run of the claiming
      worker, can be relying on. */
  lemma ClaimSelectedGuarded(s: State, worker: Owner, run: RunId, now: Time, expires: Time)
    requires Guarded(s) && RenewalSafe(s.db, worker) && now <= s.clock && now < expires
    requires worker in s.db.leases && s.db.leases[worker].expires == expires
    ensures var c := ClaimSelected(s.db, worker, run, now, expires);
            c.Some? ==> Guarded(s.(db := c.value)) && RenewalSafe(c.value, worker)
  {
    var c := ClaimSelected(s.db, worker, run, now, expires);
    if c.Some? {
      var s' := s.(db := c.value);
      ClaimSelectedConsistent(s.db, worker, run, now, expires);
      assert forall r :: HostsOf(s'.db, r) == HostsOf(s.db, r);
      forall r | r in s'.db.runs && (LiveRun(s', r) || r in RunsOf(s'.db, worker)) ensures HoldsLocks(s'.db, r) {
        if r != run {
          if s.db.runs[r].claimedBy == Some(worker) {
            assert r in RunsOf(s.db, worker);
          } else {
            assert LiveRun(s, r);
          }
          assert HoldsLocks(s.db, r);
        }
      }
      forall x | x in s'.db.sessions && LiveShell(s', x) ensures ShellHolds(s'.db, x, s'.acked[x]) {
        assert ShellHolds(s.db, x, s.acked[x]);
      }
    }
  }

  lemma HeartbeatKeepsSafe(db: Database, worker: Owner, busy: Option<RunId>, now: Time, expires: Time)
    requires RenewalSafe(db, worker)
    ensures RenewalSafe(HeartbeatRows(db, worker, busy, now, expires), worker)
  {
    var db' := HeartbeatRows(db, worker, busy, now, expires);
    forall r | r in RunsOf(db', worker) ensures HoldsLocks(db', r) {
      assert r in RunsOf(db, worker) && HostsOf(db', r) == HostsOf(db, r);
    }
  }

  lemma ClaimGuarded(s: State, worker: Owner, candidate: Option<RunId>, now: Time, expires: Time)
    requires Guarded(s) && RenewalSafe(s.db, worker) && now <= s.clock && now < expires
    ensures var c := ClaimRows(s.db, worker, candidate, now, expires); c.Some? ==> Guarded(s.(db := c.value))
  {
    hide Guarded, RenewalSafe;
    var renewed := HeartbeatRows(s.db, worker, None, now, expires);
    HeartbeatGuarded(s, worker, None, now, expires);
    HeartbeatKeepsSafe(s.db, worker, None, now, expires);
    if candidate.Some? {
      ClaimSelectedGuarded(s.(db := renewed), worker, candidate.value, now, expires);
      var claimed := ClaimSelected(renewed, worker, candidate.value, now, expires);
      if claimed.Some? {
        HeartbeatGuarded(s.(db := claimed.value), worker, candidate, now, expires);
      }
    }
  }

  lemma RecoverGuarded(s: State, now: Time)
    requires Guarded(s) && now <= s.clock
    ensures Guarded(s.(db := RecoverRows(s.db, now)))
  {
    var s' := s.(db := RecoverRows(s.db, now));
    RecoverConsistent(s.db, now);
    forall r | r in s'.db.runs && LiveRun(s', r) ensures HoldsLocks(s'.db, r) {
      assert HostsOf(s'.db, r) <= HostsOf(s.db, r);
      assert LiveRun(s, r) && HoldsLocks(s.db, r);
    }
    forall x | x in s'.db.sessions && LiveShell(s', x) ensures ShellHolds(s'.db, x, s'.acked[x]) {
      assert ShellHolds(s.db, x, s.acked[x]);
    }
  }

  lemma CreateRunGuarded(s: State, run: RunId, hosts: map<TargetId, HostId>, now: Time)
    requires Guarded(s) && run !in s.db.runs && hosts.Keys !! s.db.targets.Keys
    ensures Guarded(s.(db := CreateRunRows(s.db, run, hosts, now)))
  {
    var s' := s.(db := CreateRunRows(s.db, run, hosts, now));
    RunRowsConsistent(s.db, run, hosts, now);
    forall r | r in s'.db.runs && LiveRun(s', r) ensures HoldsLocks(s'.db, r) {
      assert LiveRun(s, r) && HoldsLocks(s.db, r);
      assert HostsOf(s'.db, r) <= HostsOf(s.db, r);
    }
    forall x | x in s'.db.sessions && LiveShell(s', x) ensures ShellHolds(s'.db, x, s'.acked[x]) {
      assert ShellHolds(s.db, x, s.acked[x]);
    }
  }

  /** A step that leaves leases, locks, sessions and the hosts of each run as they are, and
      makes no run active. */
  predicate Quiet(db: Database, db': Database) {
    && db'.leases == db.leases && db'.locks == db.locks && db'.sessions == db.sessions
    && db'.runs.Keys == db.runs.Keys && db'.targets.Keys == db.targets.Keys
    && (forall t | t in db.targets ::
          db'.targets[t].run == db.targets[t].run && db'.targets[t].host == db.targets[t].host)
    && (forall r | r in db.runs :: db'.runs[r].claimedBy == db.runs[r].claimedBy &&
                                   (db'.runs[r].status.Active() ==> db.runs[r].status.Active()))
  }

  lemma QuietGuarded(s: State, db': Database)
    requires Guarded(s) && Quiet(s.db, db') && Consistent(db')
    ensures Guarded(s.(db := db'))
  {
  }

  lemma FinishGuarded(s: State, worker: Owner, run: RunId, result: RunStatus, now: Time)
    requires Guarded(s) && result.Terminal()
    ensures var c := FinishRows(s.db, worker, run, result, now); c.Some? ==> Guarded(s.(db := c.value))
  {
    var c := FinishRows(s.db, worker, run, result, now);
    if c.Some? {
      var s' := s.(db := c.value);
      FinishConsistent(s.db, worker, run, result, now);
      forall r | r in s'.db.runs && LiveRun(s', r) ensures HoldsLocks(s'.db, r) {
        assert HostsOf(s'.db, r) <= HostsOf(s.db, r);
        assert LiveRun(s, r) && HoldsLocks(s.db, r);
      }
      forall x | x in s'.db.sessions && LiveShell(s', x) ensures ShellHolds(s'.db, x, s'.acked[x]) {
        assert ShellHolds(s.db, x, s.acked[x]);
      }
    }
  }

  lemma QueueGuarded(cfg: Config, s: State, step: QueueStep, now: Time)
    requires Guarded(s) && LegalQueue(s.db, step) && now <= s.clock && cfg.Valid()
    requires step.WorkerHeartbeat? || step.WorkerClaim? ==> RenewalSafe(s.db, step.worker)
    ensures var c := QueueRows(cfg, s.db, step, now); c.Some? ==> Guarded(s.(db := c.value))
  {
    hide Guarded, RenewalSafe;
    var c := QueueRows(cfg, s.db, step, now);
    if c.Some? {
      match step
      case CreateRun(run, hosts) => CreateRunGuarded(s, run, hosts, now);
      case WorkerHeartbeat(worker, busy) => HeartbeatGuarded(s, worker, busy, now, now + cfg.workerLease);
      case WorkerClaim(worker, candidate) => ClaimGuarded(s, worker, candidate, now, now + cfg.workerLease);
      case RecoverRuns => RecoverGuarded(s, now);
      case FinishRun(worker, run, result) => FinishGuarded(s, worker, run, result, now);
      case _ => QuietStepGuarded(cfg, s, step, now);
    }
  }

  lemma QuietStepGuarded(cfg: Config, s: State, step: QueueStep, now: Time)
    requires Guarded(s) && LegalQueue(s.db, step)
    requires step.CancelRun? || step.MarkRunning? || step.FinishTarget?
    ensures var c := QueueRows(cfg, s.db, step, now); c.Some? ==> Guarded(s.(db := c.value))
  {
    var c := QueueRows(cfg, s.db, step, now);
    if c.Some? {
      QueueConsistent(cfg, s.db, step, now);
      assert Quiet(s.db, c.value);
      QuietGuarded(s, c.value);
    }
  }

  // ---------------------------------------------------------------- one step of a shell

  lemma DeleteSessionsGuarded(s: State, gone: set<SessionId>)
    requires ShellsGuarded(s)
    ensures ShellsGuarded(s.(db := DeleteSessions(s.db, gone)))
  {
    DeleteSessionsConsistent(s.db, gone);
  }

  lemma CreateShellGuarded(
    s: State, x: SessionId, host: HostId, actor: UserId, auth: SessionId, instance: Owner,
    capacity: nat, admissible: bool, now: Time, ticket: Time)
    requires ShellsGuarded(s) && now <= s.clock && x !in s.db.sessions
    ensures var c := CreateShellRows(s.db, x, host, actor, auth, instance, capacity, admissible, now, ticket);
            c.Some? ==> ShellsGuarded(State(c.value, s.clock, s.acked[x := ticket]))
  {
    var c := CreateShellRows(s.db, x, host, actor, auth, instance, capacity, admissible, now, ticket);
    if c.Some? {
      var clean := s.(db := CleanupRows(s.db, now));
      var s' := State(c.value, s.clock, s.acked[x := ticket]);
      DeleteSessionsGuarded(s, ExpiredSessions(s.db, now));
      CreateShellConsistent(s.db, x, host, actor, auth, instance, capacity, admissible, now, ticket);
      forall y | y in s'.db.sessions && LiveShell(s', y) ensures ShellHolds(s'.db, y, s'.acked[y]) {
        if y != x {
          assert ShellHolds(clean.db, y, clean.acked[y]);
        }
      }
    }
  }

  lemma ClaimShellGuarded(
    s: State, x: SessionId, actor: UserId, auth: SessionId, owner: Owner,
    authorized: bool, launchable: bool, now: Time, expires: Time)
    requires ShellsGuarded(s) && now <= s.clock
    ensures var c := ClaimShellRows(s.db, x, actor, auth, owner, authorized, launchable, now, expires);
            c.Some? ==> ShellsGuarded(State(c.value, s.clock, s.acked[x := expires]))
  {
    var c := ClaimShellRows(s.db, x, actor, auth, owner, authorized, launchable, now, expires);
    if c.Some? {
      var s' := State(c.value, s.clock, s.acked[x := expires]);
      ClaimShellConsistent(s.db, x, actor, auth, owner, authorized, launchable, now, expires);
      ClaimShellHolds(s.db, x, actor, auth, owner, authorized, launchable, now, expires);
      forall y | y in s'.db.sessions && LiveShell(s', y) ensures ShellHolds(s'.db, y, s'.acked[y]) {
        if y != x {
          assert ShellHolds(s.db, y, s.acked[y]);
        }
      }
    }
  }

  lemma WithinSingleton(hosts: set<HostId>, host: HostId)
    requires hosts <= {host} && hosts != {}
    ensures hosts == {host}
  {
  }

  /** A claim that returns a launch holds its host, whatever happened to the row before. */
  lemma ClaimShellHolds(
    db: Database, x: SessionId, actor: UserId, auth: SessionId, owner: Owner,
    authorized: bool, launchable: bool, now: Time, expires: Time)
    requires Consistent(db)
    ensures var c := ClaimShellRows(db, x, actor, auth, owner, authorized, launchable, now, expires);
            c.Some? ==>
              x in c.value.sessions && ShellHolds(c.value, x, expires) && c.value.sessions[x].owner == Some(owner)
  {
    if ClaimShellRows(db, x, actor, auth, owner, authorized, launchable, now, expires).Some? {
      var held := set h | h in ShellLocks(db, x) && db.locks[h].expires > now;
      OnlyShellLock(db, x);
      WithinSingleton(held, db.sessions[x].host);
    }
  }

  /** A heartbeat that gives no reason to close holds its host, with no assumption on time. */
  lemma AcknowledgedHolds(db: Database, x: SessionId, owner: Owner, authorized: bool, expires: Time)
    requires Consistent(db) && Acknowledged(db, x, owner, authorized)
    ensures var db' := ShellHeartbeatRows(db, x, owner, authorized, expires);
            x in db'.sessions && ShellHolds(db', x, expires) && db'.sessions[x].owner == Some(owner)
  {
    OnlyShellLock(db, x);
    WithinSingleton(RefreshedLocks(db, x, owner), db.sessions[x].host);
  }

  lemma ShellHeartbeatGuarded(s: State, x: SessionId, owner: Owner, authorized: bool, expires: Time)
    requires ShellsGuarded(s)
    ensures ShellsGuarded(State(
      ShellHeartbeatRows(s.db, x, owner, authorized, expires), s.clock,
      if Acknowledged(s.db, x, owner, authorized) then s.acked[x := expires] else s.acked))
  {
    var acked := if Acknowledged(s.db, x, owner, authorized) then s.acked[x := expires] else s.acked;
    var s' := State(ShellHeartbeatRows(s.db, x, owner, authorized, expires), s.clock, acked);
    ShellHeartbeatConsistent(s.db, x, owner, authorized, expires);
    forall y | y in s'.db.sessions && LiveShell(s', y) ensures ShellHolds(s'.db, y, s'.acked[y]) {
      if y == x && Acknowledged(s.db, x, owner, authorized) {
        AcknowledgedHolds(s.db, x, owner, authorized, expires);
      } else {
        assert ShellHolds(s.db, y, s.acked[y]);
        assert y == x ==> s.db.sessions[x].owner == Some(owner) ==>
          s.db.sessions[x].host in RefreshedLocks(s.db, x, owner);
      }
    }
  }

  lemma CloseShellGuarded(s: State, x: SessionId, actor: UserId)
    requires ShellsGuarded(s)
    ensures ShellsGuarded(s.(db := CloseShellRows(s.db, x, actor)))
  {
    var s' := s.(db := CloseShellRows(s.db, x, actor));
    DeleteSessionsGuarded(s, {x});
    CloseShellConsistent(s.db, x, actor);
    if x in s.db.sessions && !s.db.sessions[x].state.ShellPending? {
      forall y | y in s'.db.sessions && LiveShell(s', y) ensures ShellHolds(s'.db, y, s'.acked[y]) {
        assert ShellHolds(s.db, y, s.acked[y]);
      }
    }
  }

  lemma ShellStepGuarded(cfg: Config, s: State, step: ShellStep, now: Time)
    requires ShellsGuarded(s) && now <= s.clock && (step.CreateShell? ==> step.session !in s.db.sessions)
    ensures ShellsGuarded(Next(cfg, s, Shell(step, now)))
  {
    hide ShellsGuarded;
    match step
    case CreateShell(x, host, actor, auth, instance, admissible) =>
      CreateShellGuarded(s, x, host, actor, auth, instance, cfg.maxSessions, admissible, now, now + cfg.shellTicket);
    case ClaimShell(x, actor, auth, owner, authorized, launchable) =>
      ClaimShellGuarded(s, x, actor, auth, owner, authorized, launchable, now, now + cfg.shellLease);
    case ShellHeartbeat(x, owner, authorized) => ShellHeartbeatGuarded(s, x, owner, authorized, now + cfg.shellLease);
    case CloseShell(x, actor) => CloseShellGuarded(s, x, actor);
    case FinishShell(x, _) => DeleteSessionsGuarded(s, {x});
    case RecoverShells => DeleteSessionsGuarded(s, ExpiredSessions(s.db, now));
  }

  /** Shells leave the queue's tables, and every run-held lock that is unexpired, as they are. */
  lemma ShellKeepsRunLocks(cfg: Config, db: Database, step: ShellStep, now: Time)
    ensures var c := ShellRows(cfg, db, step, now);
      c.Some? ==>
        && c.value.runs == db.runs && c.value.targets == db.targets && c.value.leases == db.leases
        && (forall h | h in db.locks && db.locks[h].holder.ByRun? && db.locks[h].expires > now ::
              h in c.value.locks && c.value.locks[h] == db.locks[h])
  {
  }

  lemma ShellGuarded(cfg: Config, s: State, step: ShellStep, now: Time)
    requires Guarded(s) && now <= s.clock && (step.CreateShell? ==> step.session !in s.db.sessions)
    ensures Guarded(Next(cfg, s, Shell(step, now)))
  {
    ShellStepGuarded(cfg, s, step, now);
    ShellKeepsRunLocks(cfg, s.db, step, now);
    hide ShellRows;
    var s' := Next(cfg, s, Shell(step, now));
    forall r | r in s'.db.runs && LiveRun(s', r) ensures HoldsLocks(s'.db, r) {
      assert HostsOf(s'.db, r) == HostsOf(s.db, r);
      assert LiveRun(s, r) && HoldsLocks(s.db, r);
    }
  }

  lemma StepGuarded(cfg: Config, s: State, step: Step)
    requires Guarded(s) && Legal(s.db, step) && SafeStep(s, step) && cfg.Valid()
    ensures Guarded(Next(cfg, s, step))
  {
    hide Guarded, RenewalSafe;
    var s0 := s.(clock := Max(s.clock, step.now));
    ClockGuarded(s, s0.clock);
    match step
    case Queue(q, now) => QueueGuarded(cfg, s0, q, now);
    case Shell(x, now) => ShellGuarded(cfg, s0, x, now);
  }

  /** Sessions stay, no shell-held lock changes or appears, and none goes while unexpired. */
  predicate KeepsShellLocks(db: Database, db': Database, now: Time) {
    && db'.sessions == db.sessions
    && (forall h | h in db.locks && db.locks[h].holder.ByShell? && db.locks[h].expires > now ::
          h in db'.locks && db'.locks[h] == db.locks[h])
    && (forall h | h in db'.locks && db'.locks[h].holder.ByShell? :: h in db.locks && db'.locks[h] == db.locks[h])
  }

  lemma QueueKeepsShellLocks(cfg: Config, db: Database, step: QueueStep, now: Time)
    ensures var c := QueueRows(cfg, db, step, now); c.Some? ==> KeepsShellLocks(db, c.value, now)
  {
    hide HostsOf;
  }

  /** Without any assumption on renewals, every transaction keeps the shells' half of the
      invariant. */
  lemma StepShellsGuarded(cfg: Config, s: State, step: Step)
    requires ShellsGuarded(s) && Legal(s.db, step)
    ensures ShellsGuarded(Next(cfg, s, step))
  {
    var s0 := s.(clock := Max(s.clock, step.now));
    match step
    case Queue(q, now) =>
      QueueConsistent(cfg, s.db, q, now);
      QueueKeepsShellLocks(cfg, s.db, q, now);
      hide QueueRows, Consistent;
      var s' := Next(cfg, s, step);
      forall x | x in s'.db.sessions && LiveShell(s', x) ensures ShellHolds(s'.db, x, s'.acked[x]) {
        assert ShellHolds(s.db, x, s.acked[x]);
      }
    case Shell(x, now) => ShellStepGuarded(cfg, s0, x, now);
  }

  // ---------------------------------------------------------------- whole runs

  predicate SafeRun(cfg: Config, s: State, steps: seq<Step>)
    decreases |steps|
  {
    steps == [] || (SafeStep(s, steps[0]) && SafeRun(cfg, Next(cfg, s, steps[0]), steps[1..]))
  }

  predicate TimelyRun(cfg: Config, s: State, steps: seq<Step>)
    decreases |steps|
  {
    steps == [] || (TimelyStep(s, steps[0]) && TimelyRun(cfg, Next(cfg, s, steps[0]), steps[1..]))
  }

  lemma {:induction false} RunGuarded(cfg: Config, s: State, steps: seq<Step>)
    requires Guarded(s) && LegalRun(cfg, s, steps) && SafeRun(cfg, s, steps) && cfg.Valid()
    ensures Guarded(Run(cfg, s, steps))
    decreases |steps|
  {
    hide Guarded;
    if steps != [] {
      StepGuarded(cfg, s, steps[0]);
      RunGuarded(cfg, Next(cfg, s, steps[0]), steps[1..]);
    }
  }

  lemma {:induction false} RunShellsGuarded(cfg: Config, s: State, steps: seq<Step>)
    requires ShellsGuarded(s) && LegalRun(cfg, s, steps)
    ensures ShellsGuarded(Run(cfg, s, steps))
    decreases |steps|
  {
    hide ShellsGuarded;
    if steps != [] {
      StepShellsGuarded(cfg, s, steps[0]);
      RunShellsGuarded(cfg, Next(cfg, s, steps[0]), steps[1..]);
    }
  }

  lemma {:induction false} TimelyRunIsSafe(cfg: Config, s: State, steps: seq<Step>)
    requires Guarded(s) && LegalRun(cfg, s, steps) && TimelyRun(cfg, s, steps) && cfg.Valid()
    ensures SafeRun(cfg, s, steps)
    decreases |steps|
  {
    hide Guarded, RenewalSafe, Timely;
    if steps != [] {
      if Renews(steps[0]) {
        TimelyIsSafe(s, steps[0].queue.worker, steps[0].now);
      }
      StepGuarded(cfg, s, steps[0]);
      TimelyRunIsSafe(cfg, Next(cfg, s, steps[0]), steps[1..]);
    }
  }

  /** The main theorem: in every state the system can reach from an empty database, no two
      live executions share a host, provided no worker renews after losing a lock row. */
  lemma HostExclusion(cfg: Config, clock: Time, steps: seq<Step>)
    requires cfg.Valid() && LegalRun(cfg, Start(clock), steps) && SafeRun(cfg, Start(clock), steps)
    ensures HostsExclusive(Run(cfg, Start(clock), steps))
  {
    RunGuarded(cfg, Start(clock), steps);
    GuardedIsExclusive(Run(cfg, Start(clock), steps));
  }

  /** The same under the schedule the workers keep: renewing before the lease runs out. */
  lemma TimelyHostExclusion(cfg: Config, clock: Time, steps: seq<Step>)
    requires cfg.Valid() && LegalRun(cfg, Start(clock), steps) && TimelyRun(cfg, Start(clock), steps)
    ensures HostsExclusive(Run(cfg, Start(clock), steps))
  {
    TimelyRunIsSafe(cfg, Start(clock), steps);
    HostExclusion(cfg, clock, steps);
  }
}
