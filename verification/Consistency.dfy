/** What every transaction keeps, whatever the clock readings and however late a renewal
    is: locks, leases, runs, targets and sessions agree with one another. */
module Consistency {
  import opened Common
  import opened Rows
  import opened Protocol

  /** A run-held lock names an active run with a target on that host, claimed by the lock's
      owner, and expires exactly when that worker's lease does. */
  predicate RunLocksBacked(db: Database) {
    forall h | h in db.locks && db.locks[h].holder.ByRun? ::
      && Owns(db, db.locks[h].owner, db.locks[h].holder.run)
      && h in HostsOf(db, db.locks[h].holder.run)
      && db.locks[h].owner in db.leases
      && db.leases[db.locks[h].owner].expires == db.locks[h].expires
  }

  predicate ShellLocksBacked(db: Database) {
    forall h | h in db.locks && db.locks[h].holder.ByShell? ::
      && db.locks[h].holder.session in db.sessions
      && db.sessions[db.locks[h].holder.session].host == h
      && db.sessions[db.locks[h].holder.session].LockOwner() == db.locks[h].owner
  }

  predicate ActiveRunsLeased(db: Database) {
    forall r | r in db.runs && db.runs[r].status.Active() ::
      db.runs[r].claimedBy.Some? && db.runs[r].claimedBy.value in db.leases
  }

  predicate RunsWellFormed(db: Database) {
    forall r | r in db.runs ::
      && (db.runs[r].status.Queued? ==> db.runs[r].claimedBy.None?)
      && (db.runs[r].finishedAt.Some? <==> db.runs[r].status.Terminal())
  }

  /** A terminal run has no open target and a queued run has none that started. */
  predicate TargetsSettled(db: Database) {
    forall t | t in db.targets ::
      && db.targets[t].run in db.runs
      && (db.runs[db.targets[t].run].status.Terminal() ==> !db.targets[t].status.Open())
      && (db.runs[db.targets[t].run].status.Queued? ==> !db.targets[t].status.TargetRunning?)
  }

  predicate SessionsWellFormed(db: Database) {
    forall x | x in db.sessions :: db.sessions[x].state.ShellPending? <==> db.sessions[x].owner.None?
  }

  predicate Consistent(db: Database) {
    && RunLocksBacked(db) && ShellLocksBacked(db) && ActiveRunsLeased(db)
    && RunsWellFormed(db) && TargetsSettled(db) && SessionsWellFormed(db)
  }

  predicate TargetsKept(db: Database, db': Database) {
    forall t | t in db.targets ::
      t in db'.targets && db'.targets[t].run == db.targets[t].run && db'.targets[t].host == db.targets[t].host
  }

  lemma HostsKept(db: Database, db': Database)
    requires TargetsKept(db, db')
    ensures forall r :: HostsOf(db, r) <= HostsOf(db', r)
    ensures db.targets.Keys == db'.targets.Keys ==> forall r :: HostsOf(db', r) == HostsOf(db, r)
  {
  }

  lemma HeartbeatConsistent(db: Database, worker: Owner, busy: Option<RunId>, now: Time, expires: Time)
    requires Consistent(db)
    ensures Consistent(HeartbeatRows(db, worker, busy, now, expires))
  {
  }

  lemma ClaimSelectedConsistent(db: Database, worker: Owner, run: RunId, now: Time, expires: Time)
    requires Consistent(db) && worker in db.leases && db.leases[worker].expires == expires
    ensures var c := ClaimSelected(db, worker, run, now, expires); c.Some? ==> Consistent(c.value)
  {
  }

  lemma ClaimConsistent(db: Database, worker: Owner, candidate: Option<RunId>, now: Time, expires: Time)
    requires Consistent(db)
    ensures var c := ClaimRows(db, worker, candidate, now, expires); c.Some? ==> Consistent(c.value)
  {
    var renewed := HeartbeatRows(db, worker, None, now, expires);
    HeartbeatConsistent(db, worker, None, now, expires);
    if candidate.Some? {
      ClaimSelectedConsistent(renewed, worker, candidate.value, now, expires);
      var claimed := ClaimSelected(renewed, worker, candidate.value, now, expires);
      if claimed.Some? {
        HeartbeatConsistent(claimed.value, worker, candidate, now, expires);
      }
    }
  }

  lemma RecoverConsistent(db: Database, now: Time)
    requires Consistent(db)
    ensures Consistent(RecoverRows(db, now))
  {
    HostsKept(db, RecoverRows(db, now));
  }

  lemma DeleteSessionsConsistent(db: Database, gone: set<SessionId>)
    requires Consistent(db)
    ensures Consistent(DeleteSessions(db, gone))
  {
  }

  lemma RunRowsConsistent(db: Database, run: RunId, hosts: map<TargetId, HostId>, now: Time)
    requires Consistent(db) && run !in db.runs && hosts.Keys !! db.targets.Keys
    ensures Consistent(CreateRunRows(db, run, hosts, now))
  {
  }

  lemma CancelConsistent(db: Database, run: RunId, now: Time)
    requires Consistent(db)
    ensures var c := CancelRows(db, run, now); c.Some? ==> Consistent(c.value)
  {
    hide HostsOf;
    var c := CancelRows(db, run, now);
    if c.Some? {
      HostsKept(db, c.value);
    }
  }

  lemma MarkRunningConsistent(db: Database, run: RunId)
    requires Consistent(db) && run in db.runs && db.runs[run].claimedBy.Some?
    ensures Consistent(MarkRunningRows(db, run))
  {
    HostsKept(db, MarkRunningRows(db, run));
  }

  lemma FinishTargetConsistent(db: Database, target: TargetId, outcome: TargetStatus, now: Time)
    requires Consistent(db) && !outcome.Open()
    ensures Consistent(FinishTargetRows(db, target, outcome, now))
  {
    HostsKept(db, FinishTargetRows(db, target, outcome, now));
  }

  lemma FinishConsistent(db: Database, worker: Owner, run: RunId, result: RunStatus, now: Time)
    requires Consistent(db) && result.Terminal()
    ensures var c := FinishRows(db, worker, run, result, now); c.Some? ==> Consistent(c.value)
  {
    HostsKept(db, FinishStatements(db, worker, run, result, now));
  }

  lemma CreateShellConsistent(
    db: Database, x: SessionId, host: HostId, actor: UserId, auth: SessionId, instance: Owner,
    capacity: nat, admissible: bool, now: Time, ticket: Time)
    requires Consistent(db) && x !in db.sessions
    ensures var c := CreateShellRows(db, x, host, actor, auth, instance, capacity, admissible, now, ticket);
            c.Some? ==> Consistent(c.value)
  {
  }

  lemma ClaimShellConsistent(
    db: Database, x: SessionId, actor: UserId, auth: SessionId, owner: Owner,
    authorized: bool, launchable: bool, now: Time, expires: Time)
    requires Consistent(db)
    ensures var c := ClaimShellRows(db, x, actor, auth, owner, authorized, launchable, now, expires);
            c.Some? ==> Consistent(c.value)
  {
    var held := set h | h in ShellLocks(db, x) && db.locks[h].expires > now;
    if |held| == 1 && x in db.sessions {
      OnlyShellLock(db, x);
      assert held != {};
    }
  }

  /** A session holds no lock row but that of its own host. */
  lemma OnlyShellLock(db: Database, x: SessionId)
    requires ShellLocksBacked(db) && x in db.sessions
    ensures ShellLocks(db, x) <= {db.sessions[x].host}
  {
    forall h | h in ShellLocks(db, x) ensures h == db.sessions[x].host {
      assert db.locks[h].holder.ByShell?;
    }
  }

  lemma ShellHeartbeatConsistent(db: Database, x: SessionId, owner: Owner, authorized: bool, expires: Time)
    requires Consistent(db)
    ensures Consistent(ShellHeartbeatRows(db, x, owner, authorized, expires))
  {
  }

  lemma CloseShellConsistent(db: Database, x: SessionId, actor: UserId)
    requires Consistent(db)
    ensures Consistent(CloseShellRows(db, x, actor))
  {
    DeleteSessionsConsistent(db, {x});
  }

  lemma QueueConsistent(cfg: Config, db: Database, step: QueueStep, now: Time)
    requires Consistent(db) && LegalQueue(db, step)
    ensures var c := QueueRows(cfg, db, step, now); c.Some? ==> Consistent(c.value)
  {
    hide Consistent;
    match step
    case CreateRun(run, hosts) => RunRowsConsistent(db, run, hosts, now);
    case CancelRun(run) => CancelConsistent(db, run, now);
    case WorkerHeartbeat(worker, busy) => HeartbeatConsistent(db, worker, busy, now, now + cfg.workerLease);
    case WorkerClaim(worker, candidate) => ClaimConsistent(db, worker, candidate, now, now + cfg.workerLease);
    case RecoverRuns => RecoverConsistent(db, now);
    case MarkRunning(_, run) => MarkRunningConsistent(db, run);
    case FinishTarget(target, outcome) => FinishTargetConsistent(db, target, outcome, now);
    case FinishRun(worker, run, result) => FinishConsistent(db, worker, run, result, now);
  }

  lemma ShellConsistent(cfg: Config, db: Database, step: ShellStep, now: Time)
    requires Consistent(db) && (step.CreateShell? ==> step.session !in db.sessions)
    ensures var c := ShellRows(cfg, db, step, now); c.Some? ==> Consistent(c.value)
  {
    hide Consistent;
    match step
    case CreateShell(x, host, actor, auth, instance, admissible) =>
      var ticket := now + cfg.shellTicket;
      CreateShellConsistent(db, x, host, actor, auth, instance, cfg.maxSessions, admissible, now, ticket);
    case ClaimShell(x, actor, auth, owner, authorized, launchable) =>
      ClaimShellConsistent(db, x, actor, auth, owner, authorized, launchable, now, now + cfg.shellLease);
    case ShellHeartbeat(x, owner, authorized) =>
      ShellHeartbeatConsistent(db, x, owner, authorized, now + cfg.shellLease);
    case CloseShell(x, actor) => CloseShellConsistent(db, x, actor);
    case FinishShell(x, _) => DeleteSessionsConsistent(db, {x});
    case RecoverShells => DeleteSessionsConsistent(db, ExpiredSessions(db, now));
  }

  lemma StepConsistent(cfg: Config, s: State, step: Step)
    requires Consistent(s.db) && Legal(s.db, step)
    ensures Consistent(Next(cfg, s, step).db)
  {
    match step
    case Queue(q, now) => QueueConsistent(cfg, s.db, q, now);
    case Shell(x, now) => ShellConsistent(cfg, s.db, x, now);
  }

  lemma {:induction false} RunConsistent(cfg: Config, s: State, steps: seq<Step>)
    requires Consistent(s.db) && LegalRun(cfg, s, steps)
    ensures Consistent(Run(cfg, s, steps).db)
    decreases |steps|
  {
    if steps != [] {
      StepConsistent(cfg, s, steps[0]);
      RunConsistent(cfg, Next(cfg, s, steps[0]), steps[1..]);
    }
  }
}
