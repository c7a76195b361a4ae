/** Ownership of a host by Web Shell sessions: what a reported lease guarantees with no
    assumption on time, and exclusion by the leases as the rows record them. */
module LeaseExclusion {
  import opened Common
  import opened Rows
  import opened Protocol
  import opened Consistency
  import opened Exclusion
  import Lifecycle

  /** Whenever a request, a claim or a heartbeat reports a lease to its caller, the host's lock
      row names that session and its owner and expires exactly when the session's lease does,
      in every reachable state and whatever takeovers came before. */
  lemma ReportedOwnership(cfg: Config, clock: Time, steps: seq<Step>, step: ShellStep, now: Time)
    requires LegalRun(cfg, Start(clock), steps)
    requires var s := Run(cfg, Start(clock), steps); Legal(s.db, Shell(step, now)) && Report(cfg, s.db, step, now).Some?
    ensures var s := Run(cfg, Start(clock), steps);
      var s' := Next(cfg, s, Shell(step, now));
      && step.session in s'.db.sessions
      && ShellHolds(s'.db, step.session, Report(cfg, s.db, step, now).value)
      && (step.ClaimShell? || step.ShellHeartbeat? ==> s'.db.sessions[step.session].owner == Some(step.owner))
  {
    RunConsistent(cfg, Start(clock), steps);
    ReportHolds(cfg, Run(cfg, Start(clock), steps).db, step, now);
  }

  lemma ReportHolds(cfg: Config, db: Database, step: ShellStep, now: Time)
    requires Consistent(db) && Report(cfg, db, step, now).Some?
    ensures var c := ShellRows(cfg, db, step, now);
      && c.Some? && step.session in c.value.sessions
      && ShellHolds(c.value, step.session, Report(cfg, db, step, now).value)
      && (step.ClaimShell? || step.ShellHeartbeat? ==> c.value.sessions[step.session].owner == Some(step.owner))
  {
    hide Consistent;
    match step
    case CreateShell(_, _, _, _, _, _) =>
    case ClaimShell(x, actor, auth, owner, authorized, launchable) =>
      ClaimShellHolds(db, x, actor, auth, owner, authorized, launchable, now, now + cfg.shellLease);
    case ShellHeartbeat(x, owner, authorized) =>
      AcknowledgedHolds(db, x, owner, authorized, now + cfg.shellLease);
  }

  /** A heartbeat moves the session lease whether or not the lock is still there: the moved
      lease is backed by the lock exactly when the caller is told so. */
  lemma LeaseBackedIff(db: Database, x: SessionId, owner: Owner, authorized: bool, expires: Time)
    requires Consistent(db) && Refreshes(db, x, owner, authorized)
    ensures var db' := ShellHeartbeatRows(db, x, owner, authorized, expires);
      && db'.sessions[x].leaseExpires == expires
      && (ShellHolds(db', x, expires) <==> Acknowledged(db, x, owner, authorized))
  {
    if Acknowledged(db, x, owner, authorized) {
      AcknowledgedHolds(db, x, owner, authorized, expires);
    } else {
      var h := db.sessions[x].host;
      assert h !in RefreshedLocks(db, x, owner);
    }
  }

  // ---------------------------------------------------------------- exclusion by recorded leases

  predicate LeaseLive(s: State, e: Holder) {
    match e
    case ByRun(run) => LiveRun(s, run)
    case ByShell(x) => x in s.db.sessions && s.db.sessions[x].leaseExpires > s.clock
  }

  ghost predicate LeasesExclusive(s: State) {
    forall e, f :: LeaseLive(s, e) && LeaseLive(s, f) && e != f ==> Hosts(s.db, e) !! Hosts(s.db, f)
  }

  /** An unexpired lock row has a live holder working on that host. */
  lemma LockHolderLive(s: State, h: HostId)
    requires ShellsGuarded(s) && h in s.db.locks && s.db.locks[h].expires > s.clock
    ensures var e := s.db.locks[h].holder; Live(s, e) && LeaseLive(s, e) && h in Hosts(s.db, e)
  {
  }

  /** Every recorded lease that is live is the one last reported. */
  predicate LeasesReported(s: State) {
    forall x | x in s.db.sessions && s.db.sessions[x].leaseExpires > s.clock ::
      x in s.acked && s.acked[x] == s.db.sessions[x].leaseExpires
  }

  /** A shell heartbeats only while its lease is unexpired. */
  predicate ShellTimely(s: State, step: Step) {
    step.Shell? && step.shell.ShellHeartbeat? && step.shell.session in s.db.sessions ==>
      s.db.sessions[step.shell.session].leaseExpires > Max(s.clock, step.now)
  }

  lemma TimelyAcknowledged(s: State, x: SessionId, owner: Owner, authorized: bool)
    requires Guarded(s) && LeasesReported(s) && Refreshes(s.db, x, owner, authorized)
    requires s.db.sessions[x].leaseExpires > s.clock
    ensures Acknowledged(s.db, x, owner, authorized)
  {
    assert LiveShell(s, x) && ShellHolds(s.db, x, s.acked[x]);
    assert s.db.sessions[x].host in RefreshedLocks(s.db, x, owner);
  }

  lemma ShellLeasesReported(cfg: Config, s: State, step: ShellStep, now: Time)
    requires Guarded(s) && LeasesReported(s) && ShellTimely(s, Shell(step, now))
    ensures LeasesReported(Next(cfg, s, Shell(step, now)))
  {
    hide Guarded, ShellLocks, RefreshedLocks;
    if step.ShellHeartbeat? && Refreshes(s.db, step.session, step.owner, step.authorized) {
      TimelyAcknowledged(s, step.session, step.owner, step.authorized);
    }
  }

  lemma StepLeasesReported(cfg: Config, s: State, step: Step)
    requires Guarded(s) && LeasesReported(s) && ShellTimely(s, step)
    ensures LeasesReported(Next(cfg, s, step))
  {
    match step
    case Queue(q, now) => Lifecycle.QueueKeepsSessions(cfg, s.db, q, now);
    case Shell(x, now) => ShellLeasesReported(cfg, s, x, now);
  }

  predicate ShellsTimely(cfg: Config, s: State, steps: seq<Step>)
    decreases |steps|
  {
    steps == [] || (ShellTimely(s, steps[0]) && ShellsTimely(cfg, Next(cfg, s, steps[0]), steps[1..]))
  }

  lemma {:induction false} RunLeasesReported(cfg: Config, s: State, steps: seq<Step>)
    requires Guarded(s) && LeasesReported(s) && cfg.Valid()
    requires LegalRun(cfg, s, steps) && TimelyRun(cfg, s, steps) && ShellsTimely(cfg, s, steps)
    ensures Guarded(Run(cfg, s, steps)) && LeasesReported(Run(cfg, s, steps))
    decreases |steps|
  {
    hide Guarded, LeasesReported, RenewalSafe, Timely;
    if steps != [] {
      if Renews(steps[0]) {
        TimelyIsSafe(s, steps[0].queue.worker, steps[0].now);
      }
      StepGuarded(cfg, s, steps[0]);
      StepLeasesReported(cfg, s, steps[0]);
      RunLeasesReported(cfg, Next(cfg, s, steps[0]), steps[1..]);
    }
  }

  /** If workers and shells renew only while their own lease is unexpired, no reachable state
      has two executions with live recorded leases on one host. */
  lemma LeaseHostExclusion(cfg: Config, clock: Time, steps: seq<Step>)
    requires cfg.Valid() && LegalRun(cfg, Start(clock), steps)
    requires TimelyRun(cfg, Start(clock), steps) && ShellsTimely(cfg, Start(clock), steps)
    ensures LeasesExclusive(Run(cfg, Start(clock), steps))
  {
    RunLeasesReported(cfg, Start(clock), steps);
    ReportedIsExclusive(Run(cfg, Start(clock), steps));
  }

  lemma ReportedIsExclusive(s: State)
    requires Guarded(s) && LeasesReported(s)
    ensures LeasesExclusive(s)
  {
    GuardedIsExclusive(s);
    forall e | LeaseLive(s, e) ensures Live(s, e) {
    }
  }
}
