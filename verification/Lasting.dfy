/** Exactly when exclusion lasts: not whether one step keeps it, but whether every sound
    continuation does. */
module Lasting {
  import opened Common
  import opened Rows
  import opened Protocol
  import opened Consistency
  import opened Exclusion
  import opened LeaseExclusion
  import opened Takeover
  import Lifecycle

  /** No legal continuation in which workers renew only what they hold leads two live executions
      to one host. */
  ghost predicate StaysExclusive(cfg: Config, s: State) {
    forall steps | LegalRun(cfg, s, steps) && SafeRun(cfg, s, steps) :: HostsExclusive(Run(cfg, s, steps))
  }

  /** The same for recorded leases, when workers and shells renew in time. */
  ghost predicate LeasesStayExclusive(cfg: Config, s: State) {
    forall steps | LegalRun(cfg, s, steps) && TimelyRun(cfg, s, steps) && ShellsTimely(cfg, s, steps) ::
      LeasesExclusive(Run(cfg, s, steps))
  }

  // ---------------------------------------------------------------- an unheld host is lost

  predicate HoldsHost(s: State, e: Holder, h: HostId) {
    h in s.db.locks && s.db.locks[h].holder == e && s.db.locks[h].expires > s.clock
  }

  /** A live execution that does not hold a host of its own shares it now, or after a sound
      continuation in which a newcomer takes the host. */
  lemma UnheldIsShared(cfg: Config, s: State, e: Holder, h: HostId) returns (steps: seq<Step>)
    requires cfg.Valid() && ShellsGuarded(s) && h in Hosts(s.db, e) && !HoldsHost(s, e, h) && LeaseLive(s, e)
    ensures Sound(cfg, s, steps)
    ensures !LeasesExclusive(Run(cfg, s, steps)) && (Live(s, e) ==> !HostsExclusive(Run(cfg, s, steps)))
  {
    hide ShellsGuarded, Run;
    if h in s.db.locks && s.db.locks[h].expires > s.clock {
      steps := [];
      LockHolderLive(s, h);
      RunNothing(cfg, s);
    } else {
      var q;
      assert Consistent(s.db) by { GuardedConsistent(s); }
      steps, q := TakeHost(cfg, s, h);
      StillThere(s, Run(cfg, s, steps), q, h, e);
    }
  }

  lemma GuardedConsistent(s: State)
    requires ShellsGuarded(s)
    ensures Consistent(s.db)
  {
  }

  lemma RunNothing(cfg: Config, s: State)
    ensures Run(cfg, s, []) == s
  {
  }

  lemma StillThere(s: State, s': State, q: RunId, h: HostId, e: Holder)
    requires TakenBy(s, s', q, h) && LeaseLive(s, e) && h in Hosts(s.db, e)
    ensures e != ByRun(q) && LeaseLive(s', e) && h in Hosts(s'.db, e) && (Live(s, e) ==> Live(s', e))
    ensures LeaseLive(s', ByRun(q)) && Live(s', ByRun(q)) && h in Hosts(s'.db, ByRun(q))
  {
  }

  // ---------------------------------------------------------------- exclusion lasts

  /** Exclusion lasts exactly when every live run holds the lock row of each of its hosts. */
  lemma LastsIff(cfg: Config, s: State)
    requires cfg.Valid() && ShellsGuarded(s)
    ensures StaysExclusive(cfg, s) <==> LiveRunsHold(s)
  {
    if LiveRunsHold(s) {
      forall steps | LegalRun(cfg, s, steps) && SafeRun(cfg, s, steps) ensures HostsExclusive(Run(cfg, s, steps)) {
        RunGuarded(cfg, s, steps);
        GuardedIsExclusive(Run(cfg, s, steps));
      }
    } else {
      var r :| r in s.db.runs && LiveRun(s, r) && !HoldsLocks(s.db, r);
      var h :| h in HostsOf(s.db, r) && !(h in s.db.locks && s.db.locks[h].holder == ByRun(r));
      var steps := UnheldIsShared(cfg, s, ByRun(r), h);
    }
  }

  /** Exclusion by recorded leases lasts exactly when, besides, every live recorded lease of a
      session is one its caller was told of, which is to say that its lock row backs it. */
  lemma LeasesLastIff(cfg: Config, s: State)
    requires cfg.Valid() && ShellsGuarded(s)
    ensures LeasesStayExclusive(cfg, s) <==> LiveRunsHold(s) && LeasesReported(s)
  {
    if LiveRunsHold(s) && LeasesReported(s) {
      forall steps | LegalRun(cfg, s, steps) && TimelyRun(cfg, s, steps) && ShellsTimely(cfg, s, steps)
        ensures LeasesExclusive(Run(cfg, s, steps))
      {
        RunLeasesReported(cfg, s, steps);
        ReportedIsExclusive(Run(cfg, s, steps));
      }
    } else if !LiveRunsHold(s) {
      var r :| r in s.db.runs && LiveRun(s, r) && !HoldsLocks(s.db, r);
      var h :| h in HostsOf(s.db, r) && !(h in s.db.locks && s.db.locks[h].holder == ByRun(r));
      var steps := UnheldIsShared(cfg, s, ByRun(r), h);
    } else {
      var x :| x in s.db.sessions && s.db.sessions[x].leaseExpires > s.clock &&
        !(x in s.acked && s.acked[x] == s.db.sessions[x].leaseExpires);
      BackedIffReported(s, x);
      var steps := UnheldIsShared(cfg, s, ByShell(x), s.db.sessions[x].host);
    }
  }

  /** A live recorded lease is a reported one exactly when the host's lock row backs it. */
  lemma BackedIffReported(s: State, x: SessionId)
    requires ShellsGuarded(s) && x in s.db.sessions && s.db.sessions[x].leaseExpires > s.clock
    ensures HoldsHost(s, ByShell(x), s.db.sessions[x].host) <==>
            x in s.acked && s.acked[x] == s.db.sessions[x].leaseExpires
  {
    assert LiveShell(s, x) ==> ShellHolds(s.db, x, s.acked[x]);
  }

  /** In every state any legal schedule can reach, with no assumption on renewals. */
  lemma ReachableLastsIff(cfg: Config, clock: Time, steps: seq<Step>)
    requires cfg.Valid() && LegalRun(cfg, Start(clock), steps)
    ensures var s := Run(cfg, Start(clock), steps);
      && (StaysExclusive(cfg, s) <==> LiveRunsHold(s))
      && (LeasesStayExclusive(cfg, s) <==> LiveRunsHold(s) && LeasesReported(s))
  {
    RunShellsGuarded(cfg, Start(clock), steps);
    LastsIff(cfg, Run(cfg, Start(clock), steps));
    LeasesLastIff(cfg, Run(cfg, Start(clock), steps));
  }

  // ---------------------------------------------------------------- what a worker must check

  lemma HeartbeatRunsHoldIff(s: State, worker: Owner, busy: Option<RunId>, now: Time, expires: Time)
    requires Guarded(s)
    ensures LiveRunsHold(s.(db := HeartbeatRows(s.db, worker, busy, now, expires))) <==>
            expires <= s.clock || RenewalSafe(s.db, worker)
  {
    var s' := s.(db := HeartbeatRows(s.db, worker, busy, now, expires));
    HostsKept(s.db, s'.db);
    forall r | r in s.db.runs ensures HoldsLocks(s'.db, r) <==> HoldsLocks(s.db, r) {
    }
    forall r | r in s.db.runs
      ensures LiveRun(s', r) <==> if r in RunsOf(s.db, worker) then expires > s.clock else LiveRun(s, r)
    {
    }
  }

  /** A heartbeat leaves exclusion lasting exactly when its new lease is over already or every
      active run of the worker still holds all its lock rows. */
  lemma HeartbeatLastsIff(cfg: Config, s: State, worker: Owner, busy: Option<RunId>, now: Time)
    requires cfg.Valid() && Guarded(s)
    ensures var s' := Next(cfg, s, Queue(WorkerHeartbeat(worker, busy), now));
      StaysExclusive(cfg, s') <==> now + cfg.workerLease <= s'.clock || RenewalSafe(s.db, worker)
  {
    hide Guarded, ShellsGuarded, RenewalSafe, LiveRunsHold, StaysExclusive;
    var step := Queue(WorkerHeartbeat(worker, busy), now);
    var s0 := s.(clock := Max(s.clock, now));
    assert ShellsGuarded(s) by { GuardedShells(s); }
    StepShellsGuarded(cfg, s, step);
    LastsIff(cfg, Next(cfg, s, step));
    ClockGuarded(s, s0.clock);
    HeartbeatRunsHoldIff(s0, worker, busy, now, now + cfg.workerLease);
  }

  lemma ClaimRunsHoldIff(s: State, worker: Owner, candidate: Option<RunId>, now: Time, expires: Time)
    requires Guarded(s) && now <= s.clock && now < expires
    requires ClaimRows(s.db, worker, candidate, now, expires).Some?
    ensures LiveRunsHold(s.(db := ClaimRows(s.db, worker, candidate, now, expires).value)) <==>
            expires <= s.clock || RenewalSafe(s.db, worker)
  {
    if candidate.None? {
      HeartbeatRunsHoldIff(s, worker, None, now, expires);
    } else {
      ClaimedRunsHoldIff(s, worker, candidate.value, now, expires);
    }
  }

  lemma ClaimedRunsHoldIff(s: State, worker: Owner, run: RunId, now: Time, expires: Time)
    requires Guarded(s) && now <= s.clock && now < expires
    requires ClaimRows(s.db, worker, Some(run), now, expires).Some?
    ensures LiveRunsHold(s.(db := ClaimRows(s.db, worker, Some(run), now, expires).value)) <==>
            expires <= s.clock || RenewalSafe(s.db, worker)
  {
    var s' := s.(db := ClaimRows(s.db, worker, Some(run), now, expires).value);
    ClaimedTables(s.db, worker, run, now, expires);
    HostsKept(s.db, s'.db);
    hide HostsOf, ClaimRows;
    forall r | r in s.db.runs && r != run
      ensures LiveRun(s', r) <==> if r in RunsOf(s.db, worker) then expires > s.clock else LiveRun(s, r)
    {
    }
    forall r | r in s.db.runs && r != run && (LiveRun(s, r) || r in RunsOf(s.db, worker))
      ensures HoldsLocks(s'.db, r) <==> HoldsLocks(s.db, r)
    {
      forall h | h in HostsOf(s.db, r)
        ensures h in s'.db.locks && s'.db.locks[h].holder == ByRun(r) <==>
                h in s.db.locks && s.db.locks[h].holder == ByRun(r)
      {
        if h in s.db.locks && s.db.locks[h].holder == ByRun(r) {
          assert Owns(s.db, s.db.locks[h].owner, r);
        }
      }
    }
  }

  /** The tables after a committed claim. */
  lemma ClaimedTables(db: Database, worker: Owner, run: RunId, now: Time, expires: Time)
    requires ClaimRows(db, worker, Some(run), now, expires).Some? && now < expires
    ensures var db' := ClaimRows(db, worker, Some(run), now, expires).value;
      && run in db.runs && db.runs[run].status.Queued? && db'.targets == db.targets
      && db'.runs == MarkClaimed(db, worker, run, now).runs
      && db'.leases == db.leases[worker := LeaseRow(Some(run), now, expires)]
      && (forall h | h in HostsOf(db, run) ::
            && h in db'.locks && db'.locks[h].holder == ByRun(run)
            && (h in db.locks ==>
                  db.locks[h].expires <= now && !(db.locks[h].owner == worker && db.locks[h].holder.ByRun?)))
      && (forall h | h !in HostsOf(db, run) ::
            && (h in db'.locks <==> h in db.locks)
            && (h in db.locks ==> db'.locks[h].holder == db.locks[h].holder))
  {
    hide HostsOf, ClaimSelected, RenewRunLocks, Lockable;
    var renewed := HeartbeatRows(db, worker, None, now, expires);
    SameTargetsHosts(db, renewed);
    SelectedTables(renewed, worker, run, now, expires);
    var claimed := ClaimSelected(renewed, worker, run, now, expires).value;
    RenewedLocks(db.locks, worker, now, expires);
    RenewedLocks(claimed.locks, worker, now, expires);
    var lease := LeaseRow(Some(run), now, expires);
    assert claimed.leases[worker := lease] == db.leases[worker := lease];
  }

  lemma RenewedLocks(locks: map<HostId, LockRow>, worker: Owner, now: Time, expires: Time)
    requires now < expires
    ensures var locks' := RenewRunLocks(locks, worker, expires);
      && locks'.Keys == locks.Keys
      && (forall h | h in locks ::
            && locks'[h].holder == locks[h].holder
            && (Lockable(locks', h, now) <==>
                  locks[h].expires <= now && !(locks[h].owner == worker && locks[h].holder.ByRun?)))
  {
  }

  lemma SelectedTables(db: Database, worker: Owner, run: RunId, now: Time, expires: Time)
    requires ClaimSelected(db, worker, run, now, expires).Some?
    ensures var c := ClaimSelected(db, worker, run, now, expires).value;
      && run in db.runs && db.runs[run].status.Queued?
      && c == MarkClaimed(db, worker, run, now).(locks := c.locks)
      && (forall h | h in HostsOf(db, run) ::
            Lockable(db.locks, h, now) && h in c.locks && c.locks[h].holder == ByRun(run))
      && (forall h | h !in HostsOf(db, run) ::
            (h in c.locks <==> h in db.locks) && (h in db.locks ==> c.locks[h] == db.locks[h]))
  {
    SameTargetsHosts(db, MarkClaimed(db, worker, run, now));
    hide HostsOf;
  }

  /** A claim, which renews first, leaves exclusion lasting exactly when it is refused, its new
      lease is over already, or every active run of the worker still holds its lock rows. */
  lemma ClaimLastsIff(cfg: Config, s: State, worker: Owner, candidate: Option<RunId>, now: Time)
    requires cfg.Valid() && Guarded(s)
    ensures var s' := Next(cfg, s, Queue(WorkerClaim(worker, candidate), now));
      StaysExclusive(cfg, s') <==>
        || Lifecycle.Refused(s.db, worker, candidate, now)
        || now + cfg.workerLease <= s'.clock
        || RenewalSafe(s.db, worker)
  {
    hide RenewalSafe, ClaimRows, Lifecycle.Refused, LiveRunsHold, StaysExclusive;
    var step, expires := Queue(WorkerClaim(worker, candidate), now), now + cfg.workerLease;
    var s0 := s.(clock := Max(s.clock, now));
    StepShellsGuarded(cfg, s, step);
    LastsIff(cfg, Next(cfg, s, step));
    ClockGuarded(s, s0.clock);
    Lifecycle.RefusedIff(s.db, worker, candidate, now, expires);
    if ClaimRows(s.db, worker, candidate, now, expires).Some? {
      ClaimRunsHoldIff(s0, worker, candidate, now, expires);
    }
  }

  // ---------------------------------------------------------------- what a shell must check

  /** The other sessions' live recorded leases are backed by their lock rows. */
  predicate OthersBacked(s: State, x: SessionId) {
    forall y | y in s.db.sessions && y != x && s.db.sessions[y].leaseExpires > s.clock ::
      HoldsHost(s, ByShell(y), s.db.sessions[y].host)
  }

  /** A shell heartbeat that moves the recorded lease leaves exclusion by recorded leases lasting
      exactly when the other sessions' leases are backed and its own is over already or its
      host's lock row, expired or not, still names the session. */
  lemma ShellHeartbeatLastsIff(cfg: Config, s: State, x: SessionId, owner: Owner, authorized: bool, now: Time)
    requires cfg.Valid() && Guarded(s) && Refreshes(s.db, x, owner, authorized)
    ensures var s' := Next(cfg, s, Shell(ShellHeartbeat(x, owner, authorized), now));
      var h := s.db.sessions[x].host;
      LeasesStayExclusive(cfg, s') <==>
        && OthersBacked(s.(clock := s'.clock), x)
        && (now + cfg.shellLease <= s'.clock || (h in s.db.locks && s.db.locks[h].holder == ByShell(x)))
  {
    hide LeasesStayExclusive;
    var step := Shell(ShellHeartbeat(x, owner, authorized), now);
    var s' := Next(cfg, s, step);
    StepGuarded(cfg, s, step);
    LeasesLastIff(cfg, s');
    ReportedAfterHeartbeat(cfg, s, x, owner, authorized, now);
  }

  lemma ReportedAfterHeartbeat(cfg: Config, s: State, x: SessionId, owner: Owner, authorized: bool, now: Time)
    requires Guarded(s) && Refreshes(s.db, x, owner, authorized)
    requires Guarded(Next(cfg, s, Shell(ShellHeartbeat(x, owner, authorized), now)))
    ensures var s' := Next(cfg, s, Shell(ShellHeartbeat(x, owner, authorized), now));
      var h := s.db.sessions[x].host;
      LeasesReported(s') <==>
        && OthersBacked(s.(clock := s'.clock), x)
        && (now + cfg.shellLease <= s'.clock || (h in s.db.locks && s.db.locks[h].holder == ByShell(x)))
  {
    var s', h := Next(cfg, s, Shell(ShellHeartbeat(x, owner, authorized), now)), s.db.sessions[x].host;
    forall y | y in s'.db.sessions && s'.db.sessions[y].leaseExpires > s'.clock
      ensures HoldsHost(s', ByShell(y), s'.db.sessions[y].host) <==>
              y in s'.acked && s'.acked[y] == s'.db.sessions[y].leaseExpires
      ensures y != x ==> (HoldsHost(s', ByShell(y), s'.db.sessions[y].host) <==>
                          HoldsHost(s.(clock := s'.clock), ByShell(y), s.db.sessions[y].host))
    {
      BackedIffReported(s', y);
      if y != x {
        OtherLockKept(cfg, s, x, owner, authorized, now, y);
      }
    }
    OwnLockMoved(cfg, s, x, owner, authorized, now);
  }

  lemma OtherLockKept(
    cfg: Config, s: State, x: SessionId, owner: Owner, authorized: bool, now: Time, y: SessionId)
    requires Guarded(s) && Refreshes(s.db, x, owner, authorized) && y in s.db.sessions && y != x
    ensures var s' := Next(cfg, s, Shell(ShellHeartbeat(x, owner, authorized), now));
      && s'.db.sessions[y] == s.db.sessions[y]
      && (HoldsHost(s', ByShell(y), s.db.sessions[y].host) <==>
          HoldsHost(s.(clock := s'.clock), ByShell(y), s.db.sessions[y].host))
  {
  }

  lemma OwnLockMoved(cfg: Config, s: State, x: SessionId, owner: Owner, authorized: bool, now: Time)
    requires Guarded(s) && Refreshes(s.db, x, owner, authorized)
    ensures var s', h := Next(cfg, s, Shell(ShellHeartbeat(x, owner, authorized), now)), s.db.sessions[x].host;
      && s'.db.sessions.Keys == s.db.sessions.Keys && s'.db.sessions[x].host == h
      && s'.db.sessions[x].leaseExpires == now + cfg.shellLease
      && (now + cfg.shellLease > s'.clock ==>
            (HoldsHost(s', ByShell(x), h) <==> h in s.db.locks && s.db.locks[h].holder == ByShell(x)))
  {
    var h := s.db.sessions[x].host;
    assert h in RefreshedLocks(s.db, x, owner) <==> h in s.db.locks && s.db.locks[h].holder == ByShell(x);
  }
}
