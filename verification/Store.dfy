/** The repositories as an object whose methods rewrite the tables statement by statement,
    and the services that run several of them in one transaction. Each method is tied to the
    function on tables that the protocol theorems are about. */
module Store {
  import opened Common
  import opened Rows
  import opened Protocol
  import opened Exclusion
  import Lifecycle

  /** Comparing the rows taken with the rows wanted decides the claim. */
  lemma ClaimByRowCount(db: Database, worker: Owner, run: RunId, now: Time, expires: Time, free: set<HostId>)
    requires run in db.runs && db.runs[run].status.Queued?
    requires free == set h | h in HostsOf(db, run) && Lockable(db.locks, h, now)
    ensures var c := ClaimSelected(db, worker, run, now, expires);
      && (c.None? <==> free != HostsOf(db, run))
      && (c.Some? ==> c.value == MarkClaimed(db, worker, run, now).(
            locks := db.locks + map h | h in free :: LockRow(ByRun(run), worker, now, expires)))
  {
  }

  /** Table by table, what the statements of `finish` leave. */
  lemma FinishedTables(db: Database, db': Database, worker: Owner, run: RunId, status: RunStatus, now: Time)
    requires db'.targets == map t | t in db.targets ::
      if db.targets[t].run == run && db.targets[t].status.Open()
      then CloseTarget(db.targets[t], FallbackStatus(status), now) else db.targets[t]
    requires db'.runs == if Owns(db, worker, run)
      then db.runs[run := db.runs[run].(status := status, finishedAt := Some(now))] else db.runs
    requires db'.locks == map h | h in db.locks && db.locks[h].holder != ByRun(run) :: db.locks[h]
    requires db'.leases == map w | w in db.leases ::
      if w == worker && db.leases[w].run == Some(run) then db.leases[w].(run := None) else db.leases[w]
    requires db'.sessions == db.sessions
    ensures db' == FinishStatements(db, worker, run, status, now)
  {
  }

  class Tables {
    var runs: map<RunId, RunRow>
    var targets: map<TargetId, TargetRow>
    var leases: map<Owner, LeaseRow>
    var locks: map<HostId, LockRow>
    var sessions: map<SessionId, SessionRow>

    constructor ()
      ensures View() == EMPTY_DATABASE
    {
      runs, targets, leases, locks, sessions := map[], map[], map[], map[], map[];
    }

    function View(): Database
      reads this
    {
      Database(runs, targets, leases, locks, sessions)
    }

    /** Leaving a transaction by an exception. */
    method Rollback(saved: Database)
      modifies this
      ensures View() == saved
    {
      runs, targets, leases, locks, sessions := saved.runs, saved.targets, saved.leases, saved.locks, saved.sessions;
    }

    // -------------------------------------------------------------- runs

    method Heartbeat(worker: Owner, run: Option<RunId>, now: Time, expires: Time)
      modifies this`leases, this`locks
      ensures View() == HeartbeatRows(old(View()), worker, run, now, expires)
    {
      leases := leases[worker := LeaseRow(run, now, expires)];
      locks := map h | h in locks ::
        if locks[h].owner == worker && locks[h].holder.ByRun? then locks[h].(expires := expires) else locks[h];
    }

    /** The candidate query: the oldest queued run with no unexpired lock on its hosts. */
    method SelectCandidate(now: Time) returns (candidate: Option<RunId>)
      ensures candidate.Some? ==> IsCandidate(View(), candidate.value, now)
      ensures candidate.None? ==> forall r | r in runs :: !Eligible(View(), r, now)
    {
      Lifecycle.CandidateExists(View(), now);
      if r :| r in runs && IsCandidate(View(), r, now) {
        candidate := Some(r);
      } else {
        candidate := None;
      }
    }

    /** The claim of a run that an earlier candidate query returned. A host locked since then
        makes the row counts differ, which is the collision. */
    method ClaimSelectedRun(worker: Owner, run: RunId, now: Time, expires: Time) returns (collided: bool)
      requires run in runs && runs[run].status.Queued?
      modifies this`runs, this`locks
      ensures collided <==> ClaimSelected(old(View()), worker, run, now, expires).None?
      ensures !collided ==> View() == ClaimSelected(old(View()), worker, run, now, expires).value
    {
      var hosts := HostsOf(View(), run);
      var free := set h | h in hosts && Lockable(locks, h, now);
      ClaimByRowCount(View(), worker, run, now, expires, free);
      hide HostsOf, Lockable, ClaimSelected;
      runs := runs[run := runs[run].(status := Preparing, claimedBy := Some(worker), claimedAt := Some(now))];
      locks := locks + map h | h in free :: LockRow(ByRun(run), worker, now, expires);
      collided := free != hosts;
    }

    /** The inserts of `create_or_get` for a run whose key is new. */
    method InsertRun(run: RunId, hosts: map<TargetId, HostId>, now: Time)
      modifies this`runs, this`targets
      ensures View() == CreateRunRows(old(View()), run, hosts, now)
    {
      runs := runs[run := RunRow(Queued, now, None, None, None, None)];
      targets := targets + map t | t in hosts :: TargetRow(run, hosts[t], TargetPending, None);
    }

    method RecoverStale(now: Time) returns (count: nat)
      modifies this
      ensures View() == RecoverRows(old(View()), now)
      ensures count == |Lifecycle.AbandonedRuns(old(View()), now)|
    {
      hide Lifecycle.AbandonedRuns;
      var stale := set w | w in leases && leases[w].expires <= now;
      var interrupted := set r | r in runs && runs[r].status.Active() && runs[r].claimedBy.Some? &&
        runs[r].claimedBy.value in stale;
      assert stale == StaleWorkers(old(View()), now) && interrupted == InterruptedRuns(old(View()), now);
      leases := leases - stale;
      runs := map r | r in runs ::
        if r in interrupted then runs[r].(status := Interrupted, finishedAt := Some(now)) else runs[r];
      targets := map t | t in targets ::
        if targets[t].run in interrupted && targets[t].status.Open()
        then CloseTarget(targets[t], TargetInterrupted, now) else targets[t];
      locks := map h | h in locks &&
        !(locks[h].expires <= now || (locks[h].holder.ByRun? && locks[h].holder.run in interrupted)) :: locks[h];
      count := |interrupted|;
      Lifecycle.InterruptedIff(old(View()), now);
    }

    method MarkRunning(run: RunId)
      modifies this`runs, this`targets
      ensures View() == MarkRunningRows(old(View()), run)
    {
      if run in runs && runs[run].status.Preparing? {
        runs := runs[run := runs[run].(status := Running)];
      }
      targets := map t | t in targets ::
        if targets[t].run == run && targets[t].status.TargetPending?
        then targets[t].(status := TargetRunning) else targets[t];
      assert View().runs == MarkRunningRows(old(View()), run).runs;
    }

    method RequestCancel(run: RunId, now: Time) returns (found: bool)
      modifies this`runs, this`targets
      ensures found <==> CancelRows(old(View()), run, now).Some?
      ensures View() == if found then CancelRows(old(View()), run, now).value else old(View())
    {
      found := run in runs && !runs[run].status.Terminal();
      if found {
        var wasQueued := runs[run].status.Queued?;
        runs := runs[run := runs[run].(
          cancelRequestedAt := Some(now),
          status := if wasQueued then Canceled else runs[run].status,
          finishedAt := if wasQueued then Some(now) else runs[run].finishedAt)];
        if wasQueued {
          targets := map t | t in targets ::
            if targets[t].run == run && targets[t].status.TargetPending?
            then CloseTarget(targets[t], TargetCanceled, now) else targets[t];
        }
      }
    }

    /** All four statements run whether or not the worker owns the run. */
    method Finish(run: RunId, worker: Owner, status: RunStatus, now: Time) returns (owned: bool)
      modifies this
      ensures owned <==> Owns(old(View()), worker, run)
      ensures View() == FinishStatements(old(View()), worker, run, status, now)
    {
      hide FallbackStatus;
      var fallback := FallbackStatus(status);
      targets := map t | t in targets ::
        if targets[t].run == run && targets[t].status.Open()
        then CloseTarget(targets[t], fallback, now) else targets[t];
      owned := run in runs && runs[run].claimedBy == Some(worker) && runs[run].status.Active();
      if owned {
        runs := runs[run := runs[run].(status := status, finishedAt := Some(now))];
      }
      locks := map h | h in locks && locks[h].holder != ByRun(run) :: locks[h];
      leases := map w | w in leases ::
        if w == worker && leases[w].run == Some(run) then leases[w].(run := None) else leases[w];
      FinishedTables(old(View()), View(), worker, run, status, now);
    }

    method FinishTarget(target: TargetId, status: TargetStatus, now: Time)
      modifies this`targets
      ensures View() == FinishTargetRows(old(View()), target, status, now)
    {
      if target in targets {
        targets := targets[target := CloseTarget(targets[target], status, now)];
      }
    }

    // -------------------------------------------------------------- Web Shell sessions

    method CleanupExpired(now: Time) returns (count: nat)
      modifies this`sessions, this`locks
      ensures View() == CleanupRows(old(View()), now)
      ensures count == |ExpiredSessions(old(View()), now)|
    {
      var gone := set x | x in sessions && sessions[x].Expired(now);
      sessions := sessions - gone;
      locks := map h | h in locks && !(locks[h].holder.ByShell? && locks[h].holder.session in gone) :: locks[h];
      count := |gone|;
    }

    method AcquireHostLock(host: HostId, x: SessionId, owner: Owner, now: Time, expires: Time) returns (acquired: bool)
      modifies this`locks
      ensures acquired <==> Lockable(old(locks), host, now)
      ensures locks == if acquired then old(locks)[host := LockRow(ByShell(x), owner, now, expires)] else old(locks)
    {
      acquired := host !in locks || locks[host].expires <= now;
      if acquired {
        locks := locks[host := LockRow(ByShell(x), owner, now, expires)];
      }
    }

    /** Both updates of `activate`; the second must hit exactly one lock row. */
    method Activate(x: SessionId, auth: SessionId, owner: Owner, authorized: bool, now: Time, expires: Time)
      returns (activated: bool, locked: bool)
      modifies this`sessions, this`locks
      ensures activated <==>
        x in old(sessions) && Claimable(old(View()), x, old(sessions)[x].actor, auth, now) && authorized
      ensures activated && locked ==>
        var c := ClaimShellRows(old(View()), x, old(sessions)[x].actor, auth, owner, authorized, true, now, expires);
        c.Some? && View() == c.value
      ensures activated && !locked ==>
        ClaimShellRows(old(View()), x, old(sessions)[x].actor, auth, owner, authorized, true, now, expires).None?
    {
      activated := x in sessions && sessions[x].auth == auth && sessions[x].state.ShellPending? &&
        sessions[x].ticketExpires > now && authorized;
      locked := false;
      if activated {
        var held := set h | h in locks && locks[h].holder == ByShell(x) && locks[h].expires > now;
        assert held == set h | h in ShellLocks(View(), x) && locks[h].expires > now;
        sessions := sessions[x := sessions[x].(state := ShellActive, owner := Some(owner), leaseExpires := expires)];
        locks := map h | h in locks :: if h in held then locks[h].(owner := owner, expires := expires) else locks[h];
        locked := |held| == 1;
      }
    }

    method DeleteSession(x: SessionId)
      modifies this`sessions, this`locks
      ensures View() == DeleteSessions(old(View()), {x})
    {
      sessions := sessions - {x};
      locks := map h | h in locks && locks[h].holder != ByShell(x) :: locks[h];
    }

    method ShellHeartbeat(x: SessionId, owner: Owner, authorized: bool, expires: Time) returns (refreshed: bool)
      modifies this`sessions, this`locks
      ensures refreshed <==> Acknowledged(old(View()), x, owner, authorized)
      ensures View() == ShellHeartbeatRows(old(View()), x, owner, authorized, expires)
    {
      refreshed := false;
      if x in sessions && sessions[x].owner == Some(owner) && sessions[x].state.ShellActive? && authorized {
        var held := set h | h in locks && locks[h].holder == ByShell(x) && locks[h].owner == owner;
        assert held == RefreshedLocks(old(View()), x, owner);
        sessions := sessions[x := sessions[x].(leaseExpires := expires)];
        locks := map h | h in locks :: if h in held then locks[h].(expires := expires) else locks[h];
        refreshed := held != {};
      }
    }
  }

  /** The transaction of `WorkerCoordinator.claim` with the candidate its query returned. */
  method ClaimCandidate(tables: Tables, worker: Owner, candidate: Option<RunId>, now: Time, expires: Time)
    returns (committed: bool)
    modifies tables
    ensures var c := ClaimRows(old(tables.View()), worker, candidate, now, expires);
            committed == c.Some? && tables.View() == if committed then c.value else old(tables.View())
  {
    hide ClaimSelected, HeartbeatRows;
    var saved := tables.View();
    tables.Heartbeat(worker, None, now, expires);
    committed := true;
    if candidate.Some? {
      var run := candidate.value;
      committed := run in tables.runs && tables.runs[run].status.Queued?;
      ClaimNeedsQueued(tables.View(), worker, run, now, expires);
      if committed {
        var collided := tables.ClaimSelectedRun(worker, run, now, expires);
        committed := !collided;
      }
      if committed {
        tables.Heartbeat(worker, candidate, now, expires);
      } else {
        tables.Rollback(saved);
      }
    }
  }

  lemma ClaimNeedsQueued(db: Database, worker: Owner, run: RunId, now: Time, expires: Time)
    ensures ClaimSelected(db, worker, run, now, expires).Some? ==> run in db.runs && db.runs[run].status.Queued?
  {
  }

  /** `WorkerCoordinator.claim` with no commit by others in between: it returns a run exactly
      when one is eligible, the oldest, and never collides. */
  method Claim(tables: Tables, worker: Owner, now: Time, lease: Time) returns (run: Option<RunId>)
    modifies tables
    ensures var renewed := HeartbeatRows(old(tables.View()), worker, None, now, now + lease);
            && (run.Some? ==> IsCandidate(renewed, run.value, now))
            && (run.None? ==> forall r | r in renewed.runs :: !Eligible(renewed, r, now))
    ensures var c := ClaimRows(old(tables.View()), worker, run, now, now + lease);
            c.Some? && tables.View() == c.value
  {
    tables.Heartbeat(worker, None, now, now + lease);
    run := tables.SelectCandidate(now);
    if run.Some? {
      Lifecycle.UndisturbedClaimSucceeds(old(tables.View()), worker, run.value, now, now + lease);
      var collided := tables.ClaimSelectedRun(worker, run.value, now, now + lease);
      tables.Heartbeat(worker, run, now, now + lease);
    }
  }

  /** `WorkerCoordinator.finish`. */
  method FinishRun(tables: Tables, worker: Owner, run: RunId, status: RunStatus, now: Time) returns (owned: bool)
    modifies tables
    ensures owned <==> FinishRows(old(tables.View()), worker, run, status, now).Some?
    ensures var c := FinishRows(old(tables.View()), worker, run, status, now);
            tables.View() == if owned then c.value else old(tables.View())
  {
    var saved := tables.View();
    owned := tables.Finish(run, worker, status, now);
    if !owned {
      tables.Rollback(saved);
    }
  }

  /** `WebShellService.create`: a rejected request undoes even the cleanup. */
  method CreateShell(
    tables: Tables, x: SessionId, host: HostId, actor: UserId, auth: SessionId, instance: Owner,
    capacity: nat, admissible: bool, now: Time, ticket: Time) returns (created: bool)
    requires x !in tables.sessions
    modifies tables
    ensures var was := old(tables.View());
            var c := CreateShellRows(was, x, host, actor, auth, instance, capacity, admissible, now, ticket);
            created == c.Some? && tables.View() == if created then c.value else old(tables.View())
  {
    var saved := tables.View();
    var recovered := tables.CleanupExpired(now);
    var live := set y | y in tables.sessions && !tables.sessions[y].Expired(now);
    assert live == LiveSessions(CleanupRows(saved, now), now);
    if |live| >= capacity || !admissible {
      tables.Rollback(saved);
      return false;
    }
    var row := SessionRow(host, actor, auth, ShellPending, instance, None, ticket, ticket);
    tables.sessions := tables.sessions[x := row];
    created := tables.AcquireHostLock(host, x, "pending:" + instance, now, ticket);
    if !created {
      tables.Rollback(saved);
    }
  }

  /** `WebShellService.claim`; `launchable` answers for the credential and host keys read once
      the session is active. Any failure rolls back. */
  method ClaimShell(
    tables: Tables, x: SessionId, actor: UserId, auth: SessionId, owner: Owner,
    authorized: bool, launchable: bool, now: Time, expires: Time) returns (launched: bool)
    modifies tables
    ensures var c := ClaimShellRows(old(tables.View()), x, actor, auth, owner, authorized, launchable, now, expires);
            launched == c.Some? && tables.View() == if launched then c.value else old(tables.View())
  {
    var saved := tables.View();
    if !Claimable(saved, x, actor, auth, now) {
      return false;
    }
    var activated, locked := tables.Activate(x, auth, owner, authorized, now, expires);
    launched := activated && locked && launchable;
    if !launched {
      tables.Rollback(saved);
    }
  }

  /** `WebShellService.request_close`. */
  method CloseShell(tables: Tables, x: SessionId, actor: UserId)
    modifies tables
    ensures tables.View() == CloseShellRows(old(tables.View()), x, actor)
  {
    if x in tables.sessions && tables.sessions[x].actor == actor {
      if tables.sessions[x].state.ShellPending? {
        tables.DeleteSession(x);
      } else if tables.sessions[x].state.ShellActive? {
        tables.sessions := tables.sessions[x := tables.sessions[x].(state := ShellCloseRequested)];
      }
    }
  }

  /** `WebShellService.finish`. */
  method FinishShell(tables: Tables, x: SessionId, owner: Owner)
    modifies tables
    ensures tables.View() == FinishShellRows(old(tables.View()), x, owner)
  {
    if x in tables.sessions && tables.sessions[x].owner == Some(owner) {
      tables.DeleteSession(x);
    }
  }

  // ---------------------------------------------------------------- any transaction

  method PerformQueue(tables: Tables, cfg: Config, step: QueueStep, now: Time)
    modifies tables
    ensures var c := QueueRows(cfg, old(tables.View()), step, now);
            tables.View() == if c.Some? then c.value else old(tables.View())
  {
    hide HeartbeatRows, ClaimRows, RecoverRows, MarkRunningRows, FinishTargetRows, FinishRows, CancelRows,
      CreateRunRows;
    match step
    case CreateRun(run, hosts) => tables.InsertRun(run, hosts, now);
    case CancelRun(run) => var found := tables.RequestCancel(run, now);
    case WorkerHeartbeat(worker, busy) => tables.Heartbeat(worker, busy, now, now + cfg.workerLease);
    case WorkerClaim(worker, candidate) =>
      var committed := ClaimCandidate(tables, worker, candidate, now, now + cfg.workerLease);
    case RecoverRuns => var count := tables.RecoverStale(now);
    case MarkRunning(_, run) => tables.MarkRunning(run);
    case FinishTarget(target, outcome) => tables.FinishTarget(target, outcome, now);
    case FinishRun(worker, run, result) => var owned := FinishRun(tables, worker, run, result, now);
  }

  method PerformShell(tables: Tables, cfg: Config, step: ShellStep, now: Time) returns (report: Option<Time>)
    requires step.CreateShell? ==> step.session !in tables.sessions
    modifies tables
    ensures var c := ShellRows(cfg, old(tables.View()), step, now);
            tables.View() == if c.Some? then c.value else old(tables.View())
    ensures report == Report(cfg, old(tables.View()), step, now)
  {
    hide CreateShellRows, ClaimShellRows, ShellHeartbeatRows, CloseShellRows, FinishShellRows, CleanupRows,
      Acknowledged;
    report := None;
    match step
    case CreateShell(x, host, actor, auth, instance, admissible) =>
      var ticket := now + cfg.shellTicket;
      var created := CreateShell(tables, x, host, actor, auth, instance, cfg.maxSessions, admissible, now, ticket);
      report := if created then Some(ticket) else None;
    case ClaimShell(x, actor, auth, owner, authorized, launchable) =>
      var expires := now + cfg.shellLease;
      var launched := ClaimShell(tables, x, actor, auth, owner, authorized, launchable, now, expires);
      report := if launched then Some(expires) else None;
    case ShellHeartbeat(x, owner, authorized) =>
      var expires := now + cfg.shellLease;
      var refreshed := tables.ShellHeartbeat(x, owner, authorized, expires);
      report := if refreshed then Some(expires) else None;
    case CloseShell(x, actor) => CloseShell(tables, x, actor);
    case FinishShell(x, owner) => FinishShell(tables, x, owner);
    case RecoverShells => var count := tables.CleanupExpired(now);
  }

  /** Any transaction, run statement by statement on the tables with its rollbacks, is one step of
      the protocol, and from a guarded state leads to a guarded one, in which no two live
      executions share a host. */
  method Perform(tables: Tables, cfg: Config, step: Step, ghost s: State)
    returns (report: Option<Time>, ghost s': State)
    requires cfg.Valid() && tables.View() == s.db && Guarded(s) && Legal(s.db, step) && SafeStep(s, step)
    modifies tables
    ensures s' == Next(cfg, s, step) && tables.View() == s'.db
    ensures report == if step.Shell? then Report(cfg, s.db, step.shell, step.now) else None
    ensures Guarded(s') && HostsExclusive(s')
  {
    hide Guarded, SafeStep, HostsExclusive, QueueRows, ShellRows, Report;
    s' := Next(cfg, s, step);
    StepGuarded(cfg, s, step);
    GuardedIsExclusive(s');
    report := None;
    match step
    case Queue(q, now) => PerformQueue(tables, cfg, q, now);
    case Shell(x, now) => report := PerformShell(tables, cfg, x, now);
  }
}
