/** What each transaction does, said of the rows alone: when it commits, which rows differ
    afterwards and how, and that no other row does. */
module Outcomes {
  import opened Common
  import opened Rows
  import opened Protocol
  import opened Consistency

  /** A host of the run is under a lock that has not run out. */
  ghost predicate Blocked(db: Database, run: RunId, now: Time) {
    exists t :: t in db.targets && db.targets[t].run == run &&
      db.targets[t].host in db.locks && db.locks[db.targets[t].host].expires > now
  }

  // ---------------------------------------------------------------- the queue

  lemma CreateRunOutcome(db: Database, run: RunId, hosts: map<TargetId, HostId>, now: Time)
    requires LegalQueue(db, CreateRun(run, hosts))
    ensures var db' := CreateRunRows(db, run, hosts, now);
      && run in db'.runs && db'.runs[run] == RunRow(Queued, now, None, None, None, None)
      && (forall r | r in db.runs :: r in db'.runs && db'.runs[r] == db.runs[r])
      && db'.runs.Keys == db.runs.Keys + {run} && db'.targets.Keys == db.targets.Keys + hosts.Keys
      && (forall t | t in hosts :: db'.targets[t] == TargetRow(run, hosts[t], TargetPending, None))
      && (forall t | t in db.targets :: db'.targets[t] == db.targets[t])
      && db'.leases == db.leases && db'.locks == db.locks && db'.sessions == db.sessions
  {
  }

  /** A cancel is refused exactly for a run that is unknown or over. It stamps the request in
      either of the other cases; only a queued run is closed by it, with its pending targets. */
  lemma CancelOutcome(db: Database, run: RunId, now: Time)
    ensures var c := CancelRows(db, run, now);
      && (c.Some? <==>
            run in db.runs && db.runs[run].status in {RunStatus.Queued, RunStatus.Preparing, RunStatus.Running})
      && (c.Some? ==>
            var before, after := db.runs[run], c.value.runs[run];
            && c.value.runs.Keys == db.runs.Keys && c.value.targets.Keys == db.targets.Keys
            && after.cancelRequestedAt == Some(now)
            && after.createdAt == before.createdAt
            && after.claimedBy == before.claimedBy && after.claimedAt == before.claimedAt
            && (before.status == Queued ==> after.status == Canceled && after.finishedAt == Some(now))
            && (before.status != Queued ==> after.status == before.status && after.finishedAt == before.finishedAt)
            && (forall r | r in db.runs && r != run :: c.value.runs[r] == db.runs[r])
            && (forall t | t in db.targets ::
                  if before.status == Queued && db.targets[t].run == run && db.targets[t].status == TargetPending
                  then c.value.targets[t] == db.targets[t].(status := TargetCanceled, finishedAt := Some(now))
                  else c.value.targets[t] == db.targets[t])
            && c.value.leases == db.leases && c.value.locks == db.locks && c.value.sessions == db.sessions)
  {
  }

  /** A heartbeat rewrites one lease row, and moves the expiry of the locks that worker has for
      runs. */
  lemma HeartbeatOutcome(db: Database, worker: Owner, busy: Option<RunId>, now: Time, expires: Time)
    ensures var db' := HeartbeatRows(db, worker, busy, now, expires);
      && db'.leases.Keys == db.leases.Keys + {worker} && db'.leases[worker] == LeaseRow(busy, now, expires)
      && (forall w | w in db.leases && w != worker :: db'.leases[w] == db.leases[w])
      && db'.locks.Keys == db.locks.Keys
      && (forall h | h in db.locks ::
            && db'.locks[h].(expires := db.locks[h].expires) == db.locks[h]
            && db'.locks[h].expires ==
                 if db.locks[h].holder.ByRun? && db.locks[h].owner == worker then expires else db.locks[h].expires)
      && db'.runs == db.runs && db'.targets == db.targets && db'.sessions == db.sessions
  {
  }

  /** The candidate is a queued run with no blocked host, and no such run was created before it,
      nor at the same time with a smaller identifier. */
  lemma CandidateIff(db: Database, run: RunId, now: Time)
    ensures IsCandidate(db, run, now) <==>
      && run in db.runs && db.runs[run].status == Queued && !Blocked(db, run, now)
      && (forall r | r in db.runs && db.runs[r].status == Queued && !Blocked(db, r, now) ::
            db.runs[run].createdAt < db.runs[r].createdAt ||
            (db.runs[run].createdAt == db.runs[r].createdAt && run <= r))
  {
    forall r | r in db.runs ensures Eligible(db, r, now) <==> db.runs[r].status == Queued && !Blocked(db, r, now) {
      EligibleIff(db, r, now);
    }
    hide Eligible, Blocked;
  }

  lemma EligibleIff(db: Database, run: RunId, now: Time)
    requires run in db.runs
    ensures Eligible(db, run, now) <==> db.runs[run].status == Queued && !Blocked(db, run, now)
  {
    if Blocked(db, run, now) {
      var t :| t in db.targets && db.targets[t].run == run &&
        db.targets[t].host in db.locks && db.locks[db.targets[t].host].expires > now;
      assert db.targets[t].host in HostsOf(db, run);
    }
    if h :| h in HostsOf(db, run) && !Lockable(db.locks, h, now) {
      var t :| t in db.targets && db.targets[t].run == run && db.targets[t].host == h;
    }
  }

  /** Only a PREPARING run starts, and only PENDING targets of that run. */
  lemma MarkRunningOutcome(db: Database, run: RunId)
    ensures var db' := MarkRunningRows(db, run);
      && db'.runs.Keys == db.runs.Keys && db'.targets.Keys == db.targets.Keys
      && (forall r | r in db.runs ::
            if r == run && db.runs[r].status == Preparing
            then db'.runs[r] == db.runs[r].(status := Running) else db'.runs[r] == db.runs[r])
      && (forall t | t in db.targets ::
            if db.targets[t].run == run && db.targets[t].status == TargetPending
            then db'.targets[t] == db.targets[t].(status := TargetRunning) else db'.targets[t] == db.targets[t])
      && db'.leases == db.leases && db'.locks == db.locks && db'.sessions == db.sessions
  {
  }

  /** A target outcome is written as given, to that row and no other. */
  lemma FinishTargetOutcome(db: Database, target: TargetId, outcome: TargetStatus, now: Time)
    ensures var db' := FinishTargetRows(db, target, outcome, now);
      && db'.targets.Keys == db.targets.Keys
      && (target in db.targets ==>
            db'.targets[target] == db.targets[target].(status := outcome, finishedAt := Some(now)))
      && (forall t | t in db.targets && t != target :: db'.targets[t] == db.targets[t])
      && db'.runs == db.runs && db'.leases == db.leases && db'.locks == db.locks && db'.sessions == db.sessions
  {
  }

  // ---------------------------------------------------------------- Web Shell sessions

  /** Over by the ticket while PENDING, by the lease afterwards. */
  predicate Over(row: SessionRow, now: Time) {
    (row.state == ShellPending && row.ticketExpires <= now) ||
    (row.state in {ShellState.ShellActive, ShellState.ShellCloseRequested} && row.leaseExpires <= now)
  }

  lemma CleanupOutcome(db: Database, now: Time)
    ensures var db' := CleanupRows(db, now);
      && (forall x :: x in db'.sessions <==> x in db.sessions && !Over(db.sessions[x], now))
      && (forall x | x in db'.sessions :: db'.sessions[x] == db.sessions[x])
      && (forall h :: h in db'.locks <==>
            h in db.locks && !(db.locks[h].holder.ByShell? && db.locks[h].holder.session in db.sessions &&
                               Over(db.sessions[db.locks[h].holder.session], now)))
      && (forall h | h in db'.locks :: db'.locks[h] == db.locks[h])
      && db'.runs == db.runs && db'.targets == db.targets && db'.leases == db.leases
  {
  }

  /** The sessions that are not over. */
  function Current(db: Database, now: Time): set<SessionId> {
    set x | x in db.sessions && !Over(db.sessions[x], now)
  }

  /** The host is under an unexpired lock that the cleanup does not take away. */
  predicate Busy(db: Database, host: HostId, now: Time) {
    host in db.locks && db.locks[host].expires > now &&
    !(db.locks[host].holder.ByShell? && db.locks[host].holder.session in db.sessions &&
      Over(db.sessions[db.locks[host].holder.session], now))
  }

  /** A session is granted exactly when the host and credential checks pass, fewer than the
      allowed number of sessions are current, and the host is not busy. */
  lemma CreateShellOutcome(
    db: Database, x: SessionId, host: HostId, actor: UserId, auth: SessionId, instance: Owner,
    capacity: nat, admissible: bool, now: Time, ticket: Time)
    ensures var c := CreateShellRows(db, x, host, actor, auth, instance, capacity, admissible, now, ticket);
      && (c.Some? <==> admissible && |Current(db, now)| < capacity && !Busy(db, host, now))
      && (c.Some? ==>
            && c.value.sessions.Keys == Current(db, now) + {x}
            && c.value.sessions[x] == SessionRow(host, actor, auth, ShellPending, instance, None, ticket, ticket)
            && host in c.value.locks && c.value.locks[host] == LockRow(ByShell(x), "pending:" + instance, now, ticket)
            && (forall y | y in Current(db, now) && y != x :: c.value.sessions[y] == db.sessions[y])
            && (forall h | h in c.value.locks && h != host :: h in db.locks && c.value.locks[h] == db.locks[h])
            && c.value.runs == db.runs && c.value.targets == db.targets && c.value.leases == db.leases)
  {
    CleanupOutcome(db, now);
    CurrentAreLive(db, now);
    BusyUnlockable(db, host, now);
    hide CleanupRows, LiveSessions, Lockable, Over, Current, Busy;
  }

  lemma CurrentAreLive(db: Database, now: Time)
    ensures LiveSessions(CleanupRows(db, now), now) == Current(db, now) == CleanupRows(db, now).sessions.Keys
    ensures forall x | x in Current(db, now) :: x in db.sessions
  {
    CleanupOutcome(db, now);
    var clean := CleanupRows(db, now);
    hide CleanupRows;
    forall x | x in clean.sessions ensures !clean.sessions[x].Expired(now) {
    }
    assert LiveSessions(clean, now) == clean.sessions.Keys;
    forall x ensures x in Current(db, now) <==> x in clean.sessions.Keys {
    }
    assert Current(db, now) == clean.sessions.Keys;
  }

  lemma BusyUnlockable(db: Database, host: HostId, now: Time)
    ensures Lockable(CleanupRows(db, now).locks, host, now) <==> !Busy(db, host, now)
  {
    CleanupOutcome(db, now);
    hide CleanupRows, Over;
  }

  /** A session is launched exactly for the user and the login it was created for, while its
      ticket lasts and the host's lock row still names it, if the login is valid and the
      credential and host keys are usable. */
  lemma ClaimShellOutcome(
    db: Database, x: SessionId, actor: UserId, auth: SessionId, owner: Owner,
    authorized: bool, launchable: bool, now: Time, expires: Time)
    requires Consistent(db)
    ensures var c := ClaimShellRows(db, x, actor, auth, owner, authorized, launchable, now, expires);
      && (c.Some? <==>
            && x in db.sessions && db.sessions[x].state == ShellPending
            && db.sessions[x].actor == actor && db.sessions[x].auth == auth && db.sessions[x].ticketExpires > now
            && authorized && launchable
            && db.sessions[x].host in db.locks && db.locks[db.sessions[x].host].holder == ByShell(x)
            && db.locks[db.sessions[x].host].expires > now)
      && (c.Some? ==>
            var h := db.sessions[x].host;
            && c.value.sessions.Keys == db.sessions.Keys && c.value.locks.Keys == db.locks.Keys
            && c.value.sessions[x] ==
                 db.sessions[x].(state := ShellActive, owner := Some(owner), leaseExpires := expires)
            && c.value.locks[h] == db.locks[h].(owner := owner, expires := expires)
            && (forall y | y in db.sessions && y != x :: c.value.sessions[y] == db.sessions[y])
            && (forall l | l in db.locks && l != h :: c.value.locks[l] == db.locks[l])
            && c.value.runs == db.runs && c.value.targets == db.targets && c.value.leases == db.leases)
  {
    var held := set h | h in ShellLocks(db, x) && db.locks[h].expires > now;
    if x in db.sessions {
      var h := db.sessions[x].host;
      OnlyShellLock(db, x);
      assert h in held ==> held == {h};
      assert h !in held ==> held == {};
    }
  }

  /** A heartbeat moves the lease exactly for the owner of an ACTIVE session with a valid login;
      the lock row of the session's host moves with it if it still names the session, and exactly
      then is the caller given no reason to close. */
  lemma ShellHeartbeatOutcome(db: Database, x: SessionId, owner: Owner, authorized: bool, expires: Time)
    requires Consistent(db)
    ensures var db' := ShellHeartbeatRows(db, x, owner, authorized, expires);
      var moved := x in db.sessions && db.sessions[x].state == ShellActive && db.sessions[x].owner == Some(owner) &&
        authorized;
      var held := moved && db.sessions[x].host in db.locks && db.locks[db.sessions[x].host].holder == ByShell(x);
      && (Acknowledged(db, x, owner, authorized) <==> held)
      && db'.sessions.Keys == db.sessions.Keys && db'.locks.Keys == db.locks.Keys
      && (forall y | y in db.sessions ::
            db'.sessions[y] == if moved && y == x then db.sessions[y].(leaseExpires := expires) else db.sessions[y])
      && (forall h | h in db.locks ::
            if held && h == db.sessions[x].host
            then db'.locks[h] == db.locks[h].(expires := expires) else db'.locks[h] == db.locks[h])
      && db'.runs == db.runs && db'.targets == db.targets && db'.leases == db.leases
  {
    if x in db.sessions {
      OnlyShellLock(db, x);
      var h := db.sessions[x].host;
      assert RefreshedLocks(db, x, owner) <= {h};
      assert Refreshes(db, x, owner, authorized) && h in ShellLocks(db, x) ==> h in RefreshedLocks(db, x, owner);
    }
  }

  /** Closing, by its own user only: a pending session goes, an active one is marked. */
  lemma CloseShellOutcome(db: Database, x: SessionId, actor: UserId)
    ensures var db' := CloseShellRows(db, x, actor);
      var mine := x in db.sessions && db.sessions[x].actor == actor;
      && (!mine || db.sessions[x].state == ShellCloseRequested ==> db' == db)
      && (mine && db.sessions[x].state == ShellPending ==>
            && db'.sessions == db.sessions - {x}
            && (forall h :: h in db'.locks <==> h in db.locks && db.locks[h].holder != ByShell(x))
            && (forall h | h in db'.locks :: db'.locks[h] == db.locks[h]))
      && (mine && db.sessions[x].state == ShellActive ==>
            db'.sessions == db.sessions[x := db.sessions[x].(state := ShellCloseRequested)] && db'.locks == db.locks)
      && db'.runs == db.runs && db'.targets == db.targets && db'.leases == db.leases
  {
  }

  /** A session is finished by its owner only, and its lock row goes with it. */
  lemma FinishShellOutcome(db: Database, x: SessionId, owner: Owner)
    ensures var db' := FinishShellRows(db, x, owner);
      var mine := x in db.sessions && db.sessions[x].owner == Some(owner);
      && (!mine ==> db' == db)
      && (mine ==>
            && db'.sessions == db.sessions - {x}
            && (forall h :: h in db'.locks <==> h in db.locks && db.locks[h].holder != ByShell(x))
            && (forall h | h in db'.locks :: db'.locks[h] == db.locks[h]))
      && db'.runs == db.runs && db'.targets == db.targets && db'.leases == db.leases
  {
  }
}
