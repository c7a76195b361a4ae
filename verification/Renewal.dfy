/** Exactly when a renewal keeps exclusion.

    A worker's heartbeat, and the claim that begins with one, renew the worker's lease without
    looking at its locks, so a late one can bring back an execution whose hosts have been
    taken over. A shell heartbeat likewise moves the session lease before it looks at the
    lock, but reports the loss. */
module Renewal {
  import opened Common
  import opened Rows
  import opened Protocol
  import opened Consistency
  import opened Exclusion
  import opened LeaseExclusion
  import Lifecycle

  /** Nobody else holds an unexpired lock on a host of `these`, and no two of them share one. */
  predicate Apart(s: State, these: set<Holder>) {
    && (forall e, h | e in these && h in Hosts(s.db, e) && h in s.db.locks && s.db.locks[h].expires > s.clock ::
          s.db.locks[h].holder in these)
    && (forall e, f | e in these && f in these && e != f :: Hosts(s.db, e) !! Hosts(s.db, f))
  }

  lemma LiveHolderLocks(s: State, e: Holder, h: HostId)
    requires Guarded(s) && Live(s, e) && h in Hosts(s.db, e)
    ensures h in s.db.locks && s.db.locks[h].holder == e && s.db.locks[h].expires > s.clock
  {
  }

  /** If a step of a guarded system brings `these` to life, or lets them die, and leaves the other
      executions as they are, exclusion survives exactly when they died or are apart. */
  lemma RenewedExclusiveIff(s: State, these: set<Holder>, live: Holder -> bool, renewed: bool)
    requires Guarded(s) && forall e :: live(e) <==> if e in these then renewed else Live(s, e)
    ensures (forall e, f :: live(e) && live(f) && e != f ==> Hosts(s.db, e) !! Hosts(s.db, f)) <==>
            !renewed || Apart(s, these)
  {
    hide Guarded, Live, Hosts;
    var exclusive := forall e, f :: live(e) && live(f) && e != f ==> Hosts(s.db, e) !! Hosts(s.db, f);
    if exclusive && renewed {
      forall e, h | e in these && h in Hosts(s.db, e) && h in s.db.locks && s.db.locks[h].expires > s.clock
        ensures s.db.locks[h].holder in these
      {
        GuardedShells(s);
        LockHolderLive(s, h);
      }
    }
    if !renewed || Apart(s, these) {
      forall e, f | live(e) && live(f) && e != f ensures Hosts(s.db, e) !! Hosts(s.db, f) {
        forall h | h in Hosts(s.db, e) && h in Hosts(s.db, f) ensures false {
          if e !in these {
            LiveHolderLocks(s, e, h);
          }
          if f !in these {
            LiveHolderLocks(s, f, h);
          }
        }
      }
    }
  }

  // ---------------------------------------------------------------- workers

  /** The executions a worker's renewal brings back: its active runs, and the run it claims. */
  function Renewed(db: Database, worker: Owner, claimed: Option<RunId>): set<Holder> {
    (set r | r in RunsOf(db, worker) :: ByRun(r)) + if claimed.Some? then {ByRun(claimed.value)} else {}
  }

  lemma HeartbeatLive(s: State, worker: Owner, busy: Option<RunId>, now: Time, expires: Time, e: Holder)
    ensures var s' := s.(db := HeartbeatRows(s.db, worker, busy, now, expires));
      && Hosts(s'.db, e) == Hosts(s.db, e)
      && (Live(s', e) <==> if e in Renewed(s.db, worker, None) then expires > s.clock else Live(s, e))
  {
  }

  /** A heartbeat keeps exclusion exactly when it read the clock so early that the new lease is
      over already, or nobody else has taken over a host of the worker's runs. */
  lemma HeartbeatExclusiveIff(cfg: Config, s: State, worker: Owner, busy: Option<RunId>, now: Time)
    requires Guarded(s)
    ensures var s' := Next(cfg, s, Queue(WorkerHeartbeat(worker, busy), now));
      HostsExclusive(s') <==>
        now + cfg.workerLease <= s'.clock || Apart(s.(clock := s'.clock), Renewed(s.db, worker, None))
  {
    hide Guarded, Live, Hosts, HeartbeatRows, Apart, RunsOf;
    var s0, expires := s.(clock := Max(s.clock, now)), now + cfg.workerLease;
    var s' := Next(cfg, s, Queue(WorkerHeartbeat(worker, busy), now));
    ClockGuarded(s, s0.clock);
    forall e ensures Hosts(s'.db, e) == Hosts(s0.db, e) &&
      (Live(s', e) <==> if e in Renewed(s.db, worker, None) then expires > s0.clock else Live(s0, e))
    {
      HeartbeatLive(s0, worker, busy, now, expires, e);
    }
    RenewedExclusiveIff(s0, Renewed(s.db, worker, None), e => Live(s', e), expires > s0.clock);
  }

  lemma ClaimLive(s: State, worker: Owner, run: RunId, now: Time, expires: Time, e: Holder)
    requires ClaimRows(s.db, worker, Some(run), now, expires).Some?
    ensures var s' := s.(db := ClaimRows(s.db, worker, Some(run), now, expires).value);
      && Hosts(s'.db, e) == Hosts(s.db, e)
      && (Live(s', e) <==> if e in Renewed(s.db, worker, Some(run)) then expires > s.clock else Live(s, e))
  {
    var heartbeat := HeartbeatRows(s.db, worker, None, now, expires);
    var claimed := ClaimSelected(heartbeat, worker, run, now, expires).value;
    HostsKept(s.db, ClaimRows(s.db, worker, Some(run), now, expires).value);
    hide HostsOf;
    assert claimed.runs == MarkClaimed(heartbeat, worker, run, now).runs;
  }

  lemma ClaimNext(cfg: Config, s: State, worker: Owner, candidate: Option<RunId>, now: Time)
    ensures var s' := Next(cfg, s, Queue(WorkerClaim(worker, candidate), now));
      var c := ClaimRows(s.db, worker, candidate, now, now + cfg.workerLease);
      s' == State(if c.Some? then c.value else s.db, Max(s.clock, now), s.acked)
  {
    hide ClaimRows;
  }

  lemma ClaimNothing(db: Database, worker: Owner, now: Time, expires: Time)
    ensures ClaimRows(db, worker, None, now, expires) == Some(HeartbeatRows(db, worker, None, now, expires))
  {
  }

  /** The same for a claim, which renews before it looks for a run: exclusion is kept exactly
      when the claim is refused, its lease is over already, or nobody else has a host of the
      worker's runs, the claimed one included. */
  lemma ClaimExclusiveIff(cfg: Config, s: State, worker: Owner, candidate: Option<RunId>, now: Time)
    requires cfg.Valid() && Guarded(s)
    ensures var s' := Next(cfg, s, Queue(WorkerClaim(worker, candidate), now));
      HostsExclusive(s') <==>
        || Lifecycle.Refused(s.db, worker, candidate, now)
        || now + cfg.workerLease <= s'.clock
        || Apart(s.(clock := s'.clock), Renewed(s.db, worker, candidate))
  {
    hide Guarded, Live, Hosts, ClaimRows, HeartbeatRows, Apart, Renewed, Lifecycle.Refused, Next;
    Lifecycle.RefusedIff(s.db, worker, candidate, now, now + cfg.workerLease);
    ClaimNext(cfg, s, worker, candidate, now);
    var s0, expires := s.(clock := Max(s.clock, now)), now + cfg.workerLease;
    var s' := Next(cfg, s, Queue(WorkerClaim(worker, candidate), now));
    ClockGuarded(s, s0.clock);
    if ClaimRows(s.db, worker, candidate, now, expires).None? {
      GuardedIsExclusive(s0);
    } else {
      forall e ensures Hosts(s'.db, e) == Hosts(s0.db, e) &&
        (Live(s', e) <==> if e in Renewed(s.db, worker, candidate) then expires > s0.clock else Live(s0, e))
      {
        if candidate.Some? {
          ClaimLive(s0, worker, candidate.value, now, expires, e);
        } else {
          ClaimNothing(s0.db, worker, now, expires);
          HeartbeatLive(s0, worker, None, now, expires, e);
        }
      }
      RenewedExclusiveIff(s0, Renewed(s.db, worker, candidate), e => Live(s', e), expires > s0.clock);
    }
  }

  // ---------------------------------------------------------------- shells

  /** Nobody else is on the session's host: no unexpired lock of another holder, and no other
      session with a live recorded lease. */
  predicate Alone(s: State, x: SessionId)
    requires x in s.db.sessions
  {
    var h := s.db.sessions[x].host;
    && (h in s.db.locks && s.db.locks[h].expires > s.clock ==> s.db.locks[h].holder == ByShell(x))
    && (forall y | y in s.db.sessions && y != x && s.db.sessions[y].host == h ::
          s.db.sessions[y].leaseExpires <= s.clock)
  }

  lemma ShellHeartbeatLive(cfg: Config, s: State, x: SessionId, owner: Owner, authorized: bool, now: Time, e: Holder)
    requires Refreshes(s.db, x, owner, authorized)
    ensures var s' := Next(cfg, s, Shell(ShellHeartbeat(x, owner, authorized), now));
      && s'.clock == Max(s.clock, now) && Hosts(s'.db, e) == Hosts(s.db, e)
      && (LeaseLive(s', e) <==>
            if e == ByShell(x) then now + cfg.shellLease > s'.clock else LeaseLive(s.(clock := s'.clock), e))
  {
    hide ShellLocks, RefreshedLocks;
  }

  lemma AloneIff(s: State, x: SessionId)
    requires Guarded(s) && x in s.db.sessions
    ensures Alone(s, x) <==> forall e | LeaseLive(s, e) && e != ByShell(x) :: s.db.sessions[x].host !in Hosts(s.db, e)
  {
    var h := s.db.sessions[x].host;
    if h in s.db.locks && s.db.locks[h].expires > s.clock {
      LockHolderLive(s, h);
      var e := s.db.locks[h].holder;
      assert LeaseLive(s, e) && h in Hosts(s.db, e);
    }
    forall y | y in s.db.sessions && s.db.sessions[y].host == h && s.db.sessions[y].leaseExpires > s.clock
      ensures LeaseLive(s, ByShell(y)) && h in Hosts(s.db, ByShell(y))
    {
    }
    if Alone(s, x) {
      forall e | LeaseLive(s, e) && e != ByShell(x) ensures h !in Hosts(s.db, e) {
        if e.ByRun? && h in Hosts(s.db, e) {
          LiveHolderLocks(s, e, h);
        }
      }
    }
  }

  /** A shell heartbeat that moves the recorded lease keeps exclusion by recorded leases exactly
      when the new lease is over already or the session is alone on its host, whether or not its
      own lock row is still there. */
  lemma ShellHeartbeatExclusiveIff(cfg: Config, s: State, x: SessionId, owner: Owner, authorized: bool, now: Time)
    requires Guarded(s) && LeasesExclusive(s) && Refreshes(s.db, x, owner, authorized)
    ensures var s' := Next(cfg, s, Shell(ShellHeartbeat(x, owner, authorized), now));
      LeasesExclusive(s') <==> now + cfg.shellLease <= s'.clock || Alone(s.(clock := s'.clock), x)
  {
    var s0 := s.(clock := Max(s.clock, now));
    var s' := Next(cfg, s, Shell(ShellHeartbeat(x, owner, authorized), now));
    ClockGuarded(s, s0.clock);
    AloneIff(s0, x);
    assert Hosts(s.db, ByShell(x)) == {s.db.sessions[x].host};
    forall e ensures Hosts(s'.db, e) == Hosts(s.db, e) && (LeaseLive(s0, e) ==> LeaseLive(s, e)) &&
      (LeaseLive(s', e) <==> if e == ByShell(x) then now + cfg.shellLease > s0.clock else LeaseLive(s0, e))
    {
      ShellHeartbeatLive(cfg, s, x, owner, authorized, now, e);
    }
    hide Guarded, LeaseLive, Hosts, Next, Alone;
    if LeasesExclusive(s') && now + cfg.shellLease > s0.clock {
      forall e | LeaseLive(s0, e) && e != ByShell(x) ensures s.db.sessions[x].host !in Hosts(s0.db, e) {
        assert LeaseLive(s', e) && LeaseLive(s', ByShell(x));
      }
    }
    if now + cfg.shellLease <= s0.clock || Alone(s0, x) {
      forall e, f | LeaseLive(s', e) && LeaseLive(s', f) && e != f ensures Hosts(s'.db, e) !! Hosts(s'.db, f) {
      }
    }
  }
}
