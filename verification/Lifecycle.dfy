/** What the queue promises over whole runs: recovery is complete, a run only moves forward
    and is claimed once, a lost run cannot be finished, and sessions stay within capacity. */
module Lifecycle {
  import opened Common
  import opened Rows
  import opened Protocol
  import opened Consistency

  // ---------------------------------------------------------------- claiming

  /** Some queued run is eligible exactly when the candidate query returns a row. */
  lemma CandidateExists(db: Database, now: Time)
    ensures (exists r :: r in db.runs && IsCandidate(db, r, now)) <==>
      (exists r :: r in db.runs && Eligible(db, r, now))
  {
    if r :| r in db.runs && Eligible(db, r, now) {
      var oldest := OldestEligible(db, now, db.runs.Keys, r);
      assert IsCandidate(db, oldest, now);
    }
  }

  lemma {:induction false} OldestEligible(db: Database, now: Time, among: set<RunId>, r: RunId) returns (oldest: RunId)
    requires among <= db.runs.Keys && r in db.runs && Eligible(db, r, now)
    ensures oldest in db.runs && Eligible(db, oldest, now) && NotAfter(db, oldest, r)
    ensures forall q | q in among && Eligible(db, q, now) :: NotAfter(db, oldest, q)
    decreases among
  {
    oldest := r;
    if among != {} {
      var q := Pick(among);
      var best := if Eligible(db, q, now) && NotAfter(db, q, r) then q else r;
      oldest := OldestEligible(db, now, among - {q}, best);
    }
  }

  /** With no commit between the candidate query and the upsert, a claim never collides, and
      the worker ends up holding every host of the run until its lease expires. */
  lemma UndisturbedClaimSucceeds(db: Database, worker: Owner, run: RunId, now: Time, expires: Time)
    requires IsCandidate(HeartbeatRows(db, worker, None, now, expires), run, now)
    ensures var c := ClaimRows(db, worker, Some(run), now, expires);
            && c.Some? && Owns(c.value, worker, run) && c.value.leases[worker].expires == expires
            && forall h | h in HostsOf(c.value, run) ::
                  h in c.value.locks && c.value.locks[h] == LockRow(ByRun(run), worker, now, expires)
  {
  }

  /** A claim of a queued run rolls back exactly when a target host carries an unexpired lock
      once the worker's own locks are renewed. */
  lemma ClaimCollidesIff(db: Database, worker: Owner, run: RunId, now: Time, expires: Time)
    requires run in db.runs && db.runs[run].status.Queued? && now < expires
    ensures ClaimRows(db, worker, Some(run), now, expires).None? <==>
            exists h :: h in HostsOf(db, run) && h in db.locks &&
              (db.locks[h].expires > now || (db.locks[h].owner == worker && db.locks[h].holder.ByRun?))
  {
    var renewed := HeartbeatRows(db, worker, None, now, expires);
    HostsKept(db, renewed);
    forall h | h in HostsOf(db, run) && h in db.locks
      ensures Lockable(renewed.locks, h, now) <==>
              db.locks[h].expires <= now && !(db.locks[h].owner == worker && db.locks[h].holder.ByRun?)
    {
    }
  }

  /** The claim of `candidate` rolls back: it is no longer queued, or a host of it is under a lock
      that is unexpired or, the claim renewing first, the worker's own. */
  predicate Refused(db: Database, worker: Owner, candidate: Option<RunId>, now: Time) {
    candidate.Some? &&
    (!(candidate.value in db.runs && db.runs[candidate.value].status.Queued?) ||
     exists h :: h in HostsOf(db, candidate.value) && h in db.locks &&
       (db.locks[h].expires > now || (db.locks[h].owner == worker && db.locks[h].holder.ByRun?)))
  }

  lemma RefusedIff(db: Database, worker: Owner, candidate: Option<RunId>, now: Time, expires: Time)
    requires now < expires
    ensures ClaimRows(db, worker, candidate, now, expires).None? <==> Refused(db, worker, candidate, now)
  {
    if candidate.Some? && candidate.value in db.runs && db.runs[candidate.value].status.Queued? {
      ClaimCollidesIff(db, worker, candidate.value, now, expires);
    }
  }

  // ---------------------------------------------------------------- recovery

  /** The run is being executed for a worker whose lease has run out. */
  predicate Abandoned(db: Database, run: RunId, now: Time) {
    && run in db.runs && db.runs[run].status in {RunStatus.Preparing, RunStatus.Running}
    && db.runs[run].claimedBy.Some? && db.runs[run].claimedBy.value in db.leases
    && db.leases[db.runs[run].claimedBy.value].expires <= now
  }

  /** Recovery at `now` interrupts exactly the abandoned runs, closing exactly their unfinished
      targets; every other run and target keeps its row. No expired lease or lock is left and no
      unexpired one is lost, so no active run has an expired or missing lease. */
  lemma RecoveryComplete(db: Database, now: Time)
    requires Consistent(db)
    ensures var db' := RecoverRows(db, now);
      && db'.runs.Keys == db.runs.Keys && db'.targets.Keys == db.targets.Keys && db'.sessions == db.sessions
      && (forall r | r in db.runs ::
            if Abandoned(db, r, now)
            then db'.runs[r] == db.runs[r].(status := Interrupted, finishedAt := Some(now))
            else db'.runs[r] == db.runs[r])
      && (forall t | t in db.targets ::
            if Abandoned(db, db.targets[t].run, now) &&
               db.targets[t].status in {TargetStatus.TargetPending, TargetStatus.TargetRunning}
            then db'.targets[t] == db.targets[t].(status := TargetInterrupted, finishedAt := Some(now))
            else db'.targets[t] == db.targets[t])
      && (forall w :: w in db'.leases <==> w in db.leases && db.leases[w].expires > now)
      && (forall w | w in db'.leases :: db'.leases[w] == db.leases[w])
      && (forall h :: h in db'.locks <==> h in db.locks && db.locks[h].expires > now)
      && (forall h | h in db'.locks :: db'.locks[h] == db.locks[h])
      && (forall r | r in db'.runs && db'.runs[r].status.Active() ::
            && db'.runs[r].claimedBy.Some? && db'.runs[r].claimedBy.value in db'.leases
            && db'.leases[db'.runs[r].claimedBy.value].expires > now)
  {
    InterruptedIff(db, now);
    forall h | h in db.locks && db.locks[h].expires > now ensures h in RecoverRows(db, now).locks {
      if db.locks[h].holder.ByRun? {
        assert Owns(db, db.locks[h].owner, db.locks[h].holder.run);
      }
    }
  }

  function AbandonedRuns(db: Database, now: Time): set<RunId> {
    set r | r in db.runs && Abandoned(db, r, now)
  }

  /** The runs recovery counts are the abandoned ones. */
  lemma InterruptedIff(db: Database, now: Time)
    ensures InterruptedRuns(db, now) == AbandonedRuns(db, now)
  {
  }

  /** Recovery from every state the system can reach. */
  lemma ReachableRecovery(cfg: Config, clock: Time, steps: seq<Step>, now: Time)
    requires LegalRun(cfg, Start(clock), steps)
    ensures var db' := RecoverRows(Run(cfg, Start(clock), steps).db, now);
      && Consistent(db')
      && (forall r | r in db'.runs && db'.runs[r].status.Active() ::
            && db'.runs[r].claimedBy.Some? && db'.runs[r].claimedBy.value in db'.leases
            && db'.leases[db'.runs[r].claimedBy.value].expires > now)
      && (forall h | h in db'.locks :: db'.locks[h].expires > now)
      && (forall t | t in db'.targets && db'.runs[db'.targets[t].run].status.Terminal() ::
            !db'.targets[t].status.Open())
  {
    var db := Run(cfg, Start(clock), steps).db;
    RunConsistent(cfg, Start(clock), steps);
    RecoverConsistent(db, now);
    RecoveryComplete(db, now);
  }

  // ---------------------------------------------------------------- a run's life

  /** `later` is what a run row may become: the status only moves forward, a claim is never
      made twice or undone, and a terminal row keeps its status and finish time. */
  predicate Forward(earlier: RunRow, later: RunRow) {
    && earlier.createdAt == later.createdAt
    && earlier.status.Rank() <= later.status.Rank()
    && (earlier.status.Terminal() ==> later.status == earlier.status && later.finishedAt == earlier.finishedAt)
    && (earlier.claimedBy.Some? ==> later.claimedBy == earlier.claimedBy && later.claimedAt == earlier.claimedAt)
    && (earlier.claimedBy.None? && later.claimedBy.Some? ==> earlier.status.Queued? && !later.status.Queued?)
  }

  predicate AllForward(db: Database, db': Database) {
    forall r | r in db.runs :: r in db'.runs && Forward(db.runs[r], db'.runs[r])
  }

  lemma StepForward(cfg: Config, s: State, step: Step)
    requires Consistent(s.db) && Legal(s.db, step)
    ensures AllForward(s.db, Next(cfg, s, step).db)
  {
    match step
    case Shell(x, now) => ShellKeepsRuns(cfg, s.db, x, now);
    case Queue(q, now) => QueueForward(cfg, s.db, q, now);
  }

  lemma ShellKeepsRuns(cfg: Config, db: Database, step: ShellStep, now: Time)
    ensures var c := ShellRows(cfg, db, step, now); c.Some? ==> c.value.runs == db.runs
  {
  }

  lemma QueueForward(cfg: Config, db: Database, step: QueueStep, now: Time)
    requires RunsWellFormed(db) && LegalQueue(db, step)
    ensures var c := QueueRows(cfg, db, step, now); c.Some? ==> AllForward(db, c.value)
  {
    hide HostsOf, ClaimRows, CancelRows, FinishRows;
    match step
    case WorkerClaim(worker, candidate) => ClaimForward(db, worker, candidate, now, now + cfg.workerLease);
    case CancelRun(run) => CancelForward(db, run, now);
    case FinishRun(worker, run, result) => FinishForward(db, worker, run, result, now);
    case _ =>
  }

  lemma CancelForward(db: Database, run: RunId, now: Time)
    requires RunsWellFormed(db)
    ensures var c := CancelRows(db, run, now); c.Some? ==> AllForward(db, c.value)
  {
  }

  lemma FinishForward(db: Database, worker: Owner, run: RunId, result: RunStatus, now: Time)
    requires RunsWellFormed(db) && result.Terminal()
    ensures var c := FinishRows(db, worker, run, result, now); c.Some? ==> AllForward(db, c.value)
  {
  }

  lemma ClaimForward(db: Database, worker: Owner, candidate: Option<RunId>, now: Time, expires: Time)
    requires RunsWellFormed(db)
    ensures var c := ClaimRows(db, worker, candidate, now, expires); c.Some? ==> AllForward(db, c.value)
  {
  }

  lemma {:induction false} RunForward(cfg: Config, s: State, steps: seq<Step>)
    requires Consistent(s.db) && LegalRun(cfg, s, steps)
    ensures AllForward(s.db, Run(cfg, s, steps).db)
    decreases |steps|
  {
    hide Consistent;
    if steps != [] {
      var s' := Next(cfg, s, steps[0]);
      StepForward(cfg, s, steps[0]);
      StepConsistent(cfg, s, steps[0]);
      RunForward(cfg, s', steps[1..]);
      assert AllForward(s.db, s'.db) && AllForward(s'.db, Run(cfg, s', steps[1..]).db);
    }
  }

  lemma {:induction false} RunSplit(cfg: Config, s: State, before: seq<Step>, after: seq<Step>)
    ensures Run(cfg, s, before + after) == Run(cfg, Run(cfg, s, before), after)
    ensures LegalRun(cfg, s, before + after) ==> LegalRun(cfg, s, before) && LegalRun(cfg, Run(cfg, s, before), after)
    decreases |before|
  {
    if before == [] {
      assert before + after == after;
    } else {
      RunSplit(cfg, Next(cfg, s, before[0]), before[1..], after);
      assert (before + after)[1..] == before[1..] + after;
    }
  }

  /** Between any two moments of any run of the system, every run row only moves forward,
      and at the later moment a terminal run has no open target. */
  lemma LifecycleForward(cfg: Config, clock: Time, before: seq<Step>, after: seq<Step>)
    requires LegalRun(cfg, Start(clock), before + after)
    ensures var db, db' := Run(cfg, Start(clock), before).db, Run(cfg, Start(clock), before + after).db;
      && AllForward(db, db')
      && (forall t | t in db'.targets && db'.targets[t].run in db'.runs &&
            db'.runs[db'.targets[t].run].status.Terminal() ::
            !db'.targets[t].status.Open())
  {
    RunSplit(cfg, Start(clock), before, after);
    RunConsistent(cfg, Start(clock), before);
    RunConsistent(cfg, Start(clock), before + after);
    RunForward(cfg, Run(cfg, Start(clock), before), after);
  }

  /** A run canceled while it is queued is never claimed, whatever happens afterwards. */
  lemma CanceledBeforeClaimNeverRuns(
    cfg: Config, clock: Time, before: seq<Step>, run: RunId, now: Time, after: seq<Step>)
    requires LegalRun(cfg, Start(clock), (before + [Queue(CancelRun(run), now)]) + after)
    requires var db := Run(cfg, Start(clock), before).db; run in db.runs && db.runs[run].status.Queued?
    ensures var db := Run(cfg, Start(clock), (before + [Queue(CancelRun(run), now)]) + after).db;
      && run in db.runs && db.runs[run].status.Canceled? && db.runs[run].finishedAt == Some(now)
      && db.runs[run].claimedBy.None?
      && (forall t | t in db.targets && db.targets[t].run == run :: !db.targets[t].status.Open())
  {
    hide Consistent, AllForward;
    var cancel := [Queue(CancelRun(run), now)];
    LifecycleForward(cfg, clock, before + cancel, after);
    RunSplit(cfg, Start(clock), before + cancel, after);
    RunSplit(cfg, Start(clock), before, cancel);
    CancelClosesQueued(cfg, clock, before, run, now);
    AllForwardAt(Run(cfg, Start(clock), before + cancel).db, Run(cfg, Start(clock), (before + cancel) + after).db, run);
  }

  lemma AllForwardAt(db: Database, db': Database, run: RunId)
    requires AllForward(db, db') && run in db.runs
    ensures run in db'.runs && Forward(db.runs[run], db'.runs[run])
  {
  }

  lemma CancelClosesQueued(cfg: Config, clock: Time, before: seq<Step>, run: RunId, now: Time)
    requires LegalRun(cfg, Start(clock), before)
    requires var db := Run(cfg, Start(clock), before).db; run in db.runs && db.runs[run].status.Queued?
    ensures var db := Run(cfg, Run(cfg, Start(clock), before), [Queue(CancelRun(run), now)]).db;
      && run in db.runs && db.runs[run].status.Canceled? && db.runs[run].finishedAt == Some(now)
      && db.runs[run].claimedBy.None?
  {
    var s := Run(cfg, Start(clock), before);
    RunConsistent(cfg, Start(clock), before);
    var step := Queue(CancelRun(run), now);
    assert [step][1..] == [];
    assert Run(cfg, s, [step]) == Next(cfg, s, step);
  }

  /** The status an unfinished target of a finished run may get: it failed only if the run
      failed, timed out or was rejected. */
  predicate ClosedFor(result: RunStatus, target: TargetStatus) {
    && (target.TargetFailed? <==> result.Failed? || result.TimedOut? || result.Rejected?)
    && (target.TargetCanceled? <==> result.Canceled?)
    && (target.TargetInterrupted? <==> result.Interrupted?)
    && (target.TargetSkipped? <==> result.Succeeded? || result.Partial?)
  }

  /** The statements of `finish` close targets and delete locks before ownership is known;
      only the rollback keeps a worker that lost its run from doing harm. */
  lemma FinishCommitsIff(cfg: Config, s: State, worker: Owner, run: RunId, result: RunStatus, now: Time)
    requires result.Terminal()
    ensures var s' := Next(cfg, s, Queue(FinishRun(worker, run, result), now));
      var mine := run in s.db.runs && s.db.runs[run].claimedBy == Some(worker) &&
        s.db.runs[run].status in {RunStatus.Preparing, RunStatus.Running};
      && (s'.db != s.db <==> mine)
      && (mine ==>
            && s'.db.runs[run] == s.db.runs[run].(status := result, finishedAt := Some(now))
            && (forall w :: w in s'.db.leases <==> w in s.db.leases)
            && (forall w | w in s.db.leases ::
                  if w == worker && s.db.leases[w].run == Some(run)
                  then s'.db.leases[w] == s.db.leases[w].(run := None) else s'.db.leases[w] == s.db.leases[w])
            && s'.db.sessions == s.db.sessions
            && (forall h | h in s'.db.locks :: s'.db.locks[h].holder != ByRun(run))
            && (forall h | h in s.db.locks && s.db.locks[h].holder != ByRun(run) ::
                  h in s'.db.locks && s'.db.locks[h] == s.db.locks[h])
            && (forall r | r in s.db.runs && r != run :: r in s'.db.runs && s'.db.runs[r] == s.db.runs[r])
            && (forall t | t in s'.db.targets && s'.db.targets[t].run == run :: !s'.db.targets[t].status.Open())
            && (forall t | t in s.db.targets && s'.db.targets[t] != s.db.targets[t] ::
                  && s.db.targets[t].run == run && s.db.targets[t].status.Open()
                  && ClosedFor(result, s'.db.targets[t].status) && s'.db.targets[t].finishedAt == Some(now)
                  && s'.db.targets[t].run == run && s'.db.targets[t].host == s.db.targets[t].host))
  {
    var s' := Next(cfg, s, Queue(FinishRun(worker, run, result), now));
    if Owns(s.db, worker, run) {
      assert s'.db.runs[run].status != s.db.runs[run].status;
    }
  }

  // ---------------------------------------------------------------- shell capacity

  /** Cleanup and the live count partition the session rows. */
  lemma CleanupLeavesLive(db: Database, now: Time)
    ensures LiveSessions(CleanupRows(db, now), now) == CleanupRows(db, now).sessions.Keys == LiveSessions(db, now)
  {
  }

  lemma ShellCapacityStep(cfg: Config, s: State, step: Step)
    requires |s.db.sessions| <= cfg.maxSessions
    ensures |Next(cfg, s, step).db.sessions| <= cfg.maxSessions
  {
    var db' := Next(cfg, s, step).db;
    match step
    case Queue(q, now) => QueueKeepsSessions(cfg, s.db, q, now);
    case Shell(x, now) =>
      if x.CreateShell? {
        CreateWithinCapacity(cfg, s.db, x, now);
      } else {
        ShellOnlyDeletes(cfg, s.db, x, now);
        SubsetSize(db'.sessions.Keys, s.db.sessions.Keys);
      }
  }

  lemma CreateWithinCapacity(cfg: Config, db: Database, step: ShellStep, now: Time)
    requires step.CreateShell?
    ensures var c := ShellRows(cfg, db, step, now); c.Some? ==> |c.value.sessions| <= cfg.maxSessions
  {
    hide CleanupRows, LiveSessions, Lockable;
    CleanupLeavesLive(db, now);
    var clean := CleanupRows(db, now);
    var c := ShellRows(cfg, db, step, now);
    if c.Some? {
      assert |clean.sessions.Keys| < cfg.maxSessions;
      assert c.value.sessions.Keys == clean.sessions.Keys + {step.session};
      assert |c.value.sessions| == |c.value.sessions.Keys|;
    }
  }

  lemma ShellOnlyDeletes(cfg: Config, db: Database, step: ShellStep, now: Time)
    requires !step.CreateShell?
    ensures var c := ShellRows(cfg, db, step, now); c.Some? ==> c.value.sessions.Keys <= db.sessions.Keys
  {
  }

  lemma QueueKeepsSessions(cfg: Config, db: Database, step: QueueStep, now: Time)
    ensures var c := QueueRows(cfg, db, step, now); c.Some? ==> c.value.sessions == db.sessions
  {
  }

  lemma {:induction false} SubsetSize(a: set<SessionId>, b: set<SessionId>)
    requires a <= b
    ensures |a| <= |b|
    decreases b
  {
    if b != {} {
      var x := Pick(b);
      SubsetSize(a - {x}, b - {x});
    }
  }

  /** The number of session rows never exceeds the configured maximum, for arbitrary clock
      readings and with no assumption on the callers. */
  lemma {:induction false} ShellCapacity(cfg: Config, s: State, steps: seq<Step>)
    requires |s.db.sessions| <= cfg.maxSessions
    ensures |Run(cfg, s, steps).db.sessions| <= cfg.maxSessions
    decreases |steps|
  {
    if steps != [] {
      ShellCapacityStep(cfg, s, steps[0]);
      ShellCapacity(cfg, Next(cfg, s, steps[0]), steps[1..]);
    }
  }
}
