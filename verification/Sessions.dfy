/** The life of a Web Shell session over whole runs: who may claim it, and that a request to
    close it cannot be missed. */
module Sessions {
  import opened Common
  import opened Rows
  import opened Protocol
  import opened Consistency
  import opened Outcomes
  import Exclusion
  import Lifecycle

  function Rank(state: ShellState): nat {
    match state
    case ShellPending => 0
    case ShellActive => 1
    case ShellCloseRequested => 2
  }

  /** What may become of a session row: it stays with its host, user, login and ticket, its state
      only moves forward, and an owner is never replaced. */
  predicate Forward(a: SessionRow, b: SessionRow) {
    && b.host == a.host && b.actor == a.actor && b.auth == a.auth && b.instance == a.instance
    && b.ticketExpires == a.ticketExpires
    && Rank(a.state) <= Rank(b.state)
    && (a.owner.Some? ==> b.owner == a.owner)
  }

  /** A lock held for a pending session lasts as long as its ticket. */
  predicate TicketLocks(db: Database) {
    forall h | h in db.locks && db.locks[h].holder.ByShell? && db.locks[h].holder.session in db.sessions &&
               db.sessions[db.locks[h].holder.session].state == ShellPending ::
      db.locks[h].expires == db.sessions[db.locks[h].holder.session].ticketExpires
  }

  predicate Creates(step: Step, x: SessionId) {
    step.Shell? && step.shell.CreateShell? && step.shell.session == x
  }

  /** The row a session is created with. */
  function FirstRow(cfg: Config, step: Step): SessionRow
    requires step.Shell? && step.shell.CreateShell?
  {
    var ticket := step.now + cfg.shellTicket;
    var create := step.shell;
    SessionRow(create.host, create.actor, create.auth, ShellPending, create.instance, None, ticket, ticket)
  }

  lemma ShellStepSessions(cfg: Config, db: Database, step: ShellStep, now: Time)
    requires Consistent(db) && TicketLocks(db) && (step.CreateShell? ==> step.session !in db.sessions)
    ensures var c := ShellRows(cfg, db, step, now);
      c.Some? ==>
        && TicketLocks(c.value)
        && (forall x | x in db.sessions && x in c.value.sessions :: Forward(db.sessions[x], c.value.sessions[x]))
        && (forall x | x in c.value.sessions && x !in db.sessions ::
              Creates(Shell(step, now), x) && c.value.sessions[x] == FirstRow(cfg, Shell(step, now)))
  {
    hide Consistent, CreateShellRows, ClaimShellRows, ShellHeartbeatRows, CloseShellRows, FinishShellRows, CleanupRows,
      Over;
    match step
    case CreateShell(x, host, actor, auth, instance, admissible) => CreatedSessions(cfg, db, step, now);
    case ClaimShell(x, actor, auth, owner, authorized, launchable) =>
      ClaimShellOutcome(db, x, actor, auth, owner, authorized, launchable, now, now + cfg.shellLease);
      ClaimedLocks(db, x);
    case ShellHeartbeat(x, owner, authorized) =>
      HeartbeatSessions(db, x, owner, authorized, now + cfg.shellLease);
    case CloseShell(x, actor) => CloseShellOutcome(db, x, actor);
    case FinishShell(x, owner) => FinishShellOutcome(db, x, owner);
    case RecoverShells => CleanupOutcome(db, now);
  }

  lemma CreatedSessions(cfg: Config, db: Database, step: ShellStep, now: Time)
    requires Consistent(db) && TicketLocks(db) && step.CreateShell? && step.session !in db.sessions
    ensures var c := ShellRows(cfg, db, step, now);
      c.Some? ==>
        && TicketLocks(c.value)
        && (forall x | x in db.sessions && x in c.value.sessions :: c.value.sessions[x] == db.sessions[x])
        && (forall x | x in c.value.sessions && x !in db.sessions ::
              x == step.session && c.value.sessions[x] == FirstRow(cfg, Shell(step, now)))
  {
    hide Consistent, CreateShellRows, CleanupRows, Over, Busy, Current;
    CreateShellOutcome(
      db, step.session, step.host, step.actor, step.auth, step.instance, cfg.maxSessions, step.admissible, now,
      now + cfg.shellTicket);
    CurrentAreLive(db, now);
    ClaimedLocks(db, step.session);
  }

  lemma HeartbeatSessions(db: Database, x: SessionId, owner: Owner, authorized: bool, expires: Time)
    requires Consistent(db) && TicketLocks(db)
    ensures var db' := ShellHeartbeatRows(db, x, owner, authorized, expires);
      && TicketLocks(db') && db'.sessions.Keys == db.sessions.Keys
      && (forall y | y in db.sessions :: Forward(db.sessions[y], db'.sessions[y]))
  {
    hide Consistent, ShellHeartbeatRows, Acknowledged;
    ShellHeartbeatOutcome(db, x, owner, authorized, expires);
    ClaimedLocks(db, x);
  }

  /** The one lock row a session can hold is that of its host. */
  lemma ClaimedLocks(db: Database, x: SessionId)
    requires Consistent(db)
    ensures forall h | h in db.locks && db.locks[h].holder == ByShell(x) :: x in db.sessions && db.sessions[x].host == h
    ensures x in db.sessions ==> (db.sessions[x].state == ShellPending <==> db.sessions[x].owner == None)
  {
  }

  lemma StepSessions(cfg: Config, s: State, step: Step)
    requires Consistent(s.db) && TicketLocks(s.db) && Legal(s.db, step)
    ensures var db' := Next(cfg, s, step).db;
      && TicketLocks(db')
      && (forall x | x in s.db.sessions && x in db'.sessions :: Forward(s.db.sessions[x], db'.sessions[x]))
      && (forall x | x in db'.sessions && x !in s.db.sessions ::
            Creates(step, x) && db'.sessions[x] == FirstRow(cfg, step))
  {
    match step
    case Queue(q, now) =>
      Exclusion.QueueKeepsShellLocks(cfg, s.db, q, now);
      hide QueueRows;
    case Shell(x, now) =>
      ShellStepSessions(cfg, s.db, x, now);
      hide ShellRows;
  }

  lemma {:induction false} RunTicketLocks(cfg: Config, s: State, steps: seq<Step>)
    requires Consistent(s.db) && TicketLocks(s.db) && LegalRun(cfg, s, steps)
    ensures TicketLocks(Run(cfg, s, steps).db)
    decreases |steps|
  {
    hide Consistent, TicketLocks;
    if steps != [] {
      StepConsistent(cfg, s, steps[0]);
      StepSessions(cfg, s, steps[0]);
      RunTicketLocks(cfg, Next(cfg, s, steps[0]), steps[1..]);
    }
  }

  // ---------------------------------------------------------------- who made a session

  /** Step `i` creates the session, which is there ever since. */
  ghost predicate MadeBy(cfg: Config, clock: Time, steps: seq<Step>, i: nat, x: SessionId) {
    && i < |steps| && Creates(steps[i], x)
    && (forall k | i < k <= |steps| :: x in Run(cfg, Start(clock), steps[..k]).db.sessions)
  }

  lemma RunSnoc(cfg: Config, clock: Time, steps: seq<Step>)
    requires steps != [] && LegalRun(cfg, Start(clock), steps)
    ensures var init, last := steps[..|steps| - 1], steps[|steps| - 1];
      var s := Run(cfg, Start(clock), init);
      && LegalRun(cfg, Start(clock), init) && Legal(s.db, last) && Run(cfg, Start(clock), steps) == Next(cfg, s, last)
      && Consistent(s.db) && TicketLocks(s.db)
  {
    var init, last := steps[..|steps| - 1], steps[|steps| - 1];
    assert steps == init + [last];
    Lifecycle.RunSplit(cfg, Start(clock), init, [last]);
    var s := Run(cfg, Start(clock), init);
    assert [last][1..] == [] && Run(cfg, s, [last]) == Run(cfg, Next(cfg, s, last), []);
    RunConsistent(cfg, Start(clock), init);
    RunTicketLocks(cfg, Start(clock), init);
  }

  /** Every session there is was made by some step. */
  lemma {:induction false} SessionHasMaker(cfg: Config, clock: Time, steps: seq<Step>, x: SessionId) returns (i: nat)
    requires LegalRun(cfg, Start(clock), steps) && x in Run(cfg, Start(clock), steps).db.sessions
    ensures MadeBy(cfg, clock, steps, i, x)
    decreases |steps|
  {
    hide Run, Next;
    assert steps != [] by { NothingAtStart(cfg, clock, x); }
    var init := steps[..|steps| - 1];
    RunSnoc(cfg, clock, steps);
    var s := Run(cfg, Start(clock), init);
    StepSessions(cfg, s, steps[|steps| - 1]);
    assert steps[..|steps|] == steps;
    if x in s.db.sessions {
      i := SessionHasMaker(cfg, clock, init, x);
      forall k | i < k <= |steps| ensures x in Run(cfg, Start(clock), steps[..k]).db.sessions {
        assert k < |steps| ==> steps[..k] == init[..k];
      }
    } else {
      i := |init|;
    }
  }

  lemma NothingAtStart(cfg: Config, clock: Time, x: SessionId)
    ensures x !in Run(cfg, Start(clock), []).db.sessions
  {
  }

  /** A session keeps the host, user, login and ticket of the request that made it. */
  lemma {:induction false} MakerKept(cfg: Config, clock: Time, steps: seq<Step>, i: nat, x: SessionId)
    requires LegalRun(cfg, Start(clock), steps) && MadeBy(cfg, clock, steps, i, x)
    ensures x in Run(cfg, Start(clock), steps).db.sessions
    ensures Forward(FirstRow(cfg, steps[i]), Run(cfg, Start(clock), steps).db.sessions[x])
    decreases |steps|
  {
    hide Run, Next;
    var init := steps[..|steps| - 1];
    RunSnoc(cfg, clock, steps);
    StepSessions(cfg, Run(cfg, Start(clock), init), steps[|steps| - 1]);
    assert steps[..|steps|] == steps;
    if i < |init| {
      forall k | i < k <= |init| ensures x in Run(cfg, Start(clock), init[..k]).db.sessions {
        assert steps[..k] == init[..k];
      }
      assert init[..|init|] == init;
      MakerKept(cfg, clock, init, i, x);
    }
  }

  // ---------------------------------------------------------------- who may claim it

  /** Over every run, a claim that reports a lease comes from the user and the login for which the
      session was requested. */
  lemma ClaimedByMaker(
    cfg: Config, clock: Time, steps: seq<Step>, x: SessionId, actor: UserId, auth: SessionId, owner: Owner,
    authorized: bool, launchable: bool, now: Time) returns (i: nat)
    requires LegalRun(cfg, Start(clock), steps)
    requires var claim := ClaimShell(x, actor, auth, owner, authorized, launchable);
             Report(cfg, Run(cfg, Start(clock), steps).db, claim, now).Some?
    ensures MadeBy(cfg, clock, steps, i, x) && steps[i].shell.actor == actor && steps[i].shell.auth == auth
    ensures now < steps[i].now + cfg.shellTicket && authorized && launchable
  {
    var db := Run(cfg, Start(clock), steps).db;
    RunConsistent(cfg, Start(clock), steps);
    ClaimShellOutcome(db, x, actor, auth, owner, authorized, launchable, now, now + cfg.shellLease);
    i := SessionHasMaker(cfg, clock, steps, x);
    MakerKept(cfg, clock, steps, i, x);
  }

  /** And conversely: while the ticket lasts, the session is pending and the host's lock row still
      names it, a claim by that user and login reports a lease. */
  lemma MakerClaims(cfg: Config, clock: Time, steps: seq<Step>, i: nat, x: SessionId, owner: Owner, now: Time)
    requires LegalRun(cfg, Start(clock), steps) && MadeBy(cfg, clock, steps, i, x)
    requires now < steps[i].now + cfg.shellTicket
    requires var db := Run(cfg, Start(clock), steps).db;
      && x in db.sessions && db.sessions[x].state == ShellPending
      && steps[i].shell.host in db.locks && db.locks[steps[i].shell.host].holder == ByShell(x)
    ensures var claim := ClaimShell(x, steps[i].shell.actor, steps[i].shell.auth, owner, true, true);
      Report(cfg, Run(cfg, Start(clock), steps).db, claim, now) == Some(now + cfg.shellLease)
  {
    var db, create := Run(cfg, Start(clock), steps).db, steps[i].shell;
    RunConsistent(cfg, Start(clock), steps);
    RunTicketLocks(cfg, Start(clock), steps);
    MakerKept(cfg, clock, steps, i, x);
    ClaimShellOutcome(db, x, create.actor, create.auth, owner, true, true, now, now + cfg.shellLease);
    hide ClaimShellRows, Run;
  }

  // ---------------------------------------------------------------- closing

  /** The session is there after each of the steps. */
  predicate Stays(cfg: Config, s: State, steps: seq<Step>, x: SessionId)
    decreases |steps|
  {
    x in s.db.sessions && (steps == [] || Stays(cfg, Next(cfg, s, steps[0]), steps[1..], x))
  }

  lemma {:induction false} RunSessionForward(cfg: Config, s: State, steps: seq<Step>, x: SessionId)
    requires Consistent(s.db) && TicketLocks(s.db) && LegalRun(cfg, s, steps) && Stays(cfg, s, steps, x)
    ensures x in Run(cfg, s, steps).db.sessions && Forward(s.db.sessions[x], Run(cfg, s, steps).db.sessions[x])
    decreases |steps|
  {
    hide Consistent, TicketLocks, Next;
    if steps != [] {
      StepConsistent(cfg, s, steps[0]);
      StepSessions(cfg, s, steps[0]);
      RunSessionForward(cfg, Next(cfg, s, steps[0]), steps[1..], x);
    }
  }

  /** Once its user has asked to close a session, no heartbeat is ever acknowledged again, by
      whomever and however the login stands, and nobody can claim it. */
  lemma CloseIsSeen(
    cfg: Config, clock: Time, before: seq<Step>, after: seq<Step>, x: SessionId, owner: Owner, authorized: bool)
    requires LegalRun(cfg, Start(clock), before) && LegalRun(cfg, Run(cfg, Start(clock), before), after)
    requires Stays(cfg, Run(cfg, Start(clock), before), after, x)
    requires Run(cfg, Start(clock), before).db.sessions[x].state == ShellCloseRequested
    ensures var db := Run(cfg, Run(cfg, Start(clock), before), after).db;
      && x in db.sessions && db.sessions[x].state == ShellCloseRequested
      && !Acknowledged(db, x, owner, authorized)
      && (forall expires :: ShellHeartbeatRows(db, x, owner, authorized, expires) == db)
      && (forall actor, auth, launchable, now, expires ::
            ClaimShellRows(db, x, actor, auth, owner, authorized, launchable, now, expires).None?)
  {
    var s := Run(cfg, Start(clock), before);
    RunConsistent(cfg, Start(clock), before);
    RunTicketLocks(cfg, Start(clock), before);
    RunSessionForward(cfg, s, after, x);
  }
}
