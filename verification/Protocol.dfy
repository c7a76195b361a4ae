/** The transactions of the run queue and of the Web Shell, as functions from the tables
    before to the tables after, and the runs of the system as sequences of such steps.

    A transaction commits whole or rolls back whole, so a rejected transaction is `None`
    (or leaves the tables as they were). */
module Protocol {
  import opened Common
  import opened Rows

  // ---------------------------------------------------------------- run queue

  /** `INSERT INTO runs` and `INSERT INTO run_targets` of `create_or_get`. */
  function CreateRunRows(db: Database, run: RunId, hosts: map<TargetId, HostId>, now: Time): Database {
    db.(runs := db.runs[run := RunRow(Queued, now, None, None, None, None)],
        targets := db.targets + map t | t in hosts :: TargetRow(run, hosts[t], TargetPending, None))
  }

  function CloseTarget(row: TargetRow, status: TargetStatus, now: Time): TargetRow {
    row.(status := status, finishedAt := Some(now))
  }

  function CancelRows(db: Database, run: RunId, now: Time): Option<Database> {
    if run !in db.runs || db.runs[run].status.Terminal() then None
    else if db.runs[run].status.Queued? then
      Some(db.(
        runs := db.runs[run := db.runs[run].(
          status := Canceled, cancelRequestedAt := Some(now), finishedAt := Some(now))],
        targets := map t | t in db.targets ::
          if db.targets[t].run == run && db.targets[t].status.TargetPending?
          then CloseTarget(db.targets[t], TargetCanceled, now) else db.targets[t]))
    else
      Some(db.(runs := db.runs[run := db.runs[run].(cancelRequestedAt := Some(now))]))
  }

  function RenewRunLocks(locks: map<HostId, LockRow>, worker: Owner, expires: Time): map<HostId, LockRow> {
    map h | h in locks ::
      if locks[h].owner == worker && locks[h].holder.ByRun? then locks[h].(expires := expires) else locks[h]
  }

  function HeartbeatRows(db: Database, worker: Owner, run: Option<RunId>, now: Time, expires: Time): Database {
    db.(leases := db.leases[worker := LeaseRow(run, now, expires)],
        locks := RenewRunLocks(db.locks, worker, expires))
  }

  predicate Lockable(locks: map<HostId, LockRow>, host: HostId, now: Time) {
    host !in locks || locks[host].expires <= now
  }

  /** A queued run none of whose target hosts carries an unexpired lock. */
  predicate Eligible(db: Database, run: RunId, now: Time) {
    run in db.runs && db.runs[run].status.Queued? && forall h | h in HostsOf(db, run) :: Lockable(db.locks, h, now)
  }

  predicate NotAfter(db: Database, a: RunId, b: RunId)
    requires a in db.runs && b in db.runs
  {
    db.runs[a].createdAt < db.runs[b].createdAt ||
    (db.runs[a].createdAt == db.runs[b].createdAt && a <= b)
  }

  /** The row the candidate query of `claim_next` returns: the oldest eligible run. */
  predicate IsCandidate(db: Database, run: RunId, now: Time) {
    Eligible(db, run, now) && forall r | r in db.runs && Eligible(db, r, now) :: NotAfter(db, run, r)
  }

  function MarkClaimed(db: Database, worker: Owner, run: RunId, now: Time): Database
    requires run in db.runs
  {
    db.(runs := db.runs[run := db.runs[run].(status := Preparing, claimedBy := Some(worker), claimedAt := Some(now))])
  }

  /** The lock upsert of `claim_next`: a row is taken when it is absent or expired. */
  function UpsertRunLocks(db: Database, worker: Owner, run: RunId, now: Time, expires: Time): Database {
    db.(locks := db.locks + map h | h in HostsOf(db, run) && Lockable(db.locks, h, now) ::
                              LockRow(ByRun(run), worker, now, expires))
  }

  /** `claim_next` once the candidate row is locked. Whether every target host can be
      locked is decided by the rows present now, which may be newer than the rows the
      candidate query saw; a host that cannot be locked is a collision and a rollback. */
  function ClaimSelected(db: Database, worker: Owner, run: RunId, now: Time, expires: Time): Option<Database> {
    if run !in db.runs || !db.runs[run].status.Queued? then None
    else if forall h | h in HostsOf(db, run) :: Lockable(db.locks, h, now) then
      Some(UpsertRunLocks(MarkClaimed(db, worker, run, now), worker, run, now, expires))
    else None
  }

  /** The transaction of `WorkerCoordinator.claim` around `claim_next`. */
  function ClaimRows(
    db: Database, worker: Owner, candidate: Option<RunId>, now: Time, expires: Time): Option<Database>
  {
    var renewed := HeartbeatRows(db, worker, None, now, expires);
    match candidate
    case None => Some(renewed)
    case Some(run) =>
      match ClaimSelected(renewed, worker, run, now, expires)
      case None => None
      case Some(claimed) => Some(HeartbeatRows(claimed, worker, Some(run), now, expires))
  }

  function StaleWorkers(db: Database, now: Time): set<Owner> {
    set w | w in db.leases && db.leases[w].expires <= now
  }

  function InterruptedRuns(db: Database, now: Time): set<RunId> {
    set r | r in db.runs && db.runs[r].status.Active() &&
            db.runs[r].claimedBy.Some? && db.runs[r].claimedBy.value in StaleWorkers(db, now)
  }

  function RecoverRows(db: Database, now: Time): Database {
    var gone := InterruptedRuns(db, now);
    Database(
      map r | r in db.runs ::
        if r in gone then db.runs[r].(status := Interrupted, finishedAt := Some(now)) else db.runs[r],
      map t | t in db.targets ::
        if db.targets[t].run in gone && db.targets[t].status.Open()
        then CloseTarget(db.targets[t], TargetInterrupted, now) else db.targets[t],
      db.leases - StaleWorkers(db, now),
      map h | h in db.locks && db.locks[h].expires > now &&
              !(db.locks[h].holder.ByRun? && db.locks[h].holder.run in gone) :: db.locks[h],
      db.sessions)
  }

  function MarkRunningRows(db: Database, run: RunId): Database {
    db.(runs := map r | r in db.runs ::
          if r == run && db.runs[r].status.Preparing? then db.runs[r].(status := Running) else db.runs[r],
        targets := map t | t in db.targets ::
          if db.targets[t].run == run && db.targets[t].status.TargetPending?
          then db.targets[t].(status := TargetRunning) else db.targets[t])
  }

  function FallbackStatus(status: RunStatus): TargetStatus {
    match status
    case Canceled => TargetCanceled
    case Interrupted => TargetInterrupted
    case Succeeded => TargetSkipped
    case Partial => TargetSkipped
    case _ => TargetFailed
  }

  /** The four statements of `finish`, in order, before the ownership answer is looked at. */
  function FinishStatements(db: Database, worker: Owner, run: RunId, status: RunStatus, now: Time): Database {
    Database(
      if Owns(db, worker, run)
      then db.runs[run := db.runs[run].(status := status, finishedAt := Some(now))] else db.runs,
      map t | t in db.targets ::
        if db.targets[t].run == run && db.targets[t].status.Open()
        then CloseTarget(db.targets[t], FallbackStatus(status), now) else db.targets[t],
      map w | w in db.leases ::
        if w == worker && db.leases[w].run == Some(run) then db.leases[w].(run := None) else db.leases[w],
      map h | h in db.locks && db.locks[h].holder != ByRun(run) :: db.locks[h],
      db.sessions)
  }

  predicate Owns(db: Database, worker: Owner, run: RunId) {
    run in db.runs && db.runs[run].claimedBy == Some(worker) && db.runs[run].status.Active()
  }

  /** `WorkerCoordinator.finish`: a worker that no longer owns the run makes it roll back. */
  function FinishRows(db: Database, worker: Owner, run: RunId, status: RunStatus, now: Time): Option<Database> {
    if Owns(db, worker, run) then Some(FinishStatements(db, worker, run, status, now)) else None
  }

  function FinishTargetRows(db: Database, target: TargetId, status: TargetStatus, now: Time): Database {
    if target !in db.targets then db
    else db.(targets := db.targets[target := CloseTarget(db.targets[target], status, now)])
  }

  // ---------------------------------------------------------------- Web Shell

  /** Deleting sessions: the foreign key of the lock row cascades. */
  function DeleteSessions(db: Database, gone: set<SessionId>): Database {
    db.(sessions := db.sessions - gone,
        locks := map h | h in db.locks &&
                         !(db.locks[h].holder.ByShell? && db.locks[h].holder.session in gone) :: db.locks[h])
  }

  function ExpiredSessions(db: Database, now: Time): set<SessionId> {
    set x | x in db.sessions && db.sessions[x].Expired(now)
  }

  function LiveSessions(db: Database, now: Time): set<SessionId> {
    set x | x in db.sessions && !db.sessions[x].Expired(now)
  }

  function CleanupRows(db: Database, now: Time): Database {
    DeleteSessions(db, ExpiredSessions(db, now))
  }

  /** `WebShellService.create`; `admissible` is the answer of the host and credential checks. */
  function CreateShellRows(
    db: Database, x: SessionId, host: HostId, actor: UserId, auth: SessionId, instance: Owner,
    capacity: nat, admissible: bool, now: Time, ticket: Time): Option<Database>
  {
    var clean := CleanupRows(db, now);
    if |LiveSessions(clean, now)| >= capacity || !admissible || !Lockable(clean.locks, host, now) then None
    else
      var row := SessionRow(host, actor, auth, ShellPending, instance, None, ticket, ticket);
      Some(clean.(sessions := clean.sessions[x := row],
                  locks := clean.locks[host := LockRow(ByShell(x), "pending:" + instance, now, ticket)]))
  }

  function ShellLocks(db: Database, x: SessionId): set<HostId> {
    set h | h in db.locks && db.locks[h].holder == ByShell(x)
  }

  predicate Claimable(db: Database, x: SessionId, actor: UserId, auth: SessionId, now: Time) {
    && x in db.sessions && db.sessions[x].actor == actor && db.sessions[x].auth == auth
    && db.sessions[x].state.ShellPending? && db.sessions[x].ticketExpires > now
  }

  /** `WebShellService.claim`; `authorized` answers for the login session, `launchable` for
      the credential revision and host keys read after activation. */
  function ClaimShellRows(
    db: Database, x: SessionId, actor: UserId, auth: SessionId, owner: Owner,
    authorized: bool, launchable: bool, now: Time, expires: Time): Option<Database>
  {
    var held := set h | h in ShellLocks(db, x) && db.locks[h].expires > now;
    if !Claimable(db, x, actor, auth, now) || !authorized || |held| != 1 || !launchable then None
    else
      Some(db.(
        sessions := db.sessions[x := db.sessions[x].(
          state := ShellActive, owner := Some(owner), leaseExpires := expires)],
        locks := map h | h in db.locks ::
          if h in held then db.locks[h].(owner := owner, expires := expires) else db.locks[h]))
  }

  predicate Refreshes(db: Database, x: SessionId, owner: Owner, authorized: bool) {
    x in db.sessions && db.sessions[x].owner == Some(owner) && db.sessions[x].state.ShellActive? && authorized
  }

  /** The lock rows the second half of the shell heartbeat refreshes. */
  function RefreshedLocks(db: Database, x: SessionId, owner: Owner): set<HostId> {
    set h | h in ShellLocks(db, x) && db.locks[h].owner == owner
  }

  /** The shell heartbeat statement. The session lease moves even when no lock row does. */
  function ShellHeartbeatRows(db: Database, x: SessionId, owner: Owner, authorized: bool, expires: Time): Database {
    if !Refreshes(db, x, owner, authorized) then db
    else
      db.(sessions := db.sessions[x := db.sessions[x].(leaseExpires := expires)],
          locks := map h | h in db.locks ::
            if h in RefreshedLocks(db, x, owner) then db.locks[h].(expires := expires) else db.locks[h])
  }

  /** True when the heartbeat gives the caller no reason to close. */
  predicate Acknowledged(db: Database, x: SessionId, owner: Owner, authorized: bool) {
    Refreshes(db, x, owner, authorized) && RefreshedLocks(db, x, owner) != {}
  }

  function CloseShellRows(db: Database, x: SessionId, actor: UserId): Database {
    if x !in db.sessions || db.sessions[x].actor != actor then db
    else if db.sessions[x].state.ShellPending? then DeleteSessions(db, {x})
    else if db.sessions[x].state.ShellActive? then
      db.(sessions := db.sessions[x := db.sessions[x].(state := ShellCloseRequested)])
    else db
  }

  function FinishShellRows(db: Database, x: SessionId, owner: Owner): Database {
    if x in db.sessions && db.sessions[x].owner == Some(owner) then DeleteSessions(db, {x}) else db
  }

  // ---------------------------------------------------------------- runs of the system

  /** The leases of settings.py and services/web_shell.py; a worker lease is at least five seconds. */
  datatype Config = Config(workerLease: Time, shellTicket: Time, shellLease: Time, maxSessions: nat) {
    predicate Valid() {
      workerLease > 0
    }
  }

  /** `clock` is the largest clock reading any transaction has used. `acked` remembers, for
      each session, the expiry last reported to its caller as held: by the ticket, by a
      successful claim, or by a heartbeat that gave no reason to close. */
  datatype State = State(db: Database, clock: Time, acked: map<SessionId, Time>)

  /** A transaction of RunService or WorkerCoordinator. */
  datatype QueueStep =
    | CreateRun(run: RunId, hosts: map<TargetId, HostId>)
    | CancelRun(run: RunId)
    | WorkerHeartbeat(worker: Owner, busy: Option<RunId>)
    | WorkerClaim(worker: Owner, candidate: Option<RunId>)
    | RecoverRuns
    | MarkRunning(worker: Owner, run: RunId)
    | FinishTarget(target: TargetId, outcome: TargetStatus)
    | FinishRun(worker: Owner, run: RunId, result: RunStatus)

  /** A transaction of WebShellService. */
  datatype ShellStep =
    | CreateShell(session: SessionId, host: HostId, actor: UserId, auth: SessionId, instance: Owner, admissible: bool)
    | ClaimShell(session: SessionId, actor: UserId, auth: SessionId, owner: Owner, authorized: bool, launchable: bool)
    | ShellHeartbeat(session: SessionId, owner: Owner, authorized: bool)
    | CloseShell(session: SessionId, actor: UserId)
    | FinishShell(session: SessionId, owner: Owner)
    | RecoverShells

  datatype Step = Queue(queue: QueueStep, now: Time) | Shell(shell: ShellStep, now: Time)

  /** What the callers in worker.py and the services guarantee: fresh UUIDs, one target row
      per host, final statuses, and `mark_running` only for a run the worker claimed. */
  predicate LegalQueue(db: Database, step: QueueStep) {
    match step
    case CreateRun(run, hosts) =>
      && run !in db.runs
      && hosts.Keys !! db.targets.Keys
      && (forall t, u :: t in hosts && u in hosts && t != u ==> hosts[t] != hosts[u])
    case MarkRunning(worker, run) => run in db.runs && db.runs[run].claimedBy == Some(worker)
    case FinishTarget(_, outcome) => !outcome.Open()
    case FinishRun(_, _, result) => result.Terminal()
    case _ => true
  }

  predicate Legal(db: Database, step: Step) {
    match step
    case Queue(q, _) => LegalQueue(db, q)
    case Shell(x, _) => x.CreateShell? ==> x.session !in db.sessions
  }

  function QueueRows(cfg: Config, db: Database, step: QueueStep, now: Time): Option<Database> {
    match step
    case CreateRun(run, hosts) => Some(CreateRunRows(db, run, hosts, now))
    case CancelRun(run) => CancelRows(db, run, now)
    case WorkerHeartbeat(worker, busy) => Some(HeartbeatRows(db, worker, busy, now, now + cfg.workerLease))
    case WorkerClaim(worker, candidate) => ClaimRows(db, worker, candidate, now, now + cfg.workerLease)
    case RecoverRuns => Some(RecoverRows(db, now))
    case MarkRunning(_, run) => Some(MarkRunningRows(db, run))
    case FinishTarget(target, outcome) => Some(FinishTargetRows(db, target, outcome, now))
    case FinishRun(worker, run, result) => FinishRows(db, worker, run, result, now)
  }

  function ShellRows(cfg: Config, db: Database, step: ShellStep, now: Time): Option<Database> {
    match step
    case CreateShell(x, host, actor, auth, instance, admissible) =>
      CreateShellRows(db, x, host, actor, auth, instance, cfg.maxSessions, admissible, now, now + cfg.shellTicket)
    case ClaimShell(x, actor, auth, owner, authorized, launchable) =>
      ClaimShellRows(db, x, actor, auth, owner, authorized, launchable, now, now + cfg.shellLease)
    case ShellHeartbeat(x, owner, authorized) =>
      Some(ShellHeartbeatRows(db, x, owner, authorized, now + cfg.shellLease))
    case CloseShell(x, actor) => Some(CloseShellRows(db, x, actor))
    case FinishShell(x, owner) => Some(FinishShellRows(db, x, owner))
    case RecoverShells => Some(CleanupRows(db, now))
  }

  /** The expiry a shell transaction reports to its caller as held, if it reports one. */
  function Report(cfg: Config, db: Database, step: ShellStep, now: Time): Option<Time> {
    match step
    case CreateShell(_, _, _, _, _, _) =>
      if ShellRows(cfg, db, step, now).Some? then Some(now + cfg.shellTicket) else None
    case ClaimShell(_, _, _, _, _, _) =>
      if ShellRows(cfg, db, step, now).Some? then Some(now + cfg.shellLease) else None
    case ShellHeartbeat(x, owner, authorized) =>
      if Acknowledged(db, x, owner, authorized) then Some(now + cfg.shellLease) else None
    case _ => None
  }

  function Effect(cfg: Config, db: Database, step: Step): Option<Database> {
    match step
    case Queue(q, now) => QueueRows(cfg, db, q, now)
    case Shell(x, now) => ShellRows(cfg, db, x, now)
  }

  function Next(cfg: Config, s: State, step: Step): State {
    var outcome := Effect(cfg, s.db, step);
    State(
      if outcome.Some? then outcome.value else s.db,
      Max(s.clock, step.now),
      if step.Shell? && Report(cfg, s.db, step.shell, step.now).Some?
      then s.acked[step.shell.session := Report(cfg, s.db, step.shell, step.now).value] else s.acked)
  }

  function Start(clock: Time): State {
    State(EMPTY_DATABASE, clock, map[])
  }

  function Run(cfg: Config, s: State, steps: seq<Step>): State
    decreases |steps|
  {
    if steps == [] then s else Run(cfg, Next(cfg, s, steps[0]), steps[1..])
  }

  predicate LegalRun(cfg: Config, s: State, steps: seq<Step>)
    decreases |steps|
  {
    steps == [] || (Legal(s.db, steps[0]) && LegalRun(cfg, Next(cfg, s, steps[0]), steps[1..]))
  }
}
