/** The rows of the queue, lease, lock and Web Shell tables, as the repositories see them.

    Identifiers are the UUID primary keys, taken as integers; times are integers on the
    clock that `utc_now` reads; owners are the worker and API-instance strings. */
module Rows {
  import opened Common

  type Time = int
  type HostId = int
  type RunId = int
  type TargetId = int
  type SessionId = int
  type UserId = int
  type Owner = string

  function Max(a: Time, b: Time): Time {
    if a < b then b else a
  }

  datatype RunStatus =
    | Queued | Preparing | Running
    | Succeeded | Partial | Failed | Canceled | TimedOut | Interrupted | Rejected
  {
    predicate Active() {
      Preparing? || Running?
    }

    predicate Terminal() {
      !Queued? && !Active()
    }

    /** How far along the life of a run a status is. */
    function Rank(): nat {
      if Queued? then 0 else if Preparing? then 1 else if Running? then 2 else 3
    }
  }

  datatype TargetStatus =
    | TargetPending | TargetRunning
    | TargetSucceeded | TargetFailed | TargetCanceled | TargetSkipped | TargetUnreachable | TargetInterrupted
  {
    predicate Open() {
      TargetPending? || TargetRunning?
    }
  }

  datatype RunRow = RunRow(
    status: RunStatus,
    createdAt: Time,
    claimedBy: Option<Owner>,
    claimedAt: Option<Time>,
    cancelRequestedAt: Option<Time>,
    finishedAt: Option<Time>)

  datatype TargetRow = TargetRow(run: RunId, host: HostId, status: TargetStatus, finishedAt: Option<Time>)

  datatype LeaseRow = LeaseRow(run: Option<RunId>, heartbeatAt: Time, expires: Time)

  /** A lock row carries exactly one of `run_id` and `web_shell_session_id`. */
  datatype Holder = ByRun(run: RunId) | ByShell(session: SessionId)

  datatype LockRow = LockRow(holder: Holder, owner: Owner, acquiredAt: Time, expires: Time)

  datatype ShellState = ShellPending | ShellActive | ShellCloseRequested

  datatype SessionRow = SessionRow(
    host: HostId,
    actor: UserId,
    auth: SessionId,
    state: ShellState,
    instance: Owner,
    owner: Option<Owner>,
    ticketExpires: Time,
    leaseExpires: Time)
  {
    /** The rows `cleanup_expired` deletes; `count_live` counts the others. */
    predicate Expired(now: Time) {
      if state.ShellPending? then ticketExpires <= now else leaseExpires <= now
    }

    /** The `owner_id` written to the host lock on behalf of this session. */
    function LockOwner(): Owner {
      match owner
      case Some(o) => o
      case None => "pending:" + instance
    }
  }

  /** One row per host in `locks`: `host_id` is the primary key. */
  datatype Database = Database(
    runs: map<RunId, RunRow>,
    targets: map<TargetId, TargetRow>,
    leases: map<Owner, LeaseRow>,
    locks: map<HostId, LockRow>,
    sessions: map<SessionId, SessionRow>)

  const EMPTY_DATABASE := Database(map[], map[], map[], map[], map[])

  function HostsOf(db: Database, run: RunId): set<HostId> {
    set t | t in db.targets && db.targets[t].run == run :: db.targets[t].host
  }
}
