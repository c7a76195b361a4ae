/** Schedules that break exclusion: a worker and a shell that renew after their host has been
    taken over, and a worker that renews after its host was taken over and given back. */
module LateSchedules {
  import opened Common
  import opened Rows
  import opened Protocol
  import opened Consistency
  import opened Exclusion
  import opened LeaseExclusion
  import opened Takeover
  import opened Renewal
  import opened Lasting

  // ---------------------------------------------------------------- a late worker

  const CONFIG := Config(30, 30, 30, 5)

  /** Worker "a" claims run 1 on host 7, stays silent past its lease, worker "b" takes the
      host over for run 2, and "a" heartbeats again. */
  const WORKER_STEPS: seq<Step> := [
    Queue(CreateRun(1, map[11 := 7]), 0),
    Queue(CreateRun(2, map[12 := 7]), 0),
    Queue(WorkerClaim("a", Some(1)), 0),
    Queue(WorkerClaim("b", Some(2)), 40),
    Queue(WorkerHeartbeat("a", Some(1)), 41)]

  function TwoRuns(one: RunRow, two: RunRow, leases: map<Owner, LeaseRow>, locks: map<HostId, LockRow>): Database {
    Database(
      map[1 := one, 2 := two],
      map[11 := TargetRow(1, 7, TargetPending, None), 12 := TargetRow(2, 7, TargetPending, None)],
      leases, locks, map[])
  }

  const WAITING := RunRow(Queued, 0, None, None, None, None)
  const BOTH_QUEUED := State(TwoRuns(WAITING, WAITING, map[], map[]), 0, map[])
  const FIRST_CLAIMED := State(
    TwoRuns(RunRow(Preparing, 0, Some("a"), Some(0), None, None), WAITING,
            map["a" := LeaseRow(Some(1), 0, 30)], map[7 := LockRow(ByRun(1), "a", 0, 30)]), 0, map[])
  const TAKEN_OVER := State(
    TwoRuns(RunRow(Preparing, 0, Some("a"), Some(0), None, None), RunRow(Preparing, 0, Some("b"), Some(40), None, None),
            map["a" := LeaseRow(Some(1), 0, 30), "b" := LeaseRow(Some(2), 40, 70)],
            map[7 := LockRow(ByRun(2), "b", 40, 70)]),
    40, map[])

  lemma TwoRunsHosts(one: RunRow, two: RunRow, leases: map<Owner, LeaseRow>, locks: map<HostId, LockRow>)
    ensures var db := TwoRuns(one, two, leases, locks); HostsOf(db, 1) == {7} && HostsOf(db, 2) == {7}
  {
    var db := TwoRuns(one, two, leases, locks);
    assert db.targets[11] == TargetRow(1, 7, TargetPending, None) &&
      db.targets[12] == TargetRow(2, 7, TargetPending, None);
  }

  lemma FirstClaim()
    ensures Next(CONFIG, BOTH_QUEUED, WORKER_STEPS[2]) == FIRST_CLAIMED
  {
    hide HostsOf, ClaimRows;
    var db := BOTH_QUEUED.db;
    TwoRunsHosts(WAITING, WAITING, db.leases, db.locks);
    NewcomerClaims(db, "a", 1, 7, 0, 30);
    assert MarkClaimed(db, "a", 1, 0).runs == FIRST_CLAIMED.db.runs;
  }

  lemma SecondClaim()
    ensures Next(CONFIG, FIRST_CLAIMED, WORKER_STEPS[3]) == TAKEN_OVER
  {
    hide HostsOf, ClaimRows;
    var db := FIRST_CLAIMED.db;
    TwoRunsHosts(db.runs[1], WAITING, db.leases, db.locks);
    NewcomerClaims(db, "b", 2, 7, 40, 70);
    assert MarkClaimed(db, "b", 2, 40).runs == TAKEN_OVER.db.runs;
  }

  lemma TwoCreates()
    ensures Next(CONFIG, Next(CONFIG, Start(0), WORKER_STEPS[0]), WORKER_STEPS[1]) == BOTH_QUEUED
  {
  }

  lemma LateRun()
    ensures LegalRun(CONFIG, Start(0), WORKER_STEPS)
    ensures Run(CONFIG, Start(0), WORKER_STEPS) == Next(CONFIG, TAKEN_OVER, WORKER_STEPS[4])
  {
    hide Next;
    TwoCreates();
    FirstClaim();
    SecondClaim();
    Unroll5(CONFIG, Start(0), WORKER_STEPS);
    assert Legal(Next(CONFIG, Start(0), WORKER_STEPS[0]).db, WORKER_STEPS[1]) by { SecondCreateLegal(); }
  }

  lemma SecondCreateLegal()
    ensures Legal(Next(CONFIG, Start(0), WORKER_STEPS[0]).db, WORKER_STEPS[1])
  {
  }

  lemma Unroll5(cfg: Config, s: State, steps: seq<Step>)
    requires |steps| == 5
    ensures var s1 := Next(cfg, s, steps[0]);
            var s2 := Next(cfg, s1, steps[1]);
            var s3 := Next(cfg, s2, steps[2]);
            var s4 := Next(cfg, s3, steps[3]);
            && Run(cfg, s, steps) == Next(cfg, s4, steps[4])
            && (LegalRun(cfg, s, steps) <==>
                Legal(s.db, steps[0]) && Legal(s1.db, steps[1]) && Legal(s2.db, steps[2]) &&
                Legal(s3.db, steps[3]) && Legal(s4.db, steps[4]))
  {
    hide Next, Legal;
    var s1 := Next(cfg, s, steps[0]);
    var s2 := Next(cfg, s1, steps[1]);
    var s3 := Next(cfg, s2, steps[2]);
    var s4 := Next(cfg, s3, steps[3]);
    var s5 := Next(cfg, s4, steps[4]);
    assert steps[1..][1..] == steps[2..] && steps[2..][1..] == steps[3..] && steps[3..][1..] == steps[4..] &&
      steps[4..][1..] == [];
    assert Run(cfg, s1, steps[1..]) == Run(cfg, s2, steps[2..]) == Run(cfg, s3, steps[3..]);
    assert Run(cfg, s3, steps[3..]) == Run(cfg, s4, steps[4..]) == Run(cfg, s5, []) == s5;
    assert LegalRun(cfg, s4, steps[4..]) <==> Legal(s4.db, steps[4]);
    assert LegalRun(cfg, s3, steps[3..]) <==> Legal(s3.db, steps[3]) && LegalRun(cfg, s4, steps[4..]);
    assert LegalRun(cfg, s2, steps[2..]) <==> Legal(s2.db, steps[2]) && LegalRun(cfg, s3, steps[3..]);
    assert LegalRun(cfg, s1, steps[1..]) <==> Legal(s1.db, steps[1]) && LegalRun(cfg, s2, steps[2..]);
  }

  /** Without the assumption exclusion is lost: two live runs on host 7. */
  lemma LateHeartbeatSharesHost()
    ensures LegalRun(CONFIG, Start(0), WORKER_STEPS)
    ensures !HostsExclusive(Run(CONFIG, Start(0), WORKER_STEPS))
  {
    hide Run, LegalRun, HostsOf;
    LateRun();
    var s := Run(CONFIG, Start(0), WORKER_STEPS);
    assert s.db == HeartbeatRows(TAKEN_OVER.db, "a", Some(1), 41, 71) && s.clock == 41;
    TwoRunsHosts(TAKEN_OVER.db.runs[1], TAKEN_OVER.db.runs[2], s.db.leases, s.db.locks);
    assert s.db == TwoRuns(TAKEN_OVER.db.runs[1], TAKEN_OVER.db.runs[2], s.db.leases, s.db.locks);
    assert 7 in Hosts(s.db, ByRun(1)) && 7 in Hosts(s.db, ByRun(2));
    assert Live(s, ByRun(1)) && Live(s, ByRun(2));
  }

  // ---------------------------------------------------------------- a late shell

  /** A shell is opened on host 7 and stays silent past its lease, worker "a" takes the host
      over for run 1, and the shell heartbeats again. */
  const SHELL_STEPS: seq<Step> := [
    Shell(CreateShell(1, 7, 1, 1, "i", true), 0),
    Shell(ClaimShell(1, 1, 1, "o", true, true), 1),
    Queue(CreateRun(1, map[11 := 7]), 2),
    Queue(WorkerClaim("a", Some(1)), 40),
    Shell(ShellHeartbeat(1, "o", true), 41)]

  const OPEN_SHELL := SessionRow(7, 1, 1, ShellActive, "i", Some("o"), 30, 31)
  const REQUESTED := State(
    Database(map[], map[], map[], map[7 := LockRow(ByShell(1), "pending:i", 0, 30)],
             map[1 := SessionRow(7, 1, 1, ShellPending, "i", None, 30, 30)]),
    0, map[1 := 30])
  const OPENED := State(
    Database(map[], map[], map[], map[7 := LockRow(ByShell(1), "o", 0, 31)], map[1 := OPEN_SHELL]), 1, map[1 := 31])

  function OneRun(run: RunRow, leases: map<Owner, LeaseRow>, locks: map<HostId, LockRow>): Database {
    Database(map[1 := run], map[11 := TargetRow(1, 7, TargetPending, None)], leases, locks, map[1 := OPEN_SHELL])
  }

  const RUN_QUEUED := State(OneRun(RunRow(Queued, 2, None, None, None, None), map[], OPENED.db.locks), 2, map[1 := 31])
  const TAKEN := State(
    OneRun(RunRow(Preparing, 2, Some("a"), Some(40), None, None), map["a" := LeaseRow(Some(1), 40, 70)],
           map[7 := LockRow(ByRun(1), "a", 40, 70)]),
    40, map[1 := 31])

  lemma OneRunHosts(run: RunRow, leases: map<Owner, LeaseRow>, locks: map<HostId, LockRow>)
    ensures HostsOf(OneRun(run, leases, locks), 1) == {7}
  {
    assert OneRun(run, leases, locks).targets[11] == TargetRow(1, 7, TargetPending, None);
  }

  lemma ShellRequested()
    ensures Next(CONFIG, Start(0), SHELL_STEPS[0]) == REQUESTED
  {
    var clean := CleanupRows(EMPTY_DATABASE, 0);
    assert clean == EMPTY_DATABASE && LiveSessions(clean, 0) == {};
    assert "pending:" + "i" == "pending:i";
    assert CreateShellRows(EMPTY_DATABASE, 1, 7, 1, 1, "i", 5, true, 0, 30) == Some(REQUESTED.db);
  }

  lemma ShellOpened()
    ensures Next(CONFIG, REQUESTED, SHELL_STEPS[1]) == OPENED
  {
    assert ShellLocks(REQUESTED.db, 1) == {7};
    assert (set h | h in ShellLocks(REQUESTED.db, 1) && REQUESTED.db.locks[h].expires > 1) == {7};
  }

  lemma RunQueued()
    ensures Next(CONFIG, OPENED, SHELL_STEPS[2]) == RUN_QUEUED
  {
  }

  lemma HostTaken()
    ensures Next(CONFIG, RUN_QUEUED, SHELL_STEPS[3]) == TAKEN
  {
    hide HostsOf, ClaimRows;
    var db := RUN_QUEUED.db;
    OneRunHosts(db.runs[1], db.leases, db.locks);
    NewcomerClaims(db, "a", 1, 7, 40, 70);
    assert MarkClaimed(db, "a", 1, 40).runs == TAKEN.db.runs;
  }

  /** Without timely shells exclusion by recorded leases is lost: a live run and a live shell
      on host 7, although every worker renewed in time. */
  lemma LateShellSharesHost()
    ensures LegalRun(CONFIG, Start(0), SHELL_STEPS) && TimelyRun(CONFIG, Start(0), SHELL_STEPS)
    ensures !LeasesExclusive(Run(CONFIG, Start(0), SHELL_STEPS))
  {
    hide Next, HostsOf, Timely;
    ShellRequested();
    ShellOpened();
    RunQueued();
    HostTaken();
    Unroll5(CONFIG, Start(0), SHELL_STEPS);
    UnrollTimely5(CONFIG, Start(0), SHELL_STEPS);
    IdleIsTimely();
    var s := Run(CONFIG, Start(0), SHELL_STEPS);
    LastHeartbeat();
    OneRunHosts(TAKEN.db.runs[1], TAKEN.db.leases, TAKEN.db.locks);
    HostsKept(TAKEN.db, s.db);
    assert 7 in Hosts(s.db, ByRun(1)) && 7 in Hosts(s.db, ByShell(1));
    assert LeaseLive(s, ByRun(1)) && LeaseLive(s, ByShell(1));
  }

  lemma IdleIsTimely()
    ensures Timely(RUN_QUEUED, "a", 40)
  {
  }

  lemma LastHeartbeat()
    ensures var s := Next(CONFIG, TAKEN, SHELL_STEPS[4]);
      s.clock == 41 && s.db == TAKEN.db.(sessions := map[1 := OPEN_SHELL.(leaseExpires := 71)])
  {
    assert RefreshedLocks(TAKEN.db, 1, "o") == {};
  }

  lemma UnrollTimely5(cfg: Config, s: State, steps: seq<Step>)
    requires |steps| == 5
    ensures var s1 := Next(cfg, s, steps[0]);
            var s2 := Next(cfg, s1, steps[1]);
            var s3 := Next(cfg, s2, steps[2]);
            var s4 := Next(cfg, s3, steps[3]);
            TimelyRun(cfg, s, steps) <==>
              TimelyStep(s, steps[0]) && TimelyStep(s1, steps[1]) && TimelyStep(s2, steps[2]) &&
              TimelyStep(s3, steps[3]) && TimelyStep(s4, steps[4])
  {
    hide Next, TimelyStep;
    var s1 := Next(cfg, s, steps[0]);
    var s2 := Next(cfg, s1, steps[1]);
    var s3 := Next(cfg, s2, steps[2]);
    var s4 := Next(cfg, s3, steps[3]);
    assert steps[1..][1..] == steps[2..] && steps[2..][1..] == steps[3..] && steps[3..][1..] == steps[4..] &&
      steps[4..][1..] == [];
    assert TimelyRun(cfg, s4, steps[4..]) <==> TimelyStep(s4, steps[4]);
    assert TimelyRun(cfg, s3, steps[3..]) <==> TimelyStep(s3, steps[3]) && TimelyRun(cfg, s4, steps[4..]);
    assert TimelyRun(cfg, s2, steps[2..]) <==> TimelyStep(s2, steps[2]) && TimelyRun(cfg, s3, steps[3..]);
    assert TimelyRun(cfg, s1, steps[1..]) <==> TimelyStep(s1, steps[1]) && TimelyRun(cfg, s2, steps[2..]);
  }

  // ---------------------------------------------------------------- a host given back

  /** Worker "a" claims run 1 on host 7 and stays silent past its lease; a shell takes the host
      over and is closed before it is used, which frees the host; then "a" heartbeats again. */
  const FREED_STEPS: seq<Step> := [
    Queue(CreateRun(1, map[11 := 7]), 0),
    Queue(WorkerClaim("a", Some(1)), 0),
    Shell(CreateShell(1, 7, 1, 1, "i", true), 40),
    Shell(CloseShell(1, 1), 41),
    Queue(WorkerHeartbeat("a", Some(1)), 42)]

  function LoneRun(run: RunRow, leases: map<Owner, LeaseRow>, locks: map<HostId, LockRow>): Database {
    OneRun(run, leases, locks).(sessions := map[])
  }

  const LONE_QUEUED := State(LoneRun(WAITING, map[], map[]), 0, map[])
  const LONE_CLAIMED := State(
    LoneRun(RunRow(Preparing, 0, Some("a"), Some(0), None, None), map["a" := LeaseRow(Some(1), 0, 30)],
            map[7 := LockRow(ByRun(1), "a", 0, 30)]),
    0, map[])
  const LONE_LOST := State(
    LONE_CLAIMED.db.(
      locks := map[7 := LockRow(ByShell(1), "pending:i", 40, 70)],
      sessions := map[1 := SessionRow(7, 1, 1, ShellPending, "i", None, 70, 70)]),
    40, map[1 := 70])
  const FREED := State(LONE_CLAIMED.db.(locks := map[]), 41, map[1 := 70])

  lemma LoneRunClaimed()
    ensures Next(CONFIG, Start(0), FREED_STEPS[0]) == LONE_QUEUED
    ensures Next(CONFIG, LONE_QUEUED, FREED_STEPS[1]) == LONE_CLAIMED
  {
    hide HostsOf, ClaimRows;
    var db := LONE_QUEUED.db;
    OneRunHosts(WAITING, map[], map[]);
    SameTargetsHosts(OneRun(WAITING, map[], map[]), db);
    NewcomerClaims(db, "a", 1, 7, 0, 30);
    assert MarkClaimed(db, "a", 1, 0).runs == LONE_CLAIMED.db.runs;
  }

  lemma LoneRunLost()
    ensures Next(CONFIG, LONE_CLAIMED, FREED_STEPS[2]) == LONE_LOST
  {
    var clean := CleanupRows(LONE_CLAIMED.db, 40);
    assert clean == LONE_CLAIMED.db && LiveSessions(clean, 40) == {};
    assert "pending:" + "i" == "pending:i";
    var row := SessionRow(7, 1, 1, ShellPending, "i", None, 70, 70);
    assert clean.sessions[1 := row] == LONE_LOST.db.sessions;
    assert clean.locks[7 := LockRow(ByShell(1), "pending:i", 40, 70)] == LONE_LOST.db.locks;
    assert CreateShellRows(LONE_CLAIMED.db, 1, 7, 1, 1, "i", 5, true, 40, 70) == Some(LONE_LOST.db);
  }

  lemma HostFreed()
    ensures Next(CONFIG, LONE_LOST, FREED_STEPS[3]) == FREED
    ensures Guarded(FREED) && RunsOf(FREED.db, "a") == {1} && HostsOf(FREED.db, 1) == {7}
  {
    OneRunHosts(FREED.db.runs[1], FREED.db.leases, FREED.db.locks);
    SameTargetsHosts(OneRun(FREED.db.runs[1], FREED.db.leases, FREED.db.locks), FREED.db);
  }

  /** The heartbeat finds no lock of anyone else's and shares no host, and yet exclusion is lost
      for good: whoever asks for host 7 next gets it. */
  lemma FreedHostIsLost()
    ensures LegalRun(CONFIG, Start(0), FREED_STEPS)
    ensures HostsExclusive(Run(CONFIG, Start(0), FREED_STEPS))
    ensures !StaysExclusive(CONFIG, Run(CONFIG, Start(0), FREED_STEPS))
  {
    hide Next, HostsOf, Guarded, StaysExclusive, HostsExclusive, RunsOf;
    LoneRunClaimed();
    LoneRunLost();
    HostFreed();
    Unroll5(CONFIG, Start(0), FREED_STEPS);
    assert Next(CONFIG, FREED, FREED_STEPS[4]).clock == 42 by { NextClock(CONFIG, FREED, FREED_STEPS[4]); }
    HeartbeatExclusiveIff(CONFIG, FREED, "a", Some(1), 42);
    assert Renewed(FREED.db, "a", None) == {ByRun(1)};
    HeartbeatLastsIff(CONFIG, FREED, "a", Some(1), 42);
    assert !RenewalSafe(FREED.db, "a") by {
      assert 1 in RunsOf(FREED.db, "a") && 7 in HostsOf(FREED.db, 1);
    }
  }

  lemma NextClock(cfg: Config, s: State, step: Step)
    ensures Next(cfg, s, step).clock == Max(s.clock, step.now)
  {
  }
}
