/** How `execute_run` turns runner events into the outcomes it writes back. */
module Worker {
  import opened Common
  import opened Rows

  datatype RunnerEvent =
    | OnOk(host: string) | OnFailed(host: string) | OnUnreachable(host: string) | OnSkipped(host: string)
    | Unrelated

  function StatusOf(e: RunnerEvent): TargetStatus
    requires !e.Unrelated?
  {
    match e
    case OnOk(_) => TargetSucceeded
    case OnFailed(_) => TargetFailed
    case OnUnreachable(_) => TargetUnreachable
    case OnSkipped(_) => TargetSkipped
  }

  /** The last event about a host decides; before any, its accumulator says RUNNING. */
  function Observed(events: seq<RunnerEvent>, host: string): TargetStatus {
    if events == [] then TargetRunning
    else
      var last := events[|events| - 1];
      if !last.Unrelated? && last.host == host then StatusOf(last) else Observed(events[..|events| - 1], host)
  }

  function Settled(status: TargetStatus, canceled: bool, returnCode: Option<int>): TargetStatus {
    if canceled then TargetCanceled
    else if status.TargetRunning? then (if returnCode == Some(0) then TargetSucceeded else TargetFailed)
    else status
  }

  /** The status of a host is that of the last event about it, RUNNING if there is none. */
  lemma {:induction false} ObservedLast(events: seq<RunnerEvent>, host: string)
    ensures
      || (Observed(events, host) == TargetRunning && forall i | 0 <= i < |events| :: !About(events[i], host))
      || exists i :: LastAbout(events, host, i) && Tells(events[i], Observed(events, host))
  {
    if events != [] {
      var init, last := events[..|events| - 1], events[|events| - 1];
      ObservedLast(init, host);
      assert forall i | 0 <= i < |init| :: init[i] == events[i];
      if About(last, host) {
        assert LastAbout(events, host, |init|) && Tells(events[|init|], Observed(events, host));
      } else {
        assert Observed(events, host) == Observed(init, host);
        if i :| LastAbout(init, host, i) && Tells(init[i], Observed(init, host)) {
          assert LastAbout(events, host, i) && Tells(events[i], Observed(events, host));
        }
      }
    }
  }

  predicate About(e: RunnerEvent, host: string) {
    e == OnOk(host) || e == OnFailed(host) || e == OnUnreachable(host) || e == OnSkipped(host)
  }

  predicate LastAbout(events: seq<RunnerEvent>, host: string, i: int) {
    0 <= i < |events| && About(events[i], host) && forall j | i < j < |events| :: !About(events[j], host)
  }

  /** What an event tells of its host. */
  predicate Tells(e: RunnerEvent, status: TargetStatus) {
    && (e.OnOk? <==> status == TargetSucceeded) && (e.OnFailed? <==> status == TargetFailed)
    && (e.OnUnreachable? <==> status == TargetUnreachable) && (e.OnSkipped? <==> status == TargetSkipped)
  }

  /** A canceled run cancels every target; otherwise a host with an event keeps what it told, and one
      without succeeded exactly when the runner returned zero. */
  lemma SettledExact(status: TargetStatus, canceled: bool, returnCode: Option<int>)
    ensures var settled := Settled(status, canceled, returnCode);
      && (canceled ==> settled == TargetCanceled)
      && (!canceled && status != TargetRunning ==> settled == status)
      && (!canceled && status == TargetRunning ==>
            settled in {TargetStatus.TargetSucceeded, TargetStatus.TargetFailed} &&
            (settled == TargetSucceeded <==> returnCode == Some(0)))
      && (Good(settled) <==> settled in {TargetStatus.TargetSucceeded, TargetStatus.TargetSkipped})
  {
  }

  predicate Good(status: TargetStatus) {
    status.TargetSucceeded? || status.TargetSkipped?
  }

  function GoodCount(statuses: seq<TargetStatus>): nat {
    if statuses == [] then 0
    else GoodCount(statuses[..|statuses| - 1]) + if Good(statuses[|statuses| - 1]) then 1 else 0
  }

  lemma {:induction false} GoodCountBounds(statuses: seq<TargetStatus>)
    ensures GoodCount(statuses) <= |statuses|
    ensures GoodCount(statuses) == |statuses| <==> forall i | 0 <= i < |statuses| :: Good(statuses[i])
    ensures GoodCount(statuses) == 0 <==> forall i | 0 <= i < |statuses| :: !Good(statuses[i])
  {
    if statuses != [] {
      GoodCountBounds(statuses[..|statuses| - 1]);
    }
  }

  /** The closing loop of `execute_run`: every target ends settled, never PENDING or RUNNING,
      the counts are those of the settled statuses, and the run's result is terminal and says
      whether all, some or none of the targets did well. */
  method Conclude(events: seq<RunnerEvent>, hosts: seq<string>, canceled: bool, returnCode: Option<int>, timedOut: bool)
    returns (outcomes: seq<TargetStatus>, succeeded: nat, failed: nat, result: RunStatus)
    ensures |outcomes| == |hosts|
    ensures forall i | 0 <= i < |hosts| ::
      outcomes[i] == Settled(Observed(events, hosts[i]), canceled, returnCode) && !outcomes[i].Open()
    ensures succeeded == GoodCount(outcomes) && succeeded + failed == |hosts|
    ensures result.Terminal()
    ensures canceled ==> result == Canceled
    ensures !canceled && timedOut ==> result == TimedOut
    ensures !canceled && !timedOut ==>
      && result in {RunStatus.Succeeded, RunStatus.Partial, RunStatus.Failed}
      && (result == Succeeded <==> failed == 0 && (returnCode == Some(0) || returnCode == None))
      && (result == Partial <==> succeeded > 0 && failed > 0)
  {
    hide Observed, Settled;
    outcomes, succeeded, failed := [], 0, 0;
    for i := 0 to |hosts|
      invariant |outcomes| == i
      invariant forall k | 0 <= k < i ::
        outcomes[k] == Settled(Observed(events, hosts[k]), canceled, returnCode) && !outcomes[k].Open()
      invariant succeeded == GoodCount(outcomes) && succeeded + failed == i
    {
      SettledNotOpen(events, hosts[i], canceled, returnCode);
      var outcome := Settled(Observed(events, hosts[i]), canceled, returnCode);
      if Good(outcome) {
        succeeded := succeeded + 1;
      } else {
        failed := failed + 1;
      }
      assert (outcomes + [outcome])[..i] == outcomes;
      outcomes := outcomes + [outcome];
    }
    result :=
      if canceled then Canceled
      else if timedOut then TimedOut
      else if failed > 0 && succeeded > 0 then Partial
      else if failed > 0 || (returnCode.Some? && returnCode.value != 0) then Failed
      else Succeeded;
  }

  lemma SettledNotOpen(events: seq<RunnerEvent>, host: string, canceled: bool, returnCode: Option<int>)
    ensures !Settled(Observed(events, host), canceled, returnCode).Open()
  {
  }
}
