/** The fixed-window login limiter. Times are microseconds since the epoch. */
module RateLimit {
  const SECOND: int := 1_000_000

  /** `fixed_window`: the start of the aligned window of `seconds` seconds around `now`. */
  function WindowStart(now: int, seconds: int): int
    requires seconds > 0
  {
    var epoch := now / SECOND;
    (epoch - epoch % seconds) * SECOND
  }

  lemma WindowContains(now: int, seconds: int)
    requires seconds > 0
    ensures WindowStart(now, seconds) <= now < WindowStart(now, seconds) + seconds * SECOND
  {
  }

  /** A window is aligned: it is the window of each of its moments. */
  lemma WindowAligned(now: int, t: int, seconds: int)
    requires seconds > 0 && WindowStart(now, seconds) <= t < WindowStart(now, seconds) + seconds * SECOND
    ensures WindowStart(t, seconds) == WindowStart(now, seconds)
  {
    WindowContains(t, seconds);
    var e, f := now / SECOND, t / SECOND;
    var a, b := e / seconds, f / seconds;
    assert e - e % seconds == a * seconds && f - f % seconds == b * seconds;
    assert a * seconds * SECOND <= t < (a + 1) * seconds * SECOND;
    assert b * seconds * SECOND <= t < (b + 1) * seconds * SECOND;
    Between(a, b, seconds * SECOND, t);
  }

  lemma Between(a: int, b: int, width: int, t: int)
    requires width > 0 && a * width <= t < (a + 1) * width && b * width <= t < (b + 1) * width
    ensures a == b
  {
  }

  // ---------------------------------------------------------------- the counters

  datatype Bucket = Bucket(scope: string, subject: string, start: int)

  datatype Counter = Counter(count: nat, expires: int)

  type Counters = map<Bucket, Counter>

  const IP_SCOPE := "login:ip"
  const USERNAME_SCOPE := "login:username_ip"

  datatype Policy = Policy(limit: nat, seconds: int)

  datatype Step =
    | Attempt(client: string, now: int)
    | Purge(now: int)
    /** A successful login clears the username bucket of its attempt. */
    | Clear(subject: string, start: int, now: int)

  function IpBucket(p: Policy, client: string, now: int): Bucket
    requires p.seconds > 0
  {
    Bucket(IP_SCOPE, client, WindowStart(now, p.seconds))
  }

  /** `consume_rate_limit`: insert one, or add one. */
  function Consume(c: Counters, b: Bucket, expires: int): Counters {
    c[b := Counter((if b in c then c[b].count else 0) + 1, expires)]
  }

  function Apply(p: Policy, c: Counters, step: Step): Counters
    requires p.seconds > 0
  {
    match step
    case Attempt(client, now) =>
      var b := IpBucket(p, client, now);
      Consume(c, b, b.start + p.seconds * SECOND)
    case Purge(now) => map b | b in c && c[b].expires > now :: c[b]
    case Clear(subject, start, _) => c - {Bucket(USERNAME_SCOPE, subject, start)}
  }

  predicate Passes(p: Policy, c: Counters, step: Step)
    requires p.seconds > 0
  {
    step.Attempt? && Apply(p, c, step)[IpBucket(p, step.client, step.now)].count <= p.limit
  }

  // ---------------------------------------------------------------- counting over a run

  predicate InInterval(step: Step, client: string, lo: int, hi: int) {
    step.Attempt? && step.client == client && lo <= step.now < hi
  }

  function AttemptsIn(steps: seq<Step>, client: string, lo: int, hi: int): nat
    decreases |steps|
  {
    if steps == [] then 0
    else (if InInterval(steps[0], client, lo, hi) then 1 else 0) + AttemptsIn(steps[1..], client, lo, hi)
  }

  /** The attempts of a client that get through in [lo, hi). */
  function PassesIn(p: Policy, c: Counters, steps: seq<Step>, client: string, lo: int, hi: int): nat
    requires p.seconds > 0
    decreases |steps|
  {
    if steps == [] then 0
    else
      (if InInterval(steps[0], client, lo, hi) && Passes(p, c, steps[0]) then 1 else 0) +
      PassesIn(p, Apply(p, c, steps[0]), steps[1..], client, lo, hi)
  }

  predicate Ordered(steps: seq<Step>, clock: int)
    decreases |steps|
  {
    steps == [] || (clock <= steps[0].now && Ordered(steps[1..], steps[0].now))
  }

  function Min(a: nat, b: nat): nat {
    if a < b then a else b
  }

  function Used(c: Counters, b: Bucket): nat {
    if b in c then c[b].count else 0
  }

  /** Rows of the login:ip scope expire when their window ends. */
  predicate WellTimed(p: Policy, c: Counters) {
    forall b | b in c && b.scope == IP_SCOPE :: c[b].expires == b.start + p.seconds * SECOND
  }

  lemma ApplyWellTimed(p: Policy, c: Counters, step: Step)
    requires p.seconds > 0 && WellTimed(p, c)
    ensures WellTimed(p, Apply(p, c, step))
  {
  }

  lemma {:induction false} NoneBefore(
    p: Policy, c: Counters, steps: seq<Step>, client: string, lo: int, hi: int, clock: int)
    requires p.seconds > 0 && Ordered(steps, clock) && hi <= clock
    ensures PassesIn(p, c, steps, client, lo, hi) == 0 && AttemptsIn(steps, client, lo, hi) == 0
    decreases |steps|
  {
    if steps != [] {
      NoneBefore(p, Apply(p, c, steps[0]), steps[1..], client, lo, hi, steps[0].now);
    }
  }

  /** In an aligned window, what is left of the limit gets through and no more, whatever is
      purged or cleared in between. */
  lemma {:induction false} WindowPasses(p: Policy, c: Counters, steps: seq<Step>, client: string, lo: int, clock: int)
    requires p.seconds > 0 && WellTimed(p, c) && Ordered(steps, clock) && WindowStart(lo, p.seconds) == lo
    ensures var hi := lo + p.seconds * SECOND;
      var used := Min(p.limit, Used(c, Bucket(IP_SCOPE, client, lo)));
      PassesIn(p, c, steps, client, lo, hi) == Min(p.limit - used, AttemptsIn(steps, client, lo, hi))
    decreases |steps|
  {
    if steps != [] {
      var step, hi, b := steps[0], lo + p.seconds * SECOND, Bucket(IP_SCOPE, client, lo);
      ApplyWellTimed(p, c, step);
      WindowPasses(p, Apply(p, c, step), steps[1..], client, lo, step.now);
      if step.Attempt? {
        WindowContains(step.now, p.seconds);
        if lo <= step.now < hi {
          WindowAligned(lo, step.now, p.seconds);
        }
      } else if step.Purge? && b in c && c[b].expires <= step.now {
        NoneBefore(p, Apply(p, c, step), steps[1..], client, lo, hi, step.now);
      }
    }
  }

  /** From an empty table and with a clock that does not go back, exactly the first `limit`
      attempts of a client get through in an aligned window. */
  lemma WindowLimit(p: Policy, steps: seq<Step>, client: string, lo: int, clock: int)
    requires p.seconds > 0 && Ordered(steps, clock) && WindowStart(lo, p.seconds) == lo
    ensures var hi := lo + p.seconds * SECOND;
      PassesIn(p, map[], steps, client, lo, hi) == Min(p.limit, AttemptsIn(steps, client, lo, hi))
  {
    WindowPasses(p, map[], steps, client, lo, clock);
  }

  function ApplyAll(p: Policy, c: Counters, steps: seq<Step>): Counters
    requires p.seconds > 0
    decreases |steps|
  {
    if steps == [] then c else ApplyAll(p, Apply(p, c, steps[0]), steps[1..])
  }

  /** Until a window ends, its counter counts every attempt in it. */
  lemma {:induction false} UsedCounts(p: Policy, c: Counters, steps: seq<Step>, client: string, lo: int)
    requires p.seconds > 0 && WellTimed(p, c) && WindowStart(lo, p.seconds) == lo
    requires forall i | 0 <= i < |steps| :: steps[i].now < lo + p.seconds * SECOND
    ensures var b := Bucket(IP_SCOPE, client, lo);
      Used(ApplyAll(p, c, steps), b) == Used(c, b) + AttemptsIn(steps, client, lo, lo + p.seconds * SECOND)
    decreases |steps|
  {
    if steps != [] {
      var step := steps[0];
      ApplyWellTimed(p, c, step);
      UsedCounts(p, Apply(p, c, step), steps[1..], client, lo);
      if step.Attempt? {
        WindowContains(step.now, p.seconds);
        if lo <= step.now {
          WindowAligned(lo, step.now, p.seconds);
        }
      }
    }
  }

  lemma {:induction false} OrderedUpTo(steps: seq<Step>, clock: int, i: nat, j: nat)
    requires Ordered(steps, clock) && i <= j < |steps|
    ensures clock <= steps[i].now <= steps[j].now
    decreases |steps|
  {
    if i > 0 {
      OrderedUpTo(steps[1..], steps[0].now, i - 1, j - 1);
    } else if j > 0 {
      OrderedUpTo(steps[1..], steps[0].now, 0, j - 1);
    }
  }

  /** An attempt passes exactly when fewer than `limit` attempts of its client came before it in
      its window: the first `limit` pass and no others. */
  lemma AttemptPassesIff(p: Policy, steps: seq<Step>, i: nat, clock: int)
    requires p.seconds > 0 && Ordered(steps, clock) && i < |steps| && steps[i].Attempt?
    ensures var lo := WindowStart(steps[i].now, p.seconds);
      Passes(p, ApplyAll(p, map[], steps[..i]), steps[i]) <==>
        AttemptsIn(steps[..i], steps[i].client, lo, lo + p.seconds * SECOND) < p.limit
  {
    var lo := WindowStart(steps[i].now, p.seconds);
    WindowContains(steps[i].now, p.seconds);
    WindowAligned(steps[i].now, lo, p.seconds);
    forall j | 0 <= j < i ensures steps[..i][j].now < lo + p.seconds * SECOND {
      OrderedUpTo(steps, clock, j, i);
    }
    UsedCounts(p, map[], steps[..i], steps[i].client, lo);
  }

  lemma {:induction false} PassesSplit(
    p: Policy, c: Counters, steps: seq<Step>, client: string, lo: int, mid: int, hi: int)
    requires p.seconds > 0 && lo <= mid <= hi
    ensures PassesIn(p, c, steps, client, lo, hi) ==
            PassesIn(p, c, steps, client, lo, mid) + PassesIn(p, c, steps, client, mid, hi)
    decreases |steps|
  {
    if steps != [] {
      PassesSplit(p, Apply(p, c, steps[0]), steps[1..], client, lo, mid, hi);
    }
  }

  /** At most twice the limit gets through in any interval of one window's length. */
  lemma IntervalLimit(p: Policy, steps: seq<Step>, client: string, from: int, clock: int)
    requires p.seconds > 0 && Ordered(steps, clock)
    ensures PassesIn(p, map[], steps, client, from, from + p.seconds * SECOND) <= 2 * p.limit
  {
    var width := p.seconds * SECOND;
    var lo := WindowStart(from, p.seconds);
    var mid, hi := lo + width, lo + 2 * width;
    var to := from + width;
    WindowContains(from, p.seconds);
    WindowAligned(from, lo, p.seconds);
    NextWindow(lo, p.seconds);
    WindowLimit(p, steps, client, lo, clock);
    WindowLimit(p, steps, client, mid, clock);
    PassesSplit(p, map[], steps, client, from, mid, to);
    PassesSplit(p, map[], steps, client, lo, from, mid);
    PassesSplit(p, map[], steps, client, mid, to, hi);
  }

  lemma NextWindow(lo: int, seconds: int)
    requires seconds > 0 && WindowStart(lo, seconds) == lo
    ensures WindowStart(lo + seconds * SECOND, seconds) == lo + seconds * SECOND
  {
    var next := lo + seconds * SECOND;
    WindowContains(next, seconds);
    var k, m := (lo / SECOND) / seconds, (next / SECOND) / seconds;
    assert lo == k * seconds * SECOND;
    assert WindowStart(next, seconds) == m * seconds * SECOND;
    Between(k + 1, m, seconds * SECOND, next);
  }

  // ---------------------------------------------------------------- the table as it is updated

  class Limits {
    const policy: Policy
    var counters: Counters

    constructor (policy: Policy)
      ensures this.policy == policy && counters == map[]
    {
      this.policy := policy;
      counters := map[];
    }

    /** `_consume_rate_limit` for the login:ip scope; false is the rate-limit error, raised
        after the count has been committed. */
    method ConsumeLogin(client: string, now: int) returns (passed: bool)
      requires policy.seconds > 0
      modifies this
      ensures counters == Apply(policy, old(counters), Attempt(client, now))
      ensures passed == Passes(policy, old(counters), Attempt(client, now))
    {
      var bucket := IpBucket(policy, client, now);
      var count := if bucket in counters then counters[bucket].count + 1 else 1;
      counters := counters[bucket := Counter(count, bucket.start + policy.seconds * SECOND)];
      passed := count <= policy.limit;
    }

    method PurgeExpired(now: int)
      requires policy.seconds > 0
      modifies this
      ensures counters == Apply(policy, old(counters), Purge(now))
      ensures forall b :: b in counters <==> b in old(counters) && old(counters)[b].expires > now
      ensures forall b | b in counters :: counters[b] == old(counters)[b]
    {
      var expired := set b | b in counters && counters[b].expires <= now;
      counters := counters - expired;
    }
  }
}
