/** Time-based one-time passwords: the code of a step, the three-way search for a step, and
    the acceptance that never takes a step twice. */
module Totp {
  import opened Common

  // ---------------------------------------------------------------- the code of a step

  predicate Octets(d: seq<int>) {
    forall i | 0 <= i < |d| :: 0 <= d[i] < 256
  }

  /** An HMAC-SHA-1 digest. */
  predicate Digest(d: seq<int>) {
    |d| == 20 && Octets(d)
  }

  /** `struct.unpack(">I", ...)`. */
  function BigEndian(d: seq<int>): int
    requires |d| == 4
  {
    d[0] * 0x1000000 + d[1] * 0x10000 + d[2] * 0x100 + d[3]
  }

  function Offset(digest: seq<int>): int
    requires Digest(digest)
  {
    digest[19] % 16
  }

  function CodeValue(digest: seq<int>): int
    requires Digest(digest)
  {
    var offset := Offset(digest);
    BigEndian(digest[offset..offset + 4]) % 0x80000000
  }

  /** Dynamic truncation as section 5.3 of RFC 4226 defines it: the high bit of the first
      selected byte is masked and the four bytes are joined. */
  function DynamicTruncation(digest: seq<int>): int
    requires Digest(digest)
  {
    var o := digest[19] % 16;
    (digest[o] % 0x80) * 0x1000000 + digest[o + 1] * 0x10000 + digest[o + 2] * 0x100 + digest[o + 3]
  }

  lemma CodeIsDynamicTruncation(digest: seq<int>)
    requires Digest(digest)
    ensures CodeValue(digest) == DynamicTruncation(digest) && 0 <= CodeValue(digest) < 0x80000000
  {
  }

  /** `f"{value % 1_000_000:06d}"`. */
  function Digits(value: nat, width: nat): string {
    if width == 0 then "" else Digits(value / 10, width - 1) + [('0' as int + value % 10) as char]
  }

  function Code(digest: seq<int>): string
    requires Digest(digest)
  {
    Digits(CodeValue(digest) % 1_000_000, 6)
  }

  predicate IsDigit(c: char) {
    '0' <= c <= '9'
  }

  predicate WellFormed(code: string) {
    |code| == 6 && forall i | 0 <= i < |code| :: IsDigit(code[i])
  }

  function Number(digits: string): int
    requires forall i | 0 <= i < |digits| :: IsDigit(digits[i])
  {
    if digits == [] then 0
    else Number(digits[..|digits| - 1]) * 10 + (digits[|digits| - 1] as int - '0' as int)
  }

  function Power10(n: nat): nat {
    if n == 0 then 1 else 10 * Power10(n - 1)
  }

  lemma {:induction false} DigitsReadBack(value: nat, width: nat)
    requires value < Power10(width)
    ensures |Digits(value, width)| == width && (forall i | 0 <= i < width :: IsDigit(Digits(value, width)[i]))
    ensures Number(Digits(value, width)) == value
  {
    if width > 0 {
      DigitsReadBack(value / 10, width - 1);
      var digits := Digits(value, width);
      assert digits[..width - 1] == Digits(value / 10, width - 1);
    }
  }

  /** A code is six digits that read as the truncated value modulo a million, so the format
      test of `match_totp_step` never turns a genuine code away. */
  lemma CodeReadsBack(digest: seq<int>)
    requires Digest(digest)
    ensures WellFormed(Code(digest)) && Number(Code(digest)) == DynamicTruncation(digest) % 1_000_000
  {
    CodeIsDynamicTruncation(digest);
    assert Power10(6) == 1_000_000 by {
      assert Power10(3) == 1000;
      assert Power10(4) == 10000 && Power10(5) == 100000;
    }
    DigitsReadBack(CodeValue(digest) % 1_000_000, 6);
  }

  // ---------------------------------------------------------------- searching for a step

  /** A candidate step that is not negative, not yet accepted, and shows the given code. */
  predicate Fits(codes: int -> string, code: string, step: int, last: Option<int>) {
    step >= 0 && (last.Some? ==> step > last.value) && codes(step) == code
  }

  /** `match_totp_step`; `current` is the verifier's clock divided by thirty seconds. */
  method MatchStep(codes: int -> string, code: string, current: int, last: Option<int>) returns (step: Option<int>)
    ensures step == Match(codes, code, current, last)
  {
    if !WellFormed(code) {
      return None;
    }
    var candidates := [current, current - 1, current + 1];
    for i := 0 to 3
      invariant forall j | 0 <= j < i :: !Fits(codes, code, candidates[j], last)
    {
      if candidates[i] < 0 || (last.Some? && candidates[i] <= last.value) {
        continue;
      }
      if codes(candidates[i]) == code {
        assert Fits(codes, code, candidates[i], last);
        assert i >= 1 ==> !Fits(codes, code, candidates[0], last);
        assert i >= 2 ==> !Fits(codes, code, candidates[1], last);
        return Some(candidates[i]);
      }
    }
    assert !Fits(codes, code, candidates[0], last) && !Fits(codes, code, candidates[1], last) &&
      !Fits(codes, code, candidates[2], last);
    return None;
  }

  function Match(codes: int -> string, code: string, current: int, last: Option<int>): Option<int> {
    if !WellFormed(code) then None
    else if Fits(codes, code, current, last) then Some(current)
    else if Fits(codes, code, current - 1, last) then Some(current - 1)
    else if Fits(codes, code, current + 1, last) then Some(current + 1)
    else None
  }

  /** A step is found exactly when one within one of the clock fits. */
  lemma MatchFindsIff(codes: int -> string, code: string, current: int, last: Option<int>)
    ensures var m := Match(codes, code, current, last);
      && (m.Some? ==> current - 1 <= m.value <= current + 1 && Fits(codes, code, m.value, last))
      && (m.Some? <==>
            WellFormed(code) && exists step :: current - 1 <= step <= current + 1 && Fits(codes, code, step, last))
  {
  }

  // ---------------------------------------------------------------- accepting a step

  datatype Factor = Factor(confirmed: bool, last: Option<int>)

  /** One verification: the clock, the code, and the `last_accepted_step` it read, which may
      be out of date by the time it updates the row. */
  datatype Verification = Verification(current: int, code: string, seen: Option<int>)

  predicate Accepts(f: Factor, step: int) {
    f.confirmed && (f.last.None? || f.last.value < step)
  }

  /** The step a verification gets accepted, if any. */
  function Accepted(codes: int -> string, f: Factor, v: Verification): Option<int> {
    var step := Match(codes, v.code, v.current, v.seen);
    if step.Some? && Accepts(f, step.value) then step else None
  }

  function Verify(codes: int -> string, f: Factor, v: Verification): Factor {
    var step := Accepted(codes, f, v);
    if step.Some? then f.(last := step) else f
  }

  /** A verification together with the step it got accepted. */
  datatype Acceptance = Acceptance(verification: Verification, step: int)

  /** What is accepted over a whole run, in order. */
  function Acceptances(codes: int -> string, f: Factor, vs: seq<Verification>): seq<Acceptance>
    decreases |vs|
  {
    if vs == [] then []
    else
      var step := Accepted(codes, f, vs[0]);
      (if step.Some? then [Acceptance(vs[0], step.value)] else []) +
      Acceptances(codes, Verify(codes, f, vs[0]), vs[1..])
  }

  /** The step was within one of its own verifier's clock and has the code that was shown. */
  predicate Genuine(codes: int -> string, a: Acceptance) {
    && 0 <= a.step && a.verification.current - 1 <= a.step <= a.verification.current + 1
    && codes(a.step) == a.verification.code
  }

  /** Strictly increasing, and above the step accepted before. */
  predicate Increasing(accepted: seq<Acceptance>, last: Option<int>) {
    && (forall i | 0 <= i < |accepted| :: last.Some? ==> last.value < accepted[i].step)
    && (forall i, j | 0 <= i < j < |accepted| :: accepted[i].step < accepted[j].step)
  }

  /** However verifications overlap and whatever row they read, accepted steps strictly
      increase, so none is accepted twice, as section 5.2 of RFC 6238 requires; and each is a
      step within one of the clock of the verification that got it accepted. */
  lemma {:induction false} StepsAcceptedOnce(codes: int -> string, f: Factor, vs: seq<Verification>)
    ensures Increasing(Acceptances(codes, f, vs), f.last)
    ensures forall a | a in Acceptances(codes, f, vs) :: a.verification in vs && Genuine(codes, a)
    ensures !f.confirmed ==> Acceptances(codes, f, vs) == []
    decreases |vs|
  {
    if vs != [] {
      MatchFindsIff(codes, vs[0].code, vs[0].current, vs[0].seen);
      StepsAcceptedOnce(codes, Verify(codes, f, vs[0]), vs[1..]);
      assert vs == [vs[0]] + vs[1..];
    }
  }

  /** A verification that read the row as it is succeeds exactly when the factor is confirmed and
      the code is six digits and that of a step within one of the clock, not negative and later
      than the last accepted: a fresh genuine code is never turned away. The step accepted is the
      current one if it has the code, else the one before, else the one after. */
  lemma FreshCodeAcceptedIff(codes: int -> string, f: Factor, v: Verification)
    requires v.seen == f.last
    ensures var step := Accepted(codes, f, v);
      && (step.Some? <==>
            && f.confirmed && |v.code| == 6 && (forall i | 0 <= i < 6 :: '0' <= v.code[i] <= '9')
            && exists t :: v.current - 1 <= t <= v.current + 1 && t >= 0 && codes(t) == v.code &&
                 (f.last.Some? ==> f.last.value < t))
      && (step.Some? ==> codes(step.value) == v.code && Verify(codes, f, v) == Factor(true, step))
      && (step.Some? && step.value != v.current ==> !Fits(codes, v.code, v.current, f.last))
      && (step.Some? && step.value == v.current + 1 ==> !Fits(codes, v.code, v.current - 1, f.last))
      && (step.None? ==> Verify(codes, f, v) == f)
  {
    MatchFindsIff(codes, v.code, v.current, v.seen);
    if f.confirmed && WellFormed(v.code) {
      forall t | v.current - 1 <= t <= v.current + 1
        ensures Fits(codes, v.code, t, f.last) <==>
                t >= 0 && codes(t) == v.code && (f.last.Some? ==> f.last.value < t)
      {
      }
    }
  }

  // ---------------------------------------------------------------- the row as it is updated

  class FactorRow {
    var confirmed: bool
    var last: Option<int>

    constructor (confirmed: bool, last: Option<int>)
      ensures View() == Factor(confirmed, last)
    {
      this.confirmed, this.last := confirmed, last;
    }

    function View(): Factor
      reads this
    {
      Factor(confirmed, last)
    }

    /** `_verify_mfa_value` up to the recovery codes: search with the step read earlier, then
        the guarded update of `accept_totp_step`. */
    method VerifyCode(codes: int -> string, v: Verification) returns (accepted: bool)
      modifies this
      ensures View() == Verify(codes, old(View()), v)
      ensures accepted == Accepted(codes, old(View()), v).Some?
    {
      var step := MatchStep(codes, v.code, v.current, v.seen);
      accepted := step.Some? && confirmed && (last.None? || last.value < step.value);
      if accepted {
        last := step;
      }
    }
  }
}
