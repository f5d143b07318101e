/** One-time codes over a shared secret (apps/accounts/two_factor.py, hotp and
    verify_code). HMAC is a parameter. */
module Totp {
  import opened Text

  const STEP_SECONDS: nat := 30
  const DIGITS: nat := 6

  // ---------- from digest to code ----------

  function PowerOfTen(k: nat): (p: nat)
    ensures p > 0
  {
    if k == 0 then 1 else 10 * PowerOfTen(k - 1)
  }

  /** Dynamic truncation: four bytes at the offset in the last nibble, top bit cleared. */
  function Truncated(digest: seq<bv8>): nat
    requires |digest| == 20
  {
    var offset := digest[19] as nat % 16;
    (digest[offset] as nat % 128) * 0x100_0000 + digest[offset + 1] as nat * 0x1_0000
      + digest[offset + 2] as nat * 0x100 + digest[offset + 3] as nat
  }

  /** A number written in base 256, most significant byte first. */
  function BigEndian(bytes: seq<bv8>): nat {
    if bytes == [] then 0 else BigEndian(bytes[..|bytes| - 1]) * 256 + bytes[|bytes| - 1] as nat
  }

  /** Section 5.3 of RFC 4226: the low 31 bits of four bytes, most significant first. */
  lemma TruncationIsLow31Bits(digest: seq<bv8>)
    requires |digest| == 20
    ensures var offset := digest[19] as nat % 16;
      Truncated(digest) == BigEndian(digest[offset..offset + 4]) % 0x8000_0000
  {
    var offset := digest[19] as nat % 16;
    var b := digest[offset..offset + 4];
    BigEndianOfFour(b);
    TopBitCleared(b[0] as nat, b[1] as nat, b[2] as nat, b[3] as nat);
  }

  lemma BigEndianOfFour(b: seq<bv8>)
    requires |b| == 4
    ensures BigEndian(b) == b[0] as nat * 0x100_0000 + b[1] as nat * 0x1_0000 + b[2] as nat * 0x100 + b[3] as nat
  {
    assert b[..3][..2] == b[..2] && b[..2][..1] == b[..1] && b[..1][..0] == [];
    assert BigEndian(b[..1]) == b[0] as nat;
    assert BigEndian(b[..2]) == BigEndian(b[..1]) * 256 + b[1] as nat;
    assert BigEndian(b[..3]) == BigEndian(b[..2]) * 256 + b[2] as nat;
  }

  lemma TopBitCleared(a: nat, b: nat, c: nat, d: nat)
    requires a < 256 && b < 256 && c < 256 && d < 256
    ensures (a * 0x100_0000 + b * 0x1_0000 + c * 0x100 + d) % 0x8000_0000
      == (a % 128) * 0x100_0000 + b * 0x1_0000 + c * 0x100 + d
  {
    var low := (a % 128) * 0x100_0000 + b * 0x1_0000 + c * 0x100 + d;
    assert 0 <= low < 0x8000_0000;
    assert a == a / 128 * 128 + a % 128 && 0 <= a / 128 < 2;
  }

  function Code(digest: seq<bv8>, digits: nat): string
    requires |digest| == 20
  {
    ZeroFill(Decimal(Truncated(digest) % PowerOfTen(digits)), digits)
  }

  lemma {:induction false} DecimalLength(n: nat, k: nat)
    requires k >= 1 && n < PowerOfTen(k)
    ensures |Decimal(n)| <= k
  {
    if n >= 10 {
      assert k >= 2;
      assert n / 10 < PowerOfTen(k - 1);
      DecimalLength(n / 10, k - 1);
    }
  }

  /** A code always has exactly the requested number of digits and names the truncated
      value modulo that power of ten. */
  lemma {:induction false} CodeIsWellFormed(digest: seq<bv8>, digits: nat)
    requires |digest| == 20 && digits >= 1
    ensures |Code(digest, digits)| == digits && AllDigits(Code(digest, digits))
    ensures NumeralValue(Code(digest, digits)) == Truncated(digest) % PowerOfTen(digits)
    ensures PowerOfTen(DIGITS) == 1_000_000
  {
    var n := Truncated(digest) % PowerOfTen(digits);
    DecimalLength(n, digits);
    DecimalReadsBack(n);
    ZeroFillKeepsValue(Decimal(n), digits);
  }

  // ---------- verification ----------

  predicate WellFormed(code: string) {
    |Trim(code)| == DIGITS && AllDigits(Trim(code))
  }

  predicate Fresh(step: int, lastUsed: Option<int>) {
    lastUsed.None? || lastUsed.value < step
  }

  /** The step a moment belongs to; moments before the epoch have negative ones. */
  function StepOf(now: int): int {
    now / STEP_SECONDS
  }

  predicate InWindow(step: int, now: int) {
    StepOf(now) - 1 <= step <= StepOf(now) + 1
  }

  /** A step within one of the current one, not yet marked as used, generates the code. */
  predicate GeneratedBy(hotp: nat -> string, code: string, now: int, lastUsed: Option<int>, step: nat) {
    InWindow(step, now) && Fresh(step, lastUsed) && hotp(step) == Trim(code)
  }

  ghost predicate Matches(hotp: nat -> string, code: string, now: int, lastUsed: Option<int>) {
    WellFormed(code) && exists step: nat :: GeneratedBy(hotp, code, now, lastUsed, step)
  }

  /** Some step to be tried is negative, which packing it into eight bytes refuses. */
  predicate TriesNegativeStep(now: int, lastUsed: Option<int>) {
    exists step :: StepOf(now) - 1 <= step <= StepOf(now) + 1 && step < 0 && Fresh(step, lastUsed)
  }

  /** That happens only within half a minute of the epoch or before it, and unless the last
      negative step to be tried is marked as used. */
  lemma TriesNegativeStepExactly(now: int, lastUsed: Option<int>)
    ensures TriesNegativeStep(now, lastUsed) <==>
      now < 30 && (lastUsed.None? || lastUsed.value < if now < -60 then now / 30 + 1 else -1)
  {
    var last := if StepOf(now) + 1 < -1 then StepOf(now) + 1 else -1;
    assert last == if now < -60 then now / 30 + 1 else -1;
    assert now < 30 <==> StepOf(now) < 1;
    if now < 30 && Fresh(last, lastUsed) {
      assert StepOf(now) - 1 <= last <= StepOf(now) + 1 && last < 0;
    }
  }

  datatype CodeError = NegativeStep

  /** What verification answers: a negative step to be tried makes it fail, whatever the
      later steps generate, since steps are tried in ascending order. */
  ghost function Verdict(hotp: nat -> string, lastUsed: Option<int>, code: string, now: int): Result<bool, CodeError> {
    if WellFormed(code) && TriesNegativeStep(now, lastUsed) then Err(NegativeStep)
    else Ok(Matches(hotp, code, now, lastUsed))
  }

  /** verify_code, for the codes `hotp` of one secret. */
  method VerifyCode(hotp: nat -> string, code: string, now: int, lastUsed: Option<int>)
    returns (r: Result<bool, CodeError>)
    ensures r == Verdict(hotp, lastUsed, code, now)
  {
    if code == "" || !AllDigits(Trim(code)) || |Trim(code)| != DIGITS {
      return Ok(false);
    }
    var counter := StepOf(now);
    for candidate := counter - 1 to counter + 2
      invariant forall step :: counter - 1 <= step < candidate && Fresh(step, lastUsed) ==>
        step >= 0 && hotp(step) != Trim(code)
    {
      if Fresh(candidate, lastUsed) {
        if candidate < 0 {
          return Err(NegativeStep);
        }
        if hotp(candidate) == Trim(code) {
          assert GeneratedBy(hotp, code, now, lastUsed, candidate);
          return Ok(true);
        }
      }
    }
    r := Ok(false);
  }

  /** Were the current step marked as used, a code accepted once would be accepted again
      within that step exactly when it is also the next step's code: a code taken one step
      ahead of the clock is not spent by the mark. */
  lemma SingleUseExactly(hotp: nat -> string, code: string, now: nat, lastUsed: Option<int>, again: nat)
    requires Matches(hotp, code, now, lastUsed)
    requires now <= again && StepOf(again) == StepOf(now)
    ensures Matches(hotp, code, again, Some(StepOf(now))) <==> hotp(StepOf(now) + 1) == Trim(code)
  {
    var next := StepOf(now) + 1;
    if hotp(next) == Trim(code) {
      assert GeneratedBy(hotp, code, again, Some(StepOf(now)), next);
    }
  }

  /** Every six-digit code is one a caller can submit, blanks around it or not; anything but
      six digits between blanks is refused at every moment. */
  lemma SixDigitsExactly(hotp: nat -> string, lastUsed: Option<int>, code: string, now: int, digest: seq<bv8>)
    requires |digest| == 20
    ensures WellFormed(Code(digest, 6)) && Trim(Code(digest, 6)) == Code(digest, 6)
    ensures |Trim(code)| != 6 || (exists i :: 0 <= i < |Trim(code)| && !('0' <= Trim(code)[i] <= '9')) ==>
      Verdict(hotp, lastUsed, code, now) == Ok(false)
  {
    CodeIsWellFormed(digest, 6);
    var c := Code(digest, 6);
    assert !IsSpace(c[0]) && !IsSpace(c[|c| - 1]) by {
      assert IsDigit(c[0]) && IsDigit(c[|c| - 1]);
    }
  }

  // ---------- logging in ----------

  /** A stored row of two-factor settings: the step of the last accepted code. */
  class TwoFactor {
    const hotp: nat -> string
    var lastUsed: Option<int>

    constructor (hotp: nat -> string)
      ensures this.hotp == hotp && lastUsed == None
    {
      this.hotp := hotp;
      lastUsed := None;
    }

    /** The two-factor part of the login view. It marks the step on the row it loaded and
        never saves that row, so the stored mark does not move. */
    method Login(code: string, now: int) returns (r: Result<bool, CodeError>)
      modifies this
      ensures lastUsed == old(lastUsed)
      ensures r == Verdict(hotp, lastUsed, code, now)
    {
      var loaded := lastUsed;
      r := VerifyCode(hotp, code, now, loaded);
      if r == Ok(true) {
        loaded := Some(StepOf(now));
      }
    }
  }

  datatype Attempt = Attempt(code: string, now: int)

  /** A sequence of logins against one stored row, in the order they are made. */
  method LoginAll(row: TwoFactor, attempts: seq<Attempt>) returns (replies: seq<Result<bool, CodeError>>)
    modifies row
    ensures |replies| == |attempts| && row.lastUsed == old(row.lastUsed)
    ensures forall i :: 0 <= i < |attempts| ==>
      replies[i] == Verdict(row.hotp, old(row.lastUsed), attempts[i].code, attempts[i].now)
  {
    replies := [];
    for i := 0 to |attempts|
      invariant |replies| == i && row.lastUsed == old(row.lastUsed)
      invariant forall j :: 0 <= j < i ==>
        replies[j] == Verdict(row.hotp, old(row.lastUsed), attempts[j].code, attempts[j].now)
    {
      var reply := row.Login(attempts[i].code, attempts[i].now);
      replies := replies + [reply];
    }
  }

  /** With no mark ever stored, a login is accepted exactly while some step that generates
      its code is within one of the current one: from thirty seconds before that step
      starts until thirty seconds after it ends, however often the code was used. */
  lemma LoginAcceptsExactly(hotp: nat -> string, code: string, now: nat)
    requires now >= STEP_SECONDS
    ensures Verdict(hotp, None, code, now) == Ok(true) <==>
      WellFormed(code) && exists step: nat ::
        hotp(step) == Trim(code) && STEP_SECONDS * (step - 1) <= now < STEP_SECONDS * (step + 2)
  {
    forall step: nat
      ensures InWindow(step, now) <==> STEP_SECONDS * (step - 1) <= now < STEP_SECONDS * (step + 2)
    {
      WindowInSeconds(step, now);
    }
    if step: nat :| hotp(step) == Trim(code) && STEP_SECONDS * (step - 1) <= now < STEP_SECONDS * (step + 2) {
      assert GeneratedBy(hotp, code, now, None, step);
    }
  }

  lemma WindowInSeconds(step: int, now: int)
    ensures InWindow(step, now) <==> STEP_SECONDS * (step - 1) <= now < STEP_SECONDS * (step + 2)
  {
    assert now == STEP_SECONDS * StepOf(now) + now % STEP_SECONDS;
  }

  /** A login accepted with the code of step `step` is accepted again with the same code at
      every moment of that step's ninety seconds, so codes are not single-use. */
  lemma EveryCodeIsReplayable(hotp: nat -> string, code: string, step: nat, now: nat, again: nat)
    requires WellFormed(code) && hotp(step) == Trim(code)
    requires now >= STEP_SECONDS && InWindow(step, now)
    requires again >= STEP_SECONDS
    ensures Verdict(hotp, None, code, now) == Ok(true)
    ensures InWindow(step, again) ==> Verdict(hotp, None, code, again) == Ok(true)
    ensures Verdict(hotp, None, code, again) == Ok(true) <==>
      exists k: nat :: InWindow(k, again) && hotp(k) == hotp(step)
  {
    assert GeneratedBy(hotp, code, now, None, step);
    if k: nat :| InWindow(k, again) && hotp(k) == hotp(step) {
      assert GeneratedBy(hotp, code, again, None, k);
    }
  }
}
