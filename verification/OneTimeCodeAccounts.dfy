/** What the one-time codes do to accounts: which calls verify one, and how long a code is
    good for. */
module OneTimeCodeAccounts {
  import opened Text
  import opened OneTimeCodes
  import opened OneTimeCodeInvariants

  predicate IsVerified(s: State, email: string) {
    email in s.users && s.users[email].verified
  }

  /** The call is a verification of this account whose code is accepted. */
  predicate AcceptsFor(s: State, op: Op, email: string) {
    op.Verification? && Normal(op.email) == email && AcceptedToken(s, op).Some?
  }

  /** Accounts are only ever added; their address and activity never change. */
  ghost predicate AccountsKept(s: State, t: State) {
    forall k :: k in s.users ==>
      k in t.users && t.users[k].email == s.users[k].email && t.users[k].active == s.users[k].active
  }

  // ---------- which calls verify an account ----------

  lemma VerifyVerifies(s: State, email: string, code: string, now: int, account: string)
    ensures var t := AfterVerify(s, email, code, now);
      && t.users.Keys == s.users.Keys && AccountsKept(s, t)
      && (IsVerified(t, account) <==>
           IsVerified(s, account) || (account == email && VerifyReply(s, email, code, now).Accepted?))
  {}

  lemma RegistrationVerifiesNothing(s: State, rawEmail: string, permitted: bool, code: string, now: int,
                                    account: string)
    ensures var t := AfterRegister(s, rawEmail, permitted, code, now);
      AccountsKept(s, t) && (IsVerified(t, account) <==> IsVerified(s, account))
  {}

  /** A call leaves an account verified exactly when it was before, or the call is the one
      that accepts its code. */
  lemma StepVerifiesExactly(s: State, op: Op, email: string)
    ensures AccountsKept(s, Step(s, op))
    ensures IsVerified(Step(s, op), email) <==> IsVerified(s, email) || AcceptsFor(s, op, email)
  {
    match op
    case Verification(raw, code, now) =>
      VerifyVerifies(s, Normal(raw), Trim(code), now, email);
      AcceptanceIsTheReply(s, raw, code, now);
    case Registration(raw, permitted, code, now) =>
      RegistrationVerifiesNothing(s, raw, permitted, code, now, email);
    case Resending(raw, code, now) =>
    case ResetRequest(raw, code, now) =>
    case ResetConfirm(raw, code, linkValid, passwordOk, now) =>
  }

  /** Some call of the run accepted a code for this account. */
  predicate WasAccepted(s: State, ops: seq<Op>, email: string)
    decreases |ops|
  {
    ops != [] && (AcceptsFor(s, ops[0], email) || WasAccepted(Step(s, ops[0]), ops[1..], email))
  }

  /** Over every run an account is verified exactly when it was at the start or a code of
      its own was accepted on the way; so verified accounts stay verified. */
  lemma {:induction false} VerifiedExactly(s: State, ops: seq<Op>, email: string)
    ensures IsVerified(Run(s, ops), email) <==> IsVerified(s, email) || WasAccepted(s, ops, email)
    decreases |ops|
  {
    if ops != [] {
      StepVerifiesExactly(s, ops[0], email);
      VerifiedExactly(Step(s, ops[0]), ops[1..], email);
    }
  }

  /** The code accepted for an account is that of an unused token of its own. */
  lemma AcceptedTokenIsOwn(s: State, op: Op, email: string)
    requires Inv(s) && AcceptsFor(s, op, email)
    ensures var k := AcceptedToken(s, op).value;
      k < |s.tokens| && s.tokens[k].email == email && IsValid(s.tokens[k], op.now) && s.tokens[k].code == Trim(op.code)
  {
    AcceptanceIsTheReply(s, op.email, op.code, op.now);
    NormalIsNormal(op.email);
  }

  // ---------- how long a code is good for ----------

  /** Right after its newest token `t` was issued, the account's code is accepted exactly
      when it is that token's and the time is not past its expiry. */
  lemma NewestDecides(s: State, email: string, code: string, later: int)
    requires Inv(s) && s.tokens != [] && email != "" && email in s.users && Lower(email) == email
    requires var t := s.tokens[|s.tokens| - 1];
      t.email == email && !t.used && t.attempts == 0 && t.code == code && code != ""
    ensures VerifyReply(s, email, code, later).Accepted? <==> later <= s.tokens[|s.tokens| - 1].expiresAt
  {}

  lemma RegistrationIssues(s: State, rawEmail: string, permitted: bool, code: string, now: int)
    requires Inv(s) && RegisterReply(s, rawEmail, permitted).Sent?
    ensures var t := AfterRegister(s, rawEmail, permitted, code, now);
      t.tokens != [] && Normal(rawEmail) in t.users
      && t.tokens[|t.tokens| - 1] == Token(Normal(rawEmail), code, 0, false, now + 900, now)
      && (Normal(rawEmail) !in s.users ==> t.users[Normal(rawEmail)] == User(Trim(rawEmail), false, true))
  {
    RegistrationSends(s, rawEmail, permitted, code, now);
  }

  /** A registration followed by its code is accepted for exactly fifteen minutes, and
      then the account is verified. */
  lemma RegistrationThenCode(s: State, rawEmail: string, permitted: bool, code: string, now: int, later: int)
    requires Inv(s) && code != "" && Trim(code) == code && RegisterReply(s, rawEmail, permitted).Sent?
    ensures var t := Step(s, Registration(rawEmail, permitted, code, now));
      var op := Verification(rawEmail, code, later);
      && (AcceptedToken(t, op).Some? <==> later <= now + 15 * 60)
      && (later <= now + 15 * 60 ==> IsVerified(Step(t, op), Normal(rawEmail)))
  {
    var t := Step(s, Registration(rawEmail, permitted, code, now));
    StepKeepsInv(s, Registration(rawEmail, permitted, code, now));
    RegistrationIssues(s, rawEmail, permitted, code, now);
    NormalIsNormal(rawEmail);
    NewestDecides(t, Normal(rawEmail), code, later);
    AcceptanceIsTheReply(t, rawEmail, code, later);
    StepVerifiesExactly(t, Verification(rawEmail, code, later), Normal(rawEmail));
  }

  lemma ResendIssues(s: State, rawEmail: string, code: string, now: int)
    requires Inv(s) && ResendReply(s, rawEmail, now).Sent?
    ensures var t := AfterResend(s, rawEmail, code, now);
      t.tokens != [] && t.users == s.users
      && t.tokens[|t.tokens| - 1] == Token(Normal(rawEmail), code, 0, false, now + 900, now)
  {
    ResendSends(s, rawEmail, code, now);
  }

  /** The same of a code sent again. */
  lemma ResendThenCode(s: State, rawEmail: string, code: string, now: int, later: int)
    requires Inv(s) && code != "" && Trim(code) == code && ResendReply(s, rawEmail, now).Sent?
    ensures var t := Step(s, Resending(rawEmail, code, now));
      AcceptedToken(t, Verification(rawEmail, code, later)).Some? <==> later <= now + 15 * 60
  {
    var t := Step(s, Resending(rawEmail, code, now));
    StepKeepsInv(s, Resending(rawEmail, code, now));
    ResendIssues(s, rawEmail, code, now);
    NormalIsNormal(rawEmail);
    NewestDecides(t, Normal(rawEmail), code, later);
    AcceptanceIsTheReply(t, rawEmail, code, later);
  }

  lemma ResetRequestIssues(s: State, rawEmail: string, code: string, now: int)
    requires Inv(s) && ResetSendsCode(s, rawEmail)
    ensures var t := AfterResetRequest(s, rawEmail, code, now);
      t.tokens != [] && t.users == s.users
      && t.tokens[|t.tokens| - 1] == Token(Normal(rawEmail), code, 0, false, now + 3600, now)
  {
    ResetRequestSends(s, rawEmail, code, now);
  }

  /** A reset code changes the password for exactly an hour. */
  lemma ResetRequestThenCode(s: State, rawEmail: string, code: string, now: int, later: int)
    requires Inv(s) && code != "" && Trim(code) == code && ResetSendsCode(s, rawEmail)
    ensures var t := Step(s, ResetRequest(rawEmail, code, now));
      ConfirmReply(t, rawEmail, code, false, true, later).PasswordChanged? <==> later <= now + 60 * 60
  {
    var op := ResetRequest(rawEmail, code, now);
    StepKeepsInv(s, op);
    ResetRequestIssues(s, rawEmail, code, now);
    NormalIsNormal(rawEmail);
    NewestResets(Step(s, op), rawEmail, code, later);
  }

  /** An account's newest token, when it is unused, decides a reset by its expiry. */
  lemma NewestResets(s: State, rawEmail: string, code: string, later: int)
    requires Inv(s) && s.tokens != [] && Normal(rawEmail) in s.users && s.users[Normal(rawEmail)].active
    requires var t := s.tokens[|s.tokens| - 1]; t.email == Normal(rawEmail) && !t.used && t.code == code
    requires code != "" && Trim(code) == code
    ensures ConfirmReply(s, rawEmail, code, false, true, later).PasswordChanged? <==>
      later <= s.tokens[|s.tokens| - 1].expiresAt
  {
    var email, last := Normal(rawEmail), |s.tokens| - 1;
    var found := NewestResettable(s.tokens, s.users[email].email, code, later);
    assert Resettable(s.tokens[last], s.users[email].email, code, later) <==> later <= s.tokens[last].expiresAt;
    if found.Some? {
      assert s.tokens[found.value].email == email;
      assert found.value == last;
    }
  }

  // ---------- every reply in exactly its case ----------

  /** Token `k` is the account's live one. */
  predicate IsLive(s: State, email: string, k: nat) {
    k < |s.tokens| && s.tokens[k].email == email && !s.tokens[k].used
  }

  /** The account has a live token with this code that is not past its expiry. */
  ghost predicate HasCode(s: State, email: string, code: string, now: int) {
    exists k: nat :: IsLive(s, email, k) && now <= s.tokens[k].expiresAt && s.tokens[k].code == code
  }

  lemma NewestIsLive(s: State, email: string)
    requires Inv(s) && Lower(email) == email
    ensures Newest(s.tokens, email).Some? ==> IsLive(s, email, Newest(s.tokens, email).value)
    ensures forall k: nat :: IsLive(s, email, k) ==> Newest(s.tokens, email) == Some(k)
  {
    forall k: nat | IsLive(s, email, k) ensures Newest(s.tokens, email) == Some(k) {
      assert LiveFor(s.tokens[k], email);
    }
  }

  /** What a verification answers when token `k` is the live one. */
  function LiveReply(t: Token, k: nat, code: string, now: int): Reply {
    if now > t.expiresAt then ExpiredOrInvalid
    else if t.attempts >= 5 then TooManyAttempts
    else if t.code != code then WrongCode
    else Accepted(k)
  }

  /** A verification asks for an address and a code, then for an account, then for a live
      token, and then the token decides. */
  lemma VerificationReplies(s: State, email: string, code: string, now: int)
    requires Inv(s) && Lower(email) == email
    ensures email == "" || code == "" ==> VerifyReply(s, email, code, now) == MissingFields
    ensures email != "" && code != "" && email !in s.users ==> VerifyReply(s, email, code, now) == NoAccount
    ensures email != "" && code != "" && email in s.users && (forall k: nat :: !IsLive(s, email, k)) ==>
      VerifyReply(s, email, code, now) == ExpiredOrInvalid
    ensures forall k: nat :: email != "" && code != "" && email in s.users && IsLive(s, email, k) ==>
      VerifyReply(s, email, code, now) == LiveReply(s.tokens[k], k, code, now)
  {
    NewestIsLive(s, email);
  }

  /** Registration needs an address, the permission of the checks around it and an account
      not yet verified; a resend an unverified account. */
  lemma SendingReplies(s: State, rawEmail: string, permitted: bool, now: int)
    ensures var email := Normal(rawEmail);
      && (RegisterReply(s, rawEmail, permitted).Sent? <==> email != "" && permitted && !IsVerified(s, email))
      && (RegisterReply(s, rawEmail, permitted) == Refused <==> email != "" && (!permitted || IsVerified(s, email)))
      && (ResendReply(s, rawEmail, now) == NoAccount <==> email != "" && email !in s.users)
      && (ResendReply(s, rawEmail, now) == AlreadyVerified <==> email != "" && IsVerified(s, email))
  {}

  /** A password is changed exactly when it is acceptable, the account is active, and the
      link is valid or the code is that of the unexpired live token, which is then named. */
  lemma ConfirmationReplies(s: State, rawEmail: string, rawCode: string, linkValid: bool, passwordOk: bool, now: int)
    requires Inv(s)
    ensures var email, code := Normal(rawEmail), Trim(rawCode);
      ConfirmReply(s, rawEmail, rawCode, linkValid, passwordOk, now).PasswordChanged? <==>
        && passwordOk && email in s.users && s.users[email].active
        && (linkValid || (code != "" && HasCode(s, email, code, now)))
    ensures var r := ConfirmReply(s, rawEmail, rawCode, linkValid, passwordOk, now);
      r.PasswordChanged? ==>
        if linkValid then r.spent == None else r.spent.Some? && IsLive(s, Normal(rawEmail), r.spent.value)
  {
    var email, code := Normal(rawEmail), Trim(rawCode);
    if email in s.users && s.users[email].active {
      var found := NewestResettable(s.tokens, s.users[email].email, code, now);
      if found.Some? {
        assert s.tokens[found.value].email == email;
        assert IsLive(s, email, found.value);
      }
      if k: nat :| IsLive(s, email, k) && now <= s.tokens[k].expiresAt && s.tokens[k].code == code {
        assert Resettable(s.tokens[k], s.users[email].email, code, now);
      }
    }
  }
}
