/** What every run over the token table keeps. */
module OneTimeCodeInvariants {
  import opened Text
  import opened OneTimeCodes

  /** Addresses are stored normalised and no address has two unused tokens. */
  ghost predicate OneLiveToken(ts: seq<Token>) {
    forall i, j :: 0 <= i < j < |ts| && !ts[i].used && !ts[j].used ==> ts[i].email != ts[j].email
  }

  ghost predicate StoredNormal(ts: seq<Token>) {
    forall i :: 0 <= i < |ts| ==> Lower(ts[i].email) == ts[i].email
  }

  ghost predicate AttemptsBounded(ts: seq<Token>) {
    forall i :: 0 <= i < |ts| ==> ts[i].attempts <= MAX_ATTEMPTS
  }

  /** Accounts are filed under their own normalised, trimmed address. */
  ghost predicate UsersFiled(users: map<string, User>) {
    forall k :: k in users ==> Trimmed(users[k].email) && Lower(users[k].email) == k && Trimmed(k)
  }

  ghost predicate Inv(s: State) {
    OneLiveToken(s.tokens) && StoredNormal(s.tokens) && AttemptsBounded(s.tokens) && UsersFiled(s.users)
  }

  // ---------- case and blanks ----------

  lemma {:induction false} LowerKeepsTrim(s: string)
    ensures Trim(Lower(s)) == Lower(Trim(s))
    decreases |s|
  {
    if s != "" {
      assert IsSpace(LowerChar(s[0])) == IsSpace(s[0]);
      assert IsSpace(LowerChar(s[|s| - 1])) == IsSpace(s[|s| - 1]);
      if IsSpace(s[0]) {
        assert Lower(s)[1..] == Lower(s[1..]);
        LowerKeepsTrim(s[1..]);
      } else if IsSpace(s[|s| - 1]) {
        assert Lower(s)[..|s| - 1] == Lower(s[..|s| - 1]);
        LowerKeepsTrim(s[..|s| - 1]);
      }
    }
  }

  lemma {:induction false} TrimTwice(s: string)
    ensures Trim(Trim(s)) == Trim(s)
  {}

  lemma NormalIsNormal(s: string)
    ensures Trimmed(Normal(s)) && Lower(Normal(s)) == Normal(s)
  {
    LowerKeepsTrim(Trim(s));
    TrimTwice(s);
  }

  // ---------- issuing ----------

  lemma RetiringKeepsInv(ts: seq<Token>, email: string)
    requires OneLiveToken(ts) && StoredNormal(ts) && AttemptsBounded(ts)
    ensures var r := Retired(ts, email); OneLiveToken(r) && StoredNormal(r) && AttemptsBounded(r)
  {}

  /** Issuing to a trimmed address leaves that address with one live token, the new one. */
  lemma IssuingKeepsInv(ts: seq<Token>, email: string, code: string, now: int, minutes: int)
    requires OneLiveToken(ts) && StoredNormal(ts) && AttemptsBounded(ts) && Trimmed(email)
    ensures var r := Issued(ts, email, code, now, minutes);
      OneLiveToken(r) && StoredNormal(r) && AttemptsBounded(r) && Newest(r, email) == Some(|ts|)
  {
    RetiringKeepsInv(ts, email);
    NormalIsNormal(email);
    var r := Issued(ts, email, code, now, minutes);
    forall i, j | 0 <= i < j < |r| && !r[i].used && !r[j].used ensures r[i].email != r[j].email {
      if j == |ts| {
        assert !LiveFor(ts[i], email);
      }
    }
  }

  ghost predicate HasLive(ts: seq<Token>, address: string) {
    exists i :: 0 <= i < |ts| && !ts[i].used && ts[i].email == address
  }

  /** With an address that is not trimmed the pending tokens are not found: one live token
      per address is kept exactly when there was none to find. */
  lemma UntrimmedIssueExactly(ts: seq<Token>, email: string, code: string, now: int, minutes: int)
    requires OneLiveToken(ts) && StoredNormal(ts) && !Trimmed(email)
    requires forall i :: 0 <= i < |ts| ==> Trimmed(ts[i].email)
    ensures OneLiveToken(Issued(ts, email, code, now, minutes)) <==> !HasLive(ts, Normal(email))
  {
    var r := Issued(ts, email, code, now, minutes);
    LowerKeepsTrim(email);
    forall i | 0 <= i < |ts| ensures r[i] == ts[i] {
      if LiveFor(ts[i], email) {
        assert ts[i].email == Lower(email);
        assert |Trim(email)| == |Lower(email)|;
        TrimKeepsLength(email);
      }
    }
    if HasLive(ts, Normal(email)) {
      var i :| 0 <= i < |ts| && !ts[i].used && ts[i].email == Normal(email);
      assert r[i].email == r[|ts|].email;
    } else {
      forall i, j | 0 <= i < j < |r| && !r[i].used && !r[j].used ensures r[i].email != r[j].email {
        if j < |ts| {
          assert ts[i].email != ts[j].email;
        } else {
          assert ts[i].email != Normal(email);
        }
      }
    }
  }

  lemma TrimKeepsLength(s: string)
    ensures |Trim(s)| == |s| ==> Trimmed(s)
  {}

  // ---------- steps ----------

  lemma StepKeepsInv(s: State, op: Op)
    requires Inv(s)
    ensures Inv(Step(s, op))
  {
    match op
    case Registration(email, permitted, code, now) =>
      RegisterKeepsInv(s, email, permitted, code, now);
    case Verification(email, code, now) =>
      VerifyKeepsInv(s, Normal(email), Trim(code), now);
    case Resending(email, code, now) =>
      ResendKeepsInv(s, email, code, now);
    case ResetRequest(email, code, now) =>
      ResetRequestKeepsInv(s, email, code, now);
    case ResetConfirm(email, code, linkValid, passwordOk, now) =>
      ResetConfirmKeepsInv(s, email, code, linkValid, passwordOk, now);
  }

  lemma ResetRequestKeepsInv(s: State, rawEmail: string, code: string, now: int)
    requires Inv(s)
    ensures Inv(AfterResetRequest(s, rawEmail, code, now))
  {
    NormalIsNormal(rawEmail);
    IssuingKeepsInv(s.tokens, Normal(rawEmail), code, now, 60);
  }

  lemma ResetConfirmKeepsInv(s: State, rawEmail: string, rawCode: string, linkValid: bool, passwordOk: bool, now: int)
    requires Inv(s)
    ensures Inv(AfterConfirm(s, rawEmail, rawCode, linkValid, passwordOk, now))
  {
    if Normal(rawEmail) in s.users {
      RetiringKeepsInv(s.tokens, s.users[Normal(rawEmail)].email);
    }
  }

  lemma VerifyKeepsInv(s: State, email: string, code: string, now: int)
    requires Inv(s)
    ensures Inv(AfterVerify(s, email, code, now))
  {
    match VerifyReply(s, email, code, now)
    case WrongCode =>
      var k := Newest(s.tokens, email).value;
      assert s.tokens[k].attempts < MAX_ATTEMPTS;
    case Accepted(k) =>
    case _ =>
  }

  lemma ResendKeepsInv(s: State, rawEmail: string, code: string, now: int)
    requires Inv(s)
    ensures Inv(AfterResend(s, rawEmail, code, now))
  {
    if ResendReply(s, rawEmail, now).Sent? {
      IssuingKeepsInv(s.tokens, s.users[Normal(rawEmail)].email, code, now, 15);
    }
  }

  lemma RegisterKeepsInv(s: State, rawEmail: string, permitted: bool, code: string, now: int)
    requires Inv(s)
    ensures Inv(AfterRegister(s, rawEmail, permitted, code, now))
  {
    var email := Normal(rawEmail);
    NormalIsNormal(rawEmail);
    TrimTwice(rawEmail);
    var user := if email in s.users then s.users[email] else User(Trim(rawEmail), false, true);
    IssuingKeepsInv(s.tokens, user.email, code, now, 15);
  }

  /** Rows are never removed, and a used token stays used. */
  lemma StepKeepsUsed(s: State, op: Op, k: nat)
    requires k < |s.tokens|
    ensures k < |Step(s, op).tokens|
    ensures s.tokens[k].used ==> Step(s, op).tokens[k].used
  {
    match op
    case Verification(email, code, now) =>
    case Registration(email, permitted, code, now) =>
    case Resending(email, code, now) =>
    case ResetRequest(email, code, now) =>
    case ResetConfirm(email, code, linkValid, passwordOk, now) =>
  }

  /** An accepted token was live, and is used afterwards. */
  lemma AcceptanceSpends(s: State, op: Op, k: nat)
    requires AcceptedToken(s, op) == Some(k)
    ensures k < |s.tokens| && !s.tokens[k].used
    ensures k < |Step(s, op).tokens| && Step(s, op).tokens[k].used
  {
    match op
    case Verification(email, code, now) =>
      VerificationSpends(s, Normal(email), Trim(code), now, k);
    case ResetConfirm(email, code, linkValid, passwordOk, now) =>
      ResetSpends(s, email, code, linkValid, passwordOk, now, k);
    case _ =>
  }

  lemma VerificationSpends(s: State, email: string, code: string, now: int, k: nat)
    requires VerifyReply(s, email, code, now) == Accepted(k)
    ensures k < |s.tokens| && !s.tokens[k].used
    ensures AfterVerify(s, email, code, now).tokens == s.tokens[k := s.tokens[k].(used := true)]
  {}

  lemma ResetSpends(s: State, email: string, code: string, linkValid: bool, passwordOk: bool, now: int, k: nat)
    requires ConfirmReply(s, email, code, linkValid, passwordOk, now) == PasswordChanged(Some(k))
    ensures k < |s.tokens| && !s.tokens[k].used
    ensures |AfterConfirm(s, email, code, linkValid, passwordOk, now).tokens| == |s.tokens|
    ensures AfterConfirm(s, email, code, linkValid, passwordOk, now).tokens[k].used
  {}

  lemma VerifyCharges(s: State, email: string, code: string, now: int, k: nat)
    requires k < |s.tokens|
    ensures var t := AfterVerify(s, email, code, now);
      k < |t.tokens| && t.tokens[k].attempts == s.tokens[k].attempts +
        if VerifyReply(s, email, code, now).WrongCode? && Newest(s.tokens, email) == Some(k) then 1 else 0
  {}

  /** Attempts count exactly the mismatches charged. */
  lemma ChargeCounts(s: State, op: Op, k: nat)
    requires k < |s.tokens|
    ensures k < |Step(s, op).tokens|
    ensures Step(s, op).tokens[k].attempts == s.tokens[k].attempts + if ChargedToken(s, op) == Some(k) then 1 else 0
  {
    match op
    case Verification(email, code, now) =>
      VerifyCharges(s, Normal(email), Trim(code), now, k);
    case Registration(email, permitted, code, now) =>
    case Resending(email, code, now) =>
    case ResetRequest(email, code, now) =>
    case ResetConfirm(email, code, linkValid, passwordOk, now) =>
  }

  // ---------- main results ----------

  /** Over every run each address has at most one unused token. */
  lemma {:induction false} RunKeepsInv(s: State, ops: seq<Op>)
    requires Inv(s)
    ensures Inv(Run(s, ops))
    decreases |ops|
  {
    if ops != [] {
      StepKeepsInv(s, ops[0]);
      RunKeepsInv(Step(s, ops[0]), ops[1..]);
    }
  }

  lemma EmptyTablesAreSound()
    ensures Inv(State([], map[]))
  {}

  /** Used tokens never become unused, and a used token is never accepted. */
  lemma {:induction false} UsedStaysUsed(s: State, ops: seq<Op>, k: nat)
    requires Inv(s) && k < |s.tokens| && s.tokens[k].used
    ensures k < |Run(s, ops).tokens| && Run(s, ops).tokens[k].used
    ensures Acceptances(s, ops, k) == 0
    decreases |ops|
  {
    if ops != [] {
      StepKeepsInv(s, ops[0]);
      StepKeepsUsed(s, ops[0], k);
      if AcceptedToken(s, ops[0]) == Some(k) {
        AcceptanceSpends(s, ops[0], k);
      }
      UsedStaysUsed(Step(s, ops[0]), ops[1..], k);
    }
  }

  /** Across verification and reset together, a token is accepted at most once. */
  lemma {:induction false} AcceptedAtMostOnce(s: State, ops: seq<Op>, k: nat)
    requires Inv(s)
    ensures Acceptances(s, ops, k) <= 1
    decreases |ops|
  {
    if ops != [] {
      StepKeepsInv(s, ops[0]);
      if AcceptedToken(s, ops[0]) == Some(k) {
        AcceptanceSpends(s, ops[0], k);
        UsedStaysUsed(Step(s, ops[0]), ops[1..], k);
      } else {
        AcceptedAtMostOnce(Step(s, ops[0]), ops[1..], k);
      }
    }
  }

  /** The mismatches recorded against token `k`, none while it does not exist. */
  function AttemptsOf(s: State, k: nat): nat {
    if k < |s.tokens| then s.tokens[k].attempts else 0
  }

  /** A token enters the table with no attempts. */
  lemma NewTokensAreClean(s: State, op: Op, k: nat)
    ensures |s.tokens| <= k < |Step(s, op).tokens| ==>
      Step(s, op).tokens[k].attempts == 0 && ChargedToken(s, op) != Some(k)
  {
    match op
    case Verification(email, code, now) =>
      VerifyKeepsLength(s, Normal(email), Trim(code), now);
    case Registration(email, permitted, code, now) =>
    case Resending(email, code, now) =>
    case ResetRequest(email, code, now) =>
    case ResetConfirm(email, code, linkValid, passwordOk, now) =>
  }

  lemma VerifyKeepsLength(s: State, email: string, code: string, now: int)
    ensures |AfterVerify(s, email, code, now).tokens| == |s.tokens|
  {}

  lemma StepCharges(s: State, op: Op, k: nat)
    ensures AttemptsOf(Step(s, op), k) == AttemptsOf(s, k) + if ChargedToken(s, op) == Some(k) then 1 else 0
  {
    if k < |s.tokens| {
      ChargeCounts(s, op, k);
    } else if k < |Step(s, op).tokens| {
      NewTokensAreClean(s, op, k);
    }
  }

  /** Over every run attempts count exactly the mismatches charged, and at most five are
      ever charged to a token, whether it is there at the start or issued on the way. */
  lemma {:induction false} ChargesAreCounted(s: State, ops: seq<Op>, k: nat)
    requires Inv(s)
    ensures AttemptsOf(Run(s, ops), k) == AttemptsOf(s, k) + Charges(s, ops, k)
    ensures AttemptsOf(s, k) + Charges(s, ops, k) <= MAX_ATTEMPTS
    decreases |ops|
  {
    if ops != [] {
      StepKeepsInv(s, ops[0]);
      StepCharges(s, ops[0], k);
      ChargesAreCounted(Step(s, ops[0]), ops[1..], k);
    }
  }

  /** From empty tables on, over every run: each address has at most one unused token, and
      every token is accepted at most once and charged at most five mismatches. */
  lemma CodesAreSoundFromTheStart(ops: seq<Op>, k: nat)
    ensures Inv(Run(State([], map[]), ops))
    ensures Acceptances(State([], map[]), ops, k) <= 1
    ensures Charges(State([], map[]), ops, k) <= MAX_ATTEMPTS
  {
    EmptyTablesAreSound();
    RunKeepsInv(State([], map[]), ops);
    AcceptedAtMostOnce(State([], map[]), ops, k);
    ChargesAreCounted(State([], map[]), ops, k);
  }

  /** Verification accepts exactly when the account's one live token satisfies `is_valid`
      and the code matches it. */
  lemma VerificationAcceptsExactly(s: State, rawEmail: string, rawCode: string, now: int)
    requires Inv(s) && Normal(rawEmail) != "" && Trim(rawCode) != "" && Normal(rawEmail) in s.users
    ensures AcceptedToken(s, Verification(rawEmail, rawCode, now)).Some? <==>
      exists k :: 0 <= k < |s.tokens| && s.tokens[k].email == Normal(rawEmail)
        && IsValid(s.tokens[k], now) && s.tokens[k].code == Trim(rawCode)
  {
    AcceptanceIsTheReply(s, rawEmail, rawCode, now);
    NormalIsNormal(rawEmail);
    NormalisedAcceptsExactly(s, Normal(rawEmail), Trim(rawCode), now);
  }

  lemma AcceptanceIsTheReply(s: State, rawEmail: string, rawCode: string, now: int)
    ensures AcceptedToken(s, Verification(rawEmail, rawCode, now)).Some? <==>
      VerifyReply(s, Normal(rawEmail), Trim(rawCode), now).Accepted?
  {}

  lemma NormalisedAcceptsExactly(s: State, email: string, code: string, now: int)
    requires Inv(s) && email != "" && code != "" && email in s.users && Lower(email) == email
    ensures VerifyReply(s, email, code, now).Accepted? <==>
      exists k :: 0 <= k < |s.tokens| && s.tokens[k].email == email
        && IsValid(s.tokens[k], now) && s.tokens[k].code == code
  {
    var found := Newest(s.tokens, email);
    if found.Some? {
      assert s.tokens[found.value].email == email;
    }
    forall k | 0 <= k < |s.tokens| && s.tokens[k].email == email && !s.tokens[k].used
      ensures found == Some(k)
    {
      assert LiveFor(s.tokens[k], email);
    }
  }

  /** The newest row of the table is a token of this address, created at `now`. */
  predicate NewestIs(s: State, email: string, now: int) {
    && s.tokens != []
    && s.tokens[|s.tokens| - 1].email == email
    && s.tokens[|s.tokens| - 1].createdAt == now
  }

  lemma IssuedIsNewest(ts: seq<Token>, email: string, code: string, now: int, minutes: int)
    requires Trimmed(email) && Lower(email) == Normal(email)
    ensures var t := Issued(ts, email, code, now, minutes); t != [] && t[|t| - 1].email == Lower(email)
    ensures var t := Issued(ts, email, code, now, minutes); t[|t| - 1].createdAt == now
  {}

  lemma RegistrationSends(s: State, rawEmail: string, permitted: bool, code: string, now: int)
    requires Inv(s) && RegisterReply(s, rawEmail, permitted).Sent?
    ensures NewestIs(AfterRegister(s, rawEmail, permitted, code, now), Normal(rawEmail), now)
  {
    TrimTwice(rawEmail);
    var email := Normal(rawEmail);
    var user := if email in s.users then s.users[email] else User(Trim(rawEmail), false, true);
    IssuedIsNewest(s.tokens, user.email, code, now, 15);
  }

  lemma ResendSends(s: State, rawEmail: string, code: string, now: int)
    requires Inv(s) && ResendReply(s, rawEmail, now).Sent?
    ensures NewestIs(AfterResend(s, rawEmail, code, now), Normal(rawEmail), now)
  {
    IssuedIsNewest(s.tokens, s.users[Normal(rawEmail)].email, code, now, 15);
  }

  /** The request is answered with a code. */
  predicate ResetSendsCode(s: State, rawEmail: string) {
    var email := Normal(rawEmail);
    email != "" && email in s.users && s.users[email].active
  }

  lemma ResetRequestSends(s: State, rawEmail: string, code: string, now: int)
    requires Inv(s) && ResetSendsCode(s, rawEmail)
    ensures NewestIs(AfterResetRequest(s, rawEmail, code, now), Normal(rawEmail), now)
  {
    NormalIsNormal(rawEmail);
    IssuedIsNewest(s.tokens, Normal(rawEmail), code, now, 60);
  }

  /** The call sends a code to this account: a registration, a resend or a reset request. */
  predicate SendsCode(s: State, op: Op, email: string) {
    match op
    case Registration(raw, permitted, code, now) => Normal(raw) == email && RegisterReply(s, raw, permitted).Sent?
    case Resending(raw, code, now) => Normal(raw) == email && ResendReply(s, raw, now).Sent?
    case ResetRequest(raw, code, now) => Normal(raw) == email && ResetSendsCode(s, raw)
    case _ => false
  }

  lemma SendingLeavesNewest(s: State, op: Op, email: string)
    requires Inv(s) && SendsCode(s, op, email)
    ensures email != "" && NewestIs(Step(s, op), email, op.now)
  {
    match op
    case Registration(raw, permitted, code, now) => RegistrationSends(s, raw, permitted, code, now);
    case Resending(raw, code, now) => ResendSends(s, raw, code, now);
    case ResetRequest(raw, code, now) => ResetRequestSends(s, raw, code, now);
  }

  /** Right after any code was sent to an unverified account, a resend is refused for
      thirty seconds and then sends again. */
  lemma ResendWaitsThirtySeconds(s: State, op: Op, rawEmail: string, later: int)
    requires Inv(s)
    ensures var t, email := Step(s, op), Normal(rawEmail);
      SendsCode(s, op, email) && email in t.users && !t.users[email].verified ==>
        ResendReply(t, rawEmail, later) == if later < op.now + 30 then TooSoon else Sent
  {
    var t, email := Step(s, op), Normal(rawEmail);
    if SendsCode(s, op, email) && email in t.users && !t.users[email].verified {
      SendingLeavesNewest(s, op, email);
    }
  }

  /** A password reset never looks at the attempts: it accepts a code exactly when the
      account's live token is unexpired and carries it. */
  lemma {:induction false} ResetAcceptsExactly(s: State, rawEmail: string, rawCode: string, now: int)
    requires Inv(s) && Normal(rawEmail) in s.users && s.users[Normal(rawEmail)].active && Trim(rawCode) != ""
    ensures AcceptedToken(s, ResetConfirm(rawEmail, rawCode, false, true, now)).Some? <==>
      exists k :: 0 <= k < |s.tokens| && s.tokens[k].email == Normal(rawEmail)
        && !s.tokens[k].used && now <= s.tokens[k].expiresAt && s.tokens[k].code == Trim(rawCode)
  {
    var email := Normal(rawEmail);
    var found := NewestResettable(s.tokens, s.users[email].email, Trim(rawCode), now);
    if found.Some? {
      assert s.tokens[found.value].email == email;
    }
    forall k | 0 <= k < |s.tokens| && s.tokens[k].email == email && !s.tokens[k].used
        && now <= s.tokens[k].expiresAt && s.tokens[k].code == Trim(rawCode)
      ensures found.Some?
    {
      assert Resettable(s.tokens[k], s.users[email].email, Trim(rawCode), now);
    }
  }

  /** After a password change the account has no live token left. */
  lemma ResetUsesEverythingUp(s: State, rawEmail: string, rawCode: string, linkValid: bool, now: int)
    requires Inv(s) && ConfirmReply(s, rawEmail, rawCode, linkValid, true, now).PasswordChanged?
    ensures !HasLive(AfterConfirm(s, rawEmail, rawCode, linkValid, true, now).tokens, Normal(rawEmail))
  {
    var t := AfterConfirm(s, rawEmail, rawCode, linkValid, true, now);
    forall i | 0 <= i < |t.tokens| && t.tokens[i].email == Normal(rawEmail) ensures t.tokens[i].used {
      assert s.tokens[i].email == t.tokens[i].email;
    }
  }
}
