/** One-time e-mail codes: one token table shared by registration, verification, resend
    and password reset (apps/accounts/models.py, EmailVerificationToken, and
    apps/accounts/views.py). Rows stand in creation order; times are in seconds. */
module OneTimeCodes {
  import opened Text

  const MAX_ATTEMPTS: nat := 5
  const RESEND_SECONDS: int := 30

  datatype Token = Token(email: string, code: string, attempts: nat, used: bool, expiresAt: int, createdAt: int)

  /** Accounts by lower-cased address; `email` is the address as registered. */
  datatype User = User(email: string, verified: bool, active: bool)

  datatype State = State(tokens: seq<Token>, users: map<string, User>)

  function Normal(email: string): string {
    Lower(Trim(email))
  }

  predicate Trimmed(email: string) {
    Trim(email) == email
  }

  /** The unused row a query `email__iexact, is_used=False` can see. */
  predicate LiveFor(t: Token, email: string) {
    Lower(t.email) == Lower(email) && !t.used
  }

  predicate IsValid(t: Token, now: int) {
    !t.used && now <= t.expiresAt && t.attempts < MAX_ATTEMPTS
  }

  // ---------- the table ----------

  function Retired(ts: seq<Token>, email: string): (r: seq<Token>)
    ensures |r| == |ts|
    ensures forall i :: 0 <= i < |r| ==> r[i] == if LiveFor(ts[i], email) then ts[i].(used := true) else ts[i]
  {
    seq(|ts|, i requires 0 <= i < |ts| => if LiveFor(ts[i], email) then ts[i].(used := true) else ts[i])
  }

  /** generate_token: pending tokens of the address are used up, then one is added. The
      address is matched as given and stored trimmed and lower-cased. */
  function Issued(ts: seq<Token>, email: string, code: string, now: int, minutes: int): seq<Token> {
    Retired(ts, email) + [Token(Normal(email), code, 0, false, now + 60 * minutes, now)]
  }

  /** The newest live token of an address. */
  function Newest(ts: seq<Token>, email: string): (k: Option<nat>)
    ensures k.Some? ==> k.value < |ts| && LiveFor(ts[k.value], email)
    ensures k.None? <==> forall i :: 0 <= i < |ts| ==> !LiveFor(ts[i], email)
  {
    if ts == [] then None
    else if LiveFor(ts[|ts| - 1], email) then Some(|ts| - 1)
    else Newest(ts[..|ts| - 1], email)
  }

  predicate Resettable(t: Token, email: string, code: string, now: int) {
    LiveFor(t, email) && t.code == code && now <= t.expiresAt
  }

  /** The newest token that a password reset with this code would take. */
  function NewestResettable(ts: seq<Token>, email: string, code: string, now: int): (k: Option<nat>)
    ensures k.Some? ==> k.value < |ts| && Resettable(ts[k.value], email, code, now)
    ensures k.None? <==> forall i :: 0 <= i < |ts| ==> !Resettable(ts[i], email, code, now)
  {
    if ts == [] then None
    else if Resettable(ts[|ts| - 1], email, code, now) then Some(|ts| - 1)
    else NewestResettable(ts[..|ts| - 1], email, code, now)
  }

  predicate IsLastOf(ts: seq<Token>, email: string, i: nat)
    requires i < |ts|
  {
    Lower(ts[i].email) == Lower(email) && forall j :: i < j < |ts| ==> Lower(ts[j].email) != Lower(email)
  }

  /** When the newest token of an address, used or not, was created. */
  function LastCreated(ts: seq<Token>, email: string): (last: Option<int>)
    ensures last.None? <==> forall i :: 0 <= i < |ts| ==> Lower(ts[i].email) != Lower(email)
    ensures last.Some? ==> exists i :: 0 <= i < |ts| && ts[i].createdAt == last.value && IsLastOf(ts, email, i)
  {
    if ts == [] then None
    else if Lower(ts[|ts| - 1].email) == Lower(email) then Some(ts[|ts| - 1].createdAt)
    else LastCreated(ts[..|ts| - 1], email)
  }

  // ---------- outcomes ----------

  datatype Reply =
    | MissingFields | NoAccount | Refused
    | ExpiredOrInvalid | TooManyAttempts | WrongCode | Accepted(token: nat)
    | AlreadyVerified | TooSoon | Sent
    | PasswordChanged(spent: Option<nat>)

  /** Verification of an already normalised address and trimmed code. */
  function VerifyReply(s: State, email: string, code: string, now: int): Reply {
    if email == "" || code == "" then MissingFields
    else if email !in s.users then NoAccount
    else
      match Newest(s.tokens, email)
      case None => ExpiredOrInvalid
      case Some(k) =>
        var t := s.tokens[k];
        if now > t.expiresAt then ExpiredOrInvalid
        else if t.attempts >= MAX_ATTEMPTS then TooManyAttempts
        else if t.code != code then WrongCode
        else Accepted(k)
  }

  /** A mismatch is charged to the live token; a match spends it and verifies the user. */
  function AfterVerify(s: State, email: string, code: string, now: int): State {
    match VerifyReply(s, email, code, now)
    case WrongCode =>
      var k := Newest(s.tokens, email).value;
      s.(tokens := s.tokens[k := s.tokens[k].(attempts := s.tokens[k].attempts + 1)])
    case Accepted(k) =>
      State(s.tokens[k := s.tokens[k].(used := true)], s.users[email := s.users[email].(verified := true)])
    case _ => s
  }

  function ResendReply(s: State, rawEmail: string, now: int): Reply {
    var email := Normal(rawEmail);
    if email == "" then MissingFields
    else if email !in s.users then NoAccount
    else if s.users[email].verified then AlreadyVerified
    else
      var last := LastCreated(s.tokens, email);
      if last.Some? && now - last.value < RESEND_SECONDS then TooSoon else Sent
  }

  function AfterResend(s: State, rawEmail: string, code: string, now: int): State {
    if ResendReply(s, rawEmail, now).Sent? then
      s.(tokens := Issued(s.tokens, s.users[Normal(rawEmail)].email, code, now, 15))
    else s
  }

  function RegisterReply(s: State, rawEmail: string, permitted: bool): Reply {
    var email := Normal(rawEmail);
    if email == "" then MissingFields
    else if !permitted || (email in s.users && s.users[email].verified) then Refused
    else Sent
  }

  /** A new account, or an unverified one again, gets a fresh code. */
  function AfterRegister(s: State, rawEmail: string, permitted: bool, code: string, now: int): State {
    var email := Normal(rawEmail);
    if RegisterReply(s, rawEmail, permitted).Sent? then
      var user := if email in s.users then s.users[email] else User(Trim(rawEmail), false, true);
      State(Issued(s.tokens, user.email, code, now, 15), s.users[email := user])
    else s
  }

  /** A reset request always answers alike; only an active account gets a code. */
  function AfterResetRequest(s: State, rawEmail: string, code: string, now: int): State {
    var email := Normal(rawEmail);
    if email != "" && email in s.users && s.users[email].active then
      s.(tokens := Issued(s.tokens, email, code, now, 60))
    else s
  }

  /** A reset by link, or by any unexpired live code of the account. */
  function ConfirmReply(s: State, rawEmail: string, rawCode: string, linkValid: bool, passwordOk: bool,
                        now: int): Reply
  {
    var email, code := Normal(rawEmail), Trim(rawCode);
    if !passwordOk || email !in s.users || !s.users[email].active then Refused
    else if linkValid then PasswordChanged(None)
    else if code == "" then Refused
    else
      match NewestResettable(s.tokens, s.users[email].email, code, now)
      case None => Refused
      case Some(k) => PasswordChanged(Some(k))
  }

  /** A changed password uses up every pending token of the account. */
  function AfterConfirm(s: State, rawEmail: string, rawCode: string, linkValid: bool, passwordOk: bool,
                        now: int): State
  {
    if ConfirmReply(s, rawEmail, rawCode, linkValid, passwordOk, now).PasswordChanged? then
      s.(tokens := Retired(s.tokens, s.users[Normal(rawEmail)].email))
    else s
  }

  class Accounts {
    var tokens: seq<Token>
    var users: map<string, User>

    constructor ()
      ensures Tables() == State([], map[])
    {
      tokens, users := [], map[];
    }

    function Tables(): State
      reads this
    {
      State(tokens, users)
    }

    /** The bulk update of pending tokens. */
    method UseUp(email: string)
      modifies this`tokens
      ensures tokens == Retired(old(tokens), email)
    {
      var i := 0;
      while i < |tokens|
        invariant 0 <= i <= |tokens| == |old(tokens)|
        invariant forall j :: 0 <= j < i ==> tokens[j] == Retired(old(tokens), email)[j]
        invariant forall j :: i <= j < |tokens| ==> tokens[j] == old(tokens)[j]
      {
        if LiveFor(tokens[i], email) {
          tokens := tokens[i := tokens[i].(used := true)];
        }
        i := i + 1;
      }
    }

    method GenerateToken(email: string, code: string, now: int, minutes: int)
      modifies this`tokens
      ensures tokens == Issued(old(tokens), email, code, now, minutes)
    {
      UseUp(email);
      tokens := tokens + [Token(Normal(email), code, 0, false, now + 60 * minutes, now)];
    }

    method Register(rawEmail: string, permitted: bool, code: string, now: int) returns (reply: Reply)
      modifies this
      ensures reply == RegisterReply(old(Tables()), rawEmail, permitted)
      ensures Tables() == AfterRegister(old(Tables()), rawEmail, permitted, code, now)
    {
      var email := Normal(rawEmail);
      if email == "" {
        return MissingFields;
      }
      if !permitted || (email in users && users[email].verified) {
        return Refused;
      }
      var user := if email in users then users[email] else User(Trim(rawEmail), false, true);
      users := users[email := user];
      GenerateToken(user.email, code, now, 15);
      reply := Sent;
    }

    method VerifyEmail(rawEmail: string, rawCode: string, now: int) returns (reply: Reply)
      modifies this
      ensures reply == VerifyReply(old(Tables()), Normal(rawEmail), Trim(rawCode), now)
      ensures Tables() == AfterVerify(old(Tables()), Normal(rawEmail), Trim(rawCode), now)
    {
      reply := CheckCode(Normal(rawEmail), Trim(rawCode), now);
    }

    method CheckCode(email: string, code: string, now: int) returns (reply: Reply)
      modifies this
      ensures reply == VerifyReply(old(Tables()), email, code, now)
      ensures Tables() == AfterVerify(old(Tables()), email, code, now)
    {
      if email == "" || code == "" {
        return MissingFields;
      }
      if email !in users {
        return NoAccount;
      }
      var found := Newest(tokens, email);
      if found.None? || now > tokens[found.value].expiresAt {
        return ExpiredOrInvalid;
      }
      var k := found.value;
      if tokens[k].attempts >= MAX_ATTEMPTS {
        return TooManyAttempts;
      }
      if tokens[k].code != code {
        tokens := tokens[k := tokens[k].(attempts := tokens[k].attempts + 1)];
        return WrongCode;
      }
      tokens := tokens[k := tokens[k].(used := true)];
      users := users[email := users[email].(verified := true)];
      reply := Accepted(k);
    }

    method ResendCode(rawEmail: string, code: string, now: int) returns (reply: Reply)
      modifies this`tokens
      ensures reply == ResendReply(old(Tables()), rawEmail, now)
      ensures Tables() == AfterResend(old(Tables()), rawEmail, code, now)
    {
      var email := Normal(rawEmail);
      if email == "" {
        return MissingFields;
      }
      if email !in users {
        return NoAccount;
      }
      if users[email].verified {
        return AlreadyVerified;
      }
      var last := LastCreated(tokens, email);
      if last.Some? && now - last.value < RESEND_SECONDS {
        return TooSoon;
      }
      GenerateToken(users[email].email, code, now, 15);
      reply := Sent;
    }

    method RequestReset(rawEmail: string, code: string, now: int) returns (reply: Reply)
      modifies this`tokens
      ensures reply == if Normal(rawEmail) == "" then MissingFields else Sent
      ensures Tables() == AfterResetRequest(old(Tables()), rawEmail, code, now)
    {
      var email := Normal(rawEmail);
      if email == "" {
        return MissingFields;
      }
      if email in users && users[email].active {
        GenerateToken(email, code, now, 60);
      }
      reply := Sent;
    }

    method ConfirmReset(rawEmail: string, rawCode: string, linkValid: bool, passwordOk: bool, now: int)
      returns (reply: Reply)
      modifies this`tokens
      ensures reply == ConfirmReply(old(Tables()), rawEmail, rawCode, linkValid, passwordOk, now)
      ensures Tables() == AfterConfirm(old(Tables()), rawEmail, rawCode, linkValid, passwordOk, now)
    {
      var email, code := Normal(rawEmail), Trim(rawCode);
      if !passwordOk || email !in users || !users[email].active {
        return Refused;
      }
      var spent: Option<nat> := None;
      if !linkValid {
        if code == "" {
          return Refused;
        }
        spent := NewestResettable(tokens, users[email].email, code, now);
        if spent.None? {
          return Refused;
        }
        tokens := tokens[spent.value := tokens[spent.value].(used := true)];
      }
      UseUp(users[email].email);
      reply := PasswordChanged(spent);
    }
  }

  // ---------- runs ----------

  datatype Op =
    | Registration(email: string, permitted: bool, code: string, now: int)
    | Verification(email: string, code: string, now: int)
    | Resending(email: string, code: string, now: int)
    | ResetRequest(email: string, code: string, now: int)
    | ResetConfirm(email: string, code: string, linkValid: bool, passwordOk: bool, now: int)

  function Step(s: State, op: Op): State {
    match op
    case Registration(email, permitted, code, now) => AfterRegister(s, email, permitted, code, now)
    case Verification(email, code, now) => AfterVerify(s, Normal(email), Trim(code), now)
    case Resending(email, code, now) => AfterResend(s, email, code, now)
    case ResetRequest(email, code, now) => AfterResetRequest(s, email, code, now)
    case ResetConfirm(email, code, linkValid, passwordOk, now) =>
      AfterConfirm(s, email, code, linkValid, passwordOk, now)
  }

  /** The token a call accepts, at either endpoint. */
  function AcceptedToken(s: State, op: Op): Option<nat> {
    match op
    case Verification(email, code, now) =>
      (match VerifyReply(s, Normal(email), Trim(code), now)
       case Accepted(k) => Some(k)
       case _ => None)
    case ResetConfirm(email, code, linkValid, passwordOk, now) =>
      (match ConfirmReply(s, email, code, linkValid, passwordOk, now)
       case PasswordChanged(k) => k
       case _ => None)
    case _ => None
  }

  /** The token a call charges a mismatch to. */
  function ChargedToken(s: State, op: Op): Option<nat> {
    match op
    case Verification(email, code, now) =>
      if VerifyReply(s, Normal(email), Trim(code), now).WrongCode? then Newest(s.tokens, Normal(email)) else None
    case _ => None
  }

  function Run(s: State, ops: seq<Op>): State
    decreases |ops|
  {
    if ops == [] then s else Run(Step(s, ops[0]), ops[1..])
  }

  /** How often token `k` is accepted along a run. */
  function Acceptances(s: State, ops: seq<Op>, k: nat): nat
    decreases |ops|
  {
    if ops == [] then 0
    else (if AcceptedToken(s, ops[0]) == Some(k) then 1 else 0) + Acceptances(Step(s, ops[0]), ops[1..], k)
  }

  /** How many mismatches are charged to token `k` along a run. */
  function Charges(s: State, ops: seq<Op>, k: nat): nat
    decreases |ops|
  {
    if ops == [] then 0
    else (if ChargedToken(s, ops[0]) == Some(k) then 1 else 0) + Charges(Step(s, ops[0]), ops[1..], k)
  }
}
