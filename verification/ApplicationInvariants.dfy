/** What every run of the application and permit services keeps. */
module ApplicationInvariants {
  import opened Applications

  /** Statuses an application can only reach with a permit already issued. */
  predicate Licensed(s: Status) {
    s == ConditionalApproval || s == Approved || s == Expired || s == Renewed
  }

  ghost predicate IsPermitOf(s: State, p: nat, i: nat) {
    p < |s.permits| && s.permits[p].application == i
  }

  ghost predicate AtMostOnePermit(s: State) {
    forall p, q :: 0 <= p < q < |s.permits| ==> s.permits[p].application != s.permits[q].application
  }

  /** Exactly one permit row belongs to application `i`. */
  ghost predicate HasOnePermit(s: State, i: nat) {
    exists p :: IsPermitOf(s, p, i) && forall q :: IsPermitOf(s, q, i) ==> q == p
  }

  ghost predicate LicensedHavePermits(s: State) {
    forall i :: 0 <= i < |s.applications| && Licensed(s.applications[i].status) ==> PermitOf(s.permits, i).Some?
  }

  ghost predicate ApprovedProjectsActive(s: State)
    requires Linked(s)
  {
    forall i :: 0 <= i < |s.applications| && s.applications[i].status == Approved ==>
      s.projects[s.applications[i].project] == Active
  }

  ghost predicate PermitsMatchProjects(s: State)
    requires Linked(s)
  {
    forall p :: 0 <= p < |s.permits| ==> s.permits[p].project == s.applications[s.permits[p].application].project
  }

  ghost predicate Inv(s: State) {
    && Linked(s)
    && AtMostOnePermit(s)
    && LicensedHavePermits(s)
    && ApprovedProjectsActive(s)
    && PermitsMatchProjects(s)
  }

  lemma StartIsSound(projects: seq<ProjectStatus>)
    ensures Inv(State(projects, [], []))
  {}

  /** Issuing a permit to an application without one. */
  lemma IssueKeepsInv(s: State, i: nat)
    requires Linked(s) && AtMostOnePermit(s) && PermitsMatchProjects(s) && ApprovedProjectsActive(s)
    requires i < |s.applications|
    requires forall j :: 0 <= j < |s.applications| && j != i && Licensed(s.applications[j].status) ==>
      PermitOf(s.permits, j).Some?
    ensures Inv(GetOrCreate(s, i))
  {
    var t := GetOrCreate(s, i);
    forall j | 0 <= j < |t.applications| && Licensed(t.applications[j].status)
      ensures PermitOf(t.permits, j).Some?
    {
      PermitsPersist(s, t, j);
    }
  }

  /** Rows are never deleted and never change owner. */
  lemma PermitsPersist(s: State, t: State, j: nat)
    requires |s.permits| <= |t.permits|
    requires forall p :: 0 <= p < |s.permits| ==> t.permits[p].application == s.permits[p].application
    ensures PermitOf(s.permits, j).Some? ==> PermitOf(t.permits, j).Some?
  {
    if PermitOf(s.permits, j).Some? {
      var p := PermitOf(s.permits, j).value;
      assert t.permits[p].application == j;
    }
  }

  lemma EditKeepsInv(s: State, t: State)
    requires Inv(s)
    requires |t.projects| == |s.projects| && |t.applications| == |s.applications| && |t.permits| == |s.permits|
    requires forall k :: 0 <= k < |s.projects| ==> t.projects[k] == s.projects[k] || t.projects[k] == Active
    requires forall i :: 0 <= i < |s.applications| ==> t.applications[i].project == s.applications[i].project
    requires forall p :: 0 <= p < |s.permits| ==>
      t.permits[p].application == s.permits[p].application && t.permits[p].project == s.permits[p].project
    requires forall i :: 0 <= i < |s.applications| && Licensed(t.applications[i].status) ==>
      Licensed(s.applications[i].status) || PermitOf(s.permits, i).Some?
    requires forall i :: 0 <= i < |s.applications| && t.applications[i].status == Approved ==>
      s.applications[i].status == Approved || t.projects[t.applications[i].project] == Active
    ensures Inv(t)
  {
    forall i | 0 <= i < |t.applications| && Licensed(t.applications[i].status)
      ensures PermitOf(t.permits, i).Some?
    {
      PermitsPersist(s, t, i);
    }
  }

  lemma ApprovalKeepsInv(s: State, i: nat)
    requires Inv(s) && i < |s.applications|
    ensures Inv(Transitioned(s, i, Approved))
  {
    var t := WithStatus(s, i, Approved);
    if PermitOf(s.permits, i).Some? {
      EditKeepsInv(s, Transitioned(s, i, Approved));
    } else {
      IssueKeepsInv(t.(projects := t.projects[t.applications[i].project := Active]), i);
    }
  }

  lemma TransitionKeepsInv(s: State, i: nat, status: Status)
    requires Inv(s) && i < |s.applications| && status in ValidTransitions(s.applications[i].status)
    ensures Inv(Transitioned(s, i, status))
  {
    var t := WithStatus(s, i, status);
    if status == Approved {
      ApprovalKeepsInv(s, i);
    } else if status == ConditionalApproval {
      IssueKeepsInv(t, i);
    } else {
      EditKeepsInv(s, t);
    }
  }

  lemma CreateKeepsInv(s: State, project: nat)
    requires Inv(s)
    ensures Inv(Step(s, Create(project)))
  {
    var t := Step(s, Create(project));
    forall i | 0 <= i < |t.applications| && Licensed(t.applications[i].status)
      ensures PermitOf(t.permits, i).Some?
    {
      assert t.applications[i] == s.applications[i];
    }
  }

  lemma RenewKeepsInv(s: State, p: nat)
    requires Inv(s)
    ensures Inv(Step(s, Renew(p)))
  {
    var t := Step(s, Renew(p));
    if t != s {
      EditKeepsInv(s, t);
    }
  }

  lemma StepKeepsInv(s: State, op: Op)
    requires Inv(s)
    ensures Inv(Step(s, op))
  {
    var t := Step(s, op);
    match op
    case Create(project) =>
      CreateKeepsInv(s, project);
    case Transition(i, status) =>
      if t != s {
        TransitionKeepsInv(s, i, status);
      }
    case Assign(i) =>
      EditKeepsInv(s, t);
    case Renew(p) =>
      RenewKeepsInv(s, p);
    case Suspend(p) =>
      EditKeepsInv(s, t);
    case Revoke(p) =>
      EditKeepsInv(s, t);
  }

  lemma {:induction false} RunKeepsInv(s: State, ops: seq<Op>)
    requires Inv(s)
    ensures Inv(Run(s, ops))
    decreases |ops|
  {
    if ops != [] {
      StepKeepsInv(s, ops[0]);
      RunKeepsInv(Step(s, ops[0]), ops[1..]);
    }
  }

  /** Over every run of applications sharing projects: an approved, conditionally
      approved, expired or renewed application has exactly one permit, and the project of
      an approved one is active. */
  lemma LicensedHaveExactlyOnePermit(projects: seq<ProjectStatus>, ops: seq<Op>, i: nat)
    requires var t := Run(State(projects, [], []), ops);
      i < |t.applications| && Licensed(t.applications[i].status)
    ensures var t := Run(State(projects, [], []), ops);
      && HasOnePermit(t, i)
      && t.applications[i].project < |t.projects|
      && (t.applications[i].status == Approved ==> t.projects[t.applications[i].project] == Active)
  {
    StartIsSound(projects);
    RunKeepsInv(State(projects, [], []), ops);
    var t := Run(State(projects, [], []), ops);
    var p := PermitOf(t.permits, i).value;
    assert IsPermitOf(t, p, i);
  }

  // ---------- approval activates ----------

  ghost predicate InForce(s: State, i: nat, p: nat) {
    && i < |s.applications| && s.applications[i].project < |s.projects|
    && IsPermitOf(s, p, i)
    && s.permits[p].status == PermitActive
    && s.projects[s.applications[i].project] == Active
  }

  /** Entering APPROVED puts the project and the application's permit in force, even a
      permit that was suspended or revoked before. */
  lemma {:induction false} ApprovalPutsInForce(s: State, i: nat)
    requires Inv(s) && i < |s.applications| && Approved in ValidTransitions(s.applications[i].status)
    ensures var t := Step(s, Transition(i, Approved));
      PermitOf(t.permits, i).Some? && InForce(t, i, PermitOf(t.permits, i).value)
  {
    var t := Step(s, Transition(i, Approved));
    TransitionKeepsInv(s, i, Approved);
    var p := PermitOf(t.permits, i).value;
    if PermitOf(s.permits, i).Some? {
      var q := PermitOf(s.permits, i).value;
      assert t.permits[q].application == i;
      assert p == q;
    }
  }

  lemma StepKeepsInForce(s: State, op: Op, i: nat, p: nat)
    requires Inv(s) && InForce(s, i, p)
    ensures InForce(Step(s, op), i, p) <==> op != Suspend(p) && op != Revoke(p)
  {
    if op.Transition? {
      TransitionKeepsInForce(s, op.application, op.status, i, p);
    }
  }

  lemma TransitionKeepsInForce(s: State, j: nat, status: Status, i: nat, p: nat)
    requires Inv(s) && InForce(s, i, p)
    ensures InForce(Step(s, Transition(j, status)), i, p)
  {}

  /** In force stays in force over every run that neither suspends nor revokes that permit. */
  lemma {:induction false} InForceLasts(s: State, ops: seq<Op>, i: nat, p: nat)
    requires Inv(s) && InForce(s, i, p)
    requires Suspend(p) !in ops && Revoke(p) !in ops
    ensures InForce(Run(s, ops), i, p)
    decreases |ops|
  {
    if ops != [] {
      StepKeepsInv(s, ops[0]);
      StepKeepsInForce(s, ops[0], i, p);
      InForceLasts(Step(s, ops[0]), ops[1..], i, p);
    }
  }

  // ---------- a withdrawn permit ----------

  ghost predicate Withdrawn(s: State, p: nat) {
    p < |s.permits| && (s.permits[p].status == Suspended || s.permits[p].status == Revoked)
  }

  /** A permit once suspended or revoked comes back into force under a service call
      exactly when the call approves its application; it is never renewed. */
  lemma StepKeepsWithdrawn(s: State, op: Op, p: nat)
    requires Inv(s) && Withdrawn(s, p)
    ensures var i := s.permits[p].application;
      Withdrawn(Step(s, op), p) <==>
        !(op == Transition(i, Approved) && Approved in ValidTransitions(s.applications[i].status))
  {
    var i := s.permits[p].application;
    if op.Transition? && PermitOf(s.permits, op.application).Some? {
      var q := PermitOf(s.permits, op.application).value;
      assert op.application == i ==> q == p;
    }
  }

  /** So over every run that does not approve that application. */
  lemma {:induction false} WithdrawalLasts(s: State, ops: seq<Op>, p: nat)
    requires Inv(s) && Withdrawn(s, p)
    requires Transition(s.permits[p].application, Approved) !in ops
    ensures Withdrawn(Run(s, ops), p)
    decreases |ops|
  {
    if ops != [] {
      StepKeepsInv(s, ops[0]);
      StepKeepsWithdrawn(s, ops[0], p);
      StepKeepsOwner(s, ops[0], p);
      WithdrawalLasts(Step(s, ops[0]), ops[1..], p);
    }
  }

  lemma StepKeepsOwner(s: State, op: Op, p: nat)
    requires p < |s.permits|
    ensures p < |Step(s, op).permits| && Step(s, op).permits[p].application == s.permits[p].application
  {}

  // ---------- no approval without a review ----------

  /** The statuses of application `i` along a run, one per state. */
  function Trace(s: State, ops: seq<Op>, i: nat): (t: seq<Status>)
    requires i < |s.applications|
    ensures |t| == |ops| + 1 && t[0] == s.applications[i].status
    decreases |ops|
  {
    if ops == [] then [s.applications[i].status]
    else [s.applications[i].status] + Trace(Step(s, ops[0]), ops[1..], i)
  }

  /** Position `k` is under review with neither submission nor approval after it, up to `n`. */
  ghost predicate ReviewedAt(t: seq<Status>, k: nat, n: nat) {
    && k < n <= |t|
    && t[k] == UnderReview
    && forall j :: k < j < n ==> t[j] != Submitted && t[j] != Approved
  }

  ghost predicate ReviewedBefore(t: seq<Status>, n: nat) {
    exists k :: ReviewedAt(t, k, n)
  }

  predicate AfterReview(s: Status) {
    s == UnderReview || s == ReviewCompleted || s == ApprovalRequested || s == ConditionalApproval
  }

  predicate EntersApproved(t: seq<Status>, n: nat) {
    0 < n < |t| && t[n] == Approved && t[n - 1] != Approved
  }

  ghost predicate ApprovalsReviewed(t: seq<Status>) {
    forall n :: EntersApproved(t, n) ==> ReviewedBefore(t, n)
  }

  /** What a trace has to satisfy to go on safely. */
  ghost predicate Good(t: seq<Status>) {
    && t != []
    && ApprovalsReviewed(t)
    && (AfterReview(t[|t| - 1]) ==> ReviewedBefore(t, |t|))
  }

  predicate Moves(a: Status, b: Status) {
    a == b || b in ValidTransitions(a) || b == Renewed
  }

  lemma StepMoves(s: State, op: Op, i: nat)
    requires i < |s.applications|
    ensures i < |Step(s, op).applications|
    ensures Moves(s.applications[i].status, Step(s, op).applications[i].status)
  {}

  lemma GoodExtends(t: seq<Status>, b: Status)
    requires Good(t) && Moves(t[|t| - 1], b)
    ensures Good(t + [b])
  {
    var u := t + [b];
    var n := |t|;
    if AfterReview(t[n - 1]) {
      var k :| ReviewedAt(t, k, n);
      assert ReviewedAt(u, k, n);
      if b != Approved {
        assert b == Submitted || ReviewedAt(u, k, n + 1);
      }
    }
    if b == UnderReview {
      assert ReviewedAt(u, n, n + 1);
    }
    forall m: nat | EntersApproved(u, m) ensures ReviewedBefore(u, m) {
      if m < n {
        assert EntersApproved(t, m);
        var k :| ReviewedAt(t, k, m);
        assert ReviewedAt(u, k, m);
      }
    }
  }

  lemma Splice(t: seq<Status>, a: Status, rest: seq<Status>)
    requires rest != []
    ensures t + [rest[0]] + rest[1..] == t + ([a] + rest)[1..]
  {}

  lemma {:induction false} TraceStaysGood(t: seq<Status>, s: State, ops: seq<Op>, i: nat)
    requires i < |s.applications| && Good(t) && t[|t| - 1] == s.applications[i].status
    ensures Good(t + Trace(s, ops, i)[1..])
    decreases |ops|
  {
    if ops == [] {
      assert t + Trace(s, ops, i)[1..] == t;
    } else {
      var next := Step(s, ops[0]);
      StepMoves(s, ops[0], i);
      var u := t + [next.applications[i].status];
      GoodExtends(t, next.applications[i].status);
      TraceStaysGood(u, next, ops[1..], i);
      Splice(t, s.applications[i].status, Trace(next, ops[1..], i));
    }
  }

  /** From its submission on, every entry of an application into APPROVED has an
      UNDER_REVIEW state after the latest SUBMITTED and after any earlier approval. */
  lemma EveryApprovalWasReviewed(s: State, ops: seq<Op>, i: nat)
    requires i < |s.applications| && s.applications[i].status == Submitted
    ensures ApprovalsReviewed(Trace(s, ops, i))
  {
    var t := [Submitted];
    assert Good(t);
    TraceStaysGood(t, s, ops, i);
    assert t + Trace(s, ops, i)[1..] == Trace(s, ops, i);
  }

  // ---------- permits of rejected applications ----------

  /** The application was at some time approved, conditionally or not. */
  ghost predicate WasLicensed(t: seq<Status>) {
    exists k :: 0 <= k < |t| && (t[k] == ConditionalApproval || t[k] == Approved)
  }

  lemma OtherCallsIssueNothing(s: State, op: Op, i: nat)
    requires Linked(s) && i < |s.applications| && PermitOf(s.permits, i).None?
    requires op != Transition(i, ConditionalApproval) && op != Transition(i, Approved)
    ensures PermitOf(Step(s, op).permits, i).None?
  {
    var t := Step(s, op);
    forall p | 0 <= p < |t.permits| ensures t.permits[p].application != i {
      if p < |s.permits| {
        StepKeepsOwner(s, op, p);
      }
    }
  }

  lemma {:induction false} StepIssuesExactly(s: State, op: Op, i: nat)
    requires Inv(s) && i < |s.applications|
    ensures var t := Step(s, op);
      && i < |t.applications|
      && (PermitOf(t.permits, i).Some? <==>
           PermitOf(s.permits, i).Some?
           || t.applications[i].status == ConditionalApproval || t.applications[i].status == Approved)
  {
    var t := Step(s, op);
    StepKeepsInv(s, op);
    StepMoves(s, op, i);
    if PermitOf(s.permits, i).Some? {
      StepKeepsOwner(s, op, PermitOf(s.permits, i).value);
    } else if op == Transition(i, ConditionalApproval) || op == Transition(i, Approved) {
      assert t == s || t.applications[i].status == op.status;
    } else {
      OtherCallsIssueNothing(s, op, i);
    }
  }

  /** An application holds a permit exactly when it was ever approved, conditionally or
      not: neither rejection nor expiry takes the permit away. */
  lemma {:induction false} PermitIssuedExactly(s: State, ops: seq<Op>, i: nat)
    requires Inv(s) && i < |s.applications|
    ensures PermitOf(Run(s, ops).permits, i).Some? <==>
      PermitOf(s.permits, i).Some? || WasLicensed(Trace(s, ops, i))
    decreases |ops|
  {
    var t := Trace(s, ops, i);
    assert Licensed(t[0]) ==> PermitOf(s.permits, i).Some?;
    if ops != [] {
      var next := Step(s, ops[0]);
      StepKeepsInv(s, ops[0]);
      StepIssuesExactly(s, ops[0], i);
      var rest := Trace(next, ops[1..], i);
      PermitIssuedExactly(next, ops[1..], i);
      assert t == [t[0]] + rest;
      LicenseSplits(t[0], rest);
    }
  }

  lemma LicenseSplits(first: Status, rest: seq<Status>)
    ensures WasLicensed([first] + rest) <==>
      first == ConditionalApproval || first == Approved || WasLicensed(rest)
  {
    var t := [first] + rest;
    if k :| 0 <= k < |rest| && (rest[k] == ConditionalApproval || rest[k] == Approved) {
      assert t[k + 1] == rest[k];
    }
    if first == ConditionalApproval || first == Approved {
      assert t[0] == first;
    }
  }

  ghost predicate NeverExpired(s: State) {
    forall p :: 0 <= p < |s.permits| ==> s.permits[p].status != PermitExpired
  }

  lemma {:induction false} RunKeepsNeverExpired(s: State, ops: seq<Op>)
    requires NeverExpired(s)
    ensures NeverExpired(Run(s, ops))
    decreases |ops|
  {
    if ops != [] {
      StepKeepsNeverExpired(s, ops[0]);
      RunKeepsNeverExpired(Step(s, ops[0]), ops[1..]);
    }
  }

  ghost predicate HasActivePermit(s: State, i: nat) {
    exists p: nat :: IsPermitOf(s, p, i) && s.permits[p].status == PermitActive
  }

  ghost predicate PermitWithdrawn(s: State, i: nat) {
    exists p: nat :: IsPermitOf(s, p, i) && Withdrawn(s, p)
  }

  /** A rejected application keeps an active permit, and can then be made RENEWED, exactly
      when it was ever approved, conditionally or not, and its permit is not suspended or
      revoked: rejecting it withdraws nothing. */
  lemma {:induction false} RejectedKeepsPermitExactly(s: State, ops: seq<Op>, i: nat)
    requires Inv(s) && NeverExpired(s) && i < |s.applications| && PermitOf(s.permits, i).None?
    requires i < |Run(s, ops).applications| && Run(s, ops).applications[i].status == Rejected
    ensures var t := Run(s, ops);
      HasActivePermit(t, i) <==> WasLicensed(Trace(s, ops, i)) && !PermitWithdrawn(t, i)
    ensures var t := Run(s, ops);
      HasActivePermit(t, i) <==> exists p :: IsRenewedBy(t, i, p)
  {
    RunKeepsInv(s, ops);
    RunKeepsNeverExpired(s, ops);
    PermitIssuedExactly(s, ops, i);
    ActiveExactly(Run(s, ops), i);
    RenewedExactly(Run(s, ops), i);
  }

  lemma ActiveExactly(s: State, i: nat)
    requires Inv(s) && NeverExpired(s)
    ensures HasActivePermit(s, i) <==> PermitOf(s.permits, i).Some? && !PermitWithdrawn(s, i)
  {
    if PermitOf(s.permits, i).Some? {
      var p := PermitOf(s.permits, i).value;
      assert IsPermitOf(s, p, i);
      assert forall q :: IsPermitOf(s, q, i) ==> q == p;
    }
  }

  lemma RenewedExactly(s: State, i: nat)
    requires Inv(s) && NeverExpired(s) && i < |s.applications| && s.applications[i].status == Rejected
    ensures HasActivePermit(s, i) <==> exists p :: IsRenewedBy(s, i, p)
  {
    if p: nat :| IsPermitOf(s, p, i) && s.permits[p].status == PermitActive {
      assert IsRenewedBy(s, i, p);
    }
    if p: nat :| IsRenewedBy(s, i, p) {
      assert IsPermitOf(s, p, i);
    }
  }

  /** Renewing permit `p` turns application `i` into RENEWED. */
  ghost predicate IsRenewedBy(s: State, i: nat, p: nat) {
    var t := Step(s, Renew(p));
    && i < |s.applications| && s.applications[i].status != Renewed
    && i < |t.applications| && t.applications[i].status == Renewed
  }

  /** A conditionally approved application is rejected and then renewed, without ever
      having been approved. */
  lemma RejectedApplicationIsRenewed(ops: seq<Op>)
    requires ops == [Assign(0), Transition(0, ConditionalApproval), Transition(0, Rejected), Renew(0)]
    ensures var s := Step(State([Other], [], []), Create(0));
      && |s.applications| == 1
      && Trace(s, ops, 0) == [Submitted, UnderReview, ConditionalApproval, Rejected, Renewed]
      && Run(s, ops) == State([Other], [Application(0, Renewed)], [Permit(0, 0, PermitActive)])
  {
    var s := Step(State([Other], [], []), Create(0));
    var a := Step(s, ops[0]);
    var b := Step(a, ops[1]);
    var c := Step(b, ops[2]);
    var d := Step(c, ops[3]);
    assert b == State([Other], [Application(0, ConditionalApproval)], [Permit(0, 0, PermitActive)]);
    assert c == State([Other], [Application(0, Rejected)], [Permit(0, 0, PermitActive)]);
    assert d == State([Other], [Application(0, Renewed)], [Permit(0, 0, PermitActive)]);
    assert ops[1..][1..] == ops[2..] && ops[2..][1..] == ops[3..] && ops[3..][1..] == [];
    assert Run(c, ops[3..]) == d && Trace(c, ops[3..], 0) == [Rejected] + Trace(d, [], 0);
    assert Run(b, ops[2..]) == d && Trace(b, ops[2..], 0) == [ConditionalApproval] + Trace(c, ops[3..], 0);
    assert Run(a, ops[1..]) == d && Trace(a, ops[1..], 0) == [UnderReview] + Trace(b, ops[2..], 0);
  }

  // ---------- approved means in force, unless withdrawn since ----------

  /** The call approves application `i`. */
  predicate Approves(s: State, op: Op, i: nat) {
    op == Transition(i, Approved) && i < |s.applications| && Approved in ValidTransitions(s.applications[i].status)
  }

  /** The call suspends or revokes the permit of application `i`. */
  predicate Withdraws(s: State, op: Op, i: nat) {
    match op
    case Suspend(p) => p < |s.permits| && s.permits[p].application == i
    case Revoke(p) => p < |s.permits| && s.permits[p].application == i
    case _ => false
  }

  /** Whether, by the end of a run, the permit of application `i` was suspended or revoked
      with no approval of the application since. */
  function WithdrawnSince(s: State, ops: seq<Op>, i: nat, withdrawn: bool): bool
    decreases |ops|
  {
    if ops == [] then withdrawn
    else
      var op := ops[0];
      WithdrawnSince(Step(s, op), ops[1..], i, !Approves(s, op, i) && (withdrawn || Withdraws(s, op, i)))
  }

  ghost predicate Tracks(s: State, i: nat, withdrawn: bool) {
    && Inv(s)
    && NeverExpired(s)
    && (withdrawn <==> PermitWithdrawn(s, i))
  }

  lemma OnePermit(s: State, i: nat, p: nat)
    requires Inv(s) && IsPermitOf(s, p, i)
    ensures PermitOf(s.permits, i).Some? && PermitOf(s.permits, i).value == p
    ensures forall q :: IsPermitOf(s, q, i) ==> q == p
    ensures PermitWithdrawn(s, i) <==> Withdrawn(s, p)
  {
    var q := PermitOf(s.permits, i).value;
    assert IsPermitOf(s, q, i);
  }

  lemma NewPermitsAreActive(s: State, op: Op, p: nat)
    requires |s.permits| <= p < |Step(s, op).permits|
    ensures !Withdrawn(Step(s, op), p)
  {}

  lemma StepTracksPermit(s: State, op: Op, i: nat, p: nat)
    requires Inv(s) && IsPermitOf(s, p, i)
    ensures IsPermitOf(Step(s, op), p, i)
    ensures Withdrawn(Step(s, op), p) <==> !Approves(s, op, i) && (Withdrawn(s, p) || Withdraws(s, op, i))
  {
    StepKeepsOwner(s, op, p);
    OnePermit(s, i, p);
    if Withdrawn(s, p) {
      StepKeepsWithdrawn(s, op, p);
    } else if op == Suspend(p) || op == Revoke(p) {
    } else {
      OtherCallsWithdrawNothing(s, op, p);
    }
  }

  lemma OtherCallsWithdrawNothing(s: State, op: Op, p: nat)
    requires Inv(s) && p < |s.permits| && !Withdrawn(s, p) && op != Suspend(p) && op != Revoke(p)
    ensures !Withdrawn(Step(s, op), p)
  {}

  lemma HeldPermitTracks(s: State, op: Op, i: nat, p: nat)
    requires Inv(s) && IsPermitOf(s, p, i)
    ensures PermitWithdrawn(Step(s, op), i) <==> !Approves(s, op, i) && (PermitWithdrawn(s, i) || Withdraws(s, op, i))
  {
    StepKeepsInv(s, op);
    StepTracksPermit(s, op, i, p);
    OnePermit(s, i, p);
    OnePermit(Step(s, op), i, p);
  }

  lemma MissingPermitTracks(s: State, op: Op, i: nat)
    requires PermitOf(s.permits, i).None?
    ensures !PermitWithdrawn(s, i) && !PermitWithdrawn(Step(s, op), i) && !Withdraws(s, op, i)
  {
    var t := Step(s, op);
    if p: nat :| IsPermitOf(t, p, i) && Withdrawn(t, p) {
      if p < |s.permits| {
        StepKeepsOwner(s, op, p);
      } else {
        NewPermitsAreActive(s, op, p);
      }
    }
  }

  lemma StepKeepsNeverExpired(s: State, op: Op)
    requires NeverExpired(s)
    ensures NeverExpired(Step(s, op))
  {}

  lemma StepTracks(s: State, op: Op, i: nat, withdrawn: bool)
    requires Tracks(s, i, withdrawn)
    ensures Tracks(Step(s, op), i, !Approves(s, op, i) && (withdrawn || Withdraws(s, op, i)))
  {
    StepKeepsInv(s, op);
    StepKeepsNeverExpired(s, op);
    if PermitOf(s.permits, i).Some? {
      HeldPermitTracks(s, op, i, PermitOf(s.permits, i).value);
    } else {
      MissingPermitTracks(s, op, i);
    }
  }

  lemma {:induction false} RunTracks(s: State, ops: seq<Op>, i: nat, withdrawn: bool)
    requires Tracks(s, i, withdrawn)
    ensures Tracks(Run(s, ops), i, WithdrawnSince(s, ops, i, withdrawn))
    decreases |ops|
  {
    if ops != [] {
      StepTracks(s, ops[0], i, withdrawn);
      RunTracks(Step(s, ops[0]), ops[1..], i,
                !Approves(s, ops[0], i) && (withdrawn || Withdraws(s, ops[0], i)));
    }
  }

  /** Over every run from empty tables the permit of an application that is approved,
      conditionally approved, expired or renewed is active exactly when it was not suspended
      or revoked since the last approval; an approved one's project is active anyway. */
  lemma LicensedIsActiveExactly(projects: seq<ProjectStatus>, ops: seq<Op>, i: nat)
    requires var t := Run(State(projects, [], []), ops);
      i < |t.applications| && Licensed(t.applications[i].status)
    ensures var s := State(projects, [], []);
      HasActivePermit(Run(s, ops), i) <==> !WithdrawnSince(s, ops, i, false)
  {
    var s := State(projects, [], []);
    StartIsSound(projects);
    RunTracks(s, ops, i, false);
    ActiveExactly(Run(s, ops), i);
  }

  lemma {:induction false} NothingWithdrawn(s: State, ops: seq<Op>, i: nat)
    requires forall k :: 0 <= k < |ops| ==> !ops[k].Suspend? && !ops[k].Revoke?
    ensures !WithdrawnSince(s, ops, i, false)
    decreases |ops|
  {
    if ops != [] {
      NothingWithdrawn(Step(s, ops[0]), ops[1..], i);
    }
  }

  /** So over every run that suspends and revokes nothing, every approved application has
      one permit, in force, on an active project. */
  lemma ApprovedIsInForce(projects: seq<ProjectStatus>, ops: seq<Op>, i: nat)
    requires forall k :: 0 <= k < |ops| ==> !ops[k].Suspend? && !ops[k].Revoke?
    requires var t := Run(State(projects, [], []), ops);
      i < |t.applications| && t.applications[i].status == Approved
    ensures var t := Run(State(projects, [], []), ops);
      HasOnePermit(t, i) && exists p :: InForce(t, i, p)
  {
    var s := State(projects, [], []);
    var t := Run(s, ops);
    LicensedHaveExactlyOnePermit(projects, ops, i);
    LicensedIsActiveExactly(projects, ops, i);
    NothingWithdrawn(s, ops, i);
    var p: nat :| IsPermitOf(t, p, i) && t.permits[p].status == PermitActive;
    assert InForce(t, i, p);
  }
}
