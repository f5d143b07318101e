/** Where an application can go from where it stands, and how many calls approval takes. */
module ApplicationProgress {
  import opened Text
  import opened Applications
  import opened ApplicationInvariants

  /** The statuses from which a transition to `target` is accepted. */
  function EntryStatuses(target: Status): set<Status> {
    match target
    case Draft => {}
    case Submitted => {Draft, Rejected, Expired}
    case UnderReview => {Submitted, ReviewCompleted, ApprovalRequested, ConditionalApproval, Rejected}
    case ReviewCompleted => {UnderReview}
    case ApprovalRequested => {UnderReview, ReviewCompleted}
    case ConditionalApproval => {UnderReview, ReviewCompleted, ApprovalRequested}
    case Approved => {UnderReview, ReviewCompleted, ApprovalRequested, ConditionalApproval}
    case Rejected => {Submitted, UnderReview, ReviewCompleted, ApprovalRequested, ConditionalApproval}
    case Expired => {Approved, Renewed}
    case Renewed => {Expired}
  }

  /** A transition moves the application exactly when it stands in one of those statuses,
      and then to the status asked for; in particular APPROVED is entered from the four
      statuses after review and from no other. */
  lemma TransitionMovesExactly(s: State, i: nat, target: Status)
    requires Linked(s) && i < |s.applications|
    ensures var t := Step(s, Transition(i, target));
      var from := s.applications[i].status;
      && |t.applications| == |s.applications|
      && (t.applications[i].status != from <==> from in EntryStatuses(target))
      && (from in EntryStatuses(target) ==> t.applications[i].status == target)
  {
    assert forall status :: status !in EntryStatuses(status);
  }

  /** The fewest calls that bring an application from a status to APPROVED. */
  function CallsToApproval(status: Status): nat {
    match status
    case Approved => 0
    case UnderReview => 1
    case ReviewCompleted => 1
    case ApprovalRequested => 1
    case ConditionalApproval => 1
    case Submitted => 2
    case Rejected => 2
    case Draft => 3
    case Expired => 3
    case Renewed => 4
  }

  /** No single call of any service brings any application nearer by more than one. */
  lemma StepAdvancesByOne(s: State, op: Op, i: nat)
    requires i < |s.applications|
    ensures i < |Step(s, op).applications|
    ensures CallsToApproval(s.applications[i].status) <= CallsToApproval(Step(s, op).applications[i].status) + 1
  {
    StepMoves(s, op, i);
  }

  lemma {:induction false} NoRunIsShorter(s: State, ops: seq<Op>, i: nat)
    requires i < |s.applications|
    ensures i < |Run(s, ops).applications|
    ensures CallsToApproval(s.applications[i].status) <= CallsToApproval(Run(s, ops).applications[i].status) + |ops|
    decreases |ops|
  {
    if ops != [] {
      StepAdvancesByOne(s, ops[0], i);
      NoRunIsShorter(Step(s, ops[0]), ops[1..], i);
    }
  }

  /** The next transition on a shortest way to APPROVED. */
  function NextStatus(status: Status): Status {
    match status
    case Submitted => UnderReview
    case Rejected => UnderReview
    case Draft => Submitted
    case Expired => Submitted
    case Renewed => Expired
    case _ => Approved
  }

  function WayToApproval(i: nat, status: Status): (ops: seq<Op>)
    ensures |ops| == CallsToApproval(status)
    decreases CallsToApproval(status)
  {
    if status == Approved then []
    else [Transition(i, NextStatus(status))] + WayToApproval(i, NextStatus(status))
  }

  lemma {:induction false} WayApproves(s: State, i: nat)
    requires Linked(s) && i < |s.applications|
    ensures var t := Run(s, WayToApproval(i, s.applications[i].status));
      i < |t.applications| && t.applications[i].status == Approved
    decreases CallsToApproval(s.applications[i].status)
  {
    var status := s.applications[i].status;
    if status != Approved {
      var next := NextStatus(status);
      var ops := WayToApproval(i, status);
      TransitionMovesExactly(s, i, next);
      StepKeepsLinks(s, Transition(i, next));
      assert ops[1..] == WayToApproval(i, next);
      WayApproves(Step(s, ops[0]), i);
    }
  }

  lemma StepKeepsLinks(s: State, op: Op)
    requires Linked(s)
    ensures Linked(Step(s, op))
  {}

  /** From whatever status a run has brought it to, an application, rejected or expired
      among them, can still be approved: in the stated number of calls and in no fewer. */
  lemma ApprovalTakesExactly(s: State, i: nat)
    requires Inv(s) && i < |s.applications|
    ensures exists ops :: |ops| == CallsToApproval(s.applications[i].status) && EndsApproved(s, ops, i)
    ensures forall ops :: EndsApproved(s, ops, i) ==> CallsToApproval(s.applications[i].status) <= |ops|
  {
    WayApproves(s, i);
    assert EndsApproved(s, WayToApproval(i, s.applications[i].status), i);
    forall ops | EndsApproved(s, ops, i) ensures CallsToApproval(s.applications[i].status) <= |ops| {
      NoRunIsShorter(s, ops, i);
    }
  }

  predicate EndsApproved(s: State, ops: seq<Op>, i: nat) {
    var t := Run(s, ops);
    i < |t.applications| && t.applications[i].status == Approved
  }

  // ---------- everything a call changes ----------

  /** The status of application `i` after a call, written out call by call. */
  function StatusAfter(s: State, op: Op, i: nat): Status
    requires i < |s.applications|
  {
    var from := s.applications[i].status;
    match op
    case Transition(j, target) => if j == i && from in EntryStatuses(target) then target else from
    case Assign(j) => if j == i && from == Submitted then UnderReview else from
    case Renew(p) =>
      if p < |s.permits| && s.permits[p].application == i && s.permits[p].status in {PermitActive, PermitExpired}
      then Renewed else from
    case _ => from
  }

  /** The status of permit `p` after a call. */
  function PermitStatusAfter(s: State, op: Op, p: nat): PermitStatus
    requires p < |s.permits|
  {
    var i, from := s.permits[p].application, s.permits[p].status;
    match op
    case Suspend(q) => if q == p then Suspended else from
    case Revoke(q) => if q == p then Revoked else from
    case Renew(q) => if q == p && from != Suspended && from != Revoked then PermitActive else from
    case Transition(j, Approved) =>
      if j == i && i < |s.applications| && s.applications[i].status in EntryStatuses(Approved) then PermitActive
      else from
    case _ => from
  }

  /** Every application has that status after a call. */
  lemma StepSetsStatus(s: State, op: Op, i: nat)
    requires Inv(s) && i < |s.applications|
    ensures i < |Step(s, op).applications| && Step(s, op).applications[i].status == StatusAfter(s, op, i)
  {
    if op.Transition? && op.application == i {
      TransitionMovesExactly(s, i, op.status);
    }
  }

  /** And every permit that one. */
  lemma StepSetsPermit(s: State, op: Op, p: nat)
    requires Inv(s) && p < |s.permits|
    ensures p < |Step(s, op).permits| && Step(s, op).permits[p].status == PermitStatusAfter(s, op, p)
  {
    if op.Transition? {
      TransitionSetsPermit(s, op.application, op.status, p);
    }
  }

  lemma TransitionSetsPermit(s: State, j: nat, status: Status, p: nat)
    requires Inv(s) && p < |s.permits|
    ensures var op := Transition(j, status);
      p < |Step(s, op).permits| && Step(s, op).permits[p].status == PermitStatusAfter(s, op, p)
  {
    OnePermit(s, s.permits[p].application, p);
    if j < |s.applications| {
      AcceptedExactly(s.applications[j].status, status);
      if PermitOf(s.permits, j).Some? {
        OnePermit(s, j, PermitOf(s.permits, j).value);
      }
    }
  }

  lemma AcceptedExactly(from: Status, target: Status)
    ensures target in ValidTransitions(from) <==> from in EntryStatuses(target)
  {}

  /** A project becomes active with an approval of one of its applications, and no call
      changes it otherwise; applications are only added as submitted ones, permits only
      active and for the application and project they were issued for. */
  lemma StepAddsAndActivates(s: State, op: Op)
    requires Inv(s)
    ensures var t := Step(s, op);
      |t.projects| == |s.projects| && forall k :: 0 <= k < |s.projects| ==>
        t.projects[k] == if ApprovesOn(s, op, k) then Active else s.projects[k]
    ensures var t := Step(s, op);
      forall i :: |s.applications| <= i < |t.applications| ==>
        op.Create? && t.applications[i] == Application(op.project, Submitted)
    ensures var t := Step(s, op);
      forall p :: |s.permits| <= p < |t.permits| ==>
        && op.Transition? && (op.status == Approved || op.status == ConditionalApproval)
        && t.permits[p] == Permit(op.application, s.applications[op.application].project, PermitActive)
  {
    if op.Transition? && op.application < |s.applications| {
      var j := op.application;
      AcceptedExactly(s.applications[j].status, op.status);
    }
  }

  /** The call approves an application of project `k`. */
  predicate ApprovesOn(s: State, op: Op, k: nat) {
    && op.Transition? && op.status == Approved && op.application < |s.applications|
    && s.applications[op.application].project == k
    && s.applications[op.application].status in EntryStatuses(Approved)
  }
}
