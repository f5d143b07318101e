/** BIM, compliance and approval services over shared tables: a flagged deviation blocks
    the project's compliance gate until its report is closed
    (apps/bim/services.py, apps/compliance/services.py, apps/approvals/services.py). */
module ComplianceGate {
  import opened Text
  import opened Compliance
  import Bim
  import Approvals

  /** The shared database: the NCR table is the one inside `bim`. */
  datatype State = State(bim: Bim.State, capas: seq<Capa>, requests: seq<Approvals.Request>) {
    function Register(): Register {
      Compliance.Register(bim.ncrs, capas)
    }

    function WithRegister(r: Register): State {
      this.(bim := bim.(ncrs := r.ncrs), capas := r.capas)
    }
  }

  datatype Op =
    | BimOp(bimOp: Bim.Op)
    | CreateNcr(project: ProjectId, severity: string, status: string, source: string, planned: bool)
    | EscalateNcr(ncr: nat, target: Option<int>)
    | CloseNcr(ncr: nat)
    | CreateRequest(forProject: ProjectId, initial: Approvals.Status, required: int, completed: int, amount: real,
                    gate: string)
    | RequestEvent(request: nat, event: Approvals.Event)
    | EvaluateGate(request: nat)

  /** One service call; a call on a row that does not exist changes nothing. */
  function Step(s: State, op: Op, bump: string -> string): State {
    match op
    case BimOp(o) => s.(bim := Bim.Step(s.bim, o, bump))
    case CreateNcr(project, severity, status, source, planned) =>
      s.WithRegister(Created(s.Register(), project, severity, status, source, planned))
    case EscalateNcr(i, target) =>
      if i < |s.bim.ncrs| then s.WithRegister(Escalated(s.Register(), i, target)) else s
    case CloseNcr(i) => if i < |s.bim.ncrs| then s.WithRegister(Closed(s.Register(), i)) else s
    case CreateRequest(project, status, required, completed, amount, gate) =>
      s.(requests := s.requests + [Approvals.NewRequest(project, status, required, completed, amount, gate)])
    case RequestEvent(i, e) =>
      if i < |s.requests| then s.(requests := s.requests[i := Approvals.Act(s.requests[i], e)]) else s
    case EvaluateGate(i) =>
      if i < |s.requests| then s.(requests := s.requests[i := Approvals.Gated(s.requests[i], s.bim.ncrs)]) else s
  }

  function Run(s: State, ops: seq<Op>, bump: string -> string): State
    decreases |ops|
  {
    if ops == [] then s else Run(Step(s, ops[0], bump), ops[1..], bump)
  }

  ghost predicate BlockedBy(s: State, n: nat, project: ProjectId) {
    n < |s.bim.ncrs| && s.bim.ncrs[n].project == project && Blocking(s.bim.ncrs[n])
  }

  /** The gate of a request blocks exactly when some report on its project does. */
  lemma GateBlocksExactly(s: State, r: Approvals.Request)
    ensures Approvals.Gated(r, s.bim.ncrs).gate == Approvals.BLOCKED <==> exists n :: BlockedBy(s, n, r.project)
  {
    BlockingCountIsPositiveExactly(s.bim.ncrs, r.project);
    if i :| 0 <= i < |s.bim.ncrs| && s.bim.ncrs[i].project == r.project && Blocking(s.bim.ncrs[i]) {
      assert BlockedBy(s, i, r.project);
    }
  }

  /** A blocking report stays blocking under every service call but its own closure;
      escalating it does not release the gate. */
  lemma StepKeepsBlock(s: State, op: Op, bump: string -> string, n: nat, project: ProjectId)
    requires BlockedBy(s, n, project)
    ensures BlockedBy(Step(s, op, bump), n, project) <==> op != CloseNcr(n)
  {}

  lemma {:induction false} RunKeepsBlock(s: State, ops: seq<Op>, bump: string -> string,
                                         n: nat, project: ProjectId)
    requires BlockedBy(s, n, project)
    requires CloseNcr(n) !in ops
    ensures BlockedBy(Run(s, ops, bump), n, project)
    decreases |ops|
  {
    if ops != [] {
      StepKeepsBlock(s, ops[0], bump, n, project);
      RunKeepsBlock(Step(s, ops[0], bump), ops[1..], bump, n, project);
    }
  }

  /** After a deviation above 20 mm is flagged, the compliance gate of every approval
      request on the milestone's project evaluates to Blocked, at every point of every
      run, until that deviation's own report is closed. */
  lemma {:induction false} FlaggedDeviationBlocksEveryGate(s: State, milestone: nat, deviation: real, ops: seq<Op>,
                                                           bump: string -> string, request: nat)
    requires milestone < |s.bim.milestones| && deviation > 20.0
    requires CloseNcr(|s.bim.ncrs|) !in ops
    requires var u := Run(Step(s, BimOp(Bim.Flag(milestone, deviation, true)), bump), ops, bump);
      request < |u.requests| && u.requests[request].project == s.bim.milestones[milestone].project
    ensures var u := Run(Step(s, BimOp(Bim.Flag(milestone, deviation, true)), bump), ops, bump);
      Step(u, EvaluateGate(request), bump).requests[request].gate == Approvals.BLOCKED
  {
    var n, project := |s.bim.ncrs|, s.bim.milestones[milestone].project;
    var t := Step(s, BimOp(Bim.Flag(milestone, deviation, true)), bump);
    var u := Run(t, ops, bump);
    assert BlockedBy(t, n, project);
    RunKeepsBlock(t, ops, bump, n, project);
    GateBlocksExactly(u, u.requests[request]);
  }

  /** Closing the only blocking report of a project, and nothing less, opens its gates. */
  lemma ClosingTheLastBlockOpensTheGate(s: State, n: nat, bump: string -> string, r: Approvals.Request)
    requires BlockedBy(s, n, r.project)
    ensures Approvals.Gated(r, Step(s, CloseNcr(n), bump).bim.ncrs).gate == Approvals.PASSED <==>
      forall m :: BlockedBy(s, m, r.project) ==> m == n
  {
    var t := Step(s, CloseNcr(n), bump);
    GateBlocksExactly(t, r);
    forall m: nat ensures BlockedBy(t, m, r.project) <==> BlockedBy(s, m, r.project) && m != n {
    }
  }

  ghost predicate Open(s: State, project: ProjectId) {
    forall n :: !BlockedBy(s, n, project)
  }

  /** What can turn a report of the project, new or old, into a blocking one. */
  predicate Blocks(s: State, op: Op, project: ProjectId) {
    match op
    case BimOp(Flag(i, deviation, filed)) =>
      i < |s.bim.milestones| && s.bim.milestones[i].project == project && deviation > 20.0 && filed
    case CreateNcr(p, severity, status, _, _) =>
      p == project && severity in {"Critical", "Major"} && status in {"Open", "In Progress"}
    case EscalateNcr(i, target) =>
      && i < |s.bim.ncrs| && s.bim.ncrs[i].project == project
      && s.bim.ncrs[i].status in {"Open", "In Progress"}
      && target.GetOr(s.bim.ncrs[i].level + 1) >= 4
    case _ => false
  }

  /** A call blocks a project that no report blocks exactly when it flags a deviation above
      20 mm there, files an open critical or major report, or escalates an open one to
      level four or above. */
  lemma StepBlocksExactly(s: State, op: Op, bump: string -> string, project: ProjectId)
    requires Open(s, project)
    ensures Open(Step(s, op, bump), project) <==> !Blocks(s, op, project)
  {
    var t := Step(s, op, bump);
    match op
    case BimOp(Flag(i, deviation, filed)) =>
      FlagBlocksExactly(s, i, deviation, filed, bump, project);
    case CreateNcr(p, severity, status, source, planned) =>
      CreationBlocksExactly(s, p, severity, status, source, planned, bump, project);
    case EscalateNcr(i, target) =>
      EscalationBlocksExactly(s, i, target, bump, project);
    case _ =>
      forall n ensures !BlockedBy(t, n, project) {
        assert !BlockedBy(s, n, project);
      }
  }

  lemma FlagBlocksExactly(s: State, i: nat, deviation: real, filed: bool, bump: string -> string,
                          project: ProjectId)
    requires Open(s, project)
    ensures var op := BimOp(Bim.Flag(i, deviation, filed));
      Open(Step(s, op, bump), project) <==> !Blocks(s, op, project)
  {
    var t := Step(s, BimOp(Bim.Flag(i, deviation, filed)), bump);
    forall n ensures BlockedBy(t, n, project) ==> n == |s.bim.ncrs| {
      assert !BlockedBy(s, n, project);
    }
    if Blocks(s, BimOp(Bim.Flag(i, deviation, filed)), project) {
      assert BlockedBy(t, |s.bim.ncrs|, project);
    }
  }

  lemma CreationBlocksExactly(s: State, p: ProjectId, severity: string, status: string, source: string,
                              planned: bool, bump: string -> string, project: ProjectId)
    requires Open(s, project)
    ensures var op := CreateNcr(p, severity, status, source, planned);
      Open(Step(s, op, bump), project) <==> !Blocks(s, op, project)
  {
    var t := Step(s, CreateNcr(p, severity, status, source, planned), bump);
    forall n ensures BlockedBy(t, n, project) ==> n == |s.bim.ncrs| {
      assert !BlockedBy(s, n, project);
    }
    if Blocks(s, CreateNcr(p, severity, status, source, planned), project) {
      assert BlockedBy(t, |s.bim.ncrs|, project);
    }
  }

  lemma EscalationBlocksExactly(s: State, i: nat, target: Option<int>, bump: string -> string, project: ProjectId)
    requires Open(s, project)
    ensures var op := EscalateNcr(i, target); Open(Step(s, op, bump), project) <==> !Blocks(s, op, project)
  {
    var t := Step(s, EscalateNcr(i, target), bump);
    if i < |s.bim.ncrs| {
      assert !BlockedBy(s, i, project);
    }
    forall n ensures BlockedBy(t, n, project) ==> n == i {
      assert !BlockedBy(s, n, project);
    }
    if Blocks(s, EscalateNcr(i, target), project) {
      assert BlockedBy(t, i, project);
    }
  }

  /** No call of the run could block the project in any state. */
  predicate Harmless(op: Op, project: ProjectId) {
    && (op.BimOp? && op.bimOp.Flag? ==> op.bimOp.deviation <= 20.0)
    && (op.CreateNcr? ==> op.project != project)
    && !op.EscalateNcr?
  }

  lemma {:induction false} HarmlessRunStaysOpen(s: State, ops: seq<Op>, bump: string -> string, project: ProjectId)
    requires Open(s, project)
    requires forall i :: 0 <= i < |ops| ==> Harmless(ops[i], project)
    ensures Open(Run(s, ops, bump), project)
    decreases |ops|
  {
    if ops != [] {
      StepBlocksExactly(s, ops[0], bump, project);
      HarmlessRunStaysOpen(Step(s, ops[0], bump), ops[1..], bump, project);
    }
  }

  /** While reports on an open project are neither filed nor escalated, deviations of 20 mm
      or less never close a gate: every request on it passes at every point of the run. */
  lemma {:induction false} SmallDeviationsKeepTheGateOpen(s: State, ops: seq<Op>, bump: string -> string,
                                                          r: Approvals.Request)
    requires Open(s, r.project)
    requires forall i :: 0 <= i < |ops| ==> Harmless(ops[i], r.project)
    ensures Approvals.Gated(r, Run(s, ops, bump).bim.ncrs).gate == Approvals.PASSED
  {
    HarmlessRunStaysOpen(s, ops, bump, r.project);
    GateBlocksExactly(Run(s, ops, bump), r);
  }

  /** A blocked gate is advice: approval never reads it, and no approval operation clears it. */
  lemma {:induction false} ApprovalIgnoresTheGate(r: Approvals.Request, events: seq<Approvals.Event>, role: string)
    ensures Approvals.Run(r, events).gate == r.gate
    ensures
      Approvals.Step(Approvals.Run(r, events), Approvals.Approve(role, false)).status == Approvals.Status.Approved
    decreases |events|
  {
    if events != [] {
      ApprovalIgnoresTheGate(Approvals.Act(r, events[0]), events[1..], role);
    }
  }

  // ---------- corrective actions ----------

  /** No corrective action of report `n` is open. */
  ghost predicate ActionsClosed(s: State, n: nat) {
    && n < |s.bim.ncrs|
    && forall k :: 0 <= k < |s.capas| && s.capas[k].ncr == n ==> s.capas[k].status !in OPEN_CAPA_STATUSES
  }

  /** Once a report is closed, its corrective actions stay closed over every run. */
  lemma {:induction false} ClosedActionsStayClosed(s: State, ops: seq<Op>, bump: string -> string, n: nat)
    requires ActionsClosed(s, n)
    ensures ActionsClosed(Run(s, ops, bump), n)
    decreases |ops|
  {
    if ops != [] {
      var t := Step(s, ops[0], bump);
      assert ActionsClosed(t, n);
      ClosedActionsStayClosed(t, ops[1..], bump, n);
    }
  }

  lemma ClosingAReportClosesItsActions(s: State, n: nat, ops: seq<Op>, bump: string -> string)
    requires n < |s.bim.ncrs|
    ensures ActionsClosed(Run(Step(s, CloseNcr(n), bump), ops, bump), n)
  {
    ClosedActionsStayClosed(Step(s, CloseNcr(n), bump), ops, bump, n);
  }

  // ---------- requests in the shared tables ----------

  /** The events of request `i` among the calls of a run. */
  function EventsFor(ops: seq<Op>, i: nat): seq<Approvals.Event> {
    if ops == [] then []
    else (if ops[0].RequestEvent? && ops[0].request == i then [ops[0].event] else []) + EventsFor(ops[1..], i)
  }

  /** The request but for its gate, which only an evaluation changes. */
  function Ungated(r: Approvals.Request): Approvals.Request {
    r.(gate := "")
  }

  lemma StepActsOnRequest(s: State, op: Op, bump: string -> string, i: nat)
    requires i < |s.requests| && s.requests[i].doaLevel == Approvals.DoaLevel(s.requests[i].amount)
    ensures var t := Step(s, op, bump);
      && i < |t.requests|
      && Ungated(t.requests[i]) == Ungated(
           if op.RequestEvent? && op.request == i then Approvals.Act(s.requests[i], op.event) else s.requests[i])
      && t.requests[i].doaLevel == Approvals.DoaLevel(t.requests[i].amount)
  {}

  lemma ActIgnoresTheGate(a: Approvals.Request, b: Approvals.Request, e: Approvals.Event)
    requires Ungated(a) == Ungated(b)
    ensures Ungated(Approvals.Act(a, e)) == Ungated(Approvals.Act(b, e))
  {
    assert b == a.(gate := b.gate);
    GateIsCarriedAlong(a, b.gate, e);
  }

  lemma GateIsCarriedAlong(r: Approvals.Request, gate: string, e: Approvals.Event)
    ensures Approvals.Act(r.(gate := gate), e) == Approvals.Act(r, e).(gate := gate)
  {
    match e.op
    case Assign =>
    case Approve(role, conditional) =>
    case Reject(role) =>
    case AskRevision(role) =>
    case AskInfo(role) =>
    case Escalate(target) =>
    case Sign =>
  }

  lemma {:induction false} RunIgnoresTheGate(a: Approvals.Request, b: Approvals.Request, events: seq<Approvals.Event>)
    requires Ungated(a) == Ungated(b)
    ensures Ungated(Approvals.Run(a, events)) == Ungated(Approvals.Run(b, events))
    decreases |events|
  {
    if events != [] {
      ActIgnoresTheGate(a, b, events[0]);
      RunIgnoresTheGate(Approvals.Act(a, events[0]), Approvals.Act(b, events[0]), events[1..]);
    }
  }

  /** In the shared tables a request goes exactly the way its own calls take it, whatever
      calls of this and the other services come between; only its gate may differ. */
  lemma {:induction false} RequestFollowsItsOwnCalls(s: State, ops: seq<Op>, bump: string -> string, i: nat)
    requires i < |s.requests| && s.requests[i].doaLevel == Approvals.DoaLevel(s.requests[i].amount)
    ensures var t := Run(s, ops, bump);
      i < |t.requests| && Ungated(t.requests[i]) == Ungated(Approvals.Run(s.requests[i], EventsFor(ops, i)))
    decreases |ops|
  {
    if ops != [] {
      var t := Step(s, ops[0], bump);
      StepActsOnRequest(s, ops[0], bump, i);
      RequestFollowsItsOwnCalls(t, ops[1..], bump, i);
      if ops[0].RequestEvent? && ops[0].request == i {
        OwnEventFirst(s.requests[i], ops, i);
        RunIgnoresTheGate(t.requests[i], Approvals.Act(s.requests[i], ops[0].event), EventsFor(ops[1..], i));
      } else {
        assert EventsFor(ops, i) == EventsFor(ops[1..], i);
        RunIgnoresTheGate(t.requests[i], s.requests[i], EventsFor(ops[1..], i));
      }
    }
  }

  lemma OwnEventFirst(r: Approvals.Request, ops: seq<Op>, i: nat)
    requires ops != [] && ops[0].RequestEvent? && ops[0].request == i
    ensures Approvals.Run(r, EventsFor(ops, i)) ==
      Approvals.Run(Approvals.Act(r, ops[0].event), EventsFor(ops[1..], i))
  {
    assert EventsFor(ops, i)[1..] == EventsFor(ops[1..], i);
  }

  /** A request created in the shared tables starts as given, and its gate is the given one
      until it is evaluated. */
  lemma CreatedRequestIsAsGiven(s: State, project: ProjectId, initial: Approvals.Status, required: int, completed: int,
                                amount: real, gate: string, ops: seq<Op>, bump: string -> string)
    ensures var i := |s.requests|;
      var t := Run(Step(s, CreateRequest(project, initial, required, completed, amount, gate), bump), ops, bump);
      var r := Approvals.NewRequest(project, initial, required, completed, amount, gate);
      i < |t.requests| && Ungated(t.requests[i]) == Ungated(Approvals.Run(r, EventsFor(ops, i)))
  {
    var t := Step(s, CreateRequest(project, initial, required, completed, amount, gate), bump);
    RequestFollowsItsOwnCalls(t, ops, bump, |s.requests|);
  }
}
