/** Approval requests and their decision log (apps/approvals/services.py and the
    save override in apps/approvals/models.py). */
module Approvals {
  import opened Text
  import opened Compliance

  const SIGNATORY := "Authorized Signatory"
  const TOP_LEVEL := "Permanent Secretary / Director General"
  const DOA_THRESHOLD: real := 50000000.0

  datatype Status = Pending | InReview | AwaitingFix | Approved | Rejected | Conditional | Escalated

  datatype Outcome = Approved | Rejected | Conditional | ReturnedForInfo | Escalated

  const PASSED := "Passed"
  const BLOCKED := "Blocked"

  datatype Decision = Decision(role: string, outcome: Outcome)

  datatype Request = Request(
    project: ProjectId,
    status: Status,
    required: int,
    completed: int,
    amount: real,
    doaLevel: string,
    gate: string,
    conditionsMet: bool,
    decisions: seq<Decision>)

  /** calculate_doa: the authority level of an amount. */
  function DoaLevel(amount: real): string {
    if amount > DOA_THRESHOLD then TOP_LEVEL else "Director"
  }

  /** `save` recomputes the authority level, whatever the caller set. */
  function Saved(r: Request): Request {
    r.(doaLevel := DoaLevel(r.amount))
  }

  function Decided(r: Request, status: Status, d: Decision): Request {
    Saved(r.(status := status, decisions := r.decisions + [d]))
  }

  // ---------- operations as functions of the request ----------

  datatype Op =
    | Assign
    | Approve(role: string, conditional: bool)
    | Reject(role: string)
    | AskRevision(role: string)
    | AskInfo(role: string)
    | Escalate(target: string)
    | Sign

  function Approving(r: Request, role: string, conditional: bool): Request {
    if conditional then Decided(r, Status.Conditional, Decision(role, Outcome.Conditional))
    else Decided(r.(conditionsMet := true), Status.Approved, Decision(role, Outcome.Approved))
  }

  function Signing(r: Request): Request {
    var completed := if r.required < r.completed + 1 then r.required else r.completed + 1;
    var status := if completed >= r.required then Status.Approved else r.status;
    Decided(r.(completed := completed), status,
            Decision(SIGNATORY, if status == Status.Approved then Outcome.Approved else Outcome.Conditional))
  }

  function Step(r: Request, op: Op): Request {
    match op
    case Assign => Saved(if r.status == Pending then r.(status := InReview) else r)
    case Approve(role, conditional) => Approving(r, role, conditional)
    case Reject(role) => Decided(r, Status.Rejected, Decision(role, Outcome.Rejected))
    case AskRevision(role) => Decided(r, AwaitingFix, Decision(role, ReturnedForInfo))
    case AskInfo(role) => Decided(r, AwaitingFix, Decision(role, ReturnedForInfo))
    case Escalate(target) => Decided(r.(doaLevel := target), Status.Escalated, Decision("Director", Outcome.Escalated))
    case Sign => Signing(r)
  }

  /** The call when its log row is refused: the request was saved before, and stays so. */
  function Unlogged(r: Request, op: Op): Request {
    Step(r, op).(decisions := r.decisions)
  }

  /** A call, and whether the rows it writes after saving the request are accepted. */
  datatype Event = Event(op: Op, logged: bool)

  function Act(r: Request, e: Event): Request {
    if e.logged then Step(r, e.op) else Unlogged(r, e.op)
  }

  function Run(r: Request, events: seq<Event>): Request
    decreases |events|
  {
    if events == [] then r else Run(Act(r, events[0]), events[1..])
  }

  /** evaluate_compliance_gate on the project's reports. */
  function Gated(r: Request, ncrs: seq<Ncr>): Request {
    Saved(r.(gate := if BlockingCount(ncrs, r.project) > 0 then BLOCKED else PASSED))
  }

  function NewRequest(project: ProjectId, status: Status, required: int, completed: int, amount: real,
                      gate: string): Request
  {
    Saved(Request(project, status, required, completed, amount, "Director", gate, false, []))
  }

  // ---------- the row as an object ----------

  class ApprovalRequest {
    const project: ProjectId
    const required: int
    const amount: real
    var status: Status
    var completed: int
    var doaLevel: string
    var gate: string
    var conditionsMet: bool
    var decisions: seq<Decision>

    constructor (project: ProjectId, status: Status, required: int, completed: int, amount: real, gate: string)
      ensures Row() == NewRequest(project, status, required, completed, amount, gate)
    {
      this.project, this.status, this.required, this.completed := project, status, required, completed;
      this.amount, this.gate, doaLevel, conditionsMet := amount, gate, DoaLevel(amount), false;
      decisions := [];
    }

    function Row(): Request
      reads this
    {
      Request(project, status, required, completed, amount, doaLevel, gate, conditionsMet, decisions)
    }

    method Save()
      modifies this`doaLevel
      ensures Row() == Saved(old(Row()))
    {
      doaLevel := DoaLevel(amount);
    }

    method AssignReviewer()
      modifies this
      ensures Row() == Step(old(Row()), Assign)
    {
      if status == Pending {
        status := InReview;
      }
      Save();
    }

    /** In this method and those below `logged` says whether the rows written after the
        request is saved are accepted. When one is refused the call fails there. */
    method ApproveRequest(role: string, conditional: bool, logged: bool) returns (ok: bool)
      modifies this
      ensures ok == logged && Row() == Act(old(Row()), Event(Approve(role, conditional), logged))
    {
      status := if conditional then Status.Conditional else Status.Approved;
      if !conditional {
        conditionsMet := true;
      }
      Save();
      if !logged {
        return false;
      }
      decisions := decisions + [Decision(role, if conditional then Outcome.Conditional else Outcome.Approved)];
      ok := true;
    }

    method RejectRequest(role: string, logged: bool) returns (ok: bool)
      modifies this
      ensures ok == logged && Row() == Act(old(Row()), Event(Reject(role), logged))
    {
      status := Status.Rejected;
      Save();
      if !logged {
        return false;
      }
      decisions := decisions + [Decision(role, Outcome.Rejected)];
      ok := true;
    }

    method RequestRevision(role: string, logged: bool) returns (ok: bool)
      modifies this
      ensures ok == logged && Row() == Act(old(Row()), Event(AskRevision(role), logged))
    {
      status := AwaitingFix;
      Save();
      if !logged {
        return false;
      }
      decisions := decisions + [Decision(role, ReturnedForInfo)];
      ok := true;
    }

    method RequestInfo(role: string, logged: bool) returns (ok: bool)
      modifies this
      ensures ok == logged && Row() == Act(old(Row()), Event(AskInfo(role), logged))
    {
      status := AwaitingFix;
      Save();
      if !logged {
        return false;
      }
      decisions := decisions + [Decision(role, ReturnedForInfo)];
      ok := true;
    }

    /** escalate_request assigns the target level and then saves. */
    method EscalateRequest(targetLevel: string, logged: bool) returns (ok: bool)
      modifies this
      ensures ok == logged && Row() == Act(old(Row()), Event(Escalate(targetLevel), logged))
    {
      status := Status.Escalated;
      doaLevel := targetLevel;
      Save();
      if !logged {
        return false;
      }
      decisions := decisions + [Decision("Director", Outcome.Escalated)];
      ok := true;
    }

    method SignDocument(logged: bool) returns (ok: bool)
      modifies this
      ensures ok == logged && Row() == Act(old(Row()), Event(Sign, logged))
    {
      completed := if required < completed + 1 then required else completed + 1;
      if completed >= required {
        status := Status.Approved;
      }
      Save();
      if !logged {
        return false;
      }
      var outcome := if status == Status.Approved then Outcome.Approved else Outcome.Conditional;
      decisions := decisions + [Decision(SIGNATORY, outcome)];
      ok := true;
    }

    method EvaluateComplianceGate(ncrs: seq<Ncr>) returns (passed: bool, openCritical: nat)
      modifies this
      ensures Row() == Gated(old(Row()), ncrs)
      ensures openCritical == BlockingCount(ncrs, project)
      ensures passed <==> forall i :: 0 <= i < |ncrs| && ncrs[i].project == project ==> !Blocking(ncrs[i])
    {
      openCritical := 0;
      var i := 0;
      while i < |ncrs|
        invariant 0 <= i <= |ncrs|
        invariant openCritical == BlockingCount(ncrs[..i], project)
        invariant Row() == old(Row())
      {
        assert ncrs[..i + 1][..i] == ncrs[..i];
        if ncrs[i].project == project && Blocking(ncrs[i]) {
          openCritical := openCritical + 1;
        }
        i := i + 1;
      }
      assert ncrs[..i] == ncrs;
      BlockingCountIsPositiveExactly(ncrs, project);
      passed := openCritical == 0;
      gate := if passed then PASSED else BLOCKED;
      Save();
    }
  }

  /** create_request: an unknown project is refused. */
  method CreateRequest(project: Option<ProjectId>, status: Status, required: int, completed: int, amount: real,
                       gate: string)
    returns (r: Result<ApprovalRequest, string>)
    ensures r.Err? <==> project.None?
    ensures r.Ok? ==>
      fresh(r.value) && r.value.Row() == NewRequest(project.value, status, required, completed, amount, gate)
  {
    if project.None? {
      return Err("A valid project_id is required");
    }
    var request := new ApprovalRequest(project.value, status, required, completed, amount, gate);
    r := Ok(request);
  }

  // ---------- replaying the log ----------

  /** A partial signature is a conditional entry by an authorised signatory. */
  predicate PartialSignature(d: Decision) {
    d.role == SIGNATORY && d.outcome == Outcome.Conditional
  }

  /** The request status a decision's outcome stands for. */
  function StatusOf(outcome: Outcome): Status {
    match outcome
    case Approved => Status.Approved
    case Rejected => Status.Rejected
    case Conditional => Status.Conditional
    case ReturnedForInfo => AwaitingFix
    case Escalated => Status.Escalated
  }

  /** The status given by the last decision that is not a partial signature. */
  function Replay(log: seq<Decision>): (r: Option<Status>)
    ensures r.Some? ==> r.value != Pending && r.value != InReview
  {
    if log == [] then None
    else
      var last := log[|log| - 1];
      if PartialSignature(last) then Replay(log[..|log| - 1]) else Some(StatusOf(last.outcome))
  }

  /** The log tells the status; when it holds nothing but partial signatures, the request
      is still Pending or In Review. */
  predicate LogTellsStatus(r: Request) {
    match Replay(r.decisions)
    case Some(status) => r.status == status
    case None => r.status == Pending || r.status == InReview
  }

  /** A conditional approval entered under the signatory role, the one operation whose
      entry the log cannot tell from a partial signature. */
  predicate Ambiguous(op: Op) {
    op == Approve(SIGNATORY, true)
  }

  lemma ReplayAppends(log: seq<Decision>, d: Decision)
    ensures Replay(log + [d]) == if PartialSignature(d) then Replay(log) else Some(StatusOf(d.outcome))
  {
    assert (log + [d])[..|log|] == log;
  }

  /** One operation keeps the log telling the status, except a conditional approval under
      the signatory role, which does exactly when the log already says Conditional. */
  lemma StepKeepsLog(r: Request, op: Op)
    requires LogTellsStatus(r)
    ensures LogTellsStatus(Step(r, op)) <==>
      (Ambiguous(op) ==> Replay(r.decisions) == Some(Status.Conditional))
  {
    var t := Step(r, op);
    if |t.decisions| > |r.decisions| {
      var d := t.decisions[|r.decisions|];
      assert t.decisions == r.decisions + [d];
      ReplayAppends(r.decisions, d);
    }
  }

  /** A run every call of which completes, none of them ambiguous, keeps the log telling
      the status. */
  lemma {:induction false} LogReplaysStatus(r: Request, events: seq<Event>)
    requires LogTellsStatus(r)
    requires forall i :: 0 <= i < |events| ==> events[i].logged && !Ambiguous(events[i].op)
    ensures LogTellsStatus(Run(r, events))
    decreases |events|
  {
    if events != [] {
      StepKeepsLog(r, events[0].op);
      LogReplaysStatus(Act(r, events[0]), events[1..]);
    }
  }

  // ---------- calls that fail after saving ----------

  /** The call, completed, logs a decision that is not a partial signature. */
  predicate Settles(r: Request, op: Op) {
    !op.Assign? && !PartialSignature(Step(r, op).decisions[|r.decisions|])
  }

  /** The call saves a status of its own choosing. */
  predicate SetsStatus(r: Request, op: Op) {
    !op.Assign? && (op.Sign? ==> Step(r, op).completed >= r.required)
  }

  /** The status saved by the last call whose log row was refused and that no logged
      decision has followed, None when there is no such call. */
  function Drift(r: Request, events: seq<Event>, drift: Option<Status>): Option<Status>
    decreases |events|
  {
    if events == [] then drift
    else Drift(Act(r, events[0]), events[1..], DriftAfter(r, events[0], drift))
  }

  function DriftAfter(r: Request, e: Event, drift: Option<Status>): Option<Status> {
    if e.logged && Settles(r, e.op) then None
    else if !e.logged && SetsStatus(r, e.op) then Some(Act(r, e).status)
    else drift
  }

  predicate Drifted(r: Request, drift: Option<Status>) {
    match drift
    case None => LogTellsStatus(r)
    case Some(status) => r.status == status && status != Pending && status != InReview
  }

  lemma LoggedStepDrifts(r: Request, op: Op, drift: Option<Status>)
    requires Drifted(r, drift) && !Ambiguous(op)
    ensures Drifted(Step(r, op), DriftAfter(r, Event(op, true), drift))
  {
    if drift.None? {
      StepKeepsLog(r, op);
    } else if Settles(r, op) {
      var d := Step(r, op).decisions[|r.decisions|];
      ReplayAppends(r.decisions, d);
    }
  }

  lemma RefusedStepDrifts(r: Request, op: Op, drift: Option<Status>)
    requires Drifted(r, drift)
    ensures Drifted(Unlogged(r, op), DriftAfter(r, Event(op, false), drift))
  {}

  lemma {:induction false} RunDrifts(r: Request, events: seq<Event>, drift: Option<Status>)
    requires Drifted(r, drift)
    requires forall i :: 0 <= i < |events| ==> !Ambiguous(events[i].op)
    ensures Drifted(Run(r, events), Drift(r, events, drift))
    decreases |events|
  {
    if events != [] {
      if events[0].logged {
        LoggedStepDrifts(r, events[0].op, drift);
      } else {
        RefusedStepDrifts(r, events[0].op, drift);
      }
      RunDrifts(Act(r, events[0]), events[1..], DriftAfter(r, events[0], drift));
    }
  }

  /** Over every run, refused log rows among its calls: the log tells the status if and only
      if no call has saved a status since the last logged decision without logging it, or
      the last that did saved the status that decision stands for. */
  lemma {:induction false} LogTellsExactly(r: Request, events: seq<Event>)
    requires LogTellsStatus(r)
    requires forall i :: 0 <= i < |events| ==> !Ambiguous(events[i].op)
    ensures LogTellsStatus(Run(r, events)) <==>
      match Drift(r, events, None)
      case None => true
      case Some(status) => Replay(Run(r, events).decisions) == Some(status)
  {
    RunDrifts(r, events, None);
  }

  /** Whatever went before, the next logged decision makes the log tell the status again. */
  lemma NextDecisionTells(r: Request, op: Op)
    requires !Ambiguous(op) && Settles(r, op)
    ensures LogTellsStatus(Step(r, op))
  {
    ReplayAppends(r.decisions, Step(r, op).decisions[|r.decisions|]);
  }

  // ---------- the roles the code records ----------

  /** A service call as the code makes it: the role it records is the `role` attribute of
      the caller's account, or a default when accounts have none. */
  datatype Call =
    | AssignCall
    | ApproveCall(conditional: bool)
    | RejectCall
    | RevisionCall
    | InfoCall
    | EscalateCall(target: string)
    | SignCall

  function OpOf(call: Call, accountRole: Option<string>): Op {
    match call
    case AssignCall => Assign
    case ApproveCall(conditional) => Approve(accountRole.GetOr("Director"), conditional)
    case RejectCall => Reject(accountRole.GetOr("Director"))
    case RevisionCall => AskRevision(accountRole.GetOr("Reviewer"))
    case InfoCall => AskInfo(accountRole.GetOr("Director"))
    case EscalateCall(target) => Escalate(target)
    case SignCall => Sign
  }

  /** The events of calls by accounts without a role, `logged` as for `Event`. */
  function EventsOf(calls: seq<(Call, bool)>): (events: seq<Event>)
    ensures |events| == |calls|
    ensures forall i :: 0 <= i < |events| ==> events[i] == Event(OpOf(calls[i].0, None), calls[i].1)
  {
    seq(|calls|, i requires 0 <= i < |calls| => Event(OpOf(calls[i].0, None), calls[i].1))
  }

  /** Accounts have no role, so for a request created Pending the status is replayed from
      the log over every run of service calls that complete, and over every other run
      exactly when no saved status has gone unlogged since the last logged decision, or
      the last that did is the one that decision stands for. */
  lemma ServiceRunIsToldExactly(project: ProjectId, required: int, completed: int, amount: real, gate: string,
                                calls: seq<(Call, bool)>)
    ensures var r := NewRequest(project, Pending, required, completed, amount, gate);
      var t := Run(r, EventsOf(calls));
      LogTellsStatus(t) <==>
        match Drift(r, EventsOf(calls), None)
        case None => true
        case Some(status) => Replay(t.decisions) == Some(status)
    ensures var r := NewRequest(project, Pending, required, completed, amount, gate);
      (forall i :: 0 <= i < |calls| ==> calls[i].1) ==> LogTellsStatus(Run(r, EventsOf(calls)))
  {
    assert "Director"[0] != SIGNATORY[0];
    var r := NewRequest(project, Pending, required, completed, amount, gate);
    LogTellsExactly(r, EventsOf(calls));
    if forall i :: 0 <= i < |calls| ==> calls[i].1 {
      LogReplaysStatus(r, EventsOf(calls));
    }
  }

  /** A revision asked for with null notes: the status is saved, the comment is refused and
      nothing is logged. */
  lemma RefusedRevisionGoesUnlogged(project: ProjectId, required: int, completed: int, amount: real, gate: string)
    ensures var r := NewRequest(project, Pending, required, completed, amount, gate);
      var t := Run(r, EventsOf([(RevisionCall, false)]));
      t.status == AwaitingFix && t.decisions == [] && !LogTellsStatus(t)
  {
    var r := NewRequest(project, Pending, required, completed, amount, gate);
    var events := EventsOf([(RevisionCall, false)]);
    assert events[1..] == [];
    assert Run(r, events) == Run(Act(r, events[0]), []);
  }

  /** Were accounts to carry a role, a call could break the log exactly when it is a
      conditional approval by an account whose role is the signatory's. */
  lemma AmbiguousCallExactly(call: Call, accountRole: Option<string>)
    ensures Ambiguous(OpOf(call, accountRole)) <==> call == ApproveCall(true) && accountRole == Some(SIGNATORY)
  {
    assert "Director"[0] != SIGNATORY[0];
  }

  // ---------- signatures ----------

  function Signatures(events: seq<Event>): nat {
    if events == [] then 0 else (if events[0].op == Sign then 1 else 0) + Signatures(events[1..])
  }

  function Min(a: int, b: int): int {
    if a < b then a else b
  }

  lemma CapsAdd(cap: int, start: int, first: nat, rest: nat)
    ensures Min(cap, Min(cap, start + first) + rest) == Min(cap, start + (first + rest))
  {}

  lemma ActCounts(r: Request, e: Event)
    requires r.completed <= r.required
    ensures Act(r, e).required == r.required
    ensures Act(r, e).completed == Min(r.required, r.completed + if e.op == Sign then 1 else 0)
    ensures Act(r, e).completed <= r.required
  {}

  /** The count after the calls, each signature capped at the number required. */
  function CountAfter(required: int, completed: int, events: seq<Event>): int
    decreases |events|
  {
    if events == [] then completed
    else CountAfter(required, Min(required, completed + if events[0].op == Sign then 1 else 0), events[1..])
  }

  lemma {:induction false} CountAfterExactly(required: int, completed: int, events: seq<Event>)
    requires completed <= required
    ensures CountAfter(required, completed, events) == Min(required, completed + Signatures(events))
    decreases |events|
  {
    if events != [] {
      var first := if events[0].op == Sign then 1 else 0;
      CountAfterExactly(required, Min(required, completed + first), events[1..]);
      CapsAdd(required, completed, first, Signatures(events[1..]));
    }
  }

  lemma {:induction false} RunCounts(r: Request, events: seq<Event>)
    requires r.completed <= r.required
    ensures Run(r, events).required == r.required
    ensures Run(r, events).completed == CountAfter(r.required, r.completed, events)
    decreases |events|
  {
    if events != [] {
      ActCounts(r, events[0]);
      RunCounts(Act(r, events[0]), events[1..]);
    }
  }

  /** Over any run the count is the starting count plus the signatures, logged or not,
      capped at the number required: it never exceeds it and never falls. */
  lemma {:induction false} SignatureCountExactly(r: Request, events: seq<Event>)
    requires r.completed <= r.required
    ensures Run(r, events).required == r.required
    ensures Run(r, events).completed == Min(r.required, r.completed + Signatures(events))
  {
    RunCounts(r, events);
    CountAfterExactly(r.required, r.completed, events);
  }

  /** The last required signature approves the request, in the log as well. */
  lemma CompletingSignatureApproves(r: Request)
    requires r.completed + 1 >= r.required
    ensures Step(r, Sign).status == Status.Approved
    ensures Replay(Step(r, Sign).decisions) == Some(Status.Approved)
  {
    ReplayAppends(r.decisions, Decision(SIGNATORY, Outcome.Approved));
  }

  // ---------- delegation of authority ----------

  /** The stored authority level always follows the amount: the target level given to an
      escalation never outlives its save. */
  lemma {:induction false} AuthorityFollowsAmount(r: Request, events: seq<Event>)
    requires r.doaLevel == DoaLevel(r.amount)
    ensures Run(r, events).amount == r.amount && Run(r, events).doaLevel == DoaLevel(r.amount)
    ensures Run(r, events).doaLevel == if r.amount <= 50000000.0 then "Director" else TOP_LEVEL
    decreases |events|
  {
    if events != [] {
      AuthorityFollowsAmount(Act(r, events[0]), events[1..]);
    }
  }

  /** The level an escalation asks for is the one stored, then and at every later point,
      exactly when it is the level the amount demands anyway. */
  lemma TargetSurvivesExactly(r: Request, target: string, later: seq<Event>)
    ensures Run(Step(r, Escalate(target)), later).doaLevel == target <==> target == DoaLevel(r.amount)
  {
    AuthorityFollowsAmount(Step(r, Escalate(target)), later);
  }

  lemma ActAppends(r: Request, e: Event)
    ensures r.decisions <= Act(r, e).decisions
  {}

  /** Decisions are only ever appended. */
  lemma {:induction false} LogOnlyGrows(r: Request, events: seq<Event>)
    ensures r.decisions <= Run(r, events).decisions
    decreases |events|
  {
    if events != [] {
      ActAppends(r, events[0]);
      LogOnlyGrows(Act(r, events[0]), events[1..]);
    }
  }

  /** `n` signatures, all logged. */
  function SignTimes(n: nat): seq<Event> {
    seq(n, _ => Event(Sign, true))
  }

  lemma {:induction false} SigningStatus(r: Request, n: nat)
    requires r.status == Pending && r.completed + n < r.required
    ensures Run(r, SignTimes(n)).status == Pending
    decreases n
  {
    if n > 0 {
      assert SignTimes(n)[1..] == SignTimes(n - 1);
      SigningStatus(Act(r, SignTimes(n)[0]), n - 1);
    }
  }

  lemma {:induction false} OneMoreSignature(r: Request, n: nat)
    ensures Run(r, SignTimes(n + 1)) == Step(Run(r, SignTimes(n)), Sign)
    decreases n
  {
    assert SignTimes(n + 1)[1..] == SignTimes(n);
    if n > 0 {
      assert SignTimes(n)[1..] == SignTimes(n - 1);
      OneMoreSignature(Step(r, Sign), n - 1);
    } else {
      assert Run(Step(r, Sign), []) == Step(r, Sign);
    }
  }

  lemma {:induction false} SignaturesCounted(n: nat)
    ensures Signatures(SignTimes(n)) == n
  {
    if n > 0 {
      assert SignTimes(n)[1..] == SignTimes(n - 1);
      SignaturesCounted(n - 1);
    }
  }

  /** A request created Pending that needs `required` signatures is Pending until the last
      of them and Approved with it. */
  lemma LastSignatureApproves(project: ProjectId, required: nat, amount: real, gate: string, n: nat)
    requires 0 < required && n <= required
    ensures var t := Run(NewRequest(project, Pending, required, 0, amount, gate), SignTimes(n));
      t.completed == n && t.status == if n == required then Status.Approved else Pending
  {
    var r := NewRequest(project, Pending, required, 0, amount, gate);
    SignatureCountExactly(r, SignTimes(n));
    SignaturesCounted(n);
    if n < required {
      SigningStatus(r, n);
    } else {
      SigningStatus(r, n - 1);
      SignatureCountExactly(r, SignTimes(n - 1));
      SignaturesCounted(n - 1);
      OneMoreSignature(r, n - 1);
    }
  }

  // ---------- what each call sets ----------

  /** The status a call that completes leaves, written out call by call. */
  function StatusAfter(r: Request, op: Op): Status {
    match op
    case Assign => if r.status == Pending then InReview else r.status
    case Approve(_, conditional) => if conditional then Status.Conditional else Status.Approved
    case Reject(_) => Status.Rejected
    case AskRevision(_) => AwaitingFix
    case AskInfo(_) => AwaitingFix
    case Escalate(_) => Status.Escalated
    case Sign => if r.completed + 1 >= r.required then Status.Approved else r.status
  }

  /** The role and outcome it logs. */
  function EntryOf(r: Request, op: Op): Option<Decision> {
    match op
    case Assign => None
    case Approve(role, conditional) =>
      Some(Decision(role, if conditional then Outcome.Conditional else Outcome.Approved))
    case Reject(role) => Some(Decision(role, Outcome.Rejected))
    case AskRevision(role) => Some(Decision(role, ReturnedForInfo))
    case AskInfo(role) => Some(Decision(role, ReturnedForInfo))
    case Escalate(_) => Some(Decision("Director", Outcome.Escalated))
    case Sign =>
      Some(Decision("Authorized Signatory",
                    if StatusAfter(r, op) == Status.Approved then Outcome.Approved else Outcome.Conditional))
  }

  /** Every call, logged or not, sets that status, marks the conditions met exactly on an
      unconditional approval, and leaves project, amount and gate alone; the entry is logged
      exactly when its row is accepted. */
  lemma ActSetsExactly(r: Request, e: Event)
    ensures var t := Act(r, e);
      && t.status == StatusAfter(r, e.op)
      && t.conditionsMet == (r.conditionsMet || (e.op.Approve? && !e.op.conditional))
      && t.project == r.project && t.amount == r.amount && t.gate == r.gate && t.required == r.required
      && t.decisions ==
           if e.logged && EntryOf(r, e.op).Some? then r.decisions + [EntryOf(r, e.op).value] else r.decisions
  {}

  /** A new request is as the data says, under the authority its amount demands, with no
      decision and no condition met. */
  lemma NewRequestIsAsGiven(project: ProjectId, status: Status, required: int, completed: int, amount: real,
                            gate: string)
    ensures NewRequest(project, status, required, completed, amount, gate) ==
      Request(project, status, required, completed, amount,
              if amount > 50000000.0 then "Permanent Secretary / Director General" else "Director",
              gate, false, [])
  {}

  /** What a completed service call logs and leaves, for accounts without a role. */
  lemma ServiceCallLeaves(r: Request, call: Call)
    ensures var t := Act(r, Event(OpOf(call, None), true));
      var logged := t.decisions[|r.decisions|..];
      match call
      case AssignCall => logged == [] && t.status == if r.status == Pending then InReview else r.status
      case ApproveCall(conditional) =>
        logged == [Decision("Director", if conditional then Outcome.Conditional else Outcome.Approved)]
        && t.status == if conditional then Status.Conditional else Status.Approved
      case RejectCall => logged == [Decision("Director", Outcome.Rejected)] && t.status == Status.Rejected
      case RevisionCall => logged == [Decision("Reviewer", ReturnedForInfo)] && t.status == AwaitingFix
      case InfoCall => logged == [Decision("Director", ReturnedForInfo)] && t.status == AwaitingFix
      case EscalateCall(_) => logged == [Decision("Director", Outcome.Escalated)] && t.status == Status.Escalated
      case SignCall =>
        |logged| == 1 && logged[0].role == "Authorized Signatory"
        && t.completed == if r.completed + 1 < r.required then r.completed + 1 else r.required
  {}
}
