/** Permit applications, their projects and permits (apps/applications/services.py and
    apps/permits/services.py). Rows are numbered by position in their table. */
module Applications {
  import opened Text

  datatype Status =
    | Draft | Submitted | UnderReview | ReviewCompleted | ApprovalRequested
    | ConditionalApproval | Approved | Rejected | Expired | Renewed

  datatype ProjectStatus = Active | Other

  datatype PermitStatus = PermitActive | Suspended | Revoked | PermitExpired

  datatype Application = Application(project: nat, status: Status)

  datatype Permit = Permit(application: nat, project: nat, status: PermitStatus)

  datatype State = State(projects: seq<ProjectStatus>, applications: seq<Application>, permits: seq<Permit>)

  function ValidTransitions(s: Status): set<Status> {
    match s
    case Draft => {Submitted}
    case Submitted => {UnderReview, Rejected}
    case UnderReview => {ReviewCompleted, ApprovalRequested, ConditionalApproval, Approved, Rejected}
    case ReviewCompleted => {ApprovalRequested, ConditionalApproval, Approved, Rejected, UnderReview}
    case ApprovalRequested => {Approved, ConditionalApproval, Rejected, UnderReview}
    case ConditionalApproval => {Approved, Rejected, UnderReview}
    case Approved => {Expired}
    case Rejected => {Submitted, UnderReview}
    case Expired => {Renewed, Submitted}
    case Renewed => {Expired}
  }

  /** The permit of an application, if one was ever issued. */
  function PermitOf(permits: seq<Permit>, application: nat): (r: Option<nat>)
    ensures r.Some? ==> r.value < |permits| && permits[r.value].application == application
    ensures r.None? <==> forall i :: 0 <= i < |permits| ==> permits[i].application != application
  {
    if permits == [] then None
    else if permits[|permits| - 1].application == application then Some(|permits| - 1)
    else PermitOf(permits[..|permits| - 1], application)
  }

  // ---------- operations as functions of the state ----------

  function WithStatus(s: State, i: nat, status: Status): State
    requires i < |s.applications|
  {
    s.(applications := s.applications[i := s.applications[i].(status := status)])
  }

  /** get_or_create: an existing permit is returned as it is, otherwise one is issued. */
  function GetOrCreate(s: State, i: nat): State
    requires i < |s.applications|
  {
    if PermitOf(s.permits, i).Some? then s
    else s.(permits := s.permits + [Permit(i, s.applications[i].project, PermitActive)])
  }

  /** The side effects of approval: project active, permit issued or reactivated. */
  function Activated(s: State, i: nat): State
    requires i < |s.applications| && s.applications[i].project < |s.projects|
  {
    var t := s.(projects := s.projects[s.applications[i].project := Active]);
    match PermitOf(t.permits, i)
    case None => GetOrCreate(t, i)
    case Some(p) => t.(permits := t.permits[p := t.permits[p].(status := PermitActive)])
  }

  function Transitioned(s: State, i: nat, status: Status): State
    requires i < |s.applications| && s.applications[i].project < |s.projects|
  {
    var t := WithStatus(s, i, status);
    if status == Approved then Activated(t, i)
    else if status == ConditionalApproval then GetOrCreate(t, i)
    else t
  }

  function PermitSet(s: State, p: nat, status: PermitStatus): State
    requires p < |s.permits|
  {
    s.(permits := s.permits[p := s.permits[p].(status := status)])
  }

  function PermitRenewed(s: State, p: nat): State
    requires p < |s.permits| && s.permits[p].application < |s.applications|
  {
    WithStatus(PermitSet(s, p, PermitActive), s.permits[p].application, Renewed)
  }

  predicate Renewable(p: Permit) {
    p.status == PermitActive || p.status == PermitExpired
  }

  // ---------- the services ----------

  datatype ServiceError = NotAuthenticated | UnknownProject | InvalidTransition | NotRenewable

  /** References between the tables resolve. */
  ghost predicate Linked(s: State) {
    && (forall i :: 0 <= i < |s.applications| ==> s.applications[i].project < |s.projects|)
    && (forall p :: 0 <= p < |s.permits| ==> s.permits[p].application < |s.applications|)
  }

  class ApplicationService {
    var projects: seq<ProjectStatus>
    var applications: seq<Application>
    var permits: seq<Permit>

    constructor (projects: seq<ProjectStatus>)
      ensures Tables() == State(projects, [], []) && Valid()
    {
      this.projects, applications, permits := projects, [], [];
    }

    function Tables(): State
      reads this
    {
      State(projects, applications, permits)
    }

    ghost predicate Valid()
      reads this
    {
      Linked(Tables())
    }

    method CreateApplication(authenticated: bool, project: nat) returns (r: Result<nat, ServiceError>)
      requires Valid()
      modifies this
      ensures Valid()
      ensures r == Err(NotAuthenticated) <==> !authenticated
      ensures r == Err(UnknownProject) <==> (authenticated && project >= |projects|)
      ensures r.Err? ==> Tables() == old(Tables())
      ensures r.Ok? ==> r == Ok(|old(applications)|)
      ensures r.Ok? ==>
        Tables() == old(Tables()).(applications := old(applications) + [Application(project, Submitted)])
    {
      if !authenticated {
        return Err(NotAuthenticated);
      }
      if project >= |projects| {
        return Err(UnknownProject);
      }
      r := Ok(|applications|);
      applications := applications + [Application(project, Submitted)];
    }

    method TransitionStatus(i: nat, status: Status) returns (r: Result<(), ServiceError>)
      requires Valid() && i < |applications|
      modifies this
      ensures Valid()
      ensures r.Ok? <==> status in ValidTransitions(old(applications)[i].status)
      ensures r.Err? ==> Tables() == old(Tables())
      ensures r.Ok? ==> Tables() == Transitioned(old(Tables()), i, status)
    {
      if status !in ValidTransitions(applications[i].status) {
        return Err(InvalidTransition);
      }
      applications := applications[i := applications[i].(status := status)];
      if status == Approved {
        var project := applications[i].project;
        projects := projects[project := Active];
        var found := PermitOf(permits, i);
        if found.None? {
          permits := permits + [Permit(i, project, PermitActive)];
        } else if permits[found.value].status != PermitActive {
          permits := permits[found.value := permits[found.value].(status := PermitActive)];
        }
      } else if status == ConditionalApproval {
        if PermitOf(permits, i).None? {
          permits := permits + [Permit(i, applications[i].project, PermitActive)];
        }
      }
      r := Ok(());
    }

    method AssignReviewer(i: nat)
      requires Valid() && i < |applications|
      modifies this
      ensures Valid()
      ensures Tables() ==
        if old(applications)[i].status == Submitted then WithStatus(old(Tables()), i, UnderReview) else old(Tables())
    {
      if applications[i].status == Submitted {
        applications := applications[i := applications[i].(status := UnderReview)];
      }
    }

    method RenewPermit(p: nat) returns (r: Result<(), ServiceError>)
      requires Valid() && p < |permits|
      modifies this
      ensures Valid()
      ensures r.Ok? <==> Renewable(old(permits)[p])
      ensures r.Err? ==> Tables() == old(Tables())
      ensures r.Ok? ==> Tables() == PermitRenewed(old(Tables()), p)
    {
      if !Renewable(permits[p]) {
        return Err(NotRenewable);
      }
      permits := permits[p := permits[p].(status := PermitActive)];
      var i := permits[p].application;
      applications := applications[i := applications[i].(status := Renewed)];
      r := Ok(());
    }

    method SuspendPermit(p: nat)
      requires Valid() && p < |permits|
      modifies this
      ensures Valid() && Tables() == PermitSet(old(Tables()), p, Suspended)
    {
      permits := permits[p := permits[p].(status := Suspended)];
    }

    method RevokePermit(p: nat)
      requires Valid() && p < |permits|
      modifies this
      ensures Valid() && Tables() == PermitSet(old(Tables()), p, Revoked)
    {
      permits := permits[p := permits[p].(status := Revoked)];
    }
  }

  // ---------- runs ----------

  datatype Op =
    | Create(project: nat)
    | Transition(application: nat, status: Status)
    | Assign(application: nat)
    | Renew(permit: nat)
    | Suspend(permit: nat)
    | Revoke(permit: nat)

  /** One service call; a call on a row that does not exist, or one the service refuses,
      changes nothing. */
  function Step(s: State, op: Op): State {
    match op
    case Create(project) =>
      if project < |s.projects| then s.(applications := s.applications + [Application(project, Submitted)]) else s
    case Transition(i, status) =>
      if i < |s.applications| && s.applications[i].project < |s.projects|
         && status in ValidTransitions(s.applications[i].status)
      then Transitioned(s, i, status)
      else s
    case Assign(i) =>
      if i < |s.applications| && s.applications[i].status == Submitted then WithStatus(s, i, UnderReview) else s
    case Renew(p) =>
      if p < |s.permits| && s.permits[p].application < |s.applications| && Renewable(s.permits[p])
      then PermitRenewed(s, p)
      else s
    case Suspend(p) => if p < |s.permits| then PermitSet(s, p, Suspended) else s
    case Revoke(p) => if p < |s.permits| then PermitSet(s, p, Revoked) else s
  }

  function Run(s: State, ops: seq<Op>): State
    decreases |ops|
  {
    if ops == [] then s else Run(Step(s, ops[0]), ops[1..])
  }
}
