/** BIM models, versions and construction milestones (apps/bim/services.py).

    Rows are numbered by position in their table. `bump` gives the label that follows a
    numeric one.
 */
module Bim {
  import opened Text
  import opened Compliance
  import opened VersionLabels

  datatype Model = Model(project: ProjectId, currentVersion: string, status: string, certified: bool)

  datatype Version = Version(model: nat, revision: string, isCurrent: bool)

  datatype Status = Unverified | PendingReview | Verified | DeviationFlagged | ReVerificationRequired | Completed

  datatype Clash = Clash(severity: string, status: string)

  datatype Milestone = Milestone(
    project: ProjectId,
    model: nat,
    version: Option<nat>,
    tolerance: real,
    deviation: real,
    gpr: string,
    clashes: seq<Clash>,
    inspections: seq<string>,
    status: Status,
    stamp: Option<string>,
    evidence: seq<real>)

  datatype State = State(models: seq<Model>, versions: seq<Version>, milestones: seq<Milestone>, ncrs: seq<Ncr>)

  // ---------- gates ----------

  predicate OpenCritical(c: Clash) {
    Upper(c.severity) in {"CRITICAL", "HIGH"} && Upper(c.status) in {"OPEN", "ASSIGNED", "IN_REVIEW"}
  }

  predicate ModelApproved(m: Model) {
    m.certified && m.status == "Approved"
  }

  /** The pinned version is current, or carries the label the model calls current. */
  predicate VersionGate(s: State, k: Milestone)
    requires k.model < |s.models|
  {
    && k.version.Some? && k.version.value < |s.versions|
    && var v := s.versions[k.version.value];
       v.isCurrent || v.revision == s.models[k.model].currentVersion
  }

  predicate ZeroCriticalClashes(k: Milestone) {
    forall i :: 0 <= i < |k.clashes| ==> !OpenCritical(k.clashes[i])
  }

  predicate InspectionsPassed(k: Milestone) {
    forall i :: 0 <= i < |k.inspections| ==> Upper(k.inspections[i]) !in {"FAILED", "PENDING"}
  }

  /** Every gate but the model's approval, which `request_changes` may withdraw. */
  predicate LastingGates(s: State, k: Milestone)
    requires k.model < |s.models|
  {
    && VersionGate(s, k)
    && ZeroCriticalClashes(k)
    && k.deviation <= k.tolerance
    && InspectionsPassed(k)
    && k.gpr in {"VERIFIED", "NOT_APPLICABLE"}
  }

  predicate AllGates(s: State, k: Milestone)
    requires k.model < |s.models|
  {
    ModelApproved(s.models[k.model]) && LastingGates(s, k)
  }

  // ---------- operations as functions of the state ----------

  function Uploaded(s: State, project: ProjectId, status: string): State {
    s.(models := s.models + [Model(project, "v1.0", status, false)],
       versions := s.versions + [Version(|s.models|, "v1.0", true)])
  }

  function Retired(vs: seq<Version>, m: nat): (r: seq<Version>)
    ensures |r| == |vs|
    ensures forall i :: 0 <= i < |r| ==> r[i] == if vs[i].model == m then vs[i].(isCurrent := false) else vs[i]
  {
    seq(|vs|, i requires 0 <= i < |vs| => if vs[i].model == m then vs[i].(isCurrent := false) else vs[i])
  }

  function Reopened(k: Milestone, m: nat): Milestone {
    if k.model == m && k.status == Verified then k.(status := ReVerificationRequired) else k
  }

  function VersionCreated(s: State, m: nat, revision: string): State
    requires m < |s.models|
  {
    s.(models := s.models[m := s.models[m].(currentVersion := revision)],
       versions := Retired(s.versions, m) + [Version(m, revision, true)],
       milestones := seq(|s.milestones|, i requires 0 <= i < |s.milestones| => Reopened(s.milestones[i], m)))
  }

  /** A version call that fails once the old versions are retired: nothing is rolled back. */
  function VersionsRetired(s: State, m: nat): State {
    s.(versions := Retired(s.versions, m))
  }

  function Certified(s: State, m: nat): State
    requires m < |s.models|
  {
    s.(models := s.models[m := s.models[m].(certified := true, status := "Approved")])
  }

  function ChangesRequested(s: State, m: nat): State
    requires m < |s.models|
  {
    s.(models := s.models[m := s.models[m].(status := "Changes Requested")])
  }

  /** The newest current version of a model, as the default ordering yields it first. */
  function CurrentVersion(vs: seq<Version>, m: nat): (r: Option<nat>)
    ensures r.Some? ==> r.value < |vs| && vs[r.value].model == m && vs[r.value].isCurrent
    ensures r.None? ==> forall i :: 0 <= i < |vs| ==> !(vs[i].model == m && vs[i].isCurrent)
  {
    if vs == [] then None
    else
      var last := |vs| - 1;
      if vs[last].model == m && vs[last].isCurrent then Some(last) else CurrentVersion(vs[..last], m)
  }

  /** The caller's payload for a milestone; its version is looked up, and replaced by the
      model's current one when it is absent or unknown. */
  datatype MilestoneData = MilestoneData(
    project: ProjectId, model: nat, version: Option<nat>, tolerance: real, deviation: real,
    gpr: string, clashes: seq<Clash>, inspections: seq<string>)

  function NewMilestone(s: State, d: MilestoneData): Milestone
    requires d.model < |s.models|
  {
    var version :=
      if d.version.Some? && d.version.value < |s.versions| then d.version
      else CurrentVersion(s.versions, d.model);
    Milestone(d.project, d.model, version, d.tolerance, d.deviation, d.gpr, d.clashes, d.inspections,
              if s.models[d.model].certified then PendingReview else Unverified, None, [])
  }

  function WithMilestone(s: State, i: nat, k: Milestone): State
    requires i < |s.milestones|
  {
    s.(milestones := s.milestones[i := k])
  }

  function DeviationNcr(project: ProjectId, deviation: real): Ncr {
    Ncr(project, if deviation > 35.0 then "Critical" else "Major", "Open", 1, "BIM_CLASH")
  }

  /** The milestone is saved first; `filed` says whether the report is then accepted. */
  function Flagged(s: State, i: nat, deviation: real, filed: bool): State
    requires i < |s.milestones|
  {
    var k := s.milestones[i];
    var flagged := k.(deviation := deviation, status := DeviationFlagged, evidence := k.evidence + [deviation]);
    WithMilestone(s, i, flagged).(
      ncrs := if deviation > 20.0 && filed then s.ncrs + [DeviationNcr(k.project, deviation)] else s.ncrs)
  }

  // ---------- the service ----------

  datatype GateReport = GateReport(
    modelApproved: bool, versionVerified: bool, zeroCriticalClashes: bool,
    toleranceCompliant: bool, inspectionsPassed: bool, gprClear: bool, blockers: nat)
  {
    predicate AllPassed() {
      blockers == 0
    }
  }

  datatype ServiceError = NotFound | LabelNotNumeric | RowRefused | GatesNotPassed(blockers: nat)

  class BimService {
    const bump: string -> string
    var models: seq<Model>
    var versions: seq<Version>
    var milestones: seq<Milestone>
    var ncrs: seq<Ncr>

    constructor (bump: string -> string)
      ensures Tables() == State([], [], [], []) && this.bump == bump && Valid()
    {
      this.bump := bump;
      models, versions, milestones, ncrs := [], [], [], [];
    }

    function Tables(): State
      reads this
    {
      State(models, versions, milestones, ncrs)
    }

    ghost predicate Valid()
      reads this
    {
      Linked(Tables())
    }

    method UploadModel(project: ProjectId, status: string) returns (m: nat)
      requires Valid()
      modifies this
      ensures Valid()
      ensures Tables() == Uploaded(old(Tables()), project, status) && m == |old(models)|
    {
      m := |models|;
      models := models + [Model(project, "v1.0", status, false)];
      versions := versions + [Version(m, "v1.0", true)];
    }

    /** create_version: the default label is computed even when one is given, so a current
        label that is not a number makes the call fail before anything changes. `accepted`
        says whether the new row can be made and stored; by the time the call finds out,
        the old versions are retired. */
    method CreateVersion(m: nat, revision: Option<string>, accepted: bool) returns (r: Result<nat, ServiceError>)
      requires Valid() && m < |models|
      modifies this
      ensures Valid()
      ensures r == Err(LabelNotNumeric) <==> !Numeric(old(models)[m].currentVersion)
      ensures r == Err(LabelNotNumeric) ==> Tables() == old(Tables())
      ensures r == Err(RowRefused) <==> (Numeric(old(models)[m].currentVersion) && !accepted)
      ensures r == Err(RowRefused) ==> Tables() == VersionsRetired(old(Tables()), m)
      ensures r.Err? ==> r.error == LabelNotNumeric || r.error == RowRefused
      ensures r.Ok? ==> r == Ok(|old(versions)|)
      ensures r.Ok? ==>
        Tables() == VersionCreated(old(Tables()), m, revision.GetOr(bump(old(models)[m].currentVersion)))
    {
      if !Numeric(models[m].currentVersion) {
        return Err(LabelNotNumeric);
      }
      var newLabel := revision.GetOr(bump(models[m].currentVersion));
      var id := |versions|;
      RetireVersions(m);
      if !accepted {
        return Err(RowRefused);
      }
      versions := versions + [Version(m, newLabel, true)];
      models := models[m := models[m].(currentVersion := newLabel)];
      ReopenVerified(m);
      r := Ok(id);
    }

    /** The bulk update of the model's versions. */
    method RetireVersions(m: nat)
      modifies this`versions
      ensures versions == Retired(old(versions), m)
    {
      var i := 0;
      while i < |versions|
        invariant 0 <= i <= |versions| == |old(versions)|
        invariant forall j :: 0 <= j < i ==> versions[j] == Retired(old(versions), m)[j]
        invariant forall j :: i <= j < |versions| ==> versions[j] == old(versions)[j]
      {
        if versions[i].model == m {
          versions := versions[i := versions[i].(isCurrent := false)];
        }
        i := i + 1;
      }
    }

    /** The loop over the model's verified milestones. */
    method ReopenVerified(m: nat)
      modifies this`milestones
      ensures |milestones| == |old(milestones)|
      ensures forall i :: 0 <= i < |milestones| ==> milestones[i] == Reopened(old(milestones)[i], m)
    {
      var i := 0;
      while i < |milestones|
        invariant 0 <= i <= |milestones| == |old(milestones)|
        invariant forall j :: 0 <= j < i ==> milestones[j] == Reopened(old(milestones)[j], m)
        invariant forall j :: i <= j < |milestones| ==> milestones[j] == old(milestones)[j]
      {
        if milestones[i].model == m && milestones[i].status == Verified {
          milestones := milestones[i := milestones[i].(status := ReVerificationRequired)];
        }
        i := i + 1;
      }
    }

    method StampAndCertify(m: nat)
      requires Valid() && m < |models|
      modifies this
      ensures Valid()
      ensures Tables() == Certified(old(Tables()), m)
    {
      models := models[m := models[m].(certified := true)];
      models := models[m := models[m].(status := "Approved")];
    }

    method RequestChanges(m: nat)
      requires Valid() && m < |models|
      modifies this
      ensures Valid()
      ensures Tables() == ChangesRequested(old(Tables()), m)
    {
      models := models[m := models[m].(status := "Changes Requested")];
    }

    method CreateMilestone(d: MilestoneData) returns (r: Result<nat, ServiceError>)
      requires Valid()
      modifies this
      ensures Valid()
      ensures r.Err? <==> d.model >= |old(models)|
      ensures r.Err? ==> Tables() == old(Tables())
      ensures r.Ok? ==> r == Ok(|old(milestones)|)
      ensures r.Ok? ==>
        Tables() == old(Tables()).(milestones := old(milestones) + [NewMilestone(old(Tables()), d)])
      ensures r.Ok? ==>
        var k := milestones[|old(milestones)|];
        && (k.status == PendingReview <==> models[d.model].certified)
        && (k.status == Unverified <==> !models[d.model].certified)
        && k.stamp.None? && k.evidence == []
    {
      if d.model >= |models| {
        return Err(NotFound);
      }
      r := Ok(|milestones|);
      milestones := milestones + [NewMilestone(Tables(), d)];
    }

    /** evaluate_milestone_gate_status: no blockers exactly when every gate passes. */
    method EvaluateGates(i: nat) returns (g: GateReport)
      requires Valid() && i < |milestones|
      ensures g.AllPassed() <==> AllGates(Tables(), milestones[i])
      ensures g.modelApproved == ModelApproved(models[milestones[i].model])
      ensures g.versionVerified == VersionGate(Tables(), milestones[i])
      ensures g.blockers <= 6
    {
      var k := milestones[i];
      var model := models[k.model];
      var openCritical := 0;
      for c := 0 to |k.clashes|
        invariant openCritical > 0 <==> exists j :: 0 <= j < c && OpenCritical(k.clashes[j])
        invariant openCritical >= 0
      {
        if OpenCritical(k.clashes[c]) {
          openCritical := openCritical + 1;
        }
      }
      var failed := 0;
      for c := 0 to |k.inspections|
        invariant failed > 0 <==> exists j :: 0 <= j < c && Upper(k.inspections[j]) in {"FAILED", "PENDING"}
        invariant failed >= 0
      {
        if Upper(k.inspections[c]) in {"FAILED", "PENDING"} {
          failed := failed + 1;
        }
      }
      g := GateReport(
        ModelApproved(model), VersionGate(Tables(), k), openCritical == 0, k.deviation <= k.tolerance,
        failed == 0, k.gpr in {"VERIFIED", "NOT_APPLICABLE"}, 0);
      var blockers := 0;
      if !g.modelApproved { blockers := blockers + 1; }
      if !g.versionVerified { blockers := blockers + 1; }
      if !g.zeroCriticalClashes { blockers := blockers + 1; }
      if !g.toleranceCompliant { blockers := blockers + 1; }
      if !g.inspectionsPassed { blockers := blockers + 1; }
      if !g.gprClear { blockers := blockers + 1; }
      g := g.(blockers := blockers);
    }

    method VerifyAndStamp(i: nat, stamp: string) returns (r: Result<(), ServiceError>)
      requires Valid() && i < |milestones|
      modifies this
      ensures Valid()
      ensures r.Ok? <==> AllGates(old(Tables()), old(milestones)[i])
      ensures r.Err? ==> Tables() == old(Tables())
      ensures r.Ok? ==>
        Tables() == WithMilestone(old(Tables()), i, old(milestones)[i].(status := Verified, stamp := Some(stamp)))
    {
      var g := EvaluateGates(i);
      if !g.AllPassed() {
        return Err(GatesNotPassed(g.blockers));
      }
      milestones := milestones[i := milestones[i].(status := Verified)];
      milestones := milestones[i := milestones[i].(stamp := Some(stamp))];
      r := Ok(());
    }

    /** flag_milestone_deviation: the milestone is saved before the report is filed, and
        stays flagged when the report is refused. */
    method FlagDeviation(i: nat, deviation: real, filed: bool) returns (r: Result<(), ServiceError>)
      requires Valid() && i < |milestones|
      modifies this
      ensures Valid()
      ensures Tables() == Flagged(old(Tables()), i, deviation, filed)
      ensures r == if deviation > 20.0 && !filed then Err(RowRefused) else Ok(())
      ensures |ncrs| == |old(ncrs)| + if deviation > 20.0 && filed then 1 else 0
      ensures deviation > 20.0 && filed ==>
        var n := ncrs[|old(ncrs)|];
        Blocking(n) && n.project == old(milestones)[i].project && (n.severity == "Critical" <==> deviation > 35.0)
    {
      var k := milestones[i];
      milestones := milestones[i := k.(deviation := deviation, status := DeviationFlagged)];
      milestones := milestones[i := milestones[i].(evidence := milestones[i].evidence + [deviation])];
      if deviation > 20.0 {
        if !filed {
          return Err(RowRefused);
        }
        ncrs := ncrs + [DeviationNcr(k.project, deviation)];
      }
      r := Ok(());
    }

    method RequestReVerification(i: nat)
      requires Valid() && i < |milestones|
      modifies this
      ensures Valid()
      ensures Tables() == WithMilestone(old(Tables()), i,
        old(milestones)[i].(status := ReVerificationRequired, stamp := None))
    {
      milestones := milestones[i := milestones[i].(status := ReVerificationRequired, stamp := None)];
    }
  }

  // ---------- invariants ----------

  /** References between the tables resolve. */
  ghost predicate Linked(s: State) {
    && (forall i :: 0 <= i < |s.versions| ==> s.versions[i].model < |s.models|)
    && (forall i :: 0 <= i < |s.milestones| ==>
          s.milestones[i].model < |s.models|
          && (s.milestones[i].version.Some? ==> s.milestones[i].version.value < |s.versions|))
  }

  ghost predicate IsCurrentOf(s: State, v: nat, m: nat) {
    v < |s.versions| && s.versions[v].model == m && s.versions[v].isCurrent
  }

  /** Version `v` is the only current version of model `m`, and its label is the model's. */
  ghost predicate SoleCurrent(s: State, v: nat, m: nat)
    requires m < |s.models|
  {
    && IsCurrentOf(s, v, m)
    && s.versions[v].revision == s.models[m].currentVersion
    && forall w :: IsCurrentOf(s, w, m) ==> w == v
  }

  /** A current version is its model's only one and carries the label the model has. */
  ghost predicate CurrentsAreSole(s: State)
    requires Linked(s)
  {
    forall v, m :: IsCurrentOf(s, v, m) ==> SoleCurrent(s, v, m)
  }

  ghost predicate HasSoleCurrent(s: State, m: nat)
    requires m < |s.models|
  {
    exists v :: SoleCurrent(s, v, m)
  }

  /** The milestone is pinned to a version of its own model. */
  ghost predicate OwnPin(s: State, k: Milestone) {
    k.version.Some? && k.version.value < |s.versions| && s.versions[k.version.value].model == k.model
  }

  /** A verified milestone pinned to its own model is stamped and keeps its gates. */
  ghost predicate Keeps(s: State, k: Milestone) {
    k.status == Verified && OwnPin(s, k) ==> k.model < |s.models| && k.stamp.Some? && LastingGates(s, k)
  }

  ghost predicate VerifiedKeepGates(s: State) {
    forall i :: 0 <= i < |s.milestones| ==> Keeps(s, s.milestones[i])
  }

  ghost predicate Inv(s: State) {
    Linked(s) && CurrentsAreSole(s) && VerifiedKeepGates(s)
  }

  // ---------- runs ----------

  datatype Op =
    | Upload(project: ProjectId, initialStatus: string)
    | NewVersion(model: nat, revision: Option<string>, accepted: bool)
    | Certify(model: nat)
    | AskChanges(model: nat)
    | NewMilestoneOp(data: MilestoneData)
    | Verify(milestone: nat, stamp: string)
    | Flag(milestone: nat, deviation: real, filed: bool)
    | AskReVerification(milestone: nat)

  /** One service call; a call on a row that does not exist, or one the service refuses,
      changes nothing. */
  function Step(s: State, op: Op, bump: string -> string): State {
    match op
    case Upload(project, status) => Uploaded(s, project, status)
    case NewVersion(m, revision, accepted) =>
      if !(m < |s.models| && Numeric(s.models[m].currentVersion)) then s
      else if !accepted then VersionsRetired(s, m)
      else VersionCreated(s, m, revision.GetOr(bump(s.models[m].currentVersion)))
    case Certify(m) => if m < |s.models| then Certified(s, m) else s
    case AskChanges(m) => if m < |s.models| then ChangesRequested(s, m) else s
    case NewMilestoneOp(d) =>
      if d.model < |s.models| then s.(milestones := s.milestones + [NewMilestone(s, d)]) else s
    case Verify(i, stamp) =>
      if i < |s.milestones| && s.milestones[i].model < |s.models| && AllGates(s, s.milestones[i]) then
        WithMilestone(s, i, s.milestones[i].(status := Verified, stamp := Some(stamp)))
      else s
    case Flag(i, deviation, filed) => if i < |s.milestones| then Flagged(s, i, deviation, filed) else s
    case AskReVerification(i) =>
      if i < |s.milestones| then
        WithMilestone(s, i, s.milestones[i].(status := ReVerificationRequired, stamp := None))
      else s
  }

  function Run(s: State, ops: seq<Op>, bump: string -> string): State
    decreases |ops|
  {
    if ops == [] then s else Run(Step(s, ops[0], bump), ops[1..], bump)
  }
}
