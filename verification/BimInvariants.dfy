/** What every run of the BIM service keeps. */
module BimInvariants {
  import opened Text
  import opened Compliance
  import opened VersionLabels
  import opened Bim

  lemma EmptyStateIsSound()
    ensures Inv(State([], [], [], []))
  {}

  lemma UploadKeepsInv(s: State, project: ProjectId, status: string)
    requires Inv(s)
    ensures Inv(Uploaded(s, project, status))
  {
    var t := Uploaded(s, project, status);
    forall v: nat, m: nat | IsCurrentOf(t, v, m) ensures SoleCurrent(t, v, m) {
      forall w: nat | IsCurrentOf(t, w, m) ensures w == v {
        assert w < |s.versions| ==> IsCurrentOf(s, w, m);
        assert v < |s.versions| ==> IsCurrentOf(s, v, m);
      }
      assert v < |s.versions| ==> IsCurrentOf(s, v, m);
    }
    forall i | 0 <= i < |t.milestones| ensures Keeps(t, t.milestones[i]) {
      assert Keeps(s, s.milestones[i]);
    }
  }

  lemma NewVersionKeepsInv(s: State, m: nat, revision: string)
    requires Inv(s) && m < |s.models|
    ensures Inv(VersionCreated(s, m, revision))
  {
    var t := VersionCreated(s, m, revision);
    NewVersionKeepsCurrents(s, m, revision);
    forall i | 0 <= i < |t.milestones| ensures Keeps(t, t.milestones[i]) {
      assert Keeps(s, s.milestones[i]);
      var k := t.milestones[i];
      if k.status == Verified && OwnPin(t, k) {
        assert k == s.milestones[i] && k.model != m;
        assert t.versions[k.version.value] == s.versions[k.version.value];
      }
    }
  }

  lemma NewVersionKeepsCurrents(s: State, m: nat, revision: string)
    requires Inv(s) && m < |s.models|
    ensures Linked(VersionCreated(s, m, revision)) && CurrentsAreSole(VersionCreated(s, m, revision))
    ensures SoleCurrent(VersionCreated(s, m, revision), |s.versions|, m)
  {
    var t := VersionCreated(s, m, revision);
    assert SoleCurrent(t, |s.versions|, m);
    forall v: nat, k: nat | IsCurrentOf(t, v, k) ensures SoleCurrent(t, v, k) {
      if k != m {
        assert IsCurrentOf(s, v, k);
        forall w: nat | IsCurrentOf(t, w, k) ensures w == v {
          assert IsCurrentOf(s, w, k);
        }
      }
    }
  }

  /** A version call that fails half-way leaves the model's versions retired; a verified
      milestone keeps its gate by the label, which has not moved. */
  lemma RetiringKeepsInv(s: State, m: nat)
    requires Inv(s) && m < |s.models|
    ensures Inv(VersionsRetired(s, m)) && !HasSoleCurrent(VersionsRetired(s, m), m)
  {
    var t := VersionsRetired(s, m);
    forall v: nat, k: nat | IsCurrentOf(t, v, k) ensures SoleCurrent(t, v, k) {
      assert IsCurrentOf(s, v, k);
      forall w: nat | IsCurrentOf(t, w, k) ensures w == v {
        assert IsCurrentOf(s, w, k);
      }
    }
    forall i | 0 <= i < |t.milestones| ensures Keeps(t, t.milestones[i]) {
      assert Keeps(s, s.milestones[i]);
      var k := t.milestones[i];
      if k.status == Verified && OwnPin(t, k) && s.versions[k.version.value].isCurrent {
        assert IsCurrentOf(s, k.version.value, k.model);
      }
    }
  }

  /** Changing a model's status or seal leaves every lasting gate alone. */
  lemma ModelEditKeepsInv(s: State, t: State, m: nat)
    requires Inv(s) && m < |s.models|
    requires |t.models| == |s.models| && t == s.(models := s.models[m := t.models[m]])
    requires t.models[m].currentVersion == s.models[m].currentVersion
    ensures Inv(t)
  {
    SameVersionsSameCurrents(s, t);
    forall i | 0 <= i < |t.milestones| ensures Keeps(t, t.milestones[i]) {
      assert Keeps(s, s.milestones[i]);
    }
  }

  lemma SameVersionsSameCurrents(s: State, t: State)
    requires Inv(s) && Linked(t) && t.versions == s.versions && |t.models| == |s.models|
    requires forall m :: 0 <= m < |s.models| ==> t.models[m].currentVersion == s.models[m].currentVersion
    ensures CurrentsAreSole(t)
  {
    forall v: nat, m: nat | IsCurrentOf(t, v, m) ensures SoleCurrent(t, v, m) {
      assert IsCurrentOf(s, v, m);
      forall w: nat | IsCurrentOf(t, w, m) ensures w == v {
        assert IsCurrentOf(s, w, m);
      }
    }
  }

  /** Adding or replacing a milestone that keeps its promise keeps the invariant. */
  lemma MilestoneEditKeepsInv(s: State, t: State, i: nat, k: Milestone)
    requires Inv(s) && t.models == s.models && t.versions == s.versions
    requires i <= |s.milestones|
    requires t.milestones == if i == |s.milestones| then s.milestones + [k] else s.milestones[i := k]
    requires k.model < |s.models| && (k.version.Some? ==> k.version.value < |s.versions|)
    requires Keeps(t, k)
    ensures Inv(t)
  {
    SameVersionsSameCurrents(s, t);
    forall j | 0 <= j < |t.milestones| ensures Keeps(t, t.milestones[j]) {
      if j != i {
        assert Keeps(s, s.milestones[j]);
      }
    }
  }

  /** Every service call, one that fails half-way among them, keeps at most one current
      version per model and the gates of every verified milestone. */
  lemma StepKeepsInv(s: State, op: Op, bump: string -> string)
    requires Inv(s)
    ensures Inv(Step(s, op, bump))
  {
    var t := Step(s, op, bump);
    match op
    case Upload(project, status) => UploadKeepsInv(s, project, status);
    case NewVersion(m, revision, accepted) =>
      if m < |s.models| {
        RetiringKeepsInv(s, m);
        NewVersionKeepsInv(s, m, revision.GetOr(bump(s.models[m].currentVersion)));
      }
    case Certify(m) =>
      if t != s {
        ModelEditKeepsInv(s, t, m);
      }
    case AskChanges(m) =>
      if t != s {
        ModelEditKeepsInv(s, t, m);
      }
    case NewMilestoneOp(d) =>
      if t != s {
        MilestoneEditKeepsInv(s, t, |s.milestones|, NewMilestone(s, d));
      }
    case Verify(i, stamp) =>
      if t != s {
        MilestoneEditKeepsInv(s, t, i, t.milestones[i]);
      }
    case Flag(i, deviation, filed) =>
      if t != s {
        MilestoneEditKeepsInv(s, t, i, t.milestones[i]);
      }
    case AskReVerification(i) =>
      if t != s {
        MilestoneEditKeepsInv(s, t, i, t.milestones[i]);
      }
  }

  /** Over every run: each model has at most one current version, labelled as the model
      says, and every verified milestone pinned to its own model is stamped and passes
      the version, clash, tolerance, inspection and GPR gates. */
  lemma {:induction false} RunKeepsInv(s: State, ops: seq<Op>, bump: string -> string)
    requires Inv(s)
    ensures Inv(Run(s, ops, bump))
    decreases |ops|
  {
    if ops != [] {
      StepKeepsInv(s, ops[0], bump);
      RunKeepsInv(Step(s, ops[0], bump), ops[1..], bump);
    }
  }

  // ---------- exactly when a model has a current version ----------

  /** The call gets as far as retiring the versions of model `m`. */
  predicate Retires(s: State, op: Op, m: nat) {
    op.NewVersion? && op.model == m && m < |s.models| && Numeric(s.models[m].currentVersion)
  }

  /** Whether, along a run, the last call that retired the versions of model `m` failed to
      store the new one. */
  function LeftWithout(s: State, ops: seq<Op>, bump: string -> string, m: nat, without: bool): bool
    decreases |ops|
  {
    if ops == [] then without
    else
      var op := ops[0];
      LeftWithout(Step(s, op, bump), ops[1..], bump, m, if Retires(s, op, m) then !op.accepted else without)
  }

  ghost predicate Tracks(s: State, m: nat, without: bool) {
    Inv(s) && (m < |s.models| ==> (HasSoleCurrent(s, m) <==> !without)) && (m >= |s.models| ==> !without)
  }

  lemma OtherCallsKeepCurrents(s: State, op: Op, bump: string -> string, m: nat)
    requires Inv(s) && m < |s.models| && !Retires(s, op, m)
    ensures m < |Step(s, op, bump).models|
    ensures HasSoleCurrent(Step(s, op, bump), m) <==> HasSoleCurrent(s, m)
  {
    var t := Step(s, op, bump);
    StepKeepsInv(s, op, bump);
    if v: nat :| SoleCurrent(s, v, m) {
      assert IsCurrentOf(t, v, m);
    }
    if v: nat :| SoleCurrent(t, v, m) {
      assert IsCurrentOf(s, v, m);
    }
  }

  lemma NewModelHasCurrent(s: State, project: ProjectId, status: string)
    requires Inv(s)
    ensures HasSoleCurrent(Uploaded(s, project, status), |s.models|)
  {
    UploadKeepsInv(s, project, status);
    assert IsCurrentOf(Uploaded(s, project, status), |s.versions|, |s.models|);
  }

  lemma StepTracks(s: State, op: Op, bump: string -> string, m: nat, without: bool)
    requires Tracks(s, m, without)
    ensures Tracks(Step(s, op, bump), m, if Retires(s, op, m) then !op.accepted else without)
  {
    StepKeepsInv(s, op, bump);
    if Retires(s, op, m) {
      RetiringKeepsInv(s, m);
      NewVersionKeepsCurrents(s, m, op.revision.GetOr(bump(s.models[m].currentVersion)));
    } else if m < |s.models| {
      OtherCallsKeepCurrents(s, op, bump, m);
    } else if op.Upload? && m == |s.models| {
      NewModelHasCurrent(s, op.project, op.initialStatus);
    }
  }

  lemma {:induction false} RunTracks(s: State, ops: seq<Op>, bump: string -> string, m: nat, without: bool)
    requires Tracks(s, m, without)
    ensures Tracks(Run(s, ops, bump), m, LeftWithout(s, ops, bump, m, without))
    decreases |ops|
  {
    if ops != [] {
      StepTracks(s, ops[0], bump, m, without);
      RunTracks(Step(s, ops[0], bump), ops[1..], bump, m, if Retires(s, ops[0], m) then !ops[0].accepted else without);
    }
  }

  /** Over every run from empty tables a model has exactly one current version, labelled as
      the model says, if and only if the last call that retired its versions, if any, also
      stored the new one. */
  lemma HasCurrentVersionExactly(ops: seq<Op>, bump: string -> string, m: nat)
    requires m < |Run(State([], [], [], []), ops, bump).models|
    ensures HasSoleCurrent(Run(State([], [], [], []), ops, bump), m) <==>
      !LeftWithout(State([], [], [], []), ops, bump, m, false)
  {
    EmptyStateIsSound();
    RunTracks(State([], [], [], []), ops, bump, m, false);
  }

  lemma {:induction false} AcceptedRowsLeaveNone(s: State, ops: seq<Op>, bump: string -> string, m: nat)
    requires forall i :: 0 <= i < |ops| && ops[i].NewVersion? ==> ops[i].accepted
    ensures !LeftWithout(s, ops, bump, m, false)
    decreases |ops|
  {
    if ops != [] {
      AcceptedRowsLeaveNone(Step(s, ops[0], bump), ops[1..], bump, m);
    }
  }

  /** So each model has its one current version over every run whose version rows are all
      accepted. */
  lemma AcceptedRunsKeepOneCurrent(ops: seq<Op>, bump: string -> string, m: nat)
    requires forall i :: 0 <= i < |ops| && ops[i].NewVersion? ==> ops[i].accepted
    requires m < |Run(State([], [], [], []), ops, bump).models|
    ensures HasSoleCurrent(Run(State([], [], [], []), ops, bump), m)
  {
    HasCurrentVersionExactly(ops, bump, m);
    AcceptedRowsLeaveNone(State([], [], [], []), ops, bump, m);
  }

  /** One refused row, such as a count of added elements that is not a number, leaves a model
      with no current version. */
  lemma RefusedRowLeavesNoCurrentVersion(project: ProjectId, revision: Option<string>, bump: string -> string)
    ensures var t := Run(State([], [], [], []), [Upload(project, "Draft"), NewVersion(0, revision, false)], bump);
      |t.models| == 1 && !HasSoleCurrent(t, 0)
  {
    LabelV10();
    var ops := [Upload(project, "Draft"), NewVersion(0, revision, false)];
    var s := Step(State([], [], [], []), ops[0], bump);
    EmptyStateIsSound();
    StepKeepsInv(State([], [], [], []), ops[0], bump);
    RetiringKeepsInv(s, 0);
    assert ops[1..] == [ops[1]] && ops[1..][1..] == [];
    assert Run(s, ops[1..], bump) == Step(s, ops[1], bump);
  }

  /** What VERIFIED means at every point of every run, for a milestone pinned to its own
      model: a stamp, the label in force, no open critical clash, a deviation within
      tolerance, no failed or pending inspection, and ground cleared. */
  lemma {:induction false} VerifiedMilestoneIsClear(ops: seq<Op>, bump: string -> string, i: nat)
    requires var t := Run(State([], [], [], []), ops, bump);
      i < |t.milestones| && t.milestones[i].status == Verified && OwnPin(t, t.milestones[i])
    ensures var t := Run(State([], [], [], []), ops, bump);
      var k := t.milestones[i];
      && k.model < |t.models|
      && k.stamp.Some?
      && t.versions[k.version.value].revision == t.models[k.model].currentVersion
      && (forall c :: c in k.clashes && (Upper(c.severity) == "CRITICAL" || Upper(c.severity) == "HIGH") ==>
            Upper(c.status) != "OPEN" && Upper(c.status) != "ASSIGNED" && Upper(c.status) != "IN_REVIEW")
      && k.deviation <= k.tolerance
      && (forall o :: o in k.inspections ==> Upper(o) != "FAILED" && Upper(o) != "PENDING")
      && (k.gpr == "VERIFIED" || k.gpr == "NOT_APPLICABLE")
  {
    EmptyStateIsSound();
    RunKeepsInv(State([], [], [], []), ops, bump);
    var t := Run(State([], [], [], []), ops, bump);
    var k := t.milestones[i];
    assert Keeps(t, k);
    var pin := k.version.value;
    if t.versions[pin].isCurrent {
      assert IsCurrentOf(t, pin, k.model);
    }
    forall c | c in k.clashes ensures !OpenCritical(c) {
      var j :| 0 <= j < |k.clashes| && k.clashes[j] == c;
    }
    forall o | o in k.inspections ensures Upper(o) !in {"FAILED", "PENDING"} {
      var j :| 0 <= j < |k.inspections| && k.inspections[j] == o;
    }
  }

  predicate Withheld(s: State, m: nat) {
    m < |s.models| && s.models[m].status == "Changes Requested"
  }

  predicate StampedOn(s: State, m: nat, i: nat) {
    i < |s.milestones| && s.milestones[i].model == m && s.milestones[i].status == Verified
  }

  lemma {:induction false} WithheldRunStampsNothing(s: State, ops: seq<Op>, bump: string -> string, m: nat, i: nat)
    requires Withheld(s, m) && Certify(m) !in ops
    ensures var t := Run(s, ops, bump);
      && Withheld(t, m)
      && (StampedOn(t, m, i) ==> StampedOn(s, m, i) && t.milestones[i].stamp == s.milestones[i].stamp)
    decreases |ops|
  {
    if ops != [] {
      var t := Step(s, ops[0], bump);
      assert StampedOn(t, m, i) ==> StampedOn(s, m, i) && t.milestones[i].stamp == s.milestones[i].stamp;
      WithheldRunStampsNothing(t, ops[1..], bump, m, i);
    }
  }

  /** From the moment changes are requested until the model is certified again, no run
      stamps a milestone of that model: those verified at the end were verified before,
      with the same stamp. */
  lemma NoStampUntilCertifiedAgain(s: State, ops: seq<Op>, bump: string -> string, m: nat, i: nat)
    requires m < |s.models| && Certify(m) !in ops
    ensures var t := Run(Step(s, AskChanges(m), bump), ops, bump);
      StampedOn(t, m, i) ==> StampedOn(s, m, i) && t.milestones[i].stamp == s.milestones[i].stamp
  {
    WithheldRunStampsNothing(Step(s, AskChanges(m), bump), ops, bump, m, i);
  }

  /** The milestone lookup's `first()` is the model's only current version, and finds one
      exactly when the model has one. */
  lemma DefaultPinIsTheCurrentVersion(s: State, d: MilestoneData)
    requires Inv(s) && d.model < |s.models|
    requires d.version.None? || d.version.value >= |s.versions|
    ensures var k := NewMilestone(s, d);
      k.version.Some? <==> HasSoleCurrent(s, d.model)
    ensures var k := NewMilestone(s, d);
      k.version.Some? ==> SoleCurrent(s, k.version.value, d.model) && OwnPin(s, k) && VersionGate(s, k)
  {
    var k := NewMilestone(s, d);
    if k.version.Some? {
      assert IsCurrentOf(s, k.version.value, d.model);
    }
    if v: nat :| SoleCurrent(s, v, d.model) {
      assert s.versions[v].model == d.model && s.versions[v].isCurrent;
    }
  }

  // ---------- milestones pinned to another model's version ----------

  /** Committing a version of model `m` leaves a milestone of another model verified; its
      version gate survives exactly when its pin is not a version of `m`, or carries the
      label its own model calls current. */
  lemma PinSurvivesExactly(s: State, m: nat, revision: string, i: nat)
    requires Linked(s) && m < |s.models| && i < |s.milestones|
    requires s.milestones[i].model != m && VersionGate(s, s.milestones[i])
    ensures var t := VersionCreated(s, m, revision);
      var pin := s.versions[s.milestones[i].version.value];
      && t.milestones[i] == s.milestones[i]
      && (VersionGate(t, t.milestones[i]) <==>
           pin.model != m || pin.revision == s.models[s.milestones[i].model].currentVersion)
  {
    var t := VersionCreated(s, m, revision);
    assert t.versions[s.milestones[i].version.value] == Retired(s.versions, m)[s.milestones[i].version.value];
  }

  /** Two models; the first has moved on to version "2", is certified and has a milestone
      pinned to the second one's only version. */
  function ForeignPinTables(status: Status, stamp: Option<string>): State {
    State(
      [Model(0, "2", "Approved", true), Model(0, "v1.0", "Draft", false)],
      [Version(0, "v1.0", false), Version(1, "v1.0", true), Version(0, "2", true)],
      [Milestone(0, 0, Some(1), 15.0, 0.0, "VERIFIED", [], [], status, stamp, [])],
      [])
  }

  /** A run of accepted calls reaches a milestone that is verified and stamped, passes
      every gate and is pinned to another model's version; the next version of that other
      model closes the version gate and leaves the milestone verified. */
  lemma ForeignPinCanLoseItsGate(ops: seq<Op>, bump: string -> string)
    requires ops == [Upload(0, "Draft"), Upload(0, "Draft"), NewVersion(0, Some("2"), true), Certify(0),
      NewMilestoneOp(MilestoneData(0, 0, Some(1), 15.0, 0.0, "VERIFIED", [], [])), Verify(0, "0x1")]
    ensures var s := Run(State([], [], [], []), ops, bump);
      |s.milestones| == 1 && s.milestones[0].status == Verified
      && s.milestones[0].model < |s.models| && AllGates(s, s.milestones[0])
    ensures var s := Run(State([], [], [], []), ops, bump);
      var t := Step(s, NewVersion(1, Some("3"), true), bump);
      |t.milestones| == 1 && t.milestones == s.milestones
      && t.milestones[0].model < |t.models| && !VersionGate(t, t.milestones[0])
  {
    ForeignPinIsReached(ops, bump);
    ForeignPinLosesItsGate(bump);
  }

  lemma ForeignPinLosesItsGate(bump: string -> string)
    ensures var s := ForeignPinTables(Verified, Some("0x1"));
      AllGates(s, s.milestones[0])
    ensures var s := ForeignPinTables(Verified, Some("0x1"));
      var t := Step(s, NewVersion(1, Some("3"), true), bump);
      t.milestones == s.milestones && |t.models| == 2 && !VersionGate(t, t.milestones[0])
  {
    LabelV10();
    var s := ForeignPinTables(Verified, Some("0x1"));
    assert Numeric(s.models[1].currentVersion);
    PinSurvivesExactly(s, 1, "3", 0);
    assert Step(s, NewVersion(1, Some("3"), true), bump) == VersionCreated(s, 1, "3");
  }

  lemma ForeignPinIsReached(ops: seq<Op>, bump: string -> string)
    requires ops == [Upload(0, "Draft"), Upload(0, "Draft"), NewVersion(0, Some("2"), true), Certify(0),
      NewMilestoneOp(MilestoneData(0, 0, Some(1), 15.0, 0.0, "VERIFIED", [], [])), Verify(0, "0x1")]
    ensures Run(State([], [], [], []), ops, bump) == ForeignPinTables(Verified, Some("0x1"))
  {
    var empty := State([], [], [], []);
    TwoModelsVersioned(bump);
    RunOfThree(empty, ops, bump);
    var versioned := Step(Step(Step(empty, ops[0], bump), ops[1], bump), ops[2], bump);
    PinnedAndVerified(versioned, bump);
    RunOfThree(versioned, ops[3..], bump);
    assert ops[3..][3..] == [];
  }

  lemma PinnedAndVerified(s: State, bump: string -> string)
    requires s == State([Model(0, "2", "Draft", false), Model(0, "v1.0", "Draft", false)],
      ForeignPinTables(Verified, None).versions, [], [])
    ensures var t := Step(s, Certify(0), bump);
      var u := Step(t, NewMilestoneOp(MilestoneData(0, 0, Some(1), 15.0, 0.0, "VERIFIED", [], [])), bump);
      Step(u, Verify(0, "0x1"), bump) == ForeignPinTables(Verified, Some("0x1"))
  {
    var t := Step(s, Certify(0), bump);
    var u := Step(t, NewMilestoneOp(MilestoneData(0, 0, Some(1), 15.0, 0.0, "VERIFIED", [], [])), bump);
    assert u == ForeignPinTables(PendingReview, None);
    assert AllGates(u, u.milestones[0]);
  }

  function TwoDrafts(): State {
    var a := Model(0, "v1.0", "Draft", false);
    State([a, a], [Version(0, "v1.0", true), Version(1, "v1.0", true)], [], [])
  }

  lemma TwoDraftsUploaded(bump: string -> string)
    ensures Step(Step(State([], [], [], []), Upload(0, "Draft"), bump), Upload(0, "Draft"), bump) == TwoDrafts()
  {
    var one := Step(State([], [], [], []), Upload(0, "Draft"), bump);
    assert one == State([Model(0, "v1.0", "Draft", false)], [Version(0, "v1.0", true)], [], []);
  }

  lemma TwoModelsVersioned(bump: string -> string)
    ensures var t := Step(Step(State([], [], [], []), Upload(0, "Draft"), bump), Upload(0, "Draft"), bump);
      Step(t, NewVersion(0, Some("2"), true), bump) == State(
        [Model(0, "2", "Draft", false), Model(0, "v1.0", "Draft", false)],
        ForeignPinTables(Verified, None).versions, [], [])
  {
    LabelV10();
    TwoDraftsUploaded(bump);
    assert Retired(TwoDrafts().versions, 0) == [Version(0, "v1.0", false), Version(1, "v1.0", true)];
  }

  lemma RunOfThree(s: State, ops: seq<Op>, bump: string -> string)
    requires |ops| >= 3
    ensures Run(s, ops, bump) ==
      Run(Step(Step(Step(s, ops[0], bump), ops[1], bump), ops[2], bump), ops[3..], bump)
  {
    var t := Step(s, ops[0], bump);
    var u := Step(t, ops[1], bump);
    assert ops[1..][1..] == ops[2..] && ops[2..][1..] == ops[3..];
    assert Run(t, ops[1..], bump) == Run(u, ops[2..], bump);
    assert Run(u, ops[2..], bump) == Run(Step(u, ops[2], bump), ops[3..], bump);
  }

  // ---------- a label that is not a number ----------

  predicate Frozen(s: State, m: nat) {
    m < |s.models| && !Numeric(s.models[m].currentVersion)
  }

  /** Once a model's current label is not a number, no run ever versions it again. */
  lemma {:induction false} NonNumericLabelFreezesTheModel(s: State, ops: seq<Op>, bump: string -> string, m: nat)
    requires Inv(s) && Frozen(s, m)
    ensures Frozen(Run(s, ops, bump), m)
    ensures Run(s, ops, bump).models[m].currentVersion == s.models[m].currentVersion
    ensures forall v :: SoleCurrent(s, v, m) ==> SoleCurrent(Run(s, ops, bump), v, m)
    decreases |ops|
  {
    if ops != [] {
      var t := Step(s, ops[0], bump);
      StepKeepsInv(s, ops[0], bump);
      assert t.models[m].currentVersion == s.models[m].currentVersion;
      NonNumericLabelFreezesTheModel(t, ops[1..], bump, m);
      forall v: nat | SoleCurrent(s, v, m) ensures SoleCurrent(t, v, m) {
        FrozenStepKeepsCurrent(s, ops[0], bump, m, v);
      }
    }
  }

  /** The call commits a version of model `m` under a label that is not a number. */
  predicate FreezingCall(op: Op, m: nat) {
    op.NewVersion? && op.model == m && op.accepted && op.revision.Some? && !Numeric(op.revision.value)
  }

  /** A call freezes a model that can be versioned exactly when it commits a version of it
      under a label that is not a number. */
  lemma FreezesExactly(s: State, op: Op, bump: string -> string, m: nat)
    requires StaysNumeric(bump) && m < |s.models| && !Frozen(s, m)
    ensures Frozen(Step(s, op, bump), m) <==> FreezingCall(op, m)
  {}

  lemma StepStaysNumeric(s: State, op: Op, bump: string -> string)
    requires StaysNumeric(bump) && forall m :: 0 <= m < |s.models| ==> !Frozen(s, m)
    requires forall m :: !FreezingCall(op, m)
    ensures forall m :: 0 <= m < |Step(s, op, bump).models| ==> !Frozen(Step(s, op, bump), m)
  {
    LabelV10();
    forall m | 0 <= m < |Step(s, op, bump).models| ensures !Frozen(Step(s, op, bump), m) {
      if m < |s.models| {
        FreezesExactly(s, op, bump, m);
      }
    }
  }

  lemma {:induction false} NumericStaysNumeric(s: State, ops: seq<Op>, bump: string -> string)
    requires StaysNumeric(bump) && forall m :: 0 <= m < |s.models| ==> !Frozen(s, m)
    requires forall i, m :: 0 <= i < |ops| ==> !FreezingCall(ops[i], m)
    ensures forall m :: 0 <= m < |Run(s, ops, bump).models| ==> !Frozen(Run(s, ops, bump), m)
    decreases |ops|
  {
    if ops != [] {
      StepStaysNumeric(s, ops[0], bump);
      NumericStaysNumeric(Step(s, ops[0], bump), ops[1..], bump);
    }
  }

  /** So over every run that gives no such label each model can always be versioned. */
  lemma NumericLabelsNeverFreeze(ops: seq<Op>, bump: string -> string, m: nat)
    requires StaysNumeric(bump) && forall i, k :: 0 <= i < |ops| ==> !FreezingCall(ops[i], k)
    requires m < |Run(State([], [], [], []), ops, bump).models|
    ensures !Frozen(Run(State([], [], [], []), ops, bump), m)
  {
    NumericStaysNumeric(State([], [], [], []), ops, bump);
  }

  /** A version labelled "Rev A" freezes its model for good. */
  lemma RevisionAFreezes(project: ProjectId, later: seq<Op>, bump: string -> string)
    ensures var s := Run(State([], [], [], []), [Upload(project, "Draft"), NewVersion(0, Some("Rev A"), true)], bump);
      Frozen(s, 0) && Frozen(Run(s, later, bump), 0)
  {
    LabelV10();
    LabelRevA();
    var ops := [Upload(project, "Draft"), NewVersion(0, Some("Rev A"), true)];
    var empty := State([], [], [], []);
    EmptyStateIsSound();
    RunKeepsInv(empty, ops, bump);
    var s := Step(Step(empty, ops[0], bump), ops[1], bump);
    assert ops[1..] == [ops[1]] && ops[1..][1..] == [];
    assert Run(empty, ops, bump) == s by {
      assert Run(Step(empty, ops[0], bump), ops[1..], bump) == Run(s, [], bump);
    }
    NonNumericLabelFreezesTheModel(s, later, bump, 0);
  }

  lemma FrozenStepKeepsCurrent(s: State, op: Op, bump: string -> string, m: nat, v: nat)
    requires Inv(s) && Frozen(s, m) && SoleCurrent(s, v, m)
    ensures SoleCurrent(Step(s, op, bump), v, m)
  {
    var t := Step(s, op, bump);
    StepKeepsInv(s, op, bump);
    assert IsCurrentOf(t, v, m);
  }

  // ---------- what each call leaves ----------

  /** A new model stands at v1.0, uncertified, with that version current; certifying
      approves it, asking for changes keeps its seal, and neither touches another model. */
  lemma ModelCalls(s: State, project: ProjectId, status: string, m: nat)
    requires m < |s.models|
    ensures var t := Uploaded(s, project, status);
      && t.models == s.models + [Model(project, "v1.0", status, false)]
      && t.versions == s.versions + [Version(|s.models|, "v1.0", true)]
      && t.milestones == s.milestones && t.ncrs == s.ncrs
    ensures Certified(s, m).models[m] == Model(s.models[m].project, s.models[m].currentVersion, "Approved", true)
    ensures ChangesRequested(s, m).models[m] ==
      Model(s.models[m].project, s.models[m].currentVersion, "Changes Requested", s.models[m].certified)
    ensures forall k :: 0 <= k < |s.models| && k != m ==>
      Certified(s, m).models[k] == s.models[k] && ChangesRequested(s, m).models[k] == s.models[k]
  {}

  /** A new version sends exactly the verified milestones of its own model to
      re-verification, stamp and all, and changes no other milestone. */
  lemma NewVersionReopensExactly(s: State, m: nat, revision: string, i: nat)
    requires m < |s.models| && i < |s.milestones|
    ensures var t := VersionCreated(s, m, revision);
      && |t.milestones| == |s.milestones|
      && (s.milestones[i].model == m && s.milestones[i].status == Verified ==>
           t.milestones[i] == s.milestones[i].(status := ReVerificationRequired))
      && (!(s.milestones[i].model == m && s.milestones[i].status == Verified) ==> t.milestones[i] == s.milestones[i])
      && t.models[m].currentVersion == revision
  {}

  /** A milestone's status after a call, written out call by call. */
  function StatusAfter(s: State, op: Op, i: nat): Status
    requires i < |s.milestones|
  {
    var k := s.milestones[i];
    match op
    case NewVersion(m, _, accepted) =>
      if accepted && k.model == m && m < |s.models| && Numeric(s.models[m].currentVersion) && k.status == Verified
      then ReVerificationRequired else k.status
    case Verify(j, _) => if j == i && k.model < |s.models| && AllGates(s, k) then Verified else k.status
    case Flag(j, _, _) => if j == i then DeviationFlagged else k.status
    case AskReVerification(j) => if j == i then ReVerificationRequired else k.status
    case _ => k.status
  }

  /** And its stamp and evidence. */
  lemma StepSetsMilestone(s: State, op: Op, bump: string -> string, i: nat)
    requires i < |s.milestones|
    ensures var k, t := s.milestones[i], Step(s, op, bump);
      && i < |t.milestones|
      && t.milestones[i].status == StatusAfter(s, op, i)
      && t.milestones[i].stamp == (
           if op.Verify? && op.milestone == i && k.model < |s.models| && AllGates(s, k) then Some(op.stamp)
           else if op.AskReVerification? && op.milestone == i then None else k.stamp)
      && t.milestones[i].evidence ==
           if op.Flag? && op.milestone == i then k.evidence + [op.deviation] else k.evidence
  {}

  /** The report of a deviation: open, at level one, critical above 35 mm and major up to
      there, and filed exactly above 20 mm when it is accepted. */
  lemma FlagReportsExactly(s: State, i: nat, deviation: real, filed: bool)
    requires i < |s.milestones|
    ensures var t := Flagged(s, i, deviation, filed);
      t.ncrs == s.ncrs +
        if deviation <= 20.0 || !filed then []
        else [Ncr(s.milestones[i].project, if deviation <= 35.0 then "Major" else "Critical", "Open", 1, "BIM_CLASH")]
  {}
}
