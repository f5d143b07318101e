/** What a caller's milestone payload decides about its verification, over every run. */
module BimPayloads {
  import opened Text
  import opened Bim

  /** The row still holds what the payload gave. */
  predicate Holds(k: Milestone, d: MilestoneData) {
    && k.project == d.project && k.model == d.model && k.tolerance == d.tolerance
    && k.gpr == d.gpr && k.clashes == d.clashes && k.inspections == d.inspections
  }

  /** The deviation last flagged for milestone `i`, or the one given at the start. */
  function LastDeviation(ops: seq<Op>, i: nat, given: real): real
    decreases |ops|
  {
    if ops == [] then given
    else LastDeviation(ops[1..], i, if ops[0].Flag? && ops[0].milestone == i then ops[0].deviation else given)
  }

  lemma StepKeepsPayload(s: State, op: Op, bump: string -> string, i: nat, d: MilestoneData)
    requires i < |s.milestones| && Holds(s.milestones[i], d)
    ensures var t := Step(s, op, bump);
      && i < |t.milestones| && Holds(t.milestones[i], d)
      && t.milestones[i].version == s.milestones[i].version
      && t.milestones[i].deviation ==
           if op.Flag? && op.milestone == i then op.deviation else s.milestones[i].deviation
  {}

  lemma {:induction false} RunKeepsPayload(s: State, ops: seq<Op>, bump: string -> string, i: nat, d: MilestoneData)
    requires i < |s.milestones| && Holds(s.milestones[i], d)
    ensures var t := Run(s, ops, bump);
      && i < |t.milestones| && Holds(t.milestones[i], d)
      && t.milestones[i].version == s.milestones[i].version
      && t.milestones[i].deviation == LastDeviation(ops, i, s.milestones[i].deviation)
    decreases |ops|
  {
    if ops != [] {
      StepKeepsPayload(s, ops[0], bump, i, d);
      RunKeepsPayload(Step(s, ops[0], bump), ops[1..], bump, i, d);
    }
  }

  // ---------- a verified milestone ----------

  /** The payload's own gates: clashes, inspections and ground clearance. */
  predicate IsClear(d: MilestoneData) {
    && (forall c :: c in d.clashes && (Upper(c.severity) == "CRITICAL" || Upper(c.severity) == "HIGH") ==>
          Upper(c.status) != "OPEN" && Upper(c.status) != "ASSIGNED" && Upper(c.status) != "IN_REVIEW")
    && (forall o :: o in d.inspections ==> Upper(o) != "FAILED" && Upper(o) != "PENDING")
    && (d.gpr == "VERIFIED" || d.gpr == "NOT_APPLICABLE")
  }

  /** Verified means clear and within tolerance, whatever the milestone is pinned to. */
  predicate VerifiedIsClear(k: Milestone, d: MilestoneData) {
    k.status == Verified ==> k.stamp.Some? && IsClear(d) && k.deviation <= d.tolerance
  }

  lemma GatesExactly(k: Milestone, d: MilestoneData)
    requires Holds(k, d)
    ensures ZeroCriticalClashes(k) && InspectionsPassed(k) && k.gpr in {"VERIFIED", "NOT_APPLICABLE"} <==> IsClear(d)
  {
    if ZeroCriticalClashes(k) {
      forall c | c in d.clashes ensures !OpenCritical(c) {
        var j :| 0 <= j < |k.clashes| && k.clashes[j] == c;
      }
    }
    if InspectionsPassed(k) {
      forall o | o in d.inspections ensures Upper(o) !in {"FAILED", "PENDING"} {
        var j :| 0 <= j < |k.inspections| && k.inspections[j] == o;
      }
    }
  }

  lemma StepKeepsClear(s: State, op: Op, bump: string -> string, i: nat, d: MilestoneData)
    requires i < |s.milestones| && Holds(s.milestones[i], d) && VerifiedIsClear(s.milestones[i], d)
    ensures i < |Step(s, op, bump).milestones| && VerifiedIsClear(Step(s, op, bump).milestones[i], d)
  {
    GatesExactly(s.milestones[i], d);
  }

  lemma {:induction false} RunKeepsClear(s: State, ops: seq<Op>, bump: string -> string, i: nat, d: MilestoneData)
    requires i < |s.milestones| && Holds(s.milestones[i], d) && VerifiedIsClear(s.milestones[i], d)
    ensures i < |Run(s, ops, bump).milestones| && VerifiedIsClear(Run(s, ops, bump).milestones[i], d)
    decreases |ops|
  {
    if ops != [] {
      StepKeepsPayload(s, ops[0], bump, i, d);
      StepKeepsClear(s, ops[0], bump, i, d);
      RunKeepsClear(Step(s, ops[0], bump), ops[1..], bump, i, d);
    }
  }

  /** At every point after its creation a milestone is verified only if the payload it was
      created from has no open critical clash, no failed or pending inspection and cleared
      ground, and its last deviation is within the payload's tolerance. */
  lemma CreatedThenVerified(s: State, d: MilestoneData, ops: seq<Op>, bump: string -> string)
    requires d.model < |s.models|
    ensures var t := Run(Step(s, NewMilestoneOp(d), bump), ops, bump);
      var i := |s.milestones|;
      && i < |t.milestones|
      && (t.milestones[i].status == Verified ==>
           t.milestones[i].stamp.Some? && IsClear(d) && LastDeviation(ops, i, d.deviation) <= d.tolerance)
  {
    var i := |s.milestones|;
    var created := Step(s, NewMilestoneOp(d), bump);
    assert created.milestones[i] == NewMilestone(s, d);
    RunKeepsPayload(created, ops, bump, i, d);
    RunKeepsClear(created, ops, bump, i, d);
  }

  /** The pin is the current version of its model, or carries the label in force. */
  predicate PinInForce(s: State, k: Milestone) {
    && k.model < |s.models| && k.version.Some? && k.version.value < |s.versions|
    && (s.versions[k.version.value].isCurrent
        || s.versions[k.version.value].revision == s.models[k.model].currentVersion)
  }

  /** And at every such point a call stamps it if and only if the payload is clear, the
      deviation within tolerance, the model both certified and approved, and the pin in
      force. */
  lemma CreatedIsStampedExactly(s: State, d: MilestoneData, ops: seq<Op>, bump: string -> string, stamp: string)
    requires d.model < |s.models|
    ensures var t := Run(Step(s, NewMilestoneOp(d), bump), ops, bump);
      var i := |s.milestones|;
      && i < |t.milestones|
      && (t.milestones[i].stamp != Some(stamp) ==>
           (Step(t, Verify(i, stamp), bump).milestones[i].stamp == Some(stamp) <==>
             && IsClear(d) && LastDeviation(ops, i, d.deviation) <= d.tolerance
             && d.model < |t.models| && t.models[d.model].certified && t.models[d.model].status == "Approved"
             && PinInForce(t, t.milestones[i])))
  {
    var i := |s.milestones|;
    var created := Step(s, NewMilestoneOp(d), bump);
    RunKeepsPayload(created, ops, bump, i, d);
    GatesExactly(Run(created, ops, bump).milestones[i], d);
  }

  /** What the payload pins: the version it names when there is one, else the newest
      current version of its model, if any. */
  lemma PinIsTheOneGiven(s: State, d: MilestoneData, bump: string -> string)
    requires d.model < |s.models|
    ensures var k := Step(s, NewMilestoneOp(d), bump).milestones[|s.milestones|];
      && Holds(k, d) && k.deviation == d.deviation && k.stamp.None? && k.status != Verified
      && (d.version.Some? && d.version.value < |s.versions| ==> k.version == d.version)
      && (!(d.version.Some? && d.version.value < |s.versions|) ==> k.version == CurrentVersion(s.versions, d.model))
  {}
}
