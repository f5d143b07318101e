/** Non-conformance reports and their corrective actions (apps/compliance/services.py,
    create_ncr, escalate_ncr, close_ncr). Rows are numbered by position in their table. */
module Compliance {
  import opened Text

  type ProjectId = nat

  datatype Ncr = Ncr(project: ProjectId, severity: string, status: string, level: int, source: string)

  datatype Capa = Capa(ncr: nat, project: ProjectId, priority: string, status: string)

  /** The two tables. */
  datatype Register = Register(ncrs: seq<Ncr>, capas: seq<Capa>)

  const OPEN_CAPA_STATUSES: set<string> := {"todo", "in-progress", "review"}

  // ---------- operations as functions of the tables ----------

  /** The report is stored first; `planned` says whether its action is then accepted. */
  function Created(r: Register, project: ProjectId, severity: string, status: string, source: string,
                   planned: bool): Register
  {
    var capa := Capa(|r.ncrs|, project, if severity == "Critical" then "Critical" else "High", "todo");
    Register(r.ncrs + [Ncr(project, severity, status, 1, source)], if planned then r.capas + [capa] else r.capas)
  }

  function EscalatedNcr(n: Ncr, target: Option<int>): Ncr {
    var level := target.GetOr(if n.level + 1 < 5 then n.level + 1 else 5);
    n.(level := level, severity := if level >= 4 then "Critical" else n.severity)
  }

  function Escalated(r: Register, i: nat, target: Option<int>): Register
    requires i < |r.ncrs|
  {
    r.(ncrs := r.ncrs[i := EscalatedNcr(r.ncrs[i], target)])
  }

  function ClosedCapa(c: Capa, i: nat): Capa {
    if c.ncr == i && c.status in OPEN_CAPA_STATUSES then c.(status := "closed") else c
  }

  function Closed(r: Register, i: nat): Register
    requires i < |r.ncrs|
  {
    Register(r.ncrs[i := r.ncrs[i].(status := "Closed")],
             seq(|r.capas|, k requires 0 <= k < |r.capas| => ClosedCapa(r.capas[k], i)))
  }

  datatype NcrError = UnknownProject | CapaRefused

  class ComplianceService {
    var ncrs: seq<Ncr>
    var capas: seq<Capa>

    constructor ()
      ensures Tables() == Register([], [])
    {
      ncrs, capas := [], [];
    }

    function Tables(): Register
      reads this
    {
      Register(ncrs, capas)
    }

    /** create_ncr: an unknown project is refused; otherwise the report and its CAPA, or
        the report alone when the CAPA is refused. */
    method CreateNcr(project: Option<ProjectId>, severity: string, status: string, source: string, planned: bool)
      returns (r: Result<nat, NcrError>)
      modifies this
      ensures r == if project.None? then Err(UnknownProject) else if planned then Ok(|old(ncrs)|) else Err(CapaRefused)
      ensures project.None? ==> Tables() == old(Tables())
      ensures project.Some? ==>
        Tables() == Created(old(Tables()), project.value, severity, status, source, planned)
    {
      if project.None? {
        return Err(UnknownProject);
      }
      var id := |ncrs|;
      ncrs := ncrs + [Ncr(project.value, severity, status, 1, source)];
      if !planned {
        return Err(CapaRefused);
      }
      capas := capas + [Capa(id, project.value, if severity == "Critical" then "Critical" else "High", "todo")];
      r := Ok(id);
    }

    method EscalateNcr(i: nat, target: Option<int>)
      requires i < |ncrs|
      modifies this
      ensures Tables() == Escalated(old(Tables()), i, target)
    {
      var current := ncrs[i].level;
      var level := if target.Some? then target.value else if current + 1 < 5 then current + 1 else 5;
      ncrs := ncrs[i := ncrs[i].(level := level)];
      if level >= 4 && ncrs[i].severity != "Critical" {
        ncrs := ncrs[i := ncrs[i].(severity := "Critical")];
      }
    }

    method CloseNcr(i: nat)
      requires i < |ncrs|
      modifies this
      ensures Tables() == Closed(old(Tables()), i)
    {
      ncrs := ncrs[i := ncrs[i].(status := "Closed")];
      var k := 0;
      while k < |capas|
        invariant 0 <= k <= |capas| == |old(capas)|
        invariant ncrs == old(ncrs)[i := old(ncrs)[i].(status := "Closed")]
        invariant forall j :: 0 <= j < k ==> capas[j] == ClosedCapa(old(capas)[j], i)
        invariant forall j :: k <= j < |capas| ==> capas[j] == old(capas)[j]
      {
        if capas[k].ncr == i && capas[k].status in OPEN_CAPA_STATUSES {
          capas := capas[k := capas[k].(status := "closed")];
        }
        k := k + 1;
      }
    }
  }

  // ---------- the compliance gate's view ----------

  /** What the approval gate counts: an open critical or major report. */
  predicate Blocking(n: Ncr) {
    n.severity in {"Critical", "Major"} && n.status in {"Open", "In Progress"}
  }

  function BlockingCount(ncrs: seq<Ncr>, project: ProjectId): nat {
    if ncrs == [] then 0
    else
      var last := ncrs[|ncrs| - 1];
      BlockingCount(ncrs[..|ncrs| - 1], project) + if last.project == project && Blocking(last) then 1 else 0
  }

  lemma {:induction false} BlockingCountIsPositiveExactly(ncrs: seq<Ncr>, project: ProjectId)
    ensures BlockingCount(ncrs, project) > 0 <==>
      exists i :: 0 <= i < |ncrs| && ncrs[i].project == project && Blocking(ncrs[i])
  {
    if ncrs != [] {
      var front := ncrs[..|ncrs| - 1];
      BlockingCountIsPositiveExactly(front, project);
      if BlockingCount(front, project) > 0 {
        var i :| 0 <= i < |front| && front[i].project == project && Blocking(front[i]);
        assert ncrs[i] == front[i];
      }
      if i :| 0 <= i < |ncrs| - 1 && ncrs[i].project == project && Blocking(ncrs[i]) {
        assert front[i] == ncrs[i];
      }
    }
  }

  /** A report escalated `n` times over, no target given. */
  function EscalatedTimes(r: Ncr, n: nat): Ncr {
    if n == 0 then r else EscalatedNcr(EscalatedTimes(r, n - 1), None)
  }

  /** Escalating again and again raises a new report one level a time up to five, and makes
      it critical from the third time on; nothing else about it changes. */
  lemma {:induction false} RepeatedEscalation(r: Ncr, n: nat)
    requires r.level == 1
    ensures EscalatedTimes(r, n) ==
      Ncr(r.project, if n >= 3 then "Critical" else r.severity, r.status, if n >= 4 then 5 else 1 + n, r.source)
  {
    if n > 0 {
      RepeatedEscalation(r, n - 1);
    }
  }

  /** An escalation to a given level stores that level. */
  lemma TargetedEscalation(r: Ncr, target: int)
    ensures EscalatedNcr(r, Some(target)) ==
      Ncr(r.project, if target >= 4 then "Critical" else r.severity, r.status, target, r.source)
  {}

  // ---------- what a call leaves ----------

  /** A filed report is new, at level one, and has exactly one action: open, its own, and
      critical when the report is. */
  lemma FiledReport(r: Register, project: ProjectId, severity: string, status: string, source: string)
    ensures var t := Created(r, project, severity, status, source, true);
      && |t.ncrs| == |r.ncrs| + 1 && t.ncrs[..|r.ncrs|] == r.ncrs
      && t.ncrs[|r.ncrs|] == Ncr(project, severity, status, 1, source)
      && |t.capas| == |r.capas| + 1 && t.capas[..|r.capas|] == r.capas
      && t.capas[|r.capas|].ncr == |r.ncrs| && t.capas[|r.capas|].project == project
      && t.capas[|r.capas|].status in OPEN_CAPA_STATUSES
      && (t.capas[|r.capas|].priority == "Critical" <==> severity == "Critical")
      && (severity != "Critical" ==> t.capas[|r.capas|].priority == "High")
  {}

  /** Closing a report closes it and its own open actions, and touches no other row: an
      action reads closed afterwards exactly when it did before or was open and its own. */
  lemma ClosureExactly(r: Register, i: nat)
    requires i < |r.ncrs|
    ensures var t := Closed(r, i);
      && t.ncrs == r.ncrs[i := r.ncrs[i].(status := "Closed")]
      && |t.capas| == |r.capas|
      && forall k :: 0 <= k < |r.capas| ==>
           && t.capas[k] == r.capas[k].(status := t.capas[k].status)
           && (t.capas[k].status == "closed" <==>
                || r.capas[k].status == "closed"
                || (r.capas[k].ncr == i && r.capas[k].status in {"todo", "in-progress", "review"}))
           && (t.capas[k].status != "closed" ==> t.capas[k] == r.capas[k])
  {}
}
