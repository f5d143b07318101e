/** The 4D schedule simulation (apps/bim/services.py, run_timeline_simulation), in exact
    arithmetic. */
module Timeline {
  import Bim

  datatype SiteMilestone = SiteMilestone(name: string, status: string, progress: int, variance: int)

  datatype RowStatus = Delayed(days: int) | Completed | InProgress | Planned

  datatype Row = Row(phase: string, planned: int, actual: int, status: RowStatus, variance: int)

  datatype Schedule = BehindSchedule | OnTrack | Ahead

  datatype Report = Report(schedule: Schedule, daysVariance: int, completed: int, total: int, rows: seq<Row>)

  function Max(a: int, b: int): int {
    if a < b then b else a
  }

  function Min(a: int, b: int): int {
    if b < a then b else a
  }

  // ---------- one milestone ----------

  predicate SiteDelayed(m: SiteMilestone) {
    m.status in {"DELAYED", "BLOCKED"} || m.variance > 0
  }

  /** Days a milestone is late: its recorded variance, or four when none is recorded. */
  function SiteDelay(m: SiteMilestone): int {
    if !SiteDelayed(m) then 0 else if m.variance > 0 then m.variance else 4
  }

  function SitePlanned(m: SiteMilestone): int {
    Min(100, m.progress + if SiteDelayed(m) then 12 else if m.progress == 100 then 0 else 5)
  }

  predicate BimDelayed(s: Bim.Status) {
    s == Bim.DeviationFlagged || s == Bim.ReVerificationRequired
  }

  predicate BimDone(s: Bim.Status) {
    s == Bim.Verified || s == Bim.Completed
  }

  function BimActual(s: Bim.Status): int {
    if BimDone(s) then 100 else if s == Bim.PendingReview then 85 else if s == Bim.DeviationFlagged then 45 else 20
  }

  function BimPlanned(s: Bim.Status): int {
    if BimDone(s) then 100 else if !BimDelayed(s) then 80 else 75
  }

  // ---------- aggregates ----------

  /** The largest of the first `n` numbers, 0 when none is positive. */
  function MaxUpTo(xs: seq<int>, n: nat): (m: int)
    requires n <= |xs|
    ensures 0 <= m
  {
    if n == 0 then 0 else Max(MaxUpTo(xs, n - 1), xs[n - 1])
  }

  lemma {:induction false} MaxIsLargest(xs: seq<int>, n: nat)
    requires n <= |xs|
    ensures forall i :: 0 <= i < n ==> xs[i] <= MaxUpTo(xs, n)
    ensures MaxUpTo(xs, n) > 0 ==> exists i :: 0 <= i < n && xs[i] == MaxUpTo(xs, n)
  {
    if n > 0 {
      MaxIsLargest(xs, n - 1);
      assert MaxUpTo(xs, n) == xs[n - 1] || MaxUpTo(xs, n) == MaxUpTo(xs, n - 1);
    }
  }

  lemma {:induction false} MaxIsMonotone(xs: seq<int>, m: nat, n: nat)
    requires m <= n <= |xs|
    ensures MaxUpTo(xs, m) <= MaxUpTo(xs, n)
    decreases n
  {
    if m < n {
      MaxIsMonotone(xs, m, n - 1);
    }
  }

  function MaxOf(xs: seq<int>): int {
    MaxUpTo(xs, |xs|)
  }

  function SumUpTo(xs: seq<int>, n: nat): int
    requires n <= |xs|
  {
    if n == 0 then 0 else SumUpTo(xs, n - 1) + xs[n - 1]
  }

  function SumOf(xs: seq<int>): int {
    SumUpTo(xs, |xs|)
  }

  function SiteDelays(ms: seq<SiteMilestone>): (d: seq<int>)
    ensures |d| == |ms| && forall i :: 0 <= i < |d| ==> d[i] == SiteDelay(ms[i])
  {
    seq(|ms|, i requires 0 <= i < |ms| => SiteDelay(ms[i]))
  }

  function SiteActuals(ms: seq<SiteMilestone>): (a: seq<int>)
    ensures |a| == |ms| && forall i :: 0 <= i < |a| ==> a[i] == ms[i].progress
  {
    seq(|ms|, i requires 0 <= i < |ms| => ms[i].progress)
  }

  function BimDelays(ss: seq<Bim.Status>): (d: seq<int>)
    ensures |d| == |ss| && forall i :: 0 <= i < |d| ==> d[i] == if BimDelayed(ss[i]) then 5 else 0
  {
    seq(|ss|, i requires 0 <= i < |ss| => if BimDelayed(ss[i]) then 5 else 0)
  }

  function BimActuals(ss: seq<Bim.Status>): (a: seq<int>)
    ensures |a| == |ss| && forall i :: 0 <= i < |a| ==> a[i] == BimActual(ss[i])
  {
    seq(|ss|, i requires 0 <= i < |ss| => BimActual(ss[i]))
  }

  /** Python's `int` of a real: truncation towards zero. */
  function Truncate(x: real): int {
    if x >= 0.0 then x.Floor else -((-x).Floor)
  }

  function Average(progress: int, count: nat): real {
    if count > 0 then progress as real / count as real else 0.0
  }

  function Share(average: real, total: real): real {
    average / 100.0 * total
  }

  /** The elements completed at an average progress, out of a total. */
  function CompletedElements(progress: int, count: nat, total: int): int {
    Truncate(Share(Average(progress, count), total as real))
  }

  function PositiveSum(counts: seq<int>, n: nat): (t: int)
    requires n <= |counts|
    ensures t >= 0
  {
    if n == 0 then 0 else PositiveSum(counts, n - 1) + if counts[n - 1] > 0 then counts[n - 1] else 0
  }

  // ---------- the simulation ----------

  /** The schedule verdict drawn from the running flags. */
  function ScheduleOf(hasDelay: bool, delayedDays: int): (Schedule, int) {
    var schedule := if hasDelay then BehindSchedule else if delayedDays == 0 then OnTrack else Ahead;
    (schedule, if hasDelay then -delayedDays else if schedule == OnTrack then 0 else 4)
  }

  /** A site row, `latest` being the longest delay seen up to and including it. */
  function SiteRowOf(m: SiteMilestone, latest: int): Row {
    var status :=
      if SiteDelayed(m) then Delayed(if m.variance > 0 then m.variance else latest)
      else if m.progress >= 100 then Completed
      else if m.progress > 0 then InProgress
      else Planned;
    Row(m.name, SitePlanned(m), m.progress, status, m.variance)
  }

  ghost predicate SiteRow(ms: seq<SiteMilestone>, i: nat, r: Row)
    requires i < |ms|
  {
    r == SiteRowOf(ms[i], MaxUpTo(SiteDelays(ms), i + 1))
  }

  function BimRowOf(name: string, s: Bim.Status): Row {
    var status := if BimDelayed(s) then Delayed(5) else if BimActual(s) >= 100 then Completed else InProgress;
    Row(name, BimPlanned(s), BimActual(s), status, if BimDelayed(s) then 5 else 0)
  }

  ghost predicate BimRow(name: string, s: Bim.Status, r: Row) {
    r == BimRowOf(name, s)
  }

  /** Site milestones decide when there are any; otherwise BIM milestones; otherwise the
      schedule is empty. */
  method Simulate(elementCounts: seq<int>, site: seq<SiteMilestone>, names: seq<string>, statuses: seq<Bim.Status>)
    returns (report: Report)
    requires |names| == |statuses|
    ensures report.total == PositiveSum(elementCounts, |elementCounts|)
    ensures site != [] ==>
      && |report.rows| == |site| && (forall i :: 0 <= i < |site| ==> SiteRow(site, i, report.rows[i]))
      && (report.schedule == BehindSchedule <==> exists i :: 0 <= i < |site| && SiteDelayed(site[i]))
      && report.daysVariance == -MaxOf(SiteDelays(site))
      && report.completed == CompletedElements(SumOf(SiteActuals(site)), |site|, report.total)
    ensures site == [] ==>
      && |report.rows| == |statuses|
      && (forall i :: 0 <= i < |statuses| ==> BimRow(names[i], statuses[i], report.rows[i]))
      && (report.schedule == BehindSchedule <==> exists i :: 0 <= i < |statuses| && BimDelayed(statuses[i]))
      && report.daysVariance == -MaxOf(BimDelays(statuses))
      && report.completed == CompletedElements(SumOf(BimActuals(statuses)), |statuses|, report.total)
    ensures report.schedule != Ahead
  {
    var total := TotalElements(elementCounts);
    var rows: seq<Row>;
    var hasDelay: bool;
    var delayedDays: int;
    var progress: int;
    var count: nat;
    if site != [] {
      rows, hasDelay, delayedDays, progress := SimulateSite(site);
      count := |site|;
    } else {
      rows, hasDelay, delayedDays, progress := SimulateBim(names, statuses);
      SomeBimDelay(statuses);
      count := |statuses|;
    }
    var verdict := ScheduleOf(hasDelay, delayedDays);
    report := Report(verdict.0, verdict.1, CompletedElements(progress, count, total), total, rows);
  }

  method TotalElements(counts: seq<int>) returns (total: int)
    ensures total == PositiveSum(counts, |counts|)
  {
    total := 0;
    for i := 0 to |counts|
      invariant total == PositiveSum(counts, i)
    {
      if counts[i] > 0 {
        total := total + counts[i];
      }
    }
  }

  method SimulateSite(site: seq<SiteMilestone>)
    returns (rows: seq<Row>, hasDelay: bool, delayedDays: int, progress: int)
    ensures |rows| == |site| && forall i :: 0 <= i < |site| ==> SiteRow(site, i, rows[i])
    ensures hasDelay <==> exists i :: 0 <= i < |site| && SiteDelayed(site[i])
    ensures delayedDays == MaxOf(SiteDelays(site)) && (hasDelay <==> delayedDays > 0)
    ensures progress == SumOf(SiteActuals(site))
  {
    rows, hasDelay, delayedDays, progress := [], false, 0, 0;
    for i := 0 to |site|
      invariant |rows| == i && forall j :: 0 <= j < i ==> SiteRow(site, j, rows[j])
      invariant delayedDays == MaxUpTo(SiteDelays(site), i) && (hasDelay <==> delayedDays > 0)
      invariant progress == SumUpTo(SiteActuals(site), i)
    {
      var row: Row;
      row, delayedDays := SimulateSiteMilestone(site[i], delayedDays);
      hasDelay := hasDelay || SiteDelayed(site[i]);
      rows := rows + [row];
      progress := progress + site[i].progress;
    }
    SomeSiteDelay(site);
  }

  method SimulateSiteMilestone(m: SiteMilestone, delayedDays: int) returns (row: Row, days: int)
    requires delayedDays >= 0
    ensures days == Max(delayedDays, SiteDelay(m)) && row == SiteRowOf(m, days)
  {
    days := delayedDays;
    var planned := SitePlanned(m);
    var status: RowStatus;
    if SiteDelayed(m) {
      days := Max(days, if m.variance > 0 then m.variance else 4);
      status := Delayed(if m.variance > 0 then m.variance else days);
    } else if m.progress >= 100 {
      status := Completed;
    } else if m.progress > 0 {
      status := InProgress;
    } else {
      status := Planned;
    }
    row := Row(m.name, planned, m.progress, status, m.variance);
  }

  lemma SomeSiteDelay(site: seq<SiteMilestone>)
    ensures MaxOf(SiteDelays(site)) > 0 <==> exists i :: 0 <= i < |site| && SiteDelayed(site[i])
  {
    var delays := SiteDelays(site);
    MaxIsLargest(delays, |delays|);
    forall i | 0 <= i < |site| ensures delays[i] > 0 <==> SiteDelayed(site[i]) {
    }
  }

  lemma SomeBimDelay(statuses: seq<Bim.Status>)
    ensures MaxOf(BimDelays(statuses)) > 0 <==> exists i :: 0 <= i < |statuses| && BimDelayed(statuses[i])
  {
    var delays := BimDelays(statuses);
    MaxIsLargest(delays, |delays|);
    forall i | 0 <= i < |statuses| ensures delays[i] > 0 <==> BimDelayed(statuses[i]) {
    }
  }

  method SimulateBimMilestone(name: string, s: Bim.Status, delayedDays: int) returns (row: Row, days: int)
    requires delayedDays >= 0
    ensures days == Max(delayedDays, if BimDelayed(s) then 5 else 0) && row == BimRowOf(name, s)
  {
    days := delayedDays;
    var actual, planned := BimActual(s), BimPlanned(s);
    var status: RowStatus := InProgress;
    if BimDelayed(s) {
      days := Max(days, 5);
      status := Delayed(5);
    } else if actual >= 100 {
      status := Completed;
    }
    row := Row(name, planned, actual, status, if BimDelayed(s) then 5 else 0);
  }

  /** What the loop over BIM milestones has built after the first `n`. */
  ghost predicate BimPrefix(names: seq<string>, statuses: seq<Bim.Status>, n: nat, rows: seq<Row>, days: int,
                            progress: int)
    requires n <= |names| == |statuses|
  {
    && |rows| == n && (forall i :: 0 <= i < n ==> BimRow(names[i], statuses[i], rows[i]))
    && days == MaxUpTo(BimDelays(statuses), n)
    && progress == SumUpTo(BimActuals(statuses), n)
  }

  lemma BimPrefixExtends(names: seq<string>, statuses: seq<Bim.Status>, n: nat, rows: seq<Row>, days: int,
                         progress: int)
    requires n < |names| == |statuses|
    requires BimPrefix(names, statuses, n, rows, days, progress)
    ensures BimPrefix(names, statuses, n + 1, rows + [BimRowOf(names[n], statuses[n])],
                      Max(days, if BimDelayed(statuses[n]) then 5 else 0), progress + BimActual(statuses[n]))
  {}

  method SimulateBim(names: seq<string>, statuses: seq<Bim.Status>)
    returns (rows: seq<Row>, hasDelay: bool, delayedDays: int, progress: int)
    requires |names| == |statuses|
    ensures BimPrefix(names, statuses, |statuses|, rows, delayedDays, progress)
    ensures hasDelay <==> delayedDays > 0
  {
    rows, hasDelay, delayedDays, progress := [], false, 0, 0;
    for i := 0 to |statuses|
      invariant BimPrefix(names, statuses, i, rows, delayedDays, progress)
      invariant 0 <= delayedDays && (hasDelay <==> delayedDays > 0)
    {
      BimPrefixExtends(names, statuses, i, rows, delayedDays, progress);
      var row: Row;
      row, delayedDays := SimulateBimMilestone(names[i], statuses[i], delayedDays);
      hasDelay := hasDelay || BimDelayed(statuses[i]);
      rows := rows + [row];
      progress := progress + BimActual(statuses[i]);
    }
  }

  // ---------- consequences ----------

  /** A site row never plans less than was done, nor more than everything. */
  lemma SiteRowIsBounded(ms: seq<SiteMilestone>, i: nat, r: Row)
    requires i < |ms| && SiteRow(ms, i, r) && 0 <= ms[i].progress <= 100
    ensures 0 <= r.actual <= r.planned <= 100
    ensures r.planned - r.actual == Min(100 - ms[i].progress, if r.status.Delayed? then 12 else 5)
    ensures r.status.Delayed? <==> ms[i].status == "DELAYED" || ms[i].status == "BLOCKED" || ms[i].variance > 0
    ensures r.status.Delayed? ==> 0 < r.status.days <= MaxOf(SiteDelays(ms))
  {
    var delays := SiteDelays(ms);
    assert delays[i] == SiteDelay(ms[i]);
    MaxIsLargest(delays, i + 1);
    MaxIsMonotone(delays, i + 1, |delays|);
  }

  /** A BIM row plans less than was done exactly for a milestone pending review. */
  lemma BimRowAheadExactly(name: string, s: Bim.Status, r: Row)
    requires BimRow(name, s, r)
    ensures r.actual > r.planned <==> s == Bim.PendingReview
    ensures r.actual == r.planned <==> s == Bim.Verified || s == Bim.Completed
    ensures r.status == Completed <==> s == Bim.Verified || s == Bim.Completed
    ensures r.status.Delayed? <==> s == Bim.DeviationFlagged || s == Bim.ReVerificationRequired
    ensures 0 <= r.actual <= 100 && 0 <= r.planned <= 100
  {}

  lemma {:induction false} SumIsBounded(xs: seq<int>, n: nat)
    requires n <= |xs| && forall i :: 0 <= i < n ==> 0 <= xs[i] <= 100
    ensures 0 <= SumUpTo(xs, n) <= 100 * n
  {
    if n > 0 {
      SumIsBounded(xs, n - 1);
    }
  }

  /** With every progress between 0 and 100, completed elements lie between 0 and the total. */
  lemma CompletedWithinTotal(progress: seq<int>, total: int)
    requires forall i :: 0 <= i < |progress| ==> 0 <= progress[i] <= 100
    requires total >= 0
    ensures 0 <= CompletedElements(SumOf(progress), |progress|, total) <= total
  {
    SumIsBounded(progress, |progress|);
    AverageIsBounded(SumOf(progress), |progress|);
    var average := Average(SumOf(progress), |progress|);
    ShareIsBounded(average, total as real);
  }

  lemma AverageIsBounded(progress: int, count: nat)
    requires 0 <= progress <= 100 * count
    ensures 0.0 <= Average(progress, count) <= 100.0
  {
    if count > 0 {
      QuotientIsBounded(progress as real, count as real);
    }
  }

  lemma QuotientIsBounded(sum: real, count: real)
    requires count > 0.0 && 0.0 <= sum <= 100.0 * count
    ensures 0.0 <= sum / count <= 100.0
  {
    assert sum / count * count == sum;
  }

  lemma ShareIsBounded(average: real, total: real)
    requires 0.0 <= average <= 100.0 && total >= 0.0
    ensures 0.0 <= Share(average, total) <= total
  {
    ProductIsBounded(average / 100.0, total);
  }

  lemma ProductIsBounded(share: real, total: real)
    requires 0.0 <= share <= 1.0 && total >= 0.0
    ensures 0.0 <= share * total <= total
  {}

  /** Completing everything counts every element; starting nothing counts none. */
  lemma CompletedAtTheEnds(count: nat, total: nat)
    requires count > 0
    ensures CompletedElements(100 * count, count, total) == total
    ensures CompletedElements(0, count, total) == 0
    ensures CompletedElements(0, 0, total) == 0
  {
    assert (100 * count) as real / count as real == 100.0;
    assert 0 as real / count as real == 0.0;
  }

  /** The figures of a BIM row: what is done and what was planned, status by status. */
  lemma BimRowFigures(name: string, s: Bim.Status, r: Row)
    requires BimRow(name, s, r)
    ensures r.phase == name
    ensures (r.actual, r.planned) ==
      match s
      case Verified => (100, 100)
      case Completed => (100, 100)
      case PendingReview => (85, 80)
      case Unverified => (20, 80)
      case DeviationFlagged => (45, 75)
      case ReVerificationRequired => (20, 75)
    ensures r.status == (if s in {Bim.DeviationFlagged, Bim.ReVerificationRequired} then Delayed(5)
                         else if s in {Bim.Verified, Bim.Completed} then Completed else InProgress)
    ensures r.variance == if s in {Bim.DeviationFlagged, Bim.ReVerificationRequired} then 5 else 0
  {}

  /** A site row is delayed by its own variance, or by the longest delay up to and including
      it, at least four days; otherwise its progress tells its status. */
  lemma SiteRowFigures(ms: seq<SiteMilestone>, i: nat, r: Row)
    requires i < |ms| && SiteRow(ms, i, r)
    ensures r.phase == ms[i].name && r.actual == ms[i].progress && r.variance == ms[i].variance
    ensures r.status.Delayed? && ms[i].variance > 0 ==> r.status.days == ms[i].variance
    ensures r.status.Delayed? && ms[i].variance <= 0 ==>
      r.status.days >= 4 && (forall j :: 0 <= j <= i ==> ms[j].variance <= r.status.days)
      && (r.status.days == 4 || exists j :: 0 <= j <= i && ms[j].variance == r.status.days)
    ensures !r.status.Delayed? ==>
      r.status == if ms[i].progress >= 100 then Completed else if ms[i].progress > 0 then InProgress else Planned
  {
    var delays := SiteDelays(ms);
    MaxIsLargest(delays, i + 1);
    forall j | 0 <= j <= i ensures ms[j].variance <= MaxUpTo(delays, i + 1) {
      assert delays[j] == SiteDelay(ms[j]);
    }
    assert delays[i] == SiteDelay(ms[i]);
  }

  /** The completed elements are the exact share, its fraction dropped. */
  lemma CompletedDropsTheFraction(progress: int, count: nat, total: nat)
    requires progress >= 0 && count > 0
    ensures var exact := progress as real / count as real / 100.0 * total as real;
      var n := CompletedElements(progress, count, total) as real;
      n <= exact < n + 1.0
  {
    assert progress as real / count as real >= 0.0;
    NotNegative(progress as real / count as real / 100.0, total as real);
  }

  lemma NotNegative(a: real, b: real)
    requires a >= 0.0 && b >= 0.0
    ensures a * b >= 0.0
  {}
}
