/** Document requests of an application and their progress (apps/applications/services.py,
    request_additional_documents and update_document_request_progress). How a percentage is
    computed is a parameter of what is proved; the methods use the code's. */
module DocumentRequests {
  import opened Text
  import opened Percentages

  const DONE: set<string> := {"VERIFIED", "PASSED", "APPROVED"}

  datatype Request = Request(
    id: string,
    items: seq<string>,
    itemStatus: map<string, string>,
    status: string,
    progress: nat,
    history: seq<string>)

  /** The id of the n-th request: "REQ-" and the number, zero-filled to three digits. */
  function IdOf(n: nat): string {
    "REQ-" + ZeroFill(Decimal(n), 3)
  }

  function Members(items: seq<string>): set<string> {
    set x | x in items
  }

  function Verified(m: map<string, string>): set<string> {
    set x | x in m && m[x] in DONE
  }

  predicate AnySubmitted(m: map<string, string>) {
    exists x :: x in m && m[x] == "SUBMITTED"
  }

  function NewRequest(n: nat, items: seq<string>): Request {
    Request(IdOf(n), items, map x | x in Members(items) :: "PENDING", "PENDING_SUBMISSION", 0, ["REQUEST_ISSUED"])
  }

  /** An update call: the item to mark and its status, and a status override; Python
      treats an empty string as absent. */
  datatype Update = Update(item: string, itemStatus: string, overall: string)

  /** The status an update gives its item. */
  function MarkOf(u: Update): string {
    if u.itemStatus == "" then "VERIFIED" else u.itemStatus
  }

  /** The request after its item statuses become `m`. */
  function Progressed(percent: Percentage, r: Request, m: map<string, string>): Request {
    var total, verified := |r.items|, |Verified(m)|;
    if total == 0 then r.(itemStatus := m)
    else
      var progress := percent(verified, total);
      var status :=
        if progress == 100 then "COMPLETED"
        else if verified > 0 || AnySubmitted(m) then "IN_PROGRESS"
        else r.status;
      r.(itemStatus := m, progress := progress, status := status)
  }

  function Updated(percent: Percentage, r: Request, u: Update): Request {
    var marked :=
      if u.item == "" then r
      else Progressed(percent, r, r.itemStatus[u.item := MarkOf(u)]);
    var ruled := if u.overall == "" then marked else marked.(status := u.overall);
    ruled.(history := ruled.history + [ruled.status])
  }

  /** The first request with this id, if any. */
  function Find(rs: seq<Request>, id: string): (k: Option<nat>)
    ensures k.Some? ==> k.value < |rs| && rs[k.value].id == id && forall j :: 0 <= j < k.value ==> rs[j].id != id
    ensures k.None? ==> forall j :: 0 <= j < |rs| ==> rs[j].id != id
  {
    if rs == [] then None
    else if rs[0].id == id then Some(0)
    else
      var k := Find(rs[1..], id);
      assert forall j :: 1 <= j < |rs| ==> rs[j] == rs[1..][j - 1];
      if k.None? then None else Some(k.value + 1)
  }

  function Requested(rs: seq<Request>, items: seq<string>): seq<Request> {
    rs + [NewRequest(|rs| + 1, items)]
  }

  function UpdatedFirst(percent: Percentage, rs: seq<Request>, id: string, u: Update): seq<Request> {
    match Find(rs, id)
    case None => rs
    case Some(k) => rs[k := Updated(percent, rs[k], u)]
  }

  class Application {
    var requests: seq<Request>

    constructor ()
      ensures requests == []
    {
      requests := [];
    }

    method RequestDocuments(items: seq<string>)
      modifies this
      ensures requests == Requested(old(requests), items)
      ensures var r := requests[|old(requests)|];
        && r.items == items && r.itemStatus.Keys == Members(items)
        && r.status == "PENDING_SUBMISSION" && r.progress == 0
        && forall x :: x in items ==> r.itemStatus[x] == "PENDING"
    {
      requests := requests + [NewRequest(|requests| + 1, items)];
    }

    method UpdateProgress(id: string, u: Update) returns (found: bool)
      modifies this
      ensures found <==> exists j :: 0 <= j < |old(requests)| && old(requests)[j].id == id
      ensures requests == UpdatedFirst(CodePercent, old(requests), id, u)
    {
      found := false;
      var k := 0;
      while k < |requests|
        invariant 0 <= k <= |requests|
        invariant requests == old(requests)
        invariant forall j :: 0 <= j < k ==> requests[j].id != id
      {
        if requests[k].id == id {
          var r := requests[k];
          if u.item != "" {
            var m := r.itemStatus[u.item := if u.itemStatus == "" then "VERIFIED" else u.itemStatus];
            r := r.(itemStatus := m);
            var total := |r.items|;
            if total > 0 {
              var verified := |Verified(m)|;
              r := r.(progress := Percent(verified, total));
              if r.progress == 100 {
                r := r.(status := "COMPLETED");
              } else if verified > 0 || AnySubmitted(m) {
                r := r.(status := "IN_PROGRESS");
              }
            }
          }
          if u.overall != "" {
            r := r.(status := u.overall);
          }
          r := r.(history := r.history + [r.status]);
          requests := requests[k := r];
          return true;
        }
        k := k + 1;
      }
    }
  }

  // ---------- ids ----------

  lemma IdsAreDistinct(m: nat, n: nat)
    requires IdOf(m) == IdOf(n)
    ensures m == n
  {
    var s, t := ZeroFill(Decimal(m), 3), ZeroFill(Decimal(n), 3);
    assert s == IdOf(m)[4..] && t == IdOf(n)[4..];
    ZeroFillKeepsValue(Decimal(m), 3);
    ZeroFillKeepsValue(Decimal(n), 3);
    DecimalReadsBack(m);
    DecimalReadsBack(n);
  }

  // ---------- runs ----------

  datatype Op = Ask(items: seq<string>) | Mark(id: string, update: Update)

  function Step(percent: Percentage, rs: seq<Request>, op: Op): seq<Request> {
    match op
    case Ask(items) => Requested(rs, items)
    case Mark(id, update) => UpdatedFirst(percent, rs, id, update)
  }

  function Run(percent: Percentage, rs: seq<Request>, ops: seq<Op>): seq<Request>
    decreases |ops|
  {
    if ops == [] then rs else Run(percent, Step(percent, rs, ops[0]), ops[1..])
  }

  ghost predicate Numbered(rs: seq<Request>) {
    forall k :: 0 <= k < |rs| ==> rs[k].id == IdOf(k + 1)
  }

  lemma {:induction false} RunKeepsNumbering(percent: Percentage, rs: seq<Request>, ops: seq<Op>)
    requires Numbered(rs)
    ensures Numbered(Run(percent, rs, ops))
    decreases |ops|
  {
    if ops != [] {
      RunKeepsNumbering(percent, Step(percent, rs, ops[0]), ops[1..]);
    }
  }

  /** Over every run ids are pairwise distinct, so the first match is the only match and
      an update touches no other request. */
  lemma UpdateTouchesOneRequest(percent: Percentage, ops: seq<Op>, id: string, u: Update, j: nat)
    requires j < |Run(percent, [], ops)|
    ensures var rs := Run(percent, [], ops);
      UpdatedFirst(percent, rs, id, u)[j] == if rs[j].id == id then Updated(percent, rs[j], u) else rs[j]
  {
    var rs := Run(percent, [], ops);
    RunKeepsNumbering(percent, [], ops);
    if rs[j].id == id {
      var k := Find(rs, id).value;
      IdsAreDistinct(j + 1, k + 1);
    }
  }

  // ---------- progress ----------

  /** The update names an item that was requested, or no item. */
  predicate NamesRequested(r: Request, u: Update) {
    u.item == "" || u.item in r.items
  }

  /** Item statuses are kept for exactly the requested items, and progress is the
      percentage of requested items verified. */
  ghost predicate Tracked(percent: Percentage, r: Request) {
    && r.itemStatus.Keys == Members(r.items)
    && r.progress == if r.items == [] then 0 else percent(|Verified(r.itemStatus)|, |r.items|)
  }

  lemma NewRequestIsTracked(percent: Percentage, n: nat, items: seq<string>)
    requires IsPercentage(percent)
    ensures Tracked(percent, NewRequest(n, items))
  {
    assert Verified(NewRequest(n, items).itemStatus) == {};
    if items != [] {
      assert IsPercentAt(percent, 0, |items|);
    }
  }

  /** Statuses stay those of the requested items exactly when the update names one. */
  lemma TrackingSurvivesExactly(percent: Percentage, r: Request, u: Update)
    requires Tracked(percent, r)
    ensures Tracked(percent, Updated(percent, r, u)) <==> NamesRequested(r, u)
  {
    var t := Updated(percent, r, u);
    if u.item != "" && u.item !in r.items {
      assert u.item in t.itemStatus.Keys && u.item !in Members(t.items);
    }
  }

  /** Every update in the run names only items of the request it finds. */
  ghost predicate Faithful(percent: Percentage, rs: seq<Request>, ops: seq<Op>)
    decreases |ops|
  {
    ops == [] || (
      && (ops[0].Mark? ==> forall k :: 0 <= k < |rs| && rs[k].id == ops[0].id ==> NamesRequested(rs[k], ops[0].update))
      && Faithful(percent, Step(percent, rs, ops[0]), ops[1..]))
  }

  lemma {:induction false} RunKeepsTracking(percent: Percentage, rs: seq<Request>, ops: seq<Op>)
    requires IsPercentage(percent)
    requires forall k :: 0 <= k < |rs| ==> Tracked(percent, rs[k])
    requires Faithful(percent, rs, ops)
    ensures forall k :: 0 <= k < |Run(percent, rs, ops)| ==> Tracked(percent, Run(percent, rs, ops)[k])
    decreases |ops|
  {
    if ops != [] {
      var t := Step(percent, rs, ops[0]);
      match ops[0] {
        case Ask(items) => NewRequestIsTracked(percent, |rs| + 1, items);
        case Mark(id, u) =>
          if Find(rs, id).Some? {
            TrackingSurvivesExactly(percent, rs[Find(rs, id).value], u);
          }
      }
      RunKeepsTracking(percent, t, ops[1..]);
    }
  }

  lemma {:induction false} MembersCount(items: seq<string>)
    ensures |Members(items)| <= |items|
    ensures |Members(items)| == |items| <==> forall i, j :: 0 <= i < j < |items| ==> items[i] != items[j]
  {
    if items != [] {
      var front, last := items[..|items| - 1], items[|items| - 1];
      MembersCount(front);
      assert items == front + [last];
      assert Members(items) == Members(front) + {last};
      if last in front {
        var i :| 0 <= i < |front| && front[i] == last;
        assert items[i] == items[|items| - 1];
        assert Members(items) == Members(front);
      } else {
        assert forall i :: 0 <= i < |front| ==> items[i] == front[i] != last;
      }
    }
  }

  /** The item statuses that count as verified. */
  predicate IsDone(status: string) {
    status == "VERIFIED" || status == "PASSED" || status == "APPROVED"
  }

  predicate AllVerified(r: Request) {
    forall x :: x in r.items ==> x in r.itemStatus && IsDone(r.itemStatus[x])
  }

  lemma SubsetCount(a: set<string>, b: set<string>)
    requires a <= b
    ensures |a| <= |b| && (|a| == |b| <==> a == b)
  {
    assert b == a + (b - a);
    assert |b| == |a| + |b - a|;
  }

  lemma VerifiedIsEverything(percent: Percentage, r: Request)
    requires Tracked(percent, r)
    ensures Verified(r.itemStatus) <= Members(r.items)
    ensures Verified(r.itemStatus) == Members(r.items) <==> AllVerified(r)
  {
    assert forall x :: x in r.items <==> x in Members(r.items);
    assert forall x :: x in Verified(r.itemStatus) <==> x in r.itemStatus && r.itemStatus[x] in DONE;
  }

  /** Tracked progress stays within 0 and 100, and is 100 exactly when every requested
      item is verified and no item was requested twice. */
  lemma ProgressIsCompleteExactly(percent: Percentage, r: Request)
    requires IsPercentage(percent)
    requires Tracked(percent, r) && 0 < |r.items| <= LIMIT
    ensures 0 <= r.progress <= 100
    ensures r.progress == 100 <==> AllVerified(r) && |Members(r.items)| == |r.items|
  {
    MembersCount(r.items);
    VerifiedIsEverything(percent, r);
    SubsetCount(Verified(r.itemStatus), Members(r.items));
    assert IsPercentAt(percent, |Verified(r.itemStatus)|, |r.items|);
  }

  lemma ProgressIsTheFloorOrOneLess(percent: Percentage, r: Request)
    requires IsPercentage(percent)
    requires Tracked(percent, r) && 0 < |r.items| <= LIMIT
    ensures var floor := 100 * |Verified(r.itemStatus)| / |r.items|;
      floor - 1 <= r.progress <= floor <= 100
  {
    MembersCount(r.items);
    SubsetCount(Verified(r.itemStatus), Members(r.items));
    assert IsPercentAt(percent, |Verified(r.itemStatus)|, |r.items|);
  }

  /** So over every run whose updates name requested items: progress is the floor of the
      exact percentage or one less, never leaves 0..100, and is 100 exactly when the items
      are distinct and all verified. */
  lemma {:induction false} ProgressIsSoundOverRuns(percent: Percentage, ops: seq<Op>, k: nat)
    requires IsPercentage(percent)
    requires Faithful(percent, [], ops) && k < |Run(percent, [], ops)|
    requires 0 < |Run(percent, [], ops)[k].items| <= LIMIT
    ensures var r := Run(percent, [], ops)[k];
      var floor := 100 * |Verified(r.itemStatus)| / |r.items|;
      && r.itemStatus.Keys == Members(r.items)
      && floor - 1 <= r.progress <= floor <= 100
      && (r.progress == 100 <==> AllVerified(r) && |Members(r.items)| == |r.items|)
  {
    RunKeepsTracking(percent, [], ops);
    var r := Run(percent, [], ops)[k];
    assert Tracked(percent, r);
    ProgressIsCompleteExactly(percent, r);
    ProgressIsTheFloorOrOneLess(percent, r);
  }

  /** With distinct items, the update that verifies the last of them completes the
      request unless it carries an override. */
  lemma LastVerifiedItemCompletes(percent: Percentage, r: Request, u: Update)
    requires IsPercentage(percent)
    requires Tracked(percent, r) && 0 < |r.items| <= LIMIT && NamesRequested(r, u) && u.item != "" && u.overall == ""
    requires |Members(r.items)| == |r.items|
    ensures var t := Updated(percent, r, u);
      AllVerified(t) ==> t.status == "COMPLETED" && t.progress == 100
  {
    TrackingSurvivesExactly(percent, r, u);
    ProgressIsCompleteExactly(percent, Updated(percent, r, u));
  }

  /** A marked request takes the override when one is given; otherwise it is complete at
      100 per cent, in progress as soon as an item is verified or submitted, and else keeps
      its status. The status it ends with is logged. */
  lemma StatusFollowsItems(percent: Percentage, r: Request, u: Update)
    requires Tracked(percent, r) && u.item != "" && u.item in r.items
    ensures var t := Updated(percent, r, u);
      && t.status == (
           if u.overall != "" then u.overall
           else if t.progress == 100 then "COMPLETED"
           else if exists x :: x in t.itemStatus && t.itemStatus[x] in DONE + {"SUBMITTED"} then "IN_PROGRESS"
           else r.status)
      && t.history == r.history + [t.status]
  {
    var m := Updated(percent, r, u).itemStatus;
    if x :| x in m && m[x] in DONE {
      assert x in Verified(m);
    }
    if Verified(m) != {} {
      var x :| x in Verified(m);
      assert m[x] in DONE + {"SUBMITTED"};
    }
  }

  /** A request that lists an item twice never reaches 100, whatever is verified. */
  lemma {:induction false} RepeatedItemNeverCompletes(percent: Percentage, r: Request, updates: seq<Update>)
    requires IsPercentage(percent)
    requires Tracked(percent, r) && |Members(r.items)| < |r.items| <= LIMIT
    requires forall i :: 0 <= i < |updates| ==> NamesRequested(r, updates[i])
    ensures AfterUpdates(percent, r, updates).progress < 100
    decreases |updates|
  {
    ProgressIsCompleteExactly(percent, r);
    if updates != [] {
      TrackingSurvivesExactly(percent, r, updates[0]);
      RepeatedItemNeverCompletes(percent, Updated(percent, r, updates[0]), updates[1..]);
    }
  }

  function AfterUpdates(percent: Percentage, r: Request, updates: seq<Update>): Request
    decreases |updates|
  {
    if updates == [] then r else AfterUpdates(percent, Updated(percent, r, updates[0]), updates[1..])
  }

  // ---------- items that were never requested ----------

  /** What every run keeps, whatever its updates name: requested items have a status, and
      progress is the percentage of verified names, requested or not. */
  ghost predicate Counted(percent: Percentage, r: Request) {
    && Members(r.items) <= r.itemStatus.Keys
    && r.progress == if r.items == [] then 0 else percent(|Verified(r.itemStatus)|, |r.items|)
  }

  lemma {:induction false} RunKeepsCounting(percent: Percentage, rs: seq<Request>, ops: seq<Op>)
    requires IsPercentage(percent)
    requires forall k :: 0 <= k < |rs| ==> Counted(percent, rs[k])
    ensures forall k :: 0 <= k < |Run(percent, rs, ops)| ==> Counted(percent, Run(percent, rs, ops)[k])
    decreases |ops|
  {
    if ops != [] {
      match ops[0] {
        case Ask(items) => NewRequestIsTracked(percent, |rs| + 1, items);
        case Mark(id, u) =>
          if Find(rs, id).Some? {
            UpdateKeepsCounting(percent, rs[Find(rs, id).value], u);
          }
      }
      RunKeepsCounting(percent, Step(percent, rs, ops[0]), ops[1..]);
    }
  }

  /** Names that are verified and were never requested. */
  function Extras(r: Request): set<string> {
    Verified(r.itemStatus) - Members(r.items)
  }

  /** How far the requested items alone are from 100: those not verified, and repeats. */
  function Shortfall(r: Request): int {
    |r.items| - |Verified(r.itemStatus) * Members(r.items)|
  }

  lemma ShortfallIsZeroExactly(percent: Percentage, r: Request)
    requires Counted(percent, r)
    ensures Shortfall(r) >= 0
    ensures Shortfall(r) == 0 <==> AllVerified(r) && |Members(r.items)| == |r.items|
  {
    var done := Verified(r.itemStatus) * Members(r.items);
    MembersCount(r.items);
    SubsetCount(done, Members(r.items));
    assert forall x :: x in r.items <==> x in Members(r.items);
    assert done == Members(r.items) <==> AllVerified(r);
  }

  lemma VerifiedSplits(r: Request)
    ensures |Verified(r.itemStatus)| - |r.items| == |Extras(r)| - Shortfall(r)
  {
    var done := Verified(r.itemStatus) * Members(r.items);
    assert Verified(r.itemStatus) == done + Extras(r);
  }

  /** At every point of every run, with no condition on the updates: a request stands at
      100 exactly when the verified names never requested make up for the shortfall of the
      requested ones by less than one percent of the list, and beyond 100 exactly when by
      more. */
  lemma ProgressOverEveryRun(percent: Percentage, ops: seq<Op>, k: nat)
    requires IsPercentage(percent)
    requires k < |Run(percent, [], ops)| && 0 < |Run(percent, [], ops)[k].items| <= LIMIT
    ensures var r := Run(percent, [], ops)[k];
      var surplus := |Extras(r)| - Shortfall(r);
      && (r.progress < 100 <==> surplus < 0)
      && (r.progress == 100 <==> 0 <= surplus && 100 * surplus < |r.items|)
      && (r.progress > 100 <==> 0 <= surplus && 100 * surplus >= |r.items|)
  {
    RunKeepsCounting(percent, [], ops);
    var r := Run(percent, [], ops)[k];
    assert Counted(percent, r);
    VerifiedSplits(r);
    assert IsPercentAt(percent, |Verified(r.itemStatus)|, |r.items|);
  }

  /** So a request stands complete with a requested item unverified exactly when enough
      names that were never requested are verified in its place. */
  lemma {:induction false} FalseCompletionExactly(percent: Percentage, ops: seq<Op>, k: nat)
    requires IsPercentage(percent)
    requires k < |Run(percent, [], ops)| && 0 < |Run(percent, [], ops)[k].items| <= LIMIT
    ensures var r := Run(percent, [], ops)[k];
      !AllVerified(r) ==> Shortfall(r) > 0 && (r.progress >= 100 <==> |Extras(r)| >= Shortfall(r))
  {
    RunKeepsCounting(percent, [], ops);
    assert Counted(percent, Run(percent, [], ops)[k]);
    ProgressOverEveryRun(percent, ops, k);
    ShortfallIsZeroExactly(percent, Run(percent, [], ops)[k]);
  }

  /** The update marks its item as done. */
  predicate MarksDone(u: Update) {
    u.itemStatus == "" || IsDone(u.itemStatus)
  }

  lemma UnrequestedMark(percent: Percentage, r: Request, u: Update)
    requires Tracked(percent, r) && u.item != "" && u.item !in r.items
    ensures var t := Updated(percent, r, u);
      && t.items == r.items
      && (AllVerified(t) <==> AllVerified(r)) && Shortfall(t) == Shortfall(r)
      && |Extras(t)| == if MarksDone(u) then 1 else 0
  {
    MarkedStatuses(percent, r, u);
    MarkedOutside(r, Updated(percent, r, u), u.item, MarkOf(u));
  }

  lemma MarkedStatuses(percent: Percentage, r: Request, u: Update)
    requires u.item != ""
    ensures Updated(percent, r, u).items == r.items
    ensures Updated(percent, r, u).itemStatus == r.itemStatus[u.item := MarkOf(u)]
  {}

  lemma MarkedOutside(r: Request, t: Request, item: string, mark: string)
    requires r.itemStatus.Keys == Members(r.items) && item !in r.items
    requires t.items == r.items && t.itemStatus == r.itemStatus[item := mark]
    ensures (AllVerified(t) <==> AllVerified(r)) && Shortfall(t) == Shortfall(r)
    ensures |Extras(t)| == if mark in DONE then 1 else 0
  {
    VerifiedAfterMark(r.itemStatus, item, mark);
    MarkOutside(Verified(r.itemStatus), Members(r.items), if mark in DONE then {item} else {});
    AllVerifiedExactly(t);
    AllVerifiedExactly(r);
  }

  lemma MarkOutside(verified: set<string>, items: set<string>, marked: set<string>)
    requires verified <= items && marked !! items
    ensures (verified + marked) * items == verified * items
    ensures (verified + marked) - items == marked
  {}

  lemma UpdateKeepsCounting(percent: Percentage, r: Request, u: Update)
    requires Counted(percent, r)
    ensures Counted(percent, Updated(percent, r, u)) && Updated(percent, r, u).items == r.items
  {}

  lemma VerifiedAfterMark(m: map<string, string>, item: string, status: string)
    requires item !in m
    ensures Verified(m[item := status]) == Verified(m) + if status in DONE then {item} else {}
  {}

  lemma AllVerifiedExactly(r: Request)
    requires Members(r.items) <= r.itemStatus.Keys
    ensures AllVerified(r) <==> Verified(r.itemStatus) * Members(r.items) == Members(r.items)
  {
    assert forall x :: x in r.items <==> x in Members(r.items);
  }

  /** One update naming an item never requested pushes a tracked request beyond 100
      exactly when it marks it done, the request was already complete and it lists at most
      a hundred items. */
  lemma UnrequestedItemOvershootsExactly(percent: Percentage, r: Request, u: Update)
    requires IsPercentage(percent)
    requires Tracked(percent, r) && 0 < |r.items| <= LIMIT && u.item != "" && u.item !in r.items
    ensures Updated(percent, r, u).progress > 100 <==>
      MarksDone(u) && AllVerified(r) && |Members(r.items)| == |r.items| && |r.items| <= 100
  {
    var t := Updated(percent, r, u);
    UpdateKeepsCounting(percent, r, u);
    UnrequestedMark(percent, r, u);
    ShortfallIsZeroExactly(percent, t);
    VerifiedSplits(t);
    assert IsPercentAt(percent, |Verified(t.itemStatus)|, |t.items|);
  }

  /** It reports a tracked request complete while a requested item is not verified exactly
      when it marks the name done, the items are distinct and that item is the only one
      missing; without an override the status then reads COMPLETED. */
  lemma UnrequestedItemCompletesExactly(percent: Percentage, r: Request, u: Update)
    requires IsPercentage(percent)
    requires Tracked(percent, r) && 0 < |r.items| <= LIMIT && u.item != "" && u.item !in r.items && u.overall == ""
    ensures var t := Updated(percent, r, u);
      (t.status == "COMPLETED" && t.progress == 100 && !AllVerified(t)) <==>
        MarksDone(u) && |Members(r.items)| == |r.items| && exists x :: OnlyMissing(r, x)
  {
    var t := Updated(percent, r, u);
    UpdateKeepsCounting(percent, r, u);
    UnrequestedMark(percent, r, u);
    ShortfallIsZeroExactly(percent, t);
    VerifiedSplits(t);
    assert IsPercentAt(percent, |Verified(t.itemStatus)|, |t.items|);
    OneShortExactly(percent, r);
  }

  /** Item `x` is the only requested item not verified. */
  ghost predicate OnlyMissing(r: Request, x: string) {
    Members(r.items) - Verified(r.itemStatus) == {x}
  }

  lemma OneShortExactly(percent: Percentage, r: Request)
    requires Tracked(percent, r)
    ensures Shortfall(r) == 1 && !AllVerified(r) <==>
      |Members(r.items)| == |r.items| && exists x :: OnlyMissing(r, x)
  {
    var done := Verified(r.itemStatus) * Members(r.items);
    var missing := Members(r.items) - Verified(r.itemStatus);
    assert Members(r.items) == done + missing;
    MembersCount(r.items);
    assert |missing| + (|r.items| - |Members(r.items)|) == Shortfall(r);
    assert AllVerified(r) <==> missing == {} by {
      assert forall x :: x in missing <==> x in r.items && !(r.itemStatus[x] in DONE);
    }
    if |missing| == 1 {
      var x :| x in missing;
      SubsetCount({x}, missing);
      assert OnlyMissing(r, x);
    }
  }

  /** Two items are asked for and one is verified; verifying a name nobody asked for
      completes the request while the other item is still pending. */
  lemma UnverifiedItemIsReportedComplete(percent: Percentage, ops: seq<Op>)
    requires IsPercentage(percent)
    requires ops == [Ask(["Drawings", "Soil Report"]), Mark("REQ-001", Update("Drawings", "", "")),
                     Mark("REQ-001", Update("Site Photo", "", ""))]
    ensures |Run(percent, [], ops)| == 1
    ensures var r := Run(percent, [], ops)[0];
      r.status == "COMPLETED" && r.progress == 100 && ("Soil Report", "PENDING") in r.itemStatus.Items
  {
    var r := NewRequest(1, ["Drawings", "Soil Report"]);
    var a := Updated(percent, r, ops[1].update);
    var b := Updated(percent, a, ops[2].update);
    assert IdOf(1) == "REQ-001" by {
      assert Decimal(1) == "1";
    }
    OneOfTwo(percent, r);
    assert Run(percent, [b], ops[3..]) == [b];
    assert ops[2..][1..] == ops[3..] && Step(percent, [a], ops[2]) == [b];
    assert Run(percent, [a], ops[2..]) == [b];
    assert ops[1..][1..] == ops[2..] && Step(percent, [r], ops[1]) == [a];
    assert Run(percent, [r], ops[1..]) == [b];
    assert Step(percent, [], ops[0]) == [r];
  }

  lemma OneOfTwo(percent: Percentage, r: Request)
    requires IsPercentage(percent)
    requires r == NewRequest(1, ["Drawings", "Soil Report"])
    ensures var b := Updated(percent, Updated(percent, r, Update("Drawings", "", "")), Update("Site Photo", "", ""));
      b.status == "COMPLETED" && b.progress == 100 && ("Soil Report", "PENDING") in b.itemStatus.Items
  {
    var u, v := Update("Drawings", "", ""), Update("Site Photo", "", "");
    var a := Updated(percent, r, u);
    NewRequestIsTracked(percent, 1, r.items);
    TrackingSurvivesExactly(percent, r, u);
    MarkedStatuses(percent, r, u);
    MarkedStatuses(percent, a, v);
    TwoItems(r.items);
    assert Verified(a.itemStatus) == {"Drawings"};
    assert OnlyMissing(a, "Soil Report");
    UnrequestedItemCompletesExactly(percent, a, v);
  }

  lemma TwoItems(items: seq<string>)
    requires items == ["Drawings", "Soil Report"]
    ensures Members(items) == {"Drawings", "Soil Report"} && |Members(items)| == 2
  {}
}
