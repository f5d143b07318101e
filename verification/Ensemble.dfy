/** The merge of the parallel ensemble (apps/common/ai_service.py,
    generate_ensemble_structured_json). Threads finish in any order: `completed` is the
    order in which their results arrive. */
module Ensemble {
  import opened Text
  import opened Failover

  /** What a provider returned: an object with or without an observation list, a value
      that is not an object, None, or an exception. */
  datatype Output =
    | Observed(observations: seq<string>)
    | Unobserved
    | NoneReturned
    | Raised(typeName: string, text: string)

  datatype Completed = Completed(provider: Provider, output: Output)

  datatype Merged = Merged(successful: seq<Completed>, failed: map<Provider, string>, observations: seq<string>)

  predicate Responded(c: Completed) {
    c.output.Observed? || c.output.Unobserved?
  }

  /** The reason recorded for a provider that gave nothing. */
  function FailureReason(output: Output): string
    requires output.NoneReturned? || output.Raised?
  {
    match output
    case NoneReturned => "Failed"
    case Raised(typeName, text) =>
      if Contains(Lower(text), "quota") then "Quota exceeded"
      else if Contains(Lower(text), "timeout") then "Timed out"
      else typeName
  }

  ghost predicate DistinctProviders(completed: seq<Completed>) {
    forall i, j :: 0 <= i < j < |completed| ==> completed[i].provider != completed[j].provider
  }

  ghost function Providers(cs: seq<Completed>): set<Provider> {
    set c | c in cs :: c.provider
  }

  /** `o` is some observation of a provider that responded, trimmed and not blank. */
  ghost predicate Reported(cs: seq<Completed>, o: string) {
    exists c :: c in cs && ReportedBy(c, o)
  }

  ghost predicate ReportedBy(c: Completed, o: string) {
    c.output.Observed? && Cleaned(c.output.observations, o)
  }

  ghost predicate Cleaned(raws: seq<string>, o: string) {
    o != "" && exists raw :: raw in raws && Trim(raw) == o
  }

  /** What any merge of these results must be, whatever order it is built in. */
  ghost predicate IsMerge(completed: seq<Completed>, m: Merged) {
    && (forall c :: c in m.successful <==> c in completed && Responded(c))
    && DistinctProviders(m.successful)
    && (forall p :: p in m.failed <==> exists c :: c in completed && !Responded(c) && c.provider == p)
    && (forall c :: c in completed && !Responded(c) ==> m.failed[c.provider] == FailureReason(c.output))
    && NoDuplicates(m.observations)
    && (forall o :: o in m.observations <==> Reported(completed, o))
  }

  /** Responders in order, and a reason for every provider that gave nothing. */
  ghost predicate IsPartition(completed: seq<Completed>, successful: seq<Completed>, failed: map<Provider, string>) {
    && (forall c :: c in successful <==> c in completed && Responded(c))
    && DistinctProviders(successful)
    && (forall p :: p in failed <==> exists c :: c in completed && !Responded(c) && c.provider == p)
    && (forall c :: c in completed && !Responded(c) ==> failed[c.provider] == FailureReason(c.output))
  }

  method Merge(completed: seq<Completed>) returns (m: Merged)
    requires DistinctProviders(completed)
    ensures IsMerge(completed, m)
  {
    var successful, failed := Partition(completed);
    var observations := MergeObservations(successful);
    RespondersReportAll(completed, successful, failed);
    m := Merged(successful, failed, observations);
  }

  lemma RespondersReportAll(completed: seq<Completed>, successful: seq<Completed>, failed: map<Provider, string>)
    requires IsPartition(completed, successful, failed)
    ensures forall o :: Reported(successful, o) <==> Reported(completed, o)
  {
    forall o ensures Reported(successful, o) <==> Reported(completed, o) {
      if Reported(completed, o) {
        var c :| c in completed && ReportedBy(c, o);
        assert c in successful;
      }
    }
  }

  /** The loop over the results as they arrive. */
  method Partition(completed: seq<Completed>) returns (successful: seq<Completed>, failed: map<Provider, string>)
    requires DistinctProviders(completed)
    ensures IsPartition(completed, successful, failed)
  {
    successful, failed := [], map[];
    var i := 0;
    while i < |completed|
      invariant 0 <= i <= |completed|
      invariant IsPartition(completed[..i], successful, failed)
    {
      var c := completed[i];
      assert completed[..i + 1] == completed[..i] + [c];
      if Responded(c) {
        ResponderExtends(completed[..i], c, successful, failed);
        successful := successful + [c];
      } else {
        FailureExtends(completed[..i], c, successful, failed);
        failed := failed[c.provider := FailureReason(c.output)];
      }
      i := i + 1;
    }
    assert completed[..i] == completed;
  }

  lemma ResponderExtends(front: seq<Completed>, c: Completed, successful: seq<Completed>, failed: map<Provider, string>)
    requires DistinctProviders(front + [c]) && Responded(c)
    requires IsPartition(front, successful, failed)
    ensures IsPartition(front + [c], successful + [c], failed)
  {
    LastProviderIsNew(front, c);
    forall p | p in failed ensures exists d :: d in front + [c] && !Responded(d) && d.provider == p {
      var d :| d in front && !Responded(d) && d.provider == p;
      assert d in front + [c];
    }
    forall j | 0 <= j < |successful| ensures successful[j].provider != c.provider {
      assert successful[j] in front;
      assert successful[j].provider in Providers(front);
    }
  }

  lemma FailureExtends(front: seq<Completed>, c: Completed, successful: seq<Completed>, failed: map<Provider, string>)
    requires DistinctProviders(front + [c]) && !Responded(c)
    requires IsPartition(front, successful, failed)
    ensures IsPartition(front + [c], successful, failed[c.provider := FailureReason(c.output)])
  {
    LastProviderIsNew(front, c);
    var after := failed[c.provider := FailureReason(c.output)];
    forall p ensures p in after <==> exists d :: d in front + [c] && !Responded(d) && d.provider == p {
      if d :| d in front && !Responded(d) && d.provider == p {
        assert d in front + [c];
      }
      assert c in front + [c];
    }
    forall d | d in front && !Responded(d) ensures after[d.provider] == FailureReason(d.output) {
      assert d.provider in Providers(front);
    }
  }

  method MergeObservations(successful: seq<Completed>) returns (merged: seq<string>)
    ensures NoDuplicates(merged)
    ensures forall o :: o in merged <==> Reported(successful, o)
  {
    merged := [];
    var i := 0;
    while i < |successful|
      invariant 0 <= i <= |successful|
      invariant NoDuplicates(merged)
      invariant forall o :: o in merged <==> Reported(successful[..i], o)
    {
      var c := successful[i];
      assert successful[..i + 1] == successful[..i] + [c];
      ghost var before := merged;
      if c.output.Observed? {
        merged := AddObservations(merged, c.output.observations);
      }
      forall o ensures Reported(successful[..i + 1], o) <==> o in before || ReportedBy(c, o) {
        ReportedSplits(successful[..i], c, o);
      }
      forall o ensures o in merged <==> o in before || ReportedBy(c, o) {
      }
      i := i + 1;
    }
    assert successful[..i] == successful;
  }

  lemma ReportedSplits(cs: seq<Completed>, c: Completed, o: string)
    ensures Reported(cs + [c], o) <==> Reported(cs, o) || ReportedBy(c, o)
  {
    if Reported(cs, o) {
      var d :| d in cs && ReportedBy(d, o);
      assert d in cs + [c];
    }
    if ReportedBy(c, o) {
      assert (cs + [c])[|cs|] == c;
    }
  }

  lemma CleanedSplits(raws: seq<string>, raw: string, o: string)
    ensures Cleaned(raws + [raw], o) <==> Cleaned(raws, o) || (o == Trim(raw) && o != "")
  {
    if Cleaned(raws, o) {
      var r :| r in raws && Trim(r) == o;
      assert r in raws + [raw];
    }
    if o == Trim(raw) && o != "" {
      assert (raws + [raw])[|raws|] == raw;
    }
  }

  method AddObservations(merged: seq<string>, raws: seq<string>) returns (r: seq<string>)
    requires NoDuplicates(merged)
    ensures NoDuplicates(r) && merged <= r
    ensures forall o :: o in r <==> o in merged || Cleaned(raws, o)
  {
    r := merged;
    var i := 0;
    while i < |raws|
      invariant 0 <= i <= |raws|
      invariant NoDuplicates(r) && merged <= r
      invariant forall o :: o in r <==> o in merged || Cleaned(raws[..i], o)
    {
      var cleaned := Trim(raws[i]);
      assert raws[..i + 1] == raws[..i] + [raws[i]];
      forall o ensures Cleaned(raws[..i + 1], o) <==> Cleaned(raws[..i], o) || (o == cleaned && o != "") {
        CleanedSplits(raws[..i], raws[i], o);
      }
      if cleaned != "" && cleaned !in r {
        r := r + [cleaned];
      }
      i := i + 1;
    }
    assert raws[..i] == raws;
  }

  // ---------- order independence ----------

  /** Two results describe the same outcome up to the order of arrival. */
  ghost predicate SameOutcome(a: Merged, b: Merged) {
    && multiset(a.successful) == multiset(b.successful)
    && a.failed == b.failed
    && multiset(a.observations) == multiset(b.observations)
  }

  lemma {:induction false} DistinctCounts<T>(s: seq<T>, x: T)
    requires forall i, j :: 0 <= i < j < |s| ==> s[i] != s[j]
    ensures multiset(s)[x] == if x in s then 1 else 0
  {
    if s != [] {
      var front, last := s[..|s| - 1], s[|s| - 1];
      DistinctCounts(front, x);
      assert s == front + [last];
      assert multiset(s)[x] == multiset(front)[x] + multiset([last])[x];
    }
  }

  lemma SameMembersSameMultiset<T>(s: seq<T>, t: seq<T>)
    requires forall i, j :: 0 <= i < j < |s| ==> s[i] != s[j]
    requires forall i, j :: 0 <= i < j < |t| ==> t[i] != t[j]
    requires forall x :: x in s <==> x in t
    ensures multiset(s) == multiset(t)
  {
    forall x ensures multiset(s)[x] == multiset(t)[x] {
      DistinctCounts(s, x);
      DistinctCounts(t, x);
    }
  }

  lemma ReportedTransfers(cs: seq<Completed>, ds: seq<Completed>, o: string)
    requires (forall c :: c in cs ==> c in ds) && Reported(cs, o)
    ensures Reported(ds, o)
  {
    var c :| c in cs && ReportedBy(c, o);
    assert c in ds;
  }

  lemma FailuresTransfer(cs: seq<Completed>, ds: seq<Completed>, a: Merged, b: Merged, p: Provider)
    requires IsMerge(cs, a) && IsMerge(ds, b)
    requires (forall c :: c in cs ==> c in ds) && p in a.failed
    ensures p in b.failed && a.failed[p] == b.failed[p]
  {
    var c :| c in cs && !Responded(c) && c.provider == p;
    assert c in ds;
  }

  lemma SameResults(first: seq<Completed>, second: seq<Completed>)
    requires multiset(first) == multiset(second)
    ensures forall c :: c in first <==> c in second
  {
    assert forall c :: c in first <==> c in multiset(first);
    assert forall c :: c in second <==> c in multiset(second);
  }

  lemma FailuresAgree(first: seq<Completed>, second: seq<Completed>, a: Merged, b: Merged)
    requires forall c :: c in first <==> c in second
    requires IsMerge(first, a) && IsMerge(second, b)
    ensures a.failed == b.failed
  {
    forall p | p in a.failed ensures p in b.failed && a.failed[p] == b.failed[p] {
      FailuresTransfer(first, second, a, b, p);
    }
    forall p | p in b.failed ensures p in a.failed {
      FailuresTransfer(second, first, b, a, p);
    }
  }

  /** However the threads finish, the merge reports the same providers, the same failures
      and the same set of observations. */
  lemma CompletionOrderDoesNotMatter(first: seq<Completed>, second: seq<Completed>, a: Merged, b: Merged)
    requires multiset(first) == multiset(second)
    requires IsMerge(first, a) && IsMerge(second, b)
    ensures SameOutcome(a, b)
  {
    SameResults(first, second);
    SuccessesAgree(first, second, a, b);
    FailuresAgree(first, second, a, b);
    ObservationsAgree(first, second, a, b);
  }

  lemma SuccessesAgree(first: seq<Completed>, second: seq<Completed>, a: Merged, b: Merged)
    requires forall c :: c in first <==> c in second
    requires IsMerge(first, a) && IsMerge(second, b)
    ensures multiset(a.successful) == multiset(b.successful)
  {
    SameMembersSameMultiset(a.successful, b.successful);
  }

  lemma ObservationsAgree(first: seq<Completed>, second: seq<Completed>, a: Merged, b: Merged)
    requires forall c :: c in first <==> c in second
    requires IsMerge(first, a) && IsMerge(second, b)
    ensures multiset(a.observations) == multiset(b.observations)
  {
    forall o ensures o in a.observations <==> o in b.observations {
      if Reported(first, o) {
        ReportedTransfers(first, second, o);
      }
      if Reported(second, o) {
        ReportedTransfers(second, first, o);
      }
    }
    SameMembersSameMultiset(a.observations, b.observations);
  }

  /** Responding and failed providers partition the providers that were asked. */
  lemma ProvidersArePartitioned(completed: seq<Completed>, m: Merged)
    requires DistinctProviders(completed) && IsMerge(completed, m)
    ensures Providers(m.successful) + m.failed.Keys == Providers(completed)
    ensures Providers(m.successful) !! m.failed.Keys
    ensures |m.successful| + |m.failed| == |completed|
  {
    forall p ensures p in Providers(m.successful) || p in m.failed <==> p in Providers(completed) {
      if p in Providers(completed) {
        var c :| c in completed && c.provider == p;
        assert Responded(c) ==> c in m.successful;
      }
    }
    forall p | p in m.failed ensures p !in Providers(m.successful) {
      var c :| c in completed && !Responded(c) && c.provider == p;
      forall d | d in m.successful ensures d.provider != p {
        var i :| 0 <= i < |completed| && completed[i] == c;
        var j :| 0 <= j < |completed| && completed[j] == d;
      }
    }
    ProviderCount(completed);
    ProviderCount(m.successful);
  }

  lemma LastProviderIsNew(front: seq<Completed>, last: Completed)
    requires DistinctProviders(front + [last])
    ensures last.provider !in Providers(front) && DistinctProviders(front)
    ensures Providers(front + [last]) == Providers(front) + {last.provider}
  {
    var cs := front + [last];
    forall c | c in front ensures c.provider != last.provider {
      var i :| 0 <= i < |front| && front[i] == c;
      assert cs[i] == c && cs[|front|] == last;
    }
    forall i, j | 0 <= i < j < |front| ensures front[i].provider != front[j].provider {
      assert cs[i] == front[i] && cs[j] == front[j];
    }
  }

  lemma {:induction false} ProviderCount(cs: seq<Completed>)
    requires DistinctProviders(cs)
    ensures |Providers(cs)| == |cs|
  {
    if cs != [] {
      var front, last := cs[..|cs| - 1], cs[|cs| - 1];
      assert cs == front + [last];
      LastProviderIsNew(front, last);
      ProviderCount(front);
    }
  }

  /** The reason recorded names an exhausted quota or a timeout when the error's text does,
      the quota first, and otherwise the kind of the error; a missing answer is a failure. */
  lemma ReasonsAreNamed(output: Output)
    requires output.NoneReturned? || output.Raised?
    ensures output.NoneReturned? ==> FailureReason(output) == "Failed"
    ensures output.Raised? && Contains(Lower(output.text), "quota") ==> FailureReason(output) == "Quota exceeded"
    ensures output.Raised? && !Contains(Lower(output.text), "quota") && Contains(Lower(output.text), "timeout") ==>
      FailureReason(output) == "Timed out"
    ensures output.Raised? && !Contains(Lower(output.text), "quota") && !Contains(Lower(output.text), "timeout") ==>
      FailureReason(output) == output.typeName
  {}
}
