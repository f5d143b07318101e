/** The provider chain (apps/common/ai_service.py, _provider_order and _with_failover).

    What each provider would answer and what the clock reads are arbitrary inputs.
 */
module Failover {
  import opened Text

  type Provider = string

  const CANONICAL_ORDER: seq<Provider> := ["openai", "gemini", "anthropic", "deepseek"]

  const TEXT_PROVIDERS: set<Provider> := {"openai", "gemini", "anthropic", "deepseek"}
  const VISION_PROVIDERS: set<Provider> := {"openai", "gemini", "anthropic"}

  predicate NoDuplicates<T(==)>(s: seq<T>) {
    forall i, j :: 0 <= i < j < |s| ==> s[i] != s[j]
  }

  /** Where `x` first occurs. */
  function FirstIndex<T(==)>(s: seq<T>, x: T): (k: nat)
    requires x in s
    ensures k < |s| && s[k] == x && forall j :: 0 <= j < k ==> s[j] != x
  {
    if s[0] == x then 0
    else
      assert s == [s[0]] + s[1..];
      1 + FirstIndex(s[1..], x)
  }

  /** The configured provider, then the override list, then the canonical order. */
  function Candidates(configured: Provider, override: seq<Provider>): seq<Provider> {
    [configured] + override + CANONICAL_ORDER
  }

  /** `order` lists exactly the eligible candidates, once each, by first occurrence. */
  ghost predicate IsProviderOrder(candidates: seq<Provider>, available: set<Provider>, keyed: set<Provider>,
                                  order: seq<Provider>)
  {
    && NoDuplicates(order)
    && (forall p :: p in order <==> p in candidates && p in available && p in keyed)
    && (forall i, j :: 0 <= i < j < |order| ==> FirstIndex(candidates, order[i]) < FirstIndex(candidates, order[j]))
  }

  /** _provider_order */
  method ProviderOrder(configured: Provider, override: seq<Provider>, available: set<Provider>, keyed: set<Provider>)
    returns (order: seq<Provider>)
    ensures IsProviderOrder(Candidates(configured, override), available, keyed, order)
    ensures configured in available && configured in keyed ==> order != [] && order[0] == configured
  {
    var candidates := Candidates(configured, override);
    order := [];
    var i := 0;
    while i < |candidates|
      invariant 0 <= i <= |candidates|
      invariant NoDuplicates(order)
      invariant forall p :: p in order <==> p in candidates[..i] && p in available && p in keyed
      invariant forall p :: p in order ==> p in candidates
      invariant forall j, k :: 0 <= j < k < |order| ==>
        FirstIndex(candidates, order[j]) < FirstIndex(candidates, order[k])
      invariant i > 0 && configured in available && configured in keyed ==> order != [] && order[0] == configured
    {
      var name := candidates[i];
      assert candidates[..i + 1] == candidates[..i] + [name];
      if name !in order && name in available && name in keyed {
        FirstIndexIs(candidates, name, i);
        forall j | 0 <= j < |order| ensures order[j] in candidates && FirstIndex(candidates, order[j]) < i {
          FirstIndexWithin(candidates, order[j], i);
        }
        order := order + [name];
      }
      i := i + 1;
    }
    assert candidates[..i] == candidates;
  }

  lemma FirstIndexIs<T>(s: seq<T>, x: T, i: nat)
    requires i < |s| && s[i] == x && x !in s[..i]
    ensures FirstIndex(s, x) == i
  {
    assert forall j :: 0 <= j < i ==> s[..i][j] == s[j] != x;
  }

  lemma FirstIndexWithin<T>(s: seq<T>, x: T, n: nat)
    requires n <= |s| && x in s[..n]
    ensures x in s && FirstIndex(s, x) < n
  {
    var j :| 0 <= j < n && s[..n][j] == x;
    assert s[j] == x;
  }

  /** Only one sequence is the provider order: it depends on nothing but the inputs. */
  lemma ProviderOrderIsUnique(candidates: seq<Provider>, available: set<Provider>, keyed: set<Provider>,
                              a: seq<Provider>, b: seq<Provider>)
    requires IsProviderOrder(candidates, available, keyed, a)
    requires IsProviderOrder(candidates, available, keyed, b)
    ensures a == b
  {
    PositionsAgree(candidates, available, keyed, a, b, |a|);
    PositionsAgree(candidates, available, keyed, b, a, |b|);
  }

  lemma {:induction false} PositionsAgree(candidates: seq<Provider>, available: set<Provider>, keyed: set<Provider>,
                                          a: seq<Provider>, b: seq<Provider>, n: nat)
    requires IsProviderOrder(candidates, available, keyed, a)
    requires IsProviderOrder(candidates, available, keyed, b)
    requires n <= |a|
    ensures n <= |b| && forall j :: 0 <= j < n ==> a[j] == b[j]
    decreases n
  {
    if n > 0 {
      var i := n - 1;
      PositionsAgree(candidates, available, keyed, a, b, i);
      assert a[i] in b;
      var k :| 0 <= k < |b| && b[k] == a[i];
      assert i <= k;
      assert b[i] in a;
      var m :| 0 <= m < |a| && a[m] == b[i];
      assert i <= m;
      assert k == i;
    }
  }

  /** With the shipped tables every keyed capable provider is in the order, whatever the
      override list says. */
  lemma OrderIsComplete(configured: Provider, override: seq<Provider>, available: set<Provider>,
                        keyed: set<Provider>, order: seq<Provider>)
    requires IsProviderOrder(Candidates(configured, override), available, keyed, order)
    requires available <= {"openai", "gemini", "anthropic", "deepseek"}
    ensures forall p :: p in order <==> p in available && p in keyed
    ensures |order| <= 4
  {
    var candidates := Candidates(configured, override);
    var base := |override| + 1;
    assert candidates[base] == "openai" && candidates[base + 1] == "gemini";
    assert candidates[base + 2] == "anthropic" && candidates[base + 3] == "deepseek";
    var members := set p | p in order;
    assert members <= TEXT_PROVIDERS;
    DistinctCount(order);
    Subset(members, TEXT_PROVIDERS);
  }

  /** The text order holds exactly the keyed ones of the four providers, the vision order
      those of three. */
  lemma ShippedOrders(configured: Provider, override: seq<Provider>, keyed: set<Provider>, text: seq<Provider>,
                      vision: seq<Provider>)
    requires IsProviderOrder(Candidates(configured, override), TEXT_PROVIDERS, keyed, text)
    requires IsProviderOrder(Candidates(configured, override), VISION_PROVIDERS, keyed, vision)
    ensures forall p :: p in text <==> p in keyed && p in {"openai", "gemini", "anthropic", "deepseek"}
    ensures forall p :: p in vision <==> p in keyed && p in {"openai", "gemini", "anthropic"}
  {
    OrderIsComplete(configured, override, TEXT_PROVIDERS, keyed, text);
    OrderIsComplete(configured, override, VISION_PROVIDERS, keyed, vision);
  }

  lemma {:induction false} DistinctCount<T>(s: seq<T>)
    requires NoDuplicates(s)
    ensures |set x | x in s| == |s|
  {
    if s != [] {
      var front, last := s[..|s| - 1], s[|s| - 1];
      DistinctCount(front);
      assert s == front + [last];
      assert (set x | x in s) == (set x | x in front) + {last};
    }
  }

  lemma {:induction false} Subset<T>(a: set<T>, b: set<T>)
    requires a <= b
    ensures |a| <= |b|
  {
    if a != {} {
      var x :| x in a;
      Subset(a - {x}, b - {x});
    }
  }

  /** The place of a provider in the code's own order. */
  function CanonicalRank(p: Provider): nat {
    if p == "openai" then 0 else if p == "gemini" then 1 else if p == "anthropic" then 2 else 3
  }

  /** The configured provider comes first, then those of the override list as it lists
      them, then the others in the code's own order. */
  predicate Preferred(configured: Provider, override: seq<Provider>, p: Provider, q: Provider) {
    q != configured && (
      || p == configured
      || (p in override && q !in override)
      || (p in override && q in override && FirstIndex(override, p) < FirstIndex(override, q))
      || (p !in override && q !in override && CanonicalRank(p) < CanonicalRank(q)))
  }

  lemma OverridePosition(configured: Provider, override: seq<Provider>, p: Provider)
    requires p != configured && p in override
    ensures FirstIndex(Candidates(configured, override), p) == 1 + FirstIndex(override, p)
  {
    var c, k := Candidates(configured, override), FirstIndex(override, p);
    assert c[k + 1] == p;
    assert c[..k + 1] == [configured] + override[..k];
    FirstIndexIs(c, p, k + 1);
  }

  lemma CanonicalPosition(configured: Provider, override: seq<Provider>, p: Provider)
    requires p in CANONICAL_ORDER && p != configured && p !in override
    ensures FirstIndex(Candidates(configured, override), p) == 1 + |override| + CanonicalRank(p)
  {
    var c, base, rank := Candidates(configured, override), 1 + |override|, CanonicalRank(p);
    assert CANONICAL_ORDER[rank] == p && p !in CANONICAL_ORDER[..rank];
    assert c[base + rank] == CANONICAL_ORDER[rank];
    assert c[..base + rank] == [configured] + override + CANONICAL_ORDER[..rank];
    FirstIndexIs(c, p, base + rank);
  }

  lemma CandidatePosition(configured: Provider, override: seq<Provider>, p: Provider)
    requires p in Candidates(configured, override)
    ensures FirstIndex(Candidates(configured, override), p) ==
      if p == configured then 0
      else if p in override then 1 + FirstIndex(override, p)
      else 1 + |override| + CanonicalRank(p)
  {
    if p == configured {
      FirstIndexIs(Candidates(configured, override), p, 0);
    } else if p in override {
      OverridePosition(configured, override, p);
    } else {
      assert p in [configured] + override + CANONICAL_ORDER;
      CanonicalPosition(configured, override, p);
    }
  }

  /** The order of any two providers in the chain is the one of their preference. */
  lemma OrderFollowsPreference(configured: Provider, override: seq<Provider>, available: set<Provider>,
                               keyed: set<Provider>, order: seq<Provider>)
    requires IsProviderOrder(Candidates(configured, override), available, keyed, order)
    ensures forall i, j :: 0 <= i < j < |order| ==> Preferred(configured, override, order[i], order[j])
  {
    forall i, j | 0 <= i < j < |order| ensures Preferred(configured, override, order[i], order[j]) {
      CandidatePosition(configured, override, order[i]);
      CandidatePosition(configured, override, order[j]);
    }
  }

  // ---------- failover ----------

  /** What running a provider gives: an answer, or an exception of some type. */
  datatype Outcome = Answer(result: string) | Failure(error: string)

  datatype Attempt = Attempt(provider: Provider, error: string)

  datatype Ending = Won(provider: Provider, result: string) | NothingConfigured | AllFailed

  /** How a call ended, the attempts recorded, and the providers started, in order. */
  datatype Trace = Trace(ending: Ending, attempts: seq<Attempt>, started: seq<Provider>)

  const SKIPPED := "skipped: failover deadline exceeded"

  predicate Late(deadline: real, elapsed: real) {
    deadline != 0.0 && elapsed > deadline
  }

  /** The k providers before position k all started in time and failed. */
  ghost predicate FailedUpTo(order: seq<Provider>, runners: map<Provider, Outcome>, deadline: real,
                             clock: nat -> real, k: nat)
  {
    && k <= |order|
    && forall i :: 0 <= i < k ==> FailsInTime(order, runners, deadline, clock, i)
  }

  ghost predicate FailsInTime(order: seq<Provider>, runners: map<Provider, Outcome>, deadline: real,
                              clock: nat -> real, i: nat)
    requires i < |order|
  {
    order[i] in runners && runners[order[i]].Failure? && !Late(deadline, clock(i))
  }

  ghost predicate RecordsFailures(order: seq<Provider>, runners: map<Provider, Outcome>, attempts: seq<Attempt>, k: nat)
    requires k <= |order| && forall p :: p in order ==> p in runners
  {
    && k <= |attempts|
    && forall i :: 0 <= i < k ==>
        runners[order[i]].Failure? && attempts[i] == Attempt(order[i], runners[order[i]].error)
  }

  /** The failover contract: exactly one of four endings, each fixing the whole trace.
      `clock(i)` is the time elapsed when the i-th provider is about to start. */
  ghost predicate IsFailover(order: seq<Provider>, runners: map<Provider, Outcome>, deadline: real,
                             clock: nat -> real, t: Trace)
    requires forall p :: p in order ==> p in runners
  {
    match t.ending
    case NothingConfigured => order == [] && t.attempts == [] && t.started == []
    case Won(provider, result) =>
      var k := |t.attempts|;
      && k < |order|
      && FailedUpTo(order, runners, deadline, clock, k)
      && !Late(deadline, clock(k))
      && provider == order[k] && runners[provider] == Answer(result)
      && RecordsFailures(order, runners, t.attempts, k)
      && t.started == order[..k + 1]
    case AllFailed =>
      && order != []
      && var k := |t.started|;
         && FailedUpTo(order, runners, deadline, clock, k)
         && RecordsFailures(order, runners, t.attempts, k)
         && t.started == order[..k]
         && (if k == |order| then |t.attempts| == k
             else Late(deadline, clock(k)) && t.attempts == t.attempts[..k] + [Attempt(order[k], SKIPPED)])
  }

  /** _with_failover, for an order already computed. */
  method WithFailover(order: seq<Provider>, runners: map<Provider, Outcome>, deadline: real, clock: nat -> real)
    returns (t: Trace)
    requires forall p :: p in order ==> p in runners
    ensures IsFailover(order, runners, deadline, clock, t)
  {
    if order == [] {
      return Trace(NothingConfigured, [], []);
    }
    var attempts: seq<Attempt> := [];
    var i := 0;
    while i < |order|
      invariant 0 <= i <= |order|
      invariant |attempts| == i
      invariant FailedUpTo(order, runners, deadline, clock, i)
      invariant RecordsFailures(order, runners, attempts, i)
    {
      var name := order[i];
      if Late(deadline, clock(i)) {
        return Trace(AllFailed, attempts + [Attempt(name, SKIPPED)], order[..i]);
      }
      match runners[name] {
        case Answer(result) =>
          return Trace(Won(name, result), attempts, order[..i + 1]);
        case Failure(error) =>
          attempts := attempts + [Attempt(name, error)];
          assert FailsInTime(order, runners, deadline, clock, i);
      }
      i := i + 1;
    }
    t := Trace(AllFailed, attempts, order[..i]);
  }

  // ---------- consequences ----------

  /** Providers started are a prefix of the order, so each is called at most once; the
      attempts recorded name a prefix of the order, every provider before the winner. */
  lemma TraceFollowsOrder(order: seq<Provider>, runners: map<Provider, Outcome>, deadline: real,
                          clock: nat -> real, t: Trace)
    requires forall p :: p in order ==> p in runners
    requires NoDuplicates(order) && IsFailover(order, runners, deadline, clock, t)
    ensures t.started <= order && NoDuplicates(t.started)
    ensures |t.attempts| <= |order|
    ensures forall i :: 0 <= i < |t.attempts| ==> t.attempts[i].provider == order[i]
    ensures t.ending.Won? ==> t.started == order[..|t.attempts|] + [t.ending.provider]
    ensures forall i :: 0 <= i < |t.attempts| ==>
      if i < |t.started| then runners[order[i]] == Failure(t.attempts[i].error)
      else t.attempts[i].error == "skipped: failover deadline exceeded"
  {
    if t.ending.AllFailed? && |t.started| < |order| {
      var k := |t.started|;
      assert |t.attempts| == k + 1 && t.attempts[k] == Attempt(order[k], SKIPPED);
    }
  }

  /** The first provider that succeeds is returned exactly when it and every provider
      before it started with no deadline set or by the deadline. */
  lemma FirstSuccessWins(order: seq<Provider>, runners: map<Provider, Outcome>, deadline: real,
                         clock: nat -> real, t: Trace, k: nat)
    requires forall p :: p in order ==> p in runners
    requires IsFailover(order, runners, deadline, clock, t)
    requires k < |order|
    requires forall i :: 0 <= i < k ==> runners[order[i]].Failure?
    requires runners[order[k]].Answer?
    ensures (forall i :: 0 <= i <= k ==> deadline == 0.0 || clock(i) <= deadline) <==>
      t.ending == Won(order[k], runners[order[k]].result)
  {
    var m := if t.ending.Won? then |t.attempts| else |t.started|;
    forall i | 0 <= i < m ensures !Late(deadline, clock(i)) && runners[order[i]].Failure? {
      assert FailsInTime(order, runners, deadline, clock, i);
    }
    assert t.ending.AllFailed? ==> Late(deadline, clock(m));
    assert t.ending.Won? ==> runners[order[m]].Answer?;
  }

  /** The contract leaves no freedom: the trace is a function of the inputs. */
  lemma FailoverIsDeterministic(order: seq<Provider>, runners: map<Provider, Outcome>, deadline: real,
                                clock: nat -> real, a: Trace, b: Trace)
    requires forall p :: p in order ==> p in runners
    requires IsFailover(order, runners, deadline, clock, a)
    requires IsFailover(order, runners, deadline, clock, b)
    ensures a == b
  {
    var m := if a.ending.Won? then |a.attempts| else |a.started|;
    var n := if b.ending.Won? then |b.attempts| else |b.started|;
    assert m < n ==> FailsInTime(order, runners, deadline, clock, m);
    assert n < m ==> FailsInTime(order, runners, deadline, clock, n);
    assert m == n;
  }

  /** With a deadline D, and no provider taking longer than B, the chain ends within D + B. */
  lemma ChainEndsInTime(order: seq<Provider>, runners: map<Provider, Outcome>, deadline: real, budget: real,
                        clock: nat -> real, t: Trace)
    requires forall p :: p in order ==> p in runners
    requires IsFailover(order, runners, deadline, clock, t)
    requires deadline > 0.0 && budget >= 0.0
    requires clock(0) <= deadline
    requires forall i :: 0 <= i < |t.started| ==> clock(i + 1) <= clock(i) + budget
    ensures forall i :: 0 <= i < |t.started| ==> clock(i) <= deadline
    ensures clock(|t.started|) <= deadline + budget
  {
    forall i | 0 <= i < |t.started| ensures clock(i) <= deadline {
      if t.ending.Won? && i == |t.attempts| {
        assert !Late(deadline, clock(i));
      } else {
        assert FailsInTime(order, runners, deadline, clock, i);
      }
    }
    if t.started != [] {
      var last := |t.started| - 1;
      assert clock(last + 1) <= clock(last) + budget;
    }
  }
}
