/** The audit diff (apps/audit/services.py, compute_diff). A state is a JSON object or
    None; `Null` is JSON null, which `.get` does not tell from an absent key. Values are
    compared as Python compares them. */
module AuditDiff {
  import opened Text

  datatype Value =
    | Null
    | Bool(b: bool)
    | Int(n: int)
    | Float(x: real)
    | Str(s: Text)
    | List(items: seq<Value>)
    | Dict(entries: map<Text, Value>)

  // ---------- Python's equality ----------

  /** What a number counts as: booleans are 0 and 1. */
  function NumberOf(v: Value): Option<real> {
    match v
    case Bool(b) => Some(if b then 1.0 else 0.0)
    case Int(n) => Some(n as real)
    case Float(x) => Some(x)
    case _ => None
  }

  /** Numbers compare by value whatever their types, lists item by item, dictionaries key
      by key. */
  predicate Equal(a: Value, b: Value) {
    match (a, b)
    case (Null, Null) => true
    case (Str(s), Str(t)) => s == t
    case (List(xs), List(ys)) => |xs| == |ys| && forall i :: 0 <= i < |xs| ==> Equal(xs[i], ys[i])
    case (Dict(m), Dict(n)) => m.Keys == n.Keys && forall k :: k in m ==> Equal(m[k], n[k])
    case _ => NumberOf(a).Some? && NumberOf(a) == NumberOf(b)
  }

  lemma {:induction false} EqualIsReflexive(v: Value)
    ensures Equal(v, v)
  {
    match v
    case List(items) =>
      forall i | 0 <= i < |items| ensures Equal(items[i], items[i]) {
        EqualIsReflexive(items[i]);
      }
    case Dict(entries) =>
      forall k | k in entries ensures Equal(entries[k], entries[k]) {
        EqualIsReflexive(entries[k]);
      }
    case _ =>
  }

  lemma {:induction false} EqualIsSymmetric(a: Value, b: Value)
    requires Equal(a, b)
    ensures Equal(b, a)
  {
    match (a, b)
    case (List(xs), List(ys)) =>
      forall i | 0 <= i < |ys| ensures Equal(ys[i], xs[i]) {
        EqualIsSymmetric(xs[i], ys[i]);
      }
    case (Dict(m), Dict(n)) =>
      forall k | k in n ensures Equal(n[k], m[k]) {
        EqualIsSymmetric(m[k], n[k]);
      }
    case _ =>
  }

  lemma {:induction false} EqualIsTransitive(a: Value, b: Value, c: Value)
    requires Equal(a, b) && Equal(b, c)
    ensures Equal(a, c)
  {
    match (a, b, c)
    case (List(xs), List(ys), List(zs)) =>
      forall i | 0 <= i < |xs| ensures Equal(xs[i], zs[i]) {
        EqualIsTransitive(xs[i], ys[i], zs[i]);
      }
    case (Dict(l), Dict(m), Dict(n)) =>
      forall k | k in l ensures Equal(l[k], n[k]) {
        EqualIsTransitive(l[k], m[k], n[k]);
      }
    case _ =>
  }

  // ---------- what it separates ----------

  /** The value with every number, booleans among them, written as a float. */
  function Plain(v: Value): Value {
    match v
    case Bool(b) => Float(if b then 1.0 else 0.0)
    case Int(n) => Float(n as real)
    case List(items) => List(seq(|items|, i requires 0 <= i < |items| => Plain(items[i])))
    case Dict(entries) => Dict(map k | k in entries :: Plain(entries[k]))
    case _ => v
  }

  /** Two values are equal exactly when they are the same value once every number is
      written alike: nothing else is identified, at any depth. */
  lemma {:induction false} EqualExactly(a: Value, b: Value)
    ensures Equal(a, b) <==> Plain(a) == Plain(b)
  {
    match (a, b)
    case (List(xs), List(ys)) =>
      if |xs| == |ys| {
        forall i | 0 <= i < |xs| ensures Equal(xs[i], ys[i]) <==> Plain(xs[i]) == Plain(ys[i]) {
          EqualExactly(xs[i], ys[i]);
        }
        var ps, qs := Plain(a).items, Plain(b).items;
        assert forall i :: 0 <= i < |xs| ==> ps[i] == Plain(xs[i]) && qs[i] == Plain(ys[i]);
        assert ps == qs <==> forall i :: 0 <= i < |xs| ==> ps[i] == qs[i];
      } else {
        assert |Plain(a).items| != |Plain(b).items|;
      }
    case (Dict(m), Dict(n)) =>
      var ps, qs := Plain(a).entries, Plain(b).entries;
      assert ps.Keys == m.Keys && qs.Keys == n.Keys;
      if m.Keys == n.Keys {
        forall k | k in m ensures Equal(m[k], n[k]) <==> ps[k] == qs[k] {
          EqualExactly(m[k], n[k]);
        }
        assert ps == qs <==> forall k :: k in m ==> ps[k] == qs[k];
      }
    case _ =>
  }

  /** No boolean and no float occurs in the value. */
  predicate Exact(v: Value) {
    match v
    case Bool(_) => false
    case Float(_) => false
    case List(items) => forall i :: 0 <= i < |items| ==> Exact(items[i])
    case Dict(entries) => forall k :: k in entries ==> Exact(entries[k])
    case _ => true
  }

  /** Without booleans and floats only identical values are equal. */
  lemma {:induction false} ExactValuesEqualExactly(a: Value, b: Value)
    requires Exact(a) && Exact(b)
    ensures Equal(a, b) <==> a == b
  {
    if a == b {
      EqualIsReflexive(a);
    } else {
      match (a, b)
      case (List(xs), List(ys)) =>
        if |xs| == |ys| {
          var i :| 0 <= i < |xs| && xs[i] != ys[i];
          ExactValuesEqualExactly(xs[i], ys[i]);
        }
      case (Dict(m), Dict(n)) =>
        if m.Keys == n.Keys {
          var k :| k in m && m[k] != n[k];
          ExactValuesEqualExactly(m[k], n[k]);
        }
      case _ =>
    }
  }

  // ---------- states ----------

  type Snapshot = map<Text, Value>

  datatype Change = Change(field: Text, previous: Value, current: Value)

  /** `event.previous_state or {}` */
  function OrEmpty(s: Option<Snapshot>): Snapshot {
    s.GetOr(map[])
  }

  /** `state.get(key)` */
  function Get(s: Snapshot, key: Text): Value {
    if key in s then s[key] else Null
  }

  ghost predicate StrictlySorted(keys: seq<Text>) {
    forall i, j :: 0 <= i < j < |keys| ==> Precedes(keys[i], keys[j])
  }

  lemma SortedByLess(keys: seq<Text>)
    ensures StrictlySorted(keys) <==> forall i, j :: 0 <= i < j < |keys| ==> Less(keys[i], keys[j])
  {
    forall i, j | 0 <= i < j < |keys| ensures Precedes(keys[i], keys[j]) <==> Less(keys[i], keys[j]) {
      LessExactly(keys[i], keys[j]);
    }
  }

  // ---------- sorting the key union ----------

  /** Where a key belongs in sorted keys: the number of smaller ones. */
  function Position(keys: seq<Text>, key: Text): (k: nat)
    ensures k <= |keys|
    ensures forall i :: 0 <= i < k ==> Less(keys[i], key)
    ensures k < |keys| ==> !Less(keys[k], key)
  {
    if keys != [] && Less(keys[0], key) then
      var k := 1 + Position(keys[1..], key);
      assert forall i :: 1 <= i < k ==> keys[i] == keys[1..][i - 1];
      k
    else 0
  }

  method SortedKeys(all: set<Text>) returns (keys: seq<Text>)
    ensures StrictlySorted(keys)
    ensures forall k :: k in keys <==> k in all
  {
    keys := [];
    var rest := all;
    while rest != {}
      invariant rest <= all
      invariant StrictlySorted(keys)
      invariant forall k :: k in keys <==> k in all && k !in rest
      decreases |rest|
    {
      var key :| key in rest;
      keys := InsertSorted(keys, key);
      rest := rest - {key};
    }
  }

  method InsertSorted(keys: seq<Text>, key: Text) returns (r: seq<Text>)
    requires StrictlySorted(keys) && key !in keys
    ensures StrictlySorted(r)
    ensures forall k :: k in r <==> k in keys || k == key
  {
    var p := Position(keys, key);
    r := keys[..p] + [key] + keys[p..];
    InsertionKeepsOrder(keys, key, p);
    InsertionAddsKey(keys, key, p);
  }

  lemma InsertionKeepsOrder(keys: seq<Text>, key: Text, p: nat)
    requires StrictlySorted(keys) && key !in keys && p <= |keys|
    requires forall i :: 0 <= i < p ==> Less(keys[i], key)
    requires p < |keys| ==> !Less(keys[p], key)
    ensures StrictlySorted(keys[..p] + [key] + keys[p..])
  {
    SortedByLess(keys);
    var r := keys[..p] + [key] + keys[p..];
    forall j | p <= j < |keys| ensures Less(key, keys[j]) {
      LessIsTotal(keys[p], key);
      if j > p {
        LessIsTransitive(key, keys[p], keys[j]);
      }
    }
    assert forall i :: 0 <= i < p ==> r[i] == keys[i];
    assert forall i :: p < i < |r| ==> r[i] == keys[i - 1];
    SortedByLess(r);
  }

  lemma InsertionAddsKey(keys: seq<Text>, key: Text, p: nat)
    requires p <= |keys|
    ensures forall k :: k in keys[..p] + [key] + keys[p..] <==> k in keys || k == key
  {
    assert keys == keys[..p] + keys[p..];
  }

  // ---------- the diff ----------

  /** The change at a key, whether or not it is one. */
  function ChangeAt(prev: Snapshot, curr: Snapshot, k: Text): Change {
    Change(k, Get(prev, k), Get(curr, k))
  }

  predicate Differs(prev: Snapshot, curr: Snapshot, k: Text) {
    !Equal(Get(prev, k), Get(curr, k))
  }

  ghost predicate SortedByField(changes: seq<Change>) {
    forall i, j :: 0 <= i < j < |changes| ==> Precedes(changes[i].field, changes[j].field)
  }

  /** The changes between two states: one per differing key, in key order. */
  ghost predicate IsDiff(prev: Snapshot, curr: Snapshot, changes: seq<Change>) {
    && SortedByField(changes)
    && (forall c :: c in changes ==> c == ChangeAt(prev, curr, c.field) && Differs(prev, curr, c.field))
    && (forall k :: Differs(prev, curr, k) ==> ChangeAt(prev, curr, k) in changes)
  }

  method ComputeDiff(previous: Option<Snapshot>, current: Option<Snapshot>) returns (changes: seq<Change>)
    ensures IsDiff(OrEmpty(previous), OrEmpty(current), changes)
  {
    var prev, curr := OrEmpty(previous), OrEmpty(current);
    var keys := SortedKeys(prev.Keys + curr.Keys);
    changes := ChangesOver(prev, curr, keys);
    forall k | Differs(prev, curr, k) ensures k in keys {
      EqualIsReflexive(Null);
      assert k in prev.Keys + curr.Keys;
    }
  }

  /** The loop over the sorted key union. */
  method ChangesOver(prev: Snapshot, curr: Snapshot, keys: seq<Text>) returns (changes: seq<Change>)
    requires StrictlySorted(keys)
    ensures SortedByField(changes)
    ensures forall c :: c in changes <==>
      c.field in keys && c == ChangeAt(prev, curr, c.field) && Differs(prev, curr, c.field)
  {
    changes := [];
    var i := 0;
    while i < |keys|
      invariant 0 <= i <= |keys|
      invariant SortedByField(changes)
      invariant forall c :: c in changes <==>
        c.field in keys[..i] && c == ChangeAt(prev, curr, c.field) && Differs(prev, curr, c.field)
    {
      var k := keys[i];
      assert keys[..i + 1] == keys[..i] + [k];
      if Differs(prev, curr, k) {
        forall j | 0 <= j < |changes| ensures Precedes(changes[j].field, k) {
          assert changes[j] in changes;
          var m :| 0 <= m < i && keys[..i][m] == changes[j].field;
          assert keys[m] == changes[j].field;
        }
        changes := changes + [ChangeAt(prev, curr, k)];
      }
      i := i + 1;
    }
    assert keys[..i] == keys;
  }

  // ---------- what a diff is for ----------

  /** The state with each change's current value written in. */
  function Apply(s: Snapshot, changes: seq<Change>): Snapshot {
    if changes == [] then s
    else Apply(s, changes[..|changes| - 1])[changes[|changes| - 1].field := changes[|changes| - 1].current]
  }

  /** The same changes read backwards. */
  function Reversed(changes: seq<Change>): (r: seq<Change>)
    ensures |r| == |changes|
    ensures forall i :: 0 <= i < |r| ==> r[i] == Change(changes[i].field, changes[i].current, changes[i].previous)
  {
    seq(|changes|, i requires 0 <= i < |changes| =>
      Change(changes[i].field, changes[i].current, changes[i].previous))
  }

  /** Two states agree when every key gives equal values, absent and null alike. */
  ghost predicate Agree(a: Snapshot, b: Snapshot) {
    forall k :: Equal(Get(a, k), Get(b, k))
  }

  ghost predicate DistinctFields(changes: seq<Change>) {
    forall i, j :: 0 <= i < j < |changes| ==> changes[i].field != changes[j].field
  }

  lemma LastFieldIsNew(front: seq<Change>, last: Change)
    requires DistinctFields(front + [last])
    ensures DistinctFields(front)
    ensures forall c :: c in front ==> c.field != last.field
  {
    var changes := front + [last];
    assert changes[|front|] == last;
    assert forall i :: 0 <= i < |front| ==> changes[i] == front[i];
  }

  lemma {:induction false} ApplyWrites(s: Snapshot, changes: seq<Change>, k: Text)
    requires DistinctFields(changes)
    ensures (forall c :: c in changes ==> c.field != k) ==> Get(Apply(s, changes), k) == Get(s, k)
    ensures forall c :: c in changes && c.field == k ==> Get(Apply(s, changes), k) == c.current
  {
    if changes != [] {
      var front, last := changes[..|changes| - 1], changes[|changes| - 1];
      assert changes == front + [last];
      LastFieldIsNew(front, last);
      ApplyWrites(s, front, k);
    }
  }

  lemma FieldsAreDistinct(prev: Snapshot, curr: Snapshot, changes: seq<Change>)
    requires IsDiff(prev, curr, changes)
    ensures DistinctFields(changes)
  {}

  /** Applying the diff to the previous state gives the new one. */
  lemma DiffReconstructs(prev: Snapshot, curr: Snapshot, changes: seq<Change>)
    requires IsDiff(prev, curr, changes)
    ensures Agree(Apply(prev, changes), curr)
  {
    FieldsAreDistinct(prev, curr, changes);
    forall k ensures Equal(Get(Apply(prev, changes), k), Get(curr, k)) {
      ApplyWrites(prev, changes, k);
      EqualIsReflexive(Get(curr, k));
      if Differs(prev, curr, k) {
        assert ChangeAt(prev, curr, k) in changes;
      }
    }
  }

  ghost predicate ExactState(s: Snapshot) {
    forall k :: k in s ==> Exact(s[k])
  }

  /** On states without booleans and floats the diff holds exactly the keys whose values
      are not the same, and applying it gives every value of the new state back. */
  lemma ExactStatesReconstruct(prev: Snapshot, curr: Snapshot, changes: seq<Change>)
    requires IsDiff(prev, curr, changes) && ExactState(prev) && ExactState(curr)
    ensures forall k :: Get(Apply(prev, changes), k) == Get(curr, k)
    ensures forall k :: (exists c :: c in changes && c.field == k) <==> Get(prev, k) != Get(curr, k)
  {
    FieldsAreDistinct(prev, curr, changes);
    forall k
      ensures Get(Apply(prev, changes), k) == Get(curr, k)
      ensures (exists c :: c in changes && c.field == k) <==> Get(prev, k) != Get(curr, k)
    {
      ApplyWrites(prev, changes, k);
      ExactValuesEqualExactly(Get(prev, k), Get(curr, k));
      if Differs(prev, curr, k) {
        assert ChangeAt(prev, curr, k) in changes;
      }
    }
  }

  lemma DiffersBothWays(prev: Snapshot, curr: Snapshot, k: Text)
    ensures Differs(prev, curr, k) <==> Differs(curr, prev, k)
  {
    var a, b := Get(prev, k), Get(curr, k);
    if Equal(a, b) {
      EqualIsSymmetric(a, b);
    }
    if Equal(b, a) {
      EqualIsSymmetric(b, a);
    }
  }

  lemma ReversedIsDiff(prev: Snapshot, curr: Snapshot, changes: seq<Change>)
    requires IsDiff(prev, curr, changes)
    ensures IsDiff(curr, prev, Reversed(changes))
  {
    var r := Reversed(changes);
    forall c | c in r ensures c == ChangeAt(curr, prev, c.field) && Differs(curr, prev, c.field) {
      var i :| 0 <= i < |r| && r[i] == c;
      assert changes[i] in changes;
      DiffersBothWays(prev, curr, c.field);
    }
    forall k | Differs(curr, prev, k) ensures ChangeAt(curr, prev, k) in r {
      DiffersBothWays(prev, curr, k);
      var i :| 0 <= i < |changes| && changes[i] == ChangeAt(prev, curr, k);
      assert r[i] == ChangeAt(curr, prev, k);
    }
  }

  /** Read backwards, the diff gives the previous state back. */
  lemma DiffReverts(prev: Snapshot, curr: Snapshot, changes: seq<Change>)
    requires IsDiff(prev, curr, changes)
    ensures Agree(Apply(curr, Reversed(changes)), prev)
  {
    ReversedIsDiff(prev, curr, changes);
    DiffReconstructs(curr, prev, Reversed(changes));
  }

  /** The diff is empty exactly when the states agree. */
  lemma DiffIsEmptyExactly(prev: Snapshot, curr: Snapshot, changes: seq<Change>)
    requires IsDiff(prev, curr, changes)
    ensures changes == [] <==> Agree(prev, curr)
  {
    if changes != [] {
      assert changes[0] in changes;
      assert Differs(prev, curr, changes[0].field);
    } else {
      forall k ensures Equal(Get(prev, k), Get(curr, k)) {
        assert !Differs(prev, curr, k);
      }
    }
  }

  /** A change between `true` and 1, which Python holds equal, is not recorded. */
  lemma BooleanForNumberGoesUnrecorded(field: Text, changes: seq<Change>)
    requires IsDiff(map[field := Bool(true)], map[field := Int(1)], changes)
    ensures changes == []
  {
    var prev, curr: Snapshot := map[field := Bool(true)], map[field := Int(1)];
    forall k ensures Equal(Get(prev, k), Get(curr, k)) {
      EqualIsReflexive(Null);
    }
    DiffIsEmptyExactly(prev, curr, changes);
  }
}
