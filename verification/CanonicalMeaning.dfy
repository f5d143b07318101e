/** What a payload means, and exactly when its canonical rendering tells it apart. */
module CanonicalMeaning {
  import opened Text
  import opened CanonicalJson
  import opened CanonicalRoundTrip

  /** The content of a payload: objects are maps, so insertion order is gone. */
  datatype Content =
    | NullContent
    | BoolContent(b: bool)
    | IntContent(n: int)
    | StrContent(s: Text)
    | ArrContent(items: seq<Content>)
    | ObjContent(fields: map<Text, Content>)

  ghost function Meaning(v: Json): Content {
    match v
    case Null => NullContent
    case Bool(b) => BoolContent(b)
    case Int(n) => IntContent(n)
    case Str(s) => StrContent(s)
    case Arr(items) => ArrContent(MeaningItems(items))
    case Obj(fields) => ObjContent(MeaningFields(fields))
  }

  ghost function MeaningItems(items: List<Json>): seq<Content> {
    match items
    case Nil => []
    case Cons(x, rest) => [Meaning(x)] + MeaningItems(rest)
  }

  ghost function MeaningFields(fields: List<Field>): (m: map<Text, Content>)
    ensures m.Keys == Keys(fields)
  {
    match fields
    case Nil => map[]
    case Cons(f, rest) => MeaningFields(rest)[f.key := Meaning(f.val)]
  }

  ghost function Keys(fields: List<Field>): set<Text> {
    match fields
    case Nil => {}
    case Cons(f, rest) => {f.key} + Keys(rest)
  }

  /** A Python dictionary holds each key once, at every level. */
  ghost predicate DistinctKeys(v: Json) {
    match v
    case Arr(items) => DistinctKeysItems(items)
    case Obj(fields) => DistinctKeysFields(fields)
    case _ => true
  }

  ghost predicate DistinctKeysItems(items: List<Json>) {
    match items
    case Nil => true
    case Cons(x, rest) => DistinctKeys(x) && DistinctKeysItems(rest)
  }

  ghost predicate DistinctKeysFields(fields: List<Field>) {
    match fields
    case Nil => true
    case Cons(f, rest) => f.key !in Keys(rest) && DistinctKeys(f.val) && DistinctKeysFields(rest)
  }

  /** No string or key, at any level, has a high surrogate just before a low one. */
  predicate Clean(v: Json) {
    match v
    case Str(s) => NoSplitPair(s)
    case Arr(items) => CleanItems(items)
    case Obj(fields) => CleanFields(fields)
    case _ => true
  }

  predicate CleanItems(items: List<Json>) {
    match items
    case Nil => true
    case Cons(x, rest) => Clean(x) && CleanItems(rest)
  }

  predicate CleanFields(fields: List<Field>) {
    match fields
    case Nil => true
    case Cons(f, rest) => NoSplitPair(f.key) && Clean(f.val) && CleanFields(rest)
  }

  predicate NoSplitPair(s: Text) {
    forall i :: 0 <= i < |s| - 1 ==> !SplitAt(s, i)
  }

  predicate SplitAt(s: Text, i: nat)
    requires i < |s| - 1
  {
    IsHigh(s[i]) && IsLow(s[i + 1])
  }

  // ---------- surrogate pairs ----------

  lemma {:induction false} UnitsSurvive(us: seq<Unit>)
    ensures Utf16(Join(us)) == us
  {
    if us != [] {
      if |us| >= 2 && IsHigh(us[0]) && IsLow(us[1]) {
        UnitsSurvive(us[2..]);
        assert us == [us[0], us[1]] + us[2..];
      } else {
        UnitsSurvive(us[1..]);
        assert us == [us[0]] + us[1..];
      }
      assert Join(us)[1..] == Join(if |us| >= 2 && IsHigh(us[0]) && IsLow(us[1]) then us[2..] else us[1..]);
    }
  }

  /** The units of a string begin with those of its first code point. */
  lemma FirstUnits(s: Text)
    requires s != []
    ensures Utf16(s) == UnitsOf(s[0]) + Utf16(s[1..])
    ensures Utf16(s) != [] && Utf16(s)[0] == UnitsOf(s[0])[0]
  {}

  function PairValue(high: Unit, low: Unit): CodePoint
    requires IsHigh(high) && IsLow(low)
  {
    0x10000 + (high - 0xD800) * 0x400 + (low - 0xDC00)
  }

  lemma PairNamesCodePoint(c: CodePoint)
    requires c >= 0x10000
    ensures var us := UnitsOf(c); IsHigh(us[0]) && IsLow(us[1]) && PairValue(us[0], us[1]) == c
  {
    var d := c - 0x10000;
    assert d == d / 0x400 * 0x400 + d % 0x400;
  }

  lemma JoinConsumesPair(high: Unit, low: Unit, rest: seq<Unit>)
    requires IsHigh(high) && IsLow(low)
    ensures Join([high, low] + rest) == [PairValue(high, low)] + Join(rest)
  {
    assert ([high, low] + rest)[2..] == rest;
  }

  lemma JoinConsumesUnit(u: Unit, rest: seq<Unit>)
    requires !(IsHigh(u) && rest != [] && IsLow(rest[0]))
    ensures Join([u] + rest) == [u] + Join(rest)
  {
    assert ([u] + rest)[1..] == rest;
  }

  /** Joining a split pair reads two code points as one. */
  lemma JoinReadsSplitPair(s: Text)
    requires |s| >= 2 && SplitAt(s, 0)
    ensures |Join(Utf16(s))| == 1 + |Join(Utf16(s[2..]))|
  {
    var rest := Utf16(s[2..]);
    FirstUnits(s);
    FirstUnits(s[1..]);
    assert s[1..][1..] == s[2..];
    assert Utf16(s) == [s[0]] + ([s[1]] + rest);
    assert [s[0]] + ([s[1]] + rest) == [s[0], s[1]] + rest;
    JoinConsumesPair(s[0], s[1], rest);
  }

  /** Anything else it reads one code point at a time. */
  lemma {:induction false} JoinReadsCodePoint(s: Text)
    requires s != [] && !(|s| >= 2 && SplitAt(s, 0))
    ensures Join(Utf16(s)) == [s[0]] + Join(Utf16(s[1..]))
  {
    var rest := s[1..];
    FirstUnits(s);
    if s[0] >= 0x10000 {
      PairNamesCodePoint(s[0]);
      JoinConsumesPair(UnitsOf(s[0])[0], UnitsOf(s[0])[1], Utf16(rest));
    } else {
      if rest != [] {
        FirstUnits(rest);
      }
      JoinConsumesUnit(s[0], Utf16(rest));
    }
  }

  lemma {:induction false} UnsplitSurvives(s: Text)
    requires NoSplitPair(s)
    ensures Join(Utf16(s)) == s
  {
    if s != [] {
      var rest := s[1..];
      assert forall i :: 0 <= i < |rest| - 1 ==> SplitAt(rest, i) == SplitAt(s, i + 1);
      UnsplitSurvives(rest);
      JoinReadsCodePoint(s);
      assert s == [s[0]] + rest;
    }
  }

  lemma {:induction false} SplitShrinks(s: Text)
    ensures |Join(Utf16(s))| <= |s|
    ensures !NoSplitPair(s) ==> |Join(Utf16(s))| < |s|
    decreases |s|
  {
    if s != [] {
      if |s| >= 2 && SplitAt(s, 0) {
        JoinReadsSplitPair(s);
        SplitShrinks(s[2..]);
      } else {
        var rest := s[1..];
        JoinReadsCodePoint(s);
        SplitShrinks(rest);
        if !NoSplitPair(s) {
          var i: nat :| i < |s| - 1 && SplitAt(s, i);
          assert SplitAt(rest, i - 1);
        }
      }
    }
  }

  lemma {:induction false} CleanExactly(v: Json)
    ensures Rejoin(v) == v <==> Clean(v)
    decreases v
  {
    match v
    case Str(s) => CleanText(s);
    case Arr(items) => CleanItemsExactly(items);
    case Obj(fields) => CleanFieldsExactly(fields);
    case _ =>
  }

  lemma CleanText(s: Text)
    ensures Join(Utf16(s)) == s <==> NoSplitPair(s)
  {
    if NoSplitPair(s) {
      UnsplitSurvives(s);
    } else {
      SplitShrinks(s);
    }
  }

  lemma {:induction false} CleanItemsExactly(items: List<Json>)
    ensures RejoinItems(items) == items <==> CleanItems(items)
    decreases items
  {
    match items
    case Nil =>
    case Cons(x, rest) =>
      CleanExactly(x);
      CleanItemsExactly(rest);
  }

  lemma {:induction false} CleanFieldsExactly(fields: List<Field>)
    ensures RejoinFields(fields) == fields <==> CleanFields(fields)
    decreases fields
  {
    match fields
    case Nil =>
    case Cons(f, rest) =>
      CleanText(f.key);
      CleanExactly(f.val);
      CleanFieldsExactly(rest);
  }

  // ---------- joining does not change the rendering ----------

  lemma {:induction false} RejoinPrintsAlike(v: Json)
    ensures Print(Rejoin(v)) == Print(v)
    decreases v
  {
    match v
    case Str(s) => UnitsSurvive(Utf16(s));
    case Arr(items) => RejoinItemsPrintAlike(items);
    case Obj(fields) => RejoinFieldsPrintAlike(fields);
    case _ =>
  }

  lemma {:induction false} RejoinItemsPrintAlike(items: List<Json>)
    ensures PrintItems(RejoinItems(items)) == PrintItems(items)
    decreases items
  {
    match items
    case Nil =>
    case Cons(x, rest) =>
      RejoinPrintsAlike(x);
      RejoinItemsPrintAlike(rest);
  }

  lemma {:induction false} RejoinFieldsPrintAlike(fields: List<Field>)
    ensures PrintFields(RejoinFields(fields)) == PrintFields(fields)
    decreases fields
  {
    match fields
    case Nil =>
    case Cons(f, rest) =>
      UnitsSurvive(Utf16(f.key));
      RejoinPrintsAlike(f.val);
      RejoinFieldsPrintAlike(rest);
  }

  // ---------- sorting keys keeps the meaning and makes it unique ----------

  ghost predicate InOrder(v: Json) {
    match v
    case Arr(items) => InOrderItems(items)
    case Obj(fields) => InOrderFields(fields)
    case _ => true
  }

  ghost predicate InOrderItems(items: List<Json>) {
    match items
    case Nil => true
    case Cons(x, rest) => InOrder(x) && InOrderItems(rest)
  }

  ghost predicate InOrderFields(fields: List<Field>) {
    match fields
    case Nil => true
    case Cons(f, rest) =>
      InOrder(f.val) && InOrderFields(rest) && (rest.Cons? ==> Precedes(f.key, rest.head.key))
  }

  lemma {:induction false} InsertFits(f: Field, fs: List<Field>)
    requires InOrderFields(fs) && InOrder(f.val) && f.key !in Keys(fs)
    ensures InOrderFields(Insert(f, fs))
    ensures Insert(f, fs).Cons?
    ensures Insert(f, fs).head == f || (fs.Cons? && Insert(f, fs).head == fs.head)
  {
    match fs
    case Nil =>
    case Cons(g, rest) =>
      LessIsTotal(g.key, f.key);
      LessExactly(g.key, f.key);
      LessExactly(f.key, g.key);
      if Less(g.key, f.key) {
        InsertFits(f, rest);
      }
  }

  lemma {:induction false} InsertMeans(f: Field, fs: List<Field>)
    requires f.key !in Keys(fs)
    ensures MeaningFields(Insert(f, fs)) == MeaningFields(fs)[f.key := Meaning(f.val)]
  {
    match fs
    case Nil =>
    case Cons(g, rest) =>
      if Less(g.key, f.key) {
        InsertMeans(f, rest);
      }
  }

  lemma {:induction false} InsertKeepsClean(f: Field, fs: List<Field>)
    ensures CleanFields(Insert(f, fs)) <==> NoSplitPair(f.key) && Clean(f.val) && CleanFields(fs)
  {
    match fs
    case Nil =>
    case Cons(g, rest) => InsertKeepsClean(f, rest);
  }

  lemma {:induction false} SortSorts(v: Json)
    requires DistinctKeys(v)
    ensures InOrder(SortKeys(v)) && Meaning(SortKeys(v)) == Meaning(v)
    ensures Clean(SortKeys(v)) <==> Clean(v)
    decreases v
  {
    match v
    case Arr(items) => SortSortsItems(items);
    case Obj(fields) => SortSortsFields(fields);
    case _ =>
  }

  lemma {:induction false} SortSortsItems(items: List<Json>)
    requires DistinctKeysItems(items)
    ensures InOrderItems(SortItems(items)) && MeaningItems(SortItems(items)) == MeaningItems(items)
    ensures CleanItems(SortItems(items)) <==> CleanItems(items)
    decreases items
  {
    match items
    case Nil =>
    case Cons(x, rest) =>
      SortSorts(x);
      SortSortsItems(rest);
  }

  lemma {:induction false} SortSortsFields(fields: List<Field>)
    requires DistinctKeysFields(fields)
    ensures InOrderFields(SortFields(fields)) && MeaningFields(SortFields(fields)) == MeaningFields(fields)
    ensures CleanFields(SortFields(fields)) <==> CleanFields(fields)
    decreases fields
  {
    match fields
    case Nil =>
    case Cons(f, rest) =>
      SortSorts(f.val);
      SortSortsFields(rest);
      assert Keys(SortFields(rest)) == MeaningFields(SortFields(rest)).Keys;
      InsertFits(Field(f.key, SortKeys(f.val)), SortFields(rest));
      InsertMeans(Field(f.key, SortKeys(f.val)), SortFields(rest));
      InsertKeepsClean(Field(f.key, SortKeys(f.val)), SortFields(rest));
  }

  lemma {:induction false} HeadIsLeast(f: Field, rest: List<Field>, k: Text)
    requires InOrderFields(Cons(f, rest)) && k in Keys(rest)
    ensures Less(f.key, k)
    decreases rest
  {
    LessExactly(f.key, rest.head.key);
    if k != rest.head.key {
      HeadIsLeast(rest.head, rest.tail, k);
      LessIsTransitive(f.key, rest.head.key, k);
    }
  }

  lemma {:induction false} HeadsAgree(f: Field, fs: List<Field>, g: Field, gs: List<Field>)
    requires InOrderFields(Cons(f, fs)) && InOrderFields(Cons(g, gs))
    requires Keys(Cons(f, fs)) == Keys(Cons(g, gs))
    ensures f.key == g.key
    ensures f.key !in Keys(fs) && g.key !in Keys(gs)
  {
    LessIsIrreflexive(f.key);
    LessIsIrreflexive(g.key);
    if f.key in Keys(fs) {
      HeadIsLeast(f, fs, f.key);
    }
    if g.key in Keys(gs) {
      HeadIsLeast(g, gs, g.key);
    }
    if f.key != g.key {
      assert f.key in Keys(Cons(g, gs)) && g.key in Keys(Cons(f, fs));
      HeadIsLeast(f, fs, g.key);
      HeadIsLeast(g, gs, f.key);
      LessIsTransitive(f.key, g.key, f.key);
    }
  }

  /** Payloads in key order with the same meaning are the same payload. */
  lemma {:induction false} OrderIsUnique(v: Json, w: Json)
    requires InOrder(v) && InOrder(w) && Meaning(v) == Meaning(w)
    ensures v == w
    decreases v
  {
    match v
    case Arr(items) => OrderIsUniqueItems(items, w.items);
    case Obj(fields) => OrderIsUniqueFields(fields, w.fields);
    case _ =>
  }

  lemma {:induction false} OrderIsUniqueItems(xs: List<Json>, ys: List<Json>)
    requires InOrderItems(xs) && InOrderItems(ys) && MeaningItems(xs) == MeaningItems(ys)
    ensures xs == ys
    decreases xs
  {
    if xs.Cons? && ys.Cons? {
      assert MeaningItems(xs)[0] == Meaning(xs.head) && MeaningItems(ys)[0] == Meaning(ys.head);
      assert MeaningItems(xs)[1..] == MeaningItems(xs.tail) && MeaningItems(ys)[1..] == MeaningItems(ys.tail);
      OrderIsUnique(xs.head, ys.head);
      OrderIsUniqueItems(xs.tail, ys.tail);
    }
  }

  lemma {:induction false} OrderIsUniqueFields(fs: List<Field>, gs: List<Field>)
    requires InOrderFields(fs) && InOrderFields(gs) && MeaningFields(fs) == MeaningFields(gs)
    ensures fs == gs
    decreases fs
  {
    if fs.Nil? || gs.Nil? {
      assert MeaningFields(fs).Keys == {};
    } else {
      var f, g := fs.head, gs.head;
      assert MeaningFields(fs).Keys == MeaningFields(gs).Keys;
      HeadsAgree(f, fs.tail, g, gs.tail);
      assert MeaningFields(fs)[f.key] == MeaningFields(gs)[f.key];
      OrderIsUnique(f.val, g.val);
      assert MeaningFields(fs.tail) == MeaningFields(fs) - {f.key};
      assert MeaningFields(gs.tail) == MeaningFields(gs) - {f.key};
      OrderIsUniqueFields(fs.tail, gs.tail);
    }
  }

  // ---------- main results ----------

  /** The rendering parses back to the payload exactly when no string in it is split. */
  lemma RoundTripExactly(v: Json)
    requires DistinctKeys(v)
    ensures Read(Canonical(v)) == Some(SortKeys(v)) <==> Clean(v)
  {
    CanonicalReads(v);
    CleanExactly(SortKeys(v));
    SortSorts(v);
  }

  /** Any two payloads render alike exactly when a reader sees the same thing in both. */
  lemma SameRenderingExactly(v: Json, w: Json)
    ensures Canonical(v) == Canonical(w) <==> Rejoin(SortKeys(v)) == Rejoin(SortKeys(w))
  {
    CanonicalReads(v);
    CanonicalReads(w);
    RejoinPrintsAlike(SortKeys(v));
    RejoinPrintsAlike(SortKeys(w));
  }

  /** Equal content renders alike, whatever the insertion order of keys. */
  lemma EqualContentRendersAlike(v: Json, w: Json)
    requires DistinctKeys(v) && DistinctKeys(w) && Meaning(v) == Meaning(w)
    ensures Canonical(v) == Canonical(w)
  {
    SortSorts(v);
    SortSorts(w);
    OrderIsUnique(SortKeys(v), SortKeys(w));
  }

  /** Without split surrogate pairs the rendering identifies the content. */
  lemma RenderingDecidesContent(v: Json, w: Json)
    requires DistinctKeys(v) && DistinctKeys(w) && Clean(v) && Clean(w)
    ensures Canonical(v) == Canonical(w) <==> Meaning(v) == Meaning(w)
  {
    if Canonical(v) == Canonical(w) {
      SortSorts(v);
      SortSorts(w);
      RoundTripExactly(v);
      RoundTripExactly(w);
    } else if Meaning(v) == Meaning(w) {
      EqualContentRendersAlike(v, w);
    }
  }

  // ---------- payloads read from JSON ----------

  /** A string that a JSON reader can return: the join of the UTF-16 units its literal
      spells, whether as characters or as escapes. */
  ghost predicate IsRead(s: Text) {
    exists us :: Join(us) == s
  }

  /** Every string and key of the value was read from JSON. */
  ghost predicate FromJson(v: Json) {
    match v
    case Str(s) => IsRead(s)
    case Arr(items) => FromJsonItems(items)
    case Obj(fields) => FromJsonFields(fields)
    case _ => true
  }

  ghost predicate FromJsonItems(items: List<Json>) {
    match items
    case Nil => true
    case Cons(x, rest) => FromJson(x) && FromJsonItems(rest)
  }

  ghost predicate FromJsonFields(fields: List<Field>) {
    match fields
    case Nil => true
    case Cons(f, rest) => IsRead(f.key) && FromJson(f.val) && FromJsonFields(rest)
  }

  lemma {:induction false} JoinLeavesNoPair(us: seq<Unit>)
    ensures NoSplitPair(Join(us))
    decreases |us|
  {
    if us != [] {
      var s := Join(us);
      var paired := |us| >= 2 && IsHigh(us[0]) && IsLow(us[1]);
      var rest := if paired then us[2..] else us[1..];
      JoinLeavesNoPair(rest);
      assert s[1..] == Join(rest);
      assert IsHigh(s[0]) && |us| >= 2 ==> !IsLow(us[1]);
      if |s| >= 2 {
        JoinStartsLow(rest);
      }
      assert forall i :: 1 <= i < |s| - 1 ==> SplitAt(s, i) == SplitAt(s[1..], i - 1);
    }
  }

  lemma JoinStartsLow(us: seq<Unit>)
    requires us != []
    ensures Join(us) != [] && (IsLow(Join(us)[0]) ==> IsLow(us[0]))
  {}

  /** The strings a JSON reader can return are exactly those without a split pair. */
  lemma ReadTextsExactly(s: Text)
    ensures IsRead(s) <==> NoSplitPair(s)
  {
    if us :| Join(us) == s {
      JoinLeavesNoPair(us);
    }
    if NoSplitPair(s) {
      UnsplitSurvives(s);
    }
  }

  lemma {:induction false} FromJsonIsClean(v: Json)
    ensures FromJson(v) <==> Clean(v)
  {
    match v
    case Str(s) => ReadTextsExactly(s);
    case Arr(items) => FromJsonItemsAreClean(items);
    case Obj(fields) => FromJsonFieldsAreClean(fields);
    case _ =>
  }

  lemma {:induction false} FromJsonItemsAreClean(items: List<Json>)
    ensures FromJsonItems(items) <==> CleanItems(items)
  {
    match items
    case Nil =>
    case Cons(x, rest) =>
      FromJsonIsClean(x);
      FromJsonItemsAreClean(rest);
  }

  lemma {:induction false} FromJsonFieldsAreClean(fields: List<Field>)
    ensures FromJsonFields(fields) <==> CleanFields(fields)
  {
    match fields
    case Nil =>
    case Cons(f, rest) =>
      ReadTextsExactly(f.key);
      FromJsonIsClean(f.val);
      FromJsonFieldsAreClean(rest);
  }

  /** Whatever text a reader accepts, the value it returns holds no split pair. */
  lemma {:induction false} ReaderReturnsClean(s: string)
    ensures ReadValue(s).Some? ==> FromJson(ReadValue(s).value.0)
    decreases |s|, 0
  {
    if "null" <= s || "true" <= s || "false" <= s || "[]" <= s || "{}" <= s {
    } else if "\"" <= s {
      StringsAreRead(s);
    } else if "[" <= s {
      ItemsReturnClean(s[1..]);
    } else if "{" <= s {
      FieldsReturnClean(s[1..]);
    }
  }

  lemma StringsAreRead(s: string)
    ensures ReadString(s).Some? ==> IsRead(ReadString(s).value.0)
  {
    if s != [] && s[0] == '"' && ReadUnits(s[1..]).Some? {
      assert ReadString(s).value.0 == Join(ReadUnits(s[1..]).value.0);
    }
  }

  lemma {:induction false} ItemsReturnClean(s: string)
    ensures ReadItems(s).Some? ==> FromJsonItems(ReadItems(s).value.0)
    decreases |s|, 1
  {
    ReaderReturnsClean(s);
    if ReadValue(s).Some? {
      var rest := ReadValue(s).value.1;
      if !("]" <= rest) && "," <= rest {
        ItemsReturnClean(rest[1..]);
      }
    }
  }

  lemma {:induction false} FieldsReturnClean(s: string)
    ensures ReadFields(s).Some? ==> FromJsonFields(ReadFields(s).value.0)
    decreases |s|, 1
  {
    StringsAreRead(s);
    if ReadString(s).Some? {
      var afterKey := ReadString(s).value.1;
      if ":" <= afterKey {
        ReaderReturnsClean(afterKey[1..]);
        if ReadValue(afterKey[1..]).Some? {
          var rest := ReadValue(afterKey[1..]).value.1;
          if !("}" <= rest) && "," <= rest {
            FieldsReturnClean(rest[1..]);
          }
        }
      }
    }
  }

  /** For any two payloads read from JSON the rendering identifies the content. */
  lemma JsonRenderingDecidesContent(v: Json, w: Json)
    requires DistinctKeys(v) && DistinctKeys(w) && FromJson(v) && FromJson(w)
    ensures Canonical(v) == Canonical(w) <==> Meaning(v) == Meaning(w)
  {
    FromJsonIsClean(v);
    FromJsonIsClean(w);
    RenderingDecidesContent(v, w);
  }

  /** A split pair and the code point it encodes are different strings rendered alike. */
  lemma SplitPairCollides(v: Json, w: Json)
    requires v == Str([0xD83D, 0xDE00]) && w == Str([0x1F600])
    ensures Meaning(v) != Meaning(w) && Canonical(v) == Canonical(w)
    ensures !Clean(v) && Clean(w)
  {
    assert SplitAt(v.s, 0);
    assert Utf16([0x1F600][1..]) == [] && Utf16([0xDE00]) == [0xDE00];
    assert v.s[1..] == [0xDE00];
    assert Utf16(v.s) == [0xD83D] + [0xDE00];
    assert Utf16(w.s) == [0xD83D, 0xDE00];
  }
}
