/** Canonical JSON can be read back, so it renders equal content, and only equal
    content, alike. */
module CanonicalRoundTrip {
  import opened Text
  import opened CanonicalJson

  /** What a reader makes of a payload's strings: split surrogate pairs are joined. */
  function Rejoin(v: Json): Json {
    match v
    case Str(s) => Str(Join(Utf16(s)))
    case Arr(items) => Arr(RejoinItems(items))
    case Obj(fields) => Obj(RejoinFields(fields))
    case _ => v
  }

  function RejoinItems(items: List<Json>): List<Json> {
    match items
    case Nil => Nil
    case Cons(x, rest) => Cons(Rejoin(x), RejoinItems(rest))
  }

  function RejoinFields(fields: List<Field>): List<Field> {
    match fields
    case Nil => Nil
    case Cons(f, rest) => Cons(Field(Join(Utf16(f.key)), Rejoin(f.val)), RejoinFields(rest))
  }

  // ---------- strings and numerals ----------

  lemma HexDigitReads(d: nat)
    requires d < 16
    ensures HexValue(HexDigit(d)) == Some(d)
  {}

  lemma HexDigitsAddUp(u: Unit)
    ensures u / 0x1000 * 0x1000 + u / 0x100 % 16 * 0x100 + u / 16 % 16 * 16 + u % 16 == u
  {
    var a, b := u / 16, u / 0x100;
    assert u == 16 * a + u % 16;
    assert b == a / 16 && a == 16 * b + a % 16;
    assert u / 0x1000 == b / 16 && b == 16 * (u / 0x1000) + b % 16;
  }

  lemma FourDigitsRead(s: string, a: nat, b: nat, c: nat, d: nat)
    requires a < 16 && b < 16 && c < 16 && d < 16
    requires |s| >= 6 && s[0] == '\\' && s[1] == 'u'
    requires s[2] == HexDigit(a) && s[3] == HexDigit(b) && s[4] == HexDigit(c) && s[5] == HexDigit(d)
    ensures ReadUnit(s) == Some((a * 0x1000 + b * 0x100 + c * 16 + d, s[6..]))
  {
    HexDigitReads(a);
    HexDigitReads(b);
    HexDigitReads(c);
    HexDigitReads(d);
  }

  lemma HexEscapeReads(u: Unit, s: string)
    requires |s| >= 6 && s[0] == '\\' && s[1] == 'u'
    requires s[2] == HexDigit(u / 0x1000) && s[3] == HexDigit(u / 0x100 % 16)
    requires s[4] == HexDigit(u / 16 % 16) && s[5] == HexDigit(u % 16)
    ensures ReadUnit(s) == Some((u, s[6..]))
  {
    HexDigitsAddUp(u);
    FourDigitsRead(s, u / 0x1000, u / 0x100 % 16, u / 16 % 16, u % 16);
  }

  lemma UnitReads(u: Unit, rest: string)
    ensures ReadUnit(EscapeUnit(u) + rest) == Some((u, rest))
  {
    var e := EscapeUnit(u);
    var s := e + rest;
    assert s[|e|..] == rest;
    if Printable(u) {
      assert s[0] == u as char;
    } else if |e| == 2 {
      assert s[0] == '\\' && s[1] == e[1];
    } else {
      assert forall i :: 0 <= i < 6 ==> s[i] == e[i];
      HexEscapeReads(u, s);
    }
  }

  /** No other text the reader takes for a unit is as short as the one written for it. */
  lemma ShortestIsWritten(s: string, u: Unit)
    requires ReadUnit(s) == Some((u, ""))
    ensures |EscapeUnit(u)| < |s| || s == EscapeUnit(u)
  {
    if |s| == 6 {
      assert |EscapeUnit(u)| < 6 || s == EscapeUnit(u) by {
        if !Printable(u) && u != 0x22 && u != 0x5C && u != 0x0A && u != 0x0D && u != 0x09 && u != 0x0C && u != 0x08 {
          SixCharacters(s, u);
        }
      }
    } else if |s| == 1 {
      assert s == [s[0]];
    } else if |s| == 2 {
      assert s == [s[0], s[1]];
    }
  }

  lemma SixCharacters(s: string, u: Unit)
    requires |s| == 6 && s[0] == '\\' && s[1] == 'u' && ReadUnit(s) == Some((u, ""))
    ensures s == ['\\', 'u', HexDigit(u / 0x1000), HexDigit(u / 0x100 % 16), HexDigit(u / 16 % 16), HexDigit(u % 16)]
  {
    var a, b, c, d := HexValue(s[2]).value, HexValue(s[3]).value, HexValue(s[4]).value, HexValue(s[5]).value;
    HexDigitIsWritten(s[2]);
    HexDigitIsWritten(s[3]);
    HexDigitIsWritten(s[4]);
    HexDigitIsWritten(s[5]);
    DigitsOfUnit(a, b, c, d, u);
    assert s == [s[0], s[1], s[2], s[3], s[4], s[5]];
  }

  lemma HexDigitIsWritten(c: char)
    requires HexValue(c).Some?
    ensures HexValue(c).value < 16 && HexDigit(HexValue(c).value) == c
  {}

  lemma DigitsOfUnit(a: nat, b: nat, c: nat, d: nat, u: nat)
    requires a < 16 && b < 16 && c < 16 && d < 16 && u == a * 0x1000 + b * 0x100 + c * 16 + d
    ensures u / 0x1000 == a && u / 0x100 % 16 == b && u / 16 % 16 == c && u % 16 == d
  {
    assert u / 0x100 == a * 16 + b;
    assert u / 16 == a * 0x100 + b * 16 + c;
  }

  lemma {:induction false} UnitsRead(us: seq<Unit>, rest: string)
    ensures ReadUnits(EscapeUnits(us) + "\"" + rest) == Some((us, rest))
  {
    var s := EscapeUnits(us) + "\"" + rest;
    if us == [] {
      assert s[1..] == rest;
    } else {
      var after := EscapeUnits(us[1..]) + "\"" + rest;
      assert s == EscapeUnit(us[0]) + after;
      UnitReads(us[0], after);
      UnitsRead(us[1..], rest);
      assert [us[0]] + us[1..] == us;
    }
  }

  lemma StringReads(t: Text, rest: string)
    ensures ReadString(Quote(t) + rest) == Some((Join(Utf16(t)), rest))
  {
    var s := Quote(t) + rest;
    assert s[1..] == EscapeUnits(Utf16(t)) + "\"" + rest;
    UnitsRead(Utf16(t), rest);
  }

  lemma NumeralReads(m: nat, rest: string)
    requires rest == [] || !IsDigit(rest[0])
    ensures var t := Decimal(m) + rest;
      var k := DigitRun(t);
      k == |Decimal(m)| && NumeralValue(t[..k]) == m && t[k..] == rest
  {
    DigitRunStops(Decimal(m), rest);
    DecimalReadsBack(m);
    var t := Decimal(m) + rest;
    assert t[..|Decimal(m)|] == Decimal(m) && t[|Decimal(m)|..] == rest;
  }

  lemma SignedNumeralReads(s: string, t: string, m: int, rest: string)
    requires s != "" && t == (if s[0] == '-' then s[1..] else s)
    requires var k := DigitRun(t); k > 0 && NumeralValue(t[..k]) == m && t[k..] == rest
    ensures ReadInt(s) == Some((if s[0] == '-' then -m else m, rest))
  {}

  lemma IntReads(n: int, rest: string)
    requires rest == [] || !IsDigit(rest[0])
    ensures ReadInt(DecimalInt(n) + rest) == Some((n, rest))
  {
    var m: nat := if n < 0 then -n else n;
    var t := Decimal(m) + rest;
    NumeralReads(m, rest);
    if n < 0 {
      assert ("-" + Decimal(m) + rest)[1..] == t;
      SignedNumeralReads("-" + Decimal(m) + rest, t, m, rest);
    } else {
      assert IsDigit(t[0]) && !IsDigit('-');
      SignedNumeralReads(t, t, m, rest);
    }
  }

  // ---------- values ----------

  predicate Ends(rest: string) {
    rest == [] || !IsDigit(rest[0])
  }

  lemma FirstCharacter(v: Json)
    ensures Print(v) != [] && Print(v)[0] !in "]},:"
  {
    if v.Int? {
      assert Print(v)[0] == '-' || IsDigit(Print(v)[0]);
    }
  }

  lemma {:induction false} ValueReads(v: Json, rest: string)
    requires Ends(rest)
    ensures ReadValue(Print(v) + rest) == Some((Rejoin(v), rest))
    decreases v
  {
    var s := Print(v) + rest;
    match v
    case Null => assert s[4..] == rest;
    case Bool(b) =>
      if b {
        assert s[0] == 't';
        assert s[4..] == rest;
      } else {
        assert s[0] == 'f';
        assert s[5..] == rest;
      }
    case Int(n) =>
      IntReads(n, rest);
      assert s[0] == '-' || IsDigit(s[0]);
    case Str(t) =>
      StringReads(t, rest);
      assert s[0] == '"';
    case Arr(items) => ArrayReads(items, rest);
    case Obj(fields) => ObjectReads(fields, rest);
  }

  lemma {:induction false} ArrayReads(items: List<Json>, rest: string)
    ensures ReadValue("[" + PrintItems(items) + "]" + rest) == Some((Arr(RejoinItems(items)), rest))
    decreases items, 1
  {
    var s := "[" + PrintItems(items) + "]" + rest;
    assert s[0] == '[';
    if items.Nil? {
      assert s[..2] == "[]" && s[2..] == rest;
    } else {
      FirstCharacter(items.head);
      assert s[1] == PrintItems(items)[0] == Print(items.head)[0];
      assert s[1..] == PrintItems(items) + "]" + rest;
      ItemsRead(items, rest);
    }
  }

  lemma {:induction false} ItemsRead(items: List<Json>, rest: string)
    requires items.Cons?
    ensures ReadItems(PrintItems(items) + "]" + rest) == Some((RejoinItems(items), rest))
    decreases items, 0
  {
    var s := PrintItems(items) + "]" + rest;
    match items.tail
    case Nil =>
      var after := "]" + rest;
      assert s == Print(items.head) + after;
      ValueReads(items.head, after);
      assert after[1..] == rest;
    case Cons(_, _) =>
      var more := PrintItems(items.tail) + "]" + rest;
      var after := "," + more;
      assert s == Print(items.head) + after;
      ValueReads(items.head, after);
      assert after[0] == ',' && after[1..] == more;
      ItemsRead(items.tail, rest);
  }

  lemma BracedReads(s: string, fields: List<Field>, rest: string)
    requires |s| >= 2 && s[0] == '{' && s[1] == '"'
    requires ReadFields(s[1..]) == Some((fields, rest))
    ensures ReadValue(s) == Some((Obj(fields), rest))
  {}

  lemma {:induction false} ObjectReads(fields: List<Field>, rest: string)
    ensures ReadValue("{" + PrintFields(fields) + "}" + rest) == Some((Obj(RejoinFields(fields)), rest))
    decreases fields, 1
  {
    var s := "{" + PrintFields(fields) + "}" + rest;
    if fields.Nil? {
      assert s[0] == '{' && s[..2] == "{}" && s[2..] == rest;
    } else {
      assert PrintFields(fields)[0] == '"';
      assert s[1..] == PrintFields(fields) + "}" + rest;
      FieldsRead(fields, rest);
      BracedReads(s, RejoinFields(fields), rest);
    }
  }

  lemma {:induction false} FieldsRead(fields: List<Field>, rest: string)
    requires fields.Cons?
    ensures ReadFields(PrintFields(fields) + "}" + rest) == Some((RejoinFields(fields), rest))
    decreases fields, 0
  {
    var f, tail := fields.head, fields.tail;
    if tail.Nil? {
      LastFieldText(f, rest);
      LastFieldReads(f, rest);
    } else {
      EarlierFieldText(f, tail, rest);
      FieldsRead(tail, rest);
      EarlierFieldReads(f, PrintFields(tail) + "}" + rest, RejoinFields(tail), rest);
    }
  }

  lemma LastFieldText(f: Field, rest: string)
    ensures PrintFields(Cons(f, Nil)) + "}" + rest == Quote(f.key) + (":" + (Print(f.val) + ("}" + rest)))
  {}

  lemma EarlierFieldText(f: Field, tail: List<Field>, rest: string)
    requires tail.Cons?
    ensures PrintFields(Cons(f, tail)) + "}" + rest
         == Quote(f.key) + (":" + (Print(f.val) + ("," + (PrintFields(tail) + "}" + rest))))
  {
    var q, p, t := Quote(f.key), Print(f.val), PrintFields(tail);
    assert PrintFields(Cons(f, tail)) == q + ":" + p + "," + t;
    Reassociate(q, p, t, rest);
  }

  lemma Reassociate(q: string, p: string, t: string, rest: string)
    ensures q + ":" + p + "," + t + "}" + rest == q + (":" + (p + ("," + (t + "}" + rest))))
  {}

  lemma {:induction false} LastFieldReads(f: Field, rest: string)
    ensures ReadFields(Quote(f.key) + (":" + (Print(f.val) + ("}" + rest))))
         == Some((Cons(Field(Join(Utf16(f.key)), Rejoin(f.val)), Nil), rest))
    decreases f, 1
  {
    var after := "}" + rest;
    FieldReads(f, after);
    assert after[0] == '}' && after[1..] == rest;
  }

  lemma {:induction false} EarlierFieldReads(f: Field, more: string, fs: List<Field>, rest: string)
    requires ReadFields(more) == Some((fs, rest))
    ensures ReadFields(Quote(f.key) + (":" + (Print(f.val) + ("," + more))))
         == Some((Cons(Field(Join(Utf16(f.key)), Rejoin(f.val)), fs), rest))
    decreases f, 1
  {
    var after := "," + more;
    FieldReads(f, after);
    assert after[0] == ',' && after[1..] == more;
  }

  lemma {:induction false} FieldReads(f: Field, after: string)
    requires Ends(after)
    ensures ReadString(Quote(f.key) + (":" + (Print(f.val) + after)))
         == Some((Join(Utf16(f.key)), ":" + (Print(f.val) + after)))
    ensures (":" + (Print(f.val) + after))[1..] == Print(f.val) + after
    ensures ReadValue(Print(f.val) + after) == Some((Rejoin(f.val), after))
    decreases f, 0
  {
    StringReads(f.key, ":" + (Print(f.val) + after));
    ValueReads(f.val, after);
  }

  /** The rendering of any payload reads back, entries in key order and split surrogate
      pairs joined. */
  lemma CanonicalReads(v: Json)
    ensures Read(Canonical(v)) == Some(Rejoin(SortKeys(v)))
  {
    ValueReads(SortKeys(v), "");
    assert Canonical(v) + "" == Canonical(v);
  }

  /** Two renderings written out: no blanks, and escapes short where there are any and
      otherwise hexadecimal in lower case. */
  lemma TwoRenderings(v: Json)
    requires v == Arr(Cons(Bool(true), Cons(Obj(Cons(Field([0x62], Null), Nil)), Nil)))
    ensures Canonical(v) == "[true,{\"b\":null}]"
    ensures Canonical(Str([0x0A, 0xE9])) == "\"\\n\\u00e9\""
  {
    OneObjectPrints();
    TwoItemsPrint(Bool(true), Obj(Cons(Field([0x62], Null), Nil)));
    assert SortKeys(v) == v;
    TwoUnitsQuote();
  }

  lemma TwoItemsPrint(x: Json, y: Json)
    ensures Print(Arr(Cons(x, Cons(y, Nil)))) == "[" + (Print(x) + "," + Print(y)) + "]"
  {
    assert PrintItems(Cons(y, Nil)) == Print(y);
  }

  lemma OneObjectPrints()
    ensures Print(Obj(Cons(Field([0x62], Null), Nil))) == "{\"b\":null}"
  {
    assert Utf16([0x62]) == [0x62];
    assert EscapeUnits([0x62]) == "b";
    assert PrintFields(Cons(Field([0x62], Null), Nil)) == "\"b\"" + ":" + "null";
  }

  lemma TwoUnitsQuote()
    ensures Quote([0x0A, 0xE9]) == "\"\\n\\u00e9\""
  {
    var us: seq<Unit> := [0x0A, 0xE9];
    assert us[1..] == [0xE9] && us[1..][1..] == [];
    assert Utf16([0xE9]) == [0xE9];
    assert Utf16([0x0A, 0xE9]) == us;
    assert EscapeUnits([0xE9]) == "\\u00e9";
  }
}
