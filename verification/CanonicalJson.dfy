/** Canonical JSON (common/hashing.py): a payload rendered with sorted keys, no
    insignificant whitespace and every character outside printable ASCII escaped.

    A payload is what Python holds: dictionaries keep their insertion order and their
    keys are pairwise distinct (`DistinctKeys`). `Content` is the independent meaning
    of a payload, in which objects are maps and insertion order does not exist.
 */
module CanonicalJson {
  import opened Text

  datatype List<+T> = Nil | Cons(head: T, tail: List<T>)

  datatype Json =
    | Null
    | Bool(b: bool)
    | Int(n: int)
    | Str(s: Text)
    | Arr(items: List<Json>)
    | Obj(fields: List<Field>)

  datatype Field = Field(key: Text, val: Json)

  // ---------- sorting keys ----------

  function Insert(f: Field, fs: List<Field>): List<Field> {
    match fs
    case Nil => Cons(f, Nil)
    case Cons(g, rest) => if Less(g.key, f.key) then Cons(g, Insert(f, rest)) else Cons(f, fs)
  }

  /** The payload with every dictionary's entries in key order. */
  function SortKeys(v: Json): Json {
    match v
    case Arr(items) => Arr(SortItems(items))
    case Obj(fields) => Obj(SortFields(fields))
    case _ => v
  }

  function SortItems(items: List<Json>): List<Json> {
    match items
    case Nil => Nil
    case Cons(x, rest) => Cons(SortKeys(x), SortItems(rest))
  }

  function SortFields(fields: List<Field>): List<Field> {
    match fields
    case Nil => Nil
    case Cons(f, rest) => Insert(Field(f.key, SortKeys(f.val)), SortFields(rest))
  }

  // ---------- printing ----------

  type Unit = n: int | 0 <= n < 0x10000

  /** UTF-16: what `ensure_ascii` escapes one by one. */
  function Utf16(s: Text): seq<Unit> {
    if s == [] then [] else UnitsOf(s[0]) + Utf16(s[1..])
  }

  function UnitsOf(c: CodePoint): (us: seq<Unit>) {
    if c < 0x10000 then [c]
    else [0xD800 + (c - 0x10000) / 0x400, 0xDC00 + (c - 0x10000) % 0x400]
  }

  predicate Printable(u: Unit) {
    0x20 <= u <= 0x7E && u != 0x22 && u != 0x5C
  }

  function HexDigit(d: nat): (c: char)
    requires d < 16
  {
    if d < 10 then '0' + d as char else 'a' + (d - 10) as char
  }

  function EscapeUnit(u: Unit): (s: string)
    ensures s != [] && s[0] != '"'
  {
    if Printable(u) then [u as char]
    else if u == 0x22 then "\\\""
    else if u == 0x5C then "\\\\"
    else if u == 0x0A then "\\n"
    else if u == 0x0D then "\\r"
    else if u == 0x09 then "\\t"
    else if u == 0x0C then "\\f"
    else if u == 0x08 then "\\b"
    else ['\\', 'u', HexDigit(u / 0x1000), HexDigit(u / 0x100 % 16), HexDigit(u / 16 % 16), HexDigit(u % 16)]
  }

  function EscapeUnits(us: seq<Unit>): string {
    if us == [] then "" else EscapeUnit(us[0]) + EscapeUnits(us[1..])
  }

  function Quote(s: Text): string {
    "\"" + EscapeUnits(Utf16(s)) + "\""
  }

  /** `json.dumps` with compact separators, entries in the order they stand. */
  function Print(v: Json): (s: string) {
    match v
    case Null => "null"
    case Bool(b) => if b then "true" else "false"
    case Int(n) => DecimalInt(n)
    case Str(s) => Quote(s)
    case Arr(items) => "[" + PrintItems(items) + "]"
    case Obj(fields) => "{" + PrintFields(fields) + "}"
  }

  function PrintItems(items: List<Json>): string {
    match items
    case Nil => ""
    case Cons(x, Nil) => Print(x)
    case Cons(x, rest) => Print(x) + "," + PrintItems(rest)
  }

  function PrintFields(fields: List<Field>): string {
    match fields
    case Nil => ""
    case Cons(f, Nil) => Quote(f.key) + ":" + Print(f.val)
    case Cons(f, rest) => Quote(f.key) + ":" + Print(f.val) + "," + PrintFields(rest)
  }

  function Canonical(v: Json): string {
    Print(SortKeys(v))
  }

  // ---------- reading back ----------

  /** What a JSON reader makes of UTF-16 units: a high surrogate followed by a low one
      is a single code point. */
  function Join(us: seq<Unit>): (s: Text)
    ensures |s| <= |us|
  {
    if us == [] then []
    else if |us| >= 2 && IsHigh(us[0]) && IsLow(us[1]) then
      [0x10000 + (us[0] - 0xD800) * 0x400 + (us[1] - 0xDC00)] + Join(us[2..])
    else [us[0]] + Join(us[1..])
  }

  predicate IsHigh(c: int) {
    0xD800 <= c < 0xDC00
  }

  predicate IsLow(c: int) {
    0xDC00 <= c < 0xE000
  }

  function HexValue(c: char): Option<nat> {
    if '0' <= c <= '9' then Some((c - '0') as nat)
    else if 'a' <= c <= 'f' then Some((c - 'a') as nat + 10)
    else None
  }

  /** One character or escape sequence of a string literal. */
  function ReadUnit(s: string): (r: Option<(Unit, string)>)
    ensures r.Some? ==> |r.value.1| < |s|
  {
    if s == [] then None
    else if s[0] != '\\' then
      if ' ' <= s[0] <= '~' && s[0] != '"' then Some((s[0] as int, s[1..])) else None
    else if |s| < 2 then None
    else if s[1] == '"' then Some((0x22, s[2..]))
    else if s[1] == '\\' then Some((0x5C, s[2..]))
    else if s[1] == 'n' then Some((0x0A, s[2..]))
    else if s[1] == 'r' then Some((0x0D, s[2..]))
    else if s[1] == 't' then Some((0x09, s[2..]))
    else if s[1] == 'f' then Some((0x0C, s[2..]))
    else if s[1] == 'b' then Some((0x08, s[2..]))
    else if s[1] != 'u' || |s| < 6 then None
    else
      match (HexValue(s[2]), HexValue(s[3]), HexValue(s[4]), HexValue(s[5]))
      case (Some(a), Some(b), Some(c), Some(d)) =>
        var u := a * 0x1000 + b * 0x100 + c * 16 + d;
        if u < 0x10000 then Some((u, s[6..])) else None
      case _ => None
  }

  /** The rest of a string literal, up to and including its closing quote. */
  function ReadUnits(s: string): (r: Option<(seq<Unit>, string)>)
    ensures r.Some? ==> |r.value.1| < |s|
    decreases |s|
  {
    if s == [] then None
    else if s[0] == '"' then Some(([], s[1..]))
    else
      match ReadUnit(s)
      case None => None
      case Some((u, rest)) =>
        match ReadUnits(rest)
        case None => None
        case Some((us, rest')) => Some(([u] + us, rest'))
  }

  function ReadString(s: string): (r: Option<(Text, string)>)
    ensures r.Some? ==> |r.value.1| < |s|
  {
    if s == [] || s[0] != '"' then None
    else
      match ReadUnits(s[1..])
      case None => None
      case Some((us, rest)) => Some((Join(us), rest))
  }

  function ReadInt(s: string): (r: Option<(int, string)>)
    ensures r.Some? ==> |r.value.1| < |s|
  {
    var neg := s != [] && s[0] == '-';
    var t := if neg then s[1..] else s;
    var k := DigitRun(t);
    if k == 0 then None
    else
      var n: int := NumeralValue(t[..k]);
      Some((if neg then -n else n, t[k..]))
  }

  function ReadValue(s: string): (r: Option<(Json, string)>)
    ensures r.Some? ==> |r.value.1| < |s|
    decreases |s|, 0
  {
    if "null" <= s then Some((Null, s[4..]))
    else if "true" <= s then Some((Bool(true), s[4..]))
    else if "false" <= s then Some((Bool(false), s[5..]))
    else if "\"" <= s then
      match ReadString(s)
      case None => None
      case Some((t, rest)) => Some((Str(t), rest))
    else if "[]" <= s then Some((Arr(Nil), s[2..]))
    else if "[" <= s then
      match ReadItems(s[1..])
      case None => None
      case Some((items, rest)) => Some((Arr(items), rest))
    else if "{}" <= s then Some((Obj(Nil), s[2..]))
    else if "{" <= s then
      match ReadFields(s[1..])
      case None => None
      case Some((fields, rest)) => Some((Obj(fields), rest))
    else
      match ReadInt(s)
      case None => None
      case Some((n, rest)) => Some((Int(n), rest))
  }

  /** One or more array items and the closing bracket. */
  function ReadItems(s: string): (r: Option<(List<Json>, string)>)
    ensures r.Some? ==> |r.value.1| < |s|
    decreases |s|, 1
  {
    match ReadValue(s)
    case None => None
    case Some((x, rest)) =>
      if "]" <= rest then Some((Cons(x, Nil), rest[1..]))
      else if "," <= rest then
        match ReadItems(rest[1..])
        case None => None
        case Some((xs, rest')) => Some((Cons(x, xs), rest'))
      else None
  }

  /** One or more object entries and the closing brace. */
  function ReadFields(s: string): (r: Option<(List<Field>, string)>)
    ensures r.Some? ==> |r.value.1| < |s|
    decreases |s|, 1
  {
    match ReadString(s)
    case None => None
    case Some((k, afterKey)) =>
      if !(":" <= afterKey) then None
      else
        match ReadValue(afterKey[1..])
        case None => None
        case Some((v, rest)) =>
          if "}" <= rest then Some((Cons(Field(k, v), Nil), rest[1..]))
          else if "," <= rest then
            match ReadFields(rest[1..])
            case None => None
            case Some((fs, rest')) => Some((Cons(Field(k, v), fs), rest'))
          else None
  }

  /** A whole document: a value and nothing after it. */
  function Read(s: string): Option<Json> {
    match ReadValue(s)
    case Some((v, rest)) => if rest == [] then Some(v) else None
    case None => None
  }
}
