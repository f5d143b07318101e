/** TOTP secrets in base32 (apps/accounts/two_factor.py, generate_secret and
    _decode_secret), per section 6 of RFC 4648.

    Groups of five bytes and of eight 5-bit digits are both read as numbers, most
    significant first, so encoding and decoding are changes of base.
 */
module Base32 {
  import opened Text

  type Byte = n: int | 0 <= n < 256

  type Bits5 = n: int | 0 <= n < 32

  // ---------- numbers and digits ----------

  /** `k` digits of `n` in base 32 or 256, most significant first. */
  function Digits(base: nat, k: nat, n: nat): (ds: seq<nat>)
    requires base == 32 || base == 256
    ensures |ds| == k && forall i :: 0 <= i < k ==> ds[i] < base
  {
    if k == 0 then [] else Digits(base, k - 1, n / base) + [n % base]
  }

  function Number(base: nat, ds: seq<nat>): nat {
    if ds == [] then 0 else base * Number(base, ds[..|ds| - 1]) + ds[|ds| - 1]
  }

  function Power(base: nat, k: nat): nat {
    if k == 0 then 1 else base * Power(base, k - 1)
  }

  lemma NumberSnoc(base: nat, ds: seq<nat>, d: nat)
    ensures Number(base, ds + [d]) == base * Number(base, ds) + d
  {
    assert (ds + [d])[..|ds|] == ds;
  }

  lemma QuotientFits(base: nat, k: nat, n: nat)
    requires base == 32 || base == 256
    requires k > 0 && n < Power(base, k)
    ensures n / base < Power(base, k - 1) && n == base * (n / base) + n % base
  {
    if base == 32 {
      assert n < 32 * Power(32, k - 1);
    } else {
      assert n < 256 * Power(256, k - 1);
    }
  }

  lemma {:induction false} NumberOfDigits(base: nat, k: nat, n: nat)
    requires base == 32 || base == 256
    requires n < Power(base, k)
    ensures Number(base, Digits(base, k, n)) == n
  {
    if k > 0 {
      QuotientFits(base, k, n);
      NumberOfDigits(base, k - 1, n / base);
      NumberSnoc(base, Digits(base, k - 1, n / base), n % base);
    }
  }

  lemma {:induction false} DigitsOfNumber(base: nat, ds: seq<nat>)
    requires base == 32 || base == 256
    requires forall i :: 0 <= i < |ds| ==> ds[i] < base
    ensures Digits(base, |ds|, Number(base, ds)) == ds
    ensures Number(base, ds) < Power(base, |ds|)
  {
    if ds != [] {
      var front, last := ds[..|ds| - 1], ds[|ds| - 1];
      DigitsOfNumber(base, front);
      var v := Number(base, front);
      if base == 32 {
        assert (32 * v + last) / 32 == v && (32 * v + last) % 32 == last;
      } else {
        assert (256 * v + last) / 256 == v && (256 * v + last) % 256 == last;
      }
      assert ds == front + [last];
    }
  }

  function Zeros(k: nat): (z: seq<nat>)
    ensures |z| == k && forall i :: 0 <= i < k ==> z[i] == 0
  {
    seq(k, _ => 0)
  }

  lemma {:induction false} NumberWithZeros(base: nat, ds: seq<nat>, k: nat)
    ensures Number(base, ds + Zeros(k)) == Number(base, ds) * Power(base, k)
  {
    if k == 0 {
      assert ds + Zeros(0) == ds;
    } else {
      var all := ds + Zeros(k);
      assert all[..|all| - 1] == ds + Zeros(k - 1);
      NumberWithZeros(base, ds, k - 1);
      assert Number(base, all) == base * Number(base, ds + Zeros(k - 1));
      Regroup(base, Number(base, ds), Power(base, k - 1));
    }
  }

  lemma Regroup(a: nat, v: nat, p: nat)
    ensures a * (v * p) == v * (a * p)
  {
    assert a * (v * p) == (a * v) * p == (v * a) * p == v * (a * p);
  }

  // ---------- the alphabet ----------

  function Letter(d: Bits5): (c: char)
    ensures c != '='
  {
    if d < 26 then 'A' + d as char else '2' + (d - 26) as char
  }

  function LetterValue(c: char): Option<Bits5> {
    if 'A' <= c <= 'Z' then Some((c - 'A') as int)
    else if '2' <= c <= '7' then Some((c - '2') as int + 26)
    else None
  }

  lemma LetterReadsBack(d: Bits5)
    ensures LetterValue(Letter(d)) == Some(d) && UpperChar(Letter(d)) == Letter(d)
    ensures UpperChar(LowerChar(Letter(d))) == Letter(d)
  {}

  function Letters(ds: seq<nat>): (s: string)
    requires forall i :: 0 <= i < |ds| ==> ds[i] < 32
    ensures |s| == |ds| && forall i :: 0 <= i < |s| ==> s[i] == Letter(ds[i])
  {
    seq(|ds|, i requires 0 <= i < |ds| => Letter(ds[i]))
  }

  predicate InAlphabet(s: string) {
    forall i :: 0 <= i < |s| ==> LetterValue(s[i]).Some?
  }

  function Values(s: string): (ds: seq<nat>)
    requires InAlphabet(s)
    ensures |ds| == |s| && forall i :: 0 <= i < |ds| ==> ds[i] == LetterValue(s[i]).value
  {
    seq(|s|, i requires 0 <= i < |s| => LetterValue(s[i]).value)
  }

  // ---------- encoding ----------

  /** How many of eight digits carry `r` leftover bytes. */
  function DigitsFor(r: nat): nat
    requires 1 <= r <= 5
  {
    if r == 1 then 2 else if r == 2 then 4 else if r == 3 then 5 else if r == 4 then 7 else 8
  }

  /** One to five bytes: padded with zero bytes, rewritten in base 32, and only the
      digits that carry bits of the input kept. */
  function EncodeGroup(b: seq<Byte>): string
    requires 1 <= |b| <= 5
  {
    Letters(Digits(32, 8, Number(256, b + Zeros(5 - |b|)))[..DigitsFor(|b|)])
  }

  /** The encoding without its padding. */
  function EncodeCore(b: seq<Byte>): string {
    if b == [] then ""
    else if |b| <= 5 then EncodeGroup(b)
    else EncodeGroup(b[..5]) + EncodeCore(b[5..])
  }

  function Padding(k: nat): (s: string)
    ensures |s| == k && forall i :: 0 <= i < k ==> s[i] == '='
  {
    seq(k, _ => '=')
  }

  function Missing(length: nat): (k: nat)
    ensures k < 8 && (length + k) % 8 == 0
  {
    (8 - length % 8) % 8
  }

  /** base64.b32encode: the last group filled up with '=' signs. */
  function Encode(b: seq<Byte>): string {
    EncodeCore(b) + Padding(Missing(|EncodeCore(b)|))
  }

  function StripPadding(s: string): (r: string)
    ensures r <= s && (r == "" || r[|r| - 1] != '=')
    ensures forall i :: |r| <= i < |s| ==> s[i] == '='
  {
    if s != "" && s[|s| - 1] == '=' then StripPadding(s[..|s| - 1]) else s
  }

  /** generate_secret, for the random bytes drawn. */
  function Secret(b: seq<Byte>): string {
    StripPadding(Encode(b))
  }

  // ---------- decoding ----------

  datatype DecodeError = IncorrectPadding | NotBase32

  /** Two to eight digits, padded with zero digits, rewritten as bytes. */
  function DecodeGroup(ds: seq<nat>): (b: seq<Byte>)
    requires |ds| <= 8
    ensures |b| == (43 - 5 * (8 - |ds|)) / 8
  {
    var keep := (43 - 5 * (8 - |ds|)) / 8;
    Digits(256, 5, Number(32, ds + Zeros(8 - |ds|)))[..keep]
  }

  function DecodeGroups(ds: seq<nat>): seq<Byte> {
    if |ds| <= 8 then DecodeGroup(ds) else DecodeGroup(ds[..8]) + DecodeGroups(ds[8..])
  }

  /** base64.b32decode with casefold. */
  function Decode(text: string): Result<seq<Byte>, DecodeError> {
    if |text| % 8 != 0 then Err(IncorrectPadding)
    else
      var core := StripPadding(Upper(text));
      var padding := |text| - |core|;
      if !InAlphabet(core) then Err(NotBase32)
      else if padding !in {0, 1, 3, 4, 6} then Err(IncorrectPadding)
      else Ok(DecodeGroups(Values(core)))
  }

  /** _decode_secret: upper-cased, padded up to a multiple of eight, decoded. */
  function DecodeSecret(secret: string): Result<seq<Byte>, DecodeError> {
    Decode(Upper(secret) + Padding(Missing(|secret|)))
  }

  // ---------- one group ----------

  lemma {:induction false} TrailingZeroDigits(k: nat, m: nat, q: nat)
    requires m <= k
    ensures Digits(32, k, q * Power(32, m)) == Digits(32, k - m, q) + Zeros(m)
  {
    if m == 0 {
      assert Zeros(0) == [];
      assert Digits(32, k, q) + [] == Digits(32, k, q);
    } else {
      var x := q * Power(32, m - 1);
      assert q * Power(32, m) == 32 * x;
      TrailingZeroDigits(k - 1, m - 1, q);
      assert Zeros(m) == Zeros(m - 1) + [0];
    }
  }

  lemma PowersOf32()
    ensures Power(32, 0) == 1 && Power(32, 1) == 32 && Power(32, 3) == 0x8000
    ensures Power(32, 4) == 0x10_0000 && Power(32, 6) == 0x4000_0000 && Power(32, 8) == 0x100_0000_0000
  {
    assert Power(32, 2) == 0x400;
    assert Power(32, 5) == 0x200_0000;
    assert Power(32, 7) == 0x8_0000_0000;
  }

  lemma PowersOf256()
    ensures Power(256, 0) == 1 && Power(256, 1) == 0x100 && Power(256, 2) == 0x1_0000
    ensures Power(256, 3) == 0x100_0000 && Power(256, 4) == 0x1_0000_0000 && Power(256, 5) == 0x100_0000_0000
  {}

  /** Zero bytes at the end of a group become zero digits. */
  lemma GroupNumberSplits(r: nat, v: nat) returns (q: nat)
    requires 1 <= r <= 5
    ensures v * Power(256, 5 - r) == q * Power(32, 8 - DigitsFor(r))
  {
    PowersOf32();
    PowersOf256();
    q := if r == 1 then 4 * v else if r == 2 then 16 * v else if r == 3 then 2 * v else if r == 4 then 8 * v else v;
  }

  /** The digits of a group that are not kept are zero. */
  lemma DroppedDigitsAreZero(b: seq<Byte>)
    requires 1 <= |b| <= 5
    ensures var k := DigitsFor(|b|);
      var ds := Digits(32, 8, Number(256, b + Zeros(5 - |b|)));
      ds == ds[..k] + Zeros(8 - k)
  {
    var k := DigitsFor(|b|);
    NumberWithZeros(256, b, 5 - |b|);
    var q := GroupNumberSplits(|b|, Number(256, b));
    TrailingZeroDigits(8, 8 - k, q);
    assert Digits(32, 8, q * Power(32, 8 - k))[..k] == Digits(32, k, q);
  }

  lemma GroupRoundTrip(b: seq<Byte>)
    requires 1 <= |b| <= 5
    ensures InAlphabet(EncodeGroup(b)) && |EncodeGroup(b)| == DigitsFor(|b|)
    ensures DecodeGroup(Values(EncodeGroup(b))) == b
  {
    var k := DigitsFor(|b|);
    var all := b + Zeros(5 - |b|);
    var n := Number(256, all);
    var ds := Digits(32, 8, n);
    var e := EncodeGroup(b);
    forall i | 0 <= i < |e| ensures LetterValue(e[i]) == Some(ds[i]) {
      LetterReadsBack(ds[i]);
    }
    assert Values(e) == ds[..k];
    DroppedDigitsAreZero(b);
    DigitsOfNumber(256, all);
    PowersOf32();
    PowersOf256();
    NumberOfDigits(32, 8, n);
    assert all[..|b|] == b;
  }

  // ---------- whole strings ----------

  lemma GroupsSplit(head: string, tail: string)
    requires |head| == 8 && tail != "" && InAlphabet(head) && InAlphabet(tail)
    ensures InAlphabet(head + tail)
    ensures DecodeGroups(Values(head + tail)) == DecodeGroup(Values(head)) + DecodeGroups(Values(tail))
  {
    var ds := Values(head + tail);
    assert ds[..8] == Values(head) && ds[8..] == Values(tail);
  }

  lemma {:induction false} CoreRoundTrip(b: seq<Byte>)
    ensures InAlphabet(EncodeCore(b)) && DecodeGroups(Values(EncodeCore(b))) == b
  {
    if b == [] {
      assert EncodeCore(b) == "";
    } else if |b| <= 5 {
      GroupRoundTrip(b);
    } else {
      GroupRoundTrip(b[..5]);
      CoreRoundTrip(b[5..]);
      CoreLength(b[5..]);
      GroupsSplit(EncodeGroup(b[..5]), EncodeCore(b[5..]));
      assert b[..5] + b[5..] == b;
    }
  }

  lemma {:induction false} CoreLength(b: seq<Byte>)
    ensures |EncodeCore(b)| % 8 !in {1, 3, 6}
    ensures |b| % 5 == 0 ==> 5 * |EncodeCore(b)| == 8 * |b|
    ensures b != [] ==> EncodeCore(b) != ""
  {
    if |b| > 5 {
      CoreLength(b[5..]);
      GroupRoundTrip(b[..5]);
      LaterGroups(|b|, |EncodeCore(b[5..])|);
    } else if b != [] {
      GroupRoundTrip(b);
    }
  }

  lemma LaterGroups(bytes: nat, letters: nat)
    requires bytes > 5
    ensures (8 + letters) % 8 == letters % 8 && (bytes - 5) % 5 == bytes % 5
  {}

  lemma {:induction false} StripExactly(core: string, k: nat)
    requires core == "" || core[|core| - 1] != '='
    ensures StripPadding(core + Padding(k)) == core
  {
    var s := core + Padding(k);
    var r := StripPadding(s);
    assert forall i :: 0 <= i < |core| ==> s[i] == core[i];
    assert forall i :: 0 <= i < |r| ==> s[i] == r[i];
    assert |r| == |core|;
  }

  lemma UpperFixes(s: string)
    requires InAlphabet(s)
    ensures Upper(s) == s
  {}

  lemma UpperOfPadded(s: string, k: nat)
    ensures Upper(s + Padding(k)) == Upper(s) + Padding(k)
  {}

  lemma UpperTwice(s: string)
    ensures Upper(Upper(s)) == Upper(s)
  {}

  lemma AlphabetHasNoPadding(s: string)
    requires InAlphabet(s)
    ensures s == "" || s[|s| - 1] != '='
  {
    if s != "" {
      assert LetterValue(s[|s| - 1]).Some?;
    }
  }

  // ---------- main results ----------

  /** Any byte string survives encoding, stripping and `_decode_secret`. */
  lemma SecretRoundTrip(b: seq<Byte>)
    ensures Secret(b) == EncodeCore(b)
    ensures DecodeSecret(Secret(b)) == Ok(b)
  {
    var core := EncodeCore(b);
    CoreRoundTrip(b);
    CoreLength(b);
    AlphabetHasNoPadding(core);
    StripExactly(core, Missing(|core|));
    UpperFixes(core);
    DecodesCore(core, core);
  }

  /** So it does when the secret is typed in lower case. */
  lemma LowerCaseSecretRoundTrip(b: seq<Byte>)
    ensures DecodeSecret(Lower(Secret(b))) == Ok(b)
  {
    var core := EncodeCore(b);
    CoreRoundTrip(b);
    CoreLength(b);
    SecretRoundTrip(b);
    UpperOfLower(core);
    DecodesCore(Lower(core), core);
  }

  lemma UpperOfLower(s: string)
    requires InAlphabet(s)
    ensures Upper(Lower(s)) == s
  {
    forall i | 0 <= i < |s| ensures Upper(Lower(s))[i] == s[i] {
      assert LetterValue(s[i]).Some?;
    }
  }

  lemma PaddedDecodes(core: string, k: nat)
    requires InAlphabet(core) && (|core| + k) % 8 == 0
    ensures Decode(core + Padding(k)) ==
      if k in {0, 1, 3, 4, 6} then Ok(DecodeGroups(Values(core))) else Err(IncorrectPadding)
  {
    var text := core + Padding(k);
    UpperFixes(core);
    UpperOfPadded(core, k);
    assert Upper(text) == text;
    AlphabetHasNoPadding(core);
    StripExactly(core, k);
  }

  lemma MissingIsPossible(n: nat)
    ensures Missing(n) in {0, 1, 3, 4, 6} <==> n % 8 !in {1, 3, 6}
  {}

  lemma DecodesCore(secret: string, core: string)
    requires Upper(secret) == core && InAlphabet(core)
    ensures DecodeSecret(secret) ==
      if |core| % 8 in {1, 3, 6} then Err(IncorrectPadding) else Ok(DecodeGroups(Values(core)))
  {
    PaddedDecodes(core, Missing(|core|));
    MissingIsPossible(|core|);
  }

  /** Which unpadded secrets decode: base32 letters in either case, and not of a length
      that no byte string encodes to. */
  lemma UnpaddedSecretDecodesExactly(secret: string)
    requires secret == "" || secret[|secret| - 1] != '='
    ensures DecodeSecret(secret).Ok? <==> InAlphabet(Upper(secret)) && |secret| % 8 !in {1, 3, 6}
  {
    var core := Upper(secret);
    if InAlphabet(core) {
      DecodesCore(secret, core);
    } else {
      UpperTwice(secret);
      UpperOfPadded(core, Missing(|secret|));
      StripExactly(core, Missing(|secret|));
    }
  }

  /** Different byte strings never share a secret. */
  lemma SecretsAreDistinct(a: seq<Byte>, b: seq<Byte>)
    requires Secret(a) == Secret(b)
    ensures a == b
  {
    SecretRoundTrip(a);
    SecretRoundTrip(b);
  }

  /** A 160-bit secret is 32 letters and needs no padding. */
  lemma GeneratedSecretHas32Letters(b: seq<Byte>)
    requires |b| == 20
    ensures |Secret(b)| == 32 && Encode(b) == Secret(b)
  {
    CoreLength(b);
    SecretRoundTrip(b);
    assert Encode(b) == EncodeCore(b) + Padding(0);
  }

  // ---------- the standard's alphabet and bit order ----------

  /** Table 3 of RFC 4648. */
  lemma AlphabetIsStandard(d: Bits5)
    ensures Letter(d) == "ABCDEFGHIJKLMNOPQRSTUVWXYZ234567"[d]
  {}

  /** Five bytes and their eight letters spell one and the same number, most significant
      first; fewer bytes are spelled followed by zero bits. */
  lemma GroupSpellsItsNumber(b: seq<Byte>)
    requires 1 <= |b| <= 5
    ensures InAlphabet(EncodeGroup(b)) && |EncodeGroup(b)| == (8 * |b| + 4) / 5
    ensures Number(32, Values(EncodeGroup(b)) + Zeros(8 - |EncodeGroup(b)|)) == Number(256, b + Zeros(5 - |b|))
  {
    var all := b + Zeros(5 - |b|);
    var ds := Digits(32, 8, Number(256, all));
    DroppedDigitsAreZero(b);
    DigitsOfNumber(256, all);
    PowersOf256();
    PowersOf32();
    NumberOfDigits(32, 8, Number(256, all));
    LettersReadBack(ds[..DigitsFor(|b|)]);
    assert ds[..DigitsFor(|b|)] + Zeros(8 - DigitsFor(|b|)) == ds;
  }

  lemma LettersReadBack(ds: seq<nat>)
    requires forall i :: 0 <= i < |ds| ==> ds[i] < 32
    ensures InAlphabet(Letters(ds)) && Values(Letters(ds)) == ds
  {
    forall i | 0 <= i < |ds| ensures LetterValue(Letters(ds)[i]) == Some(ds[i]) {
      LetterReadsBack(ds[i]);
    }
  }
}
