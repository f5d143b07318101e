/** The append-only hash chain (common/hashing.py, chain_hash).

    SHA-256 is a parameter, any function from strings to 64 hexadecimal characters.
    Nothing is assumed about collisions: tampering that goes unseen is turned into two
    different strings with the same digest.
 */
module HashChain {
  import opened Text
  import opened CanonicalJson
  import opened CanonicalMeaning
  import Base32

  predicate IsHex(c: char) {
    '0' <= c <= '9' || 'a' <= c <= 'f'
  }

  predicate IsDigest(d: string) {
    |d| == 64 && forall i :: 0 <= i < |d| ==> IsHex(d[i])
  }

  ghost predicate IsSha256(sha: string -> string) {
    forall s :: IsDigest(sha(s))
  }

  /** `hexdigest`: two lower-case hexadecimal digits per byte. */
  function HexDigest(bytes: seq<Base32.Byte>): (d: string)
    ensures |d| == 2 * |bytes|
    ensures forall i :: 0 <= i < |d| ==> IsHex(d[i])
  {
    if bytes == [] then ""
    else [HexDigit(bytes[0] / 16), HexDigit(bytes[0] % 16)] + HexDigest(bytes[1..])
  }

  /** Every 32-byte digest meets the format, and different digests stay different. */
  lemma {:induction false} HexDigestIsDigest(a: seq<Base32.Byte>, b: seq<Base32.Byte>)
    requires |a| == |b|
    ensures |a| == 32 ==> IsDigest(HexDigest(a))
    ensures HexDigest(a) == HexDigest(b) ==> a == b
  {
    if a != [] && HexDigest(a) == HexDigest(b) {
      var x, y := HexDigest(a), HexDigest(b);
      assert x[0] == y[0] && x[1] == y[1];
      assert x[2..] == HexDigest(a[1..]) && y[2..] == HexDigest(b[1..]);
      HexDigestIsDigest(a[1..], b[1..]);
      assert a == [a[0]] + a[1..] && b == [b[0]] + b[1..];
    }
  }

  /** The hashed string of one link: previous hash, number and rendered payload. */
  function Frame(previous: string, sequence: int, text: string): string {
    previous + ":" + DecimalInt(sequence) + ":" + text
  }

  /** chain_hash. A missing previous hash counts as empty. */
  function ChainHash(sha: string -> string, previous: Option<string>, sequence: int, payload: Json): string {
    sha(Frame(if previous.Some? then previous.value else "", sequence, Canonical(payload)))
  }

  /** A numbered, rendered payload: what one link of the chain attests. */
  datatype Link = Link(sequence: int, text: string)

  function LastFrame(sha: string -> string, links: seq<Link>): string
    requires links != []
    decreases |links|, 0
  {
    var n := |links| - 1;
    Frame(Head(sha, links[..n]), links[n].sequence, links[n].text)
  }

  /** The head of the chain: the links folded from the empty hash. */
  function Head(sha: string -> string, links: seq<Link>): string
    decreases |links|, 1
  {
    if links == [] then "" else sha(LastFrame(sha, links))
  }

  // ---------- framing is uniquely decodable ----------

  predicate NoColon(s: string) {
    forall i :: 0 <= i < |s| ==> s[i] != ':'
  }

  lemma FirstColonSplits(a: string, b: string, x: string, y: string)
    requires NoColon(a) && NoColon(x)
    requires a + ":" + b == x + ":" + y
    ensures a == x && b == y
  {
    var s := a + ":" + b;
    var t := x + ":" + y;
    assert s[|a|] == ':' && t[|x|] == ':';
    assert forall i :: 0 <= i < |a| ==> s[i] == a[i];
    assert forall i :: 0 <= i < |x| ==> t[i] == x[i];
    assert |a| == |x|;
    assert a == s[..|a|] && x == t[..|x|];
    assert b == s[|a| + 1..] && y == t[|x| + 1..];
  }

  lemma NumeralHasNoColon(n: int)
    ensures NoColon(DecimalInt(n))
  {
    var s := Decimal(if n < 0 then -n else n);
    assert forall i :: 0 <= i < |s| ==> IsDigit(s[i]);
  }

  /** A frame determines the previous hash, the number and the rendering. */
  lemma FrameDecodes(p: string, m: int, c: string, q: string, n: int, d: string)
    requires NoColon(p) && NoColon(q)
    requires Frame(p, m, c) == Frame(q, n, d)
    ensures p == q && m == n && c == d
  {
    var s, t := DecimalInt(m), DecimalInt(n);
    NumeralHasNoColon(m);
    NumeralHasNoColon(n);
    assert p + ":" + (s + ":" + c) == p + ":" + s + ":" + c;
    assert q + ":" + (t + ":" + d) == q + ":" + t + ":" + d;
    FirstColonSplits(p, s + ":" + c, q, t + ":" + d);
    FirstColonSplits(s, c, t, d);
    DecimalIntInjective(m, n);
  }

  /** What stands before and after the first colon of a string. */
  function CutAtColon(s: string): (string, string) {
    if s == "" then ("", "")
    else if s[0] == ':' then ("", s[1..])
    else
      var cut := CutAtColon(s[1..]);
      ([s[0]] + cut.0, cut.1)
  }

  lemma {:induction false} CutsThere(a: string, b: string)
    requires NoColon(a)
    ensures CutAtColon(a + ":" + b) == (a, b)
  {
    if a != "" {
      assert (a + ":" + b)[1..] == a[1..] + ":" + b;
      CutsThere(a[1..], b);
      assert a == [a[0]] + a[1..];
    } else {
      assert (a + ":" + b)[1..] == b;
    }
  }

  /** Read from the left a frame is the previous hash, the number in decimal and the
      rendering, in that order, with a colon after each of the first two. */
  lemma FrameReads(previous: string, sequence: int, text: string)
    requires NoColon(previous)
    ensures var outer := CutAtColon(Frame(previous, sequence, text));
      && outer.0 == previous
      && CutAtColon(outer.1) == (DecimalInt(sequence), text)
  {
    NumeralHasNoColon(sequence);
    var rest := DecimalInt(sequence) + ":" + text;
    assert Frame(previous, sequence, text) == previous + ":" + rest;
    CutsThere(previous, rest);
    CutsThere(DecimalInt(sequence), text);
  }

  lemma HeadIsDigestOrEmpty(sha: string -> string, links: seq<Link>)
    requires IsSha256(sha)
    ensures NoColon(Head(sha, links))
    ensures |Head(sha, links)| == if links == [] then 0 else 64
  {
    if links != [] {
      var d := sha(LastFrame(sha, links));
      assert IsDigest(d);
      assert forall i :: 0 <= i < |d| ==> IsHex(d[i]);
    }
  }

  // ---------- tamper evidence ----------

  predicate Collides(sha: string -> string, pair: (string, string)) {
    pair.0 != pair.1 && sha(pair.0) == sha(pair.1)
  }

  /** Walks two chains back from their heads to the first pair of differing frames. */
  function FindCollision(sha: string -> string, ps: seq<Link>, qs: seq<Link>): (string, string) {
    if ps == [] || qs == [] then ("", "")
    else if LastFrame(sha, ps) != LastFrame(sha, qs) then (LastFrame(sha, ps), LastFrame(sha, qs))
    else FindCollision(sha, ps[..|ps| - 1], qs[..|qs| - 1])
  }

  lemma {:induction false} LastFrameDecodes(sha: string -> string, ps: seq<Link>, qs: seq<Link>)
    requires IsSha256(sha) && ps != [] && qs != []
    requires LastFrame(sha, ps) == LastFrame(sha, qs)
    ensures ps[|ps| - 1] == qs[|qs| - 1]
    ensures Head(sha, ps[..|ps| - 1]) == Head(sha, qs[..|qs| - 1])
  {
    var p, q := ps[|ps| - 1], qs[|qs| - 1];
    HeadIsDigestOrEmpty(sha, ps[..|ps| - 1]);
    HeadIsDigestOrEmpty(sha, qs[..|qs| - 1]);
    FrameDecodes(Head(sha, ps[..|ps| - 1]), p.sequence, p.text, Head(sha, qs[..|qs| - 1]), q.sequence, q.text);
  }

  lemma LastLinksAgree(ps: seq<Link>, qs: seq<Link>)
    requires ps != [] && qs != [] && ps != qs && ps[|ps| - 1] == qs[|qs| - 1]
    ensures ps[..|ps| - 1] != qs[..|qs| - 1]
  {
    assert ps == ps[..|ps| - 1] + [ps[|ps| - 1]];
    assert qs == qs[..|qs| - 1] + [qs[|qs| - 1]];
  }

  /** No edit, insertion, deletion, reordering or truncation keeps the head without a
      collision, and `FindCollision` names it. */
  lemma {:induction false} TamperingYieldsCollision(sha: string -> string, ps: seq<Link>, qs: seq<Link>)
    requires IsSha256(sha)
    requires Head(sha, ps) == Head(sha, qs)
    requires ps != qs
    ensures Collides(sha, FindCollision(sha, ps, qs))
    decreases |ps|
  {
    HeadIsDigestOrEmpty(sha, ps);
    HeadIsDigestOrEmpty(sha, qs);
    assert ps != [] && qs != [];
    var x, y := LastFrame(sha, ps), LastFrame(sha, qs);
    assert sha(x) == sha(y);
    if x == y {
      LastFrameDecodes(sha, ps, qs);
      LastLinksAgree(ps, qs);
      TamperingYieldsCollision(sha, ps[..|ps| - 1], qs[..|qs| - 1]);
    }
  }

  /** The links of a list of payloads numbered by position, from 1. */
  function Numbered(payloads: seq<Json>): (r: seq<Link>)
    ensures |r| == |payloads|
    ensures forall i :: 0 <= i < |r| ==> r[i] == Link(i + 1, Canonical(payloads[i]))
  {
    seq(|payloads|, i requires 0 <= i < |payloads| => Link(i + 1, Canonical(payloads[i])))
  }

  /** `Head` is the fold of `chain_hash` over the payloads. */
  lemma HeadFoldsChainHash(sha: string -> string, payloads: seq<Json>)
    requires payloads != []
    ensures var n := |payloads| - 1;
      Head(sha, Numbered(payloads)) == ChainHash(sha, Some(Head(sha, Numbered(payloads[..n]))), n + 1, payloads[n])
  {
    var n := |payloads| - 1;
    assert Numbered(payloads)[..n] == Numbered(payloads[..n]);
  }

  /** Packet lists read from JSON whose lengths or contents differ anywhere cannot share a
      head without a collision. */
  lemma DifferentPacketsYieldCollision(sha: string -> string, ps: seq<Json>, qs: seq<Json>)
    requires IsSha256(sha)
    requires forall v :: v in ps || v in qs ==> DistinctKeys(v) && FromJson(v)
    requires Head(sha, Numbered(ps)) == Head(sha, Numbered(qs))
    requires |ps| != |qs| || exists i :: 0 <= i < |ps| && Meaning(ps[i]) != Meaning(qs[i])
    ensures Collides(sha, FindCollision(sha, Numbered(ps), Numbered(qs)))
  {
    if |ps| == |qs| {
      var i :| 0 <= i < |ps| && Meaning(ps[i]) != Meaning(qs[i]);
      assert ps[i] in ps && qs[i] in qs;
      JsonRenderingDecidesContent(ps[i], qs[i]);
      assert Numbered(ps)[i] != Numbered(qs)[i];
    }
    TamperingYieldsCollision(sha, Numbered(ps), Numbered(qs));
  }
}
