/** The packet log of a telemetry session, chained with chain_hash
    (apps/telemetry/services.py append_packet, apps/telemetry/models.py verify_chain). */
module PacketLogs {
  import opened Text
  import opened CanonicalJson
  import opened HashChain

  datatype Packet = Packet(sequence: int, payload: Json, previousHash: string, chainHash: string)

  datatype LogError = SessionClosed | PayloadRequired | NotAnInteger | SequenceStartsAtOne | AlreadyReceived

  /** The sequence a device sends: none, something `int` cannot read, or a number. */
  datatype Sequence = Default | Unreadable | Number(n: int)

  predicate Ascending(rows: seq<Packet>) {
    forall i, j :: 0 <= i < j < |rows| ==> rows[i].sequence < rows[j].sequence
  }

  predicate Received(rows: seq<Packet>, sequence: int) {
    exists i :: 0 <= i < |rows| && rows[i].sequence == sequence
  }

  function Links(rows: seq<Packet>): (r: seq<Link>)
    ensures |r| == |rows|
    ensures forall i :: 0 <= i < |r| ==> r[i] == Link(rows[i].sequence, Canonical(rows[i].payload))
  {
    seq(|rows|, i requires 0 <= i < |rows| => Link(rows[i].sequence, Canonical(rows[i].payload)))
  }

  /** Every stored hash is the head of the links up to and including its row. */
  ghost predicate Intact(sha: string -> string, rows: seq<Packet>) {
    forall i :: 0 <= i < |rows| ==> HashFits(sha, rows, i)
  }

  ghost predicate HashFits(sha: string -> string, rows: seq<Packet>, i: nat)
    requires i < |rows|
  {
    rows[i].chainHash == Head(sha, Links(rows[..i + 1]))
  }

  function HeadHash(rows: seq<Packet>): string {
    if rows == [] then "" else rows[|rows| - 1].chainHash
  }

  lemma HeadStep(sha: string -> string, rows: seq<Packet>, i: nat)
    requires i < |rows|
    ensures ChainHash(sha, Some(Head(sha, Links(rows[..i]))), rows[i].sequence, rows[i].payload)
         == Head(sha, Links(rows[..i + 1]))
  {
    var links := Links(rows[..i + 1]);
    assert links[..i] == Links(rows[..i]);
    assert links[i] == Link(rows[i].sequence, Canonical(rows[i].payload));
  }

  lemma HashFitsExactly(sha: string -> string, rows: seq<Packet>, i: nat, previous: string)
    requires i < |rows| && previous == Head(sha, Links(rows[..i]))
    ensures HashFits(sha, rows, i) <==>
      rows[i].chainHash == ChainHash(sha, Some(previous), rows[i].sequence, rows[i].payload)
    ensures HashFits(sha, rows, i) <==> rows[i].chainHash == Head(sha, Links(rows[..i + 1]))
  {
    HeadStep(sha, rows, i);
  }

  /** How many rows carry a smaller number: where a new row stands in sequence order. */
  function Below(rows: seq<Packet>, sequence: int): (k: nat)
    ensures k <= |rows|
    ensures Ascending(rows) ==>
      (forall i :: 0 <= i < k ==> rows[i].sequence < sequence) &&
      (forall i :: k <= i < |rows| ==> sequence <= rows[i].sequence)
  {
    if rows == [] then 0
    else if rows[|rows| - 1].sequence < sequence then |rows|
    else Below(rows[..|rows| - 1], sequence)
  }

  function NextFree(rows: seq<Packet>): int {
    if rows == [] then 1 else rows[|rows| - 1].sequence + 1
  }

  /** The new row names the highest-numbered row as its predecessor. */
  function NewPacket(sha: string -> string, rows: seq<Packet>, sequence: int, payload: Json): Packet {
    Packet(sequence, payload, HeadHash(rows), ChainHash(sha, Some(HeadHash(rows)), sequence, payload))
  }

  function Inserted(rows: seq<Packet>, packet: Packet): seq<Packet> {
    var k := Below(rows, packet.sequence);
    rows[..k] + [packet] + rows[k..]
  }

  lemma InsertedStaysAscending(rows: seq<Packet>, packet: Packet)
    requires Ascending(rows) && !Received(rows, packet.sequence)
    ensures Ascending(Inserted(rows, packet)) && packet in Inserted(rows, packet)
    ensures forall p :: p in Inserted(rows, packet) ==> p == packet || p in rows
  {
    var k := Below(rows, packet.sequence);
    var after := Inserted(rows, packet);
    assert after[k] == packet;
    assert forall i :: 0 <= i < k ==> after[i] == rows[i];
    assert forall i :: k < i < |after| ==> after[i] == rows[i - 1];
  }

  class PacketLog {
    const sha: string -> string
    var isOpen: bool
    var rows: seq<Packet>  // in sequence order

    constructor (sha: string -> string)
      ensures isOpen && rows == [] && this.sha == sha && Valid()
    {
      this.sha := sha;
      isOpen := true;
      rows := [];
    }

    ghost predicate Valid()
      reads this
    {
      Ascending(rows) && forall p :: p in rows ==> 1 <= p.sequence
    }

    /** append_packet: a missing payload and a null one are the same; `sequence` defaults
        to the next free position. */
    method Append(payload: Json, sequence: Sequence) returns (r: Result<Packet, LogError>)
      requires Valid()
      modifies this`rows
      ensures Valid()
      ensures r.Err? ==> rows == old(rows)
      ensures r == Err(SessionClosed) <==> !isOpen
      ensures r == Err(PayloadRequired) <==> (isOpen && payload.Null?)
      ensures r == Err(NotAnInteger) <==> (isOpen && !payload.Null? && sequence.Unreadable?)
      ensures r == Err(SequenceStartsAtOne) <==>
        (isOpen && !payload.Null? && sequence.Number? && sequence.n < 1)
      ensures r == Err(AlreadyReceived) <==>
        (isOpen && !payload.Null? && sequence.Number? && 1 <= sequence.n && Received(old(rows), sequence.n))
      ensures r.Ok? ==>
        var number := if sequence.Number? then sequence.n else NextFree(old(rows));
        r.value == NewPacket(sha, old(rows), number, payload) && rows == Inserted(old(rows), r.value)
    {
      if !isOpen {
        return Err(SessionClosed);
      }
      if payload.Null? {
        return Err(PayloadRequired);
      }
      var number := NextFree(rows);
      assert rows != [] ==> rows[|rows| - 1] in rows;
      match sequence {
        case Default =>
        case Unreadable =>
          return Err(NotAnInteger);
        case Number(n) =>
          if n < 1 {
            return Err(SequenceStartsAtOne);
          }
          number := n;
      }
      if Received(rows, number) {
        return Err(AlreadyReceived);
      }
      var packet := NewPacket(sha, rows, number, payload);
      InsertedStaysAscending(rows, packet);
      rows := Inserted(rows, packet);
      r := Ok(packet);
    }

    /** verify_chain: recompute every link from stored content, in sequence order. */
    method VerifyChain() returns (ok: bool)
      ensures ok <==> Intact(sha, rows)
    {
      var previous := "";
      var i := 0;
      assert Links(rows[..0]) == [];
      while i < |rows|
        invariant 0 <= i <= |rows|
        invariant previous == Head(sha, Links(rows[..i]))
        invariant forall j :: 0 <= j < i ==> HashFits(sha, rows, j)
      {
        var expected := ChainHash(sha, Some(previous), rows[i].sequence, rows[i].payload);
        HashFitsExactly(sha, rows, i, previous);
        if rows[i].chainHash != expected {
          return false;
        }
        previous := rows[i].chainHash;
        i := i + 1;
      }
      ok := true;
    }
  }

  // ---------- what the log guarantees ----------

  lemma IntactHead(sha: string -> string, rows: seq<Packet>)
    requires Intact(sha, rows)
    ensures HeadHash(rows) == Head(sha, Links(rows))
  {
    if rows != [] {
      assert HashFits(sha, rows, |rows| - 1);
      assert rows[..|rows| - 1 + 1] == rows;
    }
  }

  /** Two logs that both verify and end in the same stored hash hold the same packets,
      or a collision can be computed from them. */
  lemma VerifiedLogsAgree(sha: string -> string, a: seq<Packet>, b: seq<Packet>)
    requires IsSha256(sha) && Intact(sha, a) && Intact(sha, b)
    requires HeadHash(a) == HeadHash(b)
    ensures Links(a) == Links(b) || Collides(sha, FindCollision(sha, Links(a), Links(b)))
  {
    IntactHead(sha, a);
    IntactHead(sha, b);
    if Links(a) != Links(b) {
      TamperingYieldsCollision(sha, Links(a), Links(b));
    }
  }

  /** Appending above every received number keeps the log verifiable. */
  lemma InOrderAppendStaysIntact(sha: string -> string, rows: seq<Packet>, sequence: int, payload: Json)
    requires Ascending(rows) && Intact(sha, rows)
    requires rows == [] || rows[|rows| - 1].sequence < sequence
    ensures Intact(sha, Inserted(rows, NewPacket(sha, rows, sequence, payload)))
  {
    var packet := NewPacket(sha, rows, sequence, payload);
    var after := Inserted(rows, packet);
    var n := |rows|;
    assert Below(rows, sequence) == n;
    assert after == rows + [packet];
    IntactHead(sha, rows);
    HeadStep(sha, after, n);
    assert after[..n] == rows;
    forall i | 0 <= i < |after|
      ensures HashFits(sha, after, i)
    {
      if i < n {
        assert HashFits(sha, rows, i);
        assert after[..i + 1] == rows[..i + 1];
      }
    }
  }

  /** A packet numbered below one already received breaks verification of an honest log:
      were the log still to verify, a collision could be computed from it. */
  lemma LateAppendBreaksTheChain(sha: string -> string, rows: seq<Packet>, sequence: int, payload: Json)
    requires IsSha256(sha) && Ascending(rows) && Intact(sha, rows)
    requires rows != [] && sequence < rows[|rows| - 1].sequence
    requires Intact(sha, Inserted(rows, NewPacket(sha, rows, sequence, payload)))
    ensures var link := Link(sequence, Canonical(payload));
      Collides(sha, FindCollision(sha, Links(rows) + [link], Links(rows[..Below(rows, sequence)]) + [link]))
  {
    var k := Below(rows, sequence);
    var packet := NewPacket(sha, rows, sequence, payload);
    var after := Inserted(rows, packet);
    var link := Link(sequence, Canonical(payload));
    var late, inPlace := Links(rows) + [link], Links(rows[..k]) + [link];
    IntactHead(sha, rows);
    assert late[..|late| - 1] == Links(rows);
    assert Head(sha, late) == packet.chainHash;
    assert after[..k] == rows[..k] && after[k] == packet;
    assert HashFits(sha, after, k);
    HeadStep(sha, after, k);
    assert inPlace[..|inPlace| - 1] == Links(rows[..k]);
    assert Head(sha, inPlace) == packet.chainHash;
    assert |late| != |inPlace|;
    TamperingYieldsCollision(sha, late, inPlace);
  }

  /** The row names the hash of the row before it, the first one the empty string. */
  predicate NamesPrevious(rows: seq<Packet>, i: nat)
    requires i < |rows|
  {
    if i == 0 then rows[i].previousHash == "" else rows[i].previousHash == rows[i - 1].chainHash
  }

  predicate LinkedBack(rows: seq<Packet>) {
    forall i :: 0 <= i < |rows| ==> NamesPrevious(rows, i)
  }

  /** A log built by appending payloads in order, numbered from 1. */
  function Appended(sha: string -> string, payloads: seq<Json>): (rows: seq<Packet>)
    ensures |rows| == |payloads|
  {
    if payloads == [] then []
    else
      var n := |payloads| - 1;
      var rows := Appended(sha, payloads[..n]);
      rows + [NewPacket(sha, rows, n + 1, payloads[n])]
  }

  lemma AppendingLinksBack(sha: string -> string, rows: seq<Packet>, sequence: int, payload: Json)
    requires LinkedBack(rows)
    ensures LinkedBack(rows + [NewPacket(sha, rows, sequence, payload)])
  {
    var packet := NewPacket(sha, rows, sequence, payload);
    var after := rows + [packet];
    forall i | 0 <= i < |after| ensures NamesPrevious(after, i) {
      if i < |rows| {
        assert NamesPrevious(rows, i);
      }
    }
  }

  lemma AppendingAtTheEnd(sha: string -> string, rows: seq<Packet>, sequence: int, payload: Json)
    requires Ascending(rows) && Intact(sha, rows) && forall p :: p in rows ==> p.sequence < sequence
    ensures var after := rows + [NewPacket(sha, rows, sequence, payload)];
      Ascending(after) && Intact(sha, after)
  {
    var packet := NewPacket(sha, rows, sequence, payload);
    assert rows != [] ==> rows[|rows| - 1] in rows;
    InOrderAppendStaysIntact(sha, rows, sequence, payload);
    assert Below(rows, sequence) == |rows|;
    assert Inserted(rows, packet) == rows + [packet];
  }

  /** Such a log links back, verifies, and numbers its payloads in order. */
  lemma {:induction false} AppendedIsSound(sha: string -> string, payloads: seq<Json>)
    ensures var rows := Appended(sha, payloads); LinkedBack(rows) && Ascending(rows) && Intact(sha, rows)
    ensures forall i :: 0 <= i < |payloads| ==>
      Appended(sha, payloads)[i].sequence == i + 1 && Appended(sha, payloads)[i].payload == payloads[i]
  {
    if payloads != [] {
      var n := |payloads| - 1;
      var front := Appended(sha, payloads[..n]);
      AppendedIsSound(sha, payloads[..n]);
      assert Appended(sha, payloads) == front + [NewPacket(sha, front, n + 1, payloads[n])];
      forall p | p in front ensures p.sequence < n + 1 {
        var i :| 0 <= i < |front| && front[i] == p;
      }
      assert forall i :: 0 <= i < n ==> payloads[..n][i] == payloads[i];
      AppendingLinksBack(sha, front, n + 1, payloads[n]);
      AppendingAtTheEnd(sha, front, n + 1, payloads[n]);
    }
  }

  /** The number given by default is above every number received, and 1 at the start. */
  lemma NextFreeIsAbove(rows: seq<Packet>)
    requires Ascending(rows)
    ensures NextFree([]) == 1
    ensures forall p :: p in rows ==> p.sequence < NextFree(rows)
    ensures rows != [] ==> exists p :: p in rows && p.sequence == NextFree(rows) - 1
  {
    if rows != [] {
      assert rows[|rows| - 1] in rows;
    }
  }
}
