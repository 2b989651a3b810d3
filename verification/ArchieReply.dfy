/** Putting a multi-packet Archie reply together: numbered packets that arrive in any
    order, more than once or not at all, over a few attempts. */
module ArchieReply {
  import opened Common

  const MAX_PACKETS: nat := 1024
  const RETRIES: nat := 3

  // ---------- packets ----------

  /** A usable packet: its number from 1, the total it announces, and its payload. */
  datatype Packet = Packet(number: nat, total: nat, payload: seq<Byte>)
  {
    ghost predicate Valid() {
      1 <= number <= total <= MAX_PACKETS
    }
  }

  /** Reads a datagram: header length 1 or 3 is a whole reply, 7 one packet of many. */
  function Decode(d: seq<Byte>): (p: Option<Packet>)
    requires d != []
    ensures p.Some? ==> p.value.Valid()
  {
    if d[0] == 1 || d[0] == 3 then
      Some(Packet(1, 1, if |d| > d[0] then d[d[0]..] else []))
    else if d[0] == 7 && |d| >= 7 then
      var number, total := Word16(d[3], d[4]), Word16(d[5], d[6]);
      if total < 1 || total > MAX_PACKETS || number < 1 || number > total then None
      else Some(Packet(number, total, d[7..]))
    else None
  }

  /** The packets a run of datagrams holds, up to the first that is empty, which reads
      as a time-out. */
  function Packets(datagrams: seq<seq<Byte>>): (packets: seq<Packet>)
    ensures forall i :: 0 <= i < |packets| ==> packets[i].Valid()
    decreases |datagrams|
  {
    if datagrams == [] || datagrams[0] == [] then []
    else
      var p := Decode(datagrams[0]);
      (if p.Some? then [p.value] else []) + Packets(datagrams[1..])
  }

  /** One attempt: whether the request went out, and what came before the time-out. */
  datatype Attempt = Attempt(sent: bool, datagrams: seq<seq<Byte>>)

  /** Everything heard over the attempts, in order of arrival. */
  function Heard(attempts: seq<Attempt>): (packets: seq<Packet>)
    ensures forall i :: 0 <= i < |packets| ==> packets[i].Valid()
    decreases |attempts|
  {
    if attempts == [] then []
    else (if attempts[0].sent then Packets(attempts[0].datagrams) else []) + Heard(attempts[1..])
  }

  // ---------- reassembly ----------

  /** What has been kept: the total first announced (0 before any) and, for each packet
      number counted from 0, the payload first seen for it. */
  datatype Parts = Parts(total: nat, kept: map<nat, seq<Byte>>)
  {
    predicate Complete() {
      total > 0 && |kept| >= total
    }

    function Add(p: Packet): Parts
      requires p.number > 0
    {
      Parts(if total == 0 then p.total else total,
            if p.number - 1 in kept then kept else kept[p.number - 1 := p.payload])
    }

    /** The payloads of the first n packets in order; a missing one adds nothing. */
    function Body(n: nat): seq<Byte> {
      if n == 0 then [] else Body(n - 1) + (if n - 1 in kept then kept[n - 1] else [])
    }
  }

  const NOTHING := Parts(0, map[])

  /** Adds packets until the reply is complete. */
  function Collected(parts: Parts, packets: seq<Packet>): Parts
    requires forall i :: 0 <= i < |packets| ==> packets[i].Valid()
    decreases |packets|
  {
    if packets == [] || parts.Complete() then parts
    else
      assert packets[0].Valid();
      Collected(parts.Add(packets[0]), packets[1..])
  }

  /** The body of a reply, if it was completed. */
  function Reassembled(packets: seq<Packet>): Option<seq<Byte>>
    requires forall i :: 0 <= i < |packets| ==> packets[i].Valid()
  {
    var parts := Collected(NOTHING, packets);
    if parts.Complete() then Some(parts.Body(parts.total)) else None
  }

  class Reassembler {
    const slots: array<Option<seq<Byte>>>
    var total: nat
    var got: nat
    ghost var parts: Parts

    ghost predicate Valid()
      reads this, slots
    {
      && slots.Length == MAX_PACKETS
      && parts.total == total <= MAX_PACKETS
      // the count is the number of filled slots
      && got == |parts.kept|
      && (forall i :: i in parts.kept ==> i < MAX_PACKETS)
      && (forall i :: 0 <= i < MAX_PACKETS ==> slots[i] == if i in parts.kept then Some(parts.kept[i]) else None)
    }

    constructor ()
      ensures Valid() && parts == NOTHING && fresh(slots)
    {
      slots := new Option<seq<Byte>>[MAX_PACKETS](_ => None);
      total, got, parts := 0, 0, NOTHING;
    }

    /** Takes one datagram; true once the reply is complete. */
    method Take(d: seq<Byte>) returns (complete: bool)
      requires Valid() && d != []
      requires !parts.Complete()
      modifies this, slots
      ensures Valid()
      ensures parts == if Decode(d).Some? then old(parts).Add(Decode(d).value) else old(parts)
      ensures complete == parts.Complete()
    {
      var p := Decode(d);
      if p.None? { return false; }
      var number, payload := p.value.number, p.value.payload;
      if total == 0 { total := p.value.total; }
      if slots[number - 1] == None {
        slots[number - 1] := Some(payload);
        got := got + 1;
      }
      parts := parts.Add(p.value);
      complete := total > 0 && got >= total;
    }

    /** Receives until the reply is complete or the time-out. */
    method Listen(datagrams: seq<seq<Byte>>) returns (complete: bool)
      requires Valid() && !parts.Complete()
      modifies this, slots
      ensures Valid() && complete == parts.Complete()
      ensures parts == Collected(old(parts), Packets(datagrams))
    {
      complete := false;
      var i: nat := 0;
      assert datagrams[0..] == datagrams;
      while i < |datagrams|
        invariant i <= |datagrams| && Valid() && !parts.Complete()
        invariant Collected(parts, Packets(datagrams[i..])) == Collected(old(parts), Packets(datagrams))
      {
        var d := datagrams[i];
        PacketsFirst(datagrams, i, parts);
        if |d| == 0 { return; }
        complete := Take(d);
        if complete { return; }
        i := i + 1;
      }
    }

    /** The payloads in order. */
    method Concatenate() returns (body: seq<Byte>)
      requires Valid()
      ensures body == parts.Body(total)
    {
      body := [];
      for i := 0 to total
        invariant body == parts.Body(i)
      {
        if slots[i].Some? && |slots[i].value| > 0 {
          body := body + slots[i].value;
        } else {
          assert body + [] == body;
        }
      }
    }
  }

  lemma PacketsFirst(datagrams: seq<seq<Byte>>, i: nat, parts: Parts)
    requires i < |datagrams| && !parts.Complete()
    ensures var d := datagrams[i];
      Collected(parts, Packets(datagrams[i..])) ==
        if d == [] then parts
        else if Decode(d).None? then Collected(parts, Packets(datagrams[i + 1..]))
        else Collected(parts.Add(Decode(d).value), Packets(datagrams[i + 1..]))
  {
    DropOfDrop(datagrams, i, 1);
    var d, rest := datagrams[i], Packets(datagrams[i + 1..]);
    assert datagrams[i..][0] == d;
    if d != [] && Decode(d).Some? {
      assert Packets(datagrams[i..]) == [Decode(d).value] + rest;
      assert ([Decode(d).value] + rest)[1..] == rest;
    } else if d != [] {
      assert [] + rest == rest;
    }
  }

  lemma {:induction false} CollectedAppend(parts: Parts, a: seq<Packet>, b: seq<Packet>)
    requires forall i :: 0 <= i < |a| ==> a[i].Valid()
    requires forall i :: 0 <= i < |b| ==> b[i].Valid()
    ensures forall i :: 0 <= i < |a + b| ==> (a + b)[i].Valid()
    ensures Collected(parts, a + b) == Collected(Collected(parts, a), b)
    decreases |a|
  {
    if a == [] {
      assert a + b == b;
    } else if parts.Complete() {
      assert b == [] || Collected(parts, b) == parts;
    } else {
      assert (a + b)[0] == a[0] && (a + b)[1..] == a[1..] + b;
      CollectedAppend(parts.Add(a[0]), a[1..], b);
    }
  }

  /** The send, collect and retransmit loop of a query. */
  method Query(attempts: seq<Attempt>) returns (body: Option<seq<Byte>>)
    requires |attempts| == 4
    ensures body == Reassembled(Heard(attempts))
  {
    var r := new Reassembler();
    var complete := false;
    var attempt := 0;
    assert attempts[0..] == attempts;
    while attempt <= RETRIES && !complete
      invariant attempt <= RETRIES + 1 && r.Valid() && fresh(r) && fresh(r.slots)
      invariant complete == r.parts.Complete()
      invariant Collected(r.parts, Heard(attempts[attempt..])) == Collected(NOTHING, Heard(attempts))
    {
      var a := attempts[attempt];
      HeardFirst(attempts, attempt, r.parts);
      attempt := attempt + 1;
      if !a.sent { continue; }
      complete := r.Listen(a.datagrams);
    }
    if !complete { return None; }
    var b := r.Concatenate();
    body := Some(b);
  }

  lemma HeardFirst(attempts: seq<Attempt>, i: nat, parts: Parts)
    requires i < |attempts|
    ensures Collected(parts, Heard(attempts[i..])) ==
      Collected(if attempts[i].sent then Collected(parts, Packets(attempts[i].datagrams)) else parts, Heard(attempts[i + 1..]))
  {
    hide Collected, Packets;
    DropOfDrop(attempts, i, 1);
    if attempts[i].sent {
      CollectedAppend(parts, Packets(attempts[i].datagrams), Heard(attempts[i + 1..]));
    } else {
      assert [] + Heard(attempts[i + 1..]) == Heard(attempts[i + 1..]);
    }
  }

  // ---------- what reassembly gives ----------

  /** The payload first seen for packet i, counted from 0. */
  function First(packets: seq<Packet>, i: nat): Option<seq<Byte>>
    decreases |packets|
  {
    if packets == [] then None
    else if packets[0].number == i + 1 then Some(packets[0].payload)
    else First(packets[1..], i)
  }

  ghost predicate AllValid(packets: seq<Packet>) {
    forall i :: 0 <= i < |packets| ==> packets[i].Valid()
  }

  /** Every packet announces the same total. */
  ghost predicate SameTotal(packets: seq<Packet>, total: nat) {
    forall i :: 0 <= i < |packets| ==> packets[i].total == total
  }

  ghost predicate Within(parts: Parts, total: nat) {
    && (parts.total == total || parts == NOTHING)
    && forall i :: i in parts.kept ==> i < total
  }

  function Below(n: nat): (s: set<nat>)
    ensures |s| == n && forall i: nat :: i in s <==> i < n
  {
    if n == 0 then {} else Below(n - 1) + {n - 1}
  }

  lemma FullCount(keys: set<nat>, n: nat)
    requires forall i :: i in keys ==> i < n
    ensures |keys| <= n
    ensures |keys| == n <==> keys == Below(n)
  {
    assert keys <= Below(n);
    SubsetSize(keys, Below(n));
  }

  lemma {:induction false} SubsetSize(a: set<nat>, b: set<nat>)
    requires a <= b
    ensures |a| <= |b| && (|a| == |b| ==> a == b)
    decreases a
  {
    if a != {} {
      var x :| x in a;
      SubsetSize(a - {x}, b - {x});
    }
  }

  /** With one total throughout, what is kept is the first payload of each number. */
  lemma {:induction false} KeptIsFirst(parts: Parts, packets: seq<Packet>, total: nat, i: nat)
    requires AllValid(packets) && SameTotal(packets, total) && Within(parts, total) && i < total
    ensures var r := Collected(parts, packets);
      && Within(r, total)
      && (if i in parts.kept then i in r.kept && r.kept[i] == parts.kept[i]
          else if First(packets, i).Some? then i in r.kept && r.kept[i] == First(packets, i).value
          else i !in r.kept)
    decreases |packets|
  {
    if parts.Complete() {
      FullCount(parts.kept.Keys, total);
      assert i in Below(total);
    } else if packets != [] {
      assert Within(parts.Add(packets[0]), total);
      KeptIsFirst(parts.Add(packets[0]), packets[1..], total, i);
    }
  }

  /** Packets with all the numbers up to n have arrived. */
  ghost predicate AllArrived(packets: seq<Packet>, n: nat) {
    forall i: nat :: i < n ==> First(packets, i).Some?
  }

  lemma CompleteMeansArrived(packets: seq<Packet>, total: nat)
    requires AllValid(packets) && SameTotal(packets, total) && total > 0
    requires Collected(NOTHING, packets).Complete()
    ensures AllArrived(packets, total)
  {
    hide Collected;
    var r := Collected(NOTHING, packets);
    KeptIsFirst(NOTHING, packets, total, 0);
    FullCount(r.kept.Keys, total);
    forall i: nat | i < total ensures First(packets, i).Some? {
      assert i in Below(total);
      KeptIsFirst(NOTHING, packets, total, i);
    }
  }

  lemma ArrivedMeansComplete(packets: seq<Packet>, total: nat)
    requires AllValid(packets) && SameTotal(packets, total) && total > 0
    requires AllArrived(packets, total)
    ensures Collected(NOTHING, packets).Complete()
  {
    hide Collected;
    var r := Collected(NOTHING, packets);
    assert First(packets, 0).Some?;
    TotalIsTaken(packets, total);
    forall i: nat | i < total ensures i in r.kept {
      assert First(packets, i).Some?;
      KeptIsFirst(NOTHING, packets, total, i);
    }
    assert Below(total) <= r.kept.Keys;
    SubsetSize(Below(total), r.kept.Keys);
  }

  /** With one total throughout, the reply is complete exactly when every number has
      arrived, whatever the order and however often. */
  lemma CompleteIffAllArrived(packets: seq<Packet>, total: nat)
    requires AllValid(packets) && SameTotal(packets, total) && total > 0
    ensures Collected(NOTHING, packets).Complete() <==> AllArrived(packets, total)
  {
    hide Collected, AllArrived;
    if Collected(NOTHING, packets).Complete() { CompleteMeansArrived(packets, total); }
    if AllArrived(packets, total) { ArrivedMeansComplete(packets, total); }
  }

  lemma {:induction false} TotalStays(parts: Parts, packets: seq<Packet>)
    requires AllValid(packets) && parts.total > 0
    ensures Collected(parts, packets).total == parts.total
    decreases |packets|
  {
    if packets != [] && !parts.Complete() { TotalStays(parts.Add(packets[0]), packets[1..]); }
  }

  lemma TotalIsTaken(packets: seq<Packet>, total: nat)
    requires AllValid(packets) && packets != [] && packets[0].total == total
    ensures Collected(NOTHING, packets).total == total
  {
    assert packets[0].Valid();
    TotalStays(NOTHING.Add(packets[0]), packets[1..]);
  }

  /** The payloads first seen for packets 0 to n - 1, in order. */
  function InOrder(packets: seq<Packet>, n: nat): seq<Byte> {
    if n == 0 then [] else InOrder(packets, n - 1) + First(packets, n - 1).GetOr([])
  }

  /** What was kept for a packet is what was first seen of it, whatever the totals. */
  lemma {:induction false} KeptWasFirstSeen(parts: Parts, packets: seq<Packet>, i: nat)
    requires AllValid(packets)
    ensures var r := Collected(parts, packets);
      if i in parts.kept then i in r.kept && r.kept[i] == parts.kept[i]
      else i in r.kept ==> First(packets, i) == Some(r.kept[i])
    decreases |packets|
  {
    if packets != [] && !parts.Complete() {
      assert packets[0].Valid();
      KeptWasFirstSeen(parts.Add(packets[0]), packets[1..], i);
    }
  }

  lemma {:induction false} BodyIsInOrder(packets: seq<Packet>, n: nat)
    requires AllValid(packets)
    requires forall i: nat :: i < n ==> i in Collected(NOTHING, packets).kept
    ensures Collected(NOTHING, packets).Body(n) == InOrder(packets, n)
  {
    hide Collected, First;
    if n > 0 {
      BodyIsInOrder(packets, n - 1);
      KeptWasFirstSeen(NOTHING, packets, n - 1);
    }
  }

  /** With one total throughout, in any order, with any repetition, loss and sending
      again: the body is the first payload of every number, in order, if all have
      arrived, and otherwise there is none. */
  lemma FirstPayloadsInOrder(packets: seq<Packet>, total: nat)
    requires AllValid(packets) && SameTotal(packets, total) && total > 0
    ensures Reassembled(packets) == if AllArrived(packets, total) then Some(InOrder(packets, total)) else None
  {
    hide Collected, First;
    CompleteIffAllArrived(packets, total);
    if AllArrived(packets, total) {
      assert First(packets, 0).Some?;
      NothingFirst(0);
      TotalIsTaken(packets, total);
      forall i: nat | i < total ensures i in Collected(NOTHING, packets).kept {
        assert First(packets, i).Some?;
        KeptIsFirst(NOTHING, packets, total, i);
      }
      BodyIsInOrder(packets, total);
    }
  }

  lemma NothingFirst(i: nat)
    ensures First([], i).None?
  {
  }

  /** The packets of one reply, cut up by the server. */
  ghost predicate FromReply(packets: seq<Packet>, reply: seq<seq<Byte>>) {
    forall i :: 0 <= i < |packets| ==>
      packets[i].Valid() && packets[i].total == |reply| && packets[i].payload == reply[packets[i].number - 1]
  }

  lemma {:induction false} FirstFromReply(packets: seq<Packet>, reply: seq<seq<Byte>>, i: nat)
    requires FromReply(packets, reply) && i < |reply|
    ensures First(packets, i).Some? ==> First(packets, i).value == reply[i]
    decreases |packets|
  {
    if packets != [] {
      assert packets[0].payload == reply[packets[0].number - 1];
      FirstFromReply(packets[1..], reply, i);
    }
  }

  lemma {:induction false} InOrderOfReply(packets: seq<Packet>, reply: seq<seq<Byte>>, n: nat)
    requires FromReply(packets, reply) && n <= |reply| && AllArrived(packets, n)
    ensures InOrder(packets, n) == Flatten(reply[..n])
  {
    hide First;
    if n > 0 {
      assert First(packets, n - 1).Some?;
      InOrderOfReply(packets, reply, n - 1);
      FirstFromReply(packets, reply, n - 1);
      PrefixSnoc(reply, n - 1);
      FlattenAppend(reply[..n - 1], [reply[n - 1]]);
      assert Flatten([reply[n - 1]]) == reply[n - 1];
    }
  }

  /** In particular, packets of one reply give the reply if all came. */
  lemma OrderDoesNotMatter(packets: seq<Packet>, reply: seq<seq<Byte>>)
    requires FromReply(packets, reply) && reply != []
    ensures Reassembled(packets) == if AllArrived(packets, |reply|) then Some(Flatten(reply)) else None
  {
    hide Collected, First;
    FirstPayloadsInOrder(packets, |reply|);
    if AllArrived(packets, |reply|) {
      InOrderOfReply(packets, reply, |reply|);
      assert reply[..|reply|] == reply;
    }
  }

  // ---------- on the wire ----------

  /** A packet of several as a server sends it: seven octets, of which the second and
      third name the connection, and the payload. */
  function DatagramOf(id: (Byte, Byte), number: nat, total: nat, payload: seq<Byte>): seq<Byte>
    requires number < 0x10000 && total < 0x10000
  {
    [7, id.0, id.1, number / 256, number % 256, total / 256, total % 256] + payload
  }

  lemma DecodesPacket(id: (Byte, Byte), number: nat, total: nat, payload: seq<Byte>)
    requires number < 0x10000 && total < 0x10000
    ensures Decode(DatagramOf(id, number, total, payload)) ==
      if 1 <= number <= total <= 1024 then Some(Packet(number, total, payload)) else None
  {
    var d := DatagramOf(id, number, total, payload);
    assert d[3] == number / 256 && d[4] == number % 256 && d[5] == total / 256 && d[6] == total % 256;
    assert d[7..] == payload;
  }

  /** A reply that is one packet has one or three octets before it. */
  lemma DecodesSingle(id: (Byte, Byte), payload: seq<Byte>)
    ensures Decode([1] + payload) == Some(Packet(1, 1, payload))
    ensures Decode([3, id.0, id.1] + payload) == Some(Packet(1, 1, payload))
    ensures Decode([3]) == Decode([3, id.0]) == Some(Packet(1, 1, []))
  {
    assert ([1] + payload)[1..] == payload && ([3, id.0, id.1] + payload)[3..] == payload;
  }

  /** Anything else is ignored. */
  lemma IgnoresOthers(first: Byte, rest: seq<Byte>)
    requires first != 1 && first != 3 && (first != 7 || |rest| < 6)
    ensures Decode([first] + rest) == None
  {
  }

  /** What the network delivers of a reply: some part of it, or a datagram that is no
      packet at all. */
  datatype Delivery = Part(id: (Byte, Byte), index: nat) | Stray(first: Byte, rest: seq<Byte>)
  {
    ghost predicate Of(reply: seq<seq<Byte>>) {
      if Part? then index < |reply| else first != 1 && first != 3 && (first != 7 || |rest| < 6)
    }

    function Datagram(reply: seq<seq<Byte>>): seq<Byte>
      requires |reply| <= MAX_PACKETS && Of(reply)
    {
      if Part? then DatagramOf(id, index + 1, |reply|, reply[index]) else [first] + rest
    }
  }

  /** A round of a query: whether the request went out, and what then arrived in time. */
  datatype Exchange = Exchange(sent: bool, deliveries: seq<Delivery>)

  ghost predicate AllOf(deliveries: seq<Delivery>, reply: seq<seq<Byte>>) {
    forall i :: 0 <= i < |deliveries| ==> deliveries[i].Of(reply)
  }

  function Datagrams(deliveries: seq<Delivery>, reply: seq<seq<Byte>>): seq<seq<Byte>>
    requires |reply| <= MAX_PACKETS && AllOf(deliveries, reply)
  {
    if deliveries == [] then []
    else
      assert deliveries[0].Of(reply);
      [deliveries[0].Datagram(reply)] + Datagrams(deliveries[1..], reply)
  }

  function AttemptsOf(exchanges: seq<Exchange>, reply: seq<seq<Byte>>): (a: seq<Attempt>)
    requires |reply| <= MAX_PACKETS && forall i :: 0 <= i < |exchanges| ==> AllOf(exchanges[i].deliveries, reply)
    ensures |a| == |exchanges|
  {
    if exchanges == [] then []
    else
      assert AllOf(exchanges[0].deliveries, reply);
      [Attempt(exchanges[0].sent, Datagrams(exchanges[0].deliveries, reply))] + AttemptsOf(exchanges[1..], reply)
  }

  ghost predicate Delivers(deliveries: seq<Delivery>, index: nat) {
    exists j :: 0 <= j < |deliveries| && deliveries[j].Part? && deliveries[j].index == index
  }

  /** Whether a part of the reply arrived in a round whose request went out. */
  ghost predicate Received(exchanges: seq<Exchange>, index: nat) {
    exists i :: 0 <= i < |exchanges| && exchanges[i].sent && Delivers(exchanges[i].deliveries, index)
  }

  lemma DatagramIsRead(d: Delivery, reply: seq<seq<Byte>>)
    requires 0 < |reply| <= MAX_PACKETS && d.Of(reply)
    ensures d.Datagram(reply) != []
    ensures Decode(d.Datagram(reply)) == if d.Part? then Some(Packet(d.index + 1, |reply|, reply[d.index])) else None
  {
    hide Decode;
    if d.Part? {
      DecodesPacket(d.id, d.index + 1, |reply|, reply[d.index]);
    } else {
      IgnoresOthers(d.first, d.rest);
    }
  }

  /** The packets heard in one round. */
  lemma {:induction false} PacketsRead(deliveries: seq<Delivery>, reply: seq<seq<Byte>>)
    requires 0 < |reply| <= MAX_PACKETS && AllOf(deliveries, reply)
    ensures FromReply(Packets(Datagrams(deliveries, reply)), reply)
    ensures forall i: nat :: First(Packets(Datagrams(deliveries, reply)), i).Some? <==> Delivers(deliveries, i)
    decreases |deliveries|
  {
    hide Decode, Delivery.Datagram, Delivers;
    if deliveries == [] {
      forall i: nat ensures !Delivers(deliveries, i) { DeliversFirst(deliveries, i); }
    } else {
      var d, rest := deliveries[0], deliveries[1..];
      assert d.Of(reply);
      DatagramIsRead(d, reply);
      PacketsRead(rest, reply);
      var tail := Packets(Datagrams(rest, reply));
      var one: seq<Packet> := if d.Part? then [Packet(d.index + 1, |reply|, reply[d.index])] else [];
      FirstDatagram(deliveries, reply);
      forall i: nat
        ensures First(one + tail, i).Some? <==> Delivers(deliveries, i)
      {
        DeliversFirst(deliveries, i);
        if d.Part? {
          assert (one + tail)[0] == one[0] && (one + tail)[1..] == tail;
        } else {
          assert one + tail == tail;
        }
      }
    }
  }

  lemma FirstDatagram(deliveries: seq<Delivery>, reply: seq<seq<Byte>>)
    requires 0 < |reply| <= MAX_PACKETS && deliveries != [] && AllOf(deliveries, reply)
    ensures var d := deliveries[0];
      Packets(Datagrams(deliveries, reply)) ==
        (if d.Part? then [Packet(d.index + 1, |reply|, reply[d.index])] else []) + Packets(Datagrams(deliveries[1..], reply))
  {
    hide Decode, Delivery.Datagram;
    var d := deliveries[0];
    assert d.Of(reply);
    DatagramIsRead(d, reply);
    assert Datagrams(deliveries, reply)[1..] == Datagrams(deliveries[1..], reply);
  }

  lemma DeliversFirst(deliveries: seq<Delivery>, index: nat)
    ensures Delivers(deliveries, index) <==>
      deliveries != [] && ((deliveries[0].Part? && deliveries[0].index == index) || Delivers(deliveries[1..], index))
  {
    if deliveries != [] {
      var rest := deliveries[1..];
      if Delivers(rest, index) {
        var j :| 0 <= j < |rest| && rest[j].Part? && rest[j].index == index;
        assert deliveries[j + 1] == rest[j];
      }
      if Delivers(deliveries, index) {
        var j :| 0 <= j < |deliveries| && deliveries[j].Part? && deliveries[j].index == index;
        if j > 0 { assert rest[j - 1] == deliveries[j]; }
      }
    }
  }

  lemma {:induction false} FirstOfBoth(a: seq<Packet>, b: seq<Packet>, i: nat)
    ensures First(a + b, i).Some? <==> First(a, i).Some? || First(b, i).Some?
    decreases |a|
  {
    if a == [] {
      assert a + b == b;
    } else {
      assert (a + b)[0] == a[0] && (a + b)[1..] == a[1..] + b;
      FirstOfBoth(a[1..], b, i);
    }
  }

  lemma ReceivedFirst(exchanges: seq<Exchange>, index: nat)
    ensures Received(exchanges, index) <==>
      exchanges != [] && ((exchanges[0].sent && Delivers(exchanges[0].deliveries, index)) || Received(exchanges[1..], index))
  {
    hide Delivers;
    if exchanges != [] {
      var rest := exchanges[1..];
      if Received(rest, index) {
        var i :| 0 <= i < |rest| && rest[i].sent && Delivers(rest[i].deliveries, index);
        assert exchanges[i + 1] == rest[i];
      }
      if Received(exchanges, index) {
        var i :| 0 <= i < |exchanges| && exchanges[i].sent && Delivers(exchanges[i].deliveries, index);
        if i > 0 { assert rest[i - 1] == exchanges[i]; }
      }
    }
  }

  lemma {:induction false} HeardRead(exchanges: seq<Exchange>, reply: seq<seq<Byte>>)
    requires 0 < |reply| <= MAX_PACKETS && forall i :: 0 <= i < |exchanges| ==> AllOf(exchanges[i].deliveries, reply)
    ensures FromReply(Heard(AttemptsOf(exchanges, reply)), reply)
    ensures forall i: nat :: First(Heard(AttemptsOf(exchanges, reply)), i).Some? <==> Received(exchanges, i)
    decreases |exchanges|
  {
    hide First, Packets, Received, Delivers, Datagrams, AllOf;
    if exchanges == [] {
      forall i: nat ensures First([], i).None? && !Received(exchanges, i) {
        NothingFirst(i);
        ReceivedFirst(exchanges, i);
      }
    } else {
      var e, rest := exchanges[0], exchanges[1..];
      assert AllOf(e.deliveries, reply);
      HeardRead(rest, reply);
      PacketsRead(e.deliveries, reply);
      var here: seq<Packet> := if e.sent then Packets(Datagrams(e.deliveries, reply)) else [];
      var tail := Heard(AttemptsOf(rest, reply));
      assert AttemptsOf(exchanges, reply)[1..] == AttemptsOf(rest, reply);
      assert Heard(AttemptsOf(exchanges, reply)) == here + tail;
      forall i: nat ensures First(here + tail, i).Some? <==> Received(exchanges, i) {
        FirstOfBoth(here, tail, i);
        ReceivedFirst(exchanges, i);
        NothingFirst(i);
      }
    }
  }

  /** A query for a reply of any number of parts: whatever the network delivers in its
      rounds, the body is the reply exactly if every part arrived in some round whose
      request went out, and otherwise there is none. */
  lemma QueryGetsReply(exchanges: seq<Exchange>, reply: seq<seq<Byte>>)
    requires 0 < |reply| <= MAX_PACKETS && forall i :: 0 <= i < |exchanges| ==> AllOf(exchanges[i].deliveries, reply)
    ensures Reassembled(Heard(AttemptsOf(exchanges, reply))) ==
      if forall i: nat :: i < |reply| ==> Received(exchanges, i) then Some(Flatten(reply)) else None
  {
    hide First, Received, Heard, AllOf;
    HeardRead(exchanges, reply);
    var packets := Heard(AttemptsOf(exchanges, reply));
    OrderDoesNotMatter(packets, reply);
    assert AllArrived(packets, |reply|) <==> forall i: nat :: i < |reply| ==> Received(exchanges, i);
  }

  // ---------- totals that differ ----------

  lemma {:induction false} NoOverfill(parts: Parts, packets: seq<Packet>)
    requires AllValid(packets)
    requires parts.total > 0 ==> |parts.kept| <= parts.total
    requires parts.total == 0 ==> parts == NOTHING
    ensures var r := Collected(parts, packets); r.total > 0 ==> |r.kept| <= r.total
    decreases |packets|
  {
    if packets != [] && !parts.Complete() {
      assert packets[0].Valid();
      NoOverfill(parts.Add(packets[0]), packets[1..]);
    }
  }

  /** Parts that are not overfull have everything up to the total exactly when they are
      complete with nothing beyond it. */
  lemma NoGapIffNoneBeyond(parts: Parts)
    requires parts.total > 0 && |parts.kept| <= parts.total
    ensures (forall i: nat :: i < parts.total ==> i in parts.kept) <==>
      parts.Complete() && forall i :: i in parts.kept ==> i < parts.total
  {
    var keys := parts.kept.Keys;
    if parts.Complete() && forall i :: i in parts.kept ==> i < parts.total {
      FullCount(keys, parts.total);
      forall i: nat | i < parts.total ensures i in parts.kept { assert i in Below(parts.total); }
    }
    if forall i: nat :: i < parts.total ==> i in parts.kept {
      assert Below(parts.total) <= keys;
      SubsetSize(Below(parts.total), keys);
    }
  }

  /** Up to some packet all numbers up to the total have arrived, and by then none
      beyond it. */
  ghost predicate ArrivesWhole(packets: seq<Packet>, total: nat) {
    exists k: nat :: k <= |packets| && WholeBy(packets, total, k)
  }

  ghost predicate WholeBy(packets: seq<Packet>, total: nat, k: nat)
    requires k <= |packets|
  {
    AllArrived(packets[..k], total) && forall j :: 0 <= j < k ==> packets[j].number <= total
  }

  /** The same, when some packets are there already. */
  ghost predicate CompletesBy(parts: Parts, packets: seq<Packet>, k: nat)
    requires k <= |packets|
  {
    && (forall i: nat :: i < parts.total ==> i in parts.kept || First(packets[..k], i).Some?)
    && forall j :: 0 <= j < k ==> packets[j].number <= parts.total
  }

  ghost predicate Whole(parts: Parts) {
    parts.Complete() && forall i: nat :: i < parts.total ==> i in parts.kept
  }

  lemma FirstOfPrefix(packets: seq<Packet>, k: nat, i: nat)
    requires 0 < k <= |packets|
    ensures First(packets[..k], i) ==
      if packets[0].number == i + 1 then Some(packets[0].payload) else First(packets[1..][..k - 1], i)
  {
    assert packets[..k][0] == packets[0] && packets[..k][1..] == packets[1..][..k - 1];
  }

  /** One packet within the total, added before the others. */
  lemma AddFirst(parts: Parts, packets: seq<Packet>, k: nat)
    requires AllValid(packets) && 0 < k <= |packets| && parts.total > 0 && packets[0].number <= parts.total
    ensures CompletesBy(parts, packets, k) <==> packets[0].number > 0 && CompletesBy(parts.Add(packets[0]), packets[1..], k - 1)
  {
    hide First;
    var p, rest := packets[0], packets[1..];
    assert p.Valid();
    forall i: nat ensures First(packets[..k], i) == if p.number == i + 1 then Some(p.payload) else First(rest[..k - 1], i) {
      FirstOfPrefix(packets, k, i);
    }
    assert forall j :: 0 < j < k ==> packets[j] == rest[j - 1];
    assert forall j :: 0 <= j < k - 1 ==> rest[j] == packets[j + 1];
  }

  /** Packets beyond the total stay for good, so that some other is missing. */
  lemma NeverWhole(parts: Parts, packets: seq<Packet>, i: nat)
    requires AllValid(packets) && parts.total > 0 && |parts.kept| <= parts.total
    requires i in parts.kept && i >= parts.total
    ensures !Whole(Collected(parts, packets))
  {
    hide Collected;
    var r := Collected(parts, packets);
    NoOverfill(parts, packets);
    TotalStays(parts, packets);
    KeptWasFirstSeen(parts, packets, i);
    NoGapIffNoneBeyond(r);
  }

  /** Parts with nothing beyond the total are whole when they are complete. */
  lemma CompleteIsWhole(parts: Parts)
    requires parts.total > 0 && forall i :: i in parts.kept ==> i < parts.total
    ensures parts.Complete() <==> forall i: nat :: i < parts.total ==> i in parts.kept
  {
    FullCount(parts.kept.Keys, parts.total);
    NoGapIffNoneBeyond(parts);
  }

  lemma {:induction false} WholeIffCompletesBy(parts: Parts, packets: seq<Packet>)
    requires AllValid(packets) && parts.total > 0 && forall i :: i in parts.kept ==> i < parts.total
    ensures Whole(Collected(parts, packets)) <==> exists k: nat :: k <= |packets| && CompletesBy(parts, packets, k)
    decreases |packets|
  {
    hide CompletesBy, Parts.Add;
    CompleteIsWhole(parts);
    StartIsWhole(parts, packets);
    if packets != [] && !parts.Complete() {
      var p, rest := packets[0], packets[1..];
      assert p.Valid();
      if p.number <= parts.total {
        AddWithin(parts, p);
        WholeIffCompletesBy(parts.Add(p), rest);
        forall k: nat | 0 < k <= |packets|
          ensures CompletesBy(parts, packets, k) <==> CompletesBy(parts.Add(p), rest, k - 1)
        {
          AddFirst(parts, packets, k);
        }
        if exists k: nat :: k <= |rest| && CompletesBy(parts.Add(p), rest, k) {
          var k: nat :| k <= |rest| && CompletesBy(parts.Add(p), rest, k);
          assert CompletesBy(parts, packets, k + 1);
        }
      } else {
        AddBeyond(parts, p);
        NeverWhole(parts.Add(p), rest, p.number - 1);
        BeyondIsNotBy(parts, packets);
      }
    }
  }

  /** With nothing more taken, parts are whole if they were. */
  lemma StartIsWhole(parts: Parts, packets: seq<Packet>)
    ensures CompletesBy(parts, packets, 0) <==> forall i: nat :: i < parts.total ==> i in parts.kept
  {
    assert packets[..0] == [];
    forall i: nat ensures First(packets[..0], i).None? { NothingFirst(i); }
  }

  lemma AddWithin(parts: Parts, p: Packet)
    requires p.Valid() && parts.total > 0 && p.number <= parts.total && forall i :: i in parts.kept ==> i < parts.total
    ensures parts.Add(p).total == parts.total && forall i :: i in parts.Add(p).kept ==> i < parts.total
  {
  }

  lemma AddBeyond(parts: Parts, p: Packet)
    requires p.Valid() && parts.total > 0 && parts.total < p.number && !parts.Complete()
    ensures var r := parts.Add(p); r.total == parts.total && p.number - 1 in r.kept && |r.kept| <= r.total
  {
  }

  lemma BeyondIsNotBy(parts: Parts, packets: seq<Packet>)
    requires packets != [] && packets[0].number > parts.total
    ensures forall k: nat :: 0 < k <= |packets| ==> !CompletesBy(parts, packets, k)
  {
  }

  /** Whatever totals are announced, a reply is counted complete with all its packets
      exactly when they have all arrived before any packet whose number is beyond the
      total first announced; the body is then their first payloads in order. */
  lemma CompleteWithoutGapIff(packets: seq<Packet>)
    requires AllValid(packets) && packets != []
    ensures Whole(Collected(NOTHING, packets)) <==> ArrivesWhole(packets, packets[0].total)
    ensures ArrivesWhole(packets, packets[0].total) ==> Reassembled(packets) == Some(InOrder(packets, packets[0].total))
  {
    hide Collected, CompletesBy, WholeBy;
    var start := Parts(packets[0].total, map[]);
    FirstTaken(packets);
    WholeIffCompletesBy(start, packets);
    forall k: nat | k <= |packets| ensures CompletesBy(start, packets, k) <==> WholeBy(packets, start.total, k) {
      FromTheStart(packets, start.total, k);
    }
    if Whole(Collected(NOTHING, packets)) {
      TotalIsTaken(packets, start.total);
      BodyIsInOrder(packets, start.total);
    }
  }

  lemma FirstTaken(packets: seq<Packet>)
    requires AllValid(packets) && packets != []
    ensures packets[0].total > 0
    ensures Collected(NOTHING, packets) == Collected(Parts(packets[0].total, map[]), packets)
  {
    assert packets[0].Valid();
  }

  lemma FromTheStart(packets: seq<Packet>, total: nat, k: nat)
    requires k <= |packets|
    ensures CompletesBy(Parts(total, map[]), packets, k) <==> WholeBy(packets, total, k)
  {
    hide First;
  }

  /** A reply with a gap: the second packet announces another total, and the first of
      two packets is taken for both. */
  lemma DifferingTotalsLeaveAGap()
    ensures var p, q := Packet(1, 2, [65]), Packet(3, 3, [67]);
      Reassembled([p, q]) == Some([65]) && First([p, q], 1).None?
  {
    var p, q := Packet(1, 2, [65]), Packet(3, 3, [67]);
    var one := NOTHING.Add(p);
    var two := one.Add(q);
    assert one == Parts(2, map[0 := [65]]) && two == Parts(2, map[0 := [65], 2 := [67]]);
    assert [p, q][1..] == [q] && [q][1..] == [];
    assert Collected(one, [q]) == Collected(two, []) == two;
    assert Collected(NOTHING, [p, q]) == two;
    assert two.Body(1) == [] + [65] == [65];
    assert two.Body(2) == two.Body(1) + [] == [65];
    assert First([q], 1).None?;
  }
}
