/** The sink's unpacking loop. */
module Sinks {
  import opened Sequences
  import opened Packets

  /** How many headers are for records still in time. */
  function InTime(headers: seq<Header>, now: int, deadlineOf: Header -> int): (n: nat)
    ensures n <= |headers|
  {
    if headers == [] then 0 else InTime(headers[1..], now, deadlineOf) + (if deadlineOf(headers[0]) > now then 1 else 0)
  }

  /** How many bytes there are in all. */
  function BytesIn(packets: seq<seq<Byte>>): nat {
    if packets == [] then 0 else |packets[0]| + BytesIn(packets[1..])
  }

  /** The headers of the whole records of each packet. */
  function HeadersIn(packets: seq<seq<Byte>>): seq<Header> {
    if packets == [] then [] else Headers(packets[0]) + HeadersIn(packets[1..])
  }

  /** Which records are in time: those whose deadline is still ahead. */
  function TimelyPlaces(headers: seq<Header>, now: int, deadlineOf: Header -> int): set<nat> {
    set i: nat | i < |headers| && deadlineOf(headers[i]) > now
  }

  /** InTime counts exactly those. */
  lemma {:induction false} InTimeCounts(headers: seq<Header>, now: int, deadlineOf: Header -> int)
    ensures InTime(headers, now, deadlineOf) == |TimelyPlaces(headers, now, deadlineOf)|
  {
    if headers != [] {
      var n, front := |headers| - 1, headers[..|headers| - 1];
      var more, all := TimelyPlaces(front, now, deadlineOf), TimelyPlaces(headers, now, deadlineOf);
      InTimeCounts(front, now, deadlineOf);
      assert headers == front + [headers[n]];
      InTimeAppend(front, [headers[n]], now, deadlineOf);
      var last: seq<Header> := [headers[n]];
      assert last[1..] == [];
      assert all == if deadlineOf(headers[n]) > now then more + {n} else more;
    }
  }

  lemma {:induction false} BytesInAll(packets: seq<seq<Byte>>)
    ensures BytesIn(packets) == |Flatten(packets)|
  {
    if packets != [] {
      BytesInAll(packets[1..]);
    }
  }

  /** The packets that carry some records each. */
  function Packed(loads: seq<seq<Record>>): seq<seq<Byte>> {
    if loads == [] then [] else [Serialize(loads[0])] + Packed(loads[1..])
  }

  lemma {:induction false} HeadersOfAppend(a: seq<Record>, b: seq<Record>)
    ensures HeadersOf(a + b) == HeadersOf(a) + HeadersOf(b)
  {
    if a == [] {
      assert a + b == b;
    } else {
      TailOfSum(a, b);
      HeadersOfAppend(a[1..], b);
      Associative([a[0].header], HeadersOf(a[1..]), HeadersOf(b));
    }
  }

  /** Out of packets of whole records come exactly the headers of all the records, in order. */
  lemma {:induction false} SinkSeesAll(loads: seq<seq<Record>>)
    requires forall i :: 0 <= i < |loads| ==> forall r :: r in loads[i] ==> r.Valid()
    ensures HeadersIn(Packed(loads)) == HeadersOf(Flatten(loads))
  {
    if loads != [] {
      SinkSeesAll(loads[1..]);
      SerializeSplits(loads[0]);
      HeadersOfAppend(loads[0], Flatten(loads[1..]));
      assert Packed(loads)[1..] == Packed(loads[1..]);
    }
  }

  lemma {:induction false} InTimeAppend(a: seq<Header>, b: seq<Header>, now: int, deadlineOf: Header -> int)
    ensures InTime(a + b, now, deadlineOf) == InTime(a, now, deadlineOf) + InTime(b, now, deadlineOf)
  {
    if a == [] {
      assert a + b == b;
    } else {
      TailOfSum(a, b);
      InTimeAppend(a[1..], b, now, deadlineOf);
    }
  }

  // ---- The counters ----

  datatype Counters = Counters(packets: nat, bytes: nat, inTime: nat, records: nat)

  function Plus(c: Counters, packet: seq<Byte>, now: int, deadlineOf: Header -> int): Counters {
    var headers := Headers(packet);
    Counters(c.packets + 1, c.bytes + |packet|, c.inTime + InTime(headers, now, deadlineOf), c.records + |headers|)
  }

  function PlusAll(c: Counters, packets: seq<seq<Byte>>, now: int, deadlineOf: Header -> int): Counters
    decreases |packets|
  {
    if packets == [] then c else PlusAll(Plus(c, packets[0], now, deadlineOf), packets[1..], now, deadlineOf)
  }

  lemma {:induction false} PlusAllCounts(c: Counters, packets: seq<seq<Byte>>, now: int, deadlineOf: Header -> int)
    ensures PlusAll(c, packets, now, deadlineOf)
      == Counters(c.packets + |packets|, c.bytes + BytesIn(packets),
                  c.inTime + InTime(HeadersIn(packets), now, deadlineOf), c.records + |HeadersIn(packets)|)
    decreases |packets|
  {
    if packets != [] {
      PlusAllCounts(Plus(c, packets[0], now, deadlineOf), packets[1..], now, deadlineOf);
      InTimeAppend(Headers(packets[0]), HeadersIn(packets[1..]), now, deadlineOf);
    }
  }

  /** The packets that wait to be received. */
  class Socket {
    var pending: seq<Packet>

    constructor ()
      ensures pending == []
    {
      pending := [];
    }

    method Recv() returns (p: Packet?)
      modifies this
      ensures old(pending) == [] ==> p == null && pending == []
      ensures old(pending) != [] ==> p == old(pending)[0] && pending == old(pending)[1..]
    {
      if pending == [] {
        return null;
      }
      p, pending := pending[0], pending[1..];
    }
  }

  /** The contents of packets, one after the other. */
  ghost function Contents(packets: seq<Packet>): (s: seq<seq<Byte>>)
    reads packets
    ensures |s| == |packets| && forall i :: 0 <= i < |s| ==> s[i] == packets[i].data
  {
    if packets == [] then [] else [packets[0].data] + Contents(packets[1..])
  }

  class Sink {
    const deadlineOf: Header -> int
    var bytesTotal: nat
    var packetsReceived: nat
    var packetsReceivedYetExpired: nat
    var packetsDecompressed: nat

    constructor (deadlineOf: Header -> int)
      ensures this.deadlineOf == deadlineOf
      ensures bytesTotal == packetsReceived == packetsReceivedYetExpired == packetsDecompressed == 0
    {
      this.deadlineOf := deadlineOf;
      bytesTotal, packetsReceived, packetsReceivedYetExpired, packetsDecompressed := 0, 0, 0, 0;
    }

    function State(): Counters
      reads this
    {
      Counters(packetsReceived, bytesTotal, packetsDecompressed, packetsDecompressed + packetsReceivedYetExpired)
    }

    /** Every packet that waits at the socket is taken and unpacked. */
    method ReceivePacket(socket: Socket, now: int)
      requires forall i, j :: 0 <= i < j < |socket.pending| ==> socket.pending[i] != socket.pending[j]
      modifies this, socket, socket.pending
      ensures socket.pending == [] && packetsReceived == old(packetsReceived) + |old(socket.pending)|
      ensures bytesTotal == old(bytesTotal) + BytesIn(old(Contents(socket.pending)))
      ensures packetsDecompressed
        == old(packetsDecompressed) + InTime(HeadersIn(old(Contents(socket.pending))), now, deadlineOf)
      ensures packetsDecompressed + packetsReceivedYetExpired
        == old(packetsDecompressed + packetsReceivedYetExpired) + |HeadersIn(old(Contents(socket.pending)))|
    {
      ghost var packets, all, i := socket.pending, Contents(socket.pending), 0;
      ghost var total := PlusAll(State(), all, now, deadlineOf);
      assert all[0..] == all;
      var packet := socket.Recv();
      while packet != null
        invariant if i < |packets| then packet == packets[i] && socket.pending == packets[i + 1..]
          else packet == null && i == |packets| && socket.pending == []
        invariant forall j :: i <= j < |packets| ==> packets[j].data == all[j]
        invariant PlusAll(State(), all[i..], now, deadlineOf) == total
        decreases |packets| - i
      {
        assert all[i..][0] == all[i] && all[i..][1..] == all[i + 1..];
        UnpackNext(packet, now);
        i := i + 1;
        packet := socket.Recv();
      }
      PlusAllCounts(old(State()), all, now, deadlineOf);
    }

    method UnpackNext(packet: Packet, now: int)
      modifies this, packet
      ensures State() == Plus(old(State()), old(packet.data), now, deadlineOf)
    {
      Unpack(packet, now);
    }

    /**
     * One packet is stripped record by record. Every whole record in it is counted once, as decompressed or as
     * expired; a shorter rest is ignored.
     */
    method Unpack(packet: Packet, now: int)
      modifies this, packet
      ensures packet.data == Residue(old(packet.data))
      ensures packetsReceived == old(packetsReceived) + 1
      ensures bytesTotal == old(bytesTotal) + |old(packet.data)|
      ensures packetsDecompressed == old(packetsDecompressed) + InTime(Headers(old(packet.data)), now, deadlineOf)
      ensures packetsDecompressed + packetsReceivedYetExpired
        == old(packetsDecompressed + packetsReceivedYetExpired) + |Headers(old(packet.data))|
    {
      bytesTotal := bytesTotal + |packet.data|;
      while |packet.data| >= RECORD_SIZE
        invariant packetsDecompressed + InTime(Headers(packet.data), now, deadlineOf)
          == old(packetsDecompressed) + InTime(Headers(old(packet.data)), now, deadlineOf)
        invariant packetsDecompressed + packetsReceivedYetExpired + |Headers(packet.data)|
          == old(packetsDecompressed + packetsReceivedYetExpired) + |Headers(old(packet.data))|
        invariant Residue(packet.data) == Residue(old(packet.data))
        invariant bytesTotal == old(bytesTotal) + |old(packet.data)| && packetsReceived == old(packetsReceived)
        decreases |packet.data|
      {
        ghost var before := packet.data;
        var header := packet.RemoveAtStart(HEADER_SIZE);
        var _ := packet.RemoveAtStart(PAYLOAD_SIZE);
        assert Headers(before) == [header] + Headers(packet.data);
        assert Headers(before)[1..] == Headers(packet.data);
        if deadlineOf(header) > now {
          packetsDecompressed := packetsDecompressed + 1;
        } else {
          packetsReceivedYetExpired := packetsReceivedYetExpired + 1;
        }
      }
      packetsReceived := packetsReceived + 1;
    }
  }
}
