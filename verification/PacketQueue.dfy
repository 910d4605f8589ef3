/** The queue in which a node holds records until its transmit policy releases them. */
module PacketQueues {
  import opened Options
  import opened Packets
  import opened Sequences

  /** A queued record, the destination in its IPv4 header and its deadline in nanoseconds. */
  datatype QueueEntry = QueueEntry(packet: seq<Byte>, dst: Address, deadline: int)

  // What the loops over the queue compute.

  /** The entries whose deadline has not passed. */
  function Live(q: seq<QueueEntry>, now: int): seq<QueueEntry> {
    Filter(q, (e: QueueEntry) => e.deadline >= now)
  }

  function Late(q: seq<QueueEntry>, now: int): seq<QueueEntry> {
    Filter(q, (e: QueueEntry) => !(e.deadline >= now))
  }

  function BoundFor(q: seq<QueueEntry>, dst: Address): seq<QueueEntry> {
    Filter(q, (e: QueueEntry) => e.dst == dst)
  }

  function Others(q: seq<QueueEntry>, dst: Address): seq<QueueEntry> {
    Filter(q, (e: QueueEntry) => !(e.dst == dst))
  }

  /** With nothing bound for dst, everything is bound elsewhere. */
  lemma NothingBound(q: seq<QueueEntry>, dst: Address)
    requires BoundFor(q, dst) == []
    ensures Others(q, dst) == q
  {
    FilterAll(q, (e: QueueEntry) => e.dst == dst);
    FilterAll(q, (e: QueueEntry) => !(e.dst == dst));
  }

  /** The packets of the entries, one after the other. */
  function Merged(q: seq<QueueEntry>): seq<Byte> {
    if q == [] then [] else q[0].packet + Merged(q[1..])
  }

  /** Merging keeps every byte of every packet, in the order of the queue. */
  lemma {:induction false} MergedIsAll(q: seq<QueueEntry>, packets: seq<seq<Byte>>)
    requires |packets| == |q| && forall i :: 0 <= i < |q| ==> packets[i] == q[i].packet
    ensures Merged(q) == Flatten(packets)
  {
    if q != [] {
      MergedIsAll(q[1..], packets[1..]);
    }
  }

  /** Every entry holds one record. */
  predicate HoldsRecords(q: seq<QueueEntry>) {
    forall e :: e in q ==> |e.packet| == RECORD_SIZE
  }

  /** The header at the front of an entry's packet. */
  function HeaderOf(e: QueueEntry): Header {
    if |e.packet| < HEADER_SIZE then e.packet else e.packet[..HEADER_SIZE]
  }

  function QueuedHeaders(q: seq<QueueEntry>): seq<Header> {
    if q == [] then [] else [HeaderOf(q[0])] + QueuedHeaders(q[1..])
  }

  /** Merging whole records keeps the size a multiple of the record size, and keeps every header. */
  lemma {:induction false} MergedRecords(q: seq<QueueEntry>)
    requires HoldsRecords(q)
    ensures Headers(Merged(q)) == QueuedHeaders(q)
    ensures Residue(Merged(q)) == []
  {
    if q != [] {
      assert q[0] in q;
      MergedRecords(q[1..]);
      var p := q[0].packet;
      RecordInFront(p[..HEADER_SIZE], p[HEADER_SIZE..], Merged(q[1..]));
      assert p == p[..HEADER_SIZE] + p[HEADER_SIZE..];
    }
  }

  class PacketQueue {
    var entries: seq<QueueEntry>

    constructor ()
      ensures entries == []
    {
      entries := [];
    }

    function GetSize(): nat
      reads this
    {
      |entries|
    }

    method Enqueue(entry: QueueEntry)
      modifies this
      ensures entries == old(entries) + [entry]
    {
      entries := entries + [entry];
    }

    method Drop(idx: nat)
      requires idx < |entries|
      modifies this
      ensures entries == old(entries)[..idx] + old(entries)[idx + 1..]
    {
      entries := entries[..idx] + entries[idx + 1..];
    }

    /** Takes out the oldest entry for dst; the entries for other destinations keep their order. */
    method Dequeue(dst: Address) returns (entry: Option<QueueEntry>)
      modifies this
      ensures entry.None? <==> BoundFor(old(entries), dst) == []
      ensures entry.Some? ==> BoundFor(old(entries), dst) == [entry.value] + BoundFor(entries, dst)
      ensures entry.None? ==> entries == old(entries)
      ensures Others(entries, dst) == Others(old(entries), dst)
      ensures |entries| == |old(entries)| - if entry.Some? then 1 else 0
    {
      var i := 0;
      while i < |entries|
        invariant 0 <= i <= |entries| && entries == old(entries)
        invariant forall j :: 0 <= j < i ==> entries[j].dst != dst
      {
        if entries[i].dst == dst {
          FilterTakesFirst(entries, (e: QueueEntry) => e.dst == dst, i);
          FilterSkips(entries, (e: QueueEntry) => !(e.dst == dst), i);
          entry := Some(entries[i]);
          entries := entries[..i] + entries[i + 1..];
          return;
        }
        i := i + 1;
      }
      FilterNone(entries, (e: QueueEntry) => e.dst == dst);
      entry := None;
    }

    method Find(dst: Address) returns (found: bool)
      ensures found <==> exists e :: e in entries && e.dst == dst
    {
      var i := 0;
      while i < |entries|
        invariant 0 <= i <= |entries|
        invariant forall j :: 0 <= j < i ==> entries[j].dst != dst
      {
        if entries[i].dst == dst {
          return true;
        }
        i := i + 1;
      }
      return false;
    }

    method GetCountForPacketsWithDst(dst: Address) returns (count: nat)
      ensures count == |BoundFor(entries, dst)|
    {
      count := 0;
      var i := 0;
      while i < |entries|
        invariant 0 <= i <= |entries|
        invariant count == |BoundFor(entries[..i], dst)|
      {
        assert entries[..i + 1] == entries[..i] + [entries[i]];
        FilterAppend(entries[..i], [entries[i]], (e: QueueEntry) => e.dst == dst);
        if entries[i].dst == dst {
          count := count + 1;
        }
        i := i + 1;
      }
      assert entries[..i] == entries;
    }
  }
}
