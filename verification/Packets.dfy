/** Packets as byte strings, and the fixed-size records that an aggregated packet carries. */
module Packets {
  import opened Sequences

  type Byte = b: int | 0 <= b < 256
  type Address = a: int | 0 <= a < 0x1_0000_0000

  /** A serialized LEACH header; what is in it stays opaque apart from its deadline. */
  type Header = seq<Byte>

  const HEADER_SIZE := 40
  const PAYLOAD_SIZE := 16
  const RECORD_SIZE := HEADER_SIZE + PAYLOAD_SIZE
  const UDP_HEADER_SIZE := 8

  class Packet {
    const uid: nat
    var data: seq<Byte>

    constructor (uid: nat, data: seq<Byte>)
      ensures this.uid == uid && this.data == data
    {
      this.uid, this.data := uid, data;
    }

    method AddAtEnd(more: seq<Byte>)
      modifies this
      ensures data == old(data) + more
    {
      data := data + more;
    }

    method RemoveAtStart(n: nat) returns (removed: seq<Byte>)
      requires n <= |data|
      modifies this
      ensures removed == old(data)[..n] && data == old(data)[n..]
    {
      removed, data := data[..n], data[n..];
    }
  }

  /** A record as the application builds it. */
  datatype Record = Record(header: Header, payload: seq<Byte>) {
    predicate Valid() {
      |header| == HEADER_SIZE && |payload| == PAYLOAD_SIZE
    }
  }

  /** The bytes of an aggregated packet that carries the given records. */
  function Serialize(records: seq<Record>): seq<Byte> {
    if records == [] then [] else records[0].header + records[0].payload + Serialize(records[1..])
  }

  function HeadersOf(records: seq<Record>): seq<Header> {
    if records == [] then [] else [records[0].header] + HeadersOf(records[1..])
  }

  /** The headers of the whole records at the front of a byte string. */
  function Headers(s: seq<Byte>): (hs: seq<Header>)
    ensures forall h :: h in hs ==> |h| == HEADER_SIZE
    ensures |hs| == |s| / RECORD_SIZE
  {
    if |s| < RECORD_SIZE then [] else [s[..HEADER_SIZE]] + Headers(s[RECORD_SIZE..])
  }

  /** The bytes left over once every whole record is taken from the front. */
  function Residue(s: seq<Byte>): (r: seq<Byte>)
    ensures |r| == |s| % RECORD_SIZE
  {
    if |s| < RECORD_SIZE then s else Residue(s[RECORD_SIZE..])
  }

  /** Splitting can stop anywhere and resume from the left-over bytes. */
  lemma {:induction false} SplitResumes(a: seq<Byte>, b: seq<Byte>)
    ensures Headers(a + b) == Headers(a) + Headers(Residue(a) + b)
    ensures Residue(a + b) == Residue(Residue(a) + b)
    decreases |a|
  {
    if |a| >= RECORD_SIZE {
      var rest := a[RECORD_SIZE..];
      assert (a + b)[RECORD_SIZE..] == rest + b && (a + b)[..HEADER_SIZE] == a[..HEADER_SIZE];
      SplitResumes(rest, b);
      Associative([a[..HEADER_SIZE]], Headers(rest), Headers(Residue(a) + b));
    }
  }

  lemma RecordInFront(header: Header, payload: seq<Byte>, rest: seq<Byte>)
    requires |header| == HEADER_SIZE && |payload| == PAYLOAD_SIZE
    ensures Headers(header + payload + rest) == [header] + Headers(rest)
    ensures Residue(header + payload + rest) == Residue(rest)
  {
    var s := header + payload + rest;
    assert |s| >= RECORD_SIZE && s[..HEADER_SIZE] == header && s[RECORD_SIZE..] == rest;
  }

  /** Splitting an aggregated packet gives back exactly the headers it was built from. */
  lemma {:induction false} SerializeSplits(records: seq<Record>)
    requires forall r :: r in records ==> r.Valid()
    ensures Headers(Serialize(records)) == HeadersOf(records)
    ensures Residue(Serialize(records)) == []
  {
    if records != [] {
      var first, rest := records[0], records[1..];
      assert first in records && first.Valid();
      SerializeSplits(rest);
      RecordInFront(first.header, first.payload, Serialize(rest));
    }
  }
}
