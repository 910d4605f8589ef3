/**
 * Reassembly of aggregated packets at a forwarding node. Fragments of a packet arrive one by one; every whole
 * record is queued at once, and the left-over bytes wait in a chained hash table keyed by the packet's uid.
 */
module Reassembly {
  import opened Options
  import opened Sequences
  import opened Packets
  import opened PacketQueues

  const BUCKETS := 1021

  /** The table stores uids in 32 bits. */
  const KEY_RANGE := 0x1_0000_0000

  /** Where the table keeps what belongs to a uid: its bucket, and the key that is stored there for it. */
  datatype Slot = Slot(bucket: nat, key: nat)

  function SlotOf(uid: nat): Slot {
    Slot(uid % BUCKETS, uid % KEY_RANGE)
  }

  lemma NarrowKey(uid: nat)
    requires uid < KEY_RANGE
    ensures SlotOf(uid).key == uid
  {
  }

  class HashNode {
    const uid: nat
    var p: Packet
    var next: HashNode?

    constructor (uid: nat, p: Packet, next: HashNode?)
      ensures this.uid == uid && this.p == p && this.next == next
    {
      this.uid, this.p, this.next := uid, p, next;
    }
  }

  /** The queue entry made of one record: its header, and sixteen fresh zero bytes. */
  function EntryFor(header: Header, dst: Address, deadlineOf: Header -> int): QueueEntry {
    QueueEntry(header + seq(PAYLOAD_SIZE, _ => 0), dst, deadlineOf(header))
  }

  function EntriesFor(headers: seq<Header>, dst: Address, deadlineOf: Header -> int): seq<QueueEntry> {
    if headers == [] then []
    else [EntryFor(headers[0], dst, deadlineOf)] + EntriesFor(headers[1..], dst, deadlineOf)
  }

  /** There is one entry for every record, in order: its header and sixteen zeros, due when its own header says. */
  lemma {:induction false} EntriesForAt(headers: seq<Header>, dst: Address, deadlineOf: Header -> int)
    ensures |EntriesFor(headers, dst, deadlineOf)| == |headers|
    ensures forall i :: 0 <= i < |headers| ==>
      var zeros := [0, 0, 0, 0, 0, 0, 0, 0, 0, 0, 0, 0, 0, 0, 0, 0];
      EntriesFor(headers, dst, deadlineOf)[i] == QueueEntry(headers[i] + zeros, dst, deadlineOf(headers[i]))
  {
    if headers != [] {
      EntriesForAt(headers[1..], dst, deadlineOf);
      assert seq(PAYLOAD_SIZE, _ => 0) == [0, 0, 0, 0, 0, 0, 0, 0, 0, 0, 0, 0, 0, 0, 0, 0];
    }
  }

  lemma {:induction false} EntriesForAppend(a: seq<Header>, b: seq<Header>, dst: Address, deadlineOf: Header -> int)
    ensures EntriesFor(a + b, dst, deadlineOf) == EntriesFor(a, dst, deadlineOf) + EntriesFor(b, dst, deadlineOf)
  {
    if a == [] {
      assert a + b == b;
    } else {
      TailOfSum(a, b);
      EntriesForAppend(a[1..], b, dst, deadlineOf);
      var first := [EntryFor(a[0], dst, deadlineOf)];
      Associative(first, EntriesFor(a[1..], dst, deadlineOf), EntriesFor(b, dst, deadlineOf));
    }
  }

  lemma TakesOne(s: seq<Byte>, done: seq<Header>, q: seq<QueueEntry>, dst: Address, deadlineOf: Header -> int)
    requires |s| >= RECORD_SIZE
    ensures (done + [s[..HEADER_SIZE]]) + Headers(s[RECORD_SIZE..]) == done + Headers(s)
    ensures Residue(s[RECORD_SIZE..]) == Residue(s)
    ensures q + EntriesFor(done + [s[..HEADER_SIZE]], dst, deadlineOf)
      == q + EntriesFor(done, dst, deadlineOf) + [EntryFor(s[..HEADER_SIZE], dst, deadlineOf)]
  {
    var h, rest := s[..HEADER_SIZE], Headers(s[RECORD_SIZE..]);
    var e, es := EntryFor(h, dst, deadlineOf), EntriesFor(done, dst, deadlineOf);
    Associative(done, [h], rest);
    Associative(q, es, [e]);
    EntriesForAppend(done, [h], dst, deadlineOf);
    assert EntriesFor([h], dst, deadlineOf) == [e];
  }

  // ---- What an arrival does ----

  /** An IP fragment of the packet uid. Offset zero marks the one that starts with the UDP header. */
  datatype Fragment = Fragment(uid: nat, offset: nat, data: seq<Byte>) {
    predicate Valid() {
      offset == 0 ==> |data| >= UDP_HEADER_SIZE
    }

    function Chunk(): seq<Byte>
      requires Valid()
    {
      if offset == 0 then data[UDP_HEADER_SIZE..] else data
    }
  }

  /** The slot of a uid that does not fit the key. */
  function WideSlots(uid: nat): set<Slot> {
    if uid < KEY_RANGE then {} else {SlotOf(uid)}
  }

  /**
   * The bytes that a fragment of uid is put behind. A stored key is compared with the whole uid, so that nothing is
   * ever found for a uid that does not fit the key.
   */
  function Held(residue: map<Slot, seq<Byte>>, uid: nat): seq<Byte> {
    if uid < KEY_RANGE && SlotOf(uid) in residue then residue[SlotOf(uid)] else []
  }

  /** What the table holds after a chunk of uid has arrived. */
  function Stored(residue: map<Slot, seq<Byte>>, uid: nat, chunk: seq<Byte>): map<Slot, seq<Byte>> {
    residue[SlotOf(uid) := Residue(Held(residue, uid) + chunk)]
  }

  /** The headers of the records that are whole once a chunk of uid has arrived. */
  function Completed(residue: map<Slot, seq<Byte>>, uid: nat, chunk: seq<Byte>): seq<Header> {
    Headers(Held(residue, uid) + chunk)
  }

  class Reassembler {
    const table: array<HashNode?>
    const queue: PacketQueue
    const deadlineOf: Header -> int

    // chains[b] lists the nodes of bucket b, oldest first; the table points at the newest one.
    ghost var chains: seq<seq<HashNode>>
    // The place of the newest node of each slot in its chain. Older ones with the same key are never reached.
    ghost var newest: map<Slot, nat>
    // The abstract value: what is held for each slot.
    ghost var residue: map<Slot, seq<Byte>>
    // The slots for which a uid that does not fit the key has arrived.
    ghost var wide: set<Slot>
    ghost var nodes: set<HashNode>
    ghost var packets: set<Packet>

    constructor (queue: PacketQueue, deadlineOf: Header -> int)
      ensures Valid() && residue == map[] && wide == {} && packets == {} && nodes == {} && fresh(table)
      ensures this.queue == queue && this.deadlineOf == deadlineOf
    {
      this.queue, this.deadlineOf := queue, deadlineOf;
      table := new HashNode?[BUCKETS](_ => null);
      chains, newest, residue := seq(BUCKETS, _ => []), map[], map[];
      wide, nodes, packets := {}, {}, {};
    }

    /** The newest node of a bucket's chain. */
    ghost function Front(b: nat): HashNode?
      requires b < |chains|
      reads this
    {
      if chains[b] == [] then null else chains[b][|chains[b]| - 1]
    }

    /**
     * The node at place j of bucket b points at the next older node and holds a packet of its own slot. If it is the
     * newest of the slot, and that packet is not being taken apart, the packet's bytes are the residue. Unless a uid
     * that does not fit has come for the slot, the slot has no other node, and the key is the packet's whole uid.
     */
    ghost predicate Holds(b: nat, j: nat, busy: set<Slot>)
      requires b < |chains| && j < |chains[b]|
      reads this, nodes, packets
    {
      var n := chains[b][j];
      var slot := Slot(b, n.uid);
      && n in nodes && n.uid < KEY_RANGE && n.p in packets && SlotOf(n.p.uid) == slot
      && n.next == (if j == 0 then null else chains[b][j - 1])
      && slot in newest && j <= newest[slot] && slot in residue
      && (newest[slot] == j && slot !in busy ==> n.p.data == residue[slot] && |n.p.data| < RECORD_SIZE)
      && (slot !in wide ==> newest[slot] == j && n.p.uid == n.uid)
    }

    /** Validity, but for the packets of the slots in busy. */
    ghost predicate ValidBut(busy: set<Slot>)
      reads this, table, nodes, packets
    {
      && table.Length == |chains| == BUCKETS
      && (forall b :: 0 <= b < BUCKETS ==> table[b] == Front(b))
      && (forall b, j :: 0 <= b < BUCKETS && 0 <= j < |chains[b]| ==> Holds(b, j, busy))
      && (forall s :: s in residue ==>
            s.bucket < BUCKETS && s in newest && newest[s] < |chains[s.bucket]|
            && chains[s.bucket][newest[s]].uid == s.key)
    }

    /** The newest node of a slot for which a uid that does not fit has arrived holds a packet with such a uid. */
    ghost predicate WideAreNewest()
      reads this, nodes
    {
      forall s :: s in wide ==>
        && s in residue && s in newest && s.bucket < |chains| && newest[s] < |chains[s.bucket]|
        && chains[s.bucket][newest[s]] in nodes && chains[s.bucket][newest[s]].p.uid >= KEY_RANGE
    }

    ghost predicate Valid()
      reads this, table, nodes, packets
    {
      ValidBut({}) && WideAreNewest()
    }

    /** No two nodes of a chain have the same key, and every stored packet's uid is its node's key. */
    ghost predicate KeysAreUids()
      requires Valid()
      reads this, table, nodes, packets
    {
      forall b, j :: 0 <= b < BUCKETS && 0 <= j < |chains[b]| ==> KeyIsUid(b, j)
    }

    ghost predicate KeyIsUid(b: nat, j: nat)
      requires Valid() && b < BUCKETS && j < |chains[b]|
      reads this, table, nodes, packets
    {
      assert Holds(b, j, {});
      && chains[b][j].p.uid == chains[b][j].uid
      && forall i :: 0 <= i < j ==> chains[b][i].uid != chains[b][j].uid
    }

    /** In every valid table that is so exactly if no uid that does not fit the key has ever arrived. */
    lemma KeysAreUidsIff()
      requires Valid()
      ensures KeysAreUids() <==> wide == {}
    {
      if wide == {} {
        forall b, j | 0 <= b < BUCKETS && 0 <= j < |chains[b]| ensures KeyIsUid(b, j) {
          assert Holds(b, j, {});
          forall i | 0 <= i < j ensures chains[b][i].uid != chains[b][j].uid {
            assert Holds(b, i, {});
          }
        }
      } else {
        var s :| s in wide;
        assert Holds(s.bucket, newest[s], {}) && !KeyIsUid(s.bucket, newest[s]);
      }
    }

    /** Links lead to older nodes only, and newer nodes of a slot shadow the older ones for good. */
    lemma ChainsEnd(b: nat, i: nat, j: nat)
      requires Valid() && b < BUCKETS && i < j < |chains[b]|
      ensures chains[b][0].next == null && chains[b][j].next == chains[b][j - 1]
      ensures chains[b][i] != chains[b][j]
    {
      assert Holds(b, 0, {}) && Holds(b, i, {}) && Holds(b, j, {});
      if chains[b][i] == chains[b][j] {
        LinksDiffer(b, i, j);
      }
    }

    lemma {:induction false} LinksDiffer(b: nat, i: nat, j: nat)
      requires Valid() && b < BUCKETS && i < j < |chains[b]|
      ensures chains[b][i] != chains[b][j]
    {
      assert Holds(b, i, {}) && Holds(b, j, {});
      if i > 0 {
        LinksDiffer(b, i - 1, j - 1);
      }
    }

    lemma Loosen(slot: Slot)
      requires ValidBut({})
      ensures ValidBut({slot})
    {
      forall b, j | 0 <= b < BUCKETS && 0 <= j < |chains[b]| ensures Holds(b, j, {slot}) {
        assert Holds(b, j, {});
      }
    }

    /** The chain walk. It finds a node exactly for the uids that fit a key and whose slot is in use. */
    method Find(uid: nat, ghost busy: set<Slot>) returns (now: HashNode?)
      requires ValidBut(busy)
      ensures now != null <==> uid < KEY_RANGE && SlotOf(uid) in residue
      ensures now != null ==>
        && now == chains[uid % BUCKETS][newest[SlotOf(uid)]] && now.uid == uid
        && now in nodes && now.p in packets && SlotOf(now.p.uid) == SlotOf(uid)
        && (SlotOf(uid) !in busy ==> now.p.data == residue[SlotOf(uid)])
        && (SlotOf(uid) !in wide ==> now.p.uid == uid)
    {
      var slot := uid % BUCKETS;
      ghost var j := |chains[slot]| - 1;
      now := table[slot];
      while now != null
        invariant -1 <= j < |chains[slot]| && now == if j < 0 then null else chains[slot][j]
        invariant uid < KEY_RANGE && SlotOf(uid) in residue ==> newest[SlotOf(uid)] <= j
        decreases j
      {
        assert Holds(slot, j, busy);
        if now.uid == uid {
          break;
        }
        now, j := now.next, j - 1;
      }
    }

    /** Nodes keep their places when a new one is put in front of a chain. */
    twostate lemma Inserted(new now: HashNode, p: Packet)
      requires old(ValidBut({SlotOf(p.uid)}))
      requires now.uid == p.uid % KEY_RANGE && now.p == p && now.next == old(Front(p.uid % BUCKETS))
      requires forall n :: n in old(nodes) ==> unchanged(n)
      requires forall q :: q in old(packets) ==> unchanged(q)
      requires chains == old(chains)[p.uid % BUCKETS := old(chains)[p.uid % BUCKETS] + [now]]
      requires newest == old(newest)[SlotOf(p.uid) := |old(chains)[p.uid % BUCKETS]|]
      requires residue == old(residue)[SlotOf(p.uid) := p.data]
      requires wide == old(wide) + WideSlots(p.uid)
      requires p.uid < KEY_RANGE ==> SlotOf(p.uid) !in old(residue)
      requires nodes == old(nodes) + {now} && packets == old(packets) + {p}
      ensures forall b, j :: 0 <= b < BUCKETS && 0 <= j < |chains[b]| ==> Holds(b, j, {SlotOf(p.uid)})
      ensures forall s :: s in residue ==>
        s.bucket < BUCKETS && s in newest && newest[s] < |chains[s.bucket]|
        && chains[s.bucket][newest[s]].uid == s.key
    {
      forall b, j | 0 <= b < BUCKETS && 0 <= j < |chains[b]| ensures Holds(b, j, {SlotOf(p.uid)}) {
        if b != p.uid % BUCKETS || j != |old(chains)[b]| {
          assert old(Holds(b, j, {SlotOf(p.uid)}));
        }
      }
    }

    twostate lemma InsertedWide(new now: HashNode, p: Packet)
      requires old(|chains| == BUCKETS) && now.p == p && now in nodes && old(nodes) <= nodes
      requires forall n :: n in old(nodes) ==> unchanged(n)
      requires chains == old(chains)[p.uid % BUCKETS := old(chains)[p.uid % BUCKETS] + [now]]
      requires newest == old(newest)[SlotOf(p.uid) := |old(chains)[p.uid % BUCKETS]|]
      requires residue == old(residue)[SlotOf(p.uid) := p.data]
      requires wide == old(wide) + WideSlots(p.uid)
      requires p.uid < KEY_RANGE ==> SlotOf(p.uid) !in old(residue)
      ensures old(WideAreNewest()) ==> WideAreNewest()
    {
    }

    /** A packet whose uid fits would take the place of one whose uid does not. */
    ghost predicate Displaces(uid: nat)
      reads this
    {
      uid < KEY_RANGE && SlotOf(uid) in wide
    }

    /** Puts a new node for p at the front of its chain. */
    method Insert(p: Packet) returns (now: HashNode)
      requires ValidBut({SlotOf(p.uid)}) && (p.uid < KEY_RANGE ==> SlotOf(p.uid) !in residue)
      modifies this, table
      ensures fresh(now) && nodes == old(nodes) + {now} && packets == old(packets) + {p}
      ensures ValidBut({SlotOf(p.uid)}) && residue == old(residue)[SlotOf(p.uid) := p.data]
      ensures now == chains[p.uid % BUCKETS][newest[SlotOf(p.uid)]]
      ensures wide == old(wide) + WideSlots(p.uid) && (old(WideAreNewest()) ==> WideAreNewest())
    {
      var slot := p.uid % BUCKETS;
      now := new HashNode(p.uid % KEY_RANGE, p, table[slot]);
      table[slot] := now;
      newest := newest[SlotOf(p.uid) := |chains[slot]|];
      chains := chains[slot := chains[slot] + [now]];
      nodes, packets, residue := nodes + {now}, packets + {p}, residue[SlotOf(p.uid) := p.data];
      wide := wide + WideSlots(p.uid);
      Inserted(now, p);
      assert forall b :: 0 <= b < BUCKETS ==> table[b] == Front(b);
      InsertedWide(now, p);
    }

    /** Takes one record off p if there is one; else leaves what p holds in the table. */
    method DeAggregate(p: Packet) returns (header: Option<Header>)
      requires ValidBut({SlotOf(p.uid)})
      modifies this, table, nodes, p
      ensures (forall n :: n in nodes && n !in old(nodes) ==> fresh(n)) && packets <= old(packets) + {p}
      ensures |old(p.data)| >= RECORD_SIZE ==>
        && header == Some(old(p.data)[..HEADER_SIZE]) && p.data == old(p.data)[RECORD_SIZE..]
        && ValidBut({SlotOf(p.uid)}) && residue == old(residue) && wide == old(wide)
        && nodes == old(nodes) && packets == old(packets)
      ensures |old(p.data)| < RECORD_SIZE ==>
        && header == None && p.data == old(p.data)
        && ValidBut({}) && residue == old(residue)[SlotOf(p.uid) := p.data] && wide == old(wide) + WideSlots(p.uid)
      ensures old(WideAreNewest() && !Displaces(p.uid)) ==> WideAreNewest()
    {
      if |p.data| >= RECORD_SIZE {
        header := TakeRecord(p);
        return;
      }
      Keep(p);
      header := None;
    }

    /** Leaves the rest of p in the table, in a new node if none is found. */
    method Keep(p: Packet)
      requires ValidBut({SlotOf(p.uid)}) && |p.data| < RECORD_SIZE
      modifies this, table, nodes
      ensures (forall n :: n in nodes && n !in old(nodes) ==> fresh(n)) && packets <= old(packets) + {p}
      ensures ValidBut({}) && residue == old(residue)[SlotOf(p.uid) := p.data] && wide == old(wide) + WideSlots(p.uid)
      ensures old(WideAreNewest() && !Displaces(p.uid)) ==> WideAreNewest()
    {
      var now := Find(p.uid, {SlotOf(p.uid)});
      if now != null {
        assert wide + WideSlots(p.uid) == wide;
        Store(now, p);
      } else {
        now := Insert(p);
        assert residue[SlotOf(p.uid) := p.data] == residue && packets + {p} == packets;
        Store(now, p);
      }
    }

    method TakeRecord(p: Packet) returns (header: Option<Header>)
      requires ValidBut({SlotOf(p.uid)}) && |p.data| >= RECORD_SIZE
      modifies p
      ensures header == Some(old(p.data)[..HEADER_SIZE]) && p.data == old(p.data)[RECORD_SIZE..]
      ensures ValidBut({SlotOf(p.uid)})
    {
      var h := p.RemoveAtStart(HEADER_SIZE);
      var _ := p.RemoveAtStart(PAYLOAD_SIZE);
      header := Some(h);
      forall b, j | 0 <= b < BUCKETS && 0 <= j < |chains[b]| ensures Holds(b, j, {SlotOf(p.uid)}) {
        assert old(Holds(b, j, {SlotOf(p.uid)}));
      }
    }

    method Append(p: Packet, more: seq<Byte>)
      requires Valid() && p in packets
      modifies p
      ensures ValidBut({SlotOf(p.uid)}) && WideAreNewest() && p.data == old(p.data) + more
    {
      p.AddAtEnd(more);
      forall b, j | 0 <= b < BUCKETS && 0 <= j < |chains[b]| ensures Holds(b, j, {SlotOf(p.uid)}) {
        assert old(Holds(b, j, {}));
      }
    }

    /** Leaves the rest of p in the newest node of its slot. */
    method Store(now: HashNode, p: Packet)
      requires ValidBut({SlotOf(p.uid)}) && SlotOf(p.uid) in residue && |p.data| < RECORD_SIZE
      requires WideSlots(p.uid) <= wide
      requires now == chains[p.uid % BUCKETS][newest[SlotOf(p.uid)]]
      modifies this, now
      ensures nodes == old(nodes) && packets == old(packets) + {p}
      ensures ValidBut({}) && residue == old(residue)[SlotOf(p.uid) := p.data] && wide == old(wide)
      ensures old(WideAreNewest() && !Displaces(p.uid)) ==> WideAreNewest()
    {
      ghost var slot := SlotOf(p.uid);
      assert Holds(slot.bucket, newest[slot], {slot});
      assert SlotOf(now.p.uid) == slot && now.uid == slot.key;
      now.p := p;
      packets := packets + {p};
      residue := residue[slot := p.data];
      forall b, j | 0 <= b < BUCKETS && 0 <= j < |chains[b]| ensures Holds(b, j, {}) {
        assert old(Holds(b, j, {slot}));
      }
    }

    /** One turn of the loop: an entry for the next record, if there is one; else what is left is stored. */
    method QueueOne(p: Packet, dst: Address) returns (more: bool)
      requires ValidBut({SlotOf(p.uid)})
      modifies this, table, nodes, p, queue
      ensures more == (|old(p.data)| >= RECORD_SIZE)
      ensures (forall n :: n in nodes && n !in old(nodes) ==> fresh(n)) && packets <= old(packets) + {p}
      ensures more ==>
        && p.data == old(p.data)[RECORD_SIZE..]
        && ValidBut({SlotOf(p.uid)}) && residue == old(residue) && wide == old(wide)
        && nodes == old(nodes) && packets == old(packets)
        && queue.entries == old(queue.entries) + [EntryFor(old(p.data)[..HEADER_SIZE], dst, deadlineOf)]
      ensures !more ==>
        && ValidBut({}) && residue == old(residue)[SlotOf(p.uid) := old(p.data)]
        && wide == old(wide) + WideSlots(p.uid) && queue.entries == old(queue.entries)
      ensures old(WideAreNewest() && !Displaces(p.uid)) ==> WideAreNewest()
    {
      var h := DeAggregate(p);
      more := h.Some?;
      if more {
        queue.Enqueue(EntryFor(h.value, dst, deadlineOf));
      }
    }

    /** Takes p apart: queues an entry for every whole record and stores what is left. */
    method QueueRecords(p: Packet, dst: Address)
      requires ValidBut({SlotOf(p.uid)})
      modifies this, table, nodes, p, queue
      ensures ValidBut({}) && (forall n :: n in nodes && n !in old(nodes) ==> fresh(n))
      ensures packets <= old(packets) + {p}
      ensures residue == old(residue)[SlotOf(p.uid) := Residue(old(p.data))] && wide == old(wide) + WideSlots(p.uid)
      ensures old(WideAreNewest() && !Displaces(p.uid)) ==> WideAreNewest()
      ensures queue.entries == old(queue.entries) + EntriesFor(Headers(old(p.data)), dst, deadlineOf)
    {
      ghost var done := [];
      while true
        invariant ValidBut({SlotOf(p.uid)}) && residue == old(residue) && wide == old(wide)
        invariant old(WideAreNewest() && !Displaces(p.uid)) ==> WideAreNewest()
        invariant nodes == old(nodes) && packets == old(packets)
        invariant Residue(p.data) == Residue(old(p.data))
        invariant done + Headers(p.data) == Headers(old(p.data))
        invariant queue.entries == old(queue.entries) + EntriesFor(done, dst, deadlineOf)
        decreases |p.data|
      {
        ghost var todo := p.data;
        var more := QueueOne(p, dst);
        if !more {
          assert done + Headers(todo) == done;
          break;
        }
        TakesOne(todo, done, old(queue.entries), dst, deadlineOf);
        done := done + [todo[..HEADER_SIZE]];
      }
    }

    /** More bytes come for a packet that waits in the table. */
    method Resume(waiting: Packet, uid: nat, more: seq<Byte>, dst: Address)
      requires Valid() && waiting in packets
      requires SlotOf(waiting.uid) == SlotOf(uid) && waiting.data == Held(residue, uid)
      requires waiting.uid < KEY_RANGE <==> SlotOf(uid) !in wide
      modifies this, table, nodes, waiting, queue
      ensures Valid() && (forall n :: n in nodes && n !in old(nodes) ==> fresh(n)) && packets <= old(packets)
      ensures residue == Stored(old(residue), uid, more) && wide == old(wide)
      ensures queue.entries == old(queue.entries) + EntriesFor(Completed(old(residue), uid, more), dst, deadlineOf)
    {
      assert wide + WideSlots(waiting.uid) == wide && !Displaces(waiting.uid);
      Append(waiting, more);
      QueueRecords(waiting, dst);
    }

    /** A packet comes for which nothing waits. */
    method Begin(p: Packet, dst: Address)
      requires Valid() && p !in packets && (p.uid < KEY_RANGE ==> SlotOf(p.uid) !in residue)
      modifies this, table, nodes, p, queue
      ensures Valid() && (forall n :: n in nodes && n !in old(nodes) ==> fresh(n)) && packets <= old(packets) + {p}
      ensures residue == Stored(old(residue), p.uid, old(p.data)) && wide == old(wide) + WideSlots(p.uid)
      ensures queue.entries
        == old(queue.entries) + EntriesFor(Completed(old(residue), p.uid, old(p.data)), dst, deadlineOf)
    {
      Loosen(SlotOf(p.uid));
      assert Held(residue, p.uid) + p.data == p.data;
      QueueRecords(p, dst);
    }

    /** Puts p behind the bytes held for its uid, and takes the whole apart. */
    method Reassemble(p: Packet, dst: Address)
      requires Valid() && p !in packets
      modifies this, table, nodes, packets, p, queue
      ensures Valid() && (forall n :: n in nodes && n !in old(nodes) ==> fresh(n)) && packets <= old(packets) + {p}
      ensures residue == Stored(old(residue), p.uid, old(p.data)) && wide == old(wide) + WideSlots(p.uid)
      ensures queue.entries
        == old(queue.entries) + EntriesFor(Completed(old(residue), p.uid, old(p.data)), dst, deadlineOf)
    {
      var now := Find(p.uid, {});
      if now != null {
        Resume(now.p, p.uid, p.data, dst);
      } else {
        Begin(p, dst);
      }
    }

    /**
     * One fragment arrives. Without its UDP header if it starts with one, and together with the bytes held for its
     * uid, it yields entries for all the whole records, and the rest is held.
     */
    method EnqueuePacket(p: Packet, dst: Address, fragmentOffset: nat)
      requires Valid() && p !in packets && Fragment(p.uid, fragmentOffset, p.data).Valid()
      modifies this, table, nodes, packets, p, queue
      ensures Valid() && (forall n :: n in nodes && n !in old(nodes) ==> fresh(n)) && packets <= old(packets) + {p}
      ensures var chunk := Fragment(p.uid, fragmentOffset, old(p.data)).Chunk();
        && residue == Stored(old(residue), p.uid, chunk) && wide == old(wide) + WideSlots(p.uid)
        && queue.entries == old(queue.entries) + EntriesFor(Completed(old(residue), p.uid, chunk), dst, deadlineOf)
    {
      if fragmentOffset == 0 {
        var _ := p.RemoveAtStart(UDP_HEADER_SIZE);
      }
      Reassemble(p, dst);
    }
  }
}
