/**
 * Record conservation over whole runs of a network: any number of nodes that queue, drop, merge, forward and
 * reassemble records, and one sink. A packet in flight is a sequence of fragments; a packet whose route lookup
 * fails flies back to the node that sent it.
 */
module Conservation {
  import opened Options
  import opened Sequences
  import opened Packets
  import opened PacketQueues
  import opened TransmitPolicies
  import opened Reassembly
  import opened Sinks
  import opened RoutingTables

  datatype Hop = ToNode(node: nat) | ToSink

  /**
   * A packet on its way: its uid, where the hop leads, the final destination, the headers of the records it set out
   * with, the fragments still to come, and whether it is broken: one of its fragments was discarded.
   */
  datatype Flight = Flight(
    uid: nat, hop: Hop, dst: Address, carried: seq<Header>, pending: seq<seq<Byte>>, broken: bool)

  datatype NodeState = NodeState(queue: seq<QueueEntry>, residue: map<Slot, seq<Byte>>, dropped: nat)

  /** The network's constants: the sink's address, the packet rate and the reading of a header's deadline. */
  datatype Config = Config(sink: Address, lambda: real, deadlineOf: Header -> int) {
    predicate Valid() { lambda > 0.0 }
  }

  /**
   * The network, with the history of the headers taken in, dropped as late, in a packet when it broke, queued out of a
   * packet that was broken, and delivered.
   */
  datatype World = World(
    nodes: seq<NodeState>, flights: seq<Flight>, nextUid: nat, decompressed: nat, expired: nat,
    accepted: multiset<Header>, late: multiset<Header>, broken: multiset<Header>, salvaged: multiset<Header>,
    delivered: multiset<Header>)

  datatype Event =
    // A node's application hands over a record. route is the result of the route lookup, and fragments is how the
    // resulting packet is cut.
    | Originate(node: nat, record: Record, dst: Address, now: int, policy: Policy, route: Option<Hop>,
                fragments: seq<seq<Byte>>)
    // The next fragment of a flight reaches the node it is for.
    | Forward(flight: nat)
    // The next fragment reaches a node that has no route on just then, and discards it.
    | Discard(flight: nat)
    // A flight reaches the sink.
    | Deliver(flight: nat, now: int)

  function PolicyOutcome(c: Config, policy: Policy, q: seq<QueueEntry>, now: int): Outcome
    requires c.Valid()
  {
    OutcomeOf(policy, q, now, c.lambda, c.sink)
  }

  /** The packet a node hands to its route lookup. */
  function PacketFor(record: Record, o: Outcome): seq<Byte> {
    record.header + record.payload + Merged(o.sent)
  }

  /** Where it goes: on its route if the policy sends it and there is one, else back to the node itself. */
  function HopFor(e: Event, o: Outcome): Hop
    requires e.Originate?
  {
    if o.sends && e.route.Some? then e.route.value else ToNode(e.node)
  }

  /** The packet that sets out. */
  function NewFlight(uid: nat, e: Event, o: Outcome): Flight
    requires e.Originate?
  {
    Flight(uid, HopFor(e, o), e.dst, [e.record.header] + QueuedHeaders(o.sent), e.fragments, false)
  }

  predicate HopExists(w: World, hop: Hop) {
    hop.ToNode? ==> hop.node < |w.nodes|
  }

  /** One event. The policies, the reassembler and the sink do what their own methods are proved to do. */
  predicate Step(c: Config, w: World, e: Event, w': World)
    requires c.Valid()
  {
    match e
    case Originate(node, record, dst, now, policy, route, fragments) =>
      && w.nextUid < KEY_RANGE && record.Valid()
      && node < |w.nodes| && (route.Some? ==> HopExists(w, route.value))
      && var n := w.nodes[node];
      var o := PolicyOutcome(c, policy, n.queue, now);
      && Flatten(fragments) == PacketFor(record, o)
      && w' == w.(
           nodes := w.nodes[node := n.(queue := o.queue, dropped := n.dropped + |o.dropped|)],
           flights := w.flights + [NewFlight(w.nextUid, e, o)],
           nextUid := w.nextUid + 1,
           accepted := w.accepted + multiset{record.header},
           late := w.late + multiset(QueuedHeaders(o.dropped)))
    case Forward(i) =>
      && i < |w.flights| && w.flights[i].hop.ToNode? && HopExists(w, w.flights[i].hop) && w.flights[i].pending != []
      && var f := w.flights[i];
      var n := w.nodes[f.hop.node];
      && w' == w.(
           nodes := w.nodes[f.hop.node := n.(
             queue := n.queue + EntriesFor(Completed(n.residue, f.uid, f.pending[0]), f.dst, c.deadlineOf),
             residue := Stored(n.residue, f.uid, f.pending[0]))],
           flights := w.flights[i := f.(pending := f.pending[1..])],
           salvaged := w.salvaged
             + (if f.broken then multiset(Completed(n.residue, f.uid, f.pending[0])) else multiset{}))
    case Discard(i) =>
      && i < |w.flights| && w.flights[i].hop.ToNode? && w.flights[i].pending != []
      && var f := w.flights[i];
      && w' == w.(
           flights := w.flights[i := f.(pending := f.pending[1..], broken := true)],
           broken := w.broken + multiset(InTransit(f, w.nodes)))
    case Deliver(i, now) =>
      && i < |w.flights| && w.flights[i].hop.ToSink?
      && var f := w.flights[i];
      var headers := Headers(Flatten(f.pending));
      var inTime := InTime(headers, now, c.deadlineOf);
      && w' == w.(
           flights := w.flights[i := f.(pending := [])],
           decompressed := w.decompressed + inTime,
           expired := w.expired + (|headers| - inTime),
           delivered := w.delivered + multiset(headers))
  }

  /**
   * What Originate says of a packet is what RouteOutput does with it: the packet's bytes, what stays queued, what is
   * counted as dropped, and whether it leaves by its route or comes back.
   */
  method SendRecord(node: RoutingProtocol, e: Event, choice: Choice, table: RoutingTable, uid: nat)
      returns (p: Packet, routing: Routing)
    requires e.Originate? && e.record.Valid() && node.lambda > 0.0 && node.socketAddress != {}
    requires e.policy == node.PolicyFor(choice) && (e.route.Some? <==> e.dst in table.entries)
    modifies node.queue, node`dropped, node.optStep
    ensures var o := OutcomeOf(e.policy, old(node.queue.entries), e.now, node.lambda, node.sink);
      && p.data == PacketFor(e.record, o) && node.queue.entries == o.queue
      && node.dropped == old(node.dropped) + |o.dropped|
      && (routing.Via? ==> e.route.Some?) && HopFor(e, o) == if routing.Via? then e.route.value else ToNode(e.node)
    ensures routing.Via? ==> e.dst in table.entries && routing.route == table.entries[e.dst]
  {
    ghost var o := OutcomeOf(e.policy, node.queue.entries, e.now, node.lambda, node.sink);
    ghost var data := e.record.header + e.record.payload;
    p := new Packet(uid, e.record.header + e.record.payload);
    assert p.data == data && |data| == 56 && node.PolicyFor(choice) == e.policy;
    routing := node.RouteOutput(p, e.dst, e.now, choice, table);
    assert p.data == data + Merged(o.sent);
    assert routing == if o.sends && e.dst in table.entries then Via(table.entries[e.dst]) else Loopback;
  }

  // ---- What is where ----

  /** The bytes of a flight that have not been queued yet: those its node holds, and those still to come. */
  function Bytes(f: Flight, nodes: seq<NodeState>): seq<Byte> {
    (if f.hop.ToNode? && f.hop.node < |nodes| then Held(nodes[f.hop.node].residue, f.uid) else [])
      + Flatten(f.pending)
  }

  /** The headers a flight still carries, unless it is broken. */
  function InTransit(f: Flight, nodes: seq<NodeState>): seq<Header> {
    if f.broken then [] else Headers(Bytes(f, nodes))
  }

  /** How often h occurs in s. */
  function Count(h: Header, s: seq<Header>): nat {
    if s == [] then 0 else Count(h, s[1..]) + (if s[0] == h then 1 else 0)
  }

  /** How often h occurs in all of ss together. */
  function Total(h: Header, ss: seq<seq<Header>>): nat {
    if ss == [] then 0 else Total(h, ss[..|ss| - 1]) + Count(h, ss[|ss| - 1])
  }

  /** The headers in transit, flight by flight. */
  function Transit(flights: seq<Flight>, nodes: seq<NodeState>): seq<seq<Header>> {
    seq(|flights|, i requires 0 <= i < |flights| => InTransit(flights[i], nodes))
  }

  /** The headers queued, node by node. */
  function Queues(nodes: seq<NodeState>): seq<seq<Header>> {
    seq(|nodes|, i requires 0 <= i < |nodes| => QueuedHeaders(nodes[i].queue))
  }

  function DroppedCount(nodes: seq<NodeState>): nat {
    if nodes == [] then 0 else DroppedCount(nodes[..|nodes| - 1]) + nodes[|nodes| - 1].dropped
  }

  /** Every queue holds whole records. */
  predicate QueuesOk(nodes: seq<NodeState>) {
    forall i :: 0 <= i < |nodes| ==> HoldsRecords(nodes[i].queue)
  }

  /** What a node holds is shorter than a record, and has the key of a uid that is in use. */
  predicate ResiduesOk(nodes: seq<NodeState>, nextUid: nat) {
    forall n, s :: 0 <= n < |nodes| && s in nodes[n].residue ==> s.key < nextUid && |nodes[n].residue[s]| < RECORD_SIZE
  }

  /** Uids are used once, and every flight is made of whole records unless it is broken, on its way to a node. */
  predicate FlightsOk(w: World) {
    && (forall i :: 0 <= i < |w.flights| ==>
          && w.flights[i].uid < w.nextUid && HopExists(w, w.flights[i].hop)
          && IsWhole(w.flights[i], w.nodes))
    && (forall i, j :: 0 <= i < j < |w.flights| ==> w.flights[i].uid != w.flights[j].uid)
  }

  predicate IsWhole(f: Flight, nodes: seq<NodeState>) {
    if f.broken then f.hop.ToNode? else Residue(Bytes(f, nodes)) == []
  }

  predicate Inv(w: World) {
    w.nextUid <= KEY_RANGE && QueuesOk(w.nodes) && ResiduesOk(w.nodes, w.nextUid) && FlightsOk(w)
  }

  /**
   * h was taken in, and queued out of broken packets, as often as it is queued, dropped, in transit, was in a packet
   * that broke, and was delivered.
   */
  predicate Balanced(h: Header, w: World) {
    w.accepted[h] + w.salvaged[h]
      == Total(h, Queues(w.nodes)) + w.late[h] + Total(h, Transit(w.flights, w.nodes)) + w.broken[h] + w.delivered[h]
  }

  /** Every header balances, and the counters of the nodes and of the sink count the dropped and delivered ones. */
  ghost predicate Conserved(w: World) {
    && (forall h :: Balanced(h, w))
    && DroppedCount(w.nodes) == |w.late|
    && w.decompressed + w.expired == |w.delivered|
  }

  // ---- Entries and headers ----

  lemma FilterKeepsRecords(q: seq<QueueEntry>, keep: QueueEntry -> bool)
    requires HoldsRecords(q)
    ensures HoldsRecords(Filter(q, keep))
  {
    FilterAll(q, keep);
  }

  lemma DecideKeepsRecords(sends: bool, live: seq<QueueEntry>, dropped: seq<QueueEntry>, sink: Address)
    requires HoldsRecords(live)
    ensures var o := Decide(sends, live, dropped, sink); HoldsRecords(o.queue) && HoldsRecords(o.sent)
  {
    FilterKeepsRecords(live, (e: QueueEntry) => e.dst == sink);
    FilterKeepsRecords(live, (e: QueueEntry) => !(e.dst == sink));
  }

  lemma OutcomeKeepsRecords(c: Config, policy: Policy, q: seq<QueueEntry>, now: int)
    requires c.Valid() && HoldsRecords(q)
    ensures var o := PolicyOutcome(c, policy, q, now);
      HoldsRecords(o.queue) && HoldsRecords(o.dropped) && HoldsRecords(o.sent)
  {
    var o := PolicyOutcome(c, policy, q, now);
    FilterKeepsRecords(q, (e: QueueEntry) => e.deadline >= now);
    FilterKeepsRecords(q, (e: QueueEntry) => !(e.deadline >= now));
    match policy
    case ByProposal(_, _) => DecideKeepsRecords(o.sends, Live(q, now), Late(q, now), c.sink);
    case ByControlLimit(_) => DecideKeepsRecords(o.sends, Live(q, now), Late(q, now), c.sink);
    case ByOptTM(_) => DecideKeepsRecords(o.sends, q, [], c.sink);
    case BySelectiveForwarding =>
    case ByDefault =>
  }

  lemma {:induction false} CountMultiset(h: Header, s: seq<Header>)
    ensures multiset(s)[h] == Count(h, s)
  {
    if s != [] {
      CountMultiset(h, s[1..]);
      assert s == [s[0]] + s[1..];
    }
  }

  lemma {:induction false} CountAppend(h: Header, a: seq<Header>, b: seq<Header>)
    ensures Count(h, a + b) == Count(h, a) + Count(h, b)
  {
    if a == [] {
      assert a + b == b;
    } else {
      TailOfSum(a, b);
      CountAppend(h, a[1..], b);
    }
  }

  lemma {:induction false} HeadersSplit(
    h: Header, q: seq<QueueEntry>, keep: QueueEntry -> bool, reject: QueueEntry -> bool)
    requires forall e :: e in q ==> reject(e) == !keep(e)
    ensures Count(h, QueuedHeaders(Filter(q, keep))) + Count(h, QueuedHeaders(Filter(q, reject)))
      == Count(h, QueuedHeaders(q))
  {
    if q != [] {
      assert q[0] in q;
      HeadersSplit(h, q[1..], keep, reject);
      CountFirst(h, q[0], q[1..]);
      assert q == [q[0]] + q[1..];
      CountFirst(h, q[0], Filter(q[1..], if keep(q[0]) then keep else reject));
    }
  }

  lemma CountFirst(h: Header, e: QueueEntry, q: seq<QueueEntry>)
    ensures Count(h, QueuedHeaders([e] + q)) == Count(h, QueuedHeaders(q)) + (if HeaderOf(e) == h then 1 else 0)
  {
    assert ([e] + q)[1..] == q;
    var hs := QueuedHeaders([e] + q);
    assert hs[1..] == QueuedHeaders(q);
  }

  lemma DecideSplits(h: Header, sends: bool, live: seq<QueueEntry>, dropped: seq<QueueEntry>, sink: Address)
    ensures var o := Decide(sends, live, dropped, sink);
      Count(h, QueuedHeaders(live)) == Count(h, QueuedHeaders(o.queue)) + Count(h, QueuedHeaders(o.sent))
  {
    HeadersSplit(h, live, (e: QueueEntry) => e.dst == sink, (e: QueueEntry) => !(e.dst == sink));
  }

  /** Every policy keeps, drops or sends each queued record, and nothing else. */
  lemma OutcomeConserves(h: Header, c: Config, policy: Policy, q: seq<QueueEntry>, now: int)
    requires c.Valid()
    ensures var o := PolicyOutcome(c, policy, q, now);
      Count(h, QueuedHeaders(q))
        == Count(h, QueuedHeaders(o.queue)) + Count(h, QueuedHeaders(o.dropped)) + Count(h, QueuedHeaders(o.sent))
  {
    var o := PolicyOutcome(c, policy, q, now);
    if policy.ByOptTM? {
      DecideSplits(h, o.sends, q, [], c.sink);
    } else if policy.ByProposal? || policy.ByControlLimit? {
      HeadersSplit(h, q, (e: QueueEntry) => e.deadline >= now, (e: QueueEntry) => !(e.deadline >= now));
      DecideSplits(h, o.sends, Live(q, now), Late(q, now), c.sink);
    }
  }

  // ---- Sums over nodes and flights ----

  lemma {:induction false} TotalUpdate(h: Header, ss: seq<seq<Header>>, i: nat, s: seq<Header>)
    requires i < |ss|
    ensures Total(h, ss[i := s]) + Count(h, ss[i]) == Total(h, ss) + Count(h, s)
  {
    var front := ss[..|ss| - 1];
    if i == |ss| - 1 {
      assert ss[i := s][..i] == front;
    } else {
      TotalUpdate(h, front, i, s);
      assert ss[i := s][..|ss| - 1] == front[i := s];
    }
  }

  lemma {:induction false} DroppedUpdate(nodes: seq<NodeState>, i: nat, n: NodeState)
    requires i < |nodes|
    ensures DroppedCount(nodes[i := n]) + nodes[i].dropped == DroppedCount(nodes) + n.dropped
  {
    var front := nodes[..|nodes| - 1];
    if i == |nodes| - 1 {
      assert nodes[i := n][..i] == front;
    } else {
      DroppedUpdate(front, i, n);
      assert nodes[i := n][..|nodes| - 1] == front[i := n];
    }
  }

  // ---- Each event keeps the invariant and the balance ----

  lemma PacketForRecords(record: Record, o: Outcome)
    requires record.Valid() && HoldsRecords(o.sent)
    ensures Headers(PacketFor(record, o)) == [record.header] + QueuedHeaders(o.sent)
    ensures Residue(PacketFor(record, o)) == []
  {
    RecordInFront(record.header, record.payload, Merged(o.sent));
    MergedRecords(o.sent);
  }

  /** Flights see only what the nodes hold, and a new uid is held nowhere. */
  lemma BytesUnchanged(f: Flight, nodes: seq<NodeState>, i: nat, n: NodeState)
    requires i < |nodes| && (f.hop == ToNode(i) ==> Held(n.residue, f.uid) == Held(nodes[i].residue, f.uid))
    ensures Bytes(f, nodes[i := n]) == Bytes(f, nodes)
  {
  }

  lemma TransitAdded(flights: seq<Flight>, nodes: seq<NodeState>, nodes': seq<NodeState>, f: Flight)
    requires forall i :: 0 <= i < |flights| ==> Bytes(flights[i], nodes') == Bytes(flights[i], nodes)
    ensures Transit(flights + [f], nodes') == Transit(flights, nodes) + [InTransit(f, nodes')]
  {
  }

  lemma TransitUpdated(flights: seq<Flight>, nodes: seq<NodeState>, nodes': seq<NodeState>, k: nat, f: Flight)
    requires k < |flights|
    requires forall i :: 0 <= i < |flights| && i != k ==> Bytes(flights[i], nodes') == Bytes(flights[i], nodes)
    ensures Transit(flights[k := f], nodes') == Transit(flights, nodes)[k := InTransit(f, nodes')]
  {
  }

  /** Sending a packet leaves what nodes hold alone, so the other flights keep their bytes. */
  lemma OriginateInv(c: Config, w: World, e: Event, w': World, o: Outcome) returns (f: Flight)
    requires c.Valid() && e.Originate? && Step(c, w, e, w') && Inv(w)
    requires o == PolicyOutcome(c, e.policy, w.nodes[e.node].queue, e.now)
    ensures Inv(w') && w'.flights == w.flights + [f] && f == NewFlight(w.nextUid, e, o)
    ensures InTransit(f, w'.nodes) == [e.record.header] + QueuedHeaders(o.sent)
    ensures forall i :: 0 <= i < |w.flights| ==> Bytes(w.flights[i], w'.nodes) == Bytes(w.flights[i], w.nodes)
  {
    f := NewFlight(w.nextUid, e, o);
    OutcomeKeepsRecords(c, e.policy, w.nodes[e.node].queue, e.now);
    OthersUnchanged(w.flights, w.nodes, e.node, w'.nodes[e.node]);
    assert Bytes(f, w'.nodes) == PacketFor(e.record, o) by { FreshBytes(w, w'.nodes, e.node, f); }
    assert Residue(Bytes(f, w'.nodes)) == [] by { PacketForRecords(e.record, o); }
    assert QueuesOk(w'.nodes) && ResiduesOk(w'.nodes, w'.nextUid);
    assert FlightsOk(w') by { FlightAdded(w, w', f); }
    PacketForRecords(e.record, o);
  }

  lemma OthersUnchanged(flights: seq<Flight>, nodes: seq<NodeState>, at: nat, n: NodeState)
    requires at < |nodes| && n.residue == nodes[at].residue
    ensures forall i :: 0 <= i < |flights| ==> Bytes(flights[i], nodes[at := n]) == Bytes(flights[i], nodes)
  {
    forall i | 0 <= i < |flights| ensures Bytes(flights[i], nodes[at := n]) == Bytes(flights[i], nodes) {
      BytesUnchanged(flights[i], nodes, at, n);
    }
  }

  lemma FlightAdded(w: World, w': World, f: Flight)
    requires FlightsOk(w) && w'.flights == w.flights + [f] && |w'.nodes| == |w.nodes|
    requires f.uid == w.nextUid && w'.nextUid == w.nextUid + 1 && HopExists(w, f.hop)
    requires IsWhole(f, w'.nodes)
    requires forall i :: 0 <= i < |w.flights| ==> Bytes(w.flights[i], w'.nodes) == Bytes(w.flights[i], w.nodes)
    ensures FlightsOk(w')
  {
    forall i | 0 <= i < |w'.flights|
      ensures w'.flights[i].uid < w'.nextUid && HopExists(w', w'.flights[i].hop)
      ensures IsWhole(w'.flights[i], w'.nodes)
    {
      if i < |w.flights| {
        assert w'.flights[i] == w.flights[i];
      }
    }
  }

  lemma FlightUpdated(w: World, w': World, k: nat, f: Flight)
    requires FlightsOk(w) && k < |w.flights| && w'.flights == w.flights[k := f]
    requires |w'.nodes| == |w.nodes| && w'.nextUid == w.nextUid
    requires f.uid == w.flights[k].uid && f.hop == w.flights[k].hop
    requires IsWhole(f, w'.nodes)
    requires forall i :: 0 <= i < |w.flights| && i != k ==>
      Bytes(w.flights[i], w'.nodes) == Bytes(w.flights[i], w.nodes)
    ensures FlightsOk(w')
  {
    forall i | 0 <= i < |w'.flights|
      ensures w'.flights[i].uid < w'.nextUid && HopExists(w', w'.flights[i].hop)
      ensures IsWhole(w'.flights[i], w'.nodes)
    {
      if i != k {
        assert w'.flights[i] == w.flights[i];
      }
    }
  }

  lemma FreshBytes(w: World, nodes': seq<NodeState>, at: nat, f: Flight)
    requires Inv(w) && f.uid == w.nextUid && at < |w.nodes| == |nodes'|
    requires forall i :: 0 <= i < |w.nodes| ==> nodes'[i].residue == w.nodes[i].residue
    ensures Bytes(f, nodes') == Flatten(f.pending)
  {
    if w.nextUid < KEY_RANGE {
      NarrowKey(w.nextUid);
    }
  }

  lemma QueuesUpdated(nodes: seq<NodeState>, i: nat, n: NodeState)
    requires i < |nodes|
    ensures Queues(nodes[i := n]) == Queues(nodes)[i := QueuedHeaders(n.queue)]
  {
  }

  /** A record that sets out with those sent along, while others are kept or dropped, keeps the balance. */
  lemma OriginateBalanced(h: Header, c: Config, w: World, w': World, at: nat, policy: Policy, now: int, record: Header)
    requires c.Valid() && at < |w.nodes| && Balanced(h, w)
    requires var o := PolicyOutcome(c, policy, w.nodes[at].queue, now);
      && Queues(w'.nodes) == Queues(w.nodes)[at := QueuedHeaders(o.queue)]
      && Transit(w'.flights, w'.nodes) == Transit(w.flights, w.nodes) + [[record] + QueuedHeaders(o.sent)]
      && w'.late == w.late + multiset(QueuedHeaders(o.dropped))
    requires w'.accepted == w.accepted + multiset{record}
    requires w'.broken == w.broken && w'.salvaged == w.salvaged && w'.delivered == w.delivered
    ensures Balanced(h, w')
  {
    var o := PolicyOutcome(c, policy, w.nodes[at].queue, now);
    OutcomeConserves(h, c, policy, w.nodes[at].queue, now);
    TotalUpdate(h, Queues(w.nodes), at, QueuedHeaders(o.queue));
    CountMultiset(h, QueuedHeaders(o.dropped));
    TotalAdd(h, Transit(w.flights, w.nodes), [record] + QueuedHeaders(o.sent));
    CountAppend(h, [record], QueuedHeaders(o.sent));
    CountOne(h, record);
  }

  lemma OriginateKeeps(c: Config, w: World, e: Event, w': World)
    requires c.Valid() && e.Originate? && Step(c, w, e, w') && Inv(w) && Conserved(w)
    ensures Inv(w') && Conserved(w')
  {
    var o := PolicyOutcome(c, e.policy, w.nodes[e.node].queue, e.now);
    var f := OriginateInv(c, w, e, w', o);
    TransitAdded(w.flights, w.nodes, w'.nodes, f);
    QueuesUpdated(w.nodes, e.node, w'.nodes[e.node]);
    forall h ensures Balanced(h, w') {
      assert Balanced(h, w);
      OriginateBalanced(h, c, w, w', e.node, e.policy, e.now, e.record.header);
    }
    DroppedUpdate(w.nodes, e.node, w'.nodes[e.node]);
    QueuedHeadersSize(o.dropped);
  }

  lemma TotalAdd(h: Header, ss: seq<seq<Header>>, s: seq<Header>)
    ensures Total(h, ss + [s]) == Total(h, ss) + Count(h, s)
  {
    assert (ss + [s])[..|ss|] == ss;
  }

  lemma CountOne(h: Header, g: Header)
    ensures Count(h, [g]) == multiset{g}[h]
  {
    assert [g][1..] == [];
  }

  lemma {:induction false} QueuedHeadersSize(q: seq<QueueEntry>)
    ensures |QueuedHeaders(q)| == |q|
  {
    if q != [] {
      QueuedHeadersSize(q[1..]);
    }
  }

  lemma {:induction false} EntriesForHeaders(headers: seq<Header>, dst: Address, deadlineOf: Header -> int)
    requires forall h :: h in headers ==> |h| == HEADER_SIZE
    ensures HoldsRecords(EntriesFor(headers, dst, deadlineOf))
    ensures QueuedHeaders(EntriesFor(headers, dst, deadlineOf)) == headers
  {
    if headers != [] {
      assert headers[0] in headers;
      var es := EntriesFor(headers, dst, deadlineOf);
      EntriesForHeaders(headers[1..], dst, deadlineOf);
      assert es[1..] == EntriesFor(headers[1..], dst, deadlineOf);
      assert HeaderOf(es[0]) == headers[0];
    }
  }

  lemma {:induction false} QueuedHeadersAppend(a: seq<QueueEntry>, b: seq<QueueEntry>)
    ensures QueuedHeaders(a + b) == QueuedHeaders(a) + QueuedHeaders(b)
  {
    if a == [] {
      assert a + b == b;
    } else {
      TailOfSum(a, b);
      QueuedHeadersAppend(a[1..], b);
      Associative([HeaderOf(a[0])], QueuedHeaders(a[1..]), QueuedHeaders(b));
    }
  }

  /** A fragment arrives: whole records leave the flight for the queue, and the rest is held. */
  lemma SplitFlight(held: seq<Byte>, chunk: seq<Byte>, rest: seq<Byte>)
    requires Residue(held + (chunk + rest)) == []
    ensures var all := held + chunk;
      && Headers(held + (chunk + rest)) == Headers(all) + Headers(Residue(all) + rest)
      && Residue(Residue(all) + rest) == []
  {
    Associative(held, chunk, rest);
    SplitResumes(held + chunk, rest);
  }

  lemma ChunkResidue(residue: map<Slot, seq<Byte>>, uid: nat, chunk: seq<Byte>, nextUid: nat)
    requires uid < nextUid <= KEY_RANGE
    requires forall s :: s in residue ==> s.key < nextUid && |residue[s]| < RECORD_SIZE
    ensures Held(Stored(residue, uid, chunk), uid) == Residue(Held(residue, uid) + chunk)
    ensures forall v :: 0 <= v < nextUid && v != uid ==> Held(Stored(residue, uid, chunk), v) == Held(residue, v)
    ensures forall s :: s in Stored(residue, uid, chunk) ==>
      s.key < nextUid && |Stored(residue, uid, chunk)[s]| < RECORD_SIZE
  {
    NarrowKey(uid);
    forall v | 0 <= v < nextUid && v != uid ensures Held(Stored(residue, uid, chunk), v) == Held(residue, v) {
      NarrowKey(v);
    }
  }

  /** Only this flight's slot is touched in the table, so the other flights keep their bytes. */
  lemma ForwardInv(c: Config, w: World, e: Event, w': World, all: seq<Byte>, rest: seq<Byte>)
    requires c.Valid() && e.Forward? && Step(c, w, e, w') && Inv(w)
    requires var f := w.flights[e.flight];
      all == Held(w.nodes[f.hop.node].residue, f.uid) + f.pending[0] && rest == Flatten(f.pending[1..])
    ensures Inv(w') && Bytes(w'.flights[e.flight], w'.nodes) == Residue(all) + rest
    ensures forall i :: 0 <= i < |w.flights| && i != e.flight ==>
      Bytes(w.flights[i], w'.nodes) == Bytes(w.flights[i], w.nodes)
  {
    var f, f' := w.flights[e.flight], w'.flights[e.flight];
    var n, n' := w.nodes[f.hop.node], w'.nodes[f.hop.node];
    ChunkResidue(n.residue, f.uid, f.pending[0], w.nextUid);
    assert f.broken || Residue(Residue(all) + rest) == [] by {
      if !f.broken {
        SplitFlight(Held(n.residue, f.uid), f.pending[0], rest);
      }
    }
    forall i | 0 <= i < |w.flights| && i != e.flight
      ensures Bytes(w.flights[i], w'.nodes) == Bytes(w.flights[i], w.nodes)
    {
      assert w.flights[i].uid != f.uid;
      BytesUnchanged(w.flights[i], w.nodes, f.hop.node, n');
    }
    assert QueuesOk(w'.nodes) by { EntriesForHeaders(Headers(all), f.dst, c.deadlineOf); }
    assert ResiduesOk(w'.nodes, w'.nextUid);
    FlightUpdated(w, w', e.flight, f');
  }

  /** What Forward does to the headers queued at the node. */
  lemma ForwardQueues(c: Config, w: World, e: Event, w': World, all: seq<Byte>)
    requires c.Valid() && e.Forward? && Step(c, w, e, w')
    requires var f := w.flights[e.flight]; all == Held(w.nodes[f.hop.node].residue, f.uid) + f.pending[0]
    ensures var at := w.flights[e.flight].hop.node;
      Queues(w'.nodes) == Queues(w.nodes)[at := QueuedHeaders(w.nodes[at].queue) + Headers(all)]
  {
    var f := w.flights[e.flight];
    EntriesForHeaders(Headers(all), f.dst, c.deadlineOf);
    QueuedHeadersAppend(w.nodes[f.hop.node].queue, EntriesFor(Headers(all), f.dst, c.deadlineOf));
  }

  /** Headers that move from a flight to a queue keep the balance. */
  lemma ForwardBalanced(h: Header, w: World, w': World, at: nat, k: nat, moved: seq<Header>, left: seq<Header>)
    requires at < |w.nodes| && k < |w.flights| && Balanced(h, w)
    requires InTransit(w.flights[k], w.nodes) == if w.flights[k].broken then [] else moved + left
    requires Queues(w'.nodes) == Queues(w.nodes)[at := QueuedHeaders(w.nodes[at].queue) + moved]
    requires Transit(w'.flights, w'.nodes) == Transit(w.flights, w.nodes)[k := if w.flights[k].broken then [] else left]
    requires w'.salvaged == w.salvaged + (if w.flights[k].broken then multiset(moved) else multiset{})
    requires w'.accepted == w.accepted && w'.late == w.late
    requires w'.broken == w.broken && w'.delivered == w.delivered
    ensures Balanced(h, w')
  {
    var queued := QueuedHeaders(w.nodes[at].queue);
    TotalUpdate(h, Queues(w.nodes), at, queued + moved);
    CountAppend(h, queued, moved);
    CountAppend(h, moved, left);
    CountMultiset(h, moved);
    TotalUpdate(h, Transit(w.flights, w.nodes), k, if w.flights[k].broken then [] else left);
  }

  lemma ForwardKeeps(c: Config, w: World, e: Event, w': World)
    requires c.Valid() && e.Forward? && Step(c, w, e, w') && Inv(w) && Conserved(w)
    ensures Inv(w') && Conserved(w')
  {
    var f := w.flights[e.flight];
    var n := w.nodes[f.hop.node];
    var held, rest := Held(n.residue, f.uid), Flatten(f.pending[1..]);
    var all := held + f.pending[0];
    ForwardInv(c, w, e, w', all, rest);
    if !f.broken {
      SplitFlight(held, f.pending[0], rest);
    }
    TransitUpdated(w.flights, w.nodes, w'.nodes, e.flight, w'.flights[e.flight]);
    ForwardQueues(c, w, e, w', all);
    forall h ensures Balanced(h, w') {
      assert Balanced(h, w);
      ForwardBalanced(h, w, w', f.hop.node, e.flight, Headers(all), Headers(Residue(all) + rest));
    }
    DroppedUpdate(w.nodes, f.hop.node, w'.nodes[f.hop.node]);
  }

  /** A flight that ends or breaks takes its headers out of transit. */
  lemma EndBalanced(h: Header, w: World, w': World, k: nat, gone: seq<Header>)
    requires k < |w.flights| && Balanced(h, w) && w'.nodes == w.nodes
    requires gone == InTransit(w.flights[k], w.nodes)
    requires Transit(w'.flights, w.nodes) == Transit(w.flights, w.nodes)[k := []]
    requires w'.accepted == w.accepted && w'.late == w.late && w'.salvaged == w.salvaged
    requires w'.broken[h] + w'.delivered[h] == w.broken[h] + w.delivered[h] + multiset(gone)[h]
    ensures Balanced(h, w')
  {
    CountMultiset(h, gone);
    TotalUpdate(h, Transit(w.flights, w.nodes), k, []);
  }

  lemma DiscardKeeps(c: Config, w: World, e: Event, w': World)
    requires c.Valid() && e.Discard? && Step(c, w, e, w') && Inv(w) && Conserved(w)
    ensures Inv(w') && Conserved(w')
  {
    var f := w'.flights[e.flight];
    FlightUpdated(w, w', e.flight, f);
    TransitUpdated(w.flights, w.nodes, w.nodes, e.flight, f);
    forall h ensures Balanced(h, w') {
      assert Balanced(h, w);
      EndBalanced(h, w, w', e.flight, InTransit(w.flights[e.flight], w.nodes));
    }
  }

  lemma EndHoldsNoRecord(w: World, f: Flight)
    requires Inv(w) && f.pending == []
    ensures |Bytes(f, w.nodes)| < RECORD_SIZE && Headers(Bytes(f, w.nodes)) == []
  {
  }

  lemma DeliverKeeps(c: Config, w: World, e: Event, w': World)
    requires c.Valid() && e.Deliver? && Step(c, w, e, w') && Inv(w) && Conserved(w)
    ensures Inv(w') && Conserved(w')
  {
    var f := w.flights[e.flight];
    assert Bytes(f, w.nodes) == Flatten(f.pending) && Bytes(w'.flights[e.flight], w.nodes) == [];
    FlightUpdated(w, w', e.flight, w'.flights[e.flight]);
    TransitUpdated(w.flights, w.nodes, w.nodes, e.flight, w'.flights[e.flight]);
    forall h ensures Balanced(h, w') {
      assert Balanced(h, w);
      EndBalanced(h, w, w', e.flight, Headers(Flatten(f.pending)));
    }
  }

  // ---- Runs ----

  function Start(nodeCount: nat): World {
    World(seq(nodeCount, _ => NodeState([], map[], 0)), [], 0, 0, 0,
      multiset{}, multiset{}, multiset{}, multiset{}, multiset{})
  }

  lemma {:induction false} NothingTotals(h: Header, ss: seq<seq<Header>>)
    requires forall i :: 0 <= i < |ss| ==> ss[i] == []
    ensures Total(h, ss) == 0
  {
    if ss != [] {
      NothingTotals(h, ss[..|ss| - 1]);
    }
  }

  lemma {:induction false} NothingDropped(nodes: seq<NodeState>)
    requires forall n :: n in nodes ==> n.dropped == 0
    ensures DroppedCount(nodes) == 0
  {
    if nodes != [] {
      assert nodes[|nodes| - 1] in nodes;
      NothingDropped(nodes[..|nodes| - 1]);
    }
  }

  lemma StartConserved(nodeCount: nat)
    ensures Inv(Start(nodeCount)) && Conserved(Start(nodeCount))
  {
    var w := Start(nodeCount);
    NothingDropped(w.nodes);
    forall h ensures Balanced(h, w) {
      NothingTotals(h, Queues(w.nodes));
    }
  }

  /** The worlds a run passes through, each reached from the one before by one event. */
  predicate IsRun(c: Config, worlds: seq<World>, events: seq<Event>)
    requires c.Valid()
  {
    && |worlds| == |events| + 1 && worlds[0] == Start(|worlds[0].nodes|)
    && forall i :: 0 <= i < |events| ==> Step(c, worlds[i], events[i], worlds[i + 1])
  }

  lemma StepKeeps(c: Config, w: World, e: Event, w': World)
    requires c.Valid() && Step(c, w, e, w') && Inv(w) && Conserved(w)
    ensures Inv(w') && Conserved(w')
  {
    match e
    case Originate(_, _, _, _, _, _, _) => OriginateKeeps(c, w, e, w');
    case Forward(_) => ForwardKeeps(c, w, e, w');
    case Discard(_) => DiscardKeeps(c, w, e, w');
    case Deliver(_, _) => DeliverKeeps(c, w, e, w');
  }

  /**
   * Record conservation. In every world of every run, every header that was ever taken in is, counted as often as it
   * was taken in, in some queue, dropped for being late, in transit, in a packet when it broke, or delivered; headers
   * that are queued out of what is left of a broken packet are counted as taken in again. The nodes' drop counters add
   * up to the number dropped, and the sink's two counters to the number delivered.
   */
  lemma {:induction false} RecordsConserved(c: Config, worlds: seq<World>, events: seq<Event>)
    requires c.Valid() && IsRun(c, worlds, events)
    ensures forall w :: w in worlds ==> Inv(w) && Conserved(w)
  {
    var n := |events|;
    if n == 0 {
      StartConserved(|worlds[0].nodes|);
    } else {
      assert IsRun(c, worlds[..n], events[..n - 1]);
      RecordsConserved(c, worlds[..n], events[..n - 1]);
      var w, e, w' := worlds[n - 1], events[n - 1], worlds[n];
      assert worlds[..n][n - 1] == w;
      StepKeeps(c, w, e, w');
      assert worlds == worlds[..n] + [w'];
    }
  }

  /** No packet has broken, and nothing was salvaged. */
  predicate IsUnbroken(w: World) {
    && w.broken == multiset{} && w.salvaged == multiset{}
    && forall i :: 0 <= i < |w.flights| ==> !w.flights[i].broken
  }

  lemma StepBreaksNothing(c: Config, w: World, e: Event, w': World)
    requires c.Valid() && Step(c, w, e, w') && IsUnbroken(w) && !e.Discard?
    ensures IsUnbroken(w')
  {
  }

  /** In a run that discards no fragment nothing breaks, and so nothing is salvaged. */
  lemma {:induction false} NothingBroken(c: Config, worlds: seq<World>, events: seq<Event>, k: nat)
    requires c.Valid() && IsRun(c, worlds, events) && k < |worlds|
    requires forall e :: e in events ==> !e.Discard?
    ensures IsUnbroken(worlds[k])
  {
    if k > 0 {
      NothingBroken(c, worlds, events, k - 1);
      assert events[k - 1] in events;
      StepBreaksNothing(c, worlds[k - 1], events[k - 1], worlds[k]);
    }
  }

  /** Once no fragment is on its way, nothing is stuck in a reassembly table either, except of broken packets. */
  lemma NothingStuck(w: World, h: Header)
    requires Inv(w) && Conserved(w)
    requires forall i :: 0 <= i < |w.flights| ==> w.flights[i].pending == []
    ensures w.accepted[h] + w.salvaged[h] == Total(h, Queues(w.nodes)) + w.late[h] + w.broken[h] + w.delivered[h]
    ensures forall i :: 0 <= i < |w.flights| && !w.flights[i].broken ==> Bytes(w.flights[i], w.nodes) == []
  {
    forall i | 0 <= i < |w.flights|
      ensures InTransit(w.flights[i], w.nodes) == []
      ensures !w.flights[i].broken ==> Bytes(w.flights[i], w.nodes) == []
    {
      EndHoldsNoRecord(w, w.flights[i]);
    }
    NothingTotals(h, Transit(w.flights, w.nodes));
    assert Balanced(h, w);
  }
}
