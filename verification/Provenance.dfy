/**
 * Where queued records come from, over whole runs of a network: each is there because a packet brought it that was
 * addressed to the record's destination, and it is due when its own header says.
 */
module Provenance {
  import opened Sequences
  import opened Packets
  import opened PacketQueues
  import opened TransmitPolicies
  import opened Reassembly
  import opened Conservation

  /** The packet led to the node for the entry's destination; unless it broke, it carried the header. */
  predicate Brought(f: Flight, at: nat, e: QueueEntry) {
    f.hop == ToNode(at) && f.dst == e.dst && (f.broken || HeaderOf(e) in f.carried)
  }

  predicate IsTraced(c: Config, flights: seq<Flight>, at: nat, e: QueueEntry) {
    e.deadline == c.deadlineOf(HeaderOf(e)) && exists k :: 0 <= k < |flights| && Brought(flights[k], at, e)
  }

  predicate QueueTraced(c: Config, flights: seq<Flight>, at: nat, q: seq<QueueEntry>) {
    forall e :: e in q ==> IsTraced(c, flights, at, e)
  }

  /** What an unbroken packet still has to bring, it set out with. */
  predicate Carries(f: Flight, nodes: seq<NodeState>) {
    forall h :: h in InTransit(f, nodes) ==> h in f.carried
  }

  predicate Traced(c: Config, w: World) {
    && (forall i :: 0 <= i < |w.nodes| ==> QueueTraced(c, w.flights, i, w.nodes[i].queue))
    && (forall k :: 0 <= k < |w.flights| ==> Carries(w.flights[k], w.nodes))
  }

  // ---- What a policy does to an entry ----

  predicate Parts(o: Outcome, q: seq<QueueEntry>, now: int, sink: Address) {
    && (forall e :: e in o.queue ==> e in q)
    && (forall e :: e in o.dropped ==> e in q && e.deadline < now)
    && (forall e :: e in o.sent ==> e in q && e.dst == sink)
  }

  lemma DecideParts(sends: bool, live: seq<QueueEntry>, dropped: seq<QueueEntry>, sink: Address)
    ensures var o := Decide(sends, live, dropped, sink);
      && o.dropped == dropped && (forall e :: e in o.queue ==> e in live)
      && (forall e :: e in o.sent ==> e in live && e.dst == sink)
  {
    FilterAll(live, (e: QueueEntry) => e.dst == sink);
    FilterAll(live, (e: QueueEntry) => !(e.dst == sink));
  }

  lemma OutcomeParts(c: Config, policy: Policy, q: seq<QueueEntry>, now: int)
    requires c.Valid()
    ensures Parts(PolicyOutcome(c, policy, q, now), q, now, c.sink)
  {
    var o := PolicyOutcome(c, policy, q, now);
    FilterAll(q, (e: QueueEntry) => e.deadline >= now);
    FilterAll(q, (e: QueueEntry) => !(e.deadline >= now));
    match policy
    case ByProposal(_, _) => DecideParts(o.sends, Live(q, now), Late(q, now), c.sink);
    case ByControlLimit(_) => DecideParts(o.sends, Live(q, now), Late(q, now), c.sink);
    case ByOptTM(_) => DecideParts(o.sends, q, [], c.sink);
    case BySelectiveForwarding =>
    case ByDefault =>
  }

  // ---- Every event keeps entries traced ----

  /** A flight that is added, or changes without losing what it stands for, keeps entries traced. */
  predicate Succeeds(f: Flight, g: Flight) {
    g.hop == f.hop && g.dst == f.dst && g.carried == f.carried && (f.broken ==> g.broken)
  }

  lemma StaysTraced(c: Config, flights: seq<Flight>, flights': seq<Flight>, at: nat, q: seq<QueueEntry>)
    requires QueueTraced(c, flights, at, q) && |flights| <= |flights'|
    requires forall k :: 0 <= k < |flights| ==> Succeeds(flights[k], flights'[k])
    ensures QueueTraced(c, flights', at, q)
  {
    forall e | e in q ensures IsTraced(c, flights', at, e) {
      assert IsTraced(c, flights, at, e);
      var k :| 0 <= k < |flights| && Brought(flights[k], at, e);
      assert Brought(flights'[k], at, e);
    }
  }

  lemma OriginateTraced(c: Config, w: World, e: Event, w': World)
    requires c.Valid() && e.Originate? && Step(c, w, e, w') && Inv(w) && Traced(c, w)
    ensures Traced(c, w')
  {
    var o := PolicyOutcome(c, e.policy, w.nodes[e.node].queue, e.now);
    var f := OriginateInv(c, w, e, w', o);
    OutcomeParts(c, e.policy, w.nodes[e.node].queue, e.now);
    forall i | 0 <= i < |w'.nodes| ensures QueueTraced(c, w'.flights, i, w'.nodes[i].queue) {
      assert QueueTraced(c, w.flights, i, w'.nodes[i].queue);
      StaysTraced(c, w.flights, w'.flights, i, w'.nodes[i].queue);
    }
    forall k | 0 <= k < |w'.flights| ensures Carries(w'.flights[k], w'.nodes) {
      if k < |w.flights| {
        assert Carries(w.flights[k], w.nodes);
      }
    }
  }

  lemma EntriesTraced(
    c: Config, flights: seq<Flight>, k: nat, at: nat, headers: seq<Header>)
    requires k < |flights| && flights[k].hop == ToNode(at)
    requires forall h :: h in headers ==> |h| == HEADER_SIZE && (flights[k].broken || h in flights[k].carried)
    ensures QueueTraced(c, flights, at, EntriesFor(headers, flights[k].dst, c.deadlineOf))
  {
    var es := EntriesFor(headers, flights[k].dst, c.deadlineOf);
    EntriesForAt(headers, flights[k].dst, c.deadlineOf);
    forall e | e in es ensures IsTraced(c, flights, at, e) {
      var i :| 0 <= i < |es| && es[i] == e;
      assert HeaderOf(e) == headers[i] && headers[i] in headers;
      assert Brought(flights[k], at, e);
    }
  }

  /** The headers that a fragment completes, the flight set out with. */
  lemma CompletedCarried(w: World, f: Flight, chunk: seq<Byte>, rest: seq<Byte>)
    requires f.hop.ToNode? && f.hop.node < |w.nodes| && !f.broken && Carries(f, w.nodes)
    requires Flatten(f.pending) == chunk + rest && Residue(Bytes(f, w.nodes)) == []
    ensures var all := Held(w.nodes[f.hop.node].residue, f.uid) + chunk;
      && (forall h :: h in Headers(all) ==> h in f.carried)
      && (forall h :: h in Headers(Residue(all) + rest) ==> h in f.carried)
  {
    var held := Held(w.nodes[f.hop.node].residue, f.uid);
    SplitFlight(held, chunk, rest);
    var all := held + chunk;
    assert InTransit(f, w.nodes) == Headers(all) + Headers(Residue(all) + rest);
  }

  lemma ForwardTraced(c: Config, w: World, e: Event, w': World)
    requires c.Valid() && e.Forward? && Step(c, w, e, w') && Inv(w) && Traced(c, w)
    ensures Traced(c, w')
  {
    var f := w.flights[e.flight];
    var at, rest := f.hop.node, Flatten(f.pending[1..]);
    var all := Held(w.nodes[at].residue, f.uid) + f.pending[0];
    ForwardInv(c, w, e, w', all, rest);
    if !f.broken {
      CompletedCarried(w, f, f.pending[0], rest);
    }
    var came := EntriesFor(Headers(all), f.dst, c.deadlineOf);
    EntriesTraced(c, w'.flights, e.flight, at, Headers(all));
    forall i | 0 <= i < |w'.nodes| ensures QueueTraced(c, w'.flights, i, w'.nodes[i].queue) {
      StaysTraced(c, w.flights, w'.flights, i, w.nodes[i].queue);
      assert i == at ==> w'.nodes[i].queue == w.nodes[i].queue + came;
    }
    forall k | 0 <= k < |w'.flights| ensures Carries(w'.flights[k], w'.nodes) {
      assert Carries(w.flights[k], w.nodes);
    }
  }

  /** Discarding a fragment and delivering a packet leave the queues alone. */
  lemma OtherTraced(c: Config, w: World, e: Event, w': World)
    requires c.Valid() && (e.Discard? || e.Deliver?) && Step(c, w, e, w') && Inv(w) && Traced(c, w)
    ensures Traced(c, w')
  {
    forall i | 0 <= i < |w'.nodes| ensures QueueTraced(c, w'.flights, i, w'.nodes[i].queue) {
      StaysTraced(c, w.flights, w'.flights, i, w.nodes[i].queue);
    }
    forall k | 0 <= k < |w'.flights| ensures Carries(w'.flights[k], w'.nodes) {
      assert Carries(w.flights[k], w.nodes);
    }
  }

  lemma {:induction false} RunsAreTraced(c: Config, worlds: seq<World>, events: seq<Event>, k: nat)
    requires c.Valid() && IsRun(c, worlds, events) && k < |worlds|
    ensures Inv(worlds[k]) && Traced(c, worlds[k])
  {
    RecordsConserved(c, worlds, events);
    assert worlds[k] in worlds;
    if k > 0 {
      RunsAreTraced(c, worlds, events, k - 1);
      var w, e, w' := worlds[k - 1], events[k - 1], worlds[k];
      match e
      case Originate(_, _, _, _, _, _, _) => OriginateTraced(c, w, e, w');
      case Forward(_) => ForwardTraced(c, w, e, w');
      case Discard(_) => OtherTraced(c, w, e, w');
      case Deliver(_, _) => OtherTraced(c, w, e, w');
    }
  }

  /** A packet that was addressed to the sink brought the entry to the node. */
  predicate BroughtForSink(flights: seq<Flight>, at: nat, e: QueueEntry, sink: Address) {
    exists k :: 0 <= k < |flights| && Brought(flights[k], at, e) && flights[k].dst == sink
  }

  /**
   * Over every run and under every policy: a record leaves a queue as late only after the deadline in its own header,
   * and is sent on to the sink only if the packet that brought it was addressed to the sink and, unless it broke, had
   * set out with that record.
   */
  lemma LeavesForItsOwnReason(c: Config, worlds: seq<World>, events: seq<Event>, k: nat)
    requires c.Valid() && IsRun(c, worlds, events) && k < |events| && events[k].Originate?
    ensures events[k].node < |worlds[k].nodes|
    ensures var (w, e) := (worlds[k], events[k]);
      var o := PolicyOutcome(c, e.policy, w.nodes[e.node].queue, e.now);
      && (forall x :: x in o.dropped ==> c.deadlineOf(HeaderOf(x)) < e.now)
      && (forall x :: x in o.sent ==> BroughtForSink(w.flights, e.node, x, c.sink))
  {
    RunsAreTraced(c, worlds, events, k);
    var w, e := worlds[k], events[k];
    assert Step(c, w, e, worlds[k + 1]);
    var q := w.nodes[e.node].queue;
    OutcomeParts(c, e.policy, q, e.now);
    assert QueueTraced(c, w.flights, e.node, q);
    var o := PolicyOutcome(c, e.policy, q, e.now);
    forall x | x in o.sent ensures BroughtForSink(w.flights, e.node, x, c.sink) {
      assert IsTraced(c, w.flights, e.node, x);
    }
  }
}
