/**
 * Packets without a route, in the build without aggregation: each is put aside and a flush is scheduled for 100 ms
 * later; a flush forwards everything that waits. Times are in nanoseconds.
 */
module Deferred {
  const FLUSH_DELAY := 100_000_000

  /** A packet that waits, and when it arrived. */
  datatype DeferredPack = DeferredPack(packet: int, arrival: int)

  class DeferredQueue {
    var waiting: seq<DeferredPack>
    // The times of the flushes scheduled and not yet fired.
    var flushes: seq<int>
    // Everything handed to the forwarding callback so far.
    var forwarded: seq<int>

    constructor ()
      ensures waiting == [] && flushes == [] && forwarded == []
    {
      waiting, flushes, forwarded := [], [], [];
    }

    method EnqueueForNoDA(packet: int, now: int)
      modifies this
      ensures State(waiting, flushes, forwarded) == Arrive(old(State(waiting, flushes, forwarded)), packet, now)
    {
      waiting := waiting + [DeferredPack(packet, now)];
      flushes := flushes + [now + FLUSH_DELAY];
    }

    /** The oldest scheduled flush fires. */
    method AutoDequeueNoDA()
      requires flushes != []
      modifies this
      ensures State(waiting, flushes, forwarded) == Flush(old(State(waiting, flushes, forwarded))) && waiting == []
    {
      flushes := flushes[1..];
      ghost var all := waiting;
      while |waiting| > 0
        invariant flushes == old(flushes)[1..]
        invariant forwarded + PacketsOf(waiting) == old(forwarded) + PacketsOf(all)
      {
        var tmp := waiting[0];
        assert PacketsOf(waiting) == [tmp.packet] + PacketsOf(waiting[1..]);
        forwarded := forwarded + [tmp.packet];
        waiting := waiting[1..];
      }
    }
  }

  function PacketsOf(waiting: seq<DeferredPack>): seq<int> {
    if waiting == [] then [] else [waiting[0].packet] + PacketsOf(waiting[1..])
  }

  lemma {:induction false} PacketsOfAppend(a: seq<DeferredPack>, p: DeferredPack)
    ensures PacketsOf(a + [p]) == PacketsOf(a) + [p.packet]
  {
    if a == [] {
      assert a + [p] == [p] && [p][1..] == [];
    } else {
      assert (a + [p])[1..] == a[1..] + [p];
      PacketsOfAppend(a[1..], p);
    }
  }

  // ---- Runs ----

  datatype State = State(waiting: seq<DeferredPack>, flushes: seq<int>, forwarded: seq<int>)

  function Arrive(s: State, packet: int, now: int): State {
    State(s.waiting + [DeferredPack(packet, now)], s.flushes + [now + FLUSH_DELAY], s.forwarded)
  }

  function Flush(s: State): State
    requires s.flushes != []
  {
    State([], s.flushes[1..], s.forwarded + PacketsOf(s.waiting))
  }

  /** A packet arrives at a time of its own, or the earliest scheduled flush fires at its time. */
  datatype Event = Arrival(packet: int, now: int) | FlushFires

  /** The clock, the queue, and every packet that has arrived. */
  datatype World = World(now: int, state: State, arrived: seq<int>)

  /** Time does not go back, and no scheduled flush is passed over. */
  predicate Step(w: World, e: Event, w': World) {
    match e
    case Arrival(packet, now) =>
      && w.now <= now && (w.state.flushes != [] ==> now <= w.state.flushes[0])
      && w' == World(now, Arrive(w.state, packet, now), w.arrived + [packet])
    case FlushFires =>
      && w.state.flushes != []
      && w' == World(w.state.flushes[0], Flush(w.state), w.arrived)
  }

  predicate IsRun(worlds: seq<World>, events: seq<Event>) {
    && |worlds| == |events| + 1
    && worlds[0] == World(worlds[0].now, State([], [], []), [])
    && forall i :: 0 <= i < |events| ==> Step(worlds[i], events[i], worlds[i + 1])
  }

  /** The scheduled flushes lie ahead, in order, and at most a delay away. */
  predicate Ahead(flushes: seq<int>, now: int) {
    && (forall i, j :: 0 <= i < j < |flushes| ==> flushes[i] <= flushes[j])
    && (forall i :: 0 <= i < |flushes| ==> now <= flushes[i] <= now + FLUSH_DELAY)
  }

  /** The newest flushes belong, one by one, to the packets that wait. */
  predicate Matched(waiting: seq<DeferredPack>, flushes: seq<int>) {
    && |waiting| <= |flushes|
    && forall i :: 0 <= i < |waiting| ==> waiting[i].arrival + FLUSH_DELAY == flushes[|flushes| - |waiting| + i]
  }

  predicate Inv(w: World) {
    && Ahead(w.state.flushes, w.now) && Matched(w.state.waiting, w.state.flushes)
    && w.state.forwarded + PacketsOf(w.state.waiting) == w.arrived
  }

  lemma ArrivalAhead(flushes: seq<int>, before: int, now: int)
    requires Ahead(flushes, before) && before <= now && (flushes != [] ==> now <= flushes[0])
    ensures Ahead(flushes + [now + FLUSH_DELAY], now)
  {
  }

  lemma ArrivalMatched(waiting: seq<DeferredPack>, flushes: seq<int>, p: DeferredPack)
    requires Matched(waiting, flushes)
    ensures Matched(waiting + [p], flushes + [p.arrival + FLUSH_DELAY])
  {
    var waiting', flushes' := waiting + [p], flushes + [p.arrival + FLUSH_DELAY];
    forall i | 0 <= i < |waiting'|
      ensures waiting'[i].arrival + FLUSH_DELAY == flushes'[|flushes'| - |waiting'| + i]
    {
      if i < |waiting| {
        assert flushes'[|flushes| - |waiting| + i] == flushes[|flushes| - |waiting| + i];
      }
    }
  }

  lemma FlushAhead(flushes: seq<int>, now: int)
    requires Ahead(flushes, now) && flushes != []
    ensures Ahead(flushes[1..], flushes[0])
  {
    var rest := flushes[1..];
    assert forall i :: 0 <= i < |rest| ==> rest[i] == flushes[i + 1];
  }

  lemma StepKeepsInv(w: World, e: Event, w': World)
    requires Inv(w) && Step(w, e, w')
    ensures Inv(w')
  {
    match e
    case Arrival(packet, now) =>
      var p := DeferredPack(packet, now);
      ArrivalAhead(w.state.flushes, w.now, now);
      ArrivalMatched(w.state.waiting, w.state.flushes, p);
      PacketsOfAppend(w.state.waiting, p);
      assert w'.state.forwarded + PacketsOf(w'.state.waiting) == w.arrived + [packet];
    case FlushFires =>
      FlushAhead(w.state.flushes, w.now);
  }

  /**
   * In every moment of every run: the packets forwarded are, each once and in order, the first of those that arrived,
   * and the others wait; a packet waits at most 100 ms; while one waits, a flush is scheduled within its time; and
   * nothing waits after a flush.
   */
  lemma {:induction false} ForwardedOnceInOrder(worlds: seq<World>, events: seq<Event>, k: nat)
    requires IsRun(worlds, events) && k < |worlds|
    ensures Inv(worlds[k])
    ensures worlds[k].arrived == worlds[k].state.forwarded + PacketsOf(worlds[k].state.waiting)
    ensures k > 0 && events[k - 1].FlushFires? ==> worlds[k].state.waiting == []
    ensures forall p :: p in worlds[k].state.waiting ==>
      p.arrival <= worlds[k].now <= p.arrival + 100_000_000 && p.arrival + 100_000_000 in worlds[k].state.flushes
  {
    if k > 0 {
      ForwardedOnceInOrder(worlds, events, k - 1);
      StepKeepsInv(worlds[k - 1], events[k - 1], worlds[k]);
    }
    WaitsInTime(worlds[k]);
  }

  lemma WaitsInTime(w: World)
    requires Inv(w)
    ensures forall p :: p in w.state.waiting ==>
      p.arrival <= w.now <= p.arrival + FLUSH_DELAY && p.arrival + FLUSH_DELAY in w.state.flushes
  {
    var waiting, flushes := w.state.waiting, w.state.flushes;
    forall p | p in waiting
      ensures p.arrival <= w.now <= p.arrival + FLUSH_DELAY && p.arrival + FLUSH_DELAY in flushes
    {
      var i :| 0 <= i < |waiting| && waiting[i] == p;
      assert flushes[|flushes| - |waiting| + i] == p.arrival + FLUSH_DELAY;
    }
  }
}
