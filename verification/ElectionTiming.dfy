/**
 * The timers of all nodes together, as a discrete-event simulation in microseconds: at each step some earliest
 * pending timer fires. Every random draw is left open, those of the election included.
 */
module ElectionTiming {
  import opened Options
  import opened Election
  import opened RoundTimers

  /** A node has started rounds 0 .. rounds - 1, the latest of them at last. */
  datatype Node = Node(
    rounds: nat, valid: bool, last: int, timers: Timers, headIn: set<nat>, sentIn: set<nat>)

  datatype World = World(now: int, nodes: seq<Node>)

  /** A timer of a node fires. An update starts a round, with the draw of the election and those of the delays. */
  datatype Event =
    | FireUpdate(node: nat, prob: real, draw: int, nextDraw: int)
    | FireBroadcast(node: nat)
    | FireRespond(node: nat)

  function KindOf(e: Event): Kind {
    match e
    case FireUpdate(_, _, _, _) => UPDATE
    case FireBroadcast(_) => BROADCAST
    case FireRespond(_) => RESPOND
  }

  /** Whether a node becomes head of its next round, and whether it stays eligible. */
  function Elected(n: Node, prob: real): (bool, bool) {
    Elect(Thresholds(), n.rounds, n.valid, prob)
  }

  /** The event's timer is one of the earliest, the next of its own node, and the draws are in their ranges. */
  predicate Enabled(w: World, e: Event) {
    && e.node < |w.nodes| && FiresNext(w.nodes[e.node].timers, KindOf(e))
    && (forall i :: 0 <= i < |w.nodes| ==> NotBefore(w.nodes[i].timers, Instant(w, e)))
    && (e.FireUpdate? ==>
          var n := w.nodes[e.node];
          var head := Elected(n, e.prob).0;
          0.0 <= e.prob < 1.0 && DrawsOk(head, e.draw, e.nextDraw) && MaySet(n.timers, head))
  }

  /** When the event's timer fires. */
  function Instant(w: World, e: Event): int
    requires e.node < |w.nodes| && FiresNext(w.nodes[e.node].timers, KindOf(e))
  {
    DueAt(w.nodes[e.node].timers, KindOf(e)).value
  }

  function Fired(n: Node, e: Event, now: int, interval: nat): Node {
    match e
    case FireUpdate(_, prob, draw, nextDraw) =>
      var (head, valid) := Elected(n, prob);
      Node(n.rounds + 1, valid, now, Restarted(n.timers, now, interval, head, draw, nextDraw),
           if head then n.headIn + {n.rounds} else n.headIn, n.sentIn)
    case FireBroadcast(_) =>
      n.(timers := Done(n.timers, BROADCAST), sentIn := if n.rounds > 0 then n.sentIn + {n.rounds - 1} else n.sentIn)
    case FireRespond(_) => n.(timers := Done(n.timers, RESPOND))
  }

  function Next(w: World, e: Event, interval: nat): World
    requires Enabled(w, e)
  {
    World(Instant(w, e), w.nodes[e.node := Fired(w.nodes[e.node], e, Instant(w, e), interval)])
  }

  /** A node that waits for its first round; what valid holds then is left open. */
  function Waiting(start: int, update: int, valid: bool): Node {
    Node(0, valid, start, Timers(Some(update), None, None), {}, {})
  }

  /** All nodes start at one instant, with draws of 10 to 1000 microseconds until their first round. */
  predicate AllWait(w: World, start: int) {
    && w.now == start
    && forall i :: 0 <= i < |w.nodes| ==>
         && w.nodes[i].timers.update.Some?
         && start + 10 <= w.nodes[i].timers.update.value <= start + 1000
         && w.nodes[i] == Waiting(start, w.nodes[i].timers.update.value, w.nodes[i].valid)
  }

  predicate IsRun(worlds: seq<World>, events: seq<Event>, start: int, interval: nat) {
    && |worlds| == |events| + 1 && AllWait(worlds[0], start)
    && forall i :: 0 <= i < |events| ==>
         Enabled(worlds[i], events[i]) && worlds[i + 1] == Next(worlds[i], events[i], interval)
  }

  // ---- The invariant ----

  /** When round r of a node may start: the skew between nodes grows by at most a millisecond per round. */
  predicate InWindow(t: int, r: nat, start: int, interval: nat) {
    start + r * interval + 10 <= t <= start + r * interval + 1000 * (r + 1)
  }

  /** The next round starts on time. Rounds that end before a pending join are never followed by a third one. */
  predicate TimersOk(n: Node, interval: nat) {
    && n.timers.update.Some?
    && (n.timers.respond.Some? ==> n.rounds > 0)
    && (n.rounds > 0 ==> n.last + interval <= n.timers.update.value <= n.last + interval + 1000)
    && (n.timers.respond.Some? && (n.rounds == 1 || interval >= 101_000) ==>
          n.last + 100_000 <= n.timers.respond.value <= n.last + 101_000)
    && (interval < 49_000 ==> StopsEarly(n, interval))
  }

  /** In short rounds a node that is head once and not head once has started its last round. */
  predicate StopsEarly(n: Node, interval: nat) {
    && n.rounds <= 2
    && (n.rounds == 1 ==> n.timers.respond.Some? || !n.valid)
    && (n.rounds == 2 ==>
          !n.valid && n.timers.respond.Some? && n.last - interval - 1000 + 100_000 <= n.timers.respond.value)
  }

  /** A pending broadcast belongs to the node's latest round, and comes before its next one. */
  predicate BroadcastOk(n: Node) {
    n.timers.broadcast.Some? ==> n.rounds > 0 && n.last + 10_000 <= n.timers.broadcast.value <= n.last + 50_000
  }

  /** A node was head only in rounds it started, and has advertised unless the timer of its latest is pending. */
  predicate AdvertsOk(n: Node) {
    && (n.timers.broadcast.Some? && n.rounds > 0 ==> n.rounds - 1 in n.headIn)
    && (forall r :: r in n.headIn ==>
          r < n.rounds && (r in n.sentIn || (r == n.rounds - 1 && n.timers.broadcast.Some?)))
  }

  predicate NodeOk(n: Node, now: int, start: int, interval: nat) {
    && NotBefore(n.timers, now) && TimersOk(n, interval)
    && (interval >= 50_000 ==> BroadcastOk(n) && AdvertsOk(n))
    && InWindow(n.timers.update.value, n.rounds, start, interval)
    && (n.rounds > 0 ==> InWindow(n.last, n.rounds - 1, start, interval))
  }

  predicate Inv(w: World, start: int, interval: nat) {
    forall i :: 0 <= i < |w.nodes| ==> NodeOk(w.nodes[i], w.now, start, interval)
  }

  /** A fired timer leaves its own node in order. */
  lemma FiredOk(n: Node, e: Event, w: World, start: int, interval: nat)
    requires Enabled(w, e) && n == w.nodes[e.node]
    requires NodeOk(n, w.now, start, interval)
    ensures NodeOk(Fired(n, e, Instant(w, e), interval), Instant(w, e), start, interval)
  {
    if e.FireUpdate? {
      NextWindow(n.timers.update.value, n.rounds, e.nextDraw, start, interval);
    }
  }

  lemma NextWindow(t: int, r: nat, draw: int, start: int, interval: nat)
    requires InWindow(t, r, start, interval) && 0 <= draw <= 1000
    ensures InWindow(t + interval + draw, r + 1, start, interval)
  {
    assert (r + 1) * interval == r * interval + interval;
  }

  lemma {:induction false} RunsAreInOrder(worlds: seq<World>, events: seq<Event>, start: int, interval: nat, k: nat)
    requires IsRun(worlds, events, start, interval) && k < |worlds|
    ensures Inv(worlds[k], start, interval)
  {
    if k > 0 {
      RunsAreInOrder(worlds, events, start, interval, k - 1);
      var w, e := worlds[k - 1], events[k - 1];
      FiredOk(w.nodes[e.node], e, w, start, interval);
    }
  }

  // ---- Advertisements before joins ----

  /** Every node has started round r, and those that are head in it have advertised. */
  predicate AllAdvertised(w: World, r: nat) {
    forall i :: 0 <= i < |w.nodes| ==>
      && r < w.nodes[i].rounds
      && (r in w.nodes[i].headIn ==> r in w.nodes[i].sentIn)
  }

  /** Within the first fifty rounds, round r starts everywhere less than 50 ms after it started anywhere. */
  lemma WindowsApart(t: int, q: nat, u: int, r: nat, start: int, interval: nat)
    requires interval >= 1000 && q <= r < 50
    requires InWindow(t, q, start, interval) && InWindow(u, r, start, interval)
    ensures t < u + 50_000
  {
    assert (r - q) * interval >= (r - q) * 1000;
    assert r * interval == q * interval + (r - q) * interval;
  }

  /** If node i joins next, every node has started its latest round and every head of that has advertised. */
  ghost predicate JoinsAfterAdverts(w: World, e: Event, rounds: nat) {
    e.FireRespond? && e.node < |w.nodes| ==>
      var n := w.nodes[e.node];
      0 < n.rounds && (n.rounds <= rounds ==> AllAdvertised(w, n.rounds - 1))
  }

  /** That holds in every run, whenever a node joins in one of its first rounds. */
  ghost predicate AdvertsPrecede(interval: nat, rounds: nat) {
    forall worlds: seq<World>, events: seq<Event>, start, k: nat ::
      IsRun(worlds, events, start, interval) && k < |events| ==> JoinsAfterAdverts(worlds[k], events[k], rounds)
  }

  lemma AdvertsPrecedeJoins(
    worlds: seq<World>, events: seq<Event>, start: int, interval: nat, k: nat, rounds: nat)
    requires interval < 49_000 || rounds <= 1 || (interval >= 101_000 && rounds <= 50)
    requires IsRun(worlds, events, start, interval) && k < |events|
    ensures JoinsAfterAdverts(worlds[k], events[k], rounds)
  {
    RunsAreInOrder(worlds, events, start, interval, k);
    var w, e := worlds[k], events[k];
    var n := w.nodes[e.node];
    if e.FireRespond? && n.rounds <= rounds {
      RespondsInTime(n, w.now, start, interval);
      forall i | 0 <= i < |w.nodes|
        ensures n.rounds - 1 < w.nodes[i].rounds
        ensures n.rounds - 1 in w.nodes[i].headIn ==> n.rounds - 1 in w.nodes[i].sentIn
      {
        RespondTooLate(n, w.nodes[i], Instant(w, e), w.now, start, interval);
      }
    }
  }

  /** A respond timer only fires before the next round if rounds last that long. */
  lemma RespondsInTime(n: Node, now: int, start: int, interval: nat)
    requires NodeOk(n, now, start, interval) && FiresNext(n.timers, RESPOND)
    ensures interval >= 49_000 && n.rounds > 0
    ensures n.rounds == 1 ==> interval >= 99_000
    ensures n.rounds == 1 || interval >= 101_000 ==> n.last + 100_000 <= n.timers.respond.value
  {
  }

  /** m's timers are not due before the respond timer of n, and so m's round and broadcast are over. */
  lemma RespondTooLate(n: Node, m: Node, due: int, now: int, start: int, interval: nat)
    requires interval >= 50_000 && 0 < n.rounds <= 50
    requires NodeOk(n, now, start, interval) && NodeOk(m, now, start, interval)
    requires NotBefore(m.timers, due) && n.last + 100_000 <= due
    ensures n.rounds <= m.rounds && (n.rounds - 1 in m.headIn ==> n.rounds - 1 in m.sentIn)
  {
    var r := n.rounds - 1;
    if m.rounds <= r {
      WindowsApart(m.timers.update.value, m.rounds, n.last, r, start, interval);
      assert false;
    } else if m.rounds == n.rounds {
      WindowsApart(m.last, r, n.last, r, start, interval);
    }
  }

  /**
   * Advertisements precede joins, for any number of nodes and any draws, in the first round, and in the first fifty if
   * a round is at least as long as the longest delay of a join; and no further, unless rounds are so short that no
   * node ever joins.
   */
  lemma AdvertsPrecedeIff(interval: nat, rounds: nat)
    ensures AdvertsPrecede(interval, rounds) <==>
      interval < 49_000 || rounds <= 1 || (interval >= 101_000 && rounds <= 50)
  {
    if interval < 49_000 || rounds <= 1 || (interval >= 101_000 && rounds <= 50) {
      forall worlds: seq<World>, events: seq<Event>, start, k: nat
        | IsRun(worlds, events, start, interval) && k < |events|
        ensures JoinsAfterAdverts(worlds[k], events[k], rounds)
      {
        AdvertsPrecedeJoins(worlds, events, start, interval, k, rounds);
      }
    } else if interval < 101_000 {
      var worlds, events := ShortRounds(interval);
    } else {
      var worlds, events := FiftyIsSharp(interval);
    }
  }

  // ---- Both bounds are exact ----

  lemma Extend(worlds: seq<World>, events: seq<Event>, e: Event, start: int, interval: nat)
      returns (worlds': seq<World>, events': seq<Event>)
    requires IsRun(worlds, events, start, interval) && Enabled(worlds[|events|], e)
    ensures IsRun(worlds', events', start, interval)
    ensures |events'| == |events| + 1 && events' == events + [e]
    ensures worlds' == worlds + [Next(worlds[|events|], e, interval)]
  {
    worlds', events' := worlds + [Next(worlds[|events|], e, interval)], events + [e];
    forall i | 0 <= i < |events'|
      ensures Enabled(worlds'[i], events'[i]) && worlds'[i + 1] == Next(worlds'[i], events'[i], interval)
    {
      if i < |events| {
        assert worlds'[i] == worlds[i] && worlds'[i + 1] == worlds[i + 1] && events'[i] == events[i];
      }
    }
  }

  /** In shorter rounds, a node that did not join in its first round may do so as a head of its second one. */
  lemma ShortRounds(interval: nat) returns (worlds: seq<World>, events: seq<Event>)
    requires 49_000 <= interval < 101_000
    ensures IsRun(worlds, events, 0, interval) && events != []
    ensures !JoinsAfterAdverts(worlds[|events| - 1], events[|events| - 1], 2)
  {
    var n := Waiting(0, 10, false);
    worlds, events := [World(0, [n])], [];
    MemberThenHead(false);
    var draw := if interval < 51_000 then 0 else 1000;
    var later := if interval < 100_000 then 1000 else 0;
    worlds, events := Extend(worlds, events, FireUpdate(0, 0.5, draw, later), 0, interval);
    worlds, events := Extend(worlds, events, FireUpdate(0, 0.0, 50_000, 1000), 0, interval);
    worlds, events := Extend(worlds, events, FireRespond(0), 0, interval);
  }

  lemma MemberThenHead(valid: bool)
    ensures Elect(Thresholds(), 0, valid, 0.5) == (false, true) && Elect(Thresholds(), 1, true, 0.0) == (true, false)
  {
    Elects(0, valid, 0.5);
    Elects(1, true, 0.0);
    HalfReached(0);
    HalfReached(1);
  }

  // A run of two nodes. The slow one always draws the longest delays and is head in rounds 0, 10, 20 and so on; the
  // fast one draws the shortest to join and is head in rounds 9, 19, 29 and so on.

  function Start(slow: bool, r: nat, interval: nat): int {
    if slow then 1000 + r * (interval + 1000) else 10 + r * interval
  }

  predicate IsHead(slow: bool, r: nat) {
    r % ROUNDS_PER_CYCLE == if slow then 0 else 9
  }

  predicate IsEligible(slow: bool, r: nat) {
    !slow && r % ROUNDS_PER_CYCLE != 9
  }

  function Draw(slow: bool): real {
    if slow then 0.0 else 0.5
  }

  /** When the node advertises or joins in round r. */
  function Acts(slow: bool, r: nat, interval: nat): int {
    Start(slow, r, interval) + (if IsHead(slow, r) then 50_000 else 100_000)
  }

  lemma ElectedAsPlanned(slow: bool, r: nat, valid: bool)
    requires r > 0 ==> valid == IsEligible(slow, r - 1)
    ensures Elect(Thresholds(), r, valid, Draw(slow)) == (IsHead(slow, r), IsEligible(slow, r))
  {
    Elects(r, valid, Draw(slow));
    HalfReached(r % ROUNDS_PER_CYCLE);
  }

  lemma HalfReached(j: nat)
    requires j < ROUNDS_PER_CYCLE
    ensures 0.0 < Threshold(ROUNDS_PER_CYCLE, j) && (0.5 < Threshold(ROUNDS_PER_CYCLE, j) <==> j == 9)
  {
    ThresholdValue(ROUNDS_PER_CYCLE, j);
    Half((ROUNDS_PER_CYCLE - j) as real);
  }

  lemma Half(x: real)
    requires x >= 1.0
    ensures 0.0 < 1.0 / x && (x >= 2.0 ==> 1.0 / x <= 0.5)
  {
  }

  /** The node waits for round r. */
  predicate Waits(n: Node, slow: bool, r: nat, interval: nat) {
    && n.rounds == r && (r > 0 ==> n.valid == IsEligible(slow, r - 1))
    && n.timers == Timers(Some(Start(slow, r, interval)), None, None)
    && forall x :: x in n.sentIn ==> x < r
  }

  /** The node has started round r, and has yet to advertise or join. */
  predicate Started(n: Node, slow: bool, r: nat, interval: nat) {
    var acts := Some(Acts(slow, r, interval));
    && n.rounds == r + 1 && n.valid == IsEligible(slow, r)
    && n.timers == Timers(Some(Start(slow, r + 1, interval)), if IsHead(slow, r) then acts else None,
                          if IsHead(slow, r) then None else acts)
    && (IsHead(slow, r) ==> r in n.headIn)
    && forall x :: x in n.sentIn ==> x < r
  }

  /** How far the two nodes are apart, and from one round to the next. */
  lemma Apart(r: nat, interval: nat)
    ensures Start(true, r, interval) == Start(false, r, interval) + 990 + r * 1000
    ensures Start(true, r + 1, interval) == Start(true, r, interval) + interval + 1000
    ensures Start(false, r + 1, interval) == Start(false, r, interval) + interval
  {
    assert r * (interval + 1000) == r * interval + r * 1000;
    assert (r + 1) * interval == r * interval + interval;
    assert (r + 1) * (interval + 1000) == r * (interval + 1000) + interval + 1000;
  }

  function Index(slow: bool): nat {
    if slow then 0 else 1
  }

  /** The world after the events, of the two nodes. */
  predicate IsTwo(worlds: seq<World>, events: seq<Event>, interval: nat) {
    IsRun(worlds, events, 0, interval) && |worlds[|events|].nodes| == 2
  }

  function NodeNow(worlds: seq<World>, events: seq<Event>, slow: bool, interval: nat): Node
    requires IsTwo(worlds, events, interval)
  {
    worlds[|events|].nodes[Index(slow)]
  }

  /** A node that waits starts its round, if the other one has nothing due before. */
  lemma StartRound(worlds: seq<World>, events: seq<Event>, slow: bool, r: nat, interval: nat)
      returns (worlds': seq<World>, events': seq<Event>)
    requires IsTwo(worlds, events, interval) && Waits(NodeNow(worlds, events, slow, interval), slow, r, interval)
    requires NotBefore(NodeNow(worlds, events, !slow, interval).timers, Start(slow, r, interval))
    ensures IsTwo(worlds', events', interval) && Started(NodeNow(worlds', events', slow, interval), slow, r, interval)
    ensures NodeNow(worlds', events', !slow, interval) == NodeNow(worlds, events, !slow, interval)
  {
    Apart(r, interval);
    ElectedAsPlanned(slow, r, NodeNow(worlds, events, slow, interval).valid);
    var e := FireUpdate(Index(slow), Draw(slow), if IsHead(slow, r) then 50_000 else 0, if slow then 1000 else 0);
    worlds', events' := Extend(worlds, events, e, 0, interval);
  }

  /** A node advertises or joins, if the other one has nothing due before. */
  lemma Act(worlds: seq<World>, events: seq<Event>, slow: bool, r: nat, interval: nat)
      returns (worlds': seq<World>, events': seq<Event>)
    requires interval >= 101_000 && IsTwo(worlds, events, interval)
    requires Started(NodeNow(worlds, events, slow, interval), slow, r, interval)
    requires NotBefore(NodeNow(worlds, events, !slow, interval).timers, Acts(slow, r, interval))
    ensures IsTwo(worlds', events', interval) && Waits(NodeNow(worlds', events', slow, interval), slow, r + 1, interval)
    ensures NodeNow(worlds', events', !slow, interval) == NodeNow(worlds, events, !slow, interval)
  {
    Apart(r, interval);
    var e := if IsHead(slow, r) then FireBroadcast(Index(slow)) else FireRespond(Index(slow));
    worlds', events' := Extend(worlds, events, e, 0, interval);
  }

  predicate BothStarted(worlds: seq<World>, events: seq<Event>, r: nat, interval: nat) {
    && IsTwo(worlds, events, interval)
    && Started(NodeNow(worlds, events, true, interval), true, r, interval)
    && Started(NodeNow(worlds, events, false, interval), false, r, interval)
  }

  /** Both nodes act in the order of their timers, and both start the next round, the fast one first. */
  lemma NextRound(worlds: seq<World>, events: seq<Event>, r: nat, interval: nat)
      returns (worlds': seq<World>, events': seq<Event>)
    requires interval >= 101_000 && r < 50 && BothStarted(worlds, events, r, interval)
    ensures BothStarted(worlds', events', r + 1, interval)
  {
    Apart(r, interval);
    if Acts(true, r, interval) <= Acts(false, r, interval) {
      worlds', events' := Act(worlds, events, true, r, interval);
      worlds', events' := Act(worlds', events', false, r, interval);
      worlds', events' := StartRound(worlds', events', false, r + 1, interval);
    } else {
      worlds', events' := FastActsFirst(worlds, events, r, interval);
    }
    Apart(r + 1, interval);
    worlds', events' := StartRound(worlds', events', true, r + 1, interval);
  }

  lemma FastActsFirst(worlds: seq<World>, events: seq<Event>, r: nat, interval: nat)
      returns (worlds': seq<World>, events': seq<Event>)
    requires interval >= 101_000 && r < 50 && BothStarted(worlds, events, r, interval)
    requires Acts(false, r, interval) <= Acts(true, r, interval)
    ensures IsTwo(worlds', events', interval)
    ensures Waits(NodeNow(worlds', events', true, interval), true, r + 1, interval)
    ensures Started(NodeNow(worlds', events', false, interval), false, r + 1, interval)
  {
    Apart(r, interval);
    worlds', events' := Act(worlds, events, false, r, interval);
    if Acts(true, r, interval) <= Start(false, r + 1, interval) {
      worlds', events' := Act(worlds', events', true, r, interval);
      worlds', events' := StartRound(worlds', events', false, r + 1, interval);
    } else {
      worlds', events' := StartRound(worlds', events', false, r + 1, interval);
      Apart(r + 1, interval);
      worlds', events' := Act(worlds', events', true, r, interval);
    }
  }

  lemma {:induction false} SlowAndFast(r: nat, interval: nat) returns (worlds: seq<World>, events: seq<Event>)
    requires interval >= 101_000 && r <= 50
    ensures BothStarted(worlds, events, r, interval)
  {
    if r == 0 {
      worlds, events := [World(0, [Waiting(0, 1000, false), Waiting(0, 10, false)])], [];
      worlds, events := StartRound(worlds, events, false, 0, interval);
      worlds, events := StartRound(worlds, events, true, 0, interval);
    } else {
      worlds, events := SlowAndFast(r - 1, interval);
      worlds, events := NextRound(worlds, events, r - 1, interval);
    }
  }

  /** In the fifty-first round a node can join before a head has advertised, however long a round is. */
  lemma FiftyIsSharp(interval: nat) returns (worlds: seq<World>, events: seq<Event>)
    requires interval >= 101_000
    ensures IsRun(worlds, events, 0, interval) && events != []
    ensures !JoinsAfterAdverts(worlds[|events| - 1], events[|events| - 1], 51)
  {
    worlds, events := SlowAndFast(50, interval);
    Apart(50, interval);
    ghost var slow := NodeNow(worlds, events, true, interval);
    assert 50 in slow.headIn && 50 !in slow.sentIn;
    worlds, events := Extend(worlds, events, FireRespond(1), 0, interval);
  }
}
