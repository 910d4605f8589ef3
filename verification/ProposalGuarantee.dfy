/**
 * What the Proposal policy guarantees about deadlines over whole runs of a node: arrivals with any destinations and
 * deadlines, and calls at any times, each made as a cluster head with some members or as no head.
 */
module ProposalGuarantee {
  import opened Options
  import opened Sequences
  import opened PacketQueues
  import opened Packets
  import opened TransmitPolicies

  /** A call of the policy, with the state of the node that it reads. */
  datatype Call = Call(now: int, head: bool, members: nat)

  datatype Event = Arrive(entry: QueueEntry) | Decides(call: Call)

  /**
   * The queue, the number of entries in front of it that were already there when the last call returned, that
   * call, and every sink-bound entry that a call dropped after surviving an earlier one.
   */
  datatype State = State(queue: seq<QueueEntry>, survivors: nat, last: Option<Call>, lateDrops: seq<QueueEntry>) {
    predicate Valid() {
      survivors <= |queue| && (last.None? ==> survivors == 0)
    }
  }

  const EMPTY := State([], 0, None, [])

  function CallOutcome(q: seq<QueueEntry>, c: Call, lambda: real, sink: Address): Outcome
    requires lambda > 0.0
  {
    ProposalOutcome(q, c.now, lambda, c.head, c.members, sink)
  }

  function Step(s: State, e: Event, lambda: real, sink: Address): (t: State)
    requires s.Valid() && lambda > 0.0
    ensures t.Valid()
  {
    match e
    case Arrive(entry) => s.(queue := s.queue + [entry])
    case Decides(c) =>
      var o := CallOutcome(s.queue, c, lambda, sink);
      var late := BoundFor(Late(s.queue[..s.survivors], c.now), sink);
      State(o.queue, |o.queue|, Some(c), s.lateDrops + late)
  }

  function Run(events: seq<Event>, lambda: real, sink: Address): (s: State)
    requires lambda > 0.0
    ensures s.Valid()
  {
    if events == [] then EMPTY
    else Step(Run(events[..|events| - 1], lambda, sink), events[|events| - 1], lambda, sink)
  }

  /** How long the next call may wait after a call made as a head with so many members, or as no head. */
  type Rule = (bool, nat) -> int

  /** Every call comes no later than the rule allows after the one before it. */
  ghost predicate Spaced(events: seq<Event>, rule: Rule, lambda: real, sink: Address)
    requires lambda > 0.0
  {
    events == [] ||
    var before, e := events[..|events| - 1], events[|events| - 1];
    && Spaced(before, rule, lambda, sink)
    && (e.Decides? ==> Follows(Run(before, lambda, sink).last, e.call, rule))
  }

  predicate Follows(last: Option<Call>, c: Call, rule: Rule) {
    last.Some? ==> last.value.now <= c.now <= last.value.now + rule(last.value.head, last.value.members)
  }

  /** The longest time after a call for which the guarantee holds. */
  function LongestGap(lambda: real, head: bool, members: nat): int
    requires lambda > 0.0
  {
    if !head then Seconds(1.0 / lambda) + Seconds(0.064 + 1.0 / lambda)
    else if members == 0 then Seconds(1.0 / lambda)
    else 0
  }

  /** When the entries that a call leaves behind may fall due. */
  function SafeUntil(c: Call, lambda: real): int
    requires lambda > 0.0
  {
    c.now + LongestGap(lambda, c.head, c.members)
  }

  /** The entries for the sink that a call leaves behind are not due before bound. */
  ghost predicate SinkBoundSafe(q: seq<QueueEntry>, sink: Address, bound: int) {
    forall e :: e in q && e.dst == sink ==> e.deadline >= bound
  }

  lemma SecondsMonotone(x: real, y: real)
    requires x <= y
    ensures Seconds(x) <= Seconds(y)
  {
  }

  lemma QuotientMonotone(n: nat, lambda: real)
    requires n >= 1 && lambda > 0.0
    ensures 1.0 / lambda <= n as real / lambda
  {
  }

  /** A call leaves no sink-bound entry that falls due before the longest gap has passed. */
  lemma CallLeavesSafe(q: seq<QueueEntry>, c: Call, lambda: real, sink: Address)
    requires lambda > 0.0
    ensures SinkBoundSafe(CallOutcome(q, c, lambda, sink).queue, sink, SafeUntil(c, lambda))
  {
    var live := Live(q, c.now);
    var o := CallOutcome(q, c, lambda, sink);
    forall e | e in o.queue && e.dst == sink ensures e.deadline >= SafeUntil(c, lambda) {
      FilterAll(q, (e: QueueEntry) => e.deadline >= c.now);
      if o.sends {
        FilterAll(live, (e: QueueEntry) => !(e.dst == sink));
        assert false;
      } else if !c.head || c.members == 0 {
        var bound := ProposalBound(|q|, c.now, lambda, c.head);
        FilterAll(live, (e: QueueEntry) => e.deadline < bound);
        assert e.deadline >= bound;
        QuotientMonotone(|q|, lambda);
        SecondsMonotone(1.0 / lambda, |q| as real / lambda);
      }
    }
  }

  lemma SafeEntriesStay(q: seq<QueueEntry>, now: int, sink: Address)
    requires SinkBoundSafe(q, sink, now)
    ensures BoundFor(Late(q, now), sink) == []
  {
    FilterAll(q, (e: QueueEntry) => !(e.deadline >= now));
    FilterNone(Late(q, now), (e: QueueEntry) => e.dst == sink);
  }

  /** The rule allows no more than the longest gap. */
  ghost predicate WithinGaps(rule: Rule, lambda: real)
    requires lambda > 0.0
  {
    forall head, members :: rule(head, members) <= LongestGap(lambda, head, members)
  }

  lemma {:induction false} RunsAreSafe(events: seq<Event>, rule: Rule, lambda: real, sink: Address)
    requires lambda > 0.0 && WithinGaps(rule, lambda) && Spaced(events, rule, lambda, sink)
    ensures var s := Run(events, lambda, sink);
      && s.lateDrops == []
      && (s.last.Some? ==> SinkBoundSafe(s.queue[..s.survivors], sink, SafeUntil(s.last.value, lambda)))
  {
    if events != [] {
      var before, e := events[..|events| - 1], events[|events| - 1];
      RunsAreSafe(before, rule, lambda, sink);
      var s, t := Run(before, lambda, sink), Run(events, lambda, sink);
      match e
      case Arrive(entry) =>
        assert t.queue[..t.survivors] == s.queue[..s.survivors];
      case Decides(c) =>
        CallLeavesSafe(s.queue, c, lambda, sink);
        SafeEntriesStay(s.queue[..s.survivors], c.now, sink);
        assert t.queue[..t.survivors] == t.queue;
    }
  }

  /** Runs whose calls are spaced by the rule never drop a sink-bound entry late. */
  ghost predicate NeverDropsLate(rule: Rule, lambda: real, sink: Address)
    requires lambda > 0.0
  {
    forall events :: Spaced(events, rule, lambda, sink) ==> Run(events, lambda, sink).lateDrops == []
  }

  /**
   * Proposal never drops a sink-bound entry that survived an earlier call, over every run with any mix of
   * destinations and of calls as a head with any members and as no head, if and only if no call waits longer than
   * LongestGap after the one before it. Away from heads that covers 0.064 + 1/lambda seconds, which is what the
   * policy's bound is written for; after a call as a head with members it leaves no time at all.
   */
  lemma ProposalNeverDropsLate(rule: Rule, lambda: real, sink: Address)
    requires lambda > 0.0
    ensures NeverDropsLate(rule, lambda, sink) <==> WithinGaps(rule, lambda)
    ensures Seconds(0.064 + 1.0 / lambda) <= LongestGap(lambda, false, 0)
  {
    GapsArePositive(lambda);
    if WithinGaps(rule, lambda) {
      forall events | Spaced(events, rule, lambda, sink)
        ensures Run(events, lambda, sink).lateDrops == []
      {
        RunsAreSafe(events, rule, lambda, sink);
      }
    } else {
      var head, members: nat :| rule(head, members) > LongestGap(lambda, head, members);
      GapsArePositive(lambda);
      var events := LateDrop(rule, head, members, lambda, sink);
    }
  }

  lemma GapsArePositive(lambda: real)
    requires lambda > 0.0
    ensures forall head, members :: LongestGap(lambda, head, members) >= 0
    ensures Seconds(1.0 / lambda) >= 0
  {
    assert 1.0 / lambda >= 0.0;
    SecondsMonotone(0.0, 1.0 / lambda);
    SecondsMonotone(0.0, 0.064 + 1.0 / lambda);
  }

  function RecordDue(dst: Address, deadline: int): QueueEntry {
    QueueEntry(seq(RECORD_SIZE, _ => 0), dst, deadline)
  }

  /** With a longer gap, one entry that falls due exactly at its end is dropped by the second call. */
  lemma LateDrop(rule: Rule, head: bool, members: nat, lambda: real, sink: Address) returns (events: seq<Event>)
    requires lambda > 0.0 && rule(head, members) > LongestGap(lambda, head, members) >= 0
    ensures Spaced(events, rule, lambda, sink) && Run(events, lambda, sink).lateDrops != []
  {
    var e := RecordDue(sink, LongestGap(lambda, head, members));
    var c1, c2 := Call(0, head, members), Call(rule(head, members), head, members);
    var e1, e2 := [Arrive(e)], [Arrive(e), Decides(c1)];
    events := e2 + [Decides(c2)];
    assert events[..2] == e2 && e2[..1] == e1 && e1[..0] == [];
    assert Run(e1, lambda, sink) == State([e], 0, None, []) && Spaced(e1, rule, lambda, sink);
    FirstCallKeeps(e, c1, lambda, sink);
    assert Run(e2, lambda, sink) == State([e], 1, Some(c1), []) && Spaced(e2, rule, lambda, sink);
    OneEntry(e, c2.now, 0);
    FilterOne(e, (x: QueueEntry) => x.dst == sink);
    assert [e][..1] == [e];
    assert Run(events, lambda, sink).lateDrops == [e];
  }

  lemma FirstCallKeeps(e: QueueEntry, c: Call, lambda: real, sink: Address)
    requires lambda > 0.0 && c.now == 0
    requires e.dst == sink && e.deadline == LongestGap(lambda, c.head, c.members) >= 0
    ensures Step(State([e], 0, None, []), Decides(c), lambda, sink) == State([e], 1, Some(c), [])
  {
    var bound := ProposalBound(1, 0, lambda, c.head);
    assert (c.head && c.members > 0) || bound == LongestGap(lambda, c.head, c.members);
    OneEntry(e, 0, bound);
    assert [e][..0] == [];
    FilterNone(Late([], 0), (x: QueueEntry) => x.dst == sink);
  }

  lemma OneEntry(e: QueueEntry, now: int, bound: int)
    ensures Live([e], now) == if e.deadline >= now then [e] else []
    ensures Late([e], now) == if e.deadline >= now then [] else [e]
    ensures DueBefore([e], bound) == if e.deadline < bound then [e] else []
  {
    FilterOne(e, (x: QueueEntry) => x.deadline >= now);
    FilterOne(e, (x: QueueEntry) => !(x.deadline >= now));
    FilterOne(e, (x: QueueEntry) => x.deadline < bound);
  }

  /**
   * With members a cluster head keeps an entry that is due now and drops it at the next call, however soon that comes,
   * because it waits for one more entry than it has members.
   */
  lemma HeadMayDropLate(now: int, members: nat, lambda: real, sink: Address)
    requires lambda > 0.0 && now <= FLUSH_TIME && members >= 1
    ensures var q := [RecordDue(sink, now)];
      && ProposalOutcome(q, now, lambda, true, members, sink) == Outcome(false, q, [], [])
      && forall later :: later > now ==> ProposalOutcome(q, later, lambda, true, members, sink).dropped == q
  {
    var q, e := [RecordDue(sink, now)], RecordDue(sink, now);
    OneEntry(e, now, ProposalBound(1, now, lambda, true));
    assert |DueBefore(q, ProposalBound(1, now, lambda, true))| <= 1;
    forall later | later > now
      ensures ProposalOutcome(q, later, lambda, true, members, sink).dropped == q
    {
      OneEntry(e, later, 0);
    }
  }
}
