/**
 * The transmit policies of a node. Each is called with the node's own record in p and decides whether p goes out now.
 * Under the three policies that aggregate, p then takes along every queued record for the sink. Times are in
 * nanoseconds.
 */
module TransmitPolicies {
  import opened Sequences
  import opened Packets
  import opened PacketQueues
  import opened OptimalTransmission
  import opened Options
  import opened RoutingTables

  const NS_PER_SECOND := 1_000_000_000.0

  /** After this instant every policy transmits. */
  const FLUSH_TIME := 48_500_000_000

  function Seconds(x: real): int {
    (x * NS_PER_SECOND).Floor
  }

  // ---- What the policies compute ----

  /** What a call does to the queue: what stays, what is dropped for being late and what is merged into p. */
  datatype Outcome = Outcome(sends: bool, queue: seq<QueueEntry>, dropped: seq<QueueEntry>, sent: seq<QueueEntry>)

  /** The outcome of a call once its decision is known and late entries are gone. */
  function Decide(sends: bool, live: seq<QueueEntry>, dropped: seq<QueueEntry>, sink: Address): Outcome {
    if sends then Outcome(true, Others(live, sink), dropped, BoundFor(live, sink))
    else Outcome(false, live, dropped, [])
  }

  /** The time before which Proposal wants entries gone. size is the queue's size before late entries are dropped. */
  function ProposalBound(size: nat, now: int, lambda: real, head: bool): int
    requires lambda > 0.0
  {
    now + Seconds(size as real / lambda) + (if head then 0 else Seconds(0.064 + 1.0 / lambda))
  }

  function DueBefore(q: seq<QueueEntry>, bound: int): seq<QueueEntry> {
    Filter(q, (e: QueueEntry) => e.deadline < bound)
  }

  function ProposalOutcome(q: seq<QueueEntry>, now: int, lambda: real, head: bool, members: nat, sink: Address): Outcome
    requires lambda > 0.0
  {
    var live := Live(q, now);
    var due := |DueBefore(live, ProposalBound(|q|, now, lambda, head))|;
    Decide(due >= (if head then 1 + members else 1) || now > FLUSH_TIME, live, Late(q, now), sink)
  }

  function ControlLimitOutcome(q: seq<QueueEntry>, now: int, threshold: nat, sink: Address): Outcome {
    var live := Live(q, now);
    Decide(|live| >= threshold || now > FLUSH_TIME, live, Late(q, now), sink)
  }

  function OptTMOutcome(q: seq<QueueEntry>, now: int, lambda: real, step: nat, sink: Address): Outcome
    requires lambda > 0.0
  {
    Decide(TransmitsNow(Rewards(q, now, Seconds(1.0 / lambda), step)) || now > FLUSH_TIME, q, [], sink)
  }

  /** The policy in force at a call, with the part of the node's state that it reads. */
  datatype Policy =
    | ByProposal(head: bool, members: nat)
    | ByControlLimit(threshold: nat)
    | ByOptTM(step: nat)
    | BySelectiveForwarding
    | ByDefault

  function OutcomeOf(policy: Policy, q: seq<QueueEntry>, now: int, lambda: real, sink: Address): Outcome
    requires lambda > 0.0
  {
    match policy
    case ByProposal(head, members) => ProposalOutcome(q, now, lambda, head, members, sink)
    case ByControlLimit(threshold) => ControlLimitOutcome(q, now, threshold, sink)
    case ByOptTM(step) => OptTMOutcome(q, now, lambda, step, sink)
    case BySelectiveForwarding => Outcome(false, q, [], [])
    case ByDefault => Outcome(true, q, [], [])
  }

  // ---- When each policy sends, and what it does to the queue ----

  function DueWithin(from: int, until: int): QueueEntry -> bool {
    (e: QueueEntry) => from <= e.deadline < until
  }

  lemma DueCount(q: seq<QueueEntry>, now: int, bound: int)
    ensures |DueBefore(Live(q, now), bound)| == CountWhere(q, DueWithin(now, bound))
  {
    FilterTwice(q, (e: QueueEntry) => e.deadline >= now, (e: QueueEntry) => e.deadline < bound, DueWithin(now, bound));
    FilterCounts(q, DueWithin(now, bound));
  }

  /**
   * Proposal sends exactly after the flush time, or when at least one entry is due within the time in which the node
   * expects to send what is queued; a cluster head waits for one more than it has members.
   */
  lemma ProposalSendsIff(
    q: seq<QueueEntry>, now: int, lambda: real, head: bool, members: nat, sink: Address, queueTime: int, hopTime: int)
    requires lambda > 0.0 && queueTime == (|q| as real / lambda * 1_000_000_000.0).Floor
    requires hopTime == if head then 0 else ((0.064 + 1.0 / lambda) * 1_000_000_000.0).Floor
    ensures var o := ProposalOutcome(q, now, lambda, head, members, sink);
      var due := CountWhere(q, DueWithin(now, now + queueTime + hopTime));
      && (o.sends <==> now > 48_500_000_000 || due >= if head then 1 + members else 1)
      && o.dropped == Late(q, now) && MovesSinkBound(o, Live(q, now), sink)
  {
    BoundInSeconds(|q|, now, lambda, head, queueTime, hopTime);
    DueCount(q, now, now + queueTime + hopTime);
    DecidesByCount(q, now, lambda, head, members, sink, now + queueTime + hopTime);
  }

  lemma BoundInSeconds(size: nat, now: int, lambda: real, head: bool, queueTime: int, hopTime: int)
    requires lambda > 0.0 && queueTime == (size as real / lambda * 1_000_000_000.0).Floor
    requires hopTime == if head then 0 else ((0.064 + 1.0 / lambda) * 1_000_000_000.0).Floor
    ensures ProposalBound(size, now, lambda, head) == now + queueTime + hopTime
  {
  }

  lemma DecidesByCount(
    q: seq<QueueEntry>, now: int, lambda: real, head: bool, members: nat, sink: Address, bound: int)
    requires lambda > 0.0 && bound == ProposalBound(|q|, now, lambda, head)
    ensures var o := ProposalOutcome(q, now, lambda, head, members, sink);
      && (o.sends <==>
            now > 48_500_000_000 || |DueBefore(Live(q, now), bound)| >= if head then 1 + members else 1)
      && o.dropped == Late(q, now) && MovesSinkBound(o, Live(q, now), sink)
  {
  }

  /** A call that sends takes the sink-bound entries along and leaves the others; any other call leaves them all. */
  predicate MovesSinkBound(o: Outcome, live: seq<QueueEntry>, sink: Address) {
    && o.queue == (if o.sends then Filter(live, (e: QueueEntry) => !(e.dst == sink)) else live)
    && o.sent == (if o.sends then Filter(live, (e: QueueEntry) => e.dst == sink) else [])
  }

  /** ControlLimit sends exactly after the flush time, or when the unexpired entries reach the threshold. */
  lemma ControlLimitSendsIff(q: seq<QueueEntry>, now: int, threshold: nat, sink: Address)
    ensures var o := ControlLimitOutcome(q, now, threshold, sink);
      && (o.sends <==> now > 48_500_000_000 || CountWhere(q, (e: QueueEntry) => e.deadline >= now) >= threshold)
      && o.dropped == Late(q, now) && MovesSinkBound(o, Live(q, now), sink)
  {
    FilterCounts(q, (e: QueueEntry) => e.deadline >= now);
  }

  /** The reward of slot i, in closed form. */
  function SlotReward(q: seq<QueueEntry>, now: int, period: int, step: nat, i: nat): int {
    var m := Min(7, Max(0, i + step - 1));
    (SumOfGaps(q, now + i * period) + 30000 * m - 2000 * m * (m + 1)) % 0x1_0000_0000
  }

  /** None of the hundred slots has a greater reward than the present one. */
  predicate PresentIsBest(q: seq<QueueEntry>, now: int, period: int, step: nat) {
    forall i: nat :: i < 100 ==> SlotReward(q, now, period, step, i) <= SlotReward(q, now, period, step, 0)
  }

  lemma TransmitsIffBest(q: seq<QueueEntry>, now: int, period: int, step: nat)
    ensures TransmitsNow(Rewards(q, now, period, step)) <==> PresentIsBest(q, now, period, step)
  {
    var r := Rewards(q, now, period, step);
    forall i: nat | i < SLOTS ensures r[i] == SlotReward(q, now, period, step, i) {
      RewardClosedForm(q, now, period, step, i);
    }
    TransmitsNowIffGreatest(r);
  }

  /**
   * OptTM sends exactly after the flush time, or when none of the hundred slots, 1/lambda seconds apart, has a greater
   * reward than the present one. It drops nothing.
   */
  lemma OptTMSendsIff(q: seq<QueueEntry>, now: int, lambda: real, step: nat, sink: Address)
    requires lambda > 0.0
    ensures var o := OptTMOutcome(q, now, lambda, step, sink);
      && (o.sends <==>
            now > 48_500_000_000 || PresentIsBest(q, now, (1.0 / lambda * 1_000_000_000.0).Floor, step))
      && o.dropped == [] && MovesSinkBound(o, q, sink)
  {
    TransmitsIffBest(q, now, Seconds(1.0 / lambda), step);
  }

  /** From the ninth call on OptTM sends whatever is queued, as long as the first reward fits in 32 bits. */
  lemma NinthCallSends(q: seq<QueueEntry>, now: int, lambda: real, step: nat, sink: Address)
    requires lambda > 0.0 && step >= 8
    requires FullReward(q, now, Seconds(1.0 / lambda), step, 0) < UINT32
    ensures OptTMOutcome(q, now, lambda, step, sink)
      == Outcome(true, Others(q, sink), [], BoundFor(q, sink))
  {
    PeriodPositive(lambda);
    NinthCallTransmits(q, now, Seconds(1.0 / lambda), step);
  }

  lemma PeriodPositive(lambda: real)
    requires lambda > 0.0
    ensures Seconds(1.0 / lambda) >= 0
  {
    assert 1.0 / lambda > 0.0;
  }

  lemma LateComplementsLive(q: seq<QueueEntry>, now: int)
    ensures multiset(Live(q, now)) + multiset(Late(q, now)) == multiset(q)
    ensures |Live(q, now)| + |Late(q, now)| == |q|
  {
    FilterSplits(q, (e: QueueEntry) => e.deadline >= now, (e: QueueEntry) => !(e.deadline >= now));
  }

  /** Late entries are dropped and no others; the rest keep their order: each moves up by the late ones before it. */
  lemma DropIsStable(q: seq<QueueEntry>, now: int, i: nat)
    requires i < |q|
    ensures q[i].deadline >= now ==>
      var at := |Live(q[..i], now)|; at < |Live(q, now)| && Live(q, now)[at] == q[i]
    ensures q[i].deadline < now ==>
      var at := |Late(q[..i], now)|; at < |Late(q, now)| && Late(q, now)[at] == q[i]
    ensures |Live(q, now)| + |Late(q, now)| == |q|
  {
    LateComplementsLive(q, now);
    if q[i].deadline >= now {
      FilterAt(q, (e: QueueEntry) => e.deadline >= now, i);
    } else {
      FilterAt(q, (e: QueueEntry) => !(e.deadline >= now), i);
    }
  }

  /** The entries for dst leave oldest first, and the others keep their order. */
  lemma MergeIsStable(q: seq<QueueEntry>, dst: Address, i: nat)
    requires i < |q|
    ensures q[i].dst == dst ==>
      var at := |BoundFor(q[..i], dst)|; at < |BoundFor(q, dst)| && BoundFor(q, dst)[at] == q[i]
    ensures q[i].dst != dst ==>
      var at := |Others(q[..i], dst)|; at < |Others(q, dst)| && Others(q, dst)[at] == q[i]
    ensures |BoundFor(q, dst)| + |Others(q, dst)| == |q|
  {
    FilterSplits(q, (e: QueueEntry) => e.dst == dst, (e: QueueEntry) => !(e.dst == dst));
    if q[i].dst == dst {
      FilterAt(q, (e: QueueEntry) => e.dst == dst, i);
    } else {
      FilterAt(q, (e: QueueEntry) => !(e.dst == dst), i);
    }
  }

  /** A packet made of whole records still is when the sink-bound entries are merged into it. */
  lemma MergeKeepsWholeRecords(p: seq<Byte>, q: seq<QueueEntry>, dst: Address)
    requires |p| % RECORD_SIZE == 0 && HoldsRecords(q)
    ensures |p + Merged(BoundFor(q, dst))| % RECORD_SIZE == 0
  {
    var merged := Merged(BoundFor(q, dst));
    assert Residue(merged) == [] by {
      FilterAll(q, (e: QueueEntry) => e.dst == dst);
      MergedRecords(BoundFor(q, dst));
    }
    WholeSum(|p|, |merged|);
  }

  lemma WholeSum(a: nat, b: nat)
    requires a % RECORD_SIZE == 0 && b % RECORD_SIZE == 0
    ensures (a + b) % RECORD_SIZE == 0
  {
  }

  lemma AddThenCut(a: int, b: int)
    ensures (a % UINT32 + b) % UINT32 == (a + b) % UINT32
  {
  }

  /** The one decision counter that every node shares. */
  class StepCounter {
    var step: nat

    constructor ()
      ensures step == 0
    {
      step := 0;
    }
  }

  /** Which policy a build selects. */
  datatype Choice = DA_PROP | DA_OPT | DA_CL(threshold: nat) | DA_SF | NONE

  /** What a route lookup for an outgoing packet gives: an error, the route back to the node itself, or a route. */
  datatype Routing = NoInterface | Loopback | Via(route: Route)

  class RoutingProtocol {
    const queue: PacketQueue
    const optStep: StepCounter
    const lambda: real
    const sink: Address
    var clusterHeadThisRound: bool
    var clusterMember: seq<Address>
    var dropped: nat
    // The addresses of the interfaces that are up.
    var socketAddress: set<Address>

    constructor (lambda: real, sink: Address, optStep: StepCounter, head: bool)
      requires lambda > 0.0
      ensures this.lambda == lambda && this.sink == sink && this.optStep == optStep
      ensures clusterHeadThisRound == head && clusterMember == []
      ensures dropped == 0 && fresh(queue) && queue.entries == [] && socketAddress == {}
    {
      this.lambda, this.sink, this.optStep := lambda, sink, optStep;
      queue := new PacketQueue();
      clusterHeadThisRound, clusterMember, dropped, socketAddress := head, [], 0, {};
    }

    /** The index steps back after every drop, so that no entry is skipped. */
    method DropExpired(now: int)
      modifies queue, this`dropped
      ensures queue.entries == Live(old(queue.entries), now)
      ensures dropped == old(dropped) + |Late(old(queue.entries), now)|
    {
      var i := 0;
      while i < queue.GetSize()
        invariant 0 <= i <= |queue.entries|
        invariant Live(queue.entries, now) == Live(old(queue.entries), now)
        invariant forall j :: 0 <= j < i ==> queue.entries[j].deadline >= now
        invariant dropped + |queue.entries| == old(dropped) + |old(queue.entries)|
        decreases |queue.entries| - i
      {
        if queue.entries[i].deadline < now {
          FilterSkips(queue.entries, (e: QueueEntry) => e.deadline >= now, i);
          queue.Drop(i);
          dropped := dropped + 1;
          i := i - 1;
        }
        i := i + 1;
      }
      FilterAll(queue.entries, (e: QueueEntry) => e.deadline >= now);
      LateComplementsLive(old(queue.entries), now);
    }

    /** Merges every entry for the sink into p, oldest first. */
    method MergeSinkBound(p: Packet)
      modifies queue, p
      ensures p.data == old(p.data) + Merged(BoundFor(old(queue.entries), sink))
      ensures queue.entries == Others(old(queue.entries), sink)
    {
      var temp := queue.Dequeue(sink);
      while temp.Some?
        invariant p.data + Merged((if temp.Some? then [temp.value] else []) + BoundFor(queue.entries, sink))
          == old(p.data) + Merged(BoundFor(old(queue.entries), sink))
        invariant temp.None? ==> BoundFor(queue.entries, sink) == []
        invariant Others(queue.entries, sink) == Others(old(queue.entries), sink)
        decreases |queue.entries|, temp.Some?
      {
        ghost var rest := BoundFor(queue.entries, sink);
        assert ([temp.value] + rest)[1..] == rest;
        Associative(p.data, temp.value.packet, Merged(rest));
        p.AddAtEnd(temp.value.packet);
        temp := queue.Dequeue(sink);
      }
      NothingBound(queue.entries, sink);
    }

    /** Counts the entries due before a bound. */
    method CountDue(bound: int) returns (expired: nat)
      ensures expired == |DueBefore(queue.entries, bound)|
    {
      expired := 0;
      var i := 0;
      while i < queue.GetSize()
        invariant 0 <= i <= |queue.entries|
        invariant expired == |DueBefore(queue.entries[..i], bound)|
      {
        assert queue.entries[..i + 1] == queue.entries[..i] + [queue.entries[i]];
        FilterAppend(queue.entries[..i], [queue.entries[i]], (e: QueueEntry) => e.deadline < bound);
        if queue.entries[i].deadline < bound {
          expired := expired + 1;
        }
        i := i + 1;
      }
      assert queue.entries[..i] == queue.entries;
    }

    method Proposal(p: Packet, now: int) returns (sent: bool)
      requires lambda > 0.0
      modifies queue, p, this`dropped
      ensures var o := ProposalOutcome(old(queue.entries), now, lambda, clusterHeadThisRound, |clusterMember|, sink);
        && sent == o.sends && queue.entries == o.queue
        && dropped == old(dropped) + |o.dropped|
        && p.data == old(p.data) + Merged(o.sent)
    {
      var deadLine := now + Seconds(queue.GetSize() as real / lambda);
      if !clusterHeadThisRound {
        deadLine := deadLine + Seconds(0.064 + 1.0 / lambda);
      }
      DropExpired(now);
      var expired := CountDue(deadLine);
      var expected;
      if clusterHeadThisRound {
        expected := 1 + |clusterMember|;
      } else {
        expected := 1;
      }
      if expired >= expected || now > FLUSH_TIME {
        MergeSinkBound(p);
        return true;
      }
      assert Merged([]) == [];
      return false;
    }

    method ControlLimit(p: Packet, now: int, threshold: nat) returns (sent: bool)
      modifies queue, p, this`dropped
      ensures var o := ControlLimitOutcome(old(queue.entries), now, threshold, sink);
        && sent == o.sends && queue.entries == o.queue
        && dropped == old(dropped) + |o.dropped|
        && p.data == old(p.data) + Merged(o.sent)
    {
      DropExpired(now);
      if queue.GetSize() >= threshold || now > FLUSH_TIME {
        MergeSinkBound(p);
        return true;
      }
      assert Merged([]) == [];
      return false;
    }

    /** The reward of the slot at the given time, after earlier decisions; every addition is cut to 32 bits. */
    method RewardAt(time: int, decisions: int) returns (reward: int)
      ensures reward == (TotalSlack(queue.entries, time) + TotalBonus(decisions)) % UINT32
    {
      reward := 0;
      for j := 0 to queue.GetSize()
        invariant reward == TotalSlack(queue.entries[..j], time) % UINT32
      {
        assert queue.entries[..j + 1][..j] == queue.entries[..j];
        if queue.entries[j].deadline >= time {
          var gap := Milliseconds(queue.entries[j].deadline) - Milliseconds(time);
          AddThenCut(TotalSlack(queue.entries[..j], time), gap);
          reward := (reward + gap) % UINT32;
        }
      }
      assert queue.entries[..queue.GetSize()] == queue.entries;
      ghost var slack := TotalSlack(queue.entries, time);
      var j := 1;
      while j < decisions
        invariant 1 <= j && (j <= decisions || j == 1)
        invariant reward == (slack + TotalBonus(j)) % UINT32
      {
        var bonus := if j < 8 then 30000 - j * 4000 else 0;
        AddThenCut(slack + TotalBonus(j), bonus);
        reward := (reward + bonus) % UINT32;
        j := j + 1;
      }
    }

    method FillRewards(now: int, step: nat) returns (rewards: array<int>)
      requires lambda > 0.0
      ensures fresh(rewards) && rewards.Length == SLOTS
      ensures rewards[..] == Rewards(queue.entries, now, Seconds(1.0 / lambda), step)
    {
      var time, period := now, Seconds(1.0 / lambda);
      rewards := new int[SLOTS];
      ghost var full := Rewards(queue.entries, now, period, step);
      for i := 0 to SLOTS
        invariant time == now + i * period
        invariant forall k :: 0 <= k < i ==> rewards[k] == full[k]
      {
        var reward := RewardAt(time, i + step);
        rewards[i] := reward;
        time := time + period;
        assert (i + 1) * period == i * period + period;
      }
    }

    /** The backward loop for slot i: the value of having waited until the next slot. */
    method BestAfter(rewards: array<int>, i: nat) returns (best: real)
      requires rewards.Length == SLOTS && i <= 98
      ensures best == Best(rewards[..], i, i + 1)
    {
      var rb, rn := new real[SLOTS], new real[SLOTS];
      rb[99], rn[99] := 1.0, 0.0;
      ghost var r := rewards[..];
      var k := 98;
      while k > i
        invariant i <= k <= 98 && rewards[..] == r
        invariant rn[k + 1] == Wait(r, i, k + 1) && rb[k + 1] == Best(r, i, k + 1)
      {
        rn[k] := RMax(0.0, Blend(i, k, rn[k + 1], rb[k + 1]));
        rb[k] := RMax(rewards[k] as real, rn[k]);
        k := k - 1;
      }
      best := rb[i + 1];
    }

    /** The action of every slot. Slot 99 keeps the 0 it starts with. */
    method FillActions(rewards: array<int>) returns (actions: array<int>)
      requires rewards.Length == SLOTS && forall i :: 0 <= i < SLOTS ==> rewards[i] >= 0
      ensures fresh(actions) && actions.Length == SLOTS
      ensures forall i :: 0 <= i < SLOTS ==> actions[i] == Action(rewards[..], i)
    {
      var maxR := 0;
      for i := 0 to SLOTS
        invariant maxR == MaxOf(rewards[..i])
      {
        assert rewards[..i + 1][..i] == rewards[..i];
        if rewards[i] > maxR {
          maxR := rewards[i];
        }
      }
      assert rewards[..SLOTS] == rewards[..];
      ghost var r := rewards[..];
      actions := new int[SLOTS](_ => 0);
      var i := 98;
      while i >= 0
        invariant -1 <= i <= 98 && rewards[..] == r
        invariant forall k :: i < k < SLOTS ==> actions[k] == Action(r, k)
      {
        if rewards[i] < maxR {
          actions[i] := 1;
        } else {
          var best := BestAfter(rewards, i);
          actions[i] := if rewards[i] >= best.Floor then 2 else 1;
        }
        i := i - 1;
      }
    }

    method OptTM(p: Packet, now: int) returns (sent: bool)
      requires lambda > 0.0
      modifies queue, p, optStep
      ensures optStep.step == old(optStep.step) + 1
      ensures var o := OptTMOutcome(old(queue.entries), now, lambda, old(optStep.step), sink);
        && sent == o.sends && queue.entries == o.queue && o.dropped == []
        && p.data == old(p.data) + Merged(o.sent)
    {
      var rewards := FillRewards(now, optStep.step);
      var actions := FillActions(rewards);
      optStep.step := optStep.step + 1;
      if actions[0] > 1 || now > FLUSH_TIME {
        MergeSinkBound(p);
        return true;
      }
      assert Merged([]) == [];
      return false;
    }

    method SelectiveForwarding(p: Packet) returns (sent: bool)
      ensures !sent
    {
      return false;
    }

    /** The policy that a build's choice stands for in the current state. */
    function PolicyFor(choice: Choice): Policy
      reads this, optStep
    {
      match choice
      case DA_PROP => ByProposal(clusterHeadThisRound, |clusterMember|)
      case DA_OPT => ByOptTM(optStep.step)
      case DA_CL(threshold) => ByControlLimit(threshold)
      case DA_SF => BySelectiveForwarding
      case NONE => ByDefault
    }

    method DataAggregation(p: Packet, now: int, choice: Choice) returns (sent: bool)
      requires lambda > 0.0
      modifies queue, p, this`dropped, optStep
      ensures optStep.step == old(optStep.step) + (if choice.DA_OPT? then 1 else 0)
      ensures var q := old(queue.entries);
        var o := match choice
          case DA_PROP => ProposalOutcome(q, now, lambda, clusterHeadThisRound, |clusterMember|, sink)
          case DA_OPT => OptTMOutcome(q, now, lambda, old(optStep.step), sink)
          case DA_CL(threshold) => ControlLimitOutcome(q, now, threshold, sink)
          case DA_SF => Outcome(false, q, [], [])
          case NONE => Outcome(true, q, [], []);
        && sent == o.sends && queue.entries == o.queue
        && dropped == old(dropped) + |o.dropped|
        && p.data == old(p.data) + Merged(o.sent)
    {
      match choice {
        case DA_PROP => sent := Proposal(p, now);
        case DA_OPT => sent := OptTM(p, now);
        case DA_CL(threshold) => sent := ControlLimit(p, now, threshold);
        case DA_SF => sent := SelectiveForwarding(p);
        case NONE => sent := true;
      }
      assert Merged([]) == [];
    }

    /**
     * Without an interface there is no route. A packet of whole records goes out if the policy says so and its
     * destination has a route, and any other packet if its destination has one; else it comes back to this node.
     */
    method RouteOutput(p: Packet, dst: Address, now: int, choice: Choice, table: RoutingTable)
        returns (routing: Routing)
      requires lambda > 0.0
      modifies queue, p, this`dropped, optStep
      ensures var o := OutcomeOf(old(PolicyFor(choice)), old(queue.entries), now, lambda, sink);
        var aggregates := socketAddress != {} && |old(p.data)| % 56 == 0;
        && routing == (if socketAddress == {} then NoInterface
                       else if (aggregates ==> o.sends) && dst in table.entries then Via(table.entries[dst])
                       else Loopback)
        && queue.entries == (if aggregates then o.queue else old(queue.entries))
        && dropped == old(dropped) + (if aggregates then |o.dropped| else 0)
        && p.data == old(p.data) + (if aggregates then Merged(o.sent) else [])
        && optStep.step == old(optStep.step) + (if aggregates && choice.DA_OPT? then 1 else 0)
    {
      if socketAddress == {} {
        return NoInterface;
      }
      var rt := None;
      if |p.data| % RECORD_SIZE == 0 {
        var sent := DataAggregation(p, now, choice);
        if sent {
          rt := table.LookupRoute(dst);
        }
      } else {
        rt := table.LookupRoute(dst);
      }
      return if rt.Some? then Via(rt.value) else Loopback;
    }
  }
}
