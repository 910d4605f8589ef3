/** The election state of a node: advertisements and joins it hears, its routing table and its timers. */
module LeachNodes {
  import opened Packets
  import opened Options
  import opened Election
  import opened RoutingTables
  import opened RoundTimers

  const SINK: Address := 0x0A01_0101
  const ADVERTISEMENT: Address := 0xFFFF_FFFF

  /** Farther than any advertisement: 1e100. */
  const FAR: real :=
    10000000000000000000000000000000000000000000000000000000000000000000000000000000000000000000000000000.0

  /** A control packet: an advertisement carries no member address but the sender's position. */
  datatype Message = Message(sender: Address, address: Address, x: real, y: real, receiver: Address)

  // ---- What the handlers do, as functions of the node's state ----

  datatype Node = Node(
    round: nat, valid: bool, head: bool, dist: real, target: Address, best: Route, members: seq<Address>,
    table: map<Address, Route>)

  function Update(n: Node, prob: real): Node {
    var (head, valid) := Elect(Thresholds(), n.round, n.valid, prob);
    Node(n.round + 1, valid, head, FAR, if head then SINK else NO_ADDRESS, NO_ROUTE, [],
         n.table - {n.target} - {SINK})
  }

  /** What a node at (x, y) takes from a message: a head at a squared distance, or a member that joins. */
  datatype Heard = Advert(dist: real, sender: Address, receiver: Address) | Join(member: Address)

  function Hear(m: Message, x: real, y: real): Heard {
    if m.address == ADVERTISEMENT then
      Advert((m.x - x) * (m.x - x) + (m.y - y) * (m.y - y), m.sender, m.receiver)
    else Join(m.address)
  }

  function Receive(n: Node, m: Heard): Node {
    match m
    case Join(member) => n.(members := n.members + [member])
    case Advert(dist, sender, receiver) =>
      if dist < n.dist then n.(dist := dist, target := sender, best := Route(SINK, sender, receiver)) else n
  }

  function Advertise(n: Node, self: Address): Node {
    n.(table := Added(n.table, Route(SINK, SINK, self)))
  }

  /** The entries meant as copies of the best route stay as they were default-constructed. */
  function Respond(n: Node): Node {
    if n.target != NO_ADDRESS && n.best.iface != NO_ADDRESS then n.(table := Added(n.table, NO_ROUTE)) else n
  }

  /** Joining leaves a table as it is, but for the default entry, which is there once a head was chosen. */
  lemma RespondAdds(n: Node)
    ensures Respond(n) == n.(table := Respond(n).table)
    ensures forall a: Address :: a != 0x6666_6666 ==>
      (a in Respond(n).table <==> a in n.table) && (a in n.table ==> Respond(n).table[a] == n.table[a])
    ensures 0x6666_6666 in Respond(n).table <==>
      0x6666_6666 in n.table || (n.target != 0x6666_6666 && n.best.iface != 0x6666_6666)
    ensures 0x6666_6666 in Respond(n).table && 0x6666_6666 !in n.table ==>
      Respond(n).table[0x6666_6666] == Route(0x6666_6666, 0x6666_6666, 0x6666_6666)
  {
  }

  // ---- The node ----

  const LOOPBACK: Address := 0x7F00_0001
  const LOOPBACK_ROUTE := Route(LOOPBACK, LOOPBACK, LOOPBACK)

  class LeachNode {
    const mainAddress: Address
    const isSink: bool
    const x: real
    const y: real
    const table: RoutingTable
    var round: nat
    var valid: bool
    var clusterHeadThisRound: bool
    var dist: real
    var targetAddress: Address
    var bestRoute: Route
    var clusterMember: seq<Address>
    // When the timers fire.
    var broadcastAt: Option<int>
    var respondAt: Option<int>
    var updateAt: Option<int>

    constructor (
      mainAddress: Address, broadcast: Address, x: real, y: real, valid: bool, head: bool, dist: real, now: int,
      draw: int)
      requires 10 <= draw <= 1000
      ensures this.mainAddress == mainAddress && this.x == x && this.y == y && fresh(table)
      ensures isSink == (mainAddress == SINK)
      ensures round == 0 && this.valid == valid && clusterHeadThisRound == head && this.dist == dist
      ensures targetAddress == NO_ADDRESS && bestRoute == NO_ROUTE && clusterMember == []
      ensures table.entries.Keys == {0x7F00_0001, broadcast}
      ensures table.entries[0x7F00_0001] == Route(0x7F00_0001, 0x7F00_0001, 0x7F00_0001)
      ensures broadcast != 0x7F00_0001 ==> table.entries[broadcast] == Route(broadcast, broadcast, mainAddress)
      ensures Pending() == Timers(if isSink then None else Some(now + draw), None, None)
    {
      this.mainAddress, this.x, this.y, this.valid := mainAddress, x, y, valid;
      isSink := mainAddress == SINK;
      table := new RoutingTable();
      round, clusterHeadThisRound, this.dist := 0, head, dist;
      targetAddress, bestRoute, clusterMember := NO_ADDRESS, NO_ROUTE, [];
      broadcastAt, respondAt := None, None;
      updateAt := if mainAddress == SINK then None else Some(now + draw);
      new;
      var _ := table.AddRoute(LOOPBACK_ROUTE);
      var _ := table.AddRoute(Route(broadcast, broadcast, mainAddress));
    }

    function State(): Node
      reads this, table
    {
      Node(round, valid, clusterHeadThisRound, dist, targetAddress, bestRoute, clusterMember, table.entries)
    }

    function Pending(): Timers
      reads this
    {
      Timers(updateAt, broadcastAt, respondAt)
    }

    /** A new round starts. The draws are microseconds. */
    method PeriodicUpdate(prob: real, draw: int, nextDraw: int, now: int, interval: int)
      modifies this, table
      ensures State() == Update(old(State()), prob)
      ensures Pending() == Restarted(old(Pending()), now, interval, clusterHeadThisRound, draw, nextDraw)
    {
      var n := ROUNDS_PER_CYCLE;
      var t := Threshold(n, round % n);
      Elects(round, valid, prob);
      var _ := table.DeleteRoute(targetAddress);
      var _ := table.DeleteRoute(SINK);
      if round % n == 0 {
        valid := true;
      }
      round := round + 1;
      dist := FAR;
      clusterHeadThisRound := false;
      clusterMember := [];
      bestRoute := NO_ROUTE;
      targetAddress := NO_ADDRESS;
      if prob < t && valid {
        valid := false;
        clusterHeadThisRound := true;
        targetAddress := SINK;
        broadcastAt := Some(now + draw);
      } else {
        respondAt := Some(now + 100_000 + draw);
      }
      updateAt := Some(now + interval + nextDraw);
    }

    method RecvLeach(m: Message)
      modifies this
      ensures State() == if isSink then old(State()) else Receive(old(State()), Hear(m, x, y))
      ensures Pending() == old(Pending())
    {
      if isSink {
        return;
      }
      if m.address == ADVERTISEMENT {
        var newEntry := Route(SINK, m.sender, m.receiver);
        var dx, dy := m.x - x, m.y - y;
        var d := dx * dx + dy * dy;
        if d < dist {
          dist := d;
          targetAddress := m.sender;
          bestRoute := newEntry;
        }
      } else {
        clusterMember := clusterMember + [m.address];
      }
    }

    /** The head's timer: advertise, and install the head's own route to the sink. */
    method SendBroadcast() returns (sent: Message)
      modifies this`broadcastAt, table
      ensures State() == Advertise(old(State()), mainAddress) && Pending() == Done(old(Pending()), BROADCAST)
      ensures sent.sender == mainAddress && sent.address == ADVERTISEMENT && sent.x == x && sent.y == y
    {
      broadcastAt := None;
      sent := Message(mainAddress, ADVERTISEMENT, x, y, NO_ADDRESS);
      var _ := table.AddRoute(Route(SINK, SINK, mainAddress));
    }

    /** The member's timer: join the chosen head, if there is one. */
    method RespondToClusterHead() returns (join: Option<(Address, Address)>)
      modifies this`respondAt, table
      ensures State() == Respond(old(State())) && Pending() == Done(old(Pending()), RESPOND)
      ensures join == if targetAddress == NO_ADDRESS then None else Some((targetAddress, mainAddress))
    {
      respondAt := None;
      if targetAddress == NO_ADDRESS {
        return None;
      }
      // Copying the best route into the two new entries does nothing.
      // The one for the head keeps an unset interface, so that it is never added.
      var entry2 := NO_ROUTE;
      if bestRoute.iface != NO_ADDRESS {
        var _ := table.AddRoute(entry2);
      }
      return Some((targetAddress, mainAddress));
    }
  }

  // ---- What a round's messages add up to ----

  function ReceiveAll(n: Node, ms: seq<Heard>): Node {
    if ms == [] then n else Receive(ReceiveAll(n, ms[..|ms| - 1]), ms[|ms| - 1])
  }

  function Joins(ms: seq<Heard>): seq<Address> {
    if ms == [] then []
    else
      var m := ms[|ms| - 1];
      Joins(ms[..|ms| - 1]) + (if m.Join? then [m.member] else [])
  }

  /** Message i is the first advertisement at the least distance heard, and that is nearer than far. */
  predicate FirstNearest(ms: seq<Heard>, i: int, far: real) {
    && 0 <= i < |ms| && ms[i].Advert? && ms[i].dist < far
    && (forall j :: 0 <= j < i && ms[j].Advert? ==> ms[i].dist < ms[j].dist)
    && (forall j :: i < j < |ms| && ms[j].Advert? ==> ms[i].dist <= ms[j].dist)
  }

  predicate NoneNear(ms: seq<Heard>, far: real) {
    forall j :: 0 <= j < |ms| && ms[j].Advert? ==> ms[j].dist >= far
  }

  /** The node with the head heard as its choice. */
  function Choosing(n: Node, m: Heard): Node
    requires m.Advert?
  {
    n.(dist := m.dist, target := m.sender, best := Route(SINK, m.sender, m.receiver))
  }

  /** Either nothing near was heard and the node has the choice it had, or it chose the first nearest. */
  ghost predicate ChoseNearest(n: Node, ms: seq<Heard>, r: Node) {
    if NoneNear(ms, n.dist) then r == n else exists i :: FirstNearest(ms, i, n.dist) && r == Choosing(n, ms[i])
  }

  lemma {:induction false} HearingAll(n: Node, ms: seq<Heard>)
    ensures var r := ReceiveAll(n, ms);
      r.members == n.members + Joins(ms) && ChoseNearest(n, ms, r.(members := n.members))
  {
    var r := ReceiveAll(n, ms);
    if ms == [] {
      assert r.members == n.members + Joins(ms);
    } else {
      var before, m := ms[..|ms| - 1], ms[|ms| - 1];
      HearingAll(n, before);
      assert ms == before + [m];
      HearingOne(n, before, ReceiveAll(n, before).(members := n.members), m);
    }
  }

  lemma HearingOne(n: Node, ms: seq<Heard>, r: Node, m: Heard)
    requires ChoseNearest(n, ms, r)
    ensures ChoseNearest(n, ms + [m], if m.Advert? && m.dist < r.dist then Choosing(r, m) else r)
  {
    if NoneNear(ms, n.dist) {
      HearingFirst(n, ms, m);
    } else {
      var i :| FirstNearest(ms, i, n.dist) && r == Choosing(n, ms[i]);
      HearingAnother(n, ms, i, m);
    }
  }

  lemma HearingFirst(n: Node, ms: seq<Heard>, m: Heard)
    requires NoneNear(ms, n.dist)
    ensures ChoseNearest(n, ms + [m], if m.Advert? && m.dist < n.dist then Choosing(n, m) else n)
  {
    var all := ms + [m];
    if m.Advert? && m.dist < n.dist {
      assert FirstNearest(all, |ms|, n.dist) && all[|ms|] == m;
    }
  }

  lemma HearingAnother(n: Node, ms: seq<Heard>, i: nat, m: Heard)
    requires FirstNearest(ms, i, n.dist)
    ensures ChoseNearest(n, ms + [m],
      if m.Advert? && m.dist < ms[i].dist then Choosing(n, m) else Choosing(n, ms[i]))
  {
    var all := ms + [m];
    assert all[i] == ms[i] && all[|ms|] == m;
    assert FirstNearest(all, if m.Advert? && m.dist < ms[i].dist then |ms| else i, n.dist);
  }

  /** A node at (x, y) after the messages of a round. */
  function ReceiveMessages(n: Node, ms: seq<Message>, x: real, y: real): Node {
    if ms == [] then n else Receive(ReceiveMessages(n, ms[..|ms| - 1], x, y), Hear(ms[|ms| - 1], x, y))
  }

  /** The addresses of the members that join, in order. */
  function Joiners(ms: seq<Message>): seq<Address> {
    if ms == [] then []
    else
      var m := ms[|ms| - 1];
      Joiners(ms[..|ms| - 1]) + (if m.address == 0xFFFF_FFFF then [] else [m.address])
  }

  /** The message is an advertisement from a position at the squared distance d from (x, y), or from farther away. */
  predicate AdvertAt(m: Message, x: real, y: real, d: real) {
    m.address == 0xFFFF_FFFF && (m.x - x) * (m.x - x) + (m.y - y) * (m.y - y) == d
  }

  predicate AdvertBeyond(m: Message, x: real, y: real, d: real) {
    m.address == 0xFFFF_FFFF && (m.x - x) * (m.x - x) + (m.y - y) * (m.y - y) > d
  }

  /** Message i is the first advertisement at the least squared distance, which is d, nearer than far. */
  predicate IsFirstNearest(ms: seq<Message>, i: int, x: real, y: real, d: real, far: real) {
    && 0 <= i < |ms| && AdvertAt(ms[i], x, y, d) && d < far
    && forall j :: 0 <= j < |ms| && ms[j].address == 0xFFFF_FFFF ==>
         AdvertBeyond(ms[j], x, y, d) || (i <= j && AdvertAt(ms[j], x, y, d))
  }

  predicate NoAdvertWithin(ms: seq<Message>, x: real, y: real, far: real) {
    forall j :: 0 <= j < |ms| && ms[j].address == 0xFFFF_FFFF ==>
      AdvertBeyond(ms[j], x, y, far) || AdvertAt(ms[j], x, y, far)
  }

  /** What is heard of each message. */
  function HeardOf(ms: seq<Message>, x: real, y: real): seq<Heard> {
    if ms == [] then [] else HeardOf(ms[..|ms| - 1], x, y) + [Hear(ms[|ms| - 1], x, y)]
  }

  lemma {:induction false} HeardOfAt(ms: seq<Message>, x: real, y: real)
    ensures |HeardOf(ms, x, y)| == |ms|
    ensures forall i :: 0 <= i < |ms| ==> HeardOf(ms, x, y)[i] == Hear(ms[i], x, y)
  {
    if ms != [] {
      HeardOfAt(ms[..|ms| - 1], x, y);
    }
  }

  lemma {:induction false} ReceivesWhatIsHeard(n: Node, ms: seq<Message>, x: real, y: real)
    ensures ReceiveMessages(n, ms, x, y) == ReceiveAll(n, HeardOf(ms, x, y))
    ensures Joiners(ms) == Joins(HeardOf(ms, x, y))
  {
    if ms != [] {
      var before, hs := ms[..|ms| - 1], HeardOf(ms, x, y);
      ReceivesWhatIsHeard(n, before, x, y);
      assert hs[..|hs| - 1] == HeardOf(before, x, y);
    }
  }

  lemma FirstIsNearest(ms: seq<Message>, i: int, x: real, y: real, far: real)
    requires FirstNearest(HeardOf(ms, x, y), i, far)
    ensures 0 <= i < |ms| && HeardOf(ms, x, y)[i] == Hear(ms[i], x, y)
    ensures IsFirstNearest(ms, i, x, y, HeardOf(ms, x, y)[i].dist, far)
  {
    HeardOfAt(ms, x, y);
    var hs := HeardOf(ms, x, y);
    HearIsSquare(ms[i], x, y);
    forall j | 0 <= j < |ms| && ms[j].address == 0xFFFF_FFFF
      ensures AdvertBeyond(ms[j], x, y, hs[i].dist) || (i <= j && AdvertAt(ms[j], x, y, hs[i].dist))
    {
      HearIsSquare(ms[j], x, y);
      assert hs[j].Advert? && hs[j] == Hear(ms[j], x, y);
    }
  }

  lemma HearIsSquare(m: Message, x: real, y: real)
    ensures Hear(m, x, y).Advert? <==> m.address == 0xFFFF_FFFF
    ensures m.address == 0xFFFF_FFFF ==> AdvertAt(m, x, y, Hear(m, x, y).dist)
    ensures m.address == 0xFFFF_FFFF ==>
      forall d :: (AdvertBeyond(m, x, y, d) <==> Hear(m, x, y).dist > d)
        && (AdvertAt(m, x, y, d) <==> Hear(m, x, y).dist == d)
  {
  }

  lemma NoneIsNear(ms: seq<Message>, x: real, y: real, far: real)
    requires NoneNear(HeardOf(ms, x, y), far)
    ensures NoAdvertWithin(ms, x, y, far)
  {
    HeardOfAt(ms, x, y);
    forall j | 0 <= j < |ms| && ms[j].address == 0xFFFF_FFFF
      ensures AdvertBeyond(ms[j], x, y, far) || AdvertAt(ms[j], x, y, far)
    {
      HearIsSquare(ms[j], x, y);
      assert HeardOf(ms, x, y)[j].Advert?;
    }
  }

  /** What a node chose: the first nearest head, or what it had when none was nearer than far. */
  ghost predicate Chose(r: Node, ms: seq<Message>, x: real, y: real, far: real, target: Address, best: Route) {
    if NoAdvertWithin(ms, x, y, far) then r.target == target && r.best == best && r.dist == far
    else exists i ::
      && IsFirstNearest(ms, i, x, y, r.dist, far)
      && r.target == ms[i].sender && r.best == Route(0x0A01_0101, ms[i].sender, ms[i].receiver)
  }

  /** What messages leave alone. */
  predicate SameRound(a: Node, b: Node) {
    a.round == b.round && a.head == b.head && a.valid == b.valid && a.table == b.table
  }

  lemma {:induction false} NearestChosen(n: Node, ms: seq<Message>, x: real, y: real)
    ensures var r := ReceiveMessages(n, ms, x, y);
      && SameRound(r, n) && r.members == n.members + Joiners(ms)
      && Chose(r, ms, x, y, n.dist, n.target, n.best)
  {
    var hs := HeardOf(ms, x, y);
    ReceivesWhatIsHeard(n, ms, x, y);
    HearingAll(n, hs);
    if NoneNear(hs, n.dist) {
      NoneIsNear(ms, x, y, n.dist);
    } else {
      var i :| FirstNearest(hs, i, n.dist) && ReceiveAll(n, hs).(members := n.members) == Choosing(n, hs[i]);
      FirstIsNearest(ms, i, x, y, n.dist);
      FirstIsWithin(ms, i, x, y, hs[i].dist, n.dist);
    }
  }

  lemma FirstIsWithin(ms: seq<Message>, i: int, x: real, y: real, d: real, far: real)
    requires IsFirstNearest(ms, i, x, y, d, far)
    ensures !NoAdvertWithin(ms, x, y, far)
  {
  }

  /**
   * The nearest head wins. After any messages since the round began, a node's distance, target and best route are those
   * of the first advertisement from the least distance under 1e100; if there is none, a head's target is the sink and
   * any other node has none. Its members are those that joined, in order. The routes to the sink and to the last target
   * are gone, and the others are as they were.
   */
  lemma NearestHead(before: Node, prob: real, ms: seq<Message>, x: real, y: real)
    ensures var r := ReceiveMessages(Update(before, prob), ms, x, y);
      && r.round == before.round + 1 && (r.head, r.valid) == Elect(Thresholds(), before.round, before.valid, prob)
      && r.members == Joiners(ms)
      && Chose(r, ms, x, y, FAR, if r.head then 0x0A01_0101 else NO_ADDRESS, NO_ROUTE)
      && r.table == map a | a in before.table && a != before.target && a != 0x0A01_0101 :: before.table[a]
  {
    NearestChosen(Update(before, prob), ms, x, y);
    assert [] + Joiners(ms) == Joiners(ms);
  }

  // ---- Routes to the sink ----

  datatype Event =
    | PeriodicUpdate(prob: real, draw: int, nextDraw: int)
    | RecvLeach(m: Heard)
    | SendBroadcast
    | RespondToClusterHead

  /** A node with its timers. */
  datatype Timed = Timed(node: Node, timers: Timers)

  /** A timer's event happens when that timer is the next to fire; messages come at any time. */
  predicate Enabled(s: Timed, e: Event) {
    match e
    case PeriodicUpdate(prob, draw, nextDraw) =>
      var head := Update(s.node, prob).head;
      FiresNext(s.timers, UPDATE) && MaySet(s.timers, head) && 0.0 <= prob < 1.0 && DrawsOk(head, draw, nextDraw)
    case RecvLeach(_) => true
    case SendBroadcast => FiresNext(s.timers, BROADCAST)
    case RespondToClusterHead => FiresNext(s.timers, RESPOND)
  }

  function Next(s: Timed, e: Event, self: Address, interval: int): Timed
    requires Enabled(s, e)
  {
    match e
    case PeriodicUpdate(prob, draw, nextDraw) =>
      var n := Update(s.node, prob);
      Timed(n, Restarted(s.timers, s.timers.update.value, interval, n.head, draw, nextDraw))
    case RecvLeach(m) => s.(node := Receive(s.node, m))
    case SendBroadcast => Timed(Advertise(s.node, self), Done(s.timers, BROADCAST))
    case RespondToClusterHead => Timed(Respond(s.node), Done(s.timers, RESPOND))
  }

  /** A node that waits for its first round. */
  predicate Start(s: Timed) {
    && SINK !in s.node.table && s.node.round == 0
    && s.timers.update.Some? && s.timers == Timers(s.timers.update, None, None)
  }

  /** The states of a node over a run. */
  predicate IsRun(states: seq<Timed>, events: seq<Event>, self: Address, interval: int) {
    && |states| == |events| + 1 && Start(states[0])
    && forall i :: 0 <= i < |events| ==>
         Enabled(states[i], events[i]) && states[i + 1] == Next(states[i], events[i], self, interval)
  }

  /** Among the first k events, a broadcast came after the last round began. */
  predicate SentThisRound(events: seq<Event>, k: nat)
    requires k <= |events|
  {
    k > 0 && !events[k - 1].PeriodicUpdate? && (events[k - 1].SendBroadcast? || SentThisRound(events, k - 1))
  }

  /**
   * Over every run, at every moment, a node has a route to the sink exactly if it has broadcast since its last round
   * began: joining a head installs no route, although the best route was chosen for it. Besides the entries present at
   * the start, a table holds at most one for the default address and one for the sink.
   */
  lemma {:induction false} SinkRouteIffSent(
    states: seq<Timed>, events: seq<Event>, self: Address, interval: nat, k: nat)
    requires IsRun(states, events, self, interval) && k < |states|
    ensures SINK in states[k].node.table <==> SentThisRound(events, k)
    ensures SINK in states[k].node.table ==>
      states[k].node.table[SINK] == Route(0x0A01_0101, 0x0A01_0101, self)
    ensures states[k].node.table.Keys <= states[0].node.table.Keys + {NO_ADDRESS, SINK}
  {
    if k > 0 {
      SinkRouteIffSent(states, events, self, interval, k - 1);
      assert states[k] == Next(states[k - 1], events[k - 1], self, interval);
    }
  }

  /**
   * A pending broadcast is that of a head, and comes before the next round if rounds are long. In very short rounds
   * it may be that of an earlier round; but then the node can neither start another round nor get to broadcast.
   */
  predicate BroadcastOk(s: Timed, interval: nat) {
    && s.timers.update.Some?
    && (s.timers.broadcast.Some? ==>
          var (u, b) := (s.timers.update.value, s.timers.broadcast.value);
          s.node.round > 0 && if s.node.head then u + 9_000 - interval <= b && (interval >= 50_000 ==> b <= u)
          else interval < 4_000 && u < b && s.timers.respond.Some? && u < s.timers.respond.value)
  }

  lemma {:induction false} SentByHead(states: seq<Timed>, events: seq<Event>, self: Address, interval: nat, k: nat)
    requires interval < 4_000 || interval >= 50_000
    requires IsRun(states, events, self, interval) && k < |states|
    ensures BroadcastOk(states[k], interval)
    ensures SentThisRound(events, k) <==>
      states[k].node.round > 0 && states[k].node.head && states[k].timers.broadcast == None
  {
    if k > 0 {
      SentByHead(states, events, self, interval, k - 1);
      assert states[k] == Next(states[k - 1], events[k - 1], self, interval);
    }
  }

  /** In no run does a node that is not head have a route to the sink. */
  ghost predicate OnlyHeadsReachSink(self: Address, interval: nat) {
    forall states: seq<Timed>, events: seq<Event>, k: nat :: IsRun(states, events, self, interval) && k < |states| ==>
      SINK in states[k].node.table ==> states[k].node.head
  }

  /**
   * That holds exactly if a round is as long as the longest delay of a broadcast, or so short that the node's third
   * round is due before any broadcast; otherwise a head of one round can broadcast in the next one, in which it is not
   * head.
   */
  lemma OnlyHeadsReachSinkIff(self: Address, interval: nat)
    ensures OnlyHeadsReachSink(self, interval) <==> interval < 4_000 || interval >= 50_000
  {
    if interval < 4_000 || interval >= 50_000 {
      forall states: seq<Timed>, events: seq<Event>, k: nat | IsRun(states, events, self, interval) && k < |states|
        ensures SINK in states[k].node.table ==> states[k].node.head
      {
        SinkRouteIffSent(states, events, self, interval, k);
        SentByHead(states, events, self, interval, k);
      }
    } else {
      var states, events := LateBroadcast(self, interval);
    }
  }

  /** A head's second round starts, without it being head, before it has broadcast in the first. */
  lemma LateBroadcast(self: Address, interval: nat) returns (states: seq<Timed>, events: seq<Event>)
    requires 4_000 <= interval < 50_000
    ensures IsRun(states, events, self, interval) && |states| == 4
    ensures SINK in states[3].node.table && !states[3].node.head
  {
    var delay := if interval < 10_000 then 10_000 else interval + 1;
    var later := if interval < 9_000 then 1000 else 0;
    events := [PeriodicUpdate(0.0, delay, later), PeriodicUpdate(0.5, 0, 1000), SendBroadcast];
    var n := Node(0, false, false, 0.0, NO_ADDRESS, NO_ROUTE, [], map[]);
    var s0 := Timed(n, Timers(Some(0), None, None));
    assert Update(n, 0.0).head && !Update(Update(n, 0.0), 0.5).head;
    var s1 := Next(s0, events[0], self, interval);
    var s2 := Next(s1, events[1], self, interval);
    var s3 := Next(s2, events[2], self, interval);
    states := [s0, s1, s2, s3];
  }
}
