/**
 * Energy accounting of a radio. Every change of state charges the time since the last one; updating the energy
 * source may change the state again, from inside the call. Times are in seconds.
 */
module RadioEnergy {
  datatype State = IDLE | CCA_BUSY | TX | RX | SWITCHING | SLEEP | OFF

  /** Currents in ampere, supply voltage in volt. */
  datatype Supply = Supply(idle: real, ccaBusy: real, tx: real, rx: real, switching: real, sleep: real, voltage: real)

  /** The pending counter has eight bits. */
  const PENDING_RANGE := 256

  datatype Radio = Radio(
    state: State, last: real, total: real, idleTime: real, txTime: real, rxTime: real, pending: nat)

  const INITIAL := Radio(IDLE, 0.0, 0.0, 0.0, 0.0, 0.0, 0)

  /** The calls an update of the energy source makes: one to newState, with its own calls, and then the rest. */
  datatype Calls = Done | Then(newState: State, nested: Calls, rest: Calls)

  function Max(a: nat, b: nat): nat { if a < b then b else a }

  /** How deep the calls nest. */
  function Levels(calls: Calls): nat {
    match calls
    case Done => 0
    case Then(_, nested, rest) => Max(1 + Levels(nested), Levels(rest))
  }

  function StateA(s: Supply, state: State): real {
    match state
    case IDLE => s.idle
    case CCA_BUSY => s.ccaBusy
    case TX => s.tx
    case RX => s.rx
    case SWITCHING => s.switching
    case SLEEP => s.sleep
    case OFF => 0.0
  }

  // ---- What the methods do ----

  /** The energy that a stay in a state takes. */
  type Cost = (State, real) -> real

  function CostOf(s: Supply): Cost {
    (state: State, duration: real) => duration * StateA(s, state) * s.voltage
  }

  /** A stay costs its time, times the current of its state, times the voltage; switched off, nothing. */
  lemma CostPerState(s: Supply, d: real)
    ensures CostOf(s)(IDLE, d) == d * s.idle * s.voltage
    ensures CostOf(s)(CCA_BUSY, d) == d * s.ccaBusy * s.voltage
    ensures CostOf(s)(TX, d) == d * s.tx * s.voltage
    ensures CostOf(s)(RX, d) == d * s.rx * s.voltage
    ensures CostOf(s)(SWITCHING, d) == d * s.switching * s.voltage
    ensures CostOf(s)(SLEEP, d) == d * s.sleep * s.voltage
    ensures CostOf(s)(OFF, d) == 0.0
  {
  }

  /** The time since the last update goes to the current state. */
  function Charge(cost: Cost, r: Radio, now: real): Radio {
    var d := now - r.last;
    r.(last := now, total := r.total + cost(r.state, d),
       idleTime := r.idleTime + (if r.state == IDLE then d else 0.0),
       txTime := r.txTime + (if r.state == TX then d else 0.0),
       rxTime := r.rxTime + (if r.state == RX then d else 0.0))
  }

  /** After the nested calls, only an outermost call sets the state, and never from OFF. */
  function Settle(r: Radio, newState: State): Radio {
    var settled := if r.pending <= 1 && r.state != OFF then r.(state := newState) else r;
    settled.(pending := (settled.pending + PENDING_RANGE - 1) % PENDING_RANGE)
  }

  function Change(cost: Cost, r: Radio, now: real, newState: State, nested: Calls): Radio
    requires r.pending < PENDING_RANGE
    decreases nested, 1
  {
    var charged := Charge(cost, r, now).(pending := (r.pending + 1) % PENDING_RANGE);
    Settle(Update(cost, charged, now, nested), newState)
  }

  function Update(cost: Cost, r: Radio, now: real, calls: Calls): (r': Radio)
    requires r.pending < PENDING_RANGE
    ensures r'.pending == r.pending
    decreases calls, 0
  {
    match calls
    case Done => r
    case Then(newState, nested, rest) => Update(cost, Change(cost, r, now, newState, nested), now, rest)
  }

  class WifiRadioEnergyModel {
    var supply: Supply
    var currentState: State
    var lastUpdateTime: real
    var totalEnergyConsumption: real
    var idleTime: real
    var txTime: real
    var rxTime: real
    var nPendingChangeState: nat

    constructor (supply: Supply)
      ensures this.supply == supply && Snapshot() == INITIAL
    {
      this.supply := supply;
      currentState, lastUpdateTime, totalEnergyConsumption := IDLE, 0.0, 0.0;
      idleTime, txTime, rxTime, nPendingChangeState := 0.0, 0.0, 0.0, 0;
    }

    function Snapshot(): Radio
      reads this
    {
      Radio(currentState, lastUpdateTime, totalEnergyConsumption, idleTime, txTime, rxTime, nPendingChangeState)
    }

    method SetTxCurrentA(tx: real)
      modifies this
      ensures supply == old(supply).(tx := tx) && Snapshot() == old(Snapshot())
    {
      supply := supply.(tx := tx);
    }

    /** Charges the time since the last update to the current state. */
    method ChargeElapsed(now: real)
      modifies this
      ensures supply == old(supply) && Snapshot() == Charge(CostOf(supply), old(Snapshot()), now)
    {
      var duration := now - lastUpdateTime;
      var energyToDecrease := 0.0;
      match currentState {
        case IDLE =>
          energyToDecrease := duration * supply.idle * supply.voltage;
          idleTime := idleTime + duration;
        case CCA_BUSY =>
          energyToDecrease := duration * supply.ccaBusy * supply.voltage;
        case TX =>
          energyToDecrease := duration * supply.tx * supply.voltage;
          txTime := txTime + duration;
        case RX =>
          energyToDecrease := duration * supply.rx * supply.voltage;
          rxTime := rxTime + duration;
        case SWITCHING =>
          energyToDecrease := duration * supply.switching * supply.voltage;
        case SLEEP =>
          energyToDecrease := duration * supply.sleep * supply.voltage;
        case OFF =>
      }
      totalEnergyConsumption := totalEnergyConsumption + energyToDecrease;
      lastUpdateTime := now;
    }

    method ChangeState(newState: State, now: real, nested: Calls)
      requires nPendingChangeState < PENDING_RANGE
      modifies this
      ensures nPendingChangeState == old(nPendingChangeState) && supply == old(supply)
      ensures Snapshot() == Change(CostOf(supply), old(Snapshot()), now, newState, nested)
      decreases nested, 1
    {
      ChargeElapsed(now);
      nPendingChangeState := (nPendingChangeState + 1) % PENDING_RANGE;
      UpdateEnergySource(now, nested);
      SetIfOutermost(newState);
    }

    method SetIfOutermost(newState: State)
      modifies this
      ensures supply == old(supply) && Snapshot() == Settle(old(Snapshot()), newState)
    {
      if nPendingChangeState <= 1 && currentState != OFF {
        currentState := newState;
      }
      nPendingChangeState := (nPendingChangeState + PENDING_RANGE - 1) % PENDING_RANGE;
    }

    /** The energy source's reaction, as far as it reaches this radio. */
    method UpdateEnergySource(now: real, calls: Calls)
      requires nPendingChangeState < PENDING_RANGE
      modifies this
      ensures nPendingChangeState == old(nPendingChangeState) && supply == old(supply)
      ensures Snapshot() == Update(CostOf(supply), old(Snapshot()), now, calls)
      decreases calls, 0
    {
      match calls {
        case Done =>
        case Then(newState, nested, rest) =>
          ChangeState(newState, now, nested);
          UpdateEnergySource(now, rest);
      }
    }

    method GetTotalEnergyConsumption(now: real, calls: Calls) returns (energy: real)
      requires nPendingChangeState < PENDING_RANGE
      modifies this
      ensures supply == old(supply)
      ensures Snapshot() == Update(CostOf(supply), old(Snapshot()), now, calls)
      ensures energy == Snapshot().total + CostOf(supply)(old(currentState), now - old(lastUpdateTime))
    {
      var duration := now - lastUpdateTime;
      var energyToDecrease := duration * StateA(supply, currentState) * supply.voltage;
      UpdateEnergySource(now, calls);
      energy := totalEnergyConsumption + energyToDecrease;
    }
  }

  // ---- Re-entrant calls ----

  /** No time costs no energy. */
  ghost predicate NoTimeIsFree(cost: Cost) {
    forall state :: cost(state, 0.0) == 0.0
  }

  lemma CostOfNoTime(s: Supply)
    ensures NoTimeIsFree(CostOf(s))
  {
  }

  lemma ChargeTwice(cost: Cost, r: Radio, now: real)
    requires NoTimeIsFree(cost) && r.last == now
    ensures Charge(cost, r, now) == r
  {
  }

  /** Calls from inside a change of state do nothing, as long as the counter does not run over. */
  lemma {:induction false} NestedDoNothing(cost: Cost, r: Radio, now: real, calls: Calls)
    requires NoTimeIsFree(cost) && r.last == now
    requires 1 <= r.pending && r.pending + Levels(calls) < PENDING_RANGE
    ensures Update(cost, r, now, calls) == r
    decreases calls, 1
  {
    match calls
    case Done =>
    case Then(newState, nested, rest) =>
      InnerChangeDoesNothing(cost, r, now, newState, nested);
      NestedDoNothing(cost, r, now, rest);
  }

  lemma InnerChangeDoesNothing(cost: Cost, r: Radio, now: real, newState: State, nested: Calls)
    requires NoTimeIsFree(cost) && r.last == now
    requires 1 <= r.pending && r.pending + 1 + Levels(nested) < PENDING_RANGE
    ensures Change(cost, r, now, newState, nested) == r
    decreases nested, 2
  {
    var inner := r.(pending := r.pending + 1);
    assert Charge(cost, r, now).(pending := (r.pending + 1) % PENDING_RANGE) == inner by { ChargeTwice(cost, r, now); }
    assert Update(cost, inner, now, nested) == inner by { NestedDoNothing(cost, inner, now, nested); }
    SettleInner(r, newState);
  }

  lemma SettleInner(r: Radio, newState: State)
    requires 1 <= r.pending < PENDING_RANGE
    ensures Settle(r.(pending := r.pending + 1), newState) == r
  {
  }

  /** What a change of state does when nothing calls back. */
  function PlainChange(cost: Cost, r: Radio, now: real, newState: State): Radio {
    Charge(cost, r, now).(state := if r.state == OFF then OFF else newState)
  }

  /** Every tree of nested calls this deep leaves a change of state what it is without them. */
  ghost predicate ReentrancySafe(levels: nat) {
    forall s: Supply, r: Radio, now: real, newState: State, nested: Calls ::
      r.pending == 0 && Levels(nested) <= levels ==>
        Change(CostOf(s), r, now, newState, nested) == PlainChange(CostOf(s), r, now, newState)
  }

  lemma ChangeIsPlain(cost: Cost, r: Radio, now: real, newState: State, nested: Calls)
    requires NoTimeIsFree(cost) && r.pending == 0 && Levels(nested) < PENDING_RANGE - 1
    ensures Change(cost, r, now, newState, nested) == PlainChange(cost, r, now, newState)
  {
    var charged := Charge(cost, r, now).(pending := 1);
    assert Charge(cost, r, now).(pending := (r.pending + 1) % PENDING_RANGE) == charged;
    assert Update(cost, charged, now, nested) == charged by { NestedDoNothing(cost, charged, now, nested); }
    ChangeUnfolds(cost, r, now, newState, nested);
    SettleOuter(charged, newState);
  }

  lemma ChangeUnfolds(cost: Cost, r: Radio, now: real, newState: State, nested: Calls)
    requires r.pending < PENDING_RANGE
    ensures var charged := Charge(cost, r, now).(pending := (r.pending + 1) % PENDING_RANGE);
      Change(cost, r, now, newState, nested) == Settle(Update(cost, charged, now, nested), newState)
  {
  }

  lemma SettleOuter(r: Radio, newState: State)
    requires r.pending == 1
    ensures Settle(r, newState) == r.(pending := 0, state := if r.state == OFF then OFF else newState)
  {
  }

  /**
   * Re-entrancy: elapsed time is charged once, the pending counter is restored, only the outermost call sets the
   * state and OFF is never left, for every tree of nested calls of up to 254 levels, and not for deeper ones.
   */
  lemma ReentrancySafeIff(levels: nat)
    ensures ReentrancySafe(levels) <==> levels < 255
  {
    if levels < PENDING_RANGE - 1 {
      forall s: Supply, r: Radio, now: real, newState: State, nested: Calls
        | r.pending == 0 && Levels(nested) <= levels
        ensures Change(CostOf(s), r, now, newState, nested) == PlainChange(CostOf(s), r, now, newState)
      {
        CostOfNoTime(s);
        ChangeIsPlain(CostOf(s), r, now, newState, nested);
      }
    } else {
      var s, calls := Supply(0.0, 0.0, 0.0, 0.0, 0.0, 0.0, 0.0), Chain(PENDING_RANGE - 1);
      CostOfNoTime(s);
      ChainLevels(PENDING_RANGE - 1);
      ChargeTwice(CostOf(s), INITIAL, 0.0);
      ChainSwitchesOff(CostOf(s), INITIAL.(pending := 1), 0.0, PENDING_RANGE - 1);
      assert Change(CostOf(s), INITIAL, 0.0, TX, calls).state == OFF;
    }
  }

  /** A switch to OFF made from inside a change of state is lost: the radio ends in the state of the outer call. */
  lemma NestedOffIsLost(s: Supply, r: Radio, now: real, newState: State, nested: Calls, rest: Calls)
    requires r.pending == 0 && r.state != OFF && newState != OFF
    requires Levels(Then(OFF, nested, rest)) < PENDING_RANGE - 1
    ensures Change(CostOf(s), r, now, newState, Then(OFF, nested, rest)).state == newState
  {
    CostOfNoTime(s);
    ChangeIsPlain(CostOf(s), r, now, newState, Then(OFF, nested, rest));
  }

  /** n calls to OFF, each from inside the one before. */
  function Chain(n: nat): Calls {
    if n == 0 then Done else Then(OFF, Chain(n - 1), Done)
  }

  lemma {:induction false} ChainLevels(n: nat)
    ensures Levels(Chain(n)) == n
  {
    if n > 0 {
      ChainLevels(n - 1);
    }
  }

  /** When the counter runs over, the innermost call takes itself for an outermost one. */
  lemma {:induction false} ChainSwitchesOff(cost: Cost, r: Radio, now: real, n: nat)
    requires NoTimeIsFree(cost) && r.last == now && r.state != OFF
    requires 1 <= n && 1 <= r.pending && r.pending + n == PENDING_RANGE
    ensures Update(cost, r, now, Chain(n)) == r.(state := OFF)
    decreases n
  {
    var charged := r.(pending := (r.pending + 1) % PENDING_RANGE);
    assert Charge(cost, r, now) == r by { ChargeTwice(cost, r, now); }
    assert Settle(Update(cost, charged, now, Chain(n - 1)), OFF) == r.(state := OFF) by {
      if n == 1 {
        SettleOverrun(r);
      } else {
        ChainSwitchesOff(cost, charged, now, n - 1);
        SettleInner(r.(state := OFF), OFF);
      }
    }
    OneCall(cost, r, now, Chain(n - 1));
  }

  lemma OneCall(cost: Cost, r: Radio, now: real, nested: Calls)
    requires r.pending < PENDING_RANGE
    ensures var charged := Charge(cost, r, now).(pending := (r.pending + 1) % PENDING_RANGE);
      Update(cost, r, now, Then(OFF, nested, Done)) == Settle(Update(cost, charged, now, nested), OFF)
  {
  }

  lemma SettleOverrun(r: Radio)
    requires r.pending == PENDING_RANGE - 1 && r.state != OFF
    ensures Settle(r.(pending := 0), OFF) == r.(state := OFF)
  {
  }

  // ---- The energy total ----

  /** Two radios agree in everything that a charge adds to. */
  predicate SameTotals(a: Radio, b: Radio) {
    a.last == b.last && a.total == b.total && a.idleTime == b.idleTime && a.txTime == b.txTime && a.rxTime == b.rxTime
  }

  /** Further calls at an instant that is already charged change no total. */
  lemma {:induction false} InstantIsFree(cost: Cost, r: Radio, now: real, calls: Calls)
    requires NoTimeIsFree(cost) && r.pending < PENDING_RANGE && r.last == now
    ensures SameTotals(Update(cost, r, now, calls), r)
    decreases calls
  {
    match calls
    case Done =>
    case Then(newState, nested, rest) =>
      ChargeTwice(cost, r, now);
      InstantIsFree(cost, r.(pending := (r.pending + 1) % PENDING_RANGE), now, nested);
      InstantIsFree(cost, Change(cost, r, now, newState, nested), now, rest);
  }

  /** A change of state charges the elapsed time once, whatever it calls. */
  lemma ChangeTotal(cost: Cost, r: Radio, now: real, newState: State, nested: Calls)
    requires NoTimeIsFree(cost) && r.pending < PENDING_RANGE
    ensures SameTotals(Change(cost, r, now, newState, nested), Charge(cost, r, now))
  {
    InstantIsFree(cost, Charge(cost, r, now).(pending := (r.pending + 1) % PENDING_RANGE), now, nested);
  }

  /** With no calls, or with no cost so far, nothing is counted twice; otherwise the first call charges it again. */
  lemma CountedTwiceUnless(
    cost: Cost, r: Radio, now: real, calls: Calls, newState: State, nested: Calls, used: real)
    requires NoTimeIsFree(cost) && r.pending < PENDING_RANGE && used == cost(r.state, now - r.last)
    ensures (Update(cost, r, now, calls).total + used == Change(cost, r, now, newState, nested).total)
      <==> (calls == Done || used == 0.0)
  {
    ChangeTotal(cost, r, now, newState, nested);
    if calls.Then? {
      ChangeTotal(cost, r, now, calls.newState, calls.nested);
      InstantIsFree(cost, Change(cost, r, now, calls.newState, calls.nested), now, calls.rest);
    }
  }

  /**
   * GetTotalEnergyConsumption, whose updating of the energy source leads to calls, returns what a change of state at
   * that instant would store if and only if there are no such calls, or nothing was used since the last update.
   * Otherwise the first call charges the same time, which is then counted twice.
   */
  lemma ConsumptionExactIff(s: Supply, r: Radio, now: real, calls: Calls, newState: State, nested: Calls)
    requires r.pending < PENDING_RANGE
    ensures var current := match r.state
        case IDLE => s.idle
        case CCA_BUSY => s.ccaBusy
        case TX => s.tx
        case RX => s.rx
        case SWITCHING => s.switching
        case SLEEP => s.sleep
        case OFF => 0.0;
      var used := (now - r.last) * current * s.voltage;
      (Update(CostOf(s), r, now, calls).total + used == Change(CostOf(s), r, now, newState, nested).total)
      <==> (calls == Done || used == 0.0)
  {
    CostOfNoTime(s);
    CountedTwiceUnless(CostOf(s), r, now, calls, newState, nested, CostOf(s)(r.state, now - r.last));
  }

  // ---- The total is the integral over the trace ----

  /** A change of state from outside: when, to what, the calls it leads to, and the currents and voltage just before. */
  datatype Event = Event(time: real, newState: State, nested: Calls, supply: Supply)

  function Run(events: seq<Event>): (r: Radio)
    ensures r.pending == 0
  {
    if events == [] then INITIAL
    else
      var e := events[|events| - 1];
      Change(CostOf(e.supply), Run(events[..|events| - 1]), e.time, e.newState, e.nested)
  }

  function LastTime(events: seq<Event>): real {
    if events == [] then 0.0 else events[|events| - 1].time
  }

  /** The time between the last two events. */
  function LastStay(events: seq<Event>): real
    requires events != []
  {
    LastTime(events) - LastTime(events[..|events| - 1])
  }

  /** The time spent in a state from the start to the last event. */
  function TimeIn(events: seq<Event>, state: State): real {
    if events == [] then 0.0
    else
      var before := events[..|events| - 1];
      TimeIn(before, state) + (if Run(before).state == state then LastStay(events) else 0.0)
  }

  /** The energy of every stay between two events, at the currents and the voltage that hold at its end. */
  function EnergyOfStays(events: seq<Event>): real {
    if events == [] then 0.0
    else
      var before := events[..|events| - 1];
      EnergyOfStays(before) + CostOf(events[|events| - 1].supply)(Run(before).state, LastStay(events))
  }

  /**
   * The accounting is exact over every run, however deep calls nest and however the currents change: the total is the
   * energy of the stays, the clock is at the last event, and each of the three times is the time spent in its state.
   */
  lemma {:induction false} TotalsFollowStays(events: seq<Event>)
    ensures var r := Run(events);
      && r.total == EnergyOfStays(events) && r.last == LastTime(events)
      && r.idleTime == TimeIn(events, IDLE) && r.txTime == TimeIn(events, TX) && r.rxTime == TimeIn(events, RX)
  {
    if events != [] {
      var before, e := events[..|events| - 1], events[|events| - 1];
      TotalsFollowStays(before);
      CostOfNoTime(e.supply);
      ChangeTotal(CostOf(e.supply), Run(before), e.time, e.newState, e.nested);
    }
  }

  /** The states asked for from outside: the last one, unless OFF was reached. */
  function StateAfter(events: seq<Event>): State {
    if events == [] then IDLE
    else if StateAfter(events[..|events| - 1]) == OFF then OFF
    else events[|events| - 1].newState
  }

  /** The stays are in the states asked for from outside, as long as the pending counter does not run over. */
  lemma {:induction false} StateFollowsEvents(events: seq<Event>)
    requires forall e :: e in events ==> Levels(e.nested) < PENDING_RANGE - 1
    ensures Run(events).state == StateAfter(events)
  {
    if events != [] {
      var before, e := events[..|events| - 1], events[|events| - 1];
      StateFollowsEvents(before);
      assert e in events;
      CostOfNoTime(e.supply);
      ChangeIsPlain(CostOf(e.supply), Run(before), e.time, e.newState, e.nested);
    }
  }

  function SumOverStates(f: State -> real): real {
    f(IDLE) + f(CCA_BUSY) + f(TX) + f(RX) + f(SWITCHING) + f(SLEEP) + f(OFF)
  }

  /** The cost of all the time spent in each state, summed over the states. */
  function CostByState(cost: Cost, events: seq<Event>): real {
    SumOverStates((state: State) => cost(state, TimeIn(events, state)))
  }

  lemma OneStateMore(f: State -> real, g: State -> real, at: State, more: real)
    requires forall state :: g(state) == f(state) + (if state == at then more else 0.0)
    ensures SumOverStates(g) == SumOverStates(f) + more
  {
  }

  /** Longer stays cost the sum of their parts. */
  ghost predicate Additive(cost: Cost) {
    forall state, a, b :: Adds(cost, state, a, b)
  }

  ghost predicate Adds(cost: Cost, state: State, a: real, b: real) {
    cost(state, a + b) == cost(state, a) + cost(state, b)
  }

  lemma CostOfAdditive(s: Supply)
    ensures Additive(CostOf(s))
  {
    forall state, a, b ensures Adds(CostOf(s), state, a, b) {
      Distributes(a, b, StateA(s, state), s.voltage);
    }
  }

  lemma Distributes(a: real, b: real, c: real, v: real)
    ensures (a + b) * c * v == a * c * v + b * c * v
  {
  }

  lemma {:induction false} StaysByState(s: Supply, events: seq<Event>)
    requires forall e :: e in events ==> e.supply == s
    ensures EnergyOfStays(events) == CostByState(CostOf(s), events)
  {
    CostOfNoTime(s);
    if events != [] {
      var before := events[..|events| - 1];
      StaysByState(s, before);
      assert events[|events| - 1] in events;
      CostOfAdditive(s);
      OneMoreStay(CostOf(s), events);
    } else {
      assert forall state :: CostOf(s)(state, TimeIn(events, state)) == 0.0;
    }
  }

  lemma OneMoreStay(cost: Cost, events: seq<Event>)
    requires events != [] && Additive(cost)
    ensures var before := events[..|events| - 1];
      CostByState(cost, events) == CostByState(cost, before) + cost(Run(before).state, LastStay(events))
  {
    var before := events[..|events| - 1];
    var left, d := Run(before).state, LastStay(events);
    var f := (state: State) => cost(state, TimeIn(before, state));
    var g := (state: State) => cost(state, TimeIn(events, state));
    assert Adds(cost, left, TimeIn(before, left), d);
    forall state ensures g(state) == f(state) + (if state == left then cost(left, d) else 0.0) {
      assert TimeIn(events, state) == TimeIn(before, state) + (if state == left then d else 0.0);
    }
    OneStateMore(f, g, left, cost(left, d));
  }

  /** The radio's three times and the time in the other states add up to the time of the last update. */
  lemma {:induction false} TimesAddUp(events: seq<Event>)
    ensures var r := Run(events);
      r.idleTime + r.txTime + r.rxTime + TimeIn(events, CCA_BUSY) + TimeIn(events, SWITCHING) + TimeIn(events, SLEEP)
        + TimeIn(events, OFF) == r.last
  {
    TotalsFollowStays(events);
    if events != [] {
      TimesAddUp(events[..|events| - 1]);
      TotalsFollowStays(events[..|events| - 1]);
    }
  }

  /** Times in the states, whatever they are the times of. */
  type Times = State -> real

  function CostAt(cost: Cost, time: Times): State -> real {
    (state: State) => cost(state, time(state))
  }

  lemma SumPerState(s: Supply, time: Times)
    ensures SumOverStates(CostAt(CostOf(s), time))
      == time(IDLE) * s.idle * s.voltage + time(CCA_BUSY) * s.ccaBusy * s.voltage + time(TX) * s.tx * s.voltage
        + time(RX) * s.rx * s.voltage + time(SWITCHING) * s.switching * s.voltage + time(SLEEP) * s.sleep * s.voltage
  {
  }

  lemma SameCost(cost: Cost, events: seq<Event>, time: Times)
    requires forall state :: time(state) == TimeIn(events, state)
    ensures CostByState(cost, events) == SumOverStates(CostAt(cost, time))
  {
  }

  lemma TotalByState(s: Supply, events: seq<Event>)
    requires forall e :: e in events ==> e.supply == s
    ensures Run(events).total == CostByState(CostOf(s), events)
  {
    TotalsFollowStays(events);
    StaysByState(s, events);
  }

  /**
   * Over every run with fixed currents and voltage, the total is the sum over the states of time spent there times
   * current times voltage; being off takes nothing.
   */
  lemma TotalIsTraceIntegral(s: Supply, events: seq<Event>)
    requires forall e :: e in events ==> e.supply == s
    ensures Run(events).total
      == TimeIn(events, IDLE) * s.idle * s.voltage + TimeIn(events, CCA_BUSY) * s.ccaBusy * s.voltage
        + TimeIn(events, TX) * s.tx * s.voltage + TimeIn(events, RX) * s.rx * s.voltage
        + TimeIn(events, SWITCHING) * s.switching * s.voltage + TimeIn(events, SLEEP) * s.sleep * s.voltage
  {
    TotalByState(s, events);
    CostSpelled(s, events);
  }

  lemma CostSpelled(s: Supply, events: seq<Event>)
    ensures CostByState(CostOf(s), events)
      == TimeIn(events, IDLE) * s.idle * s.voltage + TimeIn(events, CCA_BUSY) * s.ccaBusy * s.voltage
        + TimeIn(events, TX) * s.tx * s.voltage + TimeIn(events, RX) * s.rx * s.voltage
        + TimeIn(events, SWITCHING) * s.switching * s.voltage + TimeIn(events, SLEEP) * s.sleep * s.voltage
  {
    var time := (state: State) => TimeIn(events, state);
    SameCost(CostOf(s), events, time);
    SumPerState(s, time);
  }
}
