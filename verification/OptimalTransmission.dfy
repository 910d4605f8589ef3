/**
 * The decision table of the OptTM policy: rewards for the next hundred decision slots, and a backward dynamic
 * program over them. Rewards are 32-bit; values and thresholds are real.
 */
module OptimalTransmission {
  import opened PacketQueues

  const SLOTS := 100
  const UINT32 := 0x1_0000_0000
  const NS_PER_MS := 1_000_000

  // ---- Rewards ----

  function Milliseconds(t: int): int {
    t / NS_PER_MS
  }

  /** What the loop over j adds for one earlier decision. */
  function StepBonus(j: int): int {
    if j < 8 then 30000 - j * 4000 else 0
  }

  /** The slack of one entry at time t, as the loop over the queue adds it. */
  function Slack(e: QueueEntry, t: int): int {
    if e.deadline >= t then Milliseconds(e.deadline) - Milliseconds(t) else 0
  }

  function TotalSlack(q: seq<QueueEntry>, t: int): int {
    if q == [] then 0 else TotalSlack(q[..|q| - 1], t) + Slack(q[|q| - 1], t)
  }

  /** The sum of StepBonus(j) for 1 <= j < n. */
  function TotalBonus(n: int): int {
    if n <= 1 then 0 else TotalBonus(n - 1) + StepBonus(n - 1)
  }

  /** The reward of slot i before it is cut to 32 bits. */
  function FullReward(q: seq<QueueEntry>, now: int, period: int, step: nat, i: nat): int {
    TotalSlack(q, now + i * period) + TotalBonus(i + step)
  }

  function Rewards(q: seq<QueueEntry>, now: int, period: int, step: nat): (r: seq<int>)
    ensures |r| == SLOTS && forall i :: 0 <= i < SLOTS ==> 0 <= r[i] < UINT32
  {
    seq(SLOTS, i requires 0 <= i < SLOTS => FullReward(q, now, period, step, i) % UINT32)
  }

  function Min(a: int, b: int): int { if a < b then a else b }
  function Max(a: int, b: int): int { if a < b then b else a }

  /** The bonus sum stops growing after seven decisions. */
  lemma {:induction false} BonusClosedForm(n: int)
    ensures var m := Min(7, Max(0, n - 1)); TotalBonus(n) == 30000 * m - 2000 * m * (m + 1)
    decreases n
  {
    if n > 1 {
      BonusClosedForm(n - 1);
    }
  }

  lemma {:induction false} SlackClosedForm(q: seq<QueueEntry>, t: int)
    ensures TotalSlack(q, t) == SumOfGaps(q, t)
  {
    if q != [] {
      SlackClosedForm(q[..|q| - 1], t);
    }
  }

  /** The sum over the queue of max(0, deadline_ms - t_ms). */
  function SumOfGaps(q: seq<QueueEntry>, t: int): int {
    if q == [] then 0
    else SumOfGaps(q[..|q| - 1], t) + Max(0, q[|q| - 1].deadline / 1_000_000 - t / 1_000_000)
  }

  /** The reward of every slot in closed form, for every queue, step and slot. */
  lemma RewardClosedForm(q: seq<QueueEntry>, now: int, period: int, step: nat, i: nat)
    requires i < SLOTS
    ensures var m := Min(7, Max(0, i + step - 1));
      Rewards(q, now, period, step)[i]
        == (SumOfGaps(q, now + i * period) + 30000 * m - 2000 * m * (m + 1)) % UINT32
  {
    BonusClosedForm(i + step);
    SlackClosedForm(q, now + i * period);
  }

  lemma {:induction false} SlackShrinks(q: seq<QueueEntry>, t: int, u: int)
    requires t <= u
    ensures 0 <= TotalSlack(q, u) <= TotalSlack(q, t)
  {
    if q != [] {
      SlackShrinks(q[..|q| - 1], t, u);
    }
  }

  lemma BonusBounded(n: int)
    ensures 0 <= TotalBonus(n) <= 98000
    ensures n >= 8 <==> TotalBonus(n) == 98000
  {
    BonusClosedForm(n);
  }

  // ---- The dynamic program ----

  function MaxOf(r: seq<int>): (m: int)
    ensures m >= 0
  {
    if r == [] then 0 else Max(MaxOf(r[..|r| - 1]), r[|r| - 1])
  }

  lemma {:induction false} MaxOfIsMax(r: seq<int>)
    requires forall i :: 0 <= i < |r| ==> r[i] >= 0
    ensures forall i :: 0 <= i < |r| ==> r[i] <= MaxOf(r)
    ensures r != [] ==> exists i :: 0 <= i < |r| && r[i] == MaxOf(r)
  {
    if r != [] {
      var front := r[..|r| - 1];
      MaxOfIsMax(front);
      forall i | 0 <= i < |r| ensures r[i] <= MaxOf(r) {
        if i < |r| - 1 { assert r[i] == front[i]; }
      }
      if MaxOf(r) == r[|r| - 1] {
      } else {
        assert front != [];
        var i :| 0 <= i < |front| && front[i] == MaxOf(front);
        assert r[i] == MaxOf(r);
      }
    }
  }

  function RMax(a: real, b: real): real { if a > b then a else b }

  /** The weighted sum inside the backward loop for slot i. */
  function Blend(i: int, k: int, w: real, b: real): real
    requires k >= 0
  {
    i as real * w / (k + 1) as real + b / (k + 1) as real
  }

  /** rn[k]: the value of not transmitting at slot k, as the backward loop for slot i computes it. */
  function Wait(r: seq<int>, i: int, k: int): real
    requires |r| == SLOTS && 0 <= i < k < SLOTS
    decreases SLOTS - k, 0
  {
    if k == SLOTS - 1 then 0.0
    else RMax(0.0, Blend(i, k, Wait(r, i, k + 1), Best(r, i, k + 1)))
  }

  /** rb[k]: the better of the reward of slot k and the value of waiting there. */
  function Best(r: seq<int>, i: int, k: int): real
    requires |r| == SLOTS && 0 <= i < k < SLOTS
    decreases SLOTS - k, 1
  {
    if k == SLOTS - 1 then 1.0 else RMax(r[k] as real, Wait(r, i, k))
  }

  /** The action of slot i: 1 to wait, 2 to transmit; the last slot is never given one. */
  function Action(r: seq<int>, i: nat): int
    requires |r| == SLOTS && i < SLOTS
  {
    if i == SLOTS - 1 then 0
    else if r[i] < MaxOf(r) then 1
    else if r[i] >= Best(r, i, i + 1).Floor then 2
    else 1
  }

  /** One step of the backward recurrence, for i < k: a weighted sum whose weights add up to less than one. */
  lemma WaitStep(i: int, k: int, w: real, b: real, top: real)
    requires 0 <= i < k && 0.0 <= w <= b <= top && 0.0 < top
    ensures 0.0 <= Blend(i, k, w, b) < top
  {
    Weights(i as real, (k + 1) as real, w, b, top);
    Quotients(i as real * w, b, (k + 1) as real, top);
  }

  lemma Weights(c: real, n: real, w: real, b: real, top: real)
    requires 0.0 <= c && c + 1.0 < n && 0.0 <= w <= top && b <= top && 0.0 < top
    ensures 0.0 <= c * w && c * w + b < n * top
  {
    var ct, nt := Gap(c, n, top);
    var cw := c * w;
    assert 0.0 <= cw <= ct by { Scales(c, w, top); }
    assert cw + b < nt;
  }

  lemma Gap(c: real, n: real, top: real) returns (ct: real, nt: real)
    requires c + 1.0 < n && 0.0 < top
    ensures ct == c * top && nt == n * top && ct + top < nt
  {
    var d := n - c - 1.0;
    var dt := d * top;
    ct, nt := c * top, n * top;
    assert dt > 0.0 by { Positive(d, top); }
    assert nt == ct + top + dt by { Distributes(c, d, n, top); }
  }

  lemma Distributes(c: real, d: real, n: real, top: real)
    requires n == c + 1.0 + d
    ensures n * top == c * top + top + d * top
  {
  }

  lemma Positive(x: real, y: real)
    requires x > 0.0 && y > 0.0
    ensures x * y > 0.0
  {
  }

  lemma Scales(a: real, x: real, y: real)
    requires a >= 0.0 && 0.0 <= x <= y
    ensures 0.0 <= a * x <= a * y
  {
  }

  lemma Quotients(a: real, b: real, n: real, top: real)
    requires n > 0.0 && 0.0 <= a && 0.0 <= b && a + b < n * top
    ensures 0.0 <= a / n + b / n < top
  {
    assert a / n + b / n == (a + b) / n;
    assert (a + b) / n < n * top / n == top;
  }

  /** Waiting is worth less than any bound on the rewards that is at least one; so is the better of the two. */
  lemma {:induction false} ValuesBounded(r: seq<int>, i: int, k: int, top: real)
    requires |r| == SLOTS && 0 <= i < k < SLOTS
    requires 1.0 <= top && forall j :: 0 <= j < SLOTS ==> r[j] as real <= top
    ensures 0.0 <= Wait(r, i, k) <= Best(r, i, k) <= top && Wait(r, i, k) < top
    decreases SLOTS - k
  {
    if k < SLOTS - 1 {
      var w, b := Wait(r, i, k + 1), Best(r, i, k + 1);
      ValuesBounded(r, i, k + 1, top);
      WaitStep(i, k, w, b, top);
    }
  }

  /**
   * The dynamic program collapses: for every reward table, a slot transmits exactly when its reward is the greatest
   * of all hundred. Slot 98 also needs that reward to be at least one, and slot 99 never transmits.
   */
  lemma ActionCollapses(r: seq<int>, i: nat)
    requires |r| == SLOTS && i < SLOTS && forall j :: 0 <= j < SLOTS ==> r[j] >= 0
    ensures Action(r, i) == 2 <==>
      && (forall j :: 0 <= j < SLOTS ==> r[j] <= r[i])
      && (i <= 97 || (i == 98 && r[i] >= 1))
    ensures Action(r, i) == 0 <==> i == 99
  {
    MaxOfIsMax(r);
    if i <= 97 {
      ValuesBounded(r, i, i + 1, Max(MaxOf(r), 1) as real);
      var best := Best(r, i, i + 1);
      if MaxOf(r) >= 1 {
        assert best <= MaxOf(r) as real;
      } else {
        assert r[i + 1] == 0;
        assert best < 1.0;
      }
    }
  }

  /** Whether slot 0 says to transmit. */
  predicate TransmitsNow(r: seq<int>)
    requires |r| == SLOTS
  {
    Action(r, 0) > 1
  }

  lemma TransmitsNowIffGreatest(r: seq<int>)
    requires |r| == SLOTS && forall j :: 0 <= j < SLOTS ==> r[j] >= 0
    ensures TransmitsNow(r) <==> forall j :: 0 <= j < SLOTS ==> r[j] <= r[0]
  {
    ActionCollapses(r, 0);
  }

  /**
   * From the ninth call on OptTM transmits at once, whatever is queued: the bonus is the same in every slot and the
   * slack only shrinks. The hypothesis on the first reward says that no reward wraps around 32 bits.
   */
  lemma NinthCallTransmits(q: seq<QueueEntry>, now: int, period: int, step: nat)
    requires period >= 0 && step >= 8
    requires FullReward(q, now, period, step, 0) < UINT32
    ensures TransmitsNow(Rewards(q, now, period, step))
  {
    var r := Rewards(q, now, period, step);
    forall i | 0 <= i < SLOTS ensures r[i] <= r[0] {
      RewardNeverGrows(q, now, period, step, i);
    }
    TransmitsNowIffGreatest(r);
  }

  /** With the first reward under a bound, OptTM transmits from the ninth call on, whatever is queued. */
  ghost predicate NinthCallTransmitsBelow(bound: int) {
    forall q, now, period, step: nat :: period >= 0 && step >= 8 && FullReward(q, now, period, step, 0) < bound ==>
      TransmitsNow(Rewards(q, now, period, step))
  }

  /** That holds exactly for the bounds that 32 bits can tell apart. */
  lemma NinthCallTransmitsIff(bound: int)
    ensures NinthCallTransmitsBelow(bound) <==> bound <= 0x1_0000_0000
  {
    if bound <= UINT32 {
      forall q, now, period, step: nat | period >= 0 && step >= 8 && FullReward(q, now, period, step, 0) < bound
        ensures TransmitsNow(Rewards(q, now, period, step))
      {
        NinthCallTransmits(q, now, period, step);
      }
    } else {
      var q := WrapsToZero();
    }
  }

  /** An entry so far ahead that the first reward wraps to zero, while the second one is a millisecond less. */
  lemma WrapsToZero() returns (q: seq<QueueEntry>)
    ensures FullReward(q, 0, NS_PER_MS, 8, 0) == UINT32 && !TransmitsNow(Rewards(q, 0, NS_PER_MS, 8))
  {
    var e := QueueEntry([], 0, (UINT32 - 98000) * NS_PER_MS);
    q := [e];
    OneSlack(e, 0);
    OneSlack(e, NS_PER_MS);
    assert Slack(e, 0) == UINT32 - 98000 && Slack(e, NS_PER_MS) == UINT32 - 98001;
    BonusBounded(8);
    BonusBounded(9);
    var r := Rewards(q, 0, NS_PER_MS, 8);
    assert r[0] == 0 && r[1] == UINT32 - 1;
    TransmitsNowIffGreatest(r);
  }

  lemma OneSlack(e: QueueEntry, t: int)
    ensures TotalSlack([e], t) == Slack(e, t)
  {
    assert [e][..0] == [] && TotalSlack([], t) == 0;
  }

  lemma RewardNeverGrows(q: seq<QueueEntry>, now: int, period: int, step: nat, i: nat)
    requires period >= 0 && step >= 8
    ensures 0 <= FullReward(q, now, period, step, i) <= FullReward(q, now, period, step, 0)
  {
    SlackShrinks(q, now, now + i * period);
    BonusBounded(i + step);
    BonusBounded(step);
  }

  /** The bound is sharp: with nothing queued, OptTM transmits exactly from the ninth call on. */
  lemma EmptyQueueTransmitsIff(now: int, period: int, step: nat)
    ensures TransmitsNow(Rewards([], now, period, step)) <==> step >= 8
  {
    var r := Rewards([], now, period, step);
    assert forall i :: 0 <= i < SLOTS ==> r[i] == TotalBonus(i + step) <= 98000 by {
      forall i | 0 <= i < SLOTS ensures r[i] == TotalBonus(i + step) <= 98000 {
        EmptyQueueReward(now, period, step, i);
      }
    }
    assert r[8] == 98000 by { BonusBounded(8 + step); }
    assert r[0] == 98000 <==> step >= 8 by { BonusBounded(step); }
    TransmitsNowIffGreatest(r);
  }

  lemma EmptyQueueReward(now: int, period: int, step: nat, i: nat)
    requires i < SLOTS
    ensures Rewards([], now, period, step)[i] == TotalBonus(i + step) <= 98000
  {
    BonusBounded(i + step);
  }
}
