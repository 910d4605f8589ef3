/** Cluster-head election: who becomes head in which round, and with what chance. */
module Election {
  const ROUNDS_PER_CYCLE := 10

  /** The threshold of round j of a cycle of n rounds. */
  function Threshold(n: nat, j: nat): real
    requires j < n
  {
    var p := 1.0 / n as real;
    Below(n, j);
    p / (1.0 - p * j as real)
  }

  lemma Below(n: nat, j: nat)
    requires j < n
    ensures 1.0 - 1.0 / n as real * j as real == (n - j) as real / n as real > 0.0
  {
  }

  /** The chance that a node eligible before round i is passed over until round k and elected in it. */
  function ElectedIn(n: nat, i: nat, k: nat): real
    requires i <= k < n
    decreases k - i
  {
    if i == k then Threshold(n, k) else (1.0 - Threshold(n, i)) * ElectedIn(n, i + 1, k)
  }

  lemma ThresholdValue(n: nat, j: nat)
    requires j < n
    ensures Threshold(n, j) == 1.0 / (n - j) as real
  {
    Below(n, j);
    var a, b := n as real, (n - j) as real;
    assert 1.0 / a / (b / a) == 1.0 / b;
  }

  lemma PassedOver(threshold: real, later: real, b: real)
    requires b > 1.0 && threshold == 1.0 / b && later == 1.0 / (b - 1.0)
    ensures (1.0 - threshold) * later == 1.0 / b
  {
    assert 1.0 - 1.0 / b == (b - 1.0) * (1.0 / b);
    assert (b - 1.0) * (1.0 / (b - 1.0)) == 1.0;
  }

  lemma {:induction false} ElectedInAnyRound(n: nat, i: nat, k: nat)
    requires i <= k < n
    ensures ElectedIn(n, i, k) == 1.0 / (n - i) as real
    decreases k - i
  {
    ThresholdValue(n, i);
    if i < k {
      ElectedInAnyRound(n, i + 1, k);
      PassedOver(Threshold(n, i), ElectedIn(n, i + 1, k), (n - i) as real);
    }
  }

  /**
   * Every round of a cycle has the same share: the chance of not being elected before round k and then being elected
   * in it is 1/n, for every cycle length and every round.
   */
  lemma EqualShare(n: nat, k: nat)
    requires k < n
    ensures ElectedIn(n, 0, k) == 1.0 / n as real
  {
    ElectedInAnyRound(n, 0, k);
  }

  // ---- One node over many rounds ----

  /** The thresholds of the ten rounds of a cycle. */
  function Thresholds(): (t: seq<real>)
    ensures |t| == ROUNDS_PER_CYCLE
    ensures forall j :: 0 <= j < ROUNDS_PER_CYCLE ==> t[j] == Threshold(ROUNDS_PER_CYCLE, j)
    ensures t[9] == 1.0
  {
    ThresholdValue(ROUNDS_PER_CYCLE, 9);
    seq(ROUNDS_PER_CYCLE, j requires 0 <= j < ROUNDS_PER_CYCLE => Threshold(ROUNDS_PER_CYCLE, j))
  }

  /** What PeriodicUpdate decides from its draw: whether the node is head, and whether it stays eligible. */
  function Elect(t: seq<real>, round: nat, valid: bool, prob: real): (bool, bool)
    requires |t| == ROUNDS_PER_CYCLE
  {
    var eligible := round % ROUNDS_PER_CYCLE == 0 || valid;
    var head := prob < t[round % ROUNDS_PER_CYCLE] && eligible;
    (head, eligible && !head)
  }

  lemma Elects(round: nat, valid: bool, prob: real)
    ensures var eligible := round % ROUNDS_PER_CYCLE == 0 || valid;
      var head := prob < Threshold(ROUNDS_PER_CYCLE, round % ROUNDS_PER_CYCLE) && eligible;
      Elect(Thresholds(), round, valid, prob) == (head, eligible && !head)
  {
  }

  datatype History = History(heads: seq<bool>, valid: bool)

  /** The rounds a node was head in, and its eligibility, after one call per draw; valid0 is its first content. */
  function Run(t: seq<real>, probs: seq<real>, valid0: bool): (h: History)
    requires |t| == ROUNDS_PER_CYCLE
    ensures |h.heads| == |probs|
  {
    if probs == [] then History([], valid0)
    else
      var before := Run(t, probs[..|probs| - 1], valid0);
      var (head, valid) := Elect(t, |probs| - 1, before.valid, probs[|probs| - 1]);
      History(before.heads + [head], valid)
  }

  function Rounds(probs: seq<real>, valid0: bool): (h: History)
    ensures |h.heads| == |probs|
  {
    Run(Thresholds(), probs, valid0)
  }

  predicate Draws(probs: seq<real>) {
    forall i :: 0 <= i < |probs| ==> 0.0 <= probs[i] < 1.0
  }

  /** How often a node was head in the rounds from lo up to hi. */
  function HeadsIn(heads: seq<bool>, lo: nat, hi: nat): nat
    requires lo <= hi <= |heads|
  {
    if lo == hi then 0 else HeadsIn(heads, lo, hi - 1) + (if heads[hi - 1] then 1 else 0)
  }

  lemma {:induction false} HeadsInPrefix(heads: seq<bool>, more: seq<bool>, lo: nat, hi: nat)
    requires lo <= hi <= |heads|
    ensures HeadsIn(heads + more, lo, hi) == HeadsIn(heads, lo, hi)
  {
    if lo < hi {
      HeadsInPrefix(heads, more, lo, hi - 1);
    }
  }

  lemma HeadsInSnoc(heads: seq<bool>, head: bool, lo: nat)
    requires lo <= |heads|
    ensures HeadsIn(heads + [head], lo, |heads| + 1) == HeadsIn(heads, lo, |heads|) + (if head then 1 else 0)
  {
    HeadsInPrefix(heads, [head], lo, |heads|);
  }

  lemma {:induction false} HeadsInSplit(heads: seq<bool>, lo: nat, mid: nat, hi: nat)
    requires lo <= mid <= hi <= |heads|
    ensures HeadsIn(heads, lo, hi) == HeadsIn(heads, lo, mid) + HeadsIn(heads, mid, hi)
  {
    if mid < hi {
      HeadsInSplit(heads, lo, mid, hi - 1);
    }
  }

  /**
   * After j rounds of cycle c: a node is eligible exactly until it has been head, and once all ten rounds are over it
   * has been head once.
   */
  lemma {:induction false} CycleState(t: seq<real>, probs: seq<real>, valid0: bool, c: nat, j: nat)
    requires |t| == ROUNDS_PER_CYCLE && t[9] == 1.0 && Draws(probs)
    requires j <= ROUNDS_PER_CYCLE && |probs| == c * ROUNDS_PER_CYCLE + j
    ensures var (h, start) := (Run(t, probs, valid0), c * ROUNDS_PER_CYCLE);
      && (j > 0 ==> HeadsIn(h.heads, start, start + j) == if h.valid then 0 else 1)
      && (j == ROUNDS_PER_CYCLE ==> !h.valid)
    decreases j
  {
    if j > 0 {
      var start := c * ROUNDS_PER_CYCLE;
      var k := |probs| - 1;
      var before := Run(t, probs[..k], valid0);
      CycleState(t, probs[..k], valid0, c, j - 1);
      var count := HeadsIn(before.heads, start, k);
      assert j == 1 ==> count == 0;
      PlaceInCycle(c, j - 1);
      ElectStep(t, k, j - 1, before.valid, probs[k], count);
      HeadsInSnoc(before.heads, Elect(t, k, before.valid, probs[k]).0, start);
      var (head, valid) := Elect(t, k, before.valid, probs[k]);
      assert Run(t, probs, valid0) == History(before.heads + [head], valid);
    }
  }

  lemma PlaceInCycle(c: nat, j: nat)
    requires j < ROUNDS_PER_CYCLE
    ensures (c * ROUNDS_PER_CYCLE + j) % ROUNDS_PER_CYCLE == j
  {
  }

  /** One round: count is how often the node has been head in the j rounds of the cycle before. */
  lemma ElectStep(t: seq<real>, round: nat, j: nat, valid: bool, prob: real, count: nat)
    requires |t| == ROUNDS_PER_CYCLE && t[9] == 1.0 && prob < 1.0
    requires round % ROUNDS_PER_CYCLE == j && count == if j == 0 || valid then 0 else 1
    ensures var (head, valid') := Elect(t, round, valid, prob);
      && count + (if head then 1 else 0) == (if valid' then 0 else 1)
      && (j == 9 ==> !valid')
  {
  }

  /** In every finished aligned cycle of ten rounds a node is head exactly once. */
  lemma {:induction false} OncePerCycle(probs: seq<real>, valid0: bool, c: nat)
    requires Draws(probs) && (c + 1) * ROUNDS_PER_CYCLE <= |probs|
    ensures HeadsIn(Rounds(probs, valid0).heads, c * 10, (c + 1) * 10) == 1
    decreases |probs|
  {
    var k := |probs|;
    if (c + 1) * ROUNDS_PER_CYCLE < k {
      OncePerCycle(probs[..k - 1], valid0, c);
      var heads := Rounds(probs[..k - 1], valid0).heads;
      HeadsInPrefix(heads, [Rounds(probs, valid0).heads[k - 1]], c * ROUNDS_PER_CYCLE, (c + 1) * ROUNDS_PER_CYCLE);
    } else {
      CycleState(Thresholds(), probs, valid0, c, ROUNDS_PER_CYCLE);
    }
  }

  lemma {:induction false} HeadsInWholeCycles(probs: seq<real>, valid0: bool, c: nat)
    requires Draws(probs) && c * ROUNDS_PER_CYCLE <= |probs|
    ensures HeadsIn(Rounds(probs, valid0).heads, 0, c * ROUNDS_PER_CYCLE) == c
  {
    if c > 0 {
      HeadsInWholeCycles(probs, valid0, c - 1);
      OncePerCycle(probs, valid0, c - 1);
      HeadsInSplit(Rounds(probs, valid0).heads, 0, (c - 1) * ROUNDS_PER_CYCLE, c * ROUNDS_PER_CYCLE);
    }
  }

  /** Fairness: after any k rounds with any draws, a node has been head floor(k/10) or ceil(k/10) times. */
  lemma ElectionIsFair(probs: seq<real>, valid0: bool)
    requires Draws(probs)
    ensures var (k, n) := (|probs|, HeadsIn(Rounds(probs, valid0).heads, 0, |probs|));
      k / 10 <= n <= (k + 9) / 10
  {
    HeadsAfter(probs, valid0, |probs| / ROUNDS_PER_CYCLE, |probs| % ROUNDS_PER_CYCLE);
  }

  lemma HeadsAfter(probs: seq<real>, valid0: bool, c: nat, j: nat)
    requires Draws(probs) && |probs| == c * ROUNDS_PER_CYCLE + j && j < ROUNDS_PER_CYCLE
    ensures c <= HeadsIn(Rounds(probs, valid0).heads, 0, |probs|) <= c + (if j == 0 then 0 else 1)
  {
    HeadsInWholeCycles(probs, valid0, c);
    HeadsInSplit(Rounds(probs, valid0).heads, 0, c * ROUNDS_PER_CYCLE, |probs|);
    CycleState(Thresholds(), probs, valid0, c, j);
  }

  lemma {:induction false} SomeHead(heads: seq<bool>, lo: nat, hi: nat) returns (j: nat)
    requires lo <= hi <= |heads| && HeadsIn(heads, lo, hi) >= 1
    ensures lo <= j < hi && heads[j]
  {
    if heads[hi - 1] {
      j := hi - 1;
    } else {
      j := SomeHead(heads, lo, hi - 1);
    }
  }

  /** A node that was head is head again within nineteen rounds. */
  lemma HeadAgainWithinNineteen(probs: seq<real>, valid0: bool, i: nat)
    requires Draws(probs) && i + 20 <= |probs| && Rounds(probs, valid0).heads[i]
    ensures exists j :: i < j <= i + 19 && Rounds(probs, valid0).heads[j]
  {
    var c := i / ROUNDS_PER_CYCLE + 1;
    OncePerCycle(probs, valid0, c);
    var j := SomeHead(Rounds(probs, valid0).heads, c * ROUNDS_PER_CYCLE, (c + 1) * ROUNDS_PER_CYCLE);
  }

  /** The first call sets valid before anything reads it, so that its first content never matters. */
  lemma {:induction false} ValidIsSetBeforeRead(probs: seq<real>)
    requires probs != []
    ensures Rounds(probs, true) == Rounds(probs, false)
  {
    if |probs| > 1 {
      ValidIsSetBeforeRead(probs[..|probs| - 1]);
    } else {
      assert probs[..0] == [];
    }
  }

  /** The draws of the first k rounds of the cycle that starts at start are all at or above their thresholds. */
  predicate AllAbove(t: seq<real>, probs: seq<real>, start: nat, k: nat)
    requires |t| == ROUNDS_PER_CYCLE && k <= ROUNDS_PER_CYCLE && start + k <= |probs|
  {
    k == 0 || (AllAbove(t, probs, start, k - 1) && probs[start + k - 1] >= t[k - 1])
  }

  lemma {:induction false} AllAbovePrefix(t: seq<real>, probs: seq<real>, start: nat, k: nat, n: nat)
    requires |t| == ROUNDS_PER_CYCLE && k <= ROUNDS_PER_CYCLE && start + k <= n <= |probs|
    ensures AllAbove(t, probs[..n], start, k) == AllAbove(t, probs, start, k)
  {
    if k > 0 {
      AllAbovePrefix(t, probs, start, k - 1, n);
    }
  }

  /**
   * A node's head round in a cycle is the first one whose draw is below its threshold. With independent uniform draws,
   * EqualShare says that each round of the cycle is that one with the same chance.
   */
  lemma {:induction false} HeadRoundIsFirstBelow(probs: seq<real>, valid0: bool, c: nat, k: nat)
    requires k < ROUNDS_PER_CYCLE && |probs| == c * ROUNDS_PER_CYCLE + k + 1
    ensures var (t, start, h) := (Thresholds(), c * ROUNDS_PER_CYCLE, Rounds(probs, valid0));
      && t[k] == 1.0 / (10 - k) as real
      && (h.heads[start + k] <==> AllAbove(t, probs, start, k) && probs[start + k] < t[k])
      && (h.valid <==> AllAbove(t, probs, start, k + 1))
  {
    var start, t := c * ROUNDS_PER_CYCLE, Thresholds();
    assert (start + k) % ROUNDS_PER_CYCLE == k;
    ThresholdValue(ROUNDS_PER_CYCLE, k);
    if k > 0 {
      HeadRoundIsFirstBelow(probs[..start + k], valid0, c, k - 1);
      AllAbovePrefix(t, probs, start, k, start + k);
    }
  }
}
