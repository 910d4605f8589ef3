/** Packet generation of the sensor application: the Poisson search and the byte limit. */
module Traffic {
  import opened Options

  function Power(x: real, k: nat): real {
    if k == 0 then 1.0 else x * Power(x, k - 1)
  }

  function Factorial(k: nat): (f: nat)
    ensures f >= 1
  {
    if k == 0 then 1 else k * Factorial(k - 1)
  }

  /** The terms of the exponential series up to n. */
  function Series(rate: real, n: nat): real {
    Power(rate, n) / Factorial(n) as real + (if n == 0 then 0.0 else Series(rate, n - 1))
  }

  /** The Poisson distribution function, given expo for exp(-rate). */
  function CDF(rate: real, expo: real, n: nat): real {
    expo * Series(rate, n)
  }

  /** The exponential series of rate gets as far as y. */
  ghost predicate Passes(rate: real, y: real) {
    exists n: nat :: Series(rate, n) >= y
  }

  /** expo is exp(-rate): 1/expo is the least upper bound of the exponential series of rate. */
  ghost predicate IsExpOfMinus(expo: real, rate: real) {
    && expo > 0.0
    && (forall n: nat :: CDF(rate, expo, n) <= 1.0)
    && (forall y: real :: y < 1.0 / expo ==> Passes(rate, y))
  }

  /** The least k whose distribution function reaches p. */
  ghost predicate IsQuantile(rate: real, expo: real, p: real, k: nat) {
    CDF(rate, expo, k) >= p && forall j: nat :: j < k ==> CDF(rate, expo, j) < p
  }

  lemma QuantileExists(rate: real, expo: real, p: real) returns (n: nat)
    requires IsExpOfMinus(expo, rate) && p < 1.0
    ensures CDF(rate, expo, n) >= p
  {
    var y := p / expo;
    Divided(p, expo);
    assert Passes(rate, y);
    n :| Series(rate, n) >= y;
    AtLeast(expo, Series(rate, n), y);
  }

  lemma Divided(p: real, c: real)
    requires c > 0.0 && p < 1.0
    ensures p / c < 1.0 / c && c * (p / c) == p
  {
  }

  lemma AtLeast(c: real, a: real, b: real)
    requires c > 0.0 && a >= b
    ensures c * a >= c * b
  {
  }

  /** One term: the power, divided by 1, 2, ... in turn. */
  method Term(rate: real, k: nat) returns (temp: real)
    ensures temp == Power(rate, k) / Factorial(k) as real
  {
    temp := Power(rate, k);
    var i := 1;
    while i <= k
      invariant 1 <= i <= k + 1
      invariant temp == Power(rate, k) / Factorial(i - 1) as real
    {
      DivideAgain(Power(rate, k), Factorial(i - 1), i);
      temp := temp / i as real;
      i := i + 1;
    }
  }

  lemma DivideAgain(x: real, f: nat, i: nat)
    requires f >= 1 && i >= 1
    ensures i * f >= 1 && x / f as real / i as real == x / (i * f) as real
  {
    assert (i * f) as real == i as real * f as real;
  }

  /**
   * The search adds terms until the distribution function reaches the draw; k is one too high then. It ends for every
   * draw below 1, and yields the quantile.
   */
  method PoissonSearch(rate: real, expo: real, p: real) returns (k: nat)
    requires IsExpOfMinus(expo, rate) && p < 1.0
    ensures IsQuantile(rate, expo, p, k)
  {
    ghost var bound := QuantileExists(rate, expo, p);
    var poisson := expo;
    FirstTerm(rate, expo);
    k := 1;
    while poisson < p
      invariant k >= 1 && poisson == CDF(rate, expo, k - 1)
      invariant forall j: nat :: j < k - 1 ==> CDF(rate, expo, j) < p
      decreases bound - k
    {
      var temp := Term(rate, k);
      NextTerm(rate, expo, k, temp);
      poisson := poisson + temp * expo;
      k := k + 1;
    }
    k := k - 1;
  }

  /** The chance of n packets. */
  function Chance(rate: real, expo: real, n: nat): real {
    CDF(rate, expo, n) - (if n == 0 then 0.0 else CDF(rate, expo, n - 1))
  }

  /** The distribution is Poisson's: none has the chance exp(-rate), and each chance is rate/n times the one before. */
  lemma IsPoisson(rate: real, expo: real, n: nat)
    ensures Chance(rate, expo, 0) == expo
    ensures n > 0 ==> n as real * Chance(rate, expo, n) == rate * Chance(rate, expo, n - 1)
  {
    FirstTerm(rate, expo);
    if n > 0 {
      var c, d := ChanceRatio(rate, expo, n);
    }
  }

  lemma ChanceRatio(rate: real, expo: real, n: nat) returns (c: real, d: real)
    requires n > 0
    ensures c == Chance(rate, expo, n) && d == Chance(rate, expo, n - 1) && n as real * c == rate * d
  {
    var t, u := TermRatio(rate, n);
    c, d := t * expo, u * expo;
    ChanceIsTerm(rate, expo, n, t);
    ChanceIsTerm(rate, expo, n - 1, u);
    Proportional(c, d, t, u, n as real, rate, expo);
  }

  lemma ChanceIsTerm(rate: real, expo: real, n: nat, t: real)
    requires t == Power(rate, n) / Factorial(n) as real
    ensures Chance(rate, expo, n) == t * expo
  {
    if n > 0 {
      NextTerm(rate, expo, n, t);
    } else {
      FirstTerm(rate, expo);
    }
  }

  lemma TermRatio(rate: real, n: nat) returns (t: real, u: real)
    requires n > 0
    ensures t == Power(rate, n) / Factorial(n) as real && u == Power(rate, n - 1) / Factorial(n - 1) as real
    ensures n as real * t == rate * u
  {
    t, u := NextQuotient(rate, Power(rate, n - 1), Factorial(n - 1), n, Power(rate, n), Factorial(n));
  }

  lemma NextQuotient(rate: real, power: real, f: nat, n: nat, power': real, f': nat) returns (t: real, u: real)
    requires f >= 1 && n >= 1 && power' == rate * power && f' == n * f
    ensures f' >= 1 && t == power' / f' as real && u == power / f as real && n as real * t == rate * u
  {
    DivideAgain(power', f, n);
    u := power / f as real;
    var q := power' / f as real;
    assert q == rate * u;
    t := q / n as real;
  }

  lemma Proportional(c: real, d: real, t: real, u: real, n: real, rate: real, expo: real)
    requires c == t * expo && d == u * expo && n * t == rate * u
    ensures n * c == rate * d
  {
    assert n * (t * expo) == n * t * expo;
    assert rate * (u * expo) == rate * u * expo;
  }

  lemma FirstTerm(rate: real, expo: real)
    ensures CDF(rate, expo, 0) == expo
  {
    assert Series(rate, 0) == 1.0;
  }

  lemma NextTerm(rate: real, expo: real, k: nat, temp: real)
    requires k >= 1 && temp == Power(rate, k) / Factorial(k) as real
    ensures CDF(rate, expo, k) == CDF(rate, expo, k - 1) + temp * expo
  {
    var before := Series(rate, k - 1);
    assert Series(rate, k) == temp + before;
    assert expo * (temp + before) == expo * before + temp * expo;
  }

  // ---- The application ----

  const UINT32 := 0x1_0000_0000

  /** How long the bits of a packet that are still to be counted take; their number has 32 bits. */
  function Airtime(pktSize: nat, residualBits: nat, bitRate: real): real
    requires bitRate > 0.0
  {
    ((pktSize * 8 - residualBits) % UINT32) as real / bitRate
  }

  /** The whole bits that a time stands for. */
  function ElapsedBits(time: real, bitRate: real): int {
    (time * bitRate).Floor
  }

  /**
   * A packet that is called off after some time and then resumed takes the rest of its airtime, to within one bit, if
   * and only if the bits counted so far do not exceed the packet. Otherwise their difference wraps, and it waits for
   * some four billion bits: that is so for a packet called off after its airtime, while it waits for its interval.
   */
  lemma ResumesIff(pktSize: nat, residualBits: nat, bitRate: real, time: real)
    requires bitRate > 0.0 && time >= 0.0
    requires residualBits <= pktSize * 8 < 0x1_0000_0000 && residualBits + (time * bitRate).Floor < 0x1_0000_0000
    ensures var counted := residualBits + ElapsedBits(time, bitRate);
      counted >= 0 &&
      var whole, rest := (pktSize * 8 - residualBits) as real / bitRate, Airtime(pktSize, counted, bitRate);
      (whole <= time + rest < whole + 1.0 / bitRate) <==> (counted <= pktSize * 8)
  {
    FloorPositive(time, bitRate);
    var b := pktSize * 8 - residualBits;
    var left := BitsLeft(time * bitRate, (time * bitRate).Floor, b);
    assert left == (pktSize * 8 - (residualBits + ElapsedBits(time, bitRate))) % UINT32;
    InBits(time, bitRate, b, left);
  }

  lemma FloorPositive(time: real, bitRate: real)
    requires bitRate > 0.0 && time >= 0.0
    ensures (time * bitRate).Floor >= 0
  {
    assert time * bitRate >= 0.0;
  }

  /** What is left of b bits once t have passed, of which f are whole. */
  lemma BitsLeft(t: real, f: int, b: nat) returns (left: nat)
    requires f == t.Floor && 0 <= f < UINT32 && b < UINT32
    ensures left == (b - f) % UINT32
    ensures (b as real <= t + left as real < b as real + 1.0) <==> f <= b
  {
    left := if f <= b then b - f else b - f + UINT32;
  }

  /** Times compare as the bits they stand for. */
  lemma InBits(time: real, bitRate: real, b: int, left: int)
    requires bitRate > 0.0
    ensures var (whole, rest) := (b as real / bitRate, left as real / bitRate);
      (whole <= time + rest < whole + 1.0 / bitRate)
      <==> (b as real <= time * bitRate + left as real < b as real + 1.0)
  {
    var whole, rest, bit := b as real / bitRate, left as real / bitRate, 1.0 / bitRate;
    Scale(whole, b as real, bitRate);
    Scale(rest, left as real, bitRate);
    Scale(bit, 1.0, bitRate);
    CompareScaled(whole, time + rest, bitRate, b as real, time * bitRate + left as real);
    CompareScaled(time + rest, whole + bit, bitRate, time * bitRate + left as real, b as real + 1.0);
  }

  lemma Scale(q: real, x: real, rate: real)
    requires rate > 0.0 && q == x / rate
    ensures q * rate == x
  {
  }

  lemma CompareScaled(a: real, b: real, rate: real, x: real, y: real)
    requires rate > 0.0 && a * rate == x && b * rate == y
    ensures (a <= b <==> x <= y) && (a < b <==> x < y)
  {
    assert (b - a) * rate == y - x;
    Sign(b - a, rate);
  }

  lemma Sign(d: real, rate: real)
    requires rate > 0.0
    ensures (d > 0.0 <==> d * rate > 0.0) && (d == 0.0 <==> d * rate == 0.0)
  {
  }

  /** A new packet is scheduled when one has left; a search that gives none is repeated after a second. */
  class WsnApplication {
    const pktSize: nat
    const maxBytes: nat
    const pktGenRate: real
    const pktGenPattern: int
    var bitRate: real
    // The rate when events were last cancelled.
    var bitRateFailSafe: real
    var totBytes: nat
    var pktCount: nat
    var residualBits: nat
    var lastStartTime: real
    var sendAt: Option<real>
    // When the search for a packet is tried again.
    var retries: seq<real>

    constructor (pktSize: nat, maxBytes: nat, bitRate: real, pktGenRate: real, pktGenPattern: int)
      requires pktSize > 0 && bitRate > 0.0 && pktGenRate > 0.0
      ensures Valid() && totBytes == pktCount == 0 && sendAt == None && retries == []
      ensures this.pktSize == pktSize && this.maxBytes == maxBytes
    {
      this.pktSize, this.maxBytes, this.bitRate, bitRateFailSafe := pktSize, maxBytes, bitRate, bitRate;
      this.pktGenRate, this.pktGenPattern := pktGenRate, pktGenPattern;
      totBytes, pktCount, residualBits, lastStartTime, sendAt, retries := 0, 0, 0, 0.0, None, [];
    }

    ghost predicate Valid()
      reads this
    {
      && pktSize > 0 && bitRate > 0.0 && pktGenRate > 0.0 && residualBits < UINT32
      && totBytes == pktCount * pktSize
      && (sendAt.Some? ==> maxBytes == 0 || totBytes < maxBytes)
      && (maxBytes > 0 && pktCount > 0 ==> (pktCount - 1) * pktSize < maxBytes)
    }

    predicate Open()
      reads this
    {
      maxBytes == 0 || totBytes < maxBytes
    }

    /** The bits that the time since the last start stands for, if a packet is pending and the rate has not changed. */
    function BitsSoFar(now: real): int
      reads this
    {
      if sendAt.Some? && bitRateFailSafe == bitRate then ElapsedBits(now - lastStartTime, bitRate) else 0
    }

    /** What is scheduled at an instant, when the retries were the earlier ones. */
    ghost predicate IsScheduled(now: real, expo: real, p: real, earlier: seq<real>)
      requires bitRate > 0.0 && pktGenRate > 0.0
      reads this
    {
      var airtime := Airtime(pktSize, residualBits, bitRate);
      if maxBytes != 0 && totBytes >= maxBytes then sendAt == None && retries == earlier
      else if pktGenPattern == 1 then exists k: nat ::
        && IsQuantile(pktGenRate, expo, p, k)
        && sendAt == (if k > 0 then Some(now + airtime + 1.0 / k as real) else None)
        && retries == (if k > 0 then earlier else earlier + [now + 1.0])
      else
        && sendAt == Some(now + airtime + if pktGenPattern == 0 then 1.0 / pktGenRate else 0.0)
        && retries == earlier
    }

    /** A pending packet is called off, and its bits so far count towards the next one. */
    method CancelEvents(now: real)
      requires Valid() && now >= lastStartTime
      modifies this`residualBits, this`sendAt, this`bitRateFailSafe
      ensures Valid() && sendAt == None && bitRateFailSafe == bitRate
      ensures residualBits == (old(residualBits) + old(BitsSoFar(now))) % UINT32
    {
      if sendAt.Some? && bitRateFailSafe == bitRate {
        residualBits := (residualBits + ElapsedBits(now - lastStartTime, bitRate)) % UINT32;
      }
      bitRateFailSafe := bitRate;
      sendAt := None;
    }

    method SetDataRate(bitRate: real)
      requires Valid() && bitRate > 0.0
      modifies this`bitRate
      ensures Valid() && this.bitRate == bitRate
    {
      this.bitRate := bitRate;
    }

    method StartSending(now: real, expo: real, p: real)
      requires Valid() && sendAt == None && IsExpOfMinus(expo, pktGenRate) && p < 1.0
      modifies this
      ensures Valid() && lastStartTime == now && residualBits == old(residualBits)
      ensures pktCount == old(pktCount) && totBytes == old(totBytes) && bitRate == old(bitRate)
      ensures IsScheduled(now, expo, p, old(retries))
    {
      lastStartTime := now;
      ScheduleNextTx(now, expo, p);
    }

    /** A search that gave no packet is tried again. */
    method Retry(now: real, i: nat, expo: real, p: real)
      requires Valid() && sendAt == None && i < |retries| && retries[i] == now
      requires IsExpOfMinus(expo, pktGenRate) && p < 1.0
      modifies this`sendAt, this`retries
      ensures Valid()
      ensures IsScheduled(now, expo, p, old(retries[..i] + retries[i + 1..]))
    {
      retries := retries[..i] + retries[i + 1..];
      ScheduleNextTx(now, expo, p);
    }

    method ScheduleNextTx(now: real, expo: real, p: real)
      requires Valid() && sendAt == None && IsExpOfMinus(expo, pktGenRate) && p < 1.0
      modifies this`sendAt, this`retries
      ensures Valid() && IsScheduled(now, expo, p, old(retries))
    {
      if maxBytes == 0 || totBytes < maxBytes {
        var bits := (pktSize * 8 - residualBits) % UINT32;
        var nextTime := bits as real / bitRate;
        if pktGenPattern == 0 {
          nextTime := nextTime + 1.0 / pktGenRate;
        } else if pktGenPattern == 1 {
          var k := PoissonSearch(pktGenRate, expo, p);
          if k > 0 {
            nextTime := nextTime + 1.0 / k as real;
          } else {
            retries := retries + [now + 1.0];
            return;
          }
        }
        sendAt := Some(now + nextTime);
      }
    }

    /** The send timer: one packet leaves, and the next one is scheduled unless the byte limit is reached. */
    method SendPacket(now: real, expo: real, p: real)
      requires Valid() && sendAt == Some(now) && IsExpOfMinus(expo, pktGenRate) && p < 1.0
      modifies this
      ensures Valid() && pktCount == old(pktCount) + 1 && totBytes == old(totBytes) + pktSize
      ensures residualBits == 0 && lastStartTime == now && bitRate == old(bitRate)
      ensures bitRateFailSafe == old(bitRateFailSafe) && IsScheduled(now, expo, p, old(retries))
    {
      sendAt := None;
      pktCount := pktCount + 1;
      totBytes := totBytes + pktSize;
      lastStartTime := now;
      residualBits := 0;
      ScheduleNextTx(now, expo, p);
    }

    /**
     * After a packet, the next one leaves when its bits have been sent at the data rate, and then after the interval:
     * one over the packet rate, or one over the number drawn; if none is drawn, the draw is repeated a second later.
     */
    lemma Spacing(now: real, expo: real, p: real, earlier: seq<real>)
      requires Valid() && IsScheduled(now, expo, p, earlier) && residualBits == 0 && pktSize * 8 < 0x1_0000_0000
      requires maxBytes == 0 || totBytes < maxBytes
      ensures var sent := now + (pktSize * 8) as real / bitRate;
        && (pktGenPattern == 0 ==> sendAt == Some(sent + 1.0 / pktGenRate) && retries == earlier)
        && (pktGenPattern > 1 || pktGenPattern < 0 ==> sendAt == Some(sent) && retries == earlier)
        && (pktGenPattern == 1 && p <= expo ==> sendAt == None && retries == earlier + [now + 1.0])
        && (pktGenPattern == 1 && p > expo ==>
              exists k: nat :: k >= 1 && IsQuantile(pktGenRate, expo, p, k)
                && sendAt == Some(sent + 1.0 / k as real) && retries == earlier)
    {
      FirstTerm(pktGenRate, expo);
      assert (pktSize * 8 - residualBits) % UINT32 == pktSize * 8;
    }

    /** The application falls silent exactly when the packets sent cover the byte limit, and with no packet to spare. */
    lemma SilentExactlyAtLimit()
      requires Valid() && maxBytes > 0
      ensures !Open() <==> pktCount == (maxBytes + pktSize - 1) / pktSize
    {
      Ceiling(pktCount, pktSize, maxBytes);
    }
  }

  /** n packets cover the limit, and n - 1 do not, exactly when n is the limit divided by the size, rounded up. */
  lemma Ceiling(n: nat, size: nat, limit: nat)
    requires size > 0 && limit > 0 && (n > 0 ==> (n - 1) * size < limit)
    ensures n * size >= limit <==> n == (limit + size - 1) / size
  {
    var x := limit + size - 1;
    var q := x / size;
    Quotient(x, size);
    if n < q {
      AtMost(n + 1, q, size);
    } else if n > q {
      AtMost(q + 1, n, size);
    }
  }

  lemma Quotient(x: nat, size: nat)
    requires size > 0
    ensures x / size * size <= x < (x / size + 1) * size
  {
  }

  lemma AtMost(a: nat, b: nat, size: nat)
    requires a <= b
    ensures a * size <= b * size && (a > 0 ==> (a - 1) * size == a * size - size)
    ensures b > 0 ==> (b - 1) * size == b * size - size
  {
    assert (b - a) * size >= 0;
  }
}
