/** Statistics over the latencies of a window of pings. */
module PingStatistics {
  import opened Bytes

  datatype PingSendData = PingSendData(timestamp: int, latency: int, sequence: Word)

  const UNUSED := PingSendData(-1, -1, 0)

  const MAX_UINT := 0xffff_ffff

  predicate Answered(p: PingSendData) {
    p.latency >= 0
  }

  function Received(w: seq<PingSendData>): nat {
    if w == [] then 0 else Received(w[..|w| - 1]) + if Answered(w[|w| - 1]) then 1 else 0
  }

  /** The sum of the answered latencies and the sum of their squares. */
  function Total(w: seq<PingSendData>): nat {
    if w == [] then 0
    else Total(w[..|w| - 1]) + if Answered(w[|w| - 1]) then w[|w| - 1].latency else 0
  }

  function Squares(w: seq<PingSendData>): int {
    if w == [] then 0
    else Squares(w[..|w| - 1]) + if Answered(w[|w| - 1]) then w[|w| - 1].latency * w[|w| - 1].latency else 0
  }

  /** The sum of the squared distances from `a`. */
  function Spread(w: seq<PingSendData>, a: int): int {
    if w == [] then 0
    else Spread(w[..|w| - 1], a)
         + if Answered(w[|w| - 1]) then (a - w[|w| - 1].latency) * (a - w[|w| - 1].latency) else 0
  }

  /** Every answered latency is at least, or at most, the bound. */
  ghost predicate AtLeast(w: seq<PingSendData>, lo: int) {
    forall i :: 0 <= i < |w| && Answered(w[i]) ==> lo <= w[i].latency
  }

  ghost predicate AtMost(w: seq<PingSendData>, hi: int) {
    forall i :: 0 <= i < |w| && Answered(w[i]) ==> w[i].latency <= hi
  }

  /** Some answered latency is at most `x` and some is at least `x`: it lies between the smallest
      and the largest. */
  ghost predicate Between(w: seq<PingSendData>, x: int) {
    !AtLeast(w, x + 1) && !AtMost(w, x - 1)
  }

  lemma MulStep(x: int, n: int)
    ensures x * (n + 1) == x * n + x
  {
  }

  lemma {:induction false} TotalAtLeast(w: seq<PingSendData>, lo: int)
    requires AtLeast(w, lo)
    ensures lo * Received(w) <= Total(w)
  {
    if w == [] {
    } else {
      var init := w[..|w| - 1];
      assert AtLeast(init, lo);
      TotalAtLeast(init, lo);
      MulStep(lo, Received(init));
    }
  }

  lemma {:induction false} TotalAtMost(w: seq<PingSendData>, hi: int)
    requires AtMost(w, hi)
    ensures Total(w) <= hi * Received(w)
  {
    if w == [] {
    } else {
      var init := w[..|w| - 1];
      assert AtMost(init, hi);
      TotalAtMost(init, hi);
      MulStep(hi, Received(init));
    }
  }

  /** The nearest integer to the mean, as `latency()` rounds it. */
  function RoundedMean(total: nat, n: nat): nat
    requires n > 0
  {
    (total + n / 2) / n
  }

  /** The value is within half a unit of the mean. */
  predicate NearMean(total: int, n: int, a: int) {
    2 * total - n <= 2 * (n * a) <= 2 * total + n
  }

  lemma RoundedMeanIsNear(total: nat, n: nat)
    requires n > 0
    ensures NearMean(total, n, RoundedMean(total, n))
  {
    var m := total + n / 2;
    assert m == n * (m / n) + m % n;
  }

  lemma NearMeanBounds(t: int, n: int, a: int)
    requires n > 0 && NearMean(t, n, a)
    ensures (a - 1) * n < t < (a + 1) * n
  {
    assert (a + 1) * n == n * a + n;
    assert (a - 1) * n == n * a - n;
  }

  /** A value near the mean lies between the smallest and the largest answer. */
  lemma NearMeanIsBetween(w: seq<PingSendData>, a: int)
    requires Received(w) > 0 && NearMean(Total(w), Received(w), a)
    ensures Between(w, a)
  {
    NearMeanBounds(Total(w), Received(w), a);
    if AtLeast(w, a + 1) {
      TotalAtLeast(w, a + 1);
    }
    if AtMost(w, a - 1) {
      TotalAtMost(w, a - 1);
    }
  }

  /** The loop of `latency()`. */
  method SumUp(w: seq<PingSendData>) returns (recvCount: nat, totalMsec: nat)
    ensures recvCount == Received(w) && totalMsec == Total(w)
  {
    recvCount, totalMsec := 0, 0;
    for i := 0 to |w|
      invariant recvCount == Received(w[..i]) && totalMsec == Total(w[..i])
    {
      assert w[..i + 1][..i] == w[..i];
      if w[i].latency < 0 {
        continue;
      }
      recvCount := recvCount + 1;
      totalMsec := totalMsec + w[i].latency;
    }
    assert w[..|w|] == w;
  }

  method Latency(w: seq<PingSendData>) returns (r: Word32)
    ensures Received(w) == 0 ==> r == 0
    ensures Received(w) > 0 && AtMost(w, MAX_UINT - 1) ==>
              && r == RoundedMean(Total(w), Received(w))
              && NearMean(Total(w), Received(w), r)
              && Between(w, r)
  {
    var recvCount, totalMsec := SumUp(w);
    if recvCount <= 0 {
      return 0;
    }
    RoundedMeanIsNear(totalMsec, recvCount);
    NearMeanIsBetween(w, RoundedMean(totalMsec, recvCount));
    // half the denominator makes the quotient round to the nearest integer
    totalMsec := totalMsec + recvCount / 2;
    r := totalMsec / recvCount % 0x1_0000_0000;
    if AtMost(w, MAX_UINT - 1) {
      MeanFits(w, RoundedMean(Total(w), Received(w)));
    }
  }

  lemma MeanFits(w: seq<PingSendData>, a: int)
    requires Between(w, a) && AtMost(w, MAX_UINT - 1)
    ensures a < MAX_UINT
  {
    assert a >= MAX_UINT ==> AtMost(w, a - 1);
  }

  /** The largest answered latency below 2^32 - 1, or 0. */
  method Maximum(w: seq<PingSendData>) returns (r: Word32)
    ensures forall i :: 0 <= i < |w| && Answered(w[i]) && w[i].latency < MAX_UINT ==> w[i].latency <= r
    ensures r == 0 || exists i :: 0 <= i < |w| && Answered(w[i]) && w[i].latency == r
    ensures AtMost(w, MAX_UINT - 1) ==> AtMost(w, r)
  {
    r := 0;
    for i := 0 to |w|
      invariant r < MAX_UINT
      invariant forall j :: 0 <= j < i && Answered(w[j]) && w[j].latency < MAX_UINT ==> w[j].latency <= r
      invariant r == 0 || exists j :: 0 <= j < i && Answered(w[j]) && w[j].latency == r
    {
      if w[i].latency < 0 {
        continue;
      }
      if w[i].latency > r && w[i].latency < MAX_UINT {
        r := w[i].latency;
      }
    }
  }

  /** The mean is never above the maximum. */
  lemma MeanBelowMaximum(w: seq<PingSendData>, a: int, r: int)
    requires Between(w, a) && AtMost(w, r)
    ensures a <= r
  {
    assert a > r ==> AtMost(w, a - 1);
  }

  lemma SquareOfDifference(a: int, x: int)
    ensures (a - x) * (a - x) == a * a - 2 * (a * x) + x * x
  {
  }

  lemma SpreadStep(a: int, x: int, n: int, t: int, s: int)
    ensures (a * a) * n - 2 * (a * t) + s + (a - x) * (a - x)
         == (a * a) * (n + 1) - 2 * (a * (t + x)) + (s + x * x)
  {
    SquareOfDifference(a, x);
    assert (a * a) * (n + 1) == (a * a) * n + a * a;
    assert a * (t + x) == a * t + a * x;
  }

  lemma {:induction false} SpreadExpands(w: seq<PingSendData>, a: int)
    ensures Spread(w, a) == (a * a) * Received(w) - 2 * (a * Total(w)) + Squares(w)
  {
    if w == [] {
    } else {
      var init, x := w[..|w| - 1], w[|w| - 1].latency;
      SpreadExpands(init, a);
      SpreadStep(a, x, Received(init), Total(init), Squares(init));
    }
  }

  /** The variance about any value is that about the mean plus the squared error. */
  lemma SpreadAbout(w: seq<PingSendData>, a: int)
    ensures var n, t := Received(w), Total(w);
            n * Spread(w, a) == n * Squares(w) - t * t + (n * a - t) * (n * a - t)
  {
    var n, t, s := Received(w), Total(w), Squares(w);
    SpreadExpands(w, a);
    SquareOfDifference(n * a, t);
    Regroup(n, a, t, s);
  }

  lemma Regroup(n: int, a: int, t: int, s: int)
    ensures n * ((a * a) * n - 2 * (a * t) + s) == n * s - t * t + ((n * a) * (n * a) - 2 * ((n * a) * t) + t * t)
  {
    assert (n * a) * (n * a) == n * ((a * a) * n);
    assert (n * a) * t == n * (a * t);
    assert n * ((a * a) * n - 2 * (a * t) + s) == n * ((a * a) * n) - 2 * (n * (a * t)) + n * s;
  }

  lemma SquareIsBounded(x: int, n: int)
    requires 0 - n <= x <= n
    ensures 0 <= x * x <= n * n
  {
    if x >= 0 {
      assert x * x <= x * n <= n * n;
    } else {
      assert x * x == (0 - x) * (0 - x) <= (0 - x) * n <= n * n;
    }
  }

  /** Rounding the mean adds at most a quarter of n squared to n times the spread. */
  lemma RoundingErrorIsSmall(total: int, n: int, a: int)
    requires NearMean(total, n, a)
    ensures 0 <= 4 * ((n * a - total) * (n * a - total)) <= n * n
  {
    var d := n * a - total;
    SquareIsBounded(2 * d, n);
    assert (2 * d) * (2 * d) == 4 * (d * d);
  }

  lemma {:induction false} SpreadFits(w: seq<PingSendData>, a: int, bound: int)
    requires 0 <= a <= bound && AtMost(w, bound)
    ensures 0 <= Spread(w, a) <= (bound * bound) * |w|
  {
    if w == [] {
    } else {
      var init, last := w[..|w| - 1], w[|w| - 1];
      assert AtMost(init, bound);
      SpreadFits(init, a, bound);
      MulStep(bound * bound, |init|);
      SquareIsBounded(bound, bound);
      if Answered(last) {
        SquareIsBounded(a - last.latency, bound);
      }
    }
  }

  /** The integer part of the square root of a quotient. */
  function RootOf(total: nat, n: nat, from: nat): (r: nat)
    requires n > 0 && from * from * n <= total
    ensures r * r * n <= total < (r + 1) * (r + 1) * n
    decreases total - from * from * n
  {
    if total < (from + 1) * (from + 1) * n then from
    else
      assert (from + 1) * (from + 1) * n == from * from * n + (2 * from + 1) * n;
      RootOf(total, n, from + 1)
  }

  /** The loop of `stddev()`. */
  method Variance(w: seq<PingSendData>, average: int) returns (recvCount: nat, totalVariance: nat)
    ensures recvCount == Received(w) && totalVariance == Spread(w, average)
  {
    recvCount, totalVariance := 0, 0;
    for i := 0 to |w|
      invariant recvCount == Received(w[..i])
      invariant totalVariance == Spread(w[..i], average)
    {
      assert w[..i + 1][..i] == w[..i];
      if w[i].latency < 0 {
        continue;
      }
      recvCount := recvCount + 1;
      var d := average - w[i].latency;
      SquareIsBounded(d, if d >= 0 then d else 0 - d);
      totalVariance := totalVariance + d * d;
    }
    assert w[..|w|] == w;
  }

  /** What `stddev()` accumulates: n times it exceeds n times the sum of squares less the square of
      the sum by at most n squared over 4. */
  ghost predicate NearVariance(w: seq<PingSendData>, v: int) {
    var n, t := Received(w), Total(w);
    0 <= 4 * (n * v - (n * Squares(w) - t * t)) <= n * n
  }

  lemma SpreadIsNearVariance(w: seq<PingSendData>, a: int)
    requires NearMean(Total(w), Received(w), a)
    ensures NearVariance(w, Spread(w, a))
  {
    SpreadAbout(w, a);
    RoundingErrorIsSmall(Total(w), Received(w), a);
  }

  /** The largest latency, 2^29 - 1, whose squares cannot overflow the signed 64-bit sum over 32 slots. */
  const SAFE_LATENCY := 0x1fff_ffff

  /** Returns the accumulated sum besides the result. */
  method StdDev(w: seq<PingSendData>) returns (r: nat, totalVariance: nat)
    ensures Received(w) == 0 ==> r == 0
    ensures Received(w) > 0 ==> r * r * Received(w) <= totalVariance < (r + 1) * (r + 1) * Received(w)
    ensures Received(w) > 0 && AtMost(w, MAX_UINT - 1) ==> NearVariance(w, totalVariance)
    ensures Received(w) > 0 && AtMost(w, SAFE_LATENCY) && |w| == 32 ==> totalVariance < 0x8000_0000_0000_0000
  {
    var average := Latency(w);
    var recvCount;
    recvCount, totalVariance := Variance(w, average);
    if recvCount <= 0 {
      return 0, totalVariance;
    }
    if AtMost(w, MAX_UINT - 1) {
      SpreadIsNearVariance(w, average);
    }
    if AtMost(w, SAFE_LATENCY) && |w| == 32 {
      MeanBelowMaximum(w, average, SAFE_LATENCY);
      SpreadFits(w, average, SAFE_LATENCY);
    }
    r := RootOf(totalVariance, recvCount, 0);
  }

  /** Unanswered pings sent before the given time. */
  predicate Lost(p: PingSendData, before: int) {
    !Answered(p) && 0 < p.timestamp < before
  }

  function LostCount(w: seq<PingSendData>, before: int): nat {
    if w == [] then 0 else LostCount(w[..|w| - 1], before) + if Lost(w[|w| - 1], before) then 1 else 0
  }

  lemma {:induction false} LostCountIsBounded(w: seq<PingSendData>, before: int)
    ensures LostCount(w, before) <= |w|
  {
    if w == [] {
    } else {
      LostCountIsBounded(w[..|w| - 1], before);
    }
  }

  /** The share of the window's slots whose ping is lost; pings of the last second are not counted. */
  method Loss(w: seq<PingSendData>, now: int) returns (r: real)
    requires |w| == 32
    ensures r == LostCount(w, now - 1000) as real / 32.0
    ensures 0.0 <= r <= 1.0
  {
    var sendCount, recvCount := 0, 0;
    var sendBefore := now - 1000;
    for i := 0 to |w|
      invariant sendCount - recvCount == LostCount(w[..i], sendBefore)
      invariant 0 <= recvCount
    {
      assert w[..i + 1][..i] == w[..i];
      if w[i].latency >= 0 {
        recvCount := recvCount + 1;
        sendCount := sendCount + 1;
      } else if w[i].timestamp > 0 && w[i].timestamp < sendBefore {
        sendCount := sendCount + 1;
      }
    }
    assert w[..|w|] == w;
    LostCountIsBounded(w, sendBefore);
    if sendCount <= 0 {
      return 0.0;
    }
    return (sendCount - recvCount) as real / 32.0;
  }
}
