/** Clock synchronisation arithmetic: what an exchange estimates and how far a clock can stay off. */
module ClockEstimates {

  const EXCHANGES_PER_INTERVAL: nat := 10
  const ATTENUATION: nat := 10
  const GUARD_BAND: int := 100_000

  function Abs(x: int): nat {
    if x < 0 then -x else x
  }

  /** Integer division of the C language, which rounds towards zero. */
  function Quotient(a: int, b: nat): int
    requires b > 0
  {
    if a >= 0 then a / b else -(-a / b)
  }

  /** T1 and T4 are read from the RTI's clock, T2 and T3 from the federate's. */
  datatype Exchange = Exchange(t1: int, t2: int, t3: int, t4: int)

  function RoundTrip(x: Exchange): int {
    (x.t4 - x.t1) - (x.t3 - x.t2)
  }

  /** The estimated clock error E, which is what gets added to the federate's clock. */
  function EstimatedError(x: Exchange): int {
    Quotient(RoundTrip(x), 2) - (x.t2 - x.t1)
  }

  /** The other documented formula, for how far the federate's clock is ahead. */
  function EstimatedOffset(x: Exchange): int {
    Quotient((x.t2 - x.t1) + (x.t3 - x.t4), 2)
  }

  /** The timestamps of an exchange when the federate's clock is `ahead` of the RTI's. */
  function Timestamps(t1: int, ahead: int, delay: nat, processing: nat, replyDelay: nat): Exchange {
    var t2 := t1 + delay + ahead;
    var t3 := t2 + processing;
    Exchange(t1, t2, t3, t3 - ahead + replyDelay)
  }

  /** The estimate is within half the round trip, rounded up, and exact only for symmetric delays. */
  lemma EstimateError(t1: int, ahead: int, delay: nat, processing: nat, replyDelay: nat)
    ensures var x := Timestamps(t1, ahead, delay, processing, replyDelay);
            && RoundTrip(x) == delay + replyDelay
            && Abs(EstimatedError(x) - (-ahead)) <= (RoundTrip(x) + 1) / 2
            && (EstimatedError(x) == -ahead <==> delay <= replyDelay <= delay + 1)
  {
  }

  /** The two formulas differ by at most one nanosecond, and agree but for the sign just when nothing is lost. */
  lemma FormulasAgree(x: Exchange)
    requires RoundTrip(x) >= 0
    ensures Abs(EstimatedError(x) + EstimatedOffset(x)) <= 1
    ensures EstimatedError(x) == -EstimatedOffset(x) <==>
              RoundTrip(x) % 2 == 0 || 2 * (x.t2 - x.t1) <= RoundTrip(x)
  {
    var (d, r) := (x.t2 - x.t1, RoundTrip(x));
    assert (x.t2 - x.t1) + (x.t3 - x.t4) == 2 * d - r;
  }

  /** Synchronous clocks and a delay of one nanosecond on the way to the federate only. */
  lemma FormulasMayDiffer(t1: int, processing: nat)
    ensures var x := Timestamps(t1, 0, 1, processing, 0);
            RoundTrip(x) == 1 && EstimatedError(x) == -1 && EstimatedOffset(x) == 0
  {
  }

  // ---------- Averaging over an interval ----------

  /** The partially computed average: each estimate's share, rounded on its own. */
  function History(estimates: seq<int>): int {
    if estimates == [] then 0
    else History(estimates[..|estimates| - 1]) + Quotient(estimates[|estimates| - 1], EXCHANGES_PER_INTERVAL)
  }

  /** Division drops the fraction, so that it keeps the sign. */
  lemma TenthTruncates(a: int)
    ensures var q := Quotient(a, 10);
            && (a >= 0 ==> q >= 0 && 10 * q <= a < 10 * q + 10)
            && (a <= 0 ==> q <= 0 && 10 * q - 10 < a <= 10 * q)
  {
  }

  /** Each estimate adds its tenth, without the fraction, to the partial average. */
  lemma HistoryGrows(estimates: seq<int>, e: int)
    ensures History([]) == 0
    ensures var added := History(estimates + [e]) - History(estimates);
            && (e >= 0 ==> added >= 0 && 10 * added <= e < 10 * added + 10)
            && (e <= 0 ==> added <= 0 && 10 * added - 10 < e <= 10 * added)
  {
    assert (estimates + [e])[..|estimates|] == estimates;
    TenthTruncates(e);
  }

  /** n times a value, added up. */
  function Times(n: nat, x: int): int {
    if n == 0 then 0 else Times(n - 1, x) + x
  }

  lemma {:induction false} TimesIsProduct(n: nat, x: int)
    ensures Times(n, x) == n * x
  {
    if n > 0 {
      TimesIsProduct(n - 1, x);
    }
  }

  lemma {:induction false} HistoryNear(estimates: seq<int>, truth: int, bound: nat)
    requires forall k :: 0 <= k < |estimates| ==> Abs(estimates[k] - truth) <= bound
    ensures Abs(10 * History(estimates) - Times(|estimates|, truth)) <= Times(|estimates|, bound + 9)
  {
    if estimates != [] {
      var n := |estimates| - 1;
      HistoryNear(estimates[..n], truth, bound);
      HistoryStep(History(estimates[..n]), Times(n, truth), Times(n, bound + 9), estimates[n], truth, bound);
    }
  }

  lemma HistoryStep(history: int, total: int, slack: int, estimate: int, truth: int, bound: nat)
    requires Abs(10 * history - total) <= slack && Abs(estimate - truth) <= bound
    ensures Abs(10 * (history + Quotient(estimate, EXCHANGES_PER_INTERVAL)) - (total + truth)) <= slack + (bound + 9)
  {
  }

  /** A full interval averages to within the error of its estimates plus nine nanoseconds. */
  lemma AverageNear(estimates: seq<int>, truth: int, bound: nat)
    requires |estimates| == EXCHANGES_PER_INTERVAL
    requires forall k :: 0 <= k < |estimates| ==> Abs(estimates[k] - truth) <= bound
    ensures Abs(History(estimates) - truth) <= bound + 9
  {
    HistoryNear(estimates, truth, bound);
    TimesIsProduct(10, truth);
    TimesIsProduct(10, bound + 9);
  }

  // ---------- Repeated attenuated updates ----------

  /** The delays of one exchange. */
  datatype Delays = Delays(t1: int, delay: nat, processing: nat, replyDelay: nat)

  /** The estimates of an interval during which the adjusted clock is `ahead` of the RTI's. */
  function Estimates(interval: seq<Delays>, ahead: int): (r: seq<int>)
    ensures |r| == |interval|
  {
    seq(|interval|, k requires 0 <= k < |interval| =>
      var d := interval[k];
      EstimatedError(Timestamps(d.t1, ahead, d.delay, d.processing, d.replyDelay)))
  }

  /** How far ahead the adjusted clock is after the update that ends an interval. */
  function Adjusted(interval: seq<Delays>, ahead: int): int {
    ahead + Quotient(History(Estimates(interval, ahead)), ATTENUATION)
  }

  function AfterIntervals(intervals: seq<seq<Delays>>, ahead: int): int
    decreases |intervals|
  {
    if intervals == [] then ahead else AfterIntervals(intervals[1..], Adjusted(intervals[0], ahead))
  }

  predicate RoundTripsWithin(interval: seq<Delays>, limit: nat) {
    && |interval| == EXCHANGES_PER_INTERVAL
    && forall k :: 0 <= k < |interval| ==> interval[k].delay + interval[k].replyDelay <= limit
  }

  /** Half the largest round trip, plus what rounding the average can lose. */
  function ErrorBound(limit: nat): nat {
    (limit + 1) / 2 + 9
  }

  /** Truncation never overshoots: an update moves towards the error band or stays inside it. */
  lemma UpdateContracts(ahead: int, history: int, bound: nat)
    requires Abs(history - (-ahead)) <= bound
    ensures var after := ahead + Quotient(history, ATTENUATION);
            && (Abs(ahead) <= bound ==> Abs(after) <= bound)
            && (Abs(ahead) > bound ==> Abs(after) <= Abs(ahead))
            && (Abs(ahead) >= bound + 10 ==> Abs(after) < Abs(ahead))
  {
  }

  lemma EstimatesNear(interval: seq<Delays>, ahead: int, limit: nat)
    requires RoundTripsWithin(interval, limit)
    ensures Abs(History(Estimates(interval, ahead)) - (-ahead)) <= ErrorBound(limit)
  {
    var estimates := Estimates(interval, ahead);
    forall k | 0 <= k < |estimates|
      ensures Abs(estimates[k] - (-ahead)) <= (limit + 1) / 2
    {
      var d := interval[k];
      EstimateError(d.t1, ahead, d.delay, d.processing, d.replyDelay);
    }
    AverageNear(estimates, -ahead, (limit + 1) / 2);
  }

  lemma AdjustedContracts(interval: seq<Delays>, ahead: int, limit: nat)
    requires RoundTripsWithin(interval, limit)
    ensures Abs(ahead) <= ErrorBound(limit) ==> Abs(Adjusted(interval, ahead)) <= ErrorBound(limit)
    ensures Abs(ahead) > ErrorBound(limit) ==> Abs(Adjusted(interval, ahead)) <= Abs(ahead)
    ensures Abs(ahead) >= ErrorBound(limit) + 10 ==> Abs(Adjusted(interval, ahead)) < Abs(ahead)
  {
    EstimatesNear(interval, ahead, limit);
    UpdateContracts(ahead, History(Estimates(interval, ahead)), ErrorBound(limit));
  }

  /** How far the error exceeds the bound and what rounding can keep of it. */
  function Excess(ahead: int, limit: nat): nat {
    var settled := ErrorBound(limit) + 9;
    if Abs(ahead) > settled then Abs(ahead) - settled else 0
  }

  /** Truncating a tenth of an average that is within the bound of the true correction. */
  lemma UpdateShrinks(ahead: int, history: int, bound: nat)
    requires Abs(history - (-ahead)) <= bound
    ensures Abs(ahead) > bound ==>
              10 * Abs(ahead + Quotient(history, ATTENUATION)) <= 9 * Abs(ahead) + bound + 9
  {
  }

  lemma ExcessShrinks(interval: seq<Delays>, ahead: int, limit: nat)
    requires RoundTripsWithin(interval, limit)
    ensures 10 * Excess(Adjusted(interval, ahead), limit) <= 9 * Excess(ahead, limit)
  {
    EstimatesNear(interval, ahead, limit);
    UpdateContracts(ahead, History(Estimates(interval, ahead)), ErrorBound(limit));
    UpdateShrinks(ahead, History(Estimates(interval, ahead)), ErrorBound(limit));
  }

  function Power(base: nat, n: nat): nat {
    if n == 0 then 1 else base * Power(base, n - 1)
  }

  /** The excess over the bound shrinks by a tenth in every interval. */
  lemma {:induction false} SynchronizesGeometrically(intervals: seq<seq<Delays>>, ahead: int, limit: nat)
    requires forall k :: 0 <= k < |intervals| ==> RoundTripsWithin(intervals[k], limit)
    ensures Power(10, |intervals|) * Excess(AfterIntervals(intervals, ahead), limit)
            <= Power(9, |intervals|) * Excess(ahead, limit)
    decreases |intervals|
  {
    if intervals != [] {
      var n := |intervals| - 1;
      var next := Adjusted(intervals[0], ahead);
      SynchronizesGeometrically(intervals[1..], next, limit);
      ExcessShrinks(intervals[0], ahead, limit);
      ScaleBoth(Power(10, n), Excess(AfterIntervals(intervals, ahead), limit), Power(9, n),
                Excess(next, limit), Excess(ahead, limit));
    }
  }

  lemma ScaleBoth(p: nat, z: nat, q: nat, y: nat, x: nat)
    requires p * z <= q * y && 10 * y <= 9 * x
    ensures (10 * p) * z <= (9 * q) * x
  {
    calc {
      (10 * p) * z;
      10 * (p * z);
      <=
      10 * (q * y);
      q * (10 * y);
      <=
      { TimesMonotone(q, 10 * y, 9 * x); }
      q * (9 * x);
      (9 * q) * x;
    }
  }

  lemma TimesMonotone(q: nat, a: nat, b: nat)
    requires a <= b
    ensures q * a <= q * b
  {
  }

  /** Once within the bound, the clock stays within it whatever the delays of the coming intervals. */
  lemma {:induction false} StaysSynchronized(intervals: seq<seq<Delays>>, ahead: int, limit: nat)
    requires forall k :: 0 <= k < |intervals| ==> RoundTripsWithin(intervals[k], limit)
    requires Abs(ahead) <= ErrorBound(limit)
    ensures Abs(AfterIntervals(intervals, ahead)) <= ErrorBound(limit)
    decreases |intervals|
  {
    if intervals != [] {
      AdjustedContracts(intervals[0], ahead, limit);
      StaysSynchronized(intervals[1..], Adjusted(intervals[0], ahead), limit);
    }
  }

  /** However far off it starts, enough intervals bring the clock within nine nanoseconds of the bound. */
  lemma {:induction false} BecomesSynchronized(intervals: seq<seq<Delays>>, ahead: int, limit: nat)
    requires forall k :: 0 <= k < |intervals| ==> RoundTripsWithin(intervals[k], limit)
    requires |intervals| + ErrorBound(limit) + 9 >= Abs(ahead)
    ensures Abs(AfterIntervals(intervals, ahead)) <= ErrorBound(limit) + 9
    decreases |intervals|
  {
    if intervals != [] {
      AdjustedContracts(intervals[0], ahead, limit);
      BecomesSynchronized(intervals[1..], Adjusted(intervals[0], ahead), limit);
    }
  }

  // ---------- Monotonic readings ----------

  /** A reading of the platform clock plus the current offset, at least one later than the last. */
  function Reading(last: int, raw: int, offset: int): int {
    if raw + offset > last then raw + offset else last + 1
  }

  function Readings(last: int, samples: seq<(int, int)>): seq<int>
    decreases |samples|
  {
    if samples == [] then [] else
    var r := Reading(last, samples[0].0, samples[0].1);
    [r] + Readings(r, samples[1..])
  }

  /**
   * Readings strictly increase however the platform clock and the offset jump, and are platform
   * time plus offset or, when that is not later, one nanosecond after the reading before.
   */
  lemma {:induction false} ReadingsIncrease(last: int, samples: seq<(int, int)>)
    ensures var r := Readings(last, samples);
            && |r| == |samples|
            && (forall i :: 0 <= i < |r| ==> last < r[i] && samples[i].0 + samples[i].1 <= r[i])
            && (forall i, j :: 0 <= i < j < |r| ==> r[i] < r[j])
            && (forall i :: 0 <= i < |r| ==>
                  r[i] == samples[i].0 + samples[i].1 || r[i] == 1 + if i == 0 then last else r[i - 1])
    decreases |samples|
  {
    if samples != [] {
      var first := Reading(last, samples[0].0, samples[0].1);
      ReadingsIncrease(first, samples[1..]);
      var (r, rest) := (Readings(last, samples), Readings(first, samples[1..]));
      forall i | 1 <= i < |r|
        ensures r[i] == rest[i - 1] && samples[i] == samples[1..][i - 1]
      {
      }
    }
  }
}
