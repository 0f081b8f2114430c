/** The synchronisation state kept for the connection to the RTI, updated message by message. */
module ClockSync {
  import opened Options
  import opened ClockEstimates

  /** The coded probe that follows T4 over UDP: its payload, and when T4 and it were received. */
  datatype Probe = Probe(payload: int, receivedT4: int, receivedProbe: int)

  /** Whether the gap between T4 and the probe differs by less than the guard band at the two ends. */
  predicate IsPure(t4: int, p: Probe) {
    Abs((p.receivedProbe - p.receivedT4) - (p.payload - t4)) < GUARD_BAND
  }

  class SocketStat {
    var t1: int                  // remote_physical_clock_snapshot_T1
    var t2: int                  // local_physical_clock_snapshot_T2
    var localDelay: int
    var receivedT4: nat
    var history: int
    var roundTripMax: int
    var sampleIndex: nat
    var samples: array<int>
    var offset: int              // what is added to the federate's physical clock
    ghost var estimates: seq<int>  // of the current interval

    ghost predicate Valid()
      reads this
    {
      && samples.Length == EXCHANGES_PER_INTERVAL
      && receivedT4 == |estimates| < EXCHANGES_PER_INTERVAL
      && sampleIndex < EXCHANGES_PER_INTERVAL
      && history == History(estimates)
    }

    constructor ()
      ensures Valid() && fresh(samples) && offset == 0 && estimates == [] && roundTripMax == 0
    {
      t1, t2, localDelay, receivedT4, history, roundTripMax, sampleIndex, offset := 0, 0, 0, 0, 0, 0, 0, 0;
      samples := new int[EXCHANGES_PER_INTERVAL](_ => 0);
      estimates := [];
    }

    method Reset()
      requires samples.Length == EXCHANGES_PER_INTERVAL && sampleIndex < EXCHANGES_PER_INTERVAL
      modifies this`receivedT4, this`history, this`estimates
      ensures Valid() && estimates == []
    {
      receivedT4, history, estimates := 0, 0, [];
    }

    method HandleT1(t1: int, t2: int, t3: int)
      requires Valid()
      modifies this`t1, this`t2, this`localDelay
      ensures Valid() && this.t1 == t1 && this.t2 == t2 && localDelay == t3 - t2
    {
      this.t1, this.t2, localDelay := t1, t2, t3 - t2;
    }

    /** T4 over TCP sets the offset at the end of the initial interval. */
    method HandleInitialT4(t4: int)
      requires Valid()
      modifies this, samples
      ensures Valid() && samples == old(samples)
      ensures var all := old(estimates) + [EstimatedError(Exchange(old(t1), old(t2), old(t2) + old(localDelay), t4))];
              && estimates == (if |all| == 10 then [] else all)
              && offset == (if |all| == 10 then History(all) else old(offset))
    {
      var complete := Record(t4);
      if complete {
        offset := history;
        Reset();
      }
    }

    /** T4 over UDP: an impure round is skipped; the last of an interval adjusts the offset by a fraction. */
    method HandleT4(t4: int, probe: Option<Probe>) returns (accepted: bool)
      requires Valid()
      modifies this, samples
      ensures Valid() && samples == old(samples)
      ensures accepted <==>
                && probe.Some?
                && var (here, there) := (probe.value.receivedProbe - probe.value.receivedT4, probe.value.payload - t4);
                   -100_000 < here - there < 100_000
      ensures probe.Some? ==> (accepted <==> IsPure(t4, probe.value))
      ensures !accepted ==> offset == old(offset) && estimates == old(estimates)
      ensures accepted ==>
                var all := old(estimates) + [EstimatedError(Exchange(old(t1), old(t2), old(t2) + old(localDelay), t4))];
                && estimates == (if |all| == 10 then [] else all)
                && offset == old(offset) + (if |all| == 10 then Quotient(History(all), 10) else 0)
    {
      if probe.None? {
        return false;
      }
      var gap := (probe.value.receivedProbe - probe.value.receivedT4) - (probe.value.payload - t4);
      accepted := -GUARD_BAND < gap < GUARD_BAND;
      if !accepted {
        return;
      }
      var complete := Record(t4);
      if complete {
        offset := offset + Quotient(history, ATTENUATION);
        Reset();
      }
    }

    /** Add one exchange to the statistics; true when it completes the interval. */
    method Record(t4: int) returns (complete: bool)
      requires Valid()
      modifies this, samples
      ensures samples == old(samples) && samples.Length == EXCHANGES_PER_INTERVAL && sampleIndex < EXCHANGES_PER_INTERVAL
      ensures estimates == old(estimates) + [EstimatedError(Exchange(old(t1), old(t2), old(t2) + old(localDelay), t4))]
      ensures history == History(estimates) && receivedT4 == |estimates|
      ensures complete <==> receivedT4 == EXCHANGES_PER_INTERVAL
      ensures var roundTrip := (t4 - t1) - localDelay;
              roundTripMax == if roundTrip > old(roundTripMax) then roundTrip else old(roundTripMax)
      ensures offset == old(offset)
      ensures samples[old(sampleIndex)] == (t4 - t1) - localDelay
      ensures sampleIndex == (old(sampleIndex) + 1) % EXCHANGES_PER_INTERVAL
    {
      var roundTrip := (t4 - t1) - localDelay;
      var error := Quotient(roundTrip, 2) - (t2 - t1);
      samples[sampleIndex] := roundTrip;
      sampleIndex := if sampleIndex + 1 == EXCHANGES_PER_INTERVAL then 0 else sampleIndex + 1;
      if roundTrip > roundTripMax {
        roundTripMax := roundTrip;
      }
      ghost var before := estimates;
      estimates := estimates + [error];
      assert estimates[..|before|] == before;
      history := history + Quotient(error, EXCHANGES_PER_INTERVAL);
      receivedT4 := receivedT4 + 1;
      complete := receivedT4 == EXCHANGES_PER_INTERVAL;
    }
  }

  /** The clock that applies the offset and never repeats or goes back. */
  class Clock {
    var last: int

    constructor (start: int)
      ensures last == start
    {
      last := start;
    }

    method GetTime(raw: int, offset: int) returns (now: int)
      modifies this
      ensures now == last == Reading(old(last), raw, offset)
      ensures now == if raw + offset > old(last) then raw + offset else old(last) + 1
    {
      now := raw + offset;
      if now <= last {
        now := last + 1;
      }
      last := now;
    }
  }
}
