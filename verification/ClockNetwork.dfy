/** The clock's error in terms of the network alone: one-way delays, turnaround in the node, and how long a beacon waits
    to be handled. */
module ClockNetwork {
  import opened Bytes
  import opened Clock
  import opened ClockLaws
  import opened ClockRuns
  import opened ClockAccuracy

  /** Every one-way delay lies between the two bounds; the node answers a sample within `turnaround` microseconds and
      handles a beacon within `latency` of its reception. */
  datatype Network = Network(minDelay: real, maxDelay: real, turnaround: nat, latency: real)

  ghost predicate Possible(net: Network, skew: real) {
    && skew >= 0.0 && 0.0 <= net.minDelay <= net.maxDelay && net.latency >= 0.0
    && 2.0 * net.maxDelay + Share(skew, net.turnaround) < TWO32 as real
  }

  predicate DelayIn(x: real, net: Network) {
    net.minDelay <= x <= net.maxDelay
  }

  /** A message as the network carried it; the host's stamps are true host time. Forced steps come from an operator and
      are no messages. */
  ghost predicate Carried(tick: Tick, host: int -> real, net: Network) {
    match tick.event
    case Rtt(t1, t2, t3, t4) =>
      && t1 < TWO63 && t2 <= t3 <= t2 + net.turnaround && t3 < TWO63 && t4 < TWO63
      && DelayIn(host(t2) - t1 as real, net) && DelayIn(t4 as real - host(t3), net)
    case Beacon(master, localRx) =>
      DelayIn(host(localRx) - master as real, net) && 0.0 <= host(tick.now) - host(localRx) <= net.latency
    case ForceStep(_) => false
    case _ => true
  }

  /** What a delay estimate can be off by: the spread of the delays, what the oscillator adds during a turnaround, the
      time a beacon waits, and rounding. */
  function EstimateError(net: Network, skew: real): real {
    net.maxDelay - net.minDelay + Share(skew, net.turnaround) / 2.0 + net.latency + 0.5
  }

  /** The stored round trip is that of some sample. */
  ghost predicate Calibrated(c: Clock, skew: real, net: Network) {
    var slack := Share(skew, net.turnaround);
    2.0 * net.minDelay - slack <= c.lastRtt as real <= 2.0 * net.maxDelay + slack
  }

  // ---------- one message ----------

  lemma ShareGrows(skew: real, x: nat, y: nat)
    requires skew >= 0.0 && x <= y
    ensures 0.0 <= Share(skew, x) <= Share(skew, y)
  {
    Scale(skew, x as real, y as real);
  }

  /** The oscillator's error over a turnaround. */
  lemma TurnaroundError(t2: u64, t3: u64, host: int -> real, skew: real, net: Network)
    requires Drifts(host, skew) && t2 <= t3 <= t2 + net.turnaround
    ensures Within(host(t3) - host(t2) - (t3 - t2) as real, Share(skew, net.turnaround))
  {
    hide Share;
    DriftsSkew(host, skew);
    DriftsBetween(host, skew, t2, t3);
    ShareGrows(skew, t3 - t2, net.turnaround);
  }

  /** Round trip of the stamps before it is stored. */
  function RawRoundTrip(t1: u64, t2: u64, t3: u64, t4: u64): int {
    t4 - t1 - (t3 - t2)
  }

  lemma RoundTripStored(t1: u64, t2: u64, t3: u64, t4: u64)
    requires t1 < TWO63 && t2 < TWO63 && t3 < TWO63 && t4 < TWO63 && RawRoundTrip(t1, t2, t3, t4) < TWO32
    ensures var raw := RawRoundTrip(t1, t2, t3, t4);
            RoundTrip(t1, t2, t3, t4) == if raw < 0 then 0 else raw
  {
    hide Diff64;
    SmallDiff(t4, t1);
    SmallDiff(t3, t2);
  }

  lemma SampleMeasures(t1: u64, t2: u64, t3: u64, t4: u64, now: u64, host: int -> real, skew: real, net: Network)
    requires Drifts(host, skew) && Possible(net, skew) && Carried(Tick(now, Rtt(t1, t2, t3, t4)), host, net)
    ensures var rtt := RoundTrip(t1, t2, t3, t4) as real;
            var d1, d2 := host(t2) - t1 as real, t4 as real - host(t3);
            var most := d1 + d2 + Share(skew, net.turnaround);
            && rtt <= (if most < 0.0 then 0.0 else most)
            && d1 + d2 - Share(skew, net.turnaround) <= rtt
  {
    hide Share, RoundTrip, Drifts;
    TurnaroundError(t2, t3, host, skew, net);
    var raw := RawRoundTrip(t1, t2, t3, t4);
    assert raw as real == t4 as real - t1 as real - (t3 as real - t2 as real);
    RoundTripStored(t1, t2, t3, t4);
  }

  lemma HalfDown(x: u32)
    ensures x as real / 2.0 - 0.5 <= (x / 2) as real <= x as real / 2.0
  {}

  lemma SmallSum(a: u64, b: nat)
    requires a <= HORIZON && b < TWO32
    ensures Wrap64(a + b) == a + b
  {}

  /** A sample's estimate of host time at t2, and the round trip it leaves. */
  lemma SampleIsAccurate(c: Clock, now: u64, t1: u64, t2: u64, t3: u64, t4: u64, host: int -> real, skew: real,
                         net: Network)
    requires Drifts(host, skew) && Possible(net, skew) && Carried(Tick(now, Rtt(t1, t2, t3, t4)), host, net)
    requires t1 <= HORIZON
    ensures Accurate(c, Tick(now, Rtt(t1, t2, t3, t4)), host, EstimateError(net, skew))
    ensures var rtt := RoundTrip(t1, t2, t3, t4) as real;
            2.0 * net.minDelay - Share(skew, net.turnaround) <= rtt <= 2.0 * net.maxDelay + Share(skew, net.turnaround)
  {
    hide Share, RoundTrip, Drifts, RttSteps;
    DriftsSkew(host, skew);
    ShareGrows(skew, 0, net.turnaround);
    SampleMeasures(t1, t2, t3, t4, now, host, skew, net);
    HalfDown(RoundTrip(t1, t2, t3, t4));
    SmallSum(t1, RoundTrip(t1, t2, t3, t4) / 2);
  }

  /** A beacon whose one-way delay is d, after a sample that stored the round trip: its target is within the difference
      of d and half that round trip, plus half a microsecond, of host time at reception. */
  lemma BeaconTargetError(c: Clock, master: u64, localRx: u64, host: int -> real, d: real)
    requires master <= HORIZON && host(localRx) == master as real + d
    ensures BeaconTarget(c, master) as real - host(localRx) <= c.lastRtt as real / 2.0 - d
    ensures BeaconTarget(c, master) as real - host(localRx) >= c.lastRtt as real / 2.0 - d - 0.5
  {
    HalfDown(c.lastRtt);
    SmallSum(master, c.lastRtt / 2);
  }

  /** After a sample on the same network a beacon is accurate, too. */
  lemma BeaconIsAccurate(c: Clock, now: u64, master: u64, localRx: u64, host: int -> real, skew: real, net: Network)
    requires Possible(net, skew) && Calibrated(c, skew, net) && master <= HORIZON
    requires Carried(Tick(now, Beacon(master, localRx)), host, net)
    ensures Accurate(c, Tick(now, Beacon(master, localRx)), host, EstimateError(net, skew))
  {
    hide Share, BeaconTarget, BeaconSteps;
    ShareGrows(skew, 0, net.turnaround);
    BeaconTargetError(c, master, localRx, host, host(localRx) - master as real);
  }

  // ---------- every run ----------

  /** No beacon comes before the first sample. */
  predicate SampleFirst(ticks: seq<Tick>) {
    ticks == [] || ticks[0].event.Rtt? || (!ticks[0].event.Beacon? && SampleFirst(ticks[1..]))
  }

  ghost predicate AllCarried(ticks: seq<Tick>, host: int -> real, net: Network) {
    forall i :: 0 <= i < |ticks| ==> Carried(ticks[i], host, net)
  }

  lemma RoundTripKept(c: Clock, tick: Tick)
    ensures After(c, tick).lastRtt
         == match tick.event { case Rtt(t1, t2, t3, t4) => RoundTrip(t1, t2, t3, t4) case _ => c.lastRtt }
  {
    hide Read, RttSteps, BeaconSteps, PhaseError, Offset, RoundTrip, SlewRate, Accumulated, Wrap32;
  }

  lemma TickIsAccurate(c: Clock, tick: Tick, host: int -> real, skew: real, net: Network)
    requires Drifts(host, skew) && Possible(net, skew) && Plausible(c, tick) && Carried(tick, host, net)
    requires tick.event.Beacon? ==> Calibrated(c, skew, net)
    ensures Accurate(c, tick, host, EstimateError(net, skew))
    ensures Calibrated(c, skew, net) || tick.event.Rtt? ==> Calibrated(After(c, tick), skew, net)
  {
    hide Drifts, Possible, Share, After, Accurate, RoundTrip, EstimateError;
    RoundTripKept(c, tick);
    match tick.event
    case Rtt(t1, t2, t3, t4) => SampleIsAccurate(c, tick.now, t1, t2, t3, t4, host, skew, net);
    case Beacon(master, localRx) => BeaconIsAccurate(c, tick.now, master, localRx, host, skew, net);
    case _ => OthersAccurate(c, tick, host, EstimateError(net, skew));
  }

  lemma OthersAccurate(c: Clock, tick: Tick, host: int -> real, error: real)
    requires !IsSync(tick) && !tick.event.ForceStep?
    ensures Accurate(c, tick, host, error)
  {}

  lemma {:induction false} RunIsAccurate(c: Clock, from: u64, ticks: seq<Tick>, host: int -> real, skew: real,
                                         net: Network)
    requires Drifts(host, skew) && Possible(net, skew) && History(c, from, ticks) && AllCarried(ticks, host, net)
    requires Calibrated(c, skew, net) || SampleFirst(ticks)
    ensures AccurateRun(c, ticks, host, EstimateError(net, skew))
    decreases |ticks|
  {
    hide Drifts, Possible, Calibrated, After, Accurate, EstimateError, Plausible, Carried;
    if ticks != [] {
      var rest := ticks[1..];
      assert forall i :: 0 <= i < |rest| ==> rest[i] == ticks[i + 1];
      TickIsAccurate(c, ticks[0], host, skew, net);
      RunIsAccurate(After(c, ticks[0]), ticks[0].now, rest, host, skew, net);
    }
  }

  /** From init on, when a sample comes before the first beacon: what the network and the oscillator do bounds what the
      clock shows, however long the run. */
  lemma NetworkClockError(c: Clock, ticks: seq<Tick>, t: u64, host: int -> real, skew: real, net: Network)
    requires Drifts(host, skew) && Possible(net, skew) && History(AfterInit(c), 0, ticks)
    requires AllCarried(ticks, host, net) && SampleFirst(ticks)
    requires Latest(0, ticks) <= t < HORIZON && !NoSync(ticks)
    ensures var a := AnchorRun(Anchor(0.0, 0, 0), AfterInit(c), ticks, EstimateError(net, skew));
            && a.at <= t
            && Within(Read(Run(AfterInit(c), ticks), t) as real - host(t),
                      100000.0 + EstimateError(net, skew) + Spread(skew, t - a.at)
                      + a.rebases as real + 1.0)
  {
    hide Drifts, History, AllCarried, SampleFirst, NoSync, AccurateRun, AnchorRun, Run, Read, EstimateError, AfterInit;
    RunIsAccurate(AfterInit(c), 0, ticks, host, skew, net);
    EstimateNonNegative(net, skew);
    BoundedClockError(c, ticks, t, host, skew, EstimateError(net, skew));
  }

  lemma EstimateNonNegative(net: Network, skew: real)
    requires Possible(net, skew)
    ensures EstimateError(net, skew) >= 0.0
  {
    hide Share;
    ShareGrows(skew, 0, net.turnaround);
  }

  /** A beacon before any sample knows no delay: its target is behind host time by the whole one-way delay. */
  lemma UncalibratedBeaconLags(c: Clock, master: u64, localRx: u64, host: int -> real, d: nat)
    requires c.lastRtt == 0 && master <= HORIZON && host(localRx) == (master + d) as real
    ensures BeaconTarget(c, master) as real == host(localRx) - d as real
  {
    SmallSum(master, 0);
  }
}
