/** How far the clock can be from true host time over a whole run. */
module ClockAccuracy {
  import opened Bytes
  import opened Clock
  import opened ClockLaws
  import opened ClockRuns

  /** True host time as a function of the local time shown; the local oscillator runs fast or slow by at most `skew`
      (parts of one). */
  ghost predicate Drifts(host: int -> real, skew: real) {
    && skew >= 0.0
    && forall a, b :: 0 <= a <= b ==> Within(host(b) - host(a) - (b - a) as real, Share(skew, b - a))
  }

  predicate Within(x: real, bound: real) {
    -bound <= x <= bound
  }

  /** What a relative rate adds up to in `elapsed` microseconds. */
  function Share(rate: real, elapsed: nat): (r: real)
    ensures rate >= 0.0 ==> r >= 0.0
  {
    rate * elapsed as real
  }

  /** What rate error of the clock and skew of the oscillator can add up to in `elapsed` microseconds. */
  function Spread(skew: real, elapsed: nat): (r: real)
    requires skew >= 0.0
    ensures r >= 0.0
  {
    Share(0.0005 + skew, elapsed)
  }

  /** The point the error is counted from: the error there, its local time, and the rate changes since. */
  datatype Anchor = Anchor(error: real, at: u64, rebases: nat) {
    function Bound(skew: real, t: u64): real
      requires skew >= 0.0 && at <= t
    {
      error + Spread(skew, t - at) + rebases as real
    }
  }

  /** The latest beacon or step. A round trip that only bends the rate re-bases the line on a whole microsecond. */
  function AnchorAfter(a: Anchor, c: Clock, tick: Tick, delayError: real): Anchor {
    match tick.event
    case Rtt(t1, t2, t3, t4) =>
      if RttSteps(c, t1, t2, t3, t4) then Anchor(delayError, t2, 0) else a.(rebases := a.rebases + 1)
    case Beacon(master, localRx) =>
      if BeaconSteps(c, tick.now, master) then Anchor(delayError, localRx, 0)
      else Anchor(100000.0 + delayError, tick.now, 0)
    case ForceStep(_) => Anchor(delayError, tick.now, 0)
    case _ => a
  }

  function AnchorRun(a: Anchor, c: Clock, ticks: seq<Tick>, delayError: real): Anchor
    decreases |ticks|
  {
    if ticks == [] then a
    else AnchorRun(AnchorAfter(a, c, ticks[0], delayError), After(c, ticks[0]), ticks[1..], delayError)
  }

  /** Every message estimates the host time it stands for to within delayError. */
  ghost predicate Accurate(c: Clock, tick: Tick, host: int -> real, delayError: real) {
    match tick.event
    case Rtt(t1, t2, t3, t4) =>
      RttSteps(c, t1, t2, t3, t4) ==> Within(HostAtT2(t1, t2, t3, t4) as real - host(t2), delayError)
    case Beacon(master, localRx) =>
      Within(BeaconTarget(c, master) as real - host(if BeaconSteps(c, tick.now, master) then localRx else tick.now),
             delayError)
    case ForceStep(correction) => Within((Read(c, tick.now) + correction) as real - host(tick.now), delayError)
    case _ => true
  }

  ghost predicate AccurateRun(c: Clock, ticks: seq<Tick>, host: int -> real, delayError: real)
    decreases |ticks|
  {
    ticks == []
    || (Accurate(c, ticks[0], host, delayError) && AccurateRun(After(c, ticks[0]), ticks[1..], host, delayError))
  }

  /** At its reference point a synchronised clock is within the bound counted from the anchor. */
  ghost predicate Tracks(c: Clock, a: Anchor, host: int -> real, skew: real)
    requires skew >= 0.0
  {
    c.state == UNSYNCHRONIZED
    || (a.at <= c.localRef && Within(c.epochBase as real - host(c.localRef), a.Bound(skew, c.localRef)))
  }

  // ---------- arithmetic ----------

  lemma SpreadAdds(skew: real, x: nat, y: nat)
    requires skew >= 0.0
    ensures Spread(skew, x + y) == Spread(skew, x) + Spread(skew, y)
  {}

  lemma SpreadZero(skew: real)
    requires skew >= 0.0
    ensures Spread(skew, 0) == 0.0
  {}

  lemma SpreadSplits(skew: real, x: nat)
    requires skew >= 0.0
    ensures Spread(skew, x) == Share(0.0005, x) + Share(skew, x)
  {}

  lemma DriftsSkew(host: int -> real, skew: real)
    requires Drifts(host, skew)
    ensures skew >= 0.0
  {}

  lemma WithinAdds(x: real, y: real, z: real, p: real, q: real)
    requires Within(x - y, p) && Within(y - z, q)
    ensures Within(x - z, p + q)
  {}

  lemma WithinWidens(x: real, p: real, q: real)
    requires Within(x, p) && p <= q
    ensures Within(x, q)
  {}

  lemma ReferenceBefore(c: Clock, t: u64)
    requires InRange(c, t)
    ensures c.localRef <= t
  {}

  /** Between reference point and t the line and host time grow apart by at most the spread, and one microsecond is
      lost to truncation. */
  lemma SegmentError(c: Clock, t: u64, host: int -> real, skew: real)
    requires c.state != UNSYNCHRONIZED && InRange(c, t) && Drifts(host, skew)
    ensures Within((Read(c, t) - c.epochBase) as real - (host(t) - host(c.localRef)),
                   Spread(skew, t - c.localRef) + 1.0)
  {
    hide Read, Line, Spread, Share, Drifts, InRange;
    ReadIsLine(c, t);
    ReferenceBefore(c, t);
    LineWithin(c, t);
    DriftsSkew(host, skew);
    SpreadSplits(skew, t - c.localRef);
    DriftsBetween(host, skew, c.localRef, t);
    var d := (t - c.localRef) as real;
    FloorError(Line(c, t), d, host(t) - host(c.localRef),
               Share(0.0005, t - c.localRef), Share(skew, t - c.localRef));
  }

  lemma LineWithin(c: Clock, t: u64)
    requires InRange(c, t)
    ensures Within(Line(c, t) - (t - c.localRef) as real, Share(0.0005, t - c.localRef))
  {
    hide Line;
    LineBounds(c, t);
  }

  lemma DriftsBetween(host: int -> real, skew: real, a: nat, b: nat)
    requires Drifts(host, skew) && a <= b
    ensures Within(host(b) - host(a) - (b - a) as real, Share(skew, b - a))
  {}

  lemma FloorError(line: real, d: real, h: real, m: real, s: real)
    requires Within(line - d, m) && Within(h - d, s)
    ensures Within(line.Floor as real - h, m + s + 1.0)
  {}

  /** The error of any reading, from the error at the reference point. */
  lemma ReadingError(c: Clock, a: Anchor, t: u64, host: int -> real, skew: real)
    requires c.state != UNSYNCHRONIZED && InRange(c, t) && Drifts(host, skew) && Tracks(c, a, host, skew)
    ensures a.at <= t && Within(Read(c, t) as real - host(t), a.Bound(skew, t) + 1.0)
  {
    hide Read, Spread, Drifts, InRange;
    ReferenceBefore(c, t);
    DriftsSkew(host, skew);
    SegmentError(c, t, host, skew);
    SpreadAdds(skew, c.localRef - a.at, t - c.localRef);
  }

  // ---------- every event ----------

  lemma AnchorAtReference(error: real, at: u64, skew: real)
    requires skew >= 0.0
    ensures Anchor(error, at, 0).Bound(skew, at) == error
  {
    SpreadZero(skew);
  }

  lemma RttTracks(c: Clock, a: Anchor, now: u64, t1: u64, t2: u64, t3: u64, t4: u64, host: int -> real, skew: real,
                  delayError: real)
    requires Drifts(host, skew) && Sound(c, now) && Tracks(c, a, host, skew)
    requires Accurate(c, Tick(now, Rtt(t1, t2, t3, t4)), host, delayError)
    ensures Tracks(AfterRtt(c, now, t1, t2, t3, t4), AnchorAfter(a, c, Tick(now, Rtt(t1, t2, t3, t4)), delayError),
                   host, skew)
  {
    hide Read, RoundTrip, Offset, HostAtT2, Drifts, InRange, RttSteps, SlewRate, Accumulated, Spread;
    DriftsSkew(host, skew);
    if RttSteps(c, t1, t2, t3, t4) {
      AnchorAtReference(delayError, t2, skew);
    } else {
      SlewingIsSynchronised(c, t1, t2, t3, t4);
      ReadingError(c, a, now, host, skew);
      RttRebase(c, now, t1, t2, t3, t4);
    }
  }

  lemma SlewingIsSynchronised(c: Clock, t1: u64, t2: u64, t3: u64, t4: u64)
    requires !RttSteps(c, t1, t2, t3, t4)
    ensures c.state != UNSYNCHRONIZED
  {}

  lemma ReadIgnoresMetrics(c: Clock, d: Clock, t: u64)
    requires d.state == c.state && d.epochBase == c.epochBase && d.localRef == c.localRef && d.driftRate == c.driftRate
    ensures Read(d, t) == Read(c, t)
  {
    hide Diff64, Scaled, Truncate;
  }

  lemma RttRebase(c: Clock, now: u64, t1: u64, t2: u64, t3: u64, t4: u64)
    requires !RttSteps(c, t1, t2, t3, t4)
    ensures var d := AfterRtt(c, now, t1, t2, t3, t4);
            d.epochBase == Read(c, now) && d.localRef == now
  {
    hide Read, RoundTrip, Offset, HostAtT2, RttSteps, SlewRate, Accumulated;
    var d := RttRecorded(c, RoundTrip(t1, t2, t3, t4), Offset(t1, t2, t3, t4));
    ReadIgnoresMetrics(c, d, now);
  }

  lemma BeaconRebase(c: Clock, now: u64, master: u64, localRx: u64)
    ensures var d := AfterBeacon(c, now, master, localRx);
            if BeaconSteps(c, now, master) then d.epochBase == BeaconTarget(c, master) && d.localRef == localRx
            else d.epochBase == Read(c, now) && d.localRef == now
  {
    hide Read, BeaconTarget, PhaseError, BeaconSteps, SlewRate, Accumulated;
    var d := BeaconSeen(c).(lastOffset := -PhaseError(c, now, master));
    ReadIgnoresMetrics(c, d, now);
  }

  /** A beacon that does not step found the clock within the threshold of its target. */
  lemma BeaconSlewIsClose(c: Clock, now: u64, master: u64)
    requires !BeaconSteps(c, now, master) && InRange(c, now) && master <= HORIZON
    ensures Within((Read(c, now) - BeaconTarget(c, master)) as real, 100000.0)
  {
    hide Read;
    ReadIsLine(c, now);
    SmallWrapBound(master + c.lastRtt / 2);
  }

  lemma BeaconTracks(c: Clock, a: Anchor, now: u64, master: u64, localRx: u64, host: int -> real, skew: real,
                     delayError: real)
    requires Drifts(host, skew) && Sound(c, now) && Tracks(c, a, host, skew) && master <= HORIZON
    requires Accurate(c, Tick(now, Beacon(master, localRx)), host, delayError)
    ensures Tracks(AfterBeacon(c, now, master, localRx),
                   AnchorAfter(a, c, Tick(now, Beacon(master, localRx)), delayError), host, skew)
  {
    hide Read, BeaconTarget, Drifts, InRange, BeaconSteps, AfterBeacon, Spread;
    DriftsSkew(host, skew);
    BeaconRebase(c, now, master, localRx);
    AnchorAtReference(delayError, localRx, skew);
    AnchorAtReference(100000.0 + delayError, now, skew);
    if !BeaconSteps(c, now, master) {
      BeaconSlewingIsSynchronised(c, now, master);
      BeaconSlewIsClose(c, now, master);
      WithinAdds(Read(c, now) as real, BeaconTarget(c, master) as real, host(now),
                 100000.0, delayError);
    }
  }

  lemma BeaconSlewingIsSynchronised(c: Clock, now: u64, master: u64)
    requires !BeaconSteps(c, now, master)
    ensures c.state != UNSYNCHRONIZED
  {}

  lemma ForceStepTracks(c: Clock, now: u64, correction: int, host: int -> real, skew: real, delayError: real)
    requires skew >= 0.0 && Plausible(c, Tick(now, ForceStep(correction)))
    requires Accurate(c, Tick(now, ForceStep(correction)), host, delayError)
    ensures Tracks(AfterForceStep(c, now, correction), Anchor(delayError, now, 0), host, skew)
  {
    hide Read, Spread;
    AnchorAtReference(delayError, now, skew);
    SmallWrap(Read(c, now) + correction);
  }

  lemma TickTracks(c: Clock, a: Anchor, tick: Tick, host: int -> real, skew: real, delayError: real)
    requires Drifts(host, skew) && Sound(c, tick.now) && Tracks(c, a, host, skew) && Plausible(c, tick)
    requires Accurate(c, tick, host, delayError)
    ensures Tracks(After(c, tick), AnchorAfter(a, c, tick, delayError), host, skew)
  {
    hide Drifts, Sound, Accurate, Read, AfterRtt, AfterBeacon, AfterForceStep, Spread;
    match tick.event
    case Rtt(t1, t2, t3, t4) => RttTracks(c, a, tick.now, t1, t2, t3, t4, host, skew, delayError);
    case Beacon(master, localRx) => BeaconTracks(c, a, tick.now, master, localRx, host, skew, delayError);
    case ForceStep(correction) => DriftsSkew(host, skew);
      ForceStepTracks(c, tick.now, correction, host, skew, delayError);
    case _ =>
  }

  /** What Accurate asks of a round trip that steps, in terms of the network: the estimate is off by half the
      asymmetry of the two delays and half a microsecond of rounding. */
  lemma RoundTripIsAccurate(c: Clock, now: u64, t1: u64, t2: u64, t3: u64, t4: u64, d1: nat, d2: nat, q: int,
                            host: int -> real)
    requires t1 < TWO63 && t2 < TWO63 && t3 < TWO63 && t4 < TWO63 && t2 <= t3
    requires t2 == t1 + d1 + q && t4 == t3 - q + d2 && d1 + d2 < TWO32
    requires host(t2) == (t1 + d1) as real
    ensures Accurate(c, Tick(now, Rtt(t1, t2, t3, t4)), host, (Abs(d1 - d2) + 1) as real / 2.0)
  {
    hide HostAtT2, RoundTrip, Offset, RttSteps;
    NtpAccuracy(t1, t2, t3, t4, d1, d2, q);
  }

  // ---------- every run ----------

  lemma {:induction false} RunTracks(c: Clock, a: Anchor, from: u64, ticks: seq<Tick>, host: int -> real, skew: real,
                                     delayError: real)
    requires Drifts(host, skew) && Sound(c, from) && Tracks(c, a, host, skew)
    requires History(c, from, ticks) && AccurateRun(c, ticks, host, delayError)
    ensures Tracks(Run(c, ticks), AnchorRun(a, c, ticks, delayError), host, skew)
    decreases |ticks|
  {
    hide Drifts, Sound, Tracks, Accurate, Plausible, After, AnchorAfter;
    if ticks != [] {
      var tick := ticks[0];
      PlausibleTime(c, tick);
      SoundLater(c, from, tick.now);
      TickTracks(c, a, tick, host, skew, delayError);
      TickStaysSound(c, tick);
      RunTracks(After(c, tick), AnchorAfter(a, c, tick, delayError), tick.now, ticks[1..], host, skew, delayError);
    }
  }

  /** An anchor is never worse than one slewing beacon. */
  lemma {:induction false} AnchorErrorBound(a: Anchor, c: Clock, ticks: seq<Tick>, delayError: real)
    requires a.error <= 100000.0 + delayError
    ensures AnchorRun(a, c, ticks, delayError).error <= 100000.0 + delayError
    decreases |ticks|
  {
    hide After, RttSteps, BeaconSteps;
    if ticks != [] {
      AnchorErrorBound(AnchorAfter(a, c, ticks[0], delayError), After(c, ticks[0]), ticks[1..], delayError);
    }
  }

  /** From init on, locked or coasting in holdover alike: with delay estimates off by at most delayError and an
      oscillator skew of at most `skew`, a reading `elapsed` local microseconds after the latest beacon or step is
      within 100000 + delayError + (0.0005 + skew) * elapsed microseconds of true host time, plus one microsecond per
      re-basing since and one for the reading itself. */
  lemma BoundedClockError(c: Clock, ticks: seq<Tick>, t: u64, host: int -> real, skew: real, delayError: real)
    requires Drifts(host, skew) && delayError >= 0.0
    requires History(AfterInit(c), 0, ticks) && AccurateRun(AfterInit(c), ticks, host, delayError)
    requires Latest(0, ticks) <= t < HORIZON && !NoSync(ticks)
    ensures var a := AnchorRun(Anchor(0.0, 0, 0), AfterInit(c), ticks, delayError);
            && a.at <= t
            && Within(Read(Run(AfterInit(c), ticks), t) as real - host(t),
                      100000.0 + delayError + Spread(skew, t - a.at) + a.rebases as real + 1.0)
  {
    hide Drifts, Read, Spread, Tracks, InRange, After, NoSync;
    var c0, a0 := AfterInit(c), Anchor(0.0, 0, 0);
    var d, a := Run(c0, ticks), AnchorRun(a0, c0, ticks, delayError);
    DriftsSkew(host, skew);
    FreshTracks(c, host, skew);
    RunTracks(c0, a0, 0, ticks, host, skew, delayError);
    RunStaysSound(c0, 0, ticks);
    SoundLater(d, Latest(0, ticks), t);
    UnsynchronizedUntilFirstMessage(c, ticks);
    ReadingError(d, a, t, host, skew);
    AnchorErrorBound(a0, c0, ticks, delayError);
    WithinWidens(Read(d, t) as real - host(t), a.Bound(skew, t) + 1.0,
                 100000.0 + delayError + Spread(skew, t - a.at) + a.rebases as real + 1.0);
  }

  lemma FreshTracks(c: Clock, host: int -> real, skew: real)
    requires skew >= 0.0
    ensures Tracks(AfterInit(c), Anchor(0.0, 0, 0), host, skew)
  {}
}
