/** What a single message makes of the clock, written out in the message's own numbers. */
module ClockMessages {
  import opened Bytes
  import opened Clock
  import opened ClockLaws
  import opened ClockRuns

  /** The wanted rate, held within 500 parts per million. */
  predicate Limited(rate: real, wanted: real) {
    rate == if wanted > 0.0005 then 0.0005 else if wanted < -0.0005 then -0.0005 else wanted
  }

  /** The proportional and integral answer to an error of `error` microseconds, host minus clock. */
  function Wanted(kp: real, ki: real, integral: real, error: int): real {
    kp * (error as real / 1000000.0) + ki * (integral + error as real * 0.001)
  }

  /** A clock bent by an error of `error` microseconds, host minus clock. */
  predicate BentBy(d: Clock, c: Clock, now: u64, error: int) {
    && d.integralError == c.integralError + error as real * 0.001
    && Limited(d.driftRate, Wanted(c.kp, c.ki, c.integralError, error))
    && d.epochBase == Read(c, now) && d.localRef == now
    && d.kp == c.kp && d.ki == c.ki && d.stepCount == c.stepCount
  }

  /** A slew keeps the accumulated error plus a thousandth of the present one, and answers both. */
  lemma SlewBends(c: Clock, now: u64, offset: int)
    ensures BentBy(AfterSlew(c, now, offset), c, now, -offset)
  {
    hide Read, Correction, Accumulated, Limited, Wanted;
    CorrectionWritten(c.kp, c.ki, c.integralError, -offset);
    ClampWritten(Correction(c.kp, c.ki, Accumulated(c.integralError, offset), offset));
  }

  lemma CorrectionWritten(kp: real, ki: real, integral: real, error: int)
    ensures Accumulated(integral, -error) == integral + error as real * 0.001
    ensures Correction(kp, ki, Accumulated(integral, -error), -error)
         == Wanted(kp, ki, integral, error)
  {}

  lemma ClampWritten(wanted: real)
    ensures Limited(Clamp(wanted), wanted)
  {}

  lemma BentIgnoresMetrics(d: Clock, c: Clock, b: Clock, now: u64, error: int)
    requires BentBy(d, b, now, error)
    requires b.integralError == c.integralError && b.kp == c.kp && b.ki == c.ki && b.stepCount == c.stepCount
    requires Read(b, now) == Read(c, now)
    ensures BentBy(d, c, now, error)
  {
    hide Read, Limited, Wanted;
  }

  lemma SyncedBends(d: Clock, c: Clock, now: u64, error: int, next: SyncState, local: u64, utc: u64)
    requires BentBy(d, c, now, error)
    ensures BentBy(Synced(d, next, local, utc), c, now, error)
  {
    hide Read, Limited, Wanted;
  }

  lemma RecordedReads(c: Clock, rtt: u32, offset: int, now: u64)
    ensures Read(RttRecorded(c, rtt, offset), now) == Read(c, now)
  {
    hide Diff64, Truncate, Scaled, Wrap64;
  }

  lemma SeenReads(c: Clock, offset: int, now: u64)
    ensures Read(BeaconSeen(c).(lastOffset := offset), now) == Read(c, now)
  {
    hide Diff64, Truncate, Scaled, Wrap64;
  }

  // ---------- round-trip samples ----------

  /** The offset measured on a path with delays d1 and d2 when the node is ahead by q: half of 2q + d1 - d2, cut towards
      zero. */
  function Measured(q: int, d1: nat, d2: nat): (m: int)
    ensures d1 == d2 ==> m == q
  {
    var x := 2 * q + d1 - d2;
    if x >= 0 then x / 2 else -((-x) / 2)
  }

  lemma OffsetIsMeasured(t1: u64, t2: u64, t3: u64, t4: u64, d1: nat, d2: nat, q: int)
    requires t1 < TWO63 && t2 < TWO63 && t3 < TWO63 && t4 < TWO63
    requires t2 == t1 + d1 + q && t4 == t3 - q + d2
    ensures Offset(t1, t2, t3, t4) == Measured(q, d1, d2)
  {
    hide Diff64;
    SmallDiff(t2, t1);
    SmallDiff(t3, t4);
  }

  /** A sample that does not step bends the clock by the measured offset, with the opposite sign. */
  lemma SampleBends(c: Clock, now: u64, t1: u64, t2: u64, t3: u64, t4: u64, d1: nat, d2: nat, q: int)
    requires t1 < TWO63 && t2 < TWO63 && t3 < TWO63 && t4 < TWO63 && t2 <= t3
    requires t2 == t1 + d1 + q && t4 == t3 - q + d2
    requires c.state != UNSYNCHRONIZED && Abs(Measured(q, d1, d2)) <= 100000
    ensures var d := AfterRtt(c, now, t1, t2, t3, t4);
            && d.state == LOCKED && d.holdoverElapsedMs == 0
            && d.lastOffset == Measured(q, d1, d2)
            && BentBy(d, c, now, -Measured(q, d1, d2))
  {
    hide Read, Limited, BentBy, Measured, Offset, RoundTrip, HostAtT2, AfterSlew;
    OffsetIsMeasured(t1, t2, t3, t4, d1, d2, q);
    var b := RttRecorded(c, RoundTrip(t1, t2, t3, t4), Measured(q, d1, d2));
    RecordedReads(c, RoundTrip(t1, t2, t3, t4), Measured(q, d1, d2), now);
    SlewBends(b, now, Measured(q, d1, d2));
    BentIgnoresMetrics(AfterSlew(b, now, Measured(q, d1, d2)), c, b, now, -Measured(q, d1, d2));
    SlewFields(b, now, Measured(q, d1, d2));
    SyncedBends(AfterSlew(b, now, Measured(q, d1, d2)), c, now, -Measured(q, d1, d2), LOCKED, t2,
                HostAtT2(t1, t2, t3, t4));
  }

  lemma SlewFields(c: Clock, now: u64, offset: int)
    ensures var d := AfterSlew(c, now, offset);
            d.state == c.state && d.holdoverElapsedMs == c.holdoverElapsedMs && d.lastOffset == c.lastOffset
            && d.lastRtt == c.lastRtt
  {}

  /** One that steps puts the clock on the host's time for t2. */
  lemma SampleSteps(c: Clock, now: u64, t1: u64, t2: u64, t3: u64, t4: u64, d1: nat, d2: nat, q: int)
    requires t1 < TWO63 - 2 * TWO32 && t2 < TWO63 && t3 < TWO63 && t4 < TWO63 && t2 <= t3
    requires t2 == t1 + d1 + q && t4 == t3 - q + d2 && d1 + d2 < TWO32
    requires c.state == UNSYNCHRONIZED || Abs(Measured(q, d1, d2)) > 100000
    ensures var d := AfterRtt(c, now, t1, t2, t3, t4);
            && d.state == CALIBRATING && d.holdoverElapsedMs == 0
            && d.epochBase == t1 + (d1 + d2) / 2 && d.localRef == t2
            && d.driftRate == 0.0 && d.integralError == 0.0
            && d.lastOffset == Measured(q, d1, d2) && d.lastRtt == d1 + d2
  {
    hide Measured, Offset, RoundTrip, HostAtT2, AfterSlew, Wrap32;
    OffsetIsMeasured(t1, t2, t3, t4, d1, d2, q);
    HostIsHalfway(t1, t2, t3, t4, d1, d2, q);
    NtpAccuracy(t1, t2, t3, t4, d1, d2, q);
  }

  /** On a symmetric path a clock with an empty integral and positive gains answers being ahead by slowing down, and
      being behind by speeding up. */
  lemma SampleSteersTowardsHost(c: Clock, now: u64, t1: u64, t2: u64, t3: u64, t4: u64, d: nat, q: int)
    requires t1 < TWO63 && t2 < TWO63 && t3 < TWO63 && t4 < TWO63 && t2 <= t3
    requires t2 == t1 + d + q && t4 == t3 - q + d
    requires c.state != UNSYNCHRONIZED && Abs(q) <= 100000
    requires c.integralError == 0.0 && c.kp > 0.0 && c.ki > 0.0
    ensures var e := AfterRtt(c, now, t1, t2, t3, t4);
            && e.integralError == q as real * -0.001
            && (q > 0 ==> e.driftRate < 0.0) && (q == 0 ==> e.driftRate == 0.0) && (q < 0 ==> e.driftRate > 0.0)
  {
    hide AfterRtt, Read, Measured, Wanted;
    SampleBends(c, now, t1, t2, t3, t4, d, d, q);
    WantedSign(c.kp, c.ki, -q);
  }

  lemma WantedSign(kp: real, ki: real, error: int)
    requires kp > 0.0 && ki > 0.0
    ensures var w := Wanted(kp, ki, 0.0, error);
            (error > 0 ==> w > 0.0) && (error == 0 ==> w == 0.0) && (error < 0 ==> w < 0.0)
  {
    SameSign(kp, error as real / 1000000.0);
    SameSign(ki, 0.0 + error as real * 0.001);
  }

  lemma SameSign(k: real, x: real)
    requires k > 0.0
    ensures (x > 0.0 ==> k * x > 0.0) && (x == 0.0 ==> k * x == 0.0) && (x < 0.0 ==> k * x < 0.0)
  {}

  // ---------- beacons ----------

  /** What a beacon finds the clock to be off by, host minus clock. */
  function Found(c: Clock, now: u64, master: u64): int {
    master + c.lastRtt / 2 - Read(c, now)
  }

  lemma PhaseIsFound(c: Clock, now: u64, master: u64)
    requires master <= HORIZON && Sound(c, now)
    ensures BeaconTarget(c, master) == master + c.lastRtt / 2 && PhaseError(c, now, master) == Found(c, now, master)
  {
    hide Read;
    SmallWrap(master + c.lastRtt / 2);
    if c.state != UNSYNCHRONIZED {
      ReadIsLine(c, now);
    } else {
      UnsynchronizedShowsLocal(c, now);
    }
  }

  /** A beacon that finds a synchronised clock within 100 ms bends it by what it found. */
  lemma BeaconBends(c: Clock, now: u64, master: u64, localRx: u64)
    requires master <= HORIZON && Sound(c, now)
    requires c.state != UNSYNCHRONIZED && Abs(Found(c, now, master)) <= 100000
    ensures var d := AfterBeacon(c, now, master, localRx);
            && d.state == LOCKED && d.holdoverElapsedMs == 0 && d.lastRtt == c.lastRtt
            && d.lastOffset == -Found(c, now, master)
            && BentBy(d, c, now, Found(c, now, master))
  {
    hide Read, Limited, BentBy, Found, PhaseError, BeaconTarget, AfterSlew, Sound;
    PhaseIsFound(c, now, master);
    var error := Found(c, now, master);
    var b := BeaconSeen(c).(lastOffset := -error);
    SeenReads(c, -error, now);
    SlewBends(b, now, -error);
    BentIgnoresMetrics(AfterSlew(b, now, -error), c, b, now, error);
    SlewFields(b, now, -error);
    SyncedBends(AfterSlew(b, now, -error), c, now, error, LOCKED, localRx, BeaconTarget(c, master));
  }

  /** Any other beacon puts the clock on the sender's time plus half the last round trip, at its reception. */
  lemma BeaconSets(c: Clock, now: u64, master: u64, localRx: u64)
    requires master <= HORIZON && Sound(c, now)
    requires c.state == UNSYNCHRONIZED || Abs(Found(c, now, master)) > 100000
    ensures var d := AfterBeacon(c, now, master, localRx);
            && d.state == LOCKED && d.holdoverElapsedMs == 0 && d.lastRtt == c.lastRtt
            && d.lastOffset == -Found(c, now, master)
            && d.epochBase == master + c.lastRtt / 2 && d.localRef == localRx
            && d.driftRate == 0.0 && d.integralError == 0.0
  {
    hide Read, Found, PhaseError, BeaconTarget, AfterSlew, Sound, Wrap32;
    PhaseIsFound(c, now, master);
  }

  // ---------- readings outside the line, and gains ----------

  /** Before the first message the clock shows local time. */
  lemma UnsynchronizedShowsLocal(c: Clock, t: u64)
    requires c.state == UNSYNCHRONIZED
    ensures Read(c, t) == t
  {}

  /** Before its reference time a clock at nominal rate counts back, and stops at zero. */
  lemma ReadBeforeReference(c: Clock, t: u64)
    requires c.state != UNSYNCHRONIZED && c.driftRate == 0.0 && t <= c.localRef < TWO63 && c.epochBase < TWO63
    ensures Read(c, t) == if c.epochBase >= c.localRef - t then c.epochBase - (c.localRef - t) else 0
  {
    SmallDiff(t, c.localRef);
    assert Scaled(t - c.localRef, 0.0) == (t - c.localRef) as real;
  }

  /** Init forgets everything but the gains. */
  lemma InitForgets(c: Clock)
    ensures var d := AfterInit(c);
            && d.state == UNSYNCHRONIZED && d.kp == c.kp && d.ki == c.ki
            && d.driftRate == 0.0 && d.integralError == 0.0 && d.epochBase == d.localRef == 0
            && d.lastOffset == 0 && d.lastRtt == 0 && d.lastSyncLocal == d.lastSyncUtc == 0
            && d.holdoverElapsedMs == d.syncCount == d.beaconCount == d.stepCount == 0
  {}

  /** New gains answer the next error. */
  lemma GainsTakeEffect(c: Clock, earlier: u64, now: u64, p: real, i: real, offset: int)
    requires c.integralError == 0.0
    ensures var g := After(c, Tick(earlier, SetGains(p, i)));
            && g == c.(kp := p, ki := i)
            && Limited(AfterSlew(g, now, offset).driftRate, (p / 1000000.0 + i * 0.001) * (-offset) as real)
  {
    hide Read, Correction, Accumulated;
    CorrectionAfterStep(p, i, offset);
  }
}
