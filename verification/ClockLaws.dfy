/** One reading and one message at a time: the exact value of a reading, what a slew and a step do to it,
    and the accuracy of a round-trip measurement. */
module ClockLaws {
  import opened Bytes
  import opened Clock

  // ---------- staying inside 64 bits ----------

  const HORIZON := 0x1000_0000_0000_0000    // 2^60 microseconds, some 36000 years

  /** The reference point lies in the past and the line stays far below 2^63. */
  predicate InRange(c: Clock, now: u64) {
    && c.localRef <= now < HORIZON
    && c.epochBase <= 2 * HORIZON + 2 * c.localRef
    && -0.0005 <= c.driftRate <= 0.0005
  }

  lemma SmallDiff(a: u64, b: u64)
    requires a < TWO63 && b < TWO63
    ensures Diff64(a, b) == a - b
  {}

  /** The real-valued line the clock follows. */
  function Line(c: Clock, t: u64): real {
    Scaled(t - c.localRef, c.driftRate)
  }

  lemma LineBounds(c: Clock, t: u64)
    requires InRange(c, t)
    ensures var d := (t - c.localRef) as real;
            d - MAX_SLEW_RATE * d <= Line(c, t) <= d + MAX_SLEW_RATE * d
  {
    var d := (t - c.localRef) as real;
    Scale(d, c.driftRate, MAX_SLEW_RATE);
    Scale(d, -MAX_SLEW_RATE, c.driftRate);
    assert Line(c, t) == d + d * c.driftRate;
  }

  lemma Scale(d: real, a: real, b: real)
    requires d >= 0.0 && a <= b
    ensures d * a <= d * b
  {}

  lemma ReadUnwrapped(c: Clock, t: u64)
    requires c.state != UNSYNCHRONIZED && c.epochBase < TWO63 && c.localRef < TWO63 && t < TWO63
    ensures var utc := c.epochBase + Truncate(Line(c, t));
            Read(c, t) == if utc > 0 then Wrap64(utc) else 0
  {
    hide Wrap64, Truncate, Diff64, Scaled;
    SmallDiff(t, c.localRef);
  }

  lemma TruncateFloor(x: real, bound: nat)
    requires 0.0 <= x <= bound as real
    ensures 0 <= Truncate(x) == x.Floor <= bound
  {}

  /** In range, a synchronised clock shows its base plus the whole microseconds of the line. */
  lemma ReadIsLine(c: Clock, t: u64)
    requires InRange(c, t) && c.state != UNSYNCHRONIZED
    ensures 0.0 <= Line(c, t) <= (2 * (t - c.localRef)) as real
    ensures Read(c, t) == c.epochBase + Line(c, t).Floor <= 2 * HORIZON + 2 * t
  {
    hide Read, Line, Truncate;
    LineBounds(c, t);
    var d := t - c.localRef;
    TruncateFloor(Line(c, t), 2 * d);
    ReadUnwrapped(c, t);
  }

  // ---------- monotone readings ----------

  lemma LineMonotone(c: Clock, t: u64, u: u64)
    requires -0.0005 <= c.driftRate && t <= u
    ensures Line(c, u) - Line(c, t) >= 0.9995 * (u - t) as real
  {
    var r, d := 1.0 + c.driftRate, (u - t) as real;
    assert (u - c.localRef) as real - (t - c.localRef) as real == d;
    Scale(d, 0.9995, r);
    assert Line(c, u) - Line(c, t) == d * r;
  }

  /** Without events in between, later readings are not smaller. */
  lemma ReadMonotone(c: Clock, t: u64, u: u64)
    requires t <= u && (c.state != UNSYNCHRONIZED ==> InRange(c, t) && InRange(c, u))
    ensures Read(c, t) <= Read(c, u)
  {
    if c.state != UNSYNCHRONIZED {
      ReadIsLine(c, t);
      ReadIsLine(c, u);
      LineMonotone(c, t, u);
    }
  }

  /** They are strictly larger once two local microseconds have passed. */
  lemma ReadStrictAfterTwo(c: Clock, t: u64, u: u64)
    requires t + 2 <= u && (c.state != UNSYNCHRONIZED ==> InRange(c, t) && InRange(c, u))
    ensures Read(c, t) < Read(c, u)
  {
    if c.state != UNSYNCHRONIZED {
      ReadIsLine(c, t);
      ReadIsLine(c, u);
      LineMonotone(c, t, u);
      assert Line(c, u) >= Line(c, t) + 1.0;
    }
  }

  /** The readings of a segment grow with every single microsecond exactly when the rate is not slowed down: the
      documented strict monotonicity fails from the very first microsecond under any negative correction. */
  lemma StrictExactlyWithoutSlowdown(c: Clock, end: u64)
    requires c.state != UNSYNCHRONIZED && c.localRef < end && InRange(c, end)
    ensures (forall t: u64 :: c.localRef <= t < end ==> Read(c, t) < Read(c, t + 1)) <==> c.driftRate >= 0.0
  {
    hide Read, Line;
    if c.driftRate >= 0.0 {
      forall t: u64 | c.localRef <= t < end
        ensures Read(c, t) < Read(c, t + 1)
      {
        FullRateTicks(c, t);
      }
    } else {
      FirstMicrosecondLost(c);
      assert !(Read(c, c.localRef) < Read(c, c.localRef + 1));
    }
  }

  lemma FullRateTicks(c: Clock, t: u64)
    requires c.state != UNSYNCHRONIZED && t + 1 < HORIZON && InRange(c, t) && c.driftRate >= 0.0
    ensures Read(c, t) < Read(c, t + 1)
  {
    hide Read;
    ReadIsLine(c, t);
    ReadIsLine(c, t + 1);
    assert Line(c, t + 1) - Line(c, t) == 1.0 + c.driftRate;
  }

  lemma FirstMicrosecondLost(c: Clock)
    requires c.state != UNSYNCHRONIZED && c.localRef + 1 < HORIZON && InRange(c, c.localRef) && c.driftRate < 0.0
    ensures Read(c, c.localRef + 1) == Read(c, c.localRef) == c.epochBase
  {
    hide Read;
    ReadIsLine(c, c.localRef);
    ReadIsLine(c, c.localRef + 1);
    assert Line(c, c.localRef) == 0.0;
    assert Line(c, c.localRef + 1) == 1.0 + c.driftRate;
  }

  // ---------- slews and steps ----------

  /** A slew moves the reference point onto the line: the reading of this moment does not change. */
  lemma SlewKeepsReading(c: Clock, now: u64, offset: int)
    requires c.state != UNSYNCHRONIZED && InRange(c, now)
    ensures var d := AfterSlew(c, now, offset);
            InRange(d, now) && Read(d, now) == Read(c, now) && d.stepCount == c.stepCount
  {
    hide Read, SlewRate, Accumulated, Line;
    ReadIsLine(c, now);
    var d := AfterSlew(c, now, offset);
    LineAtReference(d);
    ReadIsLine(d, now);
  }

  lemma LineAtReference(c: Clock)
    ensures Line(c, c.localRef) == 0.0
  {}

  /** Right after a step the integral is empty: the next slew answers the error alone, in proportion, up to 500 ppm. */
  lemma FirstSlewRate(c: Clock, target: u64, localRef: u64, now: u64, offset: int)
    ensures AfterSlew(AfterStep(c, target, localRef), now, offset).driftRate
         == Clamp((c.kp / 1000000.0 + c.ki * 0.001) * (-offset) as real)
  {
    hide Read, Clamp, Correction, Accumulated;
    CorrectionAfterStep(c.kp, c.ki, offset);
  }

  lemma CorrectionAfterStep(kp: real, ki: real, offset: int)
    ensures Correction(kp, ki, Accumulated(0.0, offset), offset)
         == (kp / 1000000.0 + ki * 0.001) * (-offset) as real
  {
    var error := (-offset) as real;
    Rescale(kp, error, 1000000.0);
    Regroup(ki, error, 0.001);
    Distribute(kp / 1000000.0, ki * 0.001, error);
    assert Accumulated(0.0, offset) == error * 0.001;
  }

  lemma Rescale(k: real, x: real, d: real)
    requires d > 0.0
    ensures k * (x / d) == k / d * x
  {}

  lemma Regroup(k: real, x: real, d: real)
    ensures k * (x * d) == k * d * x
  {}

  lemma Distribute(a: real, b: real, x: real)
    ensures (a + b) * x == a * x + b * x
  {}

  /** Whether a slew speeds the clock up or slows it down, from what is known before it: the gains, the accumulated
      error and the offset. */
  lemma SlewDirection(c: Clock, now: u64, offset: int)
    ensures AfterSlew(c, now, offset).driftRate > 0.0
       <==> c.ki * (c.integralError - offset as real * 0.001) > c.kp * (offset as real / 1000000.0)
    ensures AfterSlew(c, now, offset).driftRate < 0.0
       <==> c.ki * (c.integralError - offset as real * 0.001) < c.kp * (offset as real / 1000000.0)
  {
    hide Read;
    CorrectionSplits(c.kp, c.ki, c.integralError, offset);
  }

  lemma CorrectionSplits(kp: real, ki: real, integral: real, offset: int)
    ensures Correction(kp, ki, Accumulated(integral, offset), offset)
         == ki * (integral - offset as real * 0.001) - kp * (offset as real / 1000000.0)
  {
    var error := (-offset) as real;
    assert Accumulated(integral, offset) == integral - offset as real * 0.001;
    assert error / 1000000.0 == -(offset as real / 1000000.0);
    Opposite(kp, offset as real / 1000000.0);
  }

  lemma Opposite(k: real, x: real)
    ensures k * -x == -(k * x)
  {}

  /** The error accumulated so far outweighs the present one. */
  predicate WoundUp(c: Clock, offset: int) {
    var integral := c.ki * (c.integralError - offset as real * 0.001);
    var proportional := c.kp * (offset as real / 1000000.0);
    (offset > 0 && integral > proportional) || (offset < 0 && integral < proportional)
  }

  /** A slew drives a clock that is ahead further ahead, or one that is behind further behind, exactly when the
      accumulated error outweighs the present one. */
  lemma SlewSteersAway(c: Clock, now: u64, offset: int)
    ensures var rate := AfterSlew(c, now, offset).driftRate;
            (offset > 0 && rate > 0.0) || (offset < 0 && rate < 0.0) <==> WoundUp(c, offset)
  {
    hide AfterSlew;
    SlewDirection(c, now, offset);
  }

  /** With gains that are not negative it never does so while the accumulated error has the sign of the present one. */
  lemma SlewWithoutWindup(c: Clock, now: u64, offset: int)
    requires c.kp >= 0.0 && c.ki >= 0.0
    ensures offset <= 0 && c.integralError >= 0.0 ==> AfterSlew(c, now, offset).driftRate >= 0.0
    ensures offset >= 0 && c.integralError <= 0.0 ==> AfterSlew(c, now, offset).driftRate <= 0.0
  {
    hide AfterSlew;
    SlewDirection(c, now, offset);
    var integral := c.integralError - offset as real * 0.001;
    if offset <= 0 && c.integralError >= 0.0 {
      Scale(c.kp, offset as real / 1000000.0, 0.0);
      Scale(c.ki, 0.0, integral);
    }
    if offset >= 0 && c.integralError <= 0.0 {
      Scale(c.kp, 0.0, offset as real / 1000000.0);
      Scale(c.ki, integral, 0.0);
    }
  }

  /** A run from init with the default gains that winds up: two beacons 100 ms apart, the second within the threshold,
      leave the clock locked with an accumulated error of 100. */
  lemma WindupReached(c: Clock)
    requires c.kp == 0.20 && c.ki == 0.02
    ensures var d := Run(AfterInit(c), [Tick(0, Beacon(200000, 0)), Tick(0, Beacon(300000, 0))]);
            d.state == LOCKED && d.integralError == 100.0 && Read(d, 0) == 200000 && d.lastRtt == 0
            && d.kp == 0.20 && d.ki == 0.02
  {
    var first, second := Tick(0, Beacon(200000, 0)), Tick(0, Beacon(300000, 0));
    assert [first, second][1..] == [second] && [second][1..] == [];
    var a := After(AfterInit(c), first);
    assert a.state == LOCKED && a.epochBase == 200000 && a.localRef == 0 && a.integralError == 0.0 && a.lastRtt == 0;
    WindupSlew(a);
  }

  lemma WindupSlew(a: Clock)
    requires a.state == LOCKED && a.epochBase == 200000 && a.localRef == 0 && a.integralError == 0.0 && a.lastRtt == 0
    ensures var d := AfterBeacon(a, 0, 300000, 0);
            d.state == LOCKED && d.integralError == 100.0 && d.epochBase == 200000 && d.localRef == 0 && d.lastRtt == 0
            && d.kp == a.kp && d.ki == a.ki && Read(d, 0) == 200000
  {
    hide SlewRate, Read;
    ReadAtReference(a);
    var phase := PhaseError(a, 0, 300000);
    assert phase == 100000;
    ReadAtReference(BeaconSeen(a).(lastOffset := -phase));
    ReadAtReference(AfterBeacon(a, 0, 300000, 0));
  }

  lemma ReadAtReference(c: Clock)
    requires c.state != UNSYNCHRONIZED && 0 < c.epochBase < TWO63
    ensures Read(c, c.localRef) == c.epochBase
  {}

  /** The next beacon finds that clock a millisecond ahead, and nothing unwinds the accumulated error: the clock is
      driven further ahead at the full 500 ppm. */
  lemma WindupSteersAway(c: Clock)
    requires c.kp == 0.20 && c.ki == 0.02
    ensures var d := Run(AfterInit(c), [Tick(0, Beacon(200000, 0)), Tick(0, Beacon(300000, 0))]);
            PhaseError(d, 0, 199000) == -1000 && After(d, Tick(0, Beacon(199000, 0))).driftRate == 0.0005
  {
    hide Read, Run, Correction, Accumulated;
    WindupReached(c);
    var d := Run(AfterInit(c), [Tick(0, Beacon(200000, 0)), Tick(0, Beacon(300000, 0))]);
    assert PhaseError(d, 0, 199000) == -1000;
    CorrectionSplits(0.20, 0.02, 100.0, 1000);
    assert 0.02 * (100.0 - 1000 as real * 0.001) - 0.20 * (1000 as real / 1000000.0) == 1.9798;
  }

  /** A step makes a synchronised clock show the target at the reference time. */
  lemma StepSetsReading(c: Clock, target: u64, localRef: u64)
    requires c.state != UNSYNCHRONIZED && target < TWO63 && localRef < TWO63
    ensures var d := AfterStep(c, target, localRef);
            Read(d, localRef) == target && d.driftRate == 0.0 && d.integralError == 0.0
  {
    hide Read, Line;
    var d := AfterStep(c, target, localRef);
    LineAtReference(d);
    ReadUnwrapped(d, localRef);
  }

  /** A forced step corrects what is shown exactly when the clock is synchronised; before that readings go on
      showing raw local time. */
  lemma ForceStepCorrects(c: Clock, now: u64, correction: int)
    requires now < TWO63 && 0 <= Read(c, now) + correction < TWO63
    ensures Read(AfterForceStep(c, now, correction), now) == Read(c, now) + correction
       <==> c.state != UNSYNCHRONIZED || correction == 0
  {
    if c.state != UNSYNCHRONIZED {
      hide Read;
      StepSetsReading(c, Read(c, now) + correction, now);
    }
  }

  // ---------- round-trip measurement ----------

  /** Forward delay d1, return delay d2, local clock ahead of the host by q: the measured round trip is the true one
      modulo 2^32, so exact if and only if it fits 32 bits; the offset is off by at most half the asymmetry (rounded),
      and not at all when the path is symmetric; the host time assigned to t2 is as good while the round trip fits. */
  lemma NtpAccuracy(t1: u64, t2: u64, t3: u64, t4: u64, d1: nat, d2: nat, q: int)
    requires t1 < TWO63 && t2 < TWO63 && t3 < TWO63 && t4 < TWO63 && t2 <= t3
    requires t2 == t1 + d1 + q && t4 == t3 - q + d2
    ensures RoundTrip(t1, t2, t3, t4) == Wrap32(d1 + d2)
    ensures RoundTrip(t1, t2, t3, t4) == d1 + d2 <==> d1 + d2 < TWO32
    ensures 2 * Abs(Offset(t1, t2, t3, t4) - q) <= Abs(d1 - d2) + 1
    ensures d1 == d2 ==> Offset(t1, t2, t3, t4) == q
    ensures d1 + d2 < TWO32 ==> 2 * Abs(HostAtT2(t1, t2, t3, t4) - (t1 + d1)) <= Abs(d1 - d2) + 1
  {
    hide Diff64, Halve, Wrap64;
    SmallDiff(t4, t1);
    SmallDiff(t3, t2);
    SmallDiff(t2, t1);
    SmallDiff(t3, t4);
    HalfSum(q, d1 - d2);
    SmallWrap(t1 + Wrap32(d1 + d2) / 2);
  }

  lemma HalfSum(q: int, a: int)
    ensures 2 * Abs(Halve(2 * q + a) - q) <= Abs(a) + 1
    ensures a == 0 ==> Halve(2 * q + a) == q
  {}

  lemma RttStepSetsReading(c: Clock, now: u64, t1: u64, t2: u64, t3: u64, t4: u64)
    requires RttSteps(c, t1, t2, t3, t4) && t2 < TWO63 && HostAtT2(t1, t2, t3, t4) < TWO63
    ensures Read(AfterRtt(c, now, t1, t2, t3, t4), t2) == HostAtT2(t1, t2, t3, t4)
  {
    hide Read, HostAtT2, RoundTrip, Offset, Line, AfterSlew, RttSteps;
    var e := AfterRtt(c, now, t1, t2, t3, t4);
    LineAtReference(e);
    ReadUnwrapped(e, t2);
  }

  /** When such a sample steps the clock, the clock is then within half the round trip of true host time at t2. */
  lemma RttStepAccuracy(c: Clock, now: u64, t1: u64, t2: u64, t3: u64, t4: u64, d1: nat, d2: nat, q: int)
    requires t1 < TWO63 - 2 * TWO32 && t2 < TWO63 && t3 < TWO63 && t4 < TWO63 && t2 <= t3
    requires t2 == t1 + d1 + q && t4 == t3 - q + d2 && d1 + d2 < TWO32
    requires RttSteps(c, t1, t2, t3, t4)
    ensures 2 * Abs(Read(AfterRtt(c, now, t1, t2, t3, t4), t2) - (t1 + d1)) <= Abs(d1 - d2) + 1 <= d1 + d2 + 1
  {
    hide Read, HostAtT2, RoundTrip, Offset, AfterRtt, RttSteps;
    NtpAccuracy(t1, t2, t3, t4, d1, d2, q);
    RttStepSetsReading(c, now, t1, t2, t3, t4);
  }

  /** The offset compares the raw local clock with the host, never the disciplined one: whether a sample steps a
      synchronised clock is decided by the raw clock's offset and the path's asymmetry alone. */
  lemma RttStepsOnRawOffset(c: Clock, t1: u64, t2: u64, t3: u64, t4: u64, d1: nat, d2: nat, q: int)
    requires t1 < TWO63 && t2 < TWO63 && t3 < TWO63 && t4 < TWO63 && t2 <= t3
    requires t2 == t1 + d1 + q && t4 == t3 - q + d2
    ensures RttSteps(c, t1, t2, t3, t4)
       <==> c.state == UNSYNCHRONIZED || Abs(2 * q + d1 - d2) >= 2 * 100000 + 2
  {
    hide Diff64;
    SmallDiff(t2, t1);
    SmallDiff(t3, t4);
  }

  /** So a sample steps a clock that shows host time to the microsecond whenever the raw clock is far off: the rate the
      clock had learnt is lost, its state falls back to CALIBRATING, and what it shows at t2 moves by exactly half the
      asymmetry of the path (rounded down), away from the truth. */
  lemma PerfectClockStepped(c: Clock, now: u64, t1: u64, t2: u64, t3: u64, t4: u64, d1: nat, d2: nat, q: int)
    requires t1 < TWO63 - 2 * TWO32 && t2 < TWO63 && t3 < TWO63 && t4 < TWO63 && t2 <= t3
    requires t2 == t1 + d1 + q && t4 == t3 - q + d2 && d1 + d2 < TWO32
    requires c.state != UNSYNCHRONIZED && Read(c, t2) == t1 + d1
    requires Abs(2 * q + d1 - d2) >= 2 * 100000 + 2
    ensures var d := AfterRtt(c, now, t1, t2, t3, t4);
            && d.state == CALIBRATING && d.driftRate == 0.0 && d.integralError == 0.0
            && d.stepCount == Wrap32(c.stepCount + 1)
            && Read(d, t2) == Read(c, t2) + (d1 + d2) / 2 - d1
  {
    hide Read, Diff64, RoundTrip, Offset, RttSteps, HostAtT2, Wrap32, AfterSlew;
    RttStepsOnRawOffset(c, t1, t2, t3, t4, d1, d2, q);
    HostIsHalfway(t1, t2, t3, t4, d1, d2, q);
    RttStepSetsReading(c, now, t1, t2, t3, t4);
  }

  lemma HostIsHalfway(t1: u64, t2: u64, t3: u64, t4: u64, d1: nat, d2: nat, q: int)
    requires t1 < TWO63 - 2 * TWO32 && t2 < TWO63 && t3 < TWO63 && t4 < TWO63 && t2 <= t3
    requires t2 == t1 + d1 + q && t4 == t3 - q + d2 && d1 + d2 < TWO32
    ensures HostAtT2(t1, t2, t3, t4) == t1 + (d1 + d2) / 2 < TWO63
  {
    hide Diff64, Wrap64;
    SmallDiff(t4, t1);
    SmallDiff(t3, t2);
    SmallWrap(t1 + (d1 + d2) / 2);
  }

  /** Such clocks occur: one beacon locks a freshly started clock to a host whose time is 5 s ahead of the local clock;
      100 microseconds later it shows host time exactly, and the first round trip steps it. */
  lemma LockedClockStepped(c: Clock)
    ensures var d := Run(AfterInit(c), [Tick(0, Beacon(5000000, 0))]);
            && d.state == LOCKED && Read(d, 100) == 5000100
            && RttSteps(d, 5000000, 100, 100, 5000200)
            && AfterRtt(d, 100, 5000000, 100, 100, 5000200).state == CALIBRATING
  {
    var tick := Tick(0, Beacon(5000000, 0));
    assert [tick][1..] == [];
    var d := After(AfterInit(c), tick);
    assert d.state == LOCKED && d.epochBase == 5000000 && d.localRef == 0 && d.driftRate == 0.0;
    assert Scaled(100, 0.0) == 100.0;
    RttStepsOnRawOffset(d, 5000000, 100, 100, 5000200, 100, 100, -5000000);
  }
}
