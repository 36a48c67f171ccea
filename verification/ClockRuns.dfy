/** Whole runs of the clock: range, drift and counters, monotone readings, bounded error against host time, and the
    synchronisation state as a function of the events so far. */
module ClockRuns {
  import opened Bytes
  import opened Clock
  import opened ClockLaws

  // ---------- histories ----------

  /** Time stamps lie before the horizon, receive stamps not in the future, and a forced step stays in range. */
  predicate Plausible(c: Clock, tick: Tick) {
    && tick.now < HORIZON
    && match tick.event
       case Rtt(t1, t2, _, _) => t1 <= HORIZON && t2 <= tick.now
       case Beacon(master, localRx) => master <= HORIZON && localRx <= tick.now
       case ForceStep(correction) => 0 <= Read(c, tick.now) + correction <= 2 * HORIZON
       case _ => true
  }

  /** A run of plausible events in the order of a local clock that never goes back. */
  predicate History(c: Clock, from: u64, ticks: seq<Tick>)
    decreases |ticks|
  {
    ticks == []
    || (from <= ticks[0].now && Plausible(c, ticks[0])
        && History(After(c, ticks[0]), ticks[0].now, ticks[1..]))
  }

  /** Before the first synchronisation the line is not used; afterwards it is in range. */
  predicate Sound(c: Clock, now: u64) {
    now < HORIZON && (c.state != UNSYNCHRONIZED ==> InRange(c, now))
  }

  function Latest(from: u64, ticks: seq<Tick>): u64 {
    if ticks == [] then from else ticks[|ticks| - 1].now
  }

  lemma RunConcat(c: Clock, first: seq<Tick>, second: seq<Tick>)
    ensures Run(c, first + second) == Run(Run(c, first), second)
    decreases |first|
  {
    hide After;
    if first == [] {
      assert first + second == second;
    } else {
      assert (first + second)[1..] == first[1..] + second;
      RunConcat(After(c, first[0]), first[1..], second);
    }
  }

  lemma RunSingle(c: Clock, tick: Tick)
    ensures Run(c, [tick]) == After(c, tick)
  {
    hide After;
    assert Run(After(c, tick), [tick][1..]) == After(c, tick);
  }

  // ---------- range ----------

  lemma SmallWrapBound(x: nat)
    ensures Wrap64(x) <= x
  {}

  lemma SlewStaysSound(c: Clock, now: u64, offset: int)
    requires c.state != UNSYNCHRONIZED && InRange(c, now)
    ensures InRange(AfterSlew(c, now, offset), now)
  {
    hide Read, SlewRate, Accumulated;
    ReadIsLine(c, now);
  }

  lemma RttStaysSound(c: Clock, now: u64, t1: u64, t2: u64, t3: u64, t4: u64)
    requires Sound(c, now) && t1 <= HORIZON && t2 <= now
    ensures Sound(AfterRtt(c, now, t1, t2, t3, t4), now)
  {
    hide Read, RoundTrip, Offset, AfterSlew;
    SmallWrapBound(t1 + RoundTrip(t1, t2, t3, t4) / 2);
    if !RttSteps(c, t1, t2, t3, t4) {
      var d := RttRecorded(c, RoundTrip(t1, t2, t3, t4), Offset(t1, t2, t3, t4));
      SlewStaysSound(d, now, Offset(t1, t2, t3, t4));
    }
  }

  lemma BeaconStaysSound(c: Clock, now: u64, master: u64, localRx: u64)
    requires Sound(c, now) && master <= HORIZON && localRx <= now
    ensures Sound(AfterBeacon(c, now, master, localRx), now)
  {
    hide Read, AfterSlew, PhaseError;
    SmallWrapBound(master + c.lastRtt / 2);
    if !BeaconSteps(c, now, master) {
      var phase := PhaseError(c, now, master);
      var d := BeaconSeen(c).(lastOffset := -phase);
      SlewStaysSound(d, now, -phase);
    }
  }

  lemma TickStaysSound(c: Clock, tick: Tick)
    requires Sound(c, tick.now) && Plausible(c, tick)
    ensures Sound(After(c, tick), tick.now)
  {
    hide Read, AfterRtt, AfterBeacon;
    match tick.event
    case Rtt(t1, t2, t3, t4) => RttStaysSound(c, tick.now, t1, t2, t3, t4);
    case Beacon(master, localRx) => BeaconStaysSound(c, tick.now, master, localRx);
    case _ =>
  }

  lemma SoundLater(c: Clock, now: u64, later: u64)
    requires Sound(c, now) && now <= later < HORIZON
    ensures Sound(c, later)
  {}

  /** Every reachable line has its reference in the past, a rate within 500 ppm and values far from overflow. */
  lemma {:induction false} RunStaysSound(c: Clock, from: u64, ticks: seq<Tick>)
    requires Sound(c, from) && History(c, from, ticks)
    ensures Sound(Run(c, ticks), Latest(from, ticks))
    decreases |ticks|
  {
    hide After, Sound, Plausible;
    if ticks != [] {
      var tick := ticks[0];
      assert tick.now < HORIZON by { assert Plausible(c, tick); PlausibleTime(c, tick); }
      SoundLater(c, from, tick.now);
      TickStaysSound(c, tick);
      RunStaysSound(After(c, tick), tick.now, ticks[1..]);
    }
  }

  lemma PlausibleTime(c: Clock, tick: Tick)
    requires Plausible(c, tick)
    ensures tick.now < HORIZON
  {}

  // ---------- drift and counters ----------

  function StepsIn(c: Clock, ticks: seq<Tick>): nat
    decreases |ticks|
  {
    if ticks == [] then 0
    else (if Steps(c, ticks[0]) then 1 else 0) + StepsIn(After(c, ticks[0]), ticks[1..])
  }

  /** A step clears rate and integral and is counted once; nothing else touches the step counter; the rate never
      leaves 500 ppm. */
  lemma StepEffect(c: Clock, tick: Tick)
    ensures var d := After(c, tick);
            if Steps(c, tick)
            then d.driftRate == 0.0 && d.integralError == 0.0 && d.stepCount == Wrap32(c.stepCount + 1)
            else d.stepCount == c.stepCount
                 && (d.driftRate == c.driftRate || -0.0005 <= d.driftRate <= 0.0005)
  {
    hide Read, RttSteps, BeaconSteps, PhaseError, Offset, RoundTrip, SlewRate, Accumulated, Wrap32;
  }

  /** Over any run at all, plausible or not. */
  lemma {:induction false} RunCountsSteps(c: Clock, ticks: seq<Tick>)
    requires -0.0005 <= c.driftRate <= 0.0005
    ensures Run(c, ticks).stepCount == Wrap32(c.stepCount + StepsIn(c, ticks))
    ensures -0.0005 <= Run(c, ticks).driftRate <= 0.0005
    decreases |ticks|
  {
    hide After, Steps;
    if ticks == [] {
      WrapAdds(c.stepCount, 0);
    } else {
      var d := After(c, ticks[0]);
      StepEffect(c, ticks[0]);
      RunCountsSteps(d, ticks[1..]);
      WrapAdds(c.stepCount + 1, StepsIn(d, ticks[1..]));
    }
  }

  function SamplesIn(ticks: seq<Tick>): nat {
    if ticks == [] then 0 else (if ticks[0].event.Rtt? then 1 else 0) + SamplesIn(ticks[1..])
  }

  function BeaconsIn(ticks: seq<Tick>): nat {
    if ticks == [] then 0 else (if ticks[0].event.Beacon? then 1 else 0) + BeaconsIn(ticks[1..])
  }

  lemma MessageCounted(c: Clock, tick: Tick)
    ensures After(c, tick).syncCount == Wrap32(c.syncCount + if tick.event.Rtt? then 1 else 0)
    ensures After(c, tick).beaconCount == Wrap32(c.beaconCount + if tick.event.Beacon? then 1 else 0)
  {
    hide Read, RttSteps, BeaconSteps, PhaseError, Offset, RoundTrip, SlewRate, Accumulated, Wrap32;
    WrapIdentity(c.syncCount);
    WrapIdentity(c.beaconCount);
  }

  /** Over any run the message counters count every sample and every beacon, stepping or not. */
  lemma {:induction false} RunCountsMessages(c: Clock, ticks: seq<Tick>)
    ensures Run(c, ticks).syncCount == Wrap32(c.syncCount + SamplesIn(ticks))
    ensures Run(c, ticks).beaconCount == Wrap32(c.beaconCount + BeaconsIn(ticks))
    decreases |ticks|
  {
    hide After, Wrap32;
    WrapIdentity(c.syncCount);
    WrapIdentity(c.beaconCount);
    if ticks != [] {
      var d, rest := After(c, ticks[0]), ticks[1..];
      MessageCounted(c, ticks[0]);
      RunCountsMessages(d, rest);
      WrapAdds(c.syncCount + (if ticks[0].event.Rtt? then 1 else 0), SamplesIn(rest));
      WrapAdds(c.beaconCount + (if ticks[0].event.Beacon? then 1 else 0), BeaconsIn(rest));
    }
  }

  // ---------- monotone readings ----------

  /** What the reads of a run return. */
  function Readings(c: Clock, ticks: seq<Tick>): seq<u64>
    decreases |ticks|
  {
    if ticks == [] then []
    else
      (if ticks[0].event == ReadOut then [Read(c, ticks[0].now)] else [])
      + Readings(After(c, ticks[0]), ticks[1..])
  }

  predicate Ascending(from: u64, readings: seq<u64>) {
    && (forall i :: 0 <= i < |readings| ==> from <= readings[i])
    && (forall i, j :: 0 <= i < j < |readings| ==> readings[i] <= readings[j])
  }

  lemma RttSlewKeepsReading(c: Clock, now: u64, t1: u64, t2: u64, t3: u64, t4: u64)
    requires Sound(c, now) && !RttSteps(c, t1, t2, t3, t4)
    ensures Read(AfterRtt(c, now, t1, t2, t3, t4), now) == Read(c, now)
  {
    hide RoundTrip, Offset, AfterSlew, HostAtT2, Diff64, Scaled, Truncate;
    var d := RttRecorded(c, RoundTrip(t1, t2, t3, t4), Offset(t1, t2, t3, t4));
    assert Read(d, now) == Read(c, now);
    SlewKeepsReading(d, now, Offset(t1, t2, t3, t4));
    SlewKeepsState(d, now, Offset(t1, t2, t3, t4));
  }

  lemma SlewKeepsState(c: Clock, now: u64, offset: int)
    ensures AfterSlew(c, now, offset).state == c.state
  {}

  lemma BeaconSlewKeepsReading(c: Clock, now: u64, master: u64, localRx: u64)
    requires Sound(c, now) && !BeaconSteps(c, now, master)
    ensures Read(AfterBeacon(c, now, master, localRx), now) == Read(c, now)
  {
    hide AfterSlew, PhaseError, Diff64, Scaled, Truncate, BeaconTarget;
    var phase := PhaseError(c, now, master);
    var d := BeaconSeen(c).(lastOffset := -phase);
    assert Read(d, now) == Read(c, now);
    SlewKeepsReading(d, now, -phase);
    SlewKeepsState(d, now, -phase);
  }

  lemma UpdateKeepsReading(c: Clock, now: u64, deltaMs: u32)
    ensures Read(AfterUpdate(c, deltaMs), now) == Read(c, now)
  {
    hide Diff64, Scaled, Truncate;
  }

  /** Only a step changes what the clock shows at the moment of the event. */
  lemma TickKeepsReading(c: Clock, tick: Tick)
    requires Sound(c, tick.now) && !Steps(c, tick)
    ensures Read(After(c, tick), tick.now) == Read(c, tick.now)
  {
    hide Sound, Read, RttSteps, BeaconSteps, AfterRtt, AfterBeacon, AfterUpdate;
    match tick.event
    case ReadOut =>
    case Rtt(t1, t2, t3, t4) => RttSlewKeepsReading(c, tick.now, t1, t2, t3, t4);
    case Beacon(master, localRx) => BeaconSlewKeepsReading(c, tick.now, master, localRx);
    case Update(deltaMs) => UpdateKeepsReading(c, tick.now, deltaMs);
    case SetGains(kp, ki) => GainsKeepReading(c, tick.now, kp, ki);
  }

  lemma GainsKeepReading(c: Clock, now: u64, kp: real, ki: real)
    ensures Read(c.(kp := kp, ki := ki), now) == Read(c, now)
  {
    hide Diff64, Scaled, Truncate;
  }

  lemma SoundMonotone(c: Clock, t: u64, u: u64)
    requires Sound(c, t) && Sound(c, u) && t <= u
    ensures Read(c, t) <= Read(c, u)
  {
    hide Read;
    ReadMonotone(c, t, u);
  }

  /** Across any mixture of reads, slews, holdover updates and gain changes without a step, what the reads return
      never decreases. */
  lemma {:induction false} ReadingsAscend(c: Clock, from: u64, ticks: seq<Tick>)
    requires Sound(c, from) && History(c, from, ticks) && StepsIn(c, ticks) == 0
    ensures Ascending(Read(c, from), Readings(c, ticks))
    decreases |ticks|
  {
    hide After, Sound, Plausible, Read, Steps;
    if ticks != [] {
      var tick := ticks[0];
      PlausibleTime(c, tick);
      SoundLater(c, from, tick.now);
      SoundMonotone(c, from, tick.now);
      TickStaysSound(c, tick);
      TickKeepsReading(c, tick);
      ReadingsAscend(After(c, tick), tick.now, ticks[1..]);
      var rest := Readings(After(c, tick), ticks[1..]);
      AscendingCons(Read(c, from), Read(c, tick.now), rest);
      assert [] + rest == rest;
    }
  }

  lemma AscendingCons(low: u64, first: u64, rest: seq<u64>)
    requires low <= first && Ascending(first, rest)
    ensures Ascending(low, rest) && Ascending(low, [first] + rest)
  {
    var all := [first] + rest;
    forall i, j | 0 <= i < j < |all|
      ensures all[i] <= all[j]
    {
      assert all[j] == rest[j - 1];
      if i > 0 { assert all[i] == rest[i - 1]; }
    }
  }

  // ---------- the state as a function of history ----------

  predicate IsSync(tick: Tick) {
    tick.event.Rtt? || tick.event.Beacon?
  }

  predicate NoSync(ticks: seq<Tick>) {
    forall i :: 0 <= i < |ticks| ==> !IsSync(ticks[i])
  }

  /** The milliseconds reported by the updates of a run. */
  function Reported(ticks: seq<Tick>): nat
    decreases |ticks|
  {
    if ticks == [] then 0
    else (if ticks[0].event.Update? then ticks[0].event.deltaMs else 0) + Reported(ticks[1..])
  }

  /** The 32-bit sum of the reported milliseconds, which starts at `elapsed`, has reached the timeout at some point. */
  ghost predicate TimedOut(elapsed: u32, ticks: seq<Tick>) {
    exists k :: 0 <= k <= |ticks| && Wrap32(elapsed + Reported(ticks[..k])) >= 5000
  }

  lemma NonSyncState(c: Clock, tick: Tick)
    requires !IsSync(tick)
    ensures var d := After(c, tick);
            && (d.state == UNSYNCHRONIZED <==> c.state == UNSYNCHRONIZED)
            && (d.state == CALIBRATING <==> c.state == CALIBRATING)
            && (c.state == HOLDOVER ==> d.state == HOLDOVER)
            && (c.state == LOCKED ==>
                  && d.holdoverElapsedMs == Wrap32(c.holdoverElapsedMs + Reported([tick]))
                  && d.state == if tick.event.Update? && d.holdoverElapsedMs >= 5000
                                then HOLDOVER else LOCKED)
  {
    hide Read, Wrap32;
    assert Reported([tick]) == if tick.event.Update? then tick.event.deltaMs else 0 by {
      assert [tick][1..] == [];
    }
    WrapIdentity(c.holdoverElapsedMs);
  }

  lemma ReportedCons(tick: Tick, rest: seq<Tick>)
    ensures Reported([tick] + rest) == Reported([tick]) + Reported(rest)
  {
    assert ([tick] + rest)[1..] == rest && [tick][1..] == [];
  }

  /** TimedOut looked at one event at a time. */
  lemma TimedOutCons(elapsed: u32, tick: Tick, rest: seq<Tick>)
    requires elapsed < 5000
    ensures TimedOut(elapsed, [tick] + rest) <==> TimedOut(Wrap32(elapsed + Reported([tick])), rest)
  {
    hide Wrap32;
    var next := Wrap32(elapsed + Reported([tick]));
    var all := [tick] + rest;
    forall k | 0 <= k <= |rest|
      ensures Wrap32(next + Reported(rest[..k])) == Wrap32(elapsed + Reported(all[..k + 1]))
    {
      assert all[..k + 1] == [tick] + rest[..k];
      ReportedCons(tick, rest[..k]);
      WrapAdds(elapsed + Reported([tick]), Reported(rest[..k]));
    }
    if TimedOut(elapsed, all) {
      var k :| 0 <= k <= |all| && Wrap32(elapsed + Reported(all[..k])) >= 5000;
      if k == 0 {
        assert all[..0] == [];
        WrapIdentity(elapsed);
      } else {
        assert Wrap32(next + Reported(rest[..k - 1])) == Wrap32(elapsed + Reported(all[..k]));
      }
    }
    if TimedOut(next, rest) {
      var k :| 0 <= k <= |rest| && Wrap32(next + Reported(rest[..k])) >= 5000;
      assert Wrap32(next + Reported(rest[..k])) == Wrap32(elapsed + Reported(all[..k + 1]));
    }
  }

  lemma TimedOutEmpty(elapsed: u32)
    ensures TimedOut(elapsed, []) <==> elapsed >= 5000
  {
    WrapIdentity(elapsed);
    var none: seq<Tick> := [];
    assert none[..0] == none;
  }

  lemma TimedOutNow(elapsed: u32, ticks: seq<Tick>)
    requires elapsed >= 5000
    ensures TimedOut(elapsed, ticks)
  {
    WrapIdentity(elapsed);
    assert ticks[..0] == [];
    assert Wrap32(elapsed + Reported(ticks[..0])) >= 5000;
  }

  lemma {:induction false} StickyStates(c: Clock, ticks: seq<Tick>)
    requires NoSync(ticks)
    ensures c.state == UNSYNCHRONIZED ==> Run(c, ticks).state == UNSYNCHRONIZED
    ensures c.state == CALIBRATING ==> Run(c, ticks).state == CALIBRATING
    ensures c.state == HOLDOVER ==> Run(c, ticks).state == HOLDOVER
    decreases |ticks|
  {
    hide After;
    if ticks != [] {
      NonSyncState(c, ticks[0]);
      StickyStates(After(c, ticks[0]), ticks[1..]);
    }
  }

  /** From a locked clock, holdover is entered exactly when the wrapped sum has reached the timeout at some event. */
  lemma {:induction false} LockedRun(c: Clock, ticks: seq<Tick>)
    requires NoSync(ticks) && c.state == LOCKED && c.holdoverElapsedMs < 5000
    ensures Run(c, ticks).state == if TimedOut(c.holdoverElapsedMs, ticks) then HOLDOVER else LOCKED
    decreases |ticks|
  {
    hide After, TimedOut;
    if ticks == [] {
      TimedOutEmpty(c.holdoverElapsedMs);
    } else {
      var d, rest := After(c, ticks[0]), ticks[1..];
      NonSyncState(c, ticks[0]);
      TimedOutCons(c.holdoverElapsedMs, ticks[0], rest);
      assert ticks == [ticks[0]] + rest;
      if d.state == HOLDOVER {
        StickyStates(d, rest);
        TimedOutNow(d.holdoverElapsedMs, rest);
      } else {
        LockedElapsed(c, ticks[0]);
        LockedRun(d, rest);
      }
    }
  }

  lemma LockedElapsed(c: Clock, tick: Tick)
    requires !IsSync(tick) && c.state == LOCKED && c.holdoverElapsedMs < 5000
    requires After(c, tick).state == LOCKED
    ensures After(c, tick).holdoverElapsedMs < 5000
  {
    hide Read, Wrap32;
  }

  /** A message leaves CALIBRATING behind when it is a round trip that stepped, LOCKED otherwise, and restarts the
      holdover timer. */
  lemma MessageEffect(c: Clock, tick: Tick)
    requires IsSync(tick)
    ensures After(c, tick).state == if tick.event.Rtt? && Steps(c, tick) then CALIBRATING else LOCKED
    ensures After(c, tick).holdoverElapsedMs == 0
  {
    hide Read, RttSteps, BeaconSteps, PhaseError, Offset, RoundTrip, SlewRate, Accumulated;
  }

  /** UNSYNCHRONIZED lasts from init to the first message and is never entered again. */
  lemma {:induction false} UnsynchronizedUntilFirstMessage(c: Clock, ticks: seq<Tick>)
    ensures Run(AfterInit(c), ticks).state == UNSYNCHRONIZED <==> NoSync(ticks)
  {
    UnsynchronizedIff(AfterInit(c), ticks);
  }

  lemma {:induction false} UnsynchronizedIff(c: Clock, ticks: seq<Tick>)
    ensures Run(c, ticks).state == UNSYNCHRONIZED <==> c.state == UNSYNCHRONIZED && NoSync(ticks)
    decreases |ticks|
  {
    hide After;
    if ticks != [] {
      UnsynchronizedIff(After(c, ticks[0]), ticks[1..]);
      if IsSync(ticks[0]) {
        MessageEffect(c, ticks[0]);
      } else {
        NonSyncState(c, ticks[0]);
        assert NoSync(ticks) <==> NoSync(ticks[1..]) by {
          assert forall i :: 1 <= i < |ticks| ==> ticks[i] == ticks[1..][i - 1];
          assert forall i :: 0 <= i < |ticks| - 1 ==> ticks[1..][i] == ticks[i + 1];
        }
      }
    }
  }

  /** The last message is a round trip that set the clock: the first message of all, or one whose offset exceeds the
      threshold. */
  predicate Recalibrates(before: seq<Tick>, tick: Tick) {
    && tick.event.Rtt?
    && (NoSync(before) || Abs(Offset(tick.event.t1, tick.event.t2, tick.event.t3, tick.event.t4)) > 100000)
  }

  /** The state after any events, read off the events alone: the last message and the updates since. */
  lemma StateFromHistory(c: Clock, before: seq<Tick>, message: Tick, since: seq<Tick>)
    requires IsSync(message) && NoSync(since)
    ensures Run(AfterInit(c), before + [message] + since).state
         == if Recalibrates(before, message) then CALIBRATING
            else if TimedOut(0, since) then HOLDOVER else LOCKED
  {
    hide After, TimedOut, Offset;
    var c0 := AfterInit(c);
    var c1 := Run(c0, before);
    var c2 := After(c1, message);
    RunConcat(c0, before + [message], since);
    RunConcat(c0, before, [message]);
    RunSingle(c1, message);
    UnsynchronizedUntilFirstMessage(c, before);
    MessageEffect(c1, message);
    assert Run(c0, before + [message]) == c2;
    StickyStates(c2, since);
    if c2.state == LOCKED {
      LockedRun(c2, since);
    }
  }

  lemma MetricsKept(c: Clock, tick: Tick)
    requires !IsSync(tick)
    ensures var d := After(c, tick);
            && d.lastSyncLocal == c.lastSyncLocal && d.lastSyncUtc == c.lastSyncUtc
            && d.lastOffset == c.lastOffset && d.lastRtt == c.lastRtt
  {
    hide Read, Wrap32;
  }

  lemma {:induction false} MetricsKeptOver(c: Clock, ticks: seq<Tick>)
    requires NoSync(ticks)
    ensures var d := Run(c, ticks);
            && d.lastSyncLocal == c.lastSyncLocal && d.lastSyncUtc == c.lastSyncUtc
            && d.lastOffset == c.lastOffset && d.lastRtt == c.lastRtt
    decreases |ticks|
  {
    hide After;
    if ticks != [] {
      MetricsKept(c, ticks[0]);
      MetricsKeptOver(After(c, ticks[0]), ticks[1..]);
    }
  }

  /** The statistics d show the message, which arrived at a clock c: its local and host time, its offset, and for a
      sample its round trip. */
  predicate Shows(d: Clock, c: Clock, message: Tick) {
    match message.event
    case Rtt(t1, t2, t3, t4) =>
      && d.lastSyncLocal == t2 && d.lastSyncUtc == HostAtT2(t1, t2, t3, t4)
      && d.lastOffset == Offset(t1, t2, t3, t4) && d.lastRtt == RoundTrip(t1, t2, t3, t4)
    case Beacon(master, localRx) =>
      && d.lastSyncLocal == localRx && d.lastSyncUtc == BeaconTarget(c, master)
      && d.lastOffset == Signed64(Read(c, message.now)) - Signed64(BeaconTarget(c, master))
      && d.lastRtt == c.lastRtt
    case _ => false
  }

  lemma MessageMetrics(c: Clock, tick: Tick)
    requires IsSync(tick)
    ensures Shows(After(c, tick), c, tick)
  {
    hide Read, RttSteps, BeaconSteps, Offset, RoundTrip, HostAtT2, BeaconTarget, SlewRate, Accumulated, Wrap32,
         Signed64;
  }

  /** The statistics show the last message until the next one, through any forced steps and updates. */
  lemma LastMessageShown(c: Clock, before: seq<Tick>, message: Tick, since: seq<Tick>)
    requires IsSync(message) && NoSync(since)
    ensures Shows(Run(c, before + [message] + since), Run(c, before), message)
  {
    hide After, Read, Offset, RoundTrip, HostAtT2, BeaconTarget, Signed64;
    var c1 := Run(c, before);
    RunConcat(c, before + [message], since);
    RunConcat(c, before, [message]);
    RunSingle(c1, message);
    MessageMetrics(c1, message);
    MetricsKeptOver(After(c1, message), since);
  }

  lemma NonSyncElapsed(c: Clock, tick: Tick)
    requires !IsSync(tick)
    ensures After(c, tick).holdoverElapsedMs
         == if c.state == LOCKED || c.state == HOLDOVER then Wrap32(c.holdoverElapsedMs + Reported([tick]))
            else c.holdoverElapsedMs
  {
    hide Read, Wrap32;
    assert Reported([tick]) == if tick.event.Update? then tick.event.deltaMs else 0 by {
      assert [tick][1..] == [];
    }
    WrapIdentity(c.holdoverElapsedMs);
  }

  lemma {:induction false} ElapsedOver(c: Clock, ticks: seq<Tick>)
    requires NoSync(ticks)
    ensures Run(c, ticks).holdoverElapsedMs
         == if c.state == LOCKED || c.state == HOLDOVER then Wrap32(c.holdoverElapsedMs + Reported(ticks))
            else c.holdoverElapsedMs
    decreases |ticks|
  {
    hide After, Wrap32;
    if ticks == [] {
      WrapIdentity(c.holdoverElapsedMs);
    } else {
      var tick, rest := ticks[0], ticks[1..];
      NonSyncState(c, tick);
      NonSyncElapsed(c, tick);
      ElapsedOver(After(c, tick), rest);
      assert ticks == [tick] + rest;
      ReportedCons(tick, rest);
      WrapAdds(c.holdoverElapsedMs + Reported([tick]), Reported(rest));
    }
  }

  /** The elapsed counter, in holdover as before it, is the 32-bit sum of the updates since the last message, unless
      that was a round trip that set the clock: then it stays at zero. */
  lemma ElapsedFromHistory(c: Clock, before: seq<Tick>, message: Tick, since: seq<Tick>)
    requires IsSync(message) && NoSync(since)
    ensures Run(AfterInit(c), before + [message] + since).holdoverElapsedMs
         == if Recalibrates(before, message) then 0 else Reported(since) % 0x1_0000_0000
  {
    hide After, Offset;
    var c0 := AfterInit(c);
    var c1 := Run(c0, before);
    RunConcat(c0, before + [message], since);
    RunConcat(c0, before, [message]);
    RunSingle(c1, message);
    UnsynchronizedUntilFirstMessage(c, before);
    MessageEffect(c1, message);
    ElapsedOver(After(c1, message), since);
  }

  /** Every single update reports at most this much. */
  predicate ModestUpdates(ticks: seq<Tick>) {
    forall i :: 0 <= i < |ticks| && ticks[i].event.Update? ==> ticks[i].event.deltaMs <= TWO32 - 5000
  }

  /** When no single update reports more than 2^32 - 5000 ms, holdover means that 5000 ms have passed in total. */
  lemma {:induction false} ModestTimeout(elapsed: u32, ticks: seq<Tick>)
    requires ModestUpdates(ticks) && elapsed < 5000
    ensures TimedOut(elapsed, ticks) <==> elapsed + Reported(ticks) >= 5000
    decreases |ticks|
  {
    hide TimedOut;
    if ticks == [] {
      TimedOutEmpty(elapsed);
    } else {
      var tick, rest := ticks[0], ticks[1..];
      assert ticks == [tick] + rest;
      ReportedCons(tick, rest);
      TimedOutCons(elapsed, tick, rest);
      var next := elapsed + Reported([tick]);
      ModestSum(elapsed, tick);
      if next >= 5000 {
        TimedOutNow(next, rest);
      } else {
        ModestTimeout(next, rest);
      }
    }
  }

  lemma ModestSum(elapsed: u32, tick: Tick)
    requires elapsed < 5000 && ModestUpdates([tick])
    ensures Wrap32(elapsed + Reported([tick])) == elapsed + Reported([tick])
  {
    assert [tick][1..] == [] && [tick][0] == tick;
  }

  /** HOLDOVER exactly when the last message left the clock locked and the updates since add up to five seconds. */
  lemma HoldoverFromHistory(c: Clock, before: seq<Tick>, message: Tick, since: seq<Tick>)
    requires IsSync(message) && NoSync(since) && ModestUpdates(since)
    ensures Run(AfterInit(c), before + [message] + since).state == HOLDOVER
       <==> !Recalibrates(before, message) && Reported(since) >= 5000
  {
    hide Recalibrates, TimedOut;
    StateFromHistory(c, before, message, since);
    ModestTimeout(0, since);
  }

  lemma {:induction false} PrefixReported(ticks: seq<Tick>, k: nat)
    requires k <= |ticks|
    ensures Reported(ticks[..k]) <= Reported(ticks)
    decreases |ticks|
  {
    if k > 0 {
      PrefixReported(ticks[1..], k - 1);
      assert ticks[..k][1..] == ticks[1..][..k - 1];
    }
  }

  /** Whatever the updates report: holdover means five seconds since the last message exactly when there were fewer, or
      the 32-bit sum was at 5000 ms or more after some update. */
  lemma HoldoverExactly(c: Clock, before: seq<Tick>, message: Tick, since: seq<Tick>)
    requires IsSync(message) && NoSync(since) && !Recalibrates(before, message)
    ensures var held := Run(AfterInit(c), before + [message] + since).state == HOLDOVER;
            var due := Reported(since) >= 5000;
            held == due <==> !due || TimedOut(0, since)
  {
    hide Recalibrates;
    StateFromHistory(c, before, message, since);
    if Reported(since) < 5000 {
      forall k | 0 <= k <= |since|
        ensures Wrap32(0 + Reported(since[..k])) < 5000
      {
        PrefixReported(since, k);
      }
    }
  }

  /** One millisecond more in a single update and the elapsed counter can wrap past the timeout unnoticed. */
  lemma HugeUpdateMissesHoldover(c: Clock, now: u64)
    ensures var since := [Tick(now, Update(4999)), Tick(now, Update(TWO32 - 4999))];
            && Reported(since) >= 5000
            && Run(AfterInit(c), [] + [Tick(now, Beacon(now, now))] + since).state == LOCKED
  {
    var message := Tick(now, Beacon(now, now));
    var first, second := Tick(now, Update(4999)), Tick(now, Update(TWO32 - 4999));
    var since := [first, second];
    assert [first][1..] == [] && [second][1..] == [];
    assert Reported([first]) == 4999 && Reported([second]) == TWO32 - 4999;
    assert since == [first] + [second];
    ReportedCons(first, [second]);
    StateFromHistory(c, [], message, since);
    forall k | 0 <= k <= |since|
      ensures Wrap32(0 + Reported(since[..k])) < 5000
    {
      if k == 0 {
        assert since[..k] == [];
      } else if k == 1 {
        assert since[..k] == [first];
      } else {
        assert since[..k] == since;
      }
    }
  }
}
