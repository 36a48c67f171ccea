/** The clock engine as the firmware keeps it: fields changed in place by its handlers, each proved against the
    value-level clock. */
module TimeManager {
  import opened Bytes
  import opened Clock
  import ClockRuns

  /** The hardware time source. What it shows is moved by the environment between two calls of the manager, never
      within one. */
  class TimeSource {
    var shown: u64

    constructor (start: u64)
      ensures shown == start
    {
      shown := start;
    }

    method Init()
      modifies this
      ensures shown == 0
    {
      shown := 0;
    }

    method GetTimeUs() returns (t: u64)
      ensures t == shown
    {
      t := shown;
    }
  }

  class TimeManager {
    const timeSource: TimeSource?
    var state: SyncState
    var epochBase: u64
    var localRef: u64
    var driftRate: real
    var kp: real
    var ki: real
    var integralError: real
    var lastOffset: int
    var lastRtt: u32
    var lastSyncLocal: u64
    var lastSyncUtc: u64
    var holdoverElapsedMs: u32
    var syncCount: u32
    var beaconCount: u32
    var stepCount: u32

    ghost function View(): Clock
      reads this
    {
      Clock(state, epochBase, localRef, driftRate, kp, ki, integralError, lastOffset, lastRtt, lastSyncLocal,
            lastSyncUtc, holdoverElapsedMs, syncCount, beaconCount, stepCount)
    }

    /** Without a time source local time stands still at zero. */
    ghost function Now(): u64
      reads timeSource
    {
      if timeSource == null then 0 else timeSource.shown
    }

    constructor (source: TimeSource?)
      ensures timeSource == source
      ensures View() == Clock(UNSYNCHRONIZED, 0, 0, 0.0, 0.20, 0.02, 0.0, 0, 0, 0, 0, 0, 0, 0, 0)
    {
      timeSource := source;
      state, epochBase, localRef, driftRate := UNSYNCHRONIZED, 0, 0, 0.0;
      kp, ki, integralError := 0.20, 0.02, 0.0;
      lastOffset, lastRtt, lastSyncLocal, lastSyncUtc := 0, 0, 0, 0;
      holdoverElapsedMs, syncCount, beaconCount, stepCount := 0, 0, 0, 0;
    }

    method ClearLine()
      modifies this
      ensures View() == old(View()).(state := UNSYNCHRONIZED, epochBase := 0, localRef := 0, driftRate := 0.0,
                                     integralError := 0.0)
    {
      state, epochBase, localRef := UNSYNCHRONIZED, 0, 0;
      driftRate, integralError := 0.0, 0.0;
    }

    method ClearMetrics()
      modifies this
      ensures View() == old(View()).(lastOffset := 0, lastRtt := 0, lastSyncLocal := 0, lastSyncUtc := 0)
    {
      lastOffset, lastRtt, lastSyncLocal, lastSyncUtc := 0, 0, 0, 0;
    }

    method ClearCounters()
      modifies this
      ensures View() == old(View()).(holdoverElapsedMs := 0, syncCount := 0, beaconCount := 0, stepCount := 0)
    {
      holdoverElapsedMs, syncCount, beaconCount, stepCount := 0, 0, 0, 0;
    }

    method Init()
      modifies this, timeSource
      ensures View() == AfterInit(old(View())) && Now() == 0
    {
      hide View;
      ClearLine();
      ClearMetrics();
      ClearCounters();
      if timeSource != null {
        timeSource.Init();
      }
    }

    method SetPiGains(p: real, i: real)
      modifies this
      ensures View() == old(View()).(kp := p, ki := i)
    {
      kp, ki := p, i;
    }

    method GetTimeUs() returns (t: u64)
      ensures t == Now()
    {
      if timeSource == null {
        t := 0;
      } else {
        t := timeSource.GetTimeUs();
      }
    }

    method GetUtcEpochUs() returns (utc: u64)
      ensures utc == Read(View(), Now())
    {
      var local := GetTimeUs();
      if state == UNSYNCHRONIZED {
        return local;
      }
      var delta := Diff64(local, localRef);
      var shifted := Signed64(epochBase) + Truncate(Scaled(delta, driftRate));
      utc := if shifted > 0 then Wrap64(shifted) else 0;
    }

    method ApplyStep(target: u64, ref: u64)
      modifies this
      ensures View() == AfterStep(old(View()), target, ref)
    {
      epochBase, localRef := target, ref;
      driftRate, integralError := 0.0, 0.0;
      stepCount := Wrap32(stepCount + 1);
    }

    method ApplySlew(offset: int)
      modifies this
      ensures View() == AfterSlew(old(View()), Now(), offset)
    {
      hide Diff64, Truncate, Scaled, Signed64, Accumulated, Correction;
      integralError := Accumulated(integralError, offset);
      var rate := Correction(kp, ki, integralError, offset);
      if rate > MAX_SLEW_RATE {
        rate := MAX_SLEW_RATE;
      } else if rate < -MAX_SLEW_RATE {
        rate := -MAX_SLEW_RATE;
      }
      var utc := GetUtcEpochUs();
      var local := GetTimeUs();
      epochBase, localRef, driftRate := utc, local, rate;
    }

    method RecordRtt(rtt: u32, offset: int)
      modifies this
      ensures View() == RttRecorded(old(View()), rtt, offset)
    {
      lastRtt, lastOffset := rtt, offset;
      syncCount := Wrap32(syncCount + 1);
      holdoverElapsedMs := 0;
    }

    method RecordSync(next: SyncState, local: u64, utc: u64)
      modifies this
      ensures View() == Synced(old(View()), next, local, utc)
    {
      state := next;
      lastSyncLocal, lastSyncUtc := local, utc;
    }

    method ProcessRttSample(t1: u64, t2: u64, t3: u64, t4: u64)
      modifies this
      ensures View() == AfterRtt(old(View()), Now(), t1, t2, t3, t4)
    {
      hide View, AfterSlew, AfterStep, Diff64, Halve, RttRecorded, Synced, Wrap32, Wrap64, Abs;
      StateInView();
      var rtt := Diff64(t4, t1) - Diff64(t3, t2);
      if rtt < 0 {
        rtt := 0;
      }
      ZeroWrap();
      var offset := Halve(Diff64(t2, t1) + Diff64(t3, t4));
      var host := Wrap64(t1 + Wrap32(rtt) / 2);
      var steps := state == UNSYNCHRONIZED || Abs(offset) > STEP_THRESHOLD_US;
      RecordRtt(Wrap32(rtt), offset);
      if steps {
        ApplyStep(host, t2);
        RecordSync(CALIBRATING, t2, host);
      } else {
        ApplySlew(offset);
        RecordSync(LOCKED, t2, host);
      }
    }

    static lemma ZeroWrap()
      ensures Wrap32(0) == 0
    {}

    lemma StateInView()
      ensures View().state == state && View().lastRtt == lastRtt
    {}

    method RecordBeacon()
      modifies this
      ensures View() == BeaconSeen(old(View()))
    {
      beaconCount := Wrap32(beaconCount + 1);
      holdoverElapsedMs := 0;
    }

    method RecordOffset(offset: int)
      modifies this
      ensures View() == old(View()).(lastOffset := offset)
    {
      lastOffset := offset;
    }

    method ProcessBeacon(master: u64, localRx: u64)
      modifies this
      ensures View() == AfterBeacon(old(View()), Now(), master, localRx)
    {
      hide View, AfterSlew, AfterStep, Read, Signed64, Wrap32, Wrap64, Abs, Synced;
      StateInView();
      var steps := state == UNSYNCHRONIZED;
      var target := Wrap64(master + lastRtt / 2);
      RecordBeacon();
      var current := GetUtcEpochUs();
      SeenReads(old(View()), Now());
      var phase := Signed64(target) - Signed64(current);
      RecordOffset(-phase);
      if steps || Abs(phase) > STEP_THRESHOLD_US {
        ApplyStep(target, localRx);
        RecordSync(LOCKED, localRx, target);
      } else {
        ApplySlew(-phase);
        RecordSync(LOCKED, localRx, target);
      }
    }

    method UpdateHoldover(deltaMs: u32)
      modifies this
      ensures View() == AfterUpdate(old(View()), deltaMs)
    {
      if state == LOCKED {
        holdoverElapsedMs := Wrap32(holdoverElapsedMs + deltaMs);
        if holdoverElapsedMs >= HOLDOVER_TIMEOUT_MS {
          state := HOLDOVER;
        }
      } else if state == HOLDOVER {
        holdoverElapsedMs := Wrap32(holdoverElapsedMs + deltaMs);
      }
    }

    method ForceStepBy(correction: int)
      modifies this
      ensures View() == AfterForceStep(old(View()), Now(), correction)
    {
      hide View, Read, AfterStep, Wrap64;
      var utc := GetUtcEpochUs();
      var local := GetTimeUs();
      ApplyStep(Wrap64(utc + correction), local);
    }
  }

  lemma SeenReads(c: Clock, now: u64)
    ensures Read(BeaconSeen(c), now) == Read(c, now)
  {
    hide Diff64, Truncate, Scaled, Signed64, Wrap32, Wrap64;
  }

  /** One event of a history, at the local time it happens. */
  method Handle(manager: TimeManager, tick: Tick) returns (shown: seq<u64>)
    requires manager.timeSource != null
    modifies manager, manager.timeSource
    ensures manager.View() == After(old(manager.View()), tick)
    ensures shown == if tick.event == ReadOut then [Read(old(manager.View()), tick.now)] else []
  {
    hide AfterRtt, AfterBeacon, AfterUpdate, AfterForceStep, Read;
    manager.timeSource.shown := tick.now;
    assert manager.View() == old(manager.View());
    hide TimeManager.View;
    shown := [];
    match tick.event {
      case ReadOut =>
        var r := manager.GetUtcEpochUs();
        shown := [r];
      case Rtt(t1, t2, t3, t4) => manager.ProcessRttSample(t1, t2, t3, t4);
      case Beacon(master, localRx) => manager.ProcessBeacon(master, localRx);
      case Update(deltaMs) => manager.UpdateHoldover(deltaMs);
      case ForceStep(correction) => manager.ForceStepBy(correction);
      case SetGains(p, k) => manager.SetPiGains(p, k);
    }
  }

  /** The manager replays a history: final state and reads are those of the value-level run. */
  method Replay(manager: TimeManager, ticks: seq<Tick>) returns (readings: seq<u64>)
    requires manager.timeSource != null
    modifies manager, manager.timeSource
    ensures manager.View() == Run(old(manager.View()), ticks)
    ensures readings == ClockRuns.Readings(old(manager.View()), ticks)
  {
    hide After, Read, TimeManager.View;
    readings := [];
    ghost var start := manager.View();
    assert ticks[0..] == ticks && [] + ClockRuns.Readings(start, ticks) == ClockRuns.Readings(start, ticks);
    for i := 0 to |ticks|
      invariant Run(manager.View(), ticks[i..]) == Run(start, ticks)
      invariant readings + ClockRuns.Readings(manager.View(), ticks[i..]) == ClockRuns.Readings(start, ticks)
    {
      RestSteps(manager.View(), ticks, i);
      var shown := Handle(manager, ticks[i]);
      readings := readings + shown;
    }
  }

  lemma RestSteps(c: Clock, ticks: seq<Tick>, i: nat)
    requires i < |ticks|
    ensures Run(c, ticks[i..]) == Run(After(c, ticks[i]), ticks[i + 1..])
    ensures ClockRuns.Readings(c, ticks[i..])
         == (if ticks[i].event == ReadOut then [Read(c, ticks[i].now)] else [])
            + ClockRuns.Readings(After(c, ticks[i]), ticks[i + 1..])
  {
    hide After, Read;
    assert ticks[i..][0] == ticks[i] && ticks[i..][1..] == ticks[i + 1..];
  }
}
