/** The disciplined clock as values: a line through (localRef, epochBase) whose slope is corrected by at
    most 500 ppm, stepped or slewed by synchronisation messages. */
module Clock {
  import opened Bytes

  const STEP_THRESHOLD_US := 100000
  const MAX_SLEW_RATE: real := 0.0005
  const HOLDOVER_TIMEOUT_MS := 5000

  // ---------- signed arithmetic ----------

  /** static_cast<int64_t> of an unsigned word. */
  function Signed64(x: u64): int {
    if x < TWO63 then x else x - TWO64
  }

  /** static_cast<int64_t>(a - b) */
  function Diff64(a: u64, b: u64): int {
    Signed64(Wrap64(a - b))
  }

  /** Conversion of a double to an integer cuts towards zero. */
  function Truncate(x: real): int {
    if x >= 0.0 then x.Floor else -((-x).Floor)
  }

  /** Integer division cuts towards zero. */
  function Halve(x: int): int {
    if x >= 0 then x / 2 else -((-x) / 2)
  }

  function Abs(x: int): nat {
    if x >= 0 then x else -x
  }

  // ---------- state ----------

  datatype SyncState = UNSYNCHRONIZED | CALIBRATING | LOCKED | HOLDOVER

  datatype Clock = Clock(
    state: SyncState,
    epochBase: u64,
    localRef: u64,
    driftRate: real,
    kp: real,
    ki: real,
    integralError: real,
    lastOffset: int,
    lastRtt: u32,
    lastSyncLocal: u64,
    lastSyncUtc: u64,
    holdoverElapsedMs: u32,
    syncCount: u32,
    beaconCount: u32,
    stepCount: u32)

  function AfterInit(c: Clock): Clock {
    Clock(UNSYNCHRONIZED, 0, 0, 0.0, c.kp, c.ki, 0.0, 0, 0, 0, 0, 0, 0, 0, 0)
  }

  // ---------- reading ----------

  /** Local microseconds at the corrected rate. */
  function Scaled(delta: int, rate: real): real {
    delta as real * (1.0 + rate)
  }

  /** Host time when the local clock shows t. */
  function Read(c: Clock, t: u64): u64 {
    if c.state == UNSYNCHRONIZED then t
    else
      var utc := Signed64(c.epochBase) + Truncate(Scaled(Diff64(t, c.localRef), c.driftRate));
      if utc > 0 then Wrap64(utc) else 0
  }

  // ---------- stepping and slewing ----------

  function AfterStep(c: Clock, target: u64, localRef: u64): Clock {
    c.(epochBase := target, localRef := localRef, driftRate := 0.0, integralError := 0.0,
       stepCount := Wrap32(c.stepCount + 1))
  }

  function Clamp(rate: real): (r: real)
    ensures -MAX_SLEW_RATE <= r <= MAX_SLEW_RATE
  {
    if rate > MAX_SLEW_RATE then MAX_SLEW_RATE
    else if rate < -MAX_SLEW_RATE then -MAX_SLEW_RATE
    else rate
  }

  function Accumulated(integral: real, offset: int): real {
    integral + (-offset) as real * 0.001
  }

  /** The proportional-integral rate correction for an error of -offset microseconds. */
  function Correction(kp: real, ki: real, integral: real, offset: int): real {
    kp * ((-offset) as real / 1000000.0) + ki * integral
  }

  /** The correction, cut to 500 ppm. */
  function SlewRate(kp: real, ki: real, integral: real, offset: int): (r: real)
    ensures -MAX_SLEW_RATE <= r <= MAX_SLEW_RATE
  {
    Clamp(Correction(kp, ki, integral, offset))
  }

  function AfterSlew(c: Clock, now: u64, offset: int): Clock {
    var integral := Accumulated(c.integralError, offset);
    c.(integralError := integral,
       epochBase := Read(c, now), localRef := now,
       driftRate := SlewRate(c.kp, c.ki, integral, offset))
  }

  // ---------- messages ----------

  /** The four-timestamp arithmetic of section 8 of RFC 5905: round trip and offset, and the host time assigned to
      local time t2. */
  function RoundTrip(t1: u64, t2: u64, t3: u64, t4: u64): u32 {
    var rtt := Diff64(t4, t1) - Diff64(t3, t2);
    if rtt < 0 then 0 else Wrap32(rtt)
  }

  function Offset(t1: u64, t2: u64, t3: u64, t4: u64): int {
    Halve(Diff64(t2, t1) + Diff64(t3, t4))
  }

  function HostAtT2(t1: u64, t2: u64, t3: u64, t4: u64): u64 {
    Wrap64(t1 + RoundTrip(t1, t2, t3, t4) / 2)
  }

  predicate RttSteps(c: Clock, t1: u64, t2: u64, t3: u64, t4: u64) {
    c.state == UNSYNCHRONIZED || Abs(Offset(t1, t2, t3, t4)) > STEP_THRESHOLD_US
  }

  function RttRecorded(c: Clock, rtt: u32, offset: int): Clock {
    c.(lastRtt := rtt, lastOffset := offset, syncCount := Wrap32(c.syncCount + 1), holdoverElapsedMs := 0)
  }

  function Synced(c: Clock, next: SyncState, local: u64, utc: u64): Clock {
    c.(state := next, lastSyncLocal := local, lastSyncUtc := utc)
  }

  function AfterRtt(c: Clock, now: u64, t1: u64, t2: u64, t3: u64, t4: u64): Clock {
    var host := HostAtT2(t1, t2, t3, t4);
    var d := RttRecorded(c, RoundTrip(t1, t2, t3, t4), Offset(t1, t2, t3, t4));
    if RttSteps(c, t1, t2, t3, t4)
    then Synced(AfterStep(d, host, t2), CALIBRATING, t2, host)
    else Synced(AfterSlew(d, now, Offset(t1, t2, t3, t4)), LOCKED, t2, host)
  }

  function BeaconTarget(c: Clock, master: u64): u64 {
    Wrap64(master + c.lastRtt / 2)
  }

  function PhaseError(c: Clock, now: u64, master: u64): int {
    Signed64(BeaconTarget(c, master)) - Signed64(Read(c, now))
  }

  predicate BeaconSteps(c: Clock, now: u64, master: u64) {
    c.state == UNSYNCHRONIZED || Abs(PhaseError(c, now, master)) > STEP_THRESHOLD_US
  }

  function BeaconSeen(c: Clock): Clock {
    c.(beaconCount := Wrap32(c.beaconCount + 1), holdoverElapsedMs := 0)
  }

  function AfterBeacon(c: Clock, now: u64, master: u64, localRx: u64): Clock {
    var target := BeaconTarget(c, master);
    var phase := PhaseError(c, now, master);
    var d := BeaconSeen(c).(lastOffset := -phase);
    if BeaconSteps(c, now, master)
    then Synced(AfterStep(d, target, localRx), LOCKED, localRx, target)
    else Synced(AfterSlew(d, now, -phase), LOCKED, localRx, target)
  }

  function AfterUpdate(c: Clock, deltaMs: u32): Clock {
    if c.state == LOCKED then
      var elapsed := Wrap32(c.holdoverElapsedMs + deltaMs);
      c.(holdoverElapsedMs := elapsed, state := if elapsed >= HOLDOVER_TIMEOUT_MS then HOLDOVER else LOCKED)
    else if c.state == HOLDOVER then
      c.(holdoverElapsedMs := Wrap32(c.holdoverElapsedMs + deltaMs))
    else c
  }

  function AfterForceStep(c: Clock, now: u64, correction: int): Clock {
    AfterStep(c, Wrap64(Read(c, now) + correction), now)
  }

  // ---------- events ----------

  datatype Event =
    | ReadOut
    | Rtt(t1: u64, t2: u64, t3: u64, t4: u64)
    | Beacon(master: u64, localRx: u64)
    | Update(deltaMs: u32)
    | ForceStep(correction: int)
    | SetGains(kp: real, ki: real)

  /** An event and the local time shown throughout its handling. */
  datatype Tick = Tick(now: u64, event: Event)

  function After(c: Clock, tick: Tick): Clock {
    match tick.event
    case ReadOut => c
    case Rtt(t1, t2, t3, t4) => AfterRtt(c, tick.now, t1, t2, t3, t4)
    case Beacon(master, localRx) => AfterBeacon(c, tick.now, master, localRx)
    case Update(deltaMs) => AfterUpdate(c, deltaMs)
    case ForceStep(correction) => AfterForceStep(c, tick.now, correction)
    case SetGains(kp, ki) => c.(kp := kp, ki := ki)
  }

  /** The event sets the clock instead of bending it. */
  predicate Steps(c: Clock, tick: Tick) {
    match tick.event
    case Rtt(t1, t2, t3, t4) => RttSteps(c, t1, t2, t3, t4)
    case Beacon(master, _) => BeaconSteps(c, tick.now, master)
    case ForceStep(_) => true
    case _ => false
  }

  function Run(c: Clock, ticks: seq<Tick>): Clock
    decreases |ticks|
  {
    if ticks == [] then c else Run(After(c, ticks[0]), ticks[1..])
  }
}
