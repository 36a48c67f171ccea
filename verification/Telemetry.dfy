/** The telemetry engine as values: frames, the scheduler's passes, starting and stopping streams. */
module Telemetry {
  import opened Bytes
  import opened Packet
  import opened Channels

  // ---------- frames ----------

  const MAX_TX_BUFFER := 1472
  const STREAM_HEADER_SIZE := 20
  const SAMPLES_AT := HEADER_SIZE + STREAM_HEADER_SIZE
  const STREAM_SENSOR_BATCH: u16 := 0x0200
  const FLAG_HAS_TIMESTAMP: u8 := 8

  function Min(a: int, b: int): int { if a <= b then a else b }

  /** As many samples as asked for, one when the batch is out of range, and never more than fit. */
  function SamplesToSend(c: Channel): nat
    requires BytesPerSample(c.kind) > 0
  {
    Min(if 0 < c.batch <= MAX_BATCH then c.batch else 1, (MAX_TX_BUFFER - SAMPLES_AT) / BytesPerSample(c.kind))
  }

  /** For every width and batch the samples fit one datagram behind the two headers, and one more sample would not, or
      was not asked for. */
  lemma FrameBound(c: Channel)
    requires BytesPerSample(c.kind) > 0
    ensures var n, width := SamplesToSend(c), BytesPerSample(c.kind);
            && 36 + n * width <= 1472 && n <= 100
            && (n == (if 1 <= c.batch <= 100 then c.batch else 1) || 36 + (n + 1) * width > 1472)
  {
    hide BytesPerSample;
    QuotientFits(MAX_TX_BUFFER - SAMPLES_AT, BytesPerSample(c.kind));
    ProductFits(SamplesToSend(c), (MAX_TX_BUFFER - SAMPLES_AT) / BytesPerSample(c.kind), BytesPerSample(c.kind));
  }

  lemma QuotientFits(a: nat, width: nat)
    requires width > 0
    ensures (a / width) * width <= a < (a / width + 1) * width
  {}

  lemma ProductFits(n: nat, m: nat, width: nat)
    requires n <= m
    ensures n * width <= m * width
  {}

  function TypeCode(k: Kind): u16 {
    match k
    case Counter => 4
    case Temperature => 2
    case Stress(_) => 1
  }

  function ChannelCount(k: Kind): u16 {
    match k
    case Counter => 1
    case Temperature => 1
    case Stress(width) => Wrap16(width)
  }

  /** The 20 bytes in front of the samples; the time stamp is the tick count in microseconds. */
  function StreamHeader(c: Channel, tick: u32, samples: u16): (s: seq<byte>)
    ensures |s| == STREAM_HEADER_SIZE
  {
    Le64(tick * 1000) + Le32(c.tag) + Le16(c.rate) + Le16(samples) + Le16(ChannelCount(c.kind)) + Le16(TypeCode(c.kind))
  }

  /** No frame is built for a channel whose samples are empty or too wide for one datagram. */
  predicate Builds(c: Channel) {
    BytesPerSample(c.kind) > 0 && SamplesToSend(c) > 0
  }

  function StreamPayload(c: Channel, tick: u32, sensor: Sensor): (s: seq<byte>)
    requires Builds(c)
    ensures STREAM_HEADER_SIZE < |s| <= MAX_TX_BUFFER - HEADER_SIZE
    ensures |s| == STREAM_HEADER_SIZE + SamplesToSend(c) * BytesPerSample(c.kind)
  {
    hide Produced, StreamHeader, BytesPerSample, SamplesToSend;
    FrameBound(c);
    ProductPositive(SamplesToSend(c), BytesPerSample(c.kind));
    StreamHeader(c, tick, SamplesToSend(c)) + Produced(c, sensor, SamplesToSend(c))
  }

  lemma ProductPositive(a: nat, b: nat)
    requires a > 0 && b > 0
    ensures a * b > 0
  {}

  /** The datagram for one batch of a channel. */
  function FrameOf(c: Channel, nodeId: u16, seqNum: u32, tick: u32, sensor: Sensor): (s: seq<byte>)
    requires Builds(c)
    ensures SAMPLES_AT < |s| <= MAX_TX_BUFFER
  {
    var payload := StreamPayload(c, tick, sensor);
    Encode(Populated(nodeId, STREAM_SENSOR_BATCH, seqNum, payload, FLAG_HAS_TIMESTAMP, false)) + payload
  }

  function TimeStamp(frame: seq<byte>): u64 {
    if |frame| < SAMPLES_AT then 0 else FromLe64(frame[16..24])
  }

  function TagOf(frame: seq<byte>): u32 {
    if |frame| < SAMPLES_AT then 0 else FromLe32(frame[24..28])
  }

  /** What a receiver finds in a datagram: an acceptable header whose length is that of the bytes behind it, the
      sequence number, and `samples` samples of `width` bytes behind the stream header. */
  predicate Carries(s: seq<byte>, nodeId: u16, seqNum: u32, samples: int, width: nat, data: seq<byte>) {
    && SAMPLES_AT <= |s| <= MAX_TX_BUFFER
    && Decode(s[..HEADER_SIZE]).nodeId == nodeId && Decode(s[..HEADER_SIZE]).seqNum == seqNum
    && Decode(s[..HEADER_SIZE]).msgType == STREAM_SENSOR_BATCH
    && Decode(s[..HEADER_SIZE]).payloadLen == |s| - HEADER_SIZE
    && ValidateHeader(Decode(s[..HEADER_SIZE]), |s|) == Accepted
    && FromLe16(s[30..32]) == samples && samples * width == |s| - SAMPLES_AT
    && s[SAMPLES_AT..] == data
  }

  /** The parts of a frame. */
  lemma FrameParts(c: Channel, nodeId: u16, seqNum: u32, tick: u32, sensor: Sensor)
    requires Builds(c)
    ensures var s := FrameOf(c, nodeId, seqNum, tick, sensor);
            && s[..HEADER_SIZE] == Encode(Populated(nodeId, STREAM_SENSOR_BATCH, seqNum, StreamPayload(c, tick, sensor),
                                                    FLAG_HAS_TIMESTAMP, false))
            && SamplesToSend(c) <= MAX_BATCH
            && s[HEADER_SIZE..SAMPLES_AT] == StreamHeader(c, tick, SamplesToSend(c))
            && s[SAMPLES_AT..] == Produced(c, sensor, SamplesToSend(c))
  {
    hide Encode, Produced, BytesPerSample, SamplesToSend, StreamHeader;
    FrameBound(c);
  }

  /** Every frame carries the batch it was built for. */
  lemma FrameReadBack(c: Channel, nodeId: u16, seqNum: u32, tick: u32, sensor: Sensor)
    requires Builds(c)
    ensures Carries(FrameOf(c, nodeId, seqNum, tick, sensor), nodeId, seqNum,
                    SamplesToSend(c), BytesPerSample(c.kind), Produced(c, sensor, SamplesToSend(c)))
  {
    hide Encode, Decode, Le16, FromLe16, Produced, BytesPerSample, SamplesToSend, StreamHeader, FrameOf;
    var payload := StreamPayload(c, tick, sensor);
    var s := FrameOf(c, nodeId, seqNum, tick, sensor);
    HeaderRoundTrip(Populated(nodeId, STREAM_SENSOR_BATCH, seqNum, payload, FLAG_HAS_TIMESTAMP, false));
    FrameParts(c, nodeId, seqNum, tick, sensor);
    FrameLength(c, nodeId, seqNum, tick, sensor);
    HeaderFields(c, tick, SamplesToSend(c));
    SliceOfSlice(s, HEADER_SIZE, SAMPLES_AT, 14, 16);
  }

  lemma FrameLength(c: Channel, nodeId: u16, seqNum: u32, tick: u32, sensor: Sensor)
    requires Builds(c)
    ensures |FrameOf(c, nodeId, seqNum, tick, sensor)| == HEADER_SIZE + |StreamPayload(c, tick, sensor)|
  {
    hide Encode, StreamPayload;
  }

  /** The stream header names its channel and the tick it was built in. */
  lemma FrameNamesItsChannel(c: Channel, nodeId: u16, seqNum: u32, tick: u32, sensor: Sensor)
    requires Builds(c)
    ensures var s := FrameOf(c, nodeId, seqNum, tick, sensor);
            TagOf(s) == c.tag && TimeStamp(s) == tick * 1000
  {
    hide Encode, Le64, FromLe64, Le32, FromLe32, Produced, BytesPerSample, SamplesToSend, StreamHeader, FrameOf,
         StreamPayload, Populated;
    var s := FrameOf(c, nodeId, seqNum, tick, sensor);
    FrameParts(c, nodeId, seqNum, tick, sensor);
    HeaderFields(c, tick, SamplesToSend(c));
    SliceOfSlice(s, HEADER_SIZE, SAMPLES_AT, 0, 8);
    SliceOfSlice(s, HEADER_SIZE, SAMPLES_AT, 8, 12);
  }

  lemma HeaderFields(c: Channel, tick: u32, samples: u16)
    ensures var h := StreamHeader(c, tick, samples);
            && FromLe64(h[0..8]) == tick * 1000 && FromLe32(h[8..12]) == c.tag && FromLe16(h[14..16]) == samples
  {
    hide Le64, FromLe64, Le32, FromLe32, Le16, FromLe16;
    Le64RoundTrip(tick * 1000);
    Le32RoundTrip(c.tag);
    Le16RoundTrip(samples);
    var h := StreamHeader(c, tick, samples);
    assert h[0..8] == Le64(tick * 1000) && h[8..12] == Le32(c.tag) && h[14..16] == Le16(samples);
  }

  // ---------- one slot in one pass ----------

  datatype Slot = Slot(channel: Channel, lastWake: u32)

  /** Ticks between two frames: batch / rate seconds, with zero settings read as one and never less than a tick. One
      tick is one millisecond. */
  function IntervalTicks(rate: u16, batch: u16): (ticks: nat)
    ensures 1 <= ticks <= 65535000
    ensures batch <= 100 ==> ticks <= 100000
  {
    var r := if rate == 0 then 1 else rate;
    var b := if batch == 0 then 1 else batch;
    var ms := b * 1000 / r;
    DivideBound(b * 1000, r);
    if ms < 1 then 1 else ms
  }

  /** The interval is the time the batch stands for at this rate, to the tick below, and at least one tick; a rate or a
      batch of zero stands for one. */
  lemma IntervalIsPeriod(rate: u16, batch: u16)
    ensures Lasts(IntervalTicks(rate, batch), rate, batch)
  {
    var r, b := if rate == 0 then 1 else rate, if batch == 0 then 1 else batch;
    QuotientFits(b * 1000, r);
    SmallQuotient(b * 1000, r);
  }

  predicate Lasts(ticks: nat, rate: u16, batch: u16) {
    var r, b := if rate == 0 then 1 else rate, if batch == 0 then 1 else batch;
    if b * 1000 < r then ticks == 1 else ticks * r <= b * 1000 < (ticks + 1) * r
  }

  lemma LastsOnce(m: nat, n: nat, rate: u16, batch: u16)
    requires Lasts(m, rate, batch) && Lasts(n, rate, batch)
    ensures m == n
  {
    var r := if rate == 0 then 1 else rate;
    if m < n { ProductFits(m + 1, n, r); }
    if n < m { ProductFits(n + 1, m, r); }
  }

  /** A frame carries the samples its interval stands for exactly when the batch is at most 100 and fits the datagram:
      the interval is computed from the stored batch, the frame from what is left of it. */
  lemma FrameMatchesInterval(c: Channel)
    requires BytesPerSample(c.kind) > 0
    ensures var batch := if c.batch == 0 then 1 else c.batch;
            var fits := batch <= 100 && 36 + batch * BytesPerSample(c.kind) <= 1472;
            SamplesToSend(c) == batch <==> fits
  {
    hide BytesPerSample;
    var batch := if c.batch == 0 then 1 else c.batch;
    FitsExactly(batch, MAX_TX_BUFFER - SAMPLES_AT, BytesPerSample(c.kind));
  }

  lemma FitsExactly(n: nat, room: nat, width: nat)
    requires width > 0
    ensures n <= room / width <==> n * width <= room
  {
    QuotientFits(room, width);
    if n <= room / width {
      ProductFits(n, room / width, width);
    } else {
      ProductFits(room / width + 1, n, width);
    }
  }

  lemma SmallQuotient(a: nat, b: nat)
    requires b >= 1
    ensures a < b <==> a / b < 1
  {}

  lemma DivideBound(a: nat, b: nat)
    requires b >= 1
    ensures 0 <= a / b <= a
  {
    QuotientFits(a, b);
    if a / b > a {
      ProductFits(a + 1, a / b, b);
      MoreThan(a, b);
      assert false;
    }
  }

  lemma MoreThan(a: nat, b: nat)
    requires b >= 1
    ensures (a + 1) * b > a
  {}

  predicate Due(s: Slot, now: u32) {
    s.channel.enabled && Wrap32(now - s.lastWake) >= IntervalTicks(s.channel.rate, s.channel.batch)
  }

  function AfterPass(s: Slot, now: u32): Slot {
    if !Due(s, now) then s
    else if Builds(s.channel) then Slot(AfterProduce(s.channel, SamplesToSend(s.channel)), now)
    else s.(lastWake := now)
  }

  // ---------- the service ----------

  const MAX_CHANNELS := 8

  datatype Service = Service(nodeId: u16, slots: seq<Slot>, streaming: bool, seqNum: u32)

  /** What the environment shows during a pass of the scheduler: the tick count read at its start, whether the network
      is up, the sensor, and the tick count read again for the time stamp when the frame of slot i is built. */
  datatype World = World(now: u32, ready: bool, sensor: Sensor, stamps: seq<u32>)

  function StampTick(w: World, i: nat): u32 {
    if i < |w.stamps| then w.stamps[i] else w.now
  }

  predicate Active(s: Service, w: World) {
    s.streaming && w.ready && s.slots != []
  }

  predicate BuildsNow(s: Slot, now: u32) {
    Due(s, now) && Builds(s.channel)
  }

  /** Frames built by the first n slots. */
  function Building(slots: seq<Slot>, now: u32, n: nat): (k: nat)
    requires n <= |slots|
    ensures k <= n
  {
    if n == 0 then 0 else Building(slots, now, n - 1) + if BuildsNow(slots[n - 1], now) then 1 else 0
  }

  /** The frame of slot i, if any: its number follows those of the slots before it. */
  function FrameAt(s: Service, w: World, i: nat): (frames: seq<seq<byte>>)
    requires i < |s.slots|
    ensures |frames| == if BuildsNow(s.slots[i], w.now) then 1 else 0
  {
    if BuildsNow(s.slots[i], w.now)
    then [FrameOf(s.slots[i].channel, s.nodeId, Wrap32(s.seqNum + Building(s.slots, w.now, i) + 1), StampTick(w, i),
                  w.sensor)]
    else []
  }

  function FramesUpTo(s: Service, w: World, n: nat): (frames: seq<seq<byte>>)
    requires n <= |s.slots|
    ensures |frames| == Building(s.slots, w.now, n)
  {
    if n == 0 then [] else FramesUpTo(s, w, n - 1) + FrameAt(s, w, n - 1)
  }

  function SlotsAfter(slots: seq<Slot>, now: u32): (r: seq<Slot>)
    ensures |r| == |slots| && forall i :: 0 <= i < |r| ==> r[i] == AfterPass(slots[i], now)
  {
    seq(|slots|, i requires 0 <= i < |slots| => AfterPass(slots[i], now))
  }

  /** An inactive pass only restarts the periods. */
  function Restarted(slots: seq<Slot>, now: u32): (r: seq<Slot>)
    ensures |r| == |slots| && forall i :: 0 <= i < |r| ==> r[i] == slots[i].(lastWake := now)
  {
    seq(|slots|, i requires 0 <= i < |slots| => slots[i].(lastWake := now))
  }

  function AfterWhole(s: Service, w: World): Service {
    if Active(s, w)
    then s.(slots := SlotsAfter(s.slots, w.now), seqNum := Wrap32(s.seqNum + Building(s.slots, w.now, |s.slots|)))
    else s.(slots := Restarted(s.slots, w.now))
  }

  function Output(s: Service, w: World): seq<seq<byte>> {
    if Active(s, w) then FramesUpTo(s, w, |s.slots|) else []
  }

  // ---------- registering, starting, stopping ----------

  predicate HasTag(slots: seq<Slot>, tag: u32) {
    exists i :: 0 <= i < |slots| && slots[i].channel.tag == tag
  }

  predicate Registers(s: Service, c: Channel) {
    |s.slots| < MAX_CHANNELS && !HasTag(s.slots, c.tag)
  }

  function AfterRegister(s: Service, c: Channel, now: u32): Service {
    if Registers(s, c) then s.(slots := s.slots + [Slot(c, now)]) else s
  }

  /** Settings given with a start: a rate of 0 keeps the channel's, a batch counts only with a rate above 100. */
  function Configured(c: Channel, rate: u16, batch: u16): Channel {
    var e := c.(enabled := true);
    var r := if rate > 0 then WithRate(e, rate) else e;
    if batch > 0 && rate > 100 then WithBatch(r, batch) else r
  }

  predicate Addressed(c: Channel, tag: u32) {
    tag == 0 || c.tag == tag
  }

  function StartSlots(slots: seq<Slot>, tag: u32, rate: u16, batch: u16): (r: seq<Slot>)
    ensures |r| == |slots|
    ensures forall i :: 0 <= i < |r| ==>
              r[i] == if Addressed(slots[i].channel, tag)
                      then slots[i].(channel := Configured(slots[i].channel, rate, batch)) else slots[i]
  {
    seq(|slots|, i requires 0 <= i < |slots| =>
      if Addressed(slots[i].channel, tag)
      then slots[i].(channel := Configured(slots[i].channel, rate, batch)) else slots[i])
  }

  function StopSlots(slots: seq<Slot>, tag: u32): (r: seq<Slot>)
    ensures |r| == |slots|
    ensures forall i :: 0 <= i < |r| ==>
              r[i] == if Addressed(slots[i].channel, tag)
                      then slots[i].(channel := slots[i].channel.(enabled := false)) else slots[i]
  {
    seq(|slots|, i requires 0 <= i < |slots| =>
      if Addressed(slots[i].channel, tag)
      then slots[i].(channel := slots[i].channel.(enabled := false)) else slots[i])
  }

  predicate AnyEnabled(slots: seq<Slot>) {
    exists i :: 0 <= i < |slots| && slots[i].channel.enabled
  }

  // ---------- runs ----------

  datatype Event =
    | Register(channel: Channel, at: u32)
    | Start(tag: u32, rate: u16, batch: u16)
    | Stop(stopTag: u32)
    | Pass(world: World)

  function After(s: Service, e: Event): Service {
    match e
    case Register(c, at) => AfterRegister(s, c, at)
    case Start(tag, rate, batch) => s.(slots := StartSlots(s.slots, tag, rate, batch), streaming := true)
    case Stop(tag) =>
      var slots := StopSlots(s.slots, tag);
      s.(slots := slots, streaming := tag != 0 && AnyEnabled(slots))
    case Pass(w) => AfterWhole(s, w)
  }

  function Sent(s: Service, e: Event): seq<seq<byte>> {
    match e
    case Pass(w) => Output(s, w)
    case _ => []
  }

  function Run(s: Service, events: seq<Event>): Service
    decreases |events|
  {
    if events == [] then s else Run(After(s, events[0]), events[1..])
  }

  function RunSent(s: Service, events: seq<Event>): seq<seq<byte>>
    decreases |events|
  {
    if events == [] then [] else Sent(s, events[0]) + RunSent(After(s, events[0]), events[1..])
  }

  /** The frames of one slot. */
  function SlotSent(s: Service, events: seq<Event>, i: nat): seq<seq<byte>>
    requires i < |s.slots|
    decreases |events|
  {
    if events == [] then []
    else
      KeepsSlots(s, events[0]);
      (if events[0].Pass? && Active(s, events[0].world) then FrameAt(s, events[0].world, i) else [])
      + SlotSent(After(s, events[0]), events[1..], i)
  }

  lemma KeepsSlots(s: Service, e: Event)
    ensures |s.slots| <= |After(s, e).slots|
  {
    hide StartSlots, StopSlots, SlotsAfter, Restarted;
  }
}
