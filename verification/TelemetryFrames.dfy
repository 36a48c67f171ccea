/** What lies where in a telemetry datagram, and the samples of a stream as a receiver puts them together from many. */
module TelemetryFrames {
  import opened Bytes
  import opened Packet
  import opened Channels
  import opened Telemetry
  import opened TelemetryLaws
  import opened TelemetryReceiver

  // ---------- the two headers ----------

  lemma PacketHeaderBytes(h: Header)
    ensures var s := Encode(h);
            && At16(s, 0) == h.magic && s[2] as int == h.version && s[3] as int == h.flags && At16(s, 4) == h.nodeId
            && At16(s, 6) == h.msgType && At32(s, 8) == h.seqNum && At16(s, 12) == h.payloadLen
            && s[14..16] == LeHalf(h.crc16)
  {
    hide Encode, Decode, At16, At32, LeHalf;
    HeaderRoundTrip(h);
    HeaderLayout(Encode(h));
  }

  lemma StreamHeaderBytes(c: Channel, tick: u32, samples: u16)
    ensures var h := StreamHeader(c, tick, samples);
            && At32(h, 0) + 0x1_0000_0000 * At32(h, 4) == tick * 1000 && At32(h, 8) == c.tag
            && At16(h, 12) == c.rate && At16(h, 14) == samples
            && At16(h, 16) == ChannelCount(c.kind) && At16(h, 18) == TypeCode(c.kind)
  {
    hide Le32, Le16, FromLe32, FromLe16, At32, At16, ChannelCount, TypeCode;
    var h, us := StreamHeader(c, tick, samples), tick * 1000;
    Le32RoundTrip(us % TWO32);
    Le32RoundTrip(us / TWO32);
    Le32RoundTrip(c.tag);
    Le16RoundTrip(c.rate);
    Le16RoundTrip(samples);
    Le16RoundTrip(ChannelCount(c.kind));
    Le16RoundTrip(TypeCode(c.kind));
    NumbersRead(h, 0);
    NumbersRead(h, 4);
    NumbersRead(h, 8);
    NumbersRead(h, 12);
    NumbersRead(h, 14);
    NumbersRead(h, 16);
    NumbersRead(h, 18);
    assert h[0..4] == Le32(us % TWO32) && h[4..8] == Le32(us / TWO32) && h[8..12] == Le32(c.tag);
    assert h[12..14] == Le16(c.rate) && h[14..16] == Le16(samples);
    assert h[16..18] == Le16(ChannelCount(c.kind)) && h[18..20] == Le16(TypeCode(c.kind));
  }

  lemma At32Inside(s: seq<byte>, lo: nat, hi: nat, k: nat)
    requires lo <= hi <= |s| && k + 4 <= hi - lo
    ensures At32(s[lo..hi], k) == At32(s, lo + k) && At16(s[lo..hi], k) == At16(s, lo + k)
  {}

  lemma At16Inside(s: seq<byte>, lo: nat, hi: nat, k: nat)
    requires lo <= hi <= |s| && k + 2 <= hi - lo
    ensures At16(s[lo..hi], k) == At16(s, lo + k)
  {}

  /** The packet header of a datagram: "EP", version 1, the time-stamp flag, the node, type 0x0200, the number, the
      length of what follows, and no checksum. */
  lemma DatagramHeader(c: Channel, nodeId: u16, seqNum: u32, tick: u32, sensor: Sensor)
    requires Builds(c)
    ensures var s := FrameOf(c, nodeId, seqNum, tick, sensor);
            && |s| == 36 + SamplesToSend(c) * BytesPerSample(c.kind)
            && At16(s, 0) == 0x5045 && s[2] as int == 1 && s[3] as int == 8 && At16(s, 4) == nodeId
            && At16(s, 6) == 0x0200 && At32(s, 8) == seqNum && At16(s, 12) == |s| - 16 && s[14] == s[15] == 0
  {
    hide Encode, At16, At32, FrameOf, StreamPayload, SamplesToSend, BytesPerSample, LeHalf;
    var s, payload := FrameOf(c, nodeId, seqNum, tick, sensor), StreamPayload(c, tick, sensor);
    var h := Populated(nodeId, STREAM_SENSOR_BATCH, seqNum, payload, FLAG_HAS_TIMESTAMP, false);
    FrameParts(c, nodeId, seqNum, tick, sensor);
    FrameLength(c, nodeId, seqNum, tick, sensor);
    PacketHeaderBytes(h);
    At16Inside(s, 0, 16, 0);
    At16Inside(s, 0, 16, 4);
    At16Inside(s, 0, 16, 6);
    At32Inside(s, 0, 16, 8);
    At16Inside(s, 0, 16, 12);
    assert s[0..16] == s[..HEADER_SIZE] == Encode(h);
    ZeroHalf();
    assert s[14..16] == Encode(h)[14..16];
    assert s[14] == s[14..16][0] && s[15] == s[14..16][1];
  }

  /** The stream header: time in microseconds, tag, rate, number of samples, channels and sample type: one channel of
      32-bit unsigned (4) for a counter, one of 32-bit signed (2) for a temperature, and as many of 16-bit unsigned (1)
      as a stress channel is wide. */
  lemma DatagramDescribesChannel(c: Channel, nodeId: u16, seqNum: u32, tick: u32, sensor: Sensor)
    requires Builds(c)
    ensures var s := FrameOf(c, nodeId, seqNum, tick, sensor);
            && At32(s, 16) + 0x1_0000_0000 * At32(s, 20) == tick * 1000 && At32(s, 24) == c.tag
            && At16(s, 28) == c.rate && At16(s, 30) == SamplesToSend(c)
            && (c.kind.Counter? ==> At16(s, 32) == 1 && At16(s, 34) == 4)
            && (c.kind.Temperature? ==> At16(s, 32) == 1 && At16(s, 34) == 2)
            && (c.kind.Stress? ==> At16(s, 32) == c.kind.width && At16(s, 34) == 1)
  {
    hide Encode, At16, At32, FrameOf, StreamPayload, SamplesToSend, StreamHeader, Populated;
    var s := FrameOf(c, nodeId, seqNum, tick, sensor);
    FrameParts(c, nodeId, seqNum, tick, sensor);
    StreamHeaderBytes(c, tick, SamplesToSend(c));
    At32Inside(s, 16, 36, 0);
    At32Inside(s, 16, 36, 4);
    At32Inside(s, 16, 36, 8);
    At16Inside(s, 16, 36, 12);
    At16Inside(s, 16, 36, 14);
    At16Inside(s, 16, 36, 16);
    At16Inside(s, 16, 36, 18);
    if c.kind.Stress? {
      WidthFits(c);
    }
  }

  lemma WidthFits(c: Channel)
    requires Builds(c) && c.kind.Stress?
    ensures ChannelCount(c.kind) == c.kind.width
  {
    hide SamplesToSend;
    FrameBound(c);
    ProductFits(1, SamplesToSend(c), BytesPerSample(c.kind));
  }

  // ---------- the samples of one batch ----------

  lemma {:induction false} CounterAt(start: u32, n: nat, k: nat)
    requires k < n
    ensures At32(CounterBytes(start, n), 4 * k) == (start + k) % 0x1_0000_0000
    decreases n
  {
    hide Le32, FromLe32, At32;
    var s := CounterBytes(start, n);
    if k < n - 1 {
      CounterAt(start, n - 1, k);
      Le32Front(CounterBytes(start, n - 1), Wrap32(start + (n - 1)), 4 * k);
    } else {
      Le32Back(CounterBytes(start, n - 1), Wrap32(start + (n - 1)));
    }
  }

  lemma Le32Front(s: seq<byte>, x: u32, k: nat)
    requires k + 4 <= |s|
    ensures At32(s + Le32(x), k) == At32(s, k)
  {
    hide Le32;
  }

  lemma Le32Back(s: seq<byte>, x: u32)
    ensures At32(s + Le32(x), |s|) == x
  {
    hide Le32, FromLe32, At32;
    Le32RoundTrip(x);
    NumbersRead(s + Le32(x), |s|);
    assert (s + Le32(x))[|s|..|s| + 4] == Le32(x);
  }

  lemma {:induction false} TemperatureAt(word: u32, n: nat, k: nat)
    requires k < n
    ensures At32(TemperatureBytes(word, n), 4 * k) == word
    decreases n
  {
    hide Le32, FromLe32, At32;
    if k < n - 1 {
      TemperatureAt(word, n - 1, k);
      Le32Front(TemperatureBytes(word, n - 1), word, 4 * k);
    } else {
      Le32Back(TemperatureBytes(word, n - 1), word);
    }
  }

  lemma Le16Front(s: seq<byte>, t: seq<byte>, k: nat)
    requires k + 2 <= |s|
    ensures At16(s + t, k) == At16(s, k)
  {}

  lemma Le16Behind(s: seq<byte>, t: seq<byte>, k: nat)
    requires k + 2 <= |t|
    ensures At16(s + t, |s| + k) == At16(t, k)
  {}

  lemma {:induction false} StressWordAt(counter: int, width: nat, ch: nat)
    requires ch < width
    ensures At16(StressSample(counter, width), 2 * ch) == (counter + 100 * ch) % 0x1_0000
    decreases width
  {
    hide Le16, FromLe16, At16;
    var front, word := StressSample(counter, width - 1), StressWord(counter, width - 1);
    if ch < width - 1 {
      StressWordAt(counter, width - 1, ch);
      Le16Front(front, Le16(word), 2 * ch);
    } else {
      Le16Behind(front, Le16(word), 0);
      Le16RoundTrip(word);
      NumbersRead(Le16(word), 0);
      assert Le16(word)[0..2] == Le16(word);
    }
  }

  /** Where row k of a stress batch begins. */
  function Row(k: nat, width: nat): nat {
    k * (2 * width)
  }

  lemma RowsFollow(k: nat, n: nat, width: nat)
    requires k < n
    ensures Row(k, width) + 2 * width <= Row(n, width) && Row(k + 1, width) == Row(k, width) + 2 * width
  {
    RowFits(k, n, width);
  }

  /** The stress pattern: channel ch of sample k is the counter plus k + 1 plus 100 per channel, in 16 bits. */
  predicate InPattern(samples: seq<byte>, counter: int, width: nat, k: nat, ch: nat) {
    && Row(k, width) + 2 * ch + 2 <= |samples|
    && At16(samples, Row(k, width) + 2 * ch) == (counter + k + 1 + 100 * ch) % 0x1_0000
  }

  lemma {:induction false} StressAt(counter: int, width: nat, n: nat, k: nat, ch: nat)
    requires k < n && ch < width
    ensures InPattern(StressBytes(counter, width, n), counter, width, k, ch)
    decreases n
  {
    hide At16, Row, StressSample, StressBytes;
    RowsFollow(k, n, width);
    RowSize(counter, width, n);
    RowSize(counter, width, n - 1);
    StressBytesNext(counter, width, n - 1);
    var front, sample := StressBytes(counter, width, n - 1), StressSample(Wrap16(counter + n), width);
    if k < n - 1 {
      StressAt(counter, width, n - 1, k, ch);
      Le16Front(front, sample, Row(k, width) + 2 * ch);
    } else {
      Le16Behind(front, sample, 2 * ch);
      StressWordAt(Wrap16(counter + n), width, ch);
      Wrap16Adds(counter + n, 100 * ch);
    }
  }

  lemma RowSize(counter: int, width: nat, n: nat)
    ensures |StressBytes(counter, width, n)| == Row(n, width)
  {}

  /** The samples of a batch: consecutive counter values, the sensor's reading again and again, which is -999 in two's
      complement when there is none, or the stress pattern. */
  lemma SamplesOfBatch(c: Channel, sensor: Sensor, n: nat, k: nat)
    requires k < n
    ensures var s := Produced(c, sensor, n);
            && (c.kind.Counter? ==> 4 * k + 4 <= |s| && At32(s, 4 * k) == (c.counter + k) % 0x1_0000_0000)
            && (c.kind.Temperature? ==>
                  4 * k + 4 <= |s| && At32(s, 4 * k) == if sensor.Reading? then sensor.celsius else 4294966297)
            && (c.kind.Stress? ==>
                  forall ch :: 0 <= ch < c.kind.width ==> InPattern(s, c.counter, c.kind.width, k, ch))
  {
    hide CounterBytes, TemperatureBytes, StressBytes, At32, InPattern;
    match c.kind
    case Counter => CounterAt(c.counter, n, k);
    case Temperature => TemperatureAt(SensorWord(sensor), n, k);
    case Stress(width) =>
      forall ch | 0 <= ch < width
        ensures InPattern(Produced(c, sensor, n), c.counter, width, k, ch)
      {
        StressAt(c.counter, width, n, k, ch);
      }
  }

  // ---------- batches join ----------

  lemma {:induction false} CountersJoin(start: u32, m: nat, n: nat)
    ensures CounterBytes(start, m) + CounterBytes(Wrap32(start + m), n) == CounterBytes(start, m + n)
    decreases n
  {
    hide Le32, Wrap32, CounterBytes;
    CounterBytesNext(start, 0);
    CounterBytesNext(Wrap32(start + m), 0);
    if n == 0 {
      assert CounterBytes(start, m) + [] == CounterBytes(start, m);
    } else {
      CountersJoin(start, m, n - 1);
      CounterBytesNext(start, m + n - 1);
      CounterBytesNext(Wrap32(start + m), n - 1);
      WrapAdds(start + m, n - 1);
      Regroup(CounterBytes(start, m), CounterBytes(Wrap32(start + m), n - 1), Le32(Wrap32(start + m + (n - 1))));
    }
  }

  lemma Regroup(a: seq<byte>, b: seq<byte>, c: seq<byte>)
    ensures a + (b + c) == a + b + c
  {}

  lemma {:induction false} PatternsJoin(counter: int, width: nat, m: nat, n: nat)
    ensures StressBytes(counter, width, m) + StressBytes(Wrap16(counter + m), width, n)
         == StressBytes(counter, width, m + n)
    decreases n
  {
    hide StressSample, Wrap16, StressBytes;
    StressBytesNext(counter, width, 0);
    StressBytesNext(Wrap16(counter + m), width, 0);
    if n == 0 {
      assert StressBytes(counter, width, m) + [] == StressBytes(counter, width, m);
    } else {
      PatternsJoin(counter, width, m, n - 1);
      StressBytesNext(counter, width, m + n - 1);
      StressBytesNext(Wrap16(counter + m), width, n - 1);
      Wrap16Adds(counter + m, n);
      Regroup(StressBytes(counter, width, m), StressBytes(Wrap16(counter + m), width, n - 1),
              StressSample(Wrap16(counter + m + n), width));
    }
  }

  /** The next batch goes on where the last one ended: two batches are one. */
  lemma BatchesJoin(c: Channel, sensor: Sensor, m: nat, n: nat)
    requires !c.kind.Temperature?
    ensures Produced(c, sensor, m) + Produced(AfterProduce(c, m), sensor, n) == Produced(c, sensor, m + n)
  {
    hide CounterBytes, StressBytes, Wrap16, Wrap32;
    match c.kind
    case Counter => CountersJoin(c.counter, m, n);
    case Stress(width) =>
      if m == 0 {
        StressBytesNext(c.counter, width, 0);
        assert [] + StressBytes(c.counter, width, n) == StressBytes(c.counter, width, n);
      } else {
        PatternsJoin(c.counter, width, m, n);
      }
  }

  // ---------- the stream over a run ----------

  /** The bytes behind the two headers, frame after frame. */
  function Samples(frames: seq<seq<byte>>): seq<byte>
    decreases |frames|
  {
    if frames == [] then []
    else (if |frames[0]| < 36 then [] else frames[0][36..]) + Samples(frames[1..])
  }

  lemma SamplesOne(frame: seq<byte>, rest: seq<seq<byte>>)
    requires |frame| >= 36
    ensures Samples([frame] + rest) == frame[36..] + Samples(rest)
  {
    assert ([frame] + rest)[1..] == rest;
  }

  lemma SamplesOfSlot(s: Service, w: World, i: nat, rest: seq<seq<byte>>)
    requires i < |s.slots| && BuildsNow(s.slots[i], w.now)
    ensures var c := s.slots[i].channel;
            Samples(FrameAt(s, w, i) + rest) == Produced(c, w.sensor, SamplesToSend(c)) + Samples(rest)
  {
    hide FrameOf, Due, Building, Produced, SamplesToSend, Wrap32, Encode, StreamHeader, BytesPerSample;
    var c, number := s.slots[i].channel, Wrap32(s.seqNum + Building(s.slots, w.now, i) + 1);
    FrameParts(c, s.nodeId, number, StampTick(w, i), w.sensor);
    SamplesOne(FrameOf(c, s.nodeId, number, StampTick(w, i), w.sensor), rest);
  }

  /** Samples depend on the kind and the counter of a channel only, and on the sensor for a temperature. */
  lemma SameSource(c: Channel, d: Channel, x: Sensor, y: Sensor, n: nat)
    requires c.kind == d.kind && c.counter == d.counter && !c.kind.Temperature?
    ensures Produced(c, x, n) == Produced(d, y, n)
  {
    hide CounterBytes, StressBytes;
  }

  lemma NothingProduced(c: Channel, sensor: Sensor)
    ensures Produced(c, sensor, 0) == []
  {}

  /** One event: the slot sends the next n samples of its stream, possibly none, and goes on behind them. */
  lemma StreamEvent(s: Service, e: Event, i: nat, rest: seq<seq<byte>>) returns (n: nat)
    requires i < |s.slots|
    ensures i < |After(s, e).slots|
    ensures var c, d := s.slots[i].channel, After(s, e).slots[i].channel;
            && d.kind == c.kind && d.counter == AfterProduce(c, n).counter
            && (!c.kind.Temperature? ==>
                  Samples((if e.Pass? && Active(s, e.world) then FrameAt(s, e.world, i) else []) + rest)
                  == Produced(c, Unreadable, n) + Samples(rest))
  {
    hide Produced, FrameAt, Building, SamplesToSend, AfterProduce, Samples, BuildsNow, Wrap32;
    KeepsSlots(s, e);
    var c := s.slots[i].channel;
    NothingProduced(c, Unreadable);
    ProducedNothing(c);
    assert [] + rest == rest && [] + Samples(rest) == Samples(rest);
    n := 0;
    if e.Pass? && Active(s, e.world) {
      SlotMovesOn(s.slots[i], e.world.now);
      FrameOrNone(s, e.world, i);
      if BuildsNow(s.slots[i], e.world.now) {
        n := SamplesToSend(c);
        SamplesOfSlot(s, e.world, i, rest);
        if !c.kind.Temperature? {
          SameSource(c, c, e.world.sensor, Unreadable, n);
        }
      }
    } else {
      OtherEventsKeepCounter(s, e, i);
    }
  }

  lemma FrameOrNone(s: Service, w: World, i: nat)
    requires i < |s.slots|
    ensures !BuildsNow(s.slots[i], w.now) ==> FrameAt(s, w, i) == []
  {}

  lemma ProducedNothing(c: Channel)
    ensures AfterProduce(c, 0).counter == c.counter && AfterProduce(c, 0).kind == c.kind
  {}

  lemma SlotMovesOn(s: Slot, now: u32)
    ensures var d := AfterPass(s, now).channel;
            && d.kind == s.channel.kind && (!BuildsNow(s, now) ==> d == s.channel)
            && (BuildsNow(s, now) ==>
                  Builds(s.channel) && d.counter == AfterProduce(s.channel, SamplesToSend(s.channel)).counter)
  {
    hide Due, SamplesToSend;
  }

  /** Over any run, whatever is registered, started, stopped and changed: the samples in the datagrams with a channel's
      tag are one batch of the stream that channel began with. */
  lemma {:induction false} StreamUnbroken(s: Service, events: seq<Event>, i: nat) returns (n: nat)
    requires i < |s.slots| && !s.slots[i].channel.kind.Temperature?
    ensures Samples(SlotSent(s, events, i)) == Produced(s.slots[i].channel, Unreadable, n)
    decreases |events|
  {
    hide After, Produced, FrameAt, Samples, AfterProduce, Active, SlotSent;
    var c := s.slots[i].channel;
    SlotSentUnfolds(s, events, i);
    if events == [] {
      NothingProduced(c, Unreadable);
      n := 0;
    } else {
      var e, t := events[0], After(s, events[0]);
      KeepsSlots(s, e);
      var m := StreamEvent(s, e, i, SlotSent(t, events[1..], i));
      var rest := StreamUnbroken(t, events[1..], i);
      n := m + rest;
      SameSource(t.slots[i].channel, AfterProduce(c, m).(kind := c.kind), Unreadable, Unreadable, rest);
      KindKept(c, m);
      BatchesJoin(c, Unreadable, m, rest);
    }
  }

  lemma KindKept(c: Channel, n: nat)
    ensures AfterProduce(c, n).kind == c.kind
  {}

  lemma SlotSentUnfolds(s: Service, events: seq<Event>, i: nat)
    requires i < |s.slots|
    ensures |s.slots| <= |(if events == [] then s else After(s, events[0])).slots|
    ensures events == [] ==> Samples(SlotSent(s, events, i)) == []
    ensures events != [] ==>
              SlotSent(s, events, i)
              == (if events[0].Pass? && Active(s, events[0].world) then FrameAt(s, events[0].world, i) else [])
                 + SlotSent(After(s, events[0]), events[1..], i)
  {
    hide After, FrameAt, Active;
    if events != [] {
      KeepsSlots(s, events[0]);
    }
  }

  /** So a receiver of a stress channel sees the pattern go on from datagram to datagram, across every stop, start and
      change of settings. */
  lemma StressStreamUnbroken(s: Service, events: seq<Event>, i: nat) returns (n: nat)
    requires DistinctTags(s.slots) && i < |s.slots| && s.slots[i].channel.kind.Stress?
    ensures var c, width := s.slots[i].channel, s.slots[i].channel.kind.width;
            var samples := Samples(ByTag(RunSent(s, events), c.tag));
            && |samples| == Row(n, width)
            && forall k, ch :: 0 <= k < n && 0 <= ch < width ==> InPattern(samples, c.counter, width, k, ch)
  {
    hide ByTag, RunSent, SlotSent, Samples, Row, InPattern, DistinctTags, StressBytes;
    var c, width := s.slots[i].channel, s.slots[i].channel.kind.width;
    TagPicksChannel(s, events, i);
    n := StreamUnbroken(s, events, i);
    var samples := Samples(ByTag(RunSent(s, events), c.tag));
    assert samples == StressBytes(c.counter, width, n);
    RowSize(c.counter, width, n);
    forall k, ch | 0 <= k < n && 0 <= ch < width
      ensures InPattern(samples, c.counter, width, k, ch)
    {
      StressAt(c.counter, width, n, k, ch);
    }
  }
}
