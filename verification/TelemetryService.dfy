/** The telemetry service as the firmware runs it: a table of channel objects, one transmit buffer, and the scheduler's
    pass over the table. */
module TelemetryService {
  import opened Bytes
  import opened Packet
  import opened Channels
  import opened Telemetry

  datatype ChannelSlot = ChannelSlot(channel: TelemetryChannel, lastWakeTick: u32)

  /** One datagram built in the transmit buffer: samples first, then the two headers in front of them. */
  method BuildFrame(buffer: array<byte>, channel: TelemetryChannel, nodeId: u16, seqNum: u32, tick: u32, sensor: Sensor)
      returns (datagram: seq<byte>)
    requires buffer.Length == MAX_TX_BUFFER && Builds(channel.View())
    modifies buffer, channel
    ensures channel.View() == AfterProduce(old(channel.View()), SamplesToSend(old(channel.View())))
    ensures datagram == FrameOf(old(channel.View()), nodeId, seqNum, tick, sensor)
  {
    hide Encode, StreamHeader, Produced, Overwrite, SamplesToSend, AfterProduce, BytesPerSample;
    ghost var c := channel.View();
    FrameBound(c);
    var width := BytesPerSample(channel.kind);
    var wanted := if 0 < channel.batch <= MAX_BATCH then channel.batch else 1;
    var allowed := (MAX_TX_BUFFER - SAMPLES_AT) / width;
    var samples := if wanted > allowed then allowed else wanted;
    assert samples == SamplesToSend(c) by { SamplesComputed(c); }
    var streamHeader := StreamHeader(Channel(channel.kind, channel.tag, channel.rate, channel.batch, channel.counter,
                                             channel.enabled), tick, samples);
    ghost var before := buffer[..];
    var n := channel.ProduceSamples(buffer, SAMPLES_AT, samples, sensor);
    var payloadLen := STREAM_HEADER_SIZE + n * width;
    Memcpy(buffer, HEADER_SIZE, streamHeader);
    var header := Header(PE_MAGIC, PE_PROTOCOL_VERSION, FLAG_HAS_TIMESTAMP, nodeId, STREAM_SENSOR_BATCH, seqNum,
                         payloadLen, 0);
    Memcpy(buffer, 0, Encode(header));
    datagram := buffer[..HEADER_SIZE + payloadLen];
    Assembled(before, Encode(header), streamHeader, Produced(c, sensor, samples));
    assert header == Populated(nodeId, STREAM_SENSOR_BATCH, seqNum, StreamPayload(c, tick, sensor),
                               FLAG_HAS_TIMESTAMP, false);
  }

  lemma PassStart(s: Service, w: World)
    ensures Building(s.slots, w.now, 0) == 0 && FramesUpTo(s, w, 0) == []
  {}

  /** How a pass grows by one slot. */
  lemma PassNext(s: Service, w: World, i: nat)
    requires i < |s.slots|
    ensures var before, number := Building(s.slots, w.now, i), Wrap32(s.seqNum + Building(s.slots, w.now, i + 1));
            if BuildsNow(s.slots[i], w.now)
            then && number == Wrap32(Wrap32(s.seqNum + before) + 1)
                 && FramesUpTo(s, w, i + 1) == FramesUpTo(s, w, i)
                    + [FrameOf(s.slots[i].channel, s.nodeId, number, StampTick(w, i), w.sensor)]
            else number == Wrap32(s.seqNum + before) && FramesUpTo(s, w, i + 1) == FramesUpTo(s, w, i) + []
  {
    hide Wrap32, FrameOf, BuildsNow;
    WrapAdds(s.seqNum + Building(s.slots, w.now, i), 1);
  }

  lemma SamplesComputed(c: Channel)
    requires BytesPerSample(c.kind) > 0
    ensures var wanted := if 0 < c.batch <= MAX_BATCH then c.batch else 1;
            var allowed := (MAX_TX_BUFFER - SAMPLES_AT) / BytesPerSample(c.kind);
            SamplesToSend(c) == if wanted > allowed then allowed else wanted
  {}

  lemma Assembled(before: seq<byte>, header: seq<byte>, streamHeader: seq<byte>, samples: seq<byte>)
    requires |before| == MAX_TX_BUFFER && |header| == HEADER_SIZE && |streamHeader| == STREAM_HEADER_SIZE
    requires SAMPLES_AT + |samples| <= MAX_TX_BUFFER
    ensures Overwrite(Overwrite(Overwrite(before, SAMPLES_AT, samples), HEADER_SIZE, streamHeader), 0, header)
            [..SAMPLES_AT + |samples|] == header + (streamHeader + samples)
  {
    var end := SAMPLES_AT + |samples|;
    var b1 := Overwrite(before, SAMPLES_AT, samples);
    assert b1[SAMPLES_AT..end] == samples;
    var b2 := Overwrite(b1, HEADER_SIZE, streamHeader);
    assert b2[HEADER_SIZE..SAMPLES_AT] == streamHeader && b2[SAMPLES_AT..end] == b1[SAMPLES_AT..end];
    var b3 := Overwrite(b2, 0, header);
    assert b3[..HEADER_SIZE] == header && b3[HEADER_SIZE..end] == b2[HEADER_SIZE..end];
    assert b2[HEADER_SIZE..end] == b2[HEADER_SIZE..SAMPLES_AT] + b2[SAMPLES_AT..end];
    assert b3[..end] == b3[..HEADER_SIZE] + b3[HEADER_SIZE..end];
  }

  class TelemetryService {
    const nodeId: u16
    const txBuffer: array<byte>
    var slots: seq<ChannelSlot>
    var streaming: bool
    var seqNum: u32

    /** Room for eight, and no two with one tag; so no object is registered twice. */
    ghost predicate Valid()
      reads this
    {
      && txBuffer.Length == MAX_TX_BUFFER && |slots| <= MAX_CHANNELS
      && forall i, j :: 0 <= i < j < |slots| ==> slots[i].channel.tag != slots[j].channel.tag
    }

    ghost function Channels(): set<object>
      reads this
    {
      set i | 0 <= i < |slots| :: slots[i].channel
    }

    ghost function SlotView(i: nat): Slot
      requires i < |slots|
      reads this, slots[i].channel
    {
      Slot(slots[i].channel.View(), slots[i].lastWakeTick)
    }

    ghost function SlotViews(): (r: seq<Slot>)
      reads this, Channels()
      ensures |r| == |slots| && forall i :: 0 <= i < |r| ==> r[i] == SlotView(i)
    {
      seq(|slots|, i requires 0 <= i < |slots| reads this, Channels() => SlotView(i))
    }

    ghost function View(): Service
      reads this, Channels()
    {
      Service(nodeId, SlotViews(), streaming, seqNum)
    }

    constructor (node: u16)
      ensures Valid() && View() == Service(node, [], false, 0) && fresh(txBuffer)
    {
      nodeId, txBuffer := node, new byte[MAX_TX_BUFFER];
      slots, streaming, seqNum := [], false, 0;
    }

    method FindChannel(tag: u32) returns (index: int)
      requires Valid()
      ensures index == -1 || 0 <= index < |slots|
      ensures index >= 0 ==> slots[index].channel.tag == tag
      ensures index < 0 ==> forall i :: 0 <= i < |slots| ==> slots[i].channel.tag != tag
    {
      for i := 0 to |slots|
        invariant forall j :: 0 <= j < i ==> slots[j].channel.tag != tag
      {
        if slots[i].channel.tag == tag {
          return i;
        }
      }
      index := -1;
    }

    method RegisterChannel(channel: TelemetryChannel, now: u32) returns (ok: bool)
      requires Valid()
      modifies this`slots
      ensures Valid() && ok == Registers(old(View()), old(channel.View()))
      ensures View() == AfterRegister(old(View()), old(channel.View()), now)
    {
      if |slots| >= MAX_CHANNELS {
        return false;
      }
      var index := FindChannel(channel.tag);
      ghost var s := View();
      assert forall i :: 0 <= i < |slots| ==> s.slots[i].channel.tag == slots[i].channel.tag;
      if index >= 0 {
        assert HasTag(s.slots, channel.tag) by { assert s.slots[index].channel.tag == channel.tag; }
        return false;
      }
      slots := slots + [ChannelSlot(channel, now)];
      assert View().slots == s.slots + [Slot(channel.View(), now)];
      ok := true;
    }

    // ---------- starting and stopping ----------

    method Configure(channel: TelemetryChannel, rate: u16, batch: u16)
      modifies channel
      ensures channel.View() == Configured(old(channel.View()), rate, batch)
    {
      hide WithRate, WithBatch;
      channel.SetEnabled(true);
      if rate > 0 {
        channel.SetSampleRateHz(rate);
      }
      if batch > 0 && rate > 100 {
        channel.SetBatchCount(batch);
      }
    }

    method StartStreaming(tag: u32, rate: u16, batch: u16)
      requires Valid()
      modifies this`streaming, Channels()
      ensures Valid() && View() == After(old(View()), Start(tag, rate, batch))
    {
      hide Configured, TelemetryChannel.View;
      if tag != 0 {
        var index := FindChannel(tag);
        ViewsTagged();
        if index >= 0 {
          Configure(slots[index].channel, rate, batch);
        }
      } else {
        for i := 0 to |slots|
          invariant forall j :: 0 <= j < i ==>
                      SlotView(j) == old(SlotView(j)).(channel := Configured(old(SlotView(j)).channel, rate, batch))
          invariant forall j :: i <= j < |slots| ==> SlotView(j) == old(SlotView(j))
        {
          Configure(slots[i].channel, rate, batch);
        }
      }
      streaming := true;
      assert SlotViews() == StartSlots(old(SlotViews()), tag, rate, batch);
    }

    lemma ViewsTagged()
      ensures forall i :: 0 <= i < |slots| ==> SlotView(i).channel.tag == slots[i].channel.tag
    {}

    method AnyOn() returns (any: bool)
      ensures any == AnyEnabled(SlotViews())
    {
      for i := 0 to |slots|
        invariant forall j :: 0 <= j < i ==> !SlotViews()[j].channel.enabled
      {
        assert SlotViews()[i].channel.enabled == slots[i].channel.enabled;
        if slots[i].channel.enabled {
          return true;
        }
      }
      any := false;
    }

    /** Disable the channel with this tag, or all of them for tag 0. */
    method Disable(tag: u32)
      requires Valid()
      modifies Channels()
      ensures SlotViews() == StopSlots(old(SlotViews()), tag)
    {
      if tag != 0 {
        var index := FindChannel(tag);
        ViewsTagged();
        if index >= 0 {
          slots[index].channel.SetEnabled(false);
        }
      } else {
        for i := 0 to |slots|
          invariant forall j :: 0 <= j < i ==>
                      SlotView(j) == old(SlotView(j)).(channel := old(SlotView(j)).channel.(enabled := false))
          invariant forall j :: i <= j < |slots| ==> SlotView(j) == old(SlotView(j))
        {
          slots[i].channel.SetEnabled(false);
        }
      }
      assert SlotViews() == StopSlots(old(SlotViews()), tag);
    }

    method StopStreaming(tag: u32)
      requires Valid()
      modifies this`streaming, Channels()
      ensures Valid() && View() == After(old(View()), Stop(tag))
    {
      hide StopSlots, SlotViews, AnyEnabled;
      Disable(tag);
      var any := false;
      if tag != 0 {
        any := AnyOn();
      }
      label disabled:
      streaming := any;
      assert SlotViews() == old@disabled(SlotViews()) by { ViewsFrame@disabled(); }
    }

    /** What the table shows does not depend on the streaming flag. */
    twostate lemma ViewsFrame()
      requires slots == old(slots)
      requires forall i :: 0 <= i < |slots| ==> slots[i].channel.View() == old(slots[i].channel.View())
      ensures SlotViews() == old(SlotViews())
    {}

    // ---------- the scheduler ----------

    /** One slot of a pass. */
    method ServeSlot(i: nat, w: World) returns (frames: seq<seq<byte>>)
      requires Valid() && i < |slots|
      modifies this, slots[i].channel, txBuffer
      ensures Valid() && |slots| == |old(slots)| && streaming == old(streaming)
      ensures forall j :: 0 <= j < |slots| ==> slots[j].channel == old(slots[j].channel)
      ensures forall j :: 0 <= j < |slots| && j != i ==> SlotView(j) == old(SlotView(j))
      ensures SlotView(i) == AfterPass(old(SlotView(i)), w.now)
      ensures seqNum == if BuildsNow(old(SlotView(i)), w.now) then Wrap32(old(seqNum) + 1) else old(seqNum)
      ensures frames == if BuildsNow(old(SlotView(i)), w.now)
                        then [FrameOf(old(SlotView(i)).channel, nodeId, seqNum, StampTick(w, i), w.sensor)] else []
    {
      hide IntervalTicks, FrameOf, AfterProduce, Builds, SamplesToSend, Wrap32;
      frames := [];
      var channel := slots[i].channel;
      if !channel.enabled {
        return;
      }
      var interval := IntervalTicks(channel.rate, channel.batch);
      if Wrap32(w.now - slots[i].lastWakeTick) >= interval {
        if Builds(Channel(channel.kind, channel.tag, channel.rate, channel.batch, channel.counter, channel.enabled)) {
          seqNum := Wrap32(seqNum + 1);
          var datagram := BuildFrame(txBuffer, channel, nodeId, seqNum, StampTick(w, i), w.sensor);
          frames := [datagram];
        }
        slots := slots[i := slots[i].(lastWakeTick := w.now)];
      }
    }

    method RestartPeriods(now: u32)
      requires Valid()
      modifies this`slots
      ensures Valid() && SlotViews() == Restarted(old(SlotViews()), now)
    {
      ghost var before := slots;
      for i := 0 to |slots|
        invariant |slots| == |before|
        invariant forall j :: 0 <= j < |slots| ==>
                    slots[j] == if j < i then before[j].(lastWakeTick := now) else before[j]
      {
        slots := slots[i := slots[i].(lastWakeTick := now)];
      }
    }

    /** Every slot in turn. */
    method ServeAll(w: World) returns (frames: seq<seq<byte>>)
      requires Valid()
      modifies this, Channels(), txBuffer
      ensures Valid() && streaming == old(streaming) && SlotViews() == SlotsAfter(old(SlotViews()), w.now)
      ensures seqNum == Wrap32(old(seqNum) + Building(old(SlotViews()), w.now, |old(slots)|))
      ensures frames == FramesUpTo(old(View()), w, |old(slots)|)
    {
      hide AfterPass, BuildsNow, FrameOf, Wrap32, SlotView, Building, FrameAt, FramesUpTo;
      frames := [];
      ghost var s := View();
      ghost var objects := slots;
      WrapIdentity(seqNum);
      PassStart(s, w);
      for i := 0 to |slots|
        invariant Valid() && |slots| == |objects| && streaming == s.streaming
        invariant forall j :: 0 <= j < |slots| ==> slots[j].channel == objects[j].channel
        invariant forall j :: 0 <= j < |slots| ==>
                    SlotView(j) == if j < i then AfterPass(s.slots[j], w.now) else s.slots[j]
        invariant seqNum == Wrap32(s.seqNum + Building(s.slots, w.now, i))
        invariant frames == FramesUpTo(s, w, i)
      {
        PassNext(s, w, i);
        var sent := ServeSlot(i, w);
        frames := frames + sent;
      }
      assert SlotViews() == SlotsAfter(s.slots, w.now);
    }

    /** One round of the scheduler loop. */
    method RunPass(w: World) returns (frames: seq<seq<byte>>)
      requires Valid()
      modifies this, Channels(), txBuffer
      ensures Valid() && View() == After(old(View()), Pass(w)) && frames == Sent(old(View()), Pass(w))
    {
      hide SlotViews, SlotsAfter, Restarted, Building, FramesUpTo, Wrap32;
      if !streaming || !w.ready || |slots| == 0 {
        RestartPeriods(w.now);
        frames := [];
      } else {
        frames := ServeAll(w);
      }
    }
  }
}
