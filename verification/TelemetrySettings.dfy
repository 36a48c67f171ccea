/** What each request and each scheduler round leaves in the table of channels, field by field, and the spacing of the
    frames a start asks for. */
module TelemetrySettings {
  import opened Bytes
  import opened Channels
  import opened Telemetry
  import opened TelemetryLaws
  import opened TelemetryReceiver

  // ---------- the settings a start leaves ----------

  /** The batch of a channel after a start with these settings. A new rate means one sample per packet except in a
      stress channel; a batch counts only together with a rate above 100 samples a second. */
  function BatchGiven(c: Channel, rate: u16, batch: u16): u16 {
    if c.kind.Stress? then (if rate > 100 && batch > 0 then batch else c.batch)
    else if rate == 0 then c.batch
    else if rate > 100 && 1 <= batch <= 100 then batch
    else 1
  }

  predicate StartedWith(c: Channel, d: Channel, rate: u16, batch: u16) {
    && d.enabled && d.kind == c.kind && d.tag == c.tag && d.counter == c.counter
    && d.rate == (if rate == 0 then c.rate else rate)
    && d.batch == BatchGiven(c, rate, batch)
  }

  /** A start enables every channel it addresses, all of them for tag 0, with the rate and batch given; it leaves the
      other channels, the periods that are running and the numbers of the frames alone. */
  lemma StartLeaves(s: Service, tag: u32, rate: u16, batch: u16)
    ensures var t := After(s, Start(tag, rate, batch));
            && t.streaming && t.seqNum == s.seqNum && t.nodeId == s.nodeId && |t.slots| == |s.slots|
            && forall i :: 0 <= i < |s.slots| ==>
                 if tag == 0 || s.slots[i].channel.tag == tag
                 then && StartedWith(s.slots[i].channel, t.slots[i].channel, rate, batch)
                      && t.slots[i].lastWake == s.slots[i].lastWake
                 else t.slots[i] == s.slots[i]
  {
    hide AnyEnabled;
  }

  /** A stop disables the channels it addresses and leaves everything else of them; the service goes on streaming
      exactly when it was given a tag and a channel with another tag is still enabled. */
  lemma StopLeaves(s: Service, tag: u32)
    requires DistinctTags(s.slots)
    ensures var t := After(s, Stop(tag));
            && t.seqNum == s.seqNum && t.nodeId == s.nodeId && |t.slots| == |s.slots|
            && (forall i :: 0 <= i < |s.slots| ==>
                  t.slots[i] == if tag == 0 || s.slots[i].channel.tag == tag
                                then s.slots[i].(channel := s.slots[i].channel.(enabled := false)) else s.slots[i])
            && (t.streaming <==>
                tag != 0
                && exists i :: 0 <= i < |s.slots| && s.slots[i].channel.enabled && s.slots[i].channel.tag != tag)
  {
    var t := After(s, Stop(tag));
    if t.streaming {
      var i :| 0 <= i < |t.slots| && t.slots[i].channel.enabled;
      assert s.slots[i].channel.enabled && s.slots[i].channel.tag != tag;
    }
    if tag != 0 && exists i :: 0 <= i < |s.slots| && s.slots[i].channel.enabled && s.slots[i].channel.tag != tag {
      var i :| 0 <= i < |s.slots| && s.slots[i].channel.enabled && s.slots[i].channel.tag != tag;
      assert t.slots[i].channel.enabled;
    }
  }

  /** A channel gets in, with its period starting at the time of registration, exactly when fewer than eight are in and
      none of them has its tag. */
  lemma RegisterLeaves(s: Service, c: Channel, at: u32)
    ensures var t := After(s, Register(c, at));
            && t.streaming == s.streaming && t.seqNum == s.seqNum && t.nodeId == s.nodeId
            && (if |s.slots| < 8 && forall i :: 0 <= i < |s.slots| ==> s.slots[i].channel.tag != c.tag
                then t.slots == s.slots + [Slot(c, at)] else t == s)
  {}

  // ---------- the settings of a channel by itself ----------

  /** A rate of 0 is ignored; any other is stored, and takes a channel other than a stress channel back to one sample
      per packet. A batch above 100 counts as one there, and a batch of 0 is ignored in a stress channel. */
  lemma SettingsStored(c: Channel, value: u16)
    ensures var d := WithRate(c, value);
            && d.rate == (if value == 0 then c.rate else value)
            && d.batch == (if value > 0 && !c.kind.Stress? then 1 else c.batch)
            && d == c.(rate := d.rate, batch := d.batch)
    ensures var d := WithBatch(c, value);
            && (1 <= value <= 100 ==> d.batch == value)
            && (value == 0 ==> d.batch == if c.kind.Stress? then c.batch else 1)
            && (value > 100 ==> d.batch == if c.kind.Stress? then value else 1)
            && d == c.(batch := d.batch)
  {}

  // ---------- one round of the scheduler ----------

  /** While nothing streams, the network is down or no channel is in, a round sends nothing and restarts every
      period. */
  lemma IdleRound(s: Service, w: World)
    requires !s.streaming || !w.ready || s.slots == []
    ensures Sent(s, Pass(w)) == []
    ensures var t := After(s, Pass(w));
            && t.seqNum == s.seqNum && t.streaming == s.streaming && t.nodeId == s.nodeId && |t.slots| == |s.slots|
            && forall i :: 0 <= i < |s.slots| ==> t.slots[i] == Slot(s.slots[i].channel, w.now)
  {}

  /** In any other round a channel acts exactly when it is enabled and its period has passed: its period restarts, and
      it sends one frame unless its samples are empty or wider than the 1436 bytes a datagram has for them. Otherwise
      nothing of it changes. */
  lemma SlotInRound(s: Service, w: World, i: nat, ticks: nat)
    requires s.streaming && w.ready && i < |s.slots|
    requires Lasts(ticks, s.slots[i].channel.rate, s.slots[i].channel.batch)
    ensures var c, t, sent := s.slots[i].channel, After(s, Pass(w)).slots[i], SlotSent(s, [Pass(w)], i);
            var acts := c.enabled && (w.now - s.slots[i].lastWake) % 0x1_0000_0000 >= ticks;
            && t.lastWake == (if acts then w.now else s.slots[i].lastWake)
            && |sent| == (if acts && 0 < BytesPerSample(c.kind) <= 1436 then 1 else 0)
            && (sent == [] ==> t.channel == c)
            && (sent != [] ==> t.channel == AfterProduce(c, SamplesToSend(c)))
  {
    hide Building, IntervalTicks, SamplesToSend, BytesPerSample, AfterProduce, FrameOf, Lasts;
    var c := s.slots[i].channel;
    IntervalIsPeriod(c.rate, c.batch);
    LastsOnce(ticks, IntervalTicks(c.rate, c.batch), c.rate, c.batch);
    BuildsWhenFits(c);
    assert [Pass(w)][1..] == [];
    KeepsSlots(s, Pass(w));
    assert SlotSent(s, [Pass(w)], i) == FrameAt(s, w, i) + SlotSent(After(s, Pass(w)), [], i);
  }

  lemma BuildsWhenFits(c: Channel)
    ensures Builds(c) <==> 0 < BytesPerSample(c.kind) <= 1436
  {
    hide BytesPerSample;
    if BytesPerSample(c.kind) > 0 {
      SmallQuotient(1436, BytesPerSample(c.kind));
    }
  }

  // ---------- the frames a start asks for ----------

  /** A start to stream at a given rate, with other channels registered, started and stopped at will behind it: the
      frames with the channel's tag leave `ticks` to `ticks` plus one pass apart, where `ticks` is how long the given
      batch lasts at the given rate. */
  lemma StartedOnSchedule(s: Service, tag: u32, rate: u16, batch: u16, events: seq<Event>, times: seq<nat>,
                          built: seq<nat>, i: nat, last: nat, gap: nat, late: nat, ticks: nat)
    requires WellFormed(s) && i < |s.slots| && (tag == 0 || s.slots[i].channel.tag == tag)
    requires 0 < BytesPerSample(s.slots[i].channel.kind) <= 1436
    requires Lasts(ticks, if rate == 0 then s.slots[i].channel.rate else rate,
                   BatchGiven(s.slots[i].channel, rate, batch))
    requires forall k :: 0 <= k < |events| ==> LeavesAlone(events[k], s.slots[i].channel)
    requires PassesAt(events, times) && BuiltAt(events, times, built, i, late)
    requires s.slots[i].lastWake == Wrap32(last)
    requires Paced(last, times, gap) && ticks + gap <= TWO32
    ensures var t := After(s, Start(tag, rate, batch));
            i < |t.slots| &&
            var sent, stamped := Fired(t.slots[i], times), Stamped(t.slots[i], times, built);
            && Spaced(last, sent, ticks, ticks + gap - 1, End(last, times))
            && Stamps(ByTag(RunSent(t, events), s.slots[i].channel.tag)) == StampsOf(stamped)
            && Trails(sent, stamped, late) && Apart(stamped, ticks - late, ticks + gap - 1 + late)
  {
    hide ByTag, RunSent, Stamps, StampsOf, Fired, Stamped, Spaced, Paced, PassesAt, BuiltAt, WellFormed, Trails, Apart,
         After, Lasts, Builds, BytesPerSample, IntervalTicks, BatchGiven, LeavesAlone, Wrap32;
    var t, c := After(s, Start(tag, rate, batch)), s.slots[i].channel;
    StartLeaves(s, tag, rate, batch);
    EventKeepsWellFormed(s, Start(tag, rate, batch));
    var d := t.slots[i].channel;
    IntervalIsPeriod(d.rate, d.batch);
    LastsOnce(ticks, IntervalTicks(d.rate, d.batch), d.rate, d.batch);
    BuildsWhenFits(d);
    AloneByTag(events, c, d);
    ChannelOnSchedule(t, events, times, built, i, last, gap, late);
  }

  lemma AloneByTag(events: seq<Event>, c: Channel, d: Channel)
    requires c.tag == d.tag && forall k :: 0 <= k < |events| ==> LeavesAlone(events[k], c)
    ensures forall k :: 0 <= k < |events| ==> LeavesAlone(events[k], d)
  {}
}
