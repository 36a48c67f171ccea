/** Whole runs of the telemetry engine: numbering, unbroken counter samples, the registry, and the schedule across
    the rollover of the tick counter. */
module TelemetryLaws {
  import opened Bytes
  import opened Packet
  import opened Channels
  import opened Telemetry

  // ---------- numbering ----------

  function Number(frame: seq<byte>): u32 {
    if |frame| < HEADER_SIZE then 0 else Decode(frame[..HEADER_SIZE]).seqNum
  }

  function Numbers(frames: seq<seq<byte>>): (r: seq<u32>)
    ensures |r| == |frames| && forall i :: 0 <= i < |r| ==> r[i] == Number(frames[i])
  {
    seq<u32>(|frames|, i requires 0 <= i < |frames| => Number(frames[i]))
  }

  lemma NumbersJoin(a: seq<seq<byte>>, b: seq<seq<byte>>)
    ensures Numbers(a + b) == Numbers(a) + Numbers(b)
  {
    hide Number;
  }

  lemma FrameNumbered(s: Service, w: World, i: nat)
    requires i < |s.slots|
    ensures Numbers(FrameAt(s, w, i))
         == Consecutive(Wrap32(s.seqNum + Building(s.slots, w.now, i) + 1), |FrameAt(s, w, i)|)
  {
    hide Wrap32, Building, FrameOf, Numbers, Consecutive, Due, Builds;
    var number := Wrap32(s.seqNum + Building(s.slots, w.now, i) + 1);
    ConsecutiveOne(number);
    if BuildsNow(s.slots[i], w.now) {
      NumberOfFrame(s.slots[i].channel, s.nodeId, number, StampTick(w, i), w.sensor);
    } else {
      assert Numbers([]) == [];
    }
  }

  lemma NumberOfFrame(c: Channel, nodeId: u16, seqNum: u32, tick: u32, sensor: Sensor)
    requires Builds(c)
    ensures Numbers([FrameOf(c, nodeId, seqNum, tick, sensor)]) == [seqNum]
  {
    hide FrameOf, Produced, SamplesToSend, BytesPerSample, Decode, ValidateHeader, FromLe16;
    FrameReadBack(c, nodeId, seqNum, tick, sensor);
  }

  lemma ConsecutiveOne(x: u32)
    ensures Consecutive(x, 1) == [x] && Consecutive(x, 0) == []
  {
    WrapIdentity(x);
    assert Consecutive(x, 1)[0] == Wrap32(x + 0);
  }

  lemma {:induction false} PassNumbered(s: Service, w: World, n: nat)
    requires n <= |s.slots|
    ensures Numbers(FramesUpTo(s, w, n)) == Consecutive(Wrap32(s.seqNum + 1), Building(s.slots, w.now, n))
  {
    hide Wrap32, FrameAt, BuildsNow, Consecutive, Numbers;
    if n == 0 {
      ConsecutiveOne(Wrap32(s.seqNum + 1));
      assert Numbers([]) == [];
    } else {
      var k := Building(s.slots, w.now, n - 1);
      PassNumbered(s, w, n - 1);
      FrameNumbered(s, w, n - 1);
      NumbersJoin(FramesUpTo(s, w, n - 1), FrameAt(s, w, n - 1));
      WrapAdds(s.seqNum + 1, k);
      ConsecutiveJoins(Wrap32(s.seqNum + 1), k, |FrameAt(s, w, n - 1)|);
    }
  }

  lemma SentNumbered(s: Service, e: Event)
    ensures Numbers(Sent(s, e)) == Consecutive(Wrap32(s.seqNum + 1), |Sent(s, e)|)
    ensures After(s, e).seqNum == Wrap32(s.seqNum + |Sent(s, e)|)
  {
    hide Wrap32, FramesUpTo, Building, SlotsAfter, Restarted, StartSlots, StopSlots, Consecutive, AnyEnabled, Registers;
    ConsecutiveOne(Wrap32(s.seqNum + 1));
    WrapIdentity(s.seqNum);
    assert Numbers([]) == [];
    if e.Pass? && Active(s, e.world) {
      PassNumbered(s, e.world, |s.slots|);
    }
  }

  /** All frames of a run, whatever is registered, started and stopped in between, carry consecutive sequence
      numbers: a receiver sees a lost datagram as a gap. */
  lemma {:induction false} RunNumbered(s: Service, events: seq<Event>)
    ensures Numbers(RunSent(s, events)) == Consecutive(Wrap32(s.seqNum + 1), |RunSent(s, events)|)
    decreases |events|
  {
    hide Wrap32, After, Sent, Consecutive, Numbers;
    if events == [] {
      ConsecutiveOne(Wrap32(s.seqNum + 1));
      assert Numbers([]) == [];
    } else {
      var e, rest := events[0], events[1..];
      var t := After(s, e);
      RunNumbered(t, rest);
      SentNumbered(s, e);
      NumbersJoin(Sent(s, e), RunSent(t, rest));
      WrapAdds(s.seqNum, |Sent(s, e)| + 1);
      NumberShift(s.seqNum, |Sent(s, e)|);
      ConsecutiveJoins(Wrap32(s.seqNum + 1), |Sent(s, e)|, |RunSent(t, rest)|);
    }
  }

  lemma NumberShift(x: nat, k: nat)
    ensures Wrap32(Wrap32(x + k) + 1) == Wrap32(Wrap32(x + 1) + k)
  {
    hide Wrap32;
    WrapAdds(x + k, 1);
    WrapAdds(x + 1, k);
  }

  // ---------- unbroken samples ----------

  /** The samples of a list of frames, one after another. */
  function SampleWords(frames: seq<seq<byte>>): seq<u32>
    decreases |frames|
  {
    if frames == [] then []
    else (if |frames[0]| < SAMPLES_AT then [] else Words(frames[0][SAMPLES_AT..])) + SampleWords(frames[1..])
  }

  lemma SampleWordsOne(frame: seq<byte>, rest: seq<seq<byte>>)
    requires |frame| >= SAMPLES_AT
    ensures SampleWords([frame] + rest) == Words(frame[SAMPLES_AT..]) + SampleWords(rest)
  {
    assert ([frame] + rest)[1..] == rest;
  }

  /** A pass sends the next counter values of a counter slot and moves the counter past them. */
  lemma CounterFrame(s: Service, w: World, i: nat, rest: seq<seq<byte>>)
    requires i < |s.slots| && s.slots[i].channel.kind == Counter
    ensures var c := s.slots[i].channel;
            var n := if BuildsNow(s.slots[i], w.now) then SamplesToSend(c) else 0;
            && SampleWords(FrameAt(s, w, i) + rest) == Consecutive(c.counter, n) + SampleWords(rest)
            && AfterPass(s.slots[i], w.now).channel == c.(counter := Wrap32(c.counter + n))
  {
    hide Wrap32, Building, FrameOf, SampleWords, Words, CounterBytes, SamplesToSend, Due;
    var c := s.slots[i].channel;
    if BuildsNow(s.slots[i], w.now) {
      var number := Wrap32(s.seqNum + Building(s.slots, w.now, i) + 1);
      FrameReadBack(c, s.nodeId, number, StampTick(w, i), w.sensor);
      CounterWords(c.counter, SamplesToSend(c));
      SampleWordsOne(FrameOf(c, s.nodeId, number, StampTick(w, i), w.sensor), rest);
    } else {
      WrapIdentity(c.counter);
      assert [] + rest == rest && Consecutive(c.counter, 0) == [];
      assert [] + SampleWords(rest) == SampleWords(rest);
    }
  }

  lemma NothingSent(c: u32, rest: seq<seq<byte>>)
    ensures SampleWords([] + rest) == Consecutive(c, 0) + SampleWords(rest)
  {
    assert [] + rest == rest && Consecutive(c, 0) == [];
    assert [] + SampleWords(rest) == SampleWords(rest);
  }

  /** Settings never touch the counter. */
  lemma OtherEventsKeepCounter(s: Service, e: Event, i: nat)
    requires i < |s.slots|
    requires !(e.Pass? && Active(s, e.world))
    ensures i < |After(s, e).slots|
    ensures var c, d := s.slots[i].channel, After(s, e).slots[i].channel; d.counter == c.counter && d.kind == c.kind
  {
    hide AnyEnabled, HasTag;
    KeepsSlots(s, e);
  }

  /** The samples in all frames built for a counter channel over any run, with any changes of rate and batch, starts
      and stops in between, are consecutive: no gap and no repeat at frame boundaries. */
  lemma {:induction false} CounterUnbroken(s: Service, events: seq<Event>, i: nat)
    requires i < |s.slots| && s.slots[i].channel.kind == Counter
    ensures var words := SampleWords(SlotSent(s, events, i));
            words == Consecutive(s.slots[i].channel.counter, |words|)
    decreases |events|
  {
    hide After, Wrap32, FrameAt, Consecutive, SampleWords, Active, BuildsNow, SamplesToSend;
    if events == [] {
      NothingSent(s.slots[i].channel.counter, []);
      assert SampleWords([]) == [] by { EmptySampleWords(); }
      ConsecutiveOne(s.slots[i].channel.counter);
    } else {
      var e, t := events[0], After(s, events[0]);
      KeepsSlots(s, e);
      var n := CounterEvent(s, e, i, SlotSentTail(s, events, i));
      CounterUnbroken(t, events[1..], i);
      ConsecutiveJoins(s.slots[i].channel.counter, n, |SampleWords(SlotSentTail(s, events, i))|);
    }
  }

  lemma EmptySampleWords()
    ensures SampleWords([]) == []
  {}

  function SlotSentTail(s: Service, events: seq<Event>, i: nat): seq<seq<byte>>
    requires i < |s.slots| && events != []
  {
    KeepsSlots(s, events[0]);
    SlotSent(After(s, events[0]), events[1..], i)
  }

  lemma CounterEvent(s: Service, e: Event, i: nat, rest: seq<seq<byte>>) returns (n: nat)
    requires i < |s.slots| && s.slots[i].channel.kind == Counter
    ensures i < |After(s, e).slots| && After(s, e).slots[i].channel.kind == Counter
    ensures After(s, e).slots[i].channel.counter == Wrap32(s.slots[i].channel.counter + n)
    ensures SampleWords((if e.Pass? && Active(s, e.world) then FrameAt(s, e.world, i) else []) + rest)
         == Consecutive(s.slots[i].channel.counter, n) + SampleWords(rest)
  {
    hide FrameAt, Consecutive, SampleWords, Wrap32, AfterPass, Building;
    KeepsSlots(s, e);
    if e.Pass? && Active(s, e.world) {
      n := if BuildsNow(s.slots[i], e.world.now) then SamplesToSend(s.slots[i].channel) else 0;
      CounterFrame(s, e.world, i, rest);
    } else {
      n := 0;
      OtherEventsKeepCounter(s, e, i);
      WrapIdentity(s.slots[i].channel.counter);
      NothingSent(s.slots[i].channel.counter, rest);
    }
  }

  // ---------- the registry ----------

  predicate DistinctTags(slots: seq<Slot>) {
    forall i, j :: 0 <= i < j < |slots| ==> slots[i].channel.tag != slots[j].channel.tag
  }

  /** At most eight channels, no two with the same tag, and only streaming services have enabled channels. */
  ghost predicate WellFormed(s: Service) {
    && |s.slots| <= MAX_CHANNELS
    && DistinctTags(s.slots)
    && (AnyEnabled(s.slots) ==> s.streaming)
  }

  lemma SameTags(s: Service, e: Event)
    ensures |s.slots| <= |After(s, e).slots|
    ensures forall i :: 0 <= i < |s.slots| ==> After(s, e).slots[i].channel.tag == s.slots[i].channel.tag
    ensures !e.Register? ==> |After(s, e).slots| == |s.slots|
  {
    hide AnyEnabled, HasTag, Due, Builds, SamplesToSend;
  }

  predicate NewDisabled(e: Event) {
    e.Register? ==> !e.channel.enabled
  }

  lemma PassKeepsEnabled(s: Service, w: World)
    ensures AnyEnabled(AfterWhole(s, w).slots) <==> AnyEnabled(s.slots)
  {
    hide Due, Builds, SamplesToSend, Building, Active;
    var t := AfterWhole(s, w);
    assert forall i :: 0 <= i < |s.slots| ==> t.slots[i].channel.enabled == s.slots[i].channel.enabled;
  }

  lemma RegisterKeepsEnabled(s: Service, c: Channel, at: u32)
    requires !c.enabled
    ensures AnyEnabled(AfterRegister(s, c, at).slots) <==> AnyEnabled(s.slots)
  {
    hide HasTag;
    var t := AfterRegister(s, c, at);
    assert forall i :: 0 <= i < |s.slots| ==> t.slots[i] == s.slots[i];
  }

  /** Registration never lets a tag in twice, and nothing else changes one. */
  lemma EventKeepsTags(s: Service, e: Event)
    requires DistinctTags(s.slots)
    ensures DistinctTags(After(s, e).slots)
  {
    hide After;
    SameTags(s, e);
    if e.Register? {
      NewTagIsNew(s, e.channel, e.at);
    }
  }

  lemma NewTagIsNew(s: Service, c: Channel, at: u32)
    ensures After(s, Register(c, at)) == AfterRegister(s, c, at)
    ensures var t := AfterRegister(s, c, at);
            || t.slots == s.slots
            || (|t.slots| == |s.slots| + 1
                && forall i :: 0 <= i < |s.slots| ==> s.slots[i].channel.tag != t.slots[|s.slots|].channel.tag)
  {}

  lemma EventKeepsWellFormed(s: Service, e: Event)
    requires WellFormed(s) && NewDisabled(e)
    ensures WellFormed(After(s, e))
  {
    EventKeepsTags(s, e);
    match e
    case Register(c, at) => RegisterKeepsEnabled(s, c, at);
    case Start(tag, rate, batch) =>
    case Stop(tag) => StoppedAll(s, tag);
    case Pass(w) => PassKeepsEnabled(s, w);
  }

  lemma StoppedAll(s: Service, tag: u32)
    ensures tag == 0 ==> !AnyEnabled(StopSlots(s.slots, tag))
  {}

  lemma {:induction false} RunKeepsWellFormed(s: Service, events: seq<Event>)
    requires WellFormed(s) && forall i :: 0 <= i < |events| ==> NewDisabled(events[i])
    ensures WellFormed(Run(s, events))
    decreases |events|
  {
    hide After, WellFormed;
    if events != [] {
      EventKeepsWellFormed(s, events[0]);
      RunKeepsWellFormed(After(s, events[0]), events[1..]);
    }
  }

  /** Starting one stream touches no other channel; stopping it leaves streaming on exactly while some channel is still
      enabled. */
  lemma StartStopOne(s: Service, tag: u32, rate: u16, batch: u16, i: nat)
    requires tag != 0 && i < |s.slots| && WellFormed(s)
    ensures s.slots[i].channel.tag != tag
        ==> After(s, Start(tag, rate, batch)).slots[i] == s.slots[i] == After(s, Stop(tag)).slots[i]
    ensures s.slots[i].channel.tag == tag
        ==> After(s, Start(tag, rate, batch)).slots[i].channel.enabled && !After(s, Stop(tag)).slots[i].channel.enabled
    ensures After(s, Stop(tag)).streaming
       <==> exists j :: 0 <= j < |s.slots| && s.slots[j].channel.enabled && s.slots[j].channel.tag != tag
  {
    var slots := StopSlots(s.slots, tag);
    if AnyEnabled(slots) {
      var j :| 0 <= j < |slots| && slots[j].channel.enabled;
      assert s.slots[j].channel.enabled && s.slots[j].channel.tag != tag;
    }
    if j :| 0 <= j < |s.slots| && s.slots[j].channel.enabled && s.slots[j].channel.tag != tag {
      assert slots[j].channel.enabled;
    }
  }

  /** A start leaves a channel enabled exactly when it addresses one or one was enabled before, but always claims to be
      streaming: a tag nobody registered turns streaming on with nothing to stream. */
  lemma StartEnablesExactly(s: Service, tag: u32, rate: u16, batch: u16)
    ensures var t := After(s, Start(tag, rate, batch));
            t.streaming
            && (AnyEnabled(t.slots) <==>
                  AnyEnabled(s.slots) || (if tag == 0 then s.slots != [] else HasTag(s.slots, tag)))
  {
    hide Configured;
    var t := After(s, Start(tag, rate, batch));
    ConfiguredEnabled(s.slots, rate, batch);
    if AnyEnabled(s.slots) {
      var i :| 0 <= i < |s.slots| && s.slots[i].channel.enabled;
      assert t.slots[i].channel.enabled;
    }
    if tag == 0 && s.slots != [] {
      assert t.slots[0].channel.enabled;
    }
    if tag != 0 && HasTag(s.slots, tag) {
      var i :| 0 <= i < |s.slots| && s.slots[i].channel.tag == tag;
      assert t.slots[i].channel.enabled;
    }
  }

  lemma ConfiguredEnabled(slots: seq<Slot>, rate: u16, batch: u16)
    ensures forall i :: 0 <= i < |slots| ==> Configured(slots[i].channel, rate, batch).enabled
  {}

  // ---------- the schedule ----------

  /** The times, on an unbounded clock, at which an enabled slot sends, when passes happen at the given times and the
      slot only sees them modulo 2^32. */
  function Fired(s: Slot, passes: seq<nat>): seq<nat>
    decreases |passes|
  {
    if passes == [] then []
    else
      (if Due(s, Wrap32(passes[0])) then [passes[0]] else []) + Fired(AfterPass(s, Wrap32(passes[0])), passes[1..])
  }

  /** The schedule without rollover: send at the first pass at least one interval after the last time. */
  function Ideal(last: nat, interval: nat, passes: seq<nat>): seq<nat>
    decreases |passes|
  {
    if passes == [] then []
    else if passes[0] >= last + interval then [passes[0]] + Ideal(passes[0], interval, passes[1..])
    else Ideal(last, interval, passes[1..])
  }

  /** Passes follow each other at most `gap` ticks apart. */
  predicate Paced(from: nat, passes: seq<nat>, gap: nat)
    decreases |passes|
  {
    passes == [] || (from <= passes[0] <= from + gap && Paced(passes[0], passes[1..], gap))
  }

  function Interval(s: Slot): nat {
    IntervalTicks(s.channel.rate, s.channel.batch)
  }

  lemma WrappedDifference(now: nat, last: nat)
    requires last <= now < last + TWO32
    ensures Wrap32(Wrap32(now) - Wrap32(last)) == now - last
  {}

  lemma SettingsKept(s: Slot, now: u32)
    ensures var t := AfterPass(s, now);
            Interval(t) == Interval(s) && t.channel.enabled == s.channel.enabled
            && t.lastWake == if Due(s, now) then now else s.lastWake
  {
    hide Due, Builds, SamplesToSend, IntervalTicks, Wrap32;
  }

  /** With passes closer than 2^32 ticks less the interval, the wrapped comparison sends exactly when the unbounded one
      would. */
  lemma {:induction false} WrapSafe(s: Slot, last: nat, from: nat, passes: seq<nat>, gap: nat)
    requires s.channel.enabled && s.lastWake == Wrap32(last) && last <= from < last + Interval(s)
    requires Paced(from, passes, gap) && Interval(s) + gap <= TWO32
    ensures Fired(s, passes) == Ideal(last, Interval(s), passes)
    decreases |passes|
  {
    hide Wrap32, IntervalTicks, AfterPass;
    if passes != [] {
      var now := passes[0];
      var t := AfterPass(s, Wrap32(now));
      SettingsKept(s, Wrap32(now));
      WrappedDifference(now, last);
      if now >= last + Interval(s) {
        WrapSafe(t, now, now, passes[1..], gap);
      } else {
        WrapSafe(t, last, now, passes[1..], gap);
        assert [] + Fired(t, passes[1..]) == Fired(t, passes[1..]);
      }
    }
  }

  /** Successive times lie at least `low` and at most `high` apart, and the last one less than `low` before `end`. */
  predicate Spaced(last: nat, times: seq<nat>, low: nat, high: nat, end: nat)
    decreases |times|
  {
    if times == [] then last <= end < last + low
    else last + low <= times[0] <= last + high && Spaced(times[0], times[1..], low, high, end)
  }

  function End(from: nat, passes: seq<nat>): nat {
    if passes == [] then from else passes[|passes| - 1]
  }

  lemma {:induction false} IdealSpacing(last: nat, interval: nat, from: nat, passes: seq<nat>, gap: nat)
    requires interval >= 1 && last <= from < last + interval && Paced(from, passes, gap)
    ensures Spaced(last, Ideal(last, interval, passes), interval, interval + gap - 1, End(from, passes))
    decreases |passes|
  {
    if passes != [] {
      var now, rest := passes[0], passes[1..];
      assert End(now, rest) == End(from, passes);
      if now >= last + interval {
        IdealSpacing(now, interval, now, rest, gap);
        assert ([now] + Ideal(now, interval, rest))[1..] == Ideal(now, interval, rest);
      } else {
        IdealSpacing(last, interval, now, rest, gap);
      }
    }
  }

  /** A continuously enabled channel with fixed settings: whatever the tick counter does, consecutive frames are at
      least one interval and at most one interval plus one pass apart, and none is missing at the end. */
  lemma ScheduleHolds(s: Slot, last: nat, passes: seq<nat>, gap: nat)
    requires s.channel.enabled && s.lastWake == Wrap32(last)
    requires Paced(last, passes, gap) && Interval(s) + gap <= TWO32
    ensures Spaced(last, Fired(s, passes), Interval(s), Interval(s) + gap - 1, End(last, passes))
  {
    hide Fired, Ideal, Spaced, Paced, Wrap32;
    WrapSafe(s, last, last, passes, gap);
    IdealSpacing(last, Interval(s), last, passes, gap);
  }

  lemma ElapsedSeen(now: nat, last: nat)
    requires last <= now
    ensures Wrap32(Wrap32(now) - Wrap32(last)) == (now - last) % TWO32
  {}

  /** One pass, any time after the last frame: the wrapped comparison decides as the unbounded one exactly while less
      than a counter period has passed, or the part of a period that is seen is an interval by itself. */
  lemma PassDecides(s: Slot, last: nat, now: nat)
    requires s.channel.enabled && s.lastWake == Wrap32(last) && last <= now
    ensures (Due(s, Wrap32(now)) <==> now >= last + Interval(s))
       <==> (now - last < TWO32 || (now - last) % TWO32 >= Interval(s))
  {
    hide Wrap32, IntervalTicks;
    ElapsedSeen(now, last);
    IntervalTicksBound(s);
  }

  lemma IntervalTicksBound(s: Slot)
    ensures 1 <= Interval(s) < TWO32
  {}

  /** So a frame that is due is missed exactly when the scheduler stalls for at least a counter period and less than an
      interval of it is seen. */
  lemma StallMissed(s: Slot, last: nat, now: nat)
    requires s.channel.enabled && s.lastWake == Wrap32(last) && last <= now
    ensures Ideal(last, Interval(s), [now]) == [now] && Fired(s, [now]) == []
       <==> now - last >= TWO32 && (now - last) % TWO32 < Interval(s)
  {
    hide Wrap32, IntervalTicks, Due, AfterPass;
    PassDecides(s, last, now);
    IntervalTicksBound(s);
    assert [now][1..] == [];
    SmallRemainder(now - last);
  }

  lemma SmallRemainder(x: nat)
    ensures x < TWO32 ==> x % TWO32 == x
  {}

  /** The bound of WrapSafe cannot be widened by a single tick: a pass just before the interval is over and the next one
      a counter period after the last frame lose the frame. */
  lemma WrapSafeIsTight(s: Slot, last: nat)
    requires s.channel.enabled && s.lastWake == Wrap32(last)
    ensures var gap := TWO32 + 1 - Interval(s);
            var passes := [last + Interval(s) - 1, last + TWO32];
            && Paced(last, passes, gap) && Interval(s) + gap == TWO32 + 1
            && Fired(s, passes) == [] && Ideal(last, Interval(s), passes) == [last + TWO32]
  {
    hide Wrap32, IntervalTicks, AfterPass;
    var early, late := last + Interval(s) - 1, last + TWO32;
    var passes := [early, late];
    assert passes[1..] == [late] && [late][1..] == [];
    IntervalHalf(s);
    ElapsedSeen(early, last);
    ElapsedSeen(late, last);
    SmallRemainder(early - last);
    assert !Due(s, Wrap32(early));
    AfterPassIdle(s, Wrap32(early));
    assert !Due(s, Wrap32(late));
    assert Fired(s, [late]) == [] + Fired(AfterPass(s, Wrap32(late)), []);
    assert Fired(s, passes) == [] + Fired(s, [late]);
    assert Ideal(last, Interval(s), [late]) == [late] + Ideal(late, Interval(s), []);
    assert Paced(early, [late], TWO32 + 1 - Interval(s));
  }

  lemma IntervalHalf(s: Slot)
    ensures 1 <= Interval(s) <= 65535000
  {}

  lemma AfterPassIdle(s: Slot, now: u32)
    requires !Due(s, now)
    ensures AfterPass(s, now) == s
  {}

  /** The slot in the whole service does the same: an active pass sends a frame of slot i exactly when the slot is due
      and has samples, and moves it on as `Fired` does. */
  lemma PassActsOnSlot(s: Service, w: World, i: nat)
    requires i < |s.slots| && Active(s, w)
    ensures After(s, Pass(w)).slots[i] == AfterPass(s.slots[i], w.now)
    ensures SlotSent(s, [Pass(w)], i) != [] <==> Due(s.slots[i], w.now) && Builds(s.slots[i].channel)
  {
    hide AfterPass, Building, Due, Builds;
    assert [Pass(w)][1..] == [];
  }
}
