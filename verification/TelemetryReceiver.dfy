/** What a receiver of the datagrams can rely on: frames picked out by the tag in their stream header, over whole runs
    of the service. */
module TelemetryReceiver {
  import opened Bytes
  import opened Channels
  import opened Telemetry
  import opened TelemetryLaws

  // ---------- picking out a channel ----------

  /** The datagrams that carry this tag. */
  function ByTag(frames: seq<seq<byte>>, tag: u32): seq<seq<byte>>
    decreases |frames|
  {
    if frames == [] then []
    else (if TagOf(frames[0]) == tag then [frames[0]] else []) + ByTag(frames[1..], tag)
  }

  lemma {:induction false} ByTagJoins(a: seq<seq<byte>>, b: seq<seq<byte>>, tag: u32)
    ensures ByTag(a + b, tag) == ByTag(a, tag) + ByTag(b, tag)
    decreases |a|
  {
    hide TagOf;
    if a == [] {
      assert a + b == b;
    } else {
      assert (a + b)[1..] == a[1..] + b;
      ByTagJoins(a[1..], b, tag);
    }
  }

  lemma ByTagOne(frame: seq<byte>, tag: u32)
    ensures ByTag([frame], tag) == if TagOf(frame) == tag then [frame] else []
    ensures ByTag([], tag) == []
  {
    assert [frame][1..] == [];
  }

  lemma SlotTagged(s: Service, w: World, i: nat, tag: u32)
    requires i < |s.slots|
    ensures ByTag(FrameAt(s, w, i), tag) == if s.slots[i].channel.tag == tag then FrameAt(s, w, i) else []
  {
    hide FrameOf, Due, Builds, Building, Wrap32, ByTag, TagOf;
    if BuildsNow(s.slots[i], w.now) {
      var c, number := s.slots[i].channel, Wrap32(s.seqNum + Building(s.slots, w.now, i) + 1);
      FrameNamesItsChannel(c, s.nodeId, number, StampTick(w, i), w.sensor);
      ByTagOne(FrameOf(c, s.nodeId, number, StampTick(w, i), w.sensor), tag);
    } else {
      ByTagOne([], tag);
    }
  }

  lemma {:induction false} PassTagged(s: Service, w: World, i: nat, n: nat)
    requires DistinctTags(s.slots) && i < |s.slots| && n <= |s.slots|
    ensures ByTag(FramesUpTo(s, w, n), s.slots[i].channel.tag) == if i < n then FrameAt(s, w, i) else []
    decreases n
  {
    hide FrameAt, ByTag;
    var tag := s.slots[i].channel.tag;
    if n == 0 {
      ByTagOne([], tag);
    } else {
      PassTagged(s, w, i, n - 1);
      ByTagJoins(FramesUpTo(s, w, n - 1), FrameAt(s, w, n - 1), tag);
      SlotTagged(s, w, n - 1, tag);
    }
  }

  lemma SentTagged(s: Service, e: Event, i: nat)
    requires DistinctTags(s.slots) && i < |s.slots|
    ensures ByTag(Sent(s, e), s.slots[i].channel.tag)
         == if e.Pass? && Active(s, e.world) then FrameAt(s, e.world, i) else []
  {
    hide FrameAt, ByTag, Active, FramesUpTo;
    ByTagOne([], s.slots[i].channel.tag);
    if e.Pass? && Active(s, e.world) {
      PassTagged(s, e.world, i, |s.slots|);
    }
  }

  /** Whatever is registered, started and stopped: the datagrams of a run with a channel's tag are exactly those the
      service built for it, in order. */
  lemma {:induction false} TagPicksChannel(s: Service, events: seq<Event>, i: nat)
    requires DistinctTags(s.slots) && i < |s.slots|
    ensures ByTag(RunSent(s, events), s.slots[i].channel.tag) == SlotSent(s, events, i)
    decreases |events|
  {
    hide After, Sent, FrameAt, ByTag, Active, DistinctTags;
    if events == [] {
      ByTagOne([], s.slots[i].channel.tag);
    } else {
      var t := After(s, events[0]);
      KeepsSlots(s, events[0]);
      SameTags(s, events[0]);
      EventKeepsTags(s, events[0]);
      TagPicksChannel(t, events[1..], i);
      SentTagged(s, events[0], i);
      ByTagJoins(Sent(s, events[0]), RunSent(t, events[1..]), s.slots[i].channel.tag);
    }
  }

  /** The counter stream as a receiver sees it: the samples in all datagrams of the run with the counter's tag are
      consecutive, across every change of settings, stop and start. */
  lemma CounterStreamUnbroken(s: Service, events: seq<Event>, i: nat)
    requires DistinctTags(s.slots) && i < |s.slots| && s.slots[i].channel.kind == Counter
    ensures var words := SampleWords(ByTag(RunSent(s, events), s.slots[i].channel.tag));
            words == Consecutive(s.slots[i].channel.counter, |words|)
  {
    hide ByTag, RunSent, SlotSent, SampleWords, Consecutive, DistinctTags;
    TagPicksChannel(s, events, i);
    CounterUnbroken(s, events, i);
  }

  // ---------- the schedule of a channel in a run ----------

  /** The event leaves the channel's settings alone: no start or stop addresses it, and the network stays up. */
  predicate LeavesAlone(e: Event, c: Channel) {
    match e
    case Register(added, _) => !added.enabled
    case Start(tag, _, _) => !Addressed(c, tag)
    case Stop(tag) => !Addressed(c, tag)
    case Pass(w) => w.ready
  }

  /** The times of the passes of a run on an unbounded clock, of which the service sees the low 32 bits. */
  predicate PassesAt(events: seq<Event>, times: seq<nat>)
    decreases |events|
  {
    if events == [] then times == []
    else if !events[0].Pass? then PassesAt(events[1..], times)
    else times != [] && events[0].world.now == Wrap32(times[0]) && PassesAt(events[1..], times[1..])
  }

  /** The time, in each pass of a run, at which the tick count is read for the frame of slot i: not before the pass
      began, and at most `late` ticks after it. */
  predicate BuiltAt(events: seq<Event>, times: seq<nat>, built: seq<nat>, i: nat, late: nat)
    decreases |events|
  {
    if events == [] then built == []
    else if !events[0].Pass? then BuiltAt(events[1..], times, built, i, late)
    else
      && times != [] && built != [] && StampTick(events[0].world, i) == Wrap32(built[0])
      && times[0] <= built[0] <= times[0] + late
      && BuiltAt(events[1..], times[1..], built[1..], i, late)
  }

  /** The build times of the passes in which an enabled slot sends. */
  function Stamped(s: Slot, passes: seq<nat>, built: seq<nat>): seq<nat>
    decreases |passes|
  {
    if passes == [] || built == [] then []
    else
      (if Due(s, Wrap32(passes[0])) then [built[0]] else [])
      + Stamped(AfterPass(s, Wrap32(passes[0])), passes[1..], built[1..])
  }

  function Stamps(frames: seq<seq<byte>>): (r: seq<u64>)
    ensures |r| == |frames| && forall k :: 0 <= k < |r| ==> r[k] == TimeStamp(frames[k])
  {
    seq<u64>(|frames|, k requires 0 <= k < |frames| => TimeStamp(frames[k]))
  }

  /** The time stamps of frames built at these times: the low 32 bits of the tick count, in microseconds. */
  function StampsOf(times: seq<nat>): (r: seq<u64>)
    ensures |r| == |times| && forall k :: 0 <= k < |r| ==> r[k] == Wrap32(times[k]) * 1000
  {
    seq<u64>(|times|, k requires 0 <= k < |times| => Wrap32(times[k]) * 1000)
  }

  lemma StampsJoin(a: seq<seq<byte>>, b: seq<seq<byte>>, x: seq<nat>, y: seq<nat>)
    requires Stamps(a) == StampsOf(x) && Stamps(b) == StampsOf(y)
    ensures Stamps(a + b) == StampsOf(x + y)
  {
    hide TimeStamp, Wrap32;
    assert Stamps(a + b) == Stamps(a) + Stamps(b);
    assert StampsOf(x + y) == StampsOf(x) + StampsOf(y);
  }

  lemma FrameStamped(s: Service, w: World, i: nat, time: nat)
    requires i < |s.slots| && StampTick(w, i) == Wrap32(time) && Builds(s.slots[i].channel)
    ensures Stamps(FrameAt(s, w, i)) == StampsOf(if Due(s.slots[i], w.now) then [time] else [])
  {
    hide FrameOf, Due, Builds, Building, Wrap32, TimeStamp;
    if BuildsNow(s.slots[i], w.now) {
      var c, number := s.slots[i].channel, Wrap32(s.seqNum + Building(s.slots, w.now, i) + 1);
      FrameNamesItsChannel(c, s.nodeId, number, StampTick(w, i), w.sensor);
      assert Stamps(FrameAt(s, w, i))[0] == StampsOf([time])[0];
    }
  }

  /** Building, like the settings, does not depend on how far the samples have got. */
  lemma BuildsKept(s: Slot, now: u32)
    ensures Builds(AfterPass(s, now).channel) == Builds(s.channel)
  {
    hide Due;
  }

  lemma EnabledIsActive(s: Service, w: World, i: nat)
    requires WellFormed(s) && i < |s.slots| && s.slots[i].channel.enabled && w.ready
    ensures Active(s, w)
  {
    hide DistinctTags;
    assert AnyEnabled(s.slots);
  }

  lemma SlotAfter(s: Service, e: Event, i: nat)
    requires i < |s.slots| && LeavesAlone(e, s.slots[i].channel) && (e.Pass? ==> Active(s, e.world))
    ensures i < |After(s, e).slots|
    ensures After(s, e).slots[i] == if e.Pass? then AfterPass(s.slots[i], e.world.now) else s.slots[i]
  {
    hide AfterPass, AnyEnabled, HasTag, Building;
    KeepsSlots(s, e);
  }

  /** In any run in which other channels are registered, started and stopped at will, an enabled channel whose settings
      are left alone sends exactly in the passes the schedule of its slot says, and each frame is stamped with the time
      it was built in its pass. */
  lemma {:induction false} SlotFollowsSchedule(s: Service, events: seq<Event>, times: seq<nat>, built: seq<nat>, i: nat,
                                               late: nat)
    requires WellFormed(s) && i < |s.slots| && s.slots[i].channel.enabled && Builds(s.slots[i].channel)
    requires forall k :: 0 <= k < |events| ==> LeavesAlone(events[k], s.slots[i].channel)
    requires PassesAt(events, times) && BuiltAt(events, times, built, i, late)
    ensures Stamps(SlotSent(s, events, i)) == StampsOf(Stamped(s.slots[i], times, built))
    decreases |events|
  {
    hide After, Active, FrameAt, Builds, AfterPass, Due, WellFormed, Wrap32, LeavesAlone, Stamps, StampsOf, StampTick;
    if events == [] {
      NoStamps();
    } else {
      var e, rest, slot := events[0], events[1..], s.slots[i];
      KeepsSlots(s, e);
      EventLeavesWellFormed(s, e, slot.channel);
      if e.Pass? {
        PassReady(e, slot.channel);
        EnabledIsActive(s, e.world, i);
        BuildsKept(slot, e.world.now);
        SettingsKept(slot, e.world.now);
      }
      SlotAfter(s, e, i);
      StillLeftAlone(s, e, i, events);
      if e.Pass? {
        SlotFollowsSchedule(After(s, e), rest, times[1..], built[1..], i, late);
        FrameStamped(s, e.world, i, built[0]);
        StampsJoin(FrameAt(s, e.world, i), SlotSent(After(s, e), rest, i),
                   if Due(slot, e.world.now) then [built[0]] else [],
                   Stamped(After(s, e).slots[i], times[1..], built[1..]));
      } else {
        SlotFollowsSchedule(After(s, e), rest, times, built, i, late);
        assert [] + SlotSent(After(s, e), rest, i) == SlotSent(After(s, e), rest, i);
      }
    }
  }

  lemma NoStamps()
    ensures Stamps([]) == StampsOf([])
  {}

  lemma PassReady(e: Event, c: Channel)
    requires e.Pass? && LeavesAlone(e, c)
    ensures e.world.ready
  {}

  lemma EventLeavesWellFormed(s: Service, e: Event, c: Channel)
    requires WellFormed(s) && LeavesAlone(e, c)
    ensures WellFormed(After(s, e))
  {
    hide After, WellFormed;
    EventKeepsWellFormed(s, e);
  }

  lemma StillLeftAlone(s: Service, e: Event, i: nat, events: seq<Event>)
    requires i < |s.slots| && i < |After(s, e).slots|
    requires forall k :: 0 <= k < |events| ==> LeavesAlone(events[k], s.slots[i].channel)
    ensures forall k :: 0 <= k < |events| ==> LeavesAlone(events[k], After(s, e).slots[i].channel)
  {
    hide After;
    SameTags(s, e);
  }

  /** The times of two lists go together: as many, each of the second at most `late` after its partner. */
  predicate Trails(fired: seq<nat>, stamped: seq<nat>, late: nat) {
    |fired| == |stamped| && forall k :: 0 <= k < |fired| ==> fired[k] <= stamped[k] <= fired[k] + late
  }

  lemma TrailsCons(x: nat, y: nat, fired: seq<nat>, stamped: seq<nat>, late: nat)
    requires Trails(fired, stamped, late) && x <= y <= x + late
    ensures Trails([x] + fired, [y] + stamped, late)
  {}

  lemma {:induction false} StampsTrail(s: Slot, events: seq<Event>, times: seq<nat>, built: seq<nat>, i: nat, late: nat)
    requires PassesAt(events, times) && BuiltAt(events, times, built, i, late)
    ensures Trails(Fired(s, times), Stamped(s, times, built), late)
    decreases |events|
  {
    hide Due, AfterPass, Wrap32, Trails, StampTick;
    if events == [] {
      TrailsNone(late);
    } else if !events[0].Pass? {
      StampsTrail(s, events[1..], times, built, i, late);
    } else {
      var t := AfterPass(s, Wrap32(times[0]));
      StampsTrail(t, events[1..], times[1..], built[1..], i, late);
      TrailsCons(times[0], built[0], Fired(t, times[1..]), Stamped(t, times[1..], built[1..]), late);
      assert [] + Fired(t, times[1..]) == Fired(t, times[1..]);
      assert [] + Stamped(t, times[1..], built[1..]) == Stamped(t, times[1..], built[1..]);
    }
  }

  lemma TrailsNone(late: nat)
    ensures Trails([], [], late)
  {}

  /** Neighbours lie between low and high apart. */
  predicate Apart(times: seq<nat>, low: int, high: int) {
    forall k :: 0 <= k < |times| - 1 ==> low <= times[k + 1] - times[k] <= high
  }

  lemma {:induction false} SpacedIsApart(last: nat, times: seq<nat>, low: nat, high: nat, end: nat)
    requires Spaced(last, times, low, high, end)
    ensures Apart([last] + times, low, high)
    decreases |times|
  {
    if times != [] {
      SpacedIsApart(times[0], times[1..], low, high, end);
      var all, rest := [last] + times, [times[0]] + times[1..];
      assert rest == times;
      forall k | 0 <= k < |all| - 1
        ensures low <= all[k + 1] - all[k] <= high
      {
        if k > 0 {
          assert all[k] == rest[k - 1] && all[k + 1] == rest[k];
        }
      }
    }
  }

  lemma TrailingApart(fired: seq<nat>, stamped: seq<nat>, late: nat, low: int, high: int)
    requires Trails(fired, stamped, late) && Apart(fired, low, high)
    ensures Apart(stamped, low - late, high + late)
  {}

  lemma ApartTail(first: nat, times: seq<nat>, low: int, high: int)
    requires Apart([first] + times, low, high)
    ensures Apart(times, low, high)
  {
    var all := [first] + times;
    forall k | 0 <= k < |times| - 1
      ensures low <= times[k + 1] - times[k] <= high
    {
      assert times[k] == all[k + 1] && times[k + 1] == all[k + 2];
    }
  }

  /** Put together, for the datagrams a receiver picks out by the tag. The service sends in passes at least one interval
      and at most one interval plus one pass apart, none missing at the end, across any rollover of the tick counter.
      The stamps are those of times at most `late` ticks after, so their distances can be `late` ticks shorter or
      longer. */
  lemma ChannelOnSchedule(s: Service, events: seq<Event>, times: seq<nat>, built: seq<nat>, i: nat, last: nat, gap: nat,
                          late: nat)
    requires WellFormed(s) && i < |s.slots| && s.slots[i].channel.enabled && Builds(s.slots[i].channel)
    requires forall k :: 0 <= k < |events| ==> LeavesAlone(events[k], s.slots[i].channel)
    requires PassesAt(events, times) && BuiltAt(events, times, built, i, late)
    requires s.slots[i].lastWake == Wrap32(last)
    requires Paced(last, times, gap) && Interval(s.slots[i]) + gap <= TWO32
    ensures var slot := s.slots[i];
            var sent, stamped := Fired(slot, times), Stamped(slot, times, built);
            && Spaced(last, sent, Interval(slot), Interval(slot) + gap - 1, End(last, times))
            && Stamps(ByTag(RunSent(s, events), slot.channel.tag)) == StampsOf(stamped)
            && Trails(sent, stamped, late)
            && Apart(stamped, Interval(slot) - late, Interval(slot) + gap - 1 + late)
  {
    hide ByTag, RunSent, SlotSent, Stamps, StampsOf, Fired, Stamped, Spaced, Paced, Builds, LeavesAlone, PassesAt,
         BuiltAt, DistinctTags, Trails, Apart;
    var slot := s.slots[i];
    TagPicksChannel(s, events, i);
    SlotFollowsSchedule(s, events, times, built, i, late);
    ScheduleHolds(slot, last, times, gap);
    StampsTrail(slot, events, times, built, i, late);
    SpacedIsApart(last, Fired(slot, times), Interval(slot), Interval(slot) + gap - 1, End(last, times));
    ApartTail(last, Fired(slot, times), Interval(slot), Interval(slot) + gap - 1);
    TrailingApart(Fired(slot, times), Stamped(slot, times, built), late, Interval(slot), Interval(slot) + gap - 1);
  }

  /** The stamps are the send times exactly when every frame that is sent is built before the tick count moves on. */
  lemma {:induction false} StampsAreSendTimes(s: Slot, passes: seq<nat>, built: seq<nat>)
    requires |passes| == |built|
    ensures Stamped(s, passes, built) == Fired(s, passes) <==> PromptWhenFired(s, passes, built)
    decreases |passes|
  {
    hide Due, AfterPass, Wrap32;
    if passes != [] {
      var t := AfterPass(s, Wrap32(passes[0]));
      StampsAreSendTimes(t, passes[1..], built[1..]);
      var x, y := Stamped(t, passes[1..], built[1..]), Fired(t, passes[1..]);
      SameAfter(built[0], x, passes[0], y);
      assert [] + x == x && [] + y == y;
    }
  }

  lemma SameAfter(a: nat, x: seq<nat>, b: nat, y: seq<nat>)
    ensures [a] + x == [b] + y <==> a == b && x == y
  {
    if [a] + x == [b] + y {
      assert ([a] + x)[0] == a && ([b] + y)[0] == b;
      assert ([a] + x)[1..] == x && ([b] + y)[1..] == y;
    }
  }

  predicate PromptWhenFired(s: Slot, passes: seq<nat>, built: seq<nat>)
    requires |passes| == |built|
    decreases |passes|
  {
    passes == []
    || ((Due(s, Wrap32(passes[0])) ==> built[0] == passes[0])
        && PromptWhenFired(AfterPass(s, Wrap32(passes[0])), passes[1..], built[1..]))
  }

  /** Otherwise two stamps can be closer than the interval: at 500 samples a second, one per frame, a frame built a tick
      late and the next one built at once are stamped one tick apart, where the interval is two. */
  lemma StampsCloserThanInterval(s: Slot, last: nat)
    requires s.channel.enabled && s.channel.rate == 500 && s.channel.batch == 1 && s.lastWake == Wrap32(last)
    ensures Interval(s) == 2
    ensures var passes, built := [last + 2, last + 4], [last + 3, last + 4];
            Fired(s, passes) == passes && Stamped(s, passes, built) == built
  {
    hide Wrap32, AfterPass;
    var passes, built := [last + 2, last + 4], [last + 3, last + 4];
    var t := AfterPass(s, Wrap32(last + 2));
    WrappedDifference(last + 2, last);
    WrappedDifference(last + 4, last + 2);
    SettingsKept(s, Wrap32(last + 2));
    assert passes[1..] == [last + 4] && built[1..] == [last + 4] && [last + 4][1..] == [];
    assert Fired(t, [last + 4]) == [last + 4] + Fired(AfterPass(t, Wrap32(last + 4)), []);
    assert Stamped(t, [last + 4], [last + 4]) == [last + 4] + Stamped(AfterPass(t, Wrap32(last + 4)), [], []);
    assert Fired(s, passes) == [last + 2] + Fired(t, [last + 4]);
    assert Stamped(s, passes, built) == [last + 3] + Stamped(t, [last + 4], [last + 4]);
  }
}
