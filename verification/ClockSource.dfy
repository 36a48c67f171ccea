/** The clock driven by the cycle counter: the order of local times that the results about runs ask for is what the
    driver delivers. */
module ClockSource {
  import opened Bytes
  import opened Clock
  import opened ClockLaws
  import opened ClockRuns
  import opened ClockAccuracy
  import Dwt = DwtTimeSource

  /** What the driver shows at the i-th of a row of reads. */
  function ShownAt(hz: u32, gaps: seq<nat>, i: nat): u64
    requires i < |gaps|
  {
    Dwt.Shown(Dwt.Run(Dwt.Started(hz), gaps[..i + 1]))
  }

  /** Events handled at those reads. */
  function Stamped(hz: u32, gaps: seq<nat>, events: seq<Event>): (ticks: seq<Tick>)
    requires |gaps| == |events|
    ensures |ticks| == |events|
    ensures forall i :: 0 <= i < |ticks| ==> ticks[i] == Tick(ShownAt(hz, gaps, i), events[i])
  {
    seq(|events|, i requires 0 <= i < |events| => Tick(ShownAt(hz, gaps, i), events[i]))
  }

  predicate Ordered(from: u64, ticks: seq<Tick>) {
    && (forall i :: 0 <= i < |ticks| ==> from <= ticks[i].now)
    && (forall i, j :: 0 <= i < j < |ticks| ==> ticks[i].now <= ticks[j].now)
  }

  /** Plausible events, in whatever order. */
  predicate PlausibleRun(c: Clock, ticks: seq<Tick>)
    decreases |ticks|
  {
    ticks == [] || (Plausible(c, ticks[0]) && PlausibleRun(After(c, ticks[0]), ticks[1..]))
  }

  lemma OrderedTail(from: u64, ticks: seq<Tick>)
    requires ticks != []
    ensures Ordered(from, ticks) <==> from <= ticks[0].now && Ordered(ticks[0].now, ticks[1..])
  {
    var rest := ticks[1..];
    assert forall i :: 1 <= i < |ticks| ==> ticks[i] == rest[i - 1];
    if from <= ticks[0].now && Ordered(ticks[0].now, rest) {
      forall i, j | 0 <= i < j < |ticks|
        ensures ticks[i].now <= ticks[j].now
      {
        assert ticks[j] == rest[j - 1];
        if i > 0 { assert ticks[i] == rest[i - 1]; }
      }
    }
    if Ordered(from, ticks) {
      forall i, j | 0 <= i < j < |rest|
        ensures rest[i].now <= rest[j].now
      {
        assert rest[i] == ticks[i + 1] && rest[j] == ticks[j + 1];
      }
      forall i | 0 <= i < |rest|
        ensures ticks[0].now <= rest[i].now
      {
        assert rest[i] == ticks[i + 1];
      }
    }
  }

  /** A history is a plausible run in the order of time. */
  lemma {:induction false} HistorySplits(c: Clock, from: u64, ticks: seq<Tick>)
    ensures History(c, from, ticks) <==> Ordered(from, ticks) && PlausibleRun(c, ticks)
    decreases |ticks|
  {
    hide After, Plausible, Ordered;
    if ticks == [] {
      NoTicksOrdered(from);
    } else {
      OrderedTail(from, ticks);
      HistorySplits(After(c, ticks[0]), ticks[0].now, ticks[1..]);
    }
  }

  lemma NoTicksOrdered(from: u64)
    ensures Ordered(from, [])
  {}

  lemma {:induction false} ShownAscends(hz: u32, gaps: seq<nat>, i: nat, j: nat)
    requires i <= j < |gaps| && Dwt.Total(gaps) < TWO64
    ensures ShownAt(hz, gaps, i) <= ShownAt(hz, gaps, j)
    decreases j
  {
    hide Dwt.Run, Dwt.Shown;
    if i < j {
      ShownAscends(hz, gaps, i, j - 1);
      Dwt.PrefixTotal(gaps, j + 1);
      assert Dwt.Prefix(gaps[..j + 1]) == gaps[..j] && Dwt.Last(gaps[..j + 1]) == gaps[j];
      Dwt.TimeMonotone(hz, gaps[..j], gaps[j]);
      assert gaps[..j] + [gaps[j]] == gaps[..j + 1];
    }
  }

  /** Whatever the gaps between its reads, rollovers of the counter seen or not, the driver's times are in order. */
  lemma DriverOrders(hz: u32, gaps: seq<nat>, events: seq<Event>)
    requires |gaps| == |events| && Dwt.Total(gaps) < TWO64
    ensures Ordered(0, Stamped(hz, gaps, events))
  {
    hide ShownAt;
    var ticks := Stamped(hz, gaps, events);
    forall i, j | 0 <= i < j < |ticks|
      ensures ticks[i].now <= ticks[j].now
    {
      ShownAscends(hz, gaps, i, j);
    }
  }

  /** The clock on the driver: without a step, what its reads return never decreases. */
  lemma DriverReadingsAscend(c: Clock, hz: u32, gaps: seq<nat>, events: seq<Event>)
    requires |gaps| == |events| && Dwt.Total(gaps) < TWO64 && Sound(c, 0)
    requires PlausibleRun(c, Stamped(hz, gaps, events)) && StepsIn(c, Stamped(hz, gaps, events)) == 0
    ensures Ascending(Read(c, 0), Readings(c, Stamped(hz, gaps, events)))
  {
    hide Ordered, Sound, Plausible, Read, PlausibleRun, StepsIn, Ascending, Readings, History;
    DriverOrders(hz, gaps, events);
    HistorySplits(c, 0, Stamped(hz, gaps, events));
    ReadingsAscend(c, 0, Stamped(hz, gaps, events));
  }

  /** And from init on the error bound holds at every later read of the driver. */
  lemma DriverBoundedError(c: Clock, hz: u32, gaps: seq<nat>, events: seq<Event>, gap: nat, host: int -> real,
                           skew: real, delayError: real)
    requires |gaps| == |events| && Dwt.Total(gaps) + gap < TWO64
    requires Drifts(host, skew) && delayError >= 0.0
    requires PlausibleRun(AfterInit(c), Stamped(hz, gaps, events))
    requires AccurateRun(AfterInit(c), Stamped(hz, gaps, events), host, delayError)
    requires !NoSync(Stamped(hz, gaps, events))
    requires Dwt.Shown(Dwt.Run(Dwt.Started(hz), gaps + [gap])) < HORIZON
    ensures var ticks := Stamped(hz, gaps, events);
            var a := AnchorRun(Anchor(0.0, 0, 0), AfterInit(c), ticks, delayError);
            var t := Dwt.Shown(Dwt.Run(Dwt.Started(hz), gaps + [gap]));
            && a.at <= t
            && Within(Read(Run(AfterInit(c), ticks), t) as real - host(t),
                      100000.0 + delayError + Spread(skew, t - a.at) + a.rebases as real + 1.0)
  {
    hide Ordered, Plausible, Read, PlausibleRun, History, Drifts, AccurateRun, AnchorRun, Run, NoSync, Dwt.Run,
         Dwt.Shown;
    var ticks := Stamped(hz, gaps, events);
    DriverOrders(hz, gaps, events);
    HistorySplits(AfterInit(c), 0, ticks);
    Dwt.TimeMonotone(hz, gaps, gap);
    LatestShown(hz, gaps, events);
    BoundedClockError(c, ticks, Dwt.Shown(Dwt.Run(Dwt.Started(hz), gaps + [gap])), host, skew, delayError);
  }

  lemma LatestShown(hz: u32, gaps: seq<nat>, events: seq<Event>)
    requires |gaps| == |events|
    ensures Latest(0, Stamped(hz, gaps, events)) <= Dwt.Shown(Dwt.Run(Dwt.Started(hz), gaps))
  {
    if gaps != [] {
      assert gaps[..|gaps|] == gaps;
    }
  }
}
