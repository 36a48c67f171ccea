/** Extending a free-running 32-bit cycle counter to 64-bit microseconds. */
module DwtTimeSource {
  import opened Bytes

  // ---------- the accumulator as a value ----------

  datatype Source = Source(last: u32, accumulated: u64, cyclesPerUs: u32)

  /** Whole cycles in one microsecond; a clock below 1 MHz counts as 1. */
  function CyclesPerUs(hz: u32): (c: u32)
    ensures c >= 1
    ensures if hz < 1000000 then c == 1 else c * 1000000 <= hz < (c + 1) * 1000000
  {
    if hz / 1000000 == 0 then 1 else hz / 1000000
  }

  function Started(hz: u32): Source {
    Source(0, 0, CyclesPerUs(hz))
  }

  /** A read while the register shows `now`: the 32-bit difference is added to the 64-bit sum. */
  function AfterRead(s: Source, now: u32): Source {
    s.(last := now, accumulated := Wrap64(s.accumulated + Wrap32(now - s.last)))
  }

  function Shown(s: Source): u64 {
    if s.cyclesPerUs == 0 then 0 else s.accumulated / s.cyclesPerUs
  }

  /** Reads that lie `gaps[i]` true cycles apart. */
  function Run(s: Source, gaps: seq<nat>): Source
    decreases |gaps|
  {
    if gaps == [] then s else AfterRead(Run(s, Prefix(gaps)), Wrap32(Run(s, Prefix(gaps)).last + Last(gaps)))
  }

  function Prefix(gaps: seq<nat>): (r: seq<nat>)
    requires gaps != []
    ensures |r| == |gaps| - 1
  {
    gaps[..|gaps| - 1]
  }

  function Last(gaps: seq<nat>): nat
    requires gaps != []
  {
    gaps[|gaps| - 1]
  }

  /** True cycles since the start. */
  function Total(gaps: seq<nat>): nat
    decreases |gaps|
  {
    if gaps == [] then 0 else Total(Prefix(gaps)) + Last(gaps)
  }

  /** Counter periods that went by unseen between two reads. */
  function Missed(gaps: seq<nat>): nat
    decreases |gaps|
  {
    if gaps == [] then 0 else Missed(Prefix(gaps)) + Last(gaps) / TWO32
  }

  // ---------- what the sum is ----------

  /** A fresh source shows zero. The register value a source remembers is the true one: the low 32 bits of the cycles
      that have passed. */
  lemma {:induction false} RegisterRemembered(hz: u32, gaps: seq<nat>)
    ensures Started(hz).last == 0 && Shown(Started(hz)) == 0
    ensures Run(Started(hz), gaps).last == Total(gaps) % 0x1_0000_0000
    decreases |gaps|
  {
    if gaps != [] {
      RegisterRemembered(hz, Prefix(gaps));
      SumCongruent(Total(Prefix(gaps)) % TWO32, Total(Prefix(gaps)), Last(gaps));
    }
  }

  lemma GapSeen(last: u32, gap: nat)
    ensures Wrap32(Wrap32(last + gap) - last) == gap % TWO32 == gap - TWO32 * (gap / TWO32)
  {}

  lemma SumModulo(a: int, b: int)
    ensures (a + b % TWO32) % TWO32 == (a + b) % TWO32
  {}

  lemma Wrap64Modulo(a: nat)
    ensures Wrap64(a) % TWO32 == a % TWO32
  {}

  lemma SumCongruent(a: int, b: int, c: int)
    requires a % TWO32 == b % TWO32
    ensures (a + c) % TWO32 == (b + c) % TWO32
  {}

  /** Whatever the gaps, the sum is right modulo 2^32, even once the 64-bit sum itself wraps. */
  lemma {:induction false} CongruentCycles(hz: u32, gaps: seq<nat>)
    ensures Run(Started(hz), gaps).accumulated % TWO32 == Total(gaps) % TWO32
    decreases |gaps|
  {
    hide Wrap32, Wrap64;
    if gaps != [] {
      var before, gap := Run(Started(hz), Prefix(gaps)), Last(gaps);
      CongruentCycles(hz, Prefix(gaps));
      GapSeen(before.last, gap);
      Wrap64Modulo(before.accumulated + gap % TWO32);
      SumModulo(before.accumulated, gap);
      SumCongruent(before.accumulated, Total(Prefix(gaps)), gap);
    }
  }

  lemma {:induction false} MissedBound(gaps: seq<nat>)
    ensures TWO32 * Missed(gaps) <= Total(gaps)
    decreases |gaps|
  {
    if gaps != [] {
      MissedBound(Prefix(gaps));
    }
  }

  /** Exactly the unseen periods are lost. */
  lemma {:induction false} CyclesAccounted(hz: u32, gaps: seq<nat>)
    requires Total(gaps) < TWO64
    ensures Run(Started(hz), gaps).accumulated == Total(gaps) - TWO32 * Missed(gaps)
    decreases |gaps|
  {
    hide Wrap32, Wrap64;
    if gaps != [] {
      var before := Run(Started(hz), Prefix(gaps));
      CyclesAccounted(hz, Prefix(gaps));
      MissedBound(gaps);
      GapSeen(before.last, Last(gaps));
      SmallWrap(before.accumulated + Last(gaps) % TWO32);
    }
  }

  predicate ShortGaps(gaps: seq<nat>) {
    forall i :: 0 <= i < |gaps| ==> gaps[i] < TWO32
  }

  lemma {:induction false} MissedNothing(gaps: seq<nat>)
    ensures Missed(gaps) == 0 <==> ShortGaps(gaps)
    decreases |gaps|
  {
    if gaps != [] {
      MissedNothing(Prefix(gaps));
      assert ShortGaps(gaps) <==> ShortGaps(Prefix(gaps)) && Last(gaps) < TWO32 by {
        assert forall i :: 0 <= i < |gaps| - 1 ==> gaps[i] == Prefix(gaps)[i];
      }
    }
  }

  /** The 64-bit count is the true one exactly when no two reads are a full counter period apart. */
  lemma ExactCycles(hz: u32, gaps: seq<nat>)
    requires Total(gaps) < TWO64
    ensures Run(Started(hz), gaps).accumulated == Total(gaps) <==> ShortGaps(gaps)
  {
    CyclesAccounted(hz, gaps);
    MissedNothing(gaps);
  }

  // ---------- readings ----------

  lemma {:induction false} RateKept(s: Source, gaps: seq<nat>)
    ensures Run(s, gaps).cyclesPerUs == s.cyclesPerUs
    decreases |gaps|
  {
    hide Wrap32, Wrap64;
    if gaps != [] {
      RateKept(s, Prefix(gaps));
    }
  }

  lemma DivMonotone(a: nat, b: nat, c: nat)
    requires a <= b && c >= 1
    ensures a / c <= b / c
  {
    if a / c > b / c {
      MulMonotone(c, b / c + 1, a / c);
      assert false;
    }
  }

  lemma MulMonotone(c: nat, x: nat, y: nat)
    requires x <= y
    ensures c * x <= c * y
  {}

  /** Time never runs backwards, rollovers seen or not. */
  lemma TimeMonotone(hz: u32, gaps: seq<nat>, gap: nat)
    requires Total(gaps) + gap < TWO64
    ensures Shown(Run(Started(hz), gaps)) <= Shown(Run(Started(hz), gaps + [gap]))
  {
    hide Wrap32, Wrap64, CyclesPerUs, Run;
    assert Prefix(gaps + [gap]) == gaps && Last(gaps + [gap]) == gap;
    RateKept(Started(hz), gaps);
    RateKept(Started(hz), gaps + [gap]);
    CyclesAccounted(hz, gaps);
    CyclesAccounted(hz, gaps + [gap]);
    DivMonotone(Run(Started(hz), gaps).accumulated, Run(Started(hz), gaps + [gap]).accumulated, CyclesPerUs(hz));
  }

  /** With reads less than a period apart the reading is the true number of whole microseconds. */
  lemma TimeExact(hz: u32, gaps: seq<nat>)
    requires Total(gaps) < TWO64 && ShortGaps(gaps)
    ensures Shown(Run(Started(hz), gaps)) == Total(gaps) / CyclesPerUs(hz)
  {
    hide Run, CyclesPerUs;
    ExactCycles(hz, gaps);
    RateKept(Started(hz), gaps);
  }

  /** The reading in elapsed time: at `hz` cycles a second, Total(gaps) cycles last Total(gaps) * 1000000 / hz
      microseconds. The reading is never behind that; it is the whole number of them at a whole number of megahertz. */
  lemma ReadingInSeconds(hz: u32, gaps: seq<nat>)
    requires Total(gaps) < TWO64 && ShortGaps(gaps) && hz >= 1000000
    ensures var us := Shown(Run(Started(hz), gaps));
            Total(gaps) * 1000000 < (us + 1) * hz && (hz % 1000000 == 0 ==> us * hz <= Total(gaps) * 1000000)
  {
    hide Run, CyclesPerUs, Total, Shown;
    TimeExact(hz, gaps);
    var cycles, c := Total(gaps), CyclesPerUs(hz);
    QuotientBetween(cycles, c);
    Scaled(cycles, (cycles / c + 1) * c - 1, 1000000);
    Scaled(c * 1000000, hz, cycles / c + 1);
    Reassociate(cycles / c + 1, c, 1000000);
    if hz % 1000000 == 0 {
      WholeQuotient(hz, c);
      Scaled((cycles / c) * c, cycles, 1000000);
      Reassociate(cycles / c, c, 1000000);
    }
  }

  /** k seconds at a whole number of megahertz read 1000000 * k microseconds. */
  lemma SecondsExact(hz: u32, gaps: seq<nat>, k: nat)
    requires hz >= 1000000 && hz % 1000000 == 0
    requires Total(gaps) == hz * k < TWO64 && ShortGaps(gaps)
    ensures Shown(Run(Started(hz), gaps)) == 1000000 * k
  {
    hide Run, CyclesPerUs, Total, Shown;
    TimeExact(hz, gaps);
    var c := CyclesPerUs(hz);
    WholeQuotient(hz, c);
    Reassociate(k, c, 1000000);
    ExactQuotient(hz * k, 1000000 * k, c);
  }

  /** At any other clock above 1 MHz the reading runs ahead: `hz` times the rounded-down rate are, at `hz` cycles a
      second, exactly rate * 1000000 microseconds, and read as more. */
  lemma FractionalClockRunsFast(hz: u32, gaps: seq<nat>, rate: nat)
    requires hz > 1000000 && hz % 1000000 != 0 && rate * 1000000 < hz < (rate + 1) * 1000000
    requires Total(gaps) == rate * hz < TWO64 && ShortGaps(gaps)
    ensures Shown(Run(Started(hz), gaps)) == hz > rate * 1000000
  {
    hide Run, CyclesPerUs, Total, Shown;
    TimeExact(hz, gaps);
    assert rate == CyclesPerUs(hz);
    ExactQuotient(rate * hz, hz, rate);
  }

  lemma QuotientBetween(a: nat, c: nat)
    requires c >= 1
    ensures (a / c) * c <= a < (a / c + 1) * c
  {}

  lemma Scaled(a: nat, b: nat, c: nat)
    requires a <= b
    ensures a * c <= b * c
  {}

  lemma Reassociate(x: nat, y: nat, z: nat)
    ensures (x * y) * z == (y * z) * x
  {}

  lemma WholeQuotient(hz: nat, c: nat)
    requires hz % 1000000 == 0 && c * 1000000 <= hz < (c + 1) * 1000000
    ensures hz == c * 1000000
  {}

  lemma ExactQuotient(a: nat, q: nat, c: nat)
    requires c >= 1 && a == q * c
    ensures a / c == q
  {
    QuotientBetween(a, c);
    if a / c < q {
      Scaled(a / c + 1, q, c);
      assert false;
    } else if a / c > q {
      Scaled(q + 1, a / c, c);
      OneMore(q, c);
      assert false;
    }
  }

  lemma OneMore(q: nat, c: nat)
    requires c >= 1
    ensures (q + 1) * c > q * c
  {}

  lemma ReadAtStart(rate: u32)
    ensures AfterRead(Source(0, 0, rate), 0) == Source(0, 0, rate) && Shown(Source(0, 0, rate)) == 0
  {}

  // ---------- the driver ----------

  /** The cycle-counter register of the debug unit; it advances by itself. */
  class CycleCounter {
    var value: u32

    constructor (start: u32)
      ensures value == start
    {
      value := start;
    }
  }

  class Driver {
    const register: CycleCounter
    const systemCoreClock: u32
    var lastCyccnt: u32
    var accumulatedCycles: u64
    var cyclesPerUs: u32
    var freqHz: u32
    var initialized: bool

    ghost function View(): Source
      reads this
    {
      Source(lastCyccnt, accumulatedCycles, cyclesPerUs)
    }

    constructor (r: CycleCounter, nominalHz: u32, coreClock: u32)
      ensures register == r && systemCoreClock == coreClock && freqHz == nominalHz && !initialized
      ensures View() == Source(0, 0, nominalHz / 1000000)
    {
      register, systemCoreClock := r, coreClock;
      lastCyccnt, accumulatedCycles := 0, 0;
      cyclesPerUs, freqHz := nominalHz / 1000000, nominalHz;
      initialized := false;
    }

    /** The rate the driver starts with: from the core clock when known, otherwise what it has. */
    ghost function Rate(): u32
      reads this
    {
      if systemCoreClock > 0 then CyclesPerUs(systemCoreClock)
      else if cyclesPerUs == 0 then 1
      else cyclesPerUs
    }

    method Init()
      modifies this, register
      ensures initialized && register.value == 0
      ensures View() == Source(0, 0, old(Rate()))
      ensures freqHz == if systemCoreClock > 0 then systemCoreClock else old(freqHz)
    {
      register.value := 0;
      if systemCoreClock > 0 {
        freqHz := systemCoreClock;
        cyclesPerUs := systemCoreClock / 1000000;
      }
      lastCyccnt := register.value;
      accumulatedCycles := 0;
      if cyclesPerUs == 0 {
        cyclesPerUs := 1;
      }
      initialized := true;
    }

    /** The critical section of a read. */
    method Accumulate()
      modifies this
      ensures View() == AfterRead(old(View()), register.value) && initialized == old(initialized)
    {
      var now := register.value;
      var delta := Wrap32(now - lastCyccnt);
      accumulatedCycles := Wrap64(accumulatedCycles + delta);
      lastCyccnt := now;
    }

    /** The first read starts the counter. */
    method GetTimeUs() returns (us: u64)
      modifies this, register
      ensures initialized && us == Shown(View())
      ensures old(initialized) ==>
                register.value == old(register.value) && View() == AfterRead(old(View()), register.value)
      ensures !old(initialized) ==>
                register.value == 0 && us == 0 && View() == Source(0, 0, old(Rate()))
    {
      hide AfterRead, CyclesPerUs;
      ReadAtStart(Rate());
      if !initialized {
        Init();
      }
      Accumulate();
      if cyclesPerUs == 0 {
        return 0;
      }
      us := accumulatedCycles / cyclesPerUs;
    }
  }

  /** A driver read after every gap: each reading is the true time, as long as no gap reaches a full period. */
  method Sample(hz: u32, gaps: seq<nat>) returns (readings: seq<u64>)
    ensures |readings| == |gaps|
    ensures forall i :: 0 <= i < |gaps| ==> readings[i] == Shown(Run(Started(hz), gaps[..i + 1]))
    ensures Total(gaps) < TWO64 && ShortGaps(gaps)
        ==> forall i :: 0 <= i < |gaps| ==> readings[i] == Total(gaps[..i + 1]) / CyclesPerUs(hz)
  {
    hide Wrap32, Wrap64;
    var register := new CycleCounter(0);
    var driver := new Driver(register, hz, hz);
    driver.Init();
    readings := [];
    assert gaps[..0] == [];
    for i := 0 to |gaps|
      invariant driver.register == register && driver.initialized && fresh(driver) && fresh(register)
      invariant driver.View() == Run(Started(hz), gaps[..i]) && register.value == driver.lastCyccnt
      invariant |readings| == i
      invariant forall k :: 0 <= k < i ==> readings[k] == Shown(Run(Started(hz), gaps[..k + 1]))
    {
      register.value := Wrap32(register.value + gaps[i]);
      var us := driver.GetTimeUs();
      assert Prefix(gaps[..i + 1]) == gaps[..i] && Last(gaps[..i + 1]) == gaps[i];
      readings := readings + [us];
    }
    if Total(gaps) < TWO64 && ShortGaps(gaps) {
      forall i | 0 <= i < |gaps|
        ensures readings[i] == Total(gaps[..i + 1]) / CyclesPerUs(hz)
      {
        PrefixTotal(gaps, i + 1);
        TimeExact(hz, gaps[..i + 1]);
      }
    }
  }

  lemma {:induction false} PrefixTotal(gaps: seq<nat>, n: nat)
    requires n <= |gaps|
    ensures Total(gaps[..n]) <= Total(gaps)
    decreases |gaps|
  {
    if n < |gaps| {
      PrefixTotal(Prefix(gaps), n);
      assert Prefix(gaps)[..n] == gaps[..n];
    } else {
      assert gaps[..n] == gaps;
    }
  }
}
