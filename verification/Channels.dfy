/** Telemetry channels: settings, the samples they produce, and the bytes those take in a frame. */
module Channels {
  import opened Bytes

  // ---------- a channel as a value ----------

  /** The channel classes: a counter, a temperature reading, and a stress pattern of `width` words per sample. */
  datatype Kind = Counter | Temperature | Stress(width: nat)

  datatype Channel = Channel(kind: Kind, tag: u32, rate: u16, batch: u16, counter: u32, enabled: bool)

  const MAX_BATCH := 100

  /** A new rate puts counter and temperature back to one sample per packet. */
  function WithRate(c: Channel, rate: u16): Channel {
    if rate == 0 then c
    else if c.kind.Stress? then c.(rate := rate)
    else c.(rate := rate, batch := 1)
  }

  function WithBatch(c: Channel, batch: u16): Channel {
    if c.kind.Stress? then (if batch > 0 then c.(batch := batch) else c)
    else c.(batch := if 0 < batch <= MAX_BATCH then batch else 1)
  }

  function BytesPerSample(k: Kind): nat {
    match k
    case Counter => 4
    case Temperature => 4
    case Stress(width) => 2 * width
  }

  // ---------- sample bytes ----------

  function CounterBytes(start: u32, n: nat): (s: seq<byte>)
    ensures |s| == 4 * n
  {
    if n == 0 then [] else CounterBytes(start, n - 1) + Le32(Wrap32(start + (n - 1)))
  }

  /** The sensor's reading, or -999 as a 32-bit word when it cannot be read. */
  datatype Sensor = Reading(celsius: u32) | Unreadable

  function SensorWord(s: Sensor): u32 {
    match s
    case Reading(celsius) => celsius
    case Unreadable => TWO32 - 999
  }

  function TemperatureBytes(word: u32, n: nat): (s: seq<byte>)
    ensures |s| == 4 * n
  {
    if n == 0 then [] else TemperatureBytes(word, n - 1) + Le32(word)
  }

  function StressWord(counter: int, ch: nat): u16 {
    Wrap16(counter + ch * 100)
  }

  function StressSample(counter: int, width: nat): (s: seq<byte>)
    ensures |s| == 2 * width
  {
    if width == 0 then [] else StressSample(counter, width - 1) + Le16(StressWord(counter, width - 1))
  }

  /** The counter of the stress pattern goes up before each sample. */
  function StressBytes(counter: int, width: nat, n: nat): (s: seq<byte>)
    ensures |s| == n * (2 * width)
    decreases n
  {
    if n == 0 then [] else StressBytes(counter, width, n - 1) + StressSample(Wrap16(counter + n), width)
  }

  function Produced(c: Channel, sensor: Sensor, n: nat): (s: seq<byte>)
    ensures |s| == n * BytesPerSample(c.kind)
  {
    match c.kind
    case Counter => CounterBytes(c.counter, n)
    case Temperature => TemperatureBytes(SensorWord(sensor), n)
    case Stress(width) => StressBytes(c.counter, width, n)
  }

  function AfterProduce(c: Channel, n: nat): Channel {
    match c.kind
    case Counter => c.(counter := Wrap32(c.counter + n))
    case Temperature => c
    case Stress(_) => if n == 0 then c else c.(counter := Wrap16(c.counter + n))
  }

  // ---------- no gap and no repeat ----------

  /** n consecutive counter values, modulo 2^32. */
  function Consecutive(start: u32, n: nat): (s: seq<u32>)
    ensures |s| == n
  {
    seq<u32>(n, i => Wrap32(start + i))
  }

  lemma ConsecutiveJoins(start: u32, m: nat, n: nat)
    ensures Consecutive(start, m) + Consecutive(Wrap32(start + m), n) == Consecutive(start, m + n)
  {
    var both := Consecutive(start, m) + Consecutive(Wrap32(start + m), n);
    forall i | m <= i < m + n
      ensures both[i] == Wrap32(start + i)
    {
      WrapAdds(start + m, i - m);
    }
  }

  /** The 32-bit words in a run of sample bytes, as a receiver reads them. */
  function Words(s: seq<byte>): seq<u32>
    decreases |s|
  {
    if |s| < 4 then [] else Words(s[..|s| - 4]) + [FromLe32(s[|s| - 4..])]
  }

  lemma {:induction false} CounterWords(start: u32, n: nat)
    ensures Words(CounterBytes(start, n)) == Consecutive(start, n)
  {
    hide Le32, FromLe32, Wrap32;
    if n > 0 {
      var s := CounterBytes(start, n);
      CounterWords(start, n - 1);
      Le32RoundTrip(Wrap32(start + (n - 1)));
      assert s[..|s| - 4] == CounterBytes(start, n - 1) && s[|s| - 4..] == Le32(Wrap32(start + (n - 1)));
    }
  }

  // ---------- the objects ----------

  class TelemetryChannel {
    const kind: Kind
    const tag: u32
    var rate: u16
    var batch: u16
    var counter: u32
    var enabled: bool

    ghost function View(): Channel
      reads this
    {
      Channel(kind, tag, rate, batch, counter, enabled)
    }

    constructor (k: Kind, t: u32, sampleRateHz: u16, batchCount: u16)
      ensures View() == Channel(k, t, sampleRateHz, batchCount, 0, false)
    {
      kind, tag, rate, batch, counter, enabled := k, t, sampleRateHz, batchCount, 0, false;
    }

    method SetSampleRateHz(r: u16)
      modifies this
      ensures View() == WithRate(old(View()), r)
    {
      if r > 0 {
        rate := r;
        if !kind.Stress? {
          batch := 1;
        }
      }
    }

    method SetBatchCount(b: u16)
      modifies this
      ensures View() == WithBatch(old(View()), b)
    {
      if kind.Stress? {
        if b > 0 {
          batch := b;
        }
      } else {
        batch := if 0 < b <= MAX_BATCH then b else 1;
      }
    }

    method SetEnabled(on: bool)
      modifies this
      ensures View() == old(View()).(enabled := on)
    {
      enabled := on;
    }

    /** Fill the buffer from position `at` with at most maxSamples samples. */
    method ProduceSamples(buffer: array<byte>, at: nat, maxSamples: nat, sensor: Sensor) returns (n: nat)
      requires at + maxSamples * BytesPerSample(kind) <= buffer.Length
      modifies this, buffer
      ensures n == maxSamples && View() == AfterProduce(old(View()), n)
      ensures buffer[..] == Overwrite(old(buffer[..]), at, Produced(old(View()), sensor, n))
    {
      hide CounterBytes, TemperatureBytes, StressBytes, Overwrite, SensorWord;
      n := maxSamples;
      match kind {
        case Counter => CountInto(buffer, at, n);
        case Temperature => RepeatInto(buffer, at, n, SensorWord(sensor));
        case Stress(width) => StressInto(buffer, at, n, width);
      }
    }

    method CountInto(buffer: array<byte>, at: nat, n: nat)
      requires at + 4 * n <= buffer.Length && kind.Counter?
      modifies this`counter, buffer
      ensures counter == Wrap32(old(counter) + n)
      ensures buffer[..] == Overwrite(old(buffer[..]), at, CounterBytes(old(counter), n))
    {
      hide Wrap32, Overwrite, CounterBytes, Le32;
      ghost var before, start := buffer[..], counter;
      CounterBytesNext(start, 0);
      StartsUnwritten(before, at);
      WrapAdds(start, 0);
      WrapIdentity(start);
      for i := 0 to n
        invariant counter == Wrap32(start + i)
        invariant buffer[..] == Overwrite(before, at, CounterBytes(start, i))
      {
        Memcpy(buffer, at + 4 * i, Le32(counter));
        OverwriteNext(before, at, CounterBytes(start, i), Le32(counter));
        CounterBytesNext(start, i);
        counter := Wrap32(counter + 1);
        WrapAdds(start + i, 1);
      }
    }

    method RepeatInto(buffer: array<byte>, at: nat, n: nat, word: u32)
      requires at + 4 * n <= buffer.Length
      modifies buffer
      ensures buffer[..] == Overwrite(old(buffer[..]), at, TemperatureBytes(word, n))
    {
      hide Overwrite, Le32;
      ghost var before := buffer[..];
      StartsUnwritten(before, at);
      for i := 0 to n
        invariant buffer[..] == Overwrite(before, at, TemperatureBytes(word, i))
      {
        Memcpy(buffer, at + 4 * i, Le32(word));
        OverwriteNext(before, at, TemperatureBytes(word, i), Le32(word));
      }
    }

    method StressInto(buffer: array<byte>, at: nat, n: nat, width: nat)
      requires at + n * (2 * width) <= buffer.Length && kind.Stress?
      modifies this`counter, buffer
      ensures counter == if n == 0 then old(counter) else Wrap16(old(counter) + n)
      ensures buffer[..] == Overwrite(old(buffer[..]), at, StressBytes(old(counter), width, n))
    {
      hide Overwrite, StressBytes, StressSample, Wrap16;
      ghost var before, start := buffer[..], counter;
      StartsUnwritten(before, at);
      StressBytesNext(start, width, 0);
      for s := 0 to n
        invariant Wrap16(counter + 1) == Wrap16(start + (s + 1))
        invariant counter == if s == 0 then start else Wrap16(start + s)
        invariant buffer[..] == Overwrite(before, at, StressBytes(start, width, s))
      {
        counter := Wrap16(counter + 1);
        Wrap16Adds(start + (s + 1), 1);
        RowFits(s, n, width);
        RowInto(buffer, at + s * (2 * width), width, counter);
        RowJoins(before, at, start, width, s);
      }
    }
  }

  lemma Wrap16Adds(x: int, y: int)
    ensures Wrap16(Wrap16(x) + y) == Wrap16(x + y)
  {}

  lemma RowJoins(before: seq<byte>, at: nat, start: int, width: nat, s: nat)
    requires at + s * (2 * width) + 2 * width <= |before|
    ensures Overwrite(Overwrite(before, at, StressBytes(start, width, s)), at + s * (2 * width),
                      StressSample(Wrap16(start + (s + 1)), width))
         == Overwrite(before, at, StressBytes(start, width, s + 1))
  {
    hide Overwrite, StressSample, StressBytes;
    StressBytesNext(start, width, s);
    OverwriteNext(before, at, StressBytes(start, width, s), StressSample(Wrap16(start + (s + 1)), width));
  }

  /** One stress sample: word ch is the counter plus 100 * ch. */
  method RowInto(buffer: array<byte>, at: nat, width: nat, counter: nat)
    requires at + 2 * width <= buffer.Length
    modifies buffer
    ensures buffer[..] == Overwrite(old(buffer[..]), at, StressSample(counter, width))
  {
    hide Overwrite, Le16, StressWord;
    ghost var before := buffer[..];
    StartsUnwritten(before, at);
    for ch := 0 to width
      invariant buffer[..] == Overwrite(before, at, StressSample(counter, ch))
    {
      Memcpy(buffer, at + 2 * ch, Le16(StressWord(counter, ch)));
      OverwriteNext(before, at, StressSample(counter, ch), Le16(StressWord(counter, ch)));
    }
  }

  lemma RowFits(s: nat, n: nat, width: nat)
    requires s < n
    ensures s * (2 * width) + 2 * width <= n * (2 * width)
  {
    assert (s + 1) * (2 * width) <= n * (2 * width);
  }

  lemma StressBytesNext(counter: int, width: nat, i: nat)
    ensures StressBytes(counter, width, 0) == []
    ensures StressBytes(counter, width, i + 1)
         == StressBytes(counter, width, i) + StressSample(Wrap16(counter + (i + 1)), width)
  {}

  lemma CounterBytesNext(start: u32, i: nat)
    ensures CounterBytes(start, 0) == []
    ensures CounterBytes(start, i + 1) == CounterBytes(start, i) + Le32(Wrap32(start + i))
  {}

  lemma StartsUnwritten(before: seq<byte>, at: nat)
    requires at <= |before|
    ensures Overwrite(before, at, []) == before
  {}
}
