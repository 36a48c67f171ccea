/** Machine integers, buffers, and the little-endian layouts of the packed structures. */
module Bytes {
  type byte = bv8
  type u8 = x: int | 0 <= x < 0x100
  type u16 = x: int | 0 <= x < 0x1_0000
  type u32 = x: int | 0 <= x < 0x1_0000_0000
  type u64 = x: int | 0 <= x < 0x1_0000_0000_0000_0000

  const TWO32 := 0x1_0000_0000
  const TWO63 := 0x8000_0000_0000_0000
  const TWO64 := 0x1_0000_0000_0000_0000

  function Wrap16(x: int): u16 { x % 0x1_0000 }
  function Wrap32(x: int): u32 { x % TWO32 }
  function Wrap64(x: int): u64 { x % TWO64 }

  lemma WrapAdds(x: int, y: int)
    ensures Wrap32(Wrap32(x) + y) == Wrap32(x + y)
  {}

  lemma WrapIdentity(x: u32)
    ensures Wrap32(x) == x
  {}

  lemma SmallWrap(x: nat)
    requires x < TWO64
    ensures Wrap64(x) == x
  {}

  function Fill(b: byte, n: nat): (s: seq<byte>)
    ensures |s| == n && forall i :: 0 <= i < n ==> s[i] == b
  {
    seq(n, _ => b)
  }

  /** The buffer after memcpy(&buffer[offset], data, |data|). */
  function Overwrite(buffer: seq<byte>, offset: nat, data: seq<byte>): (r: seq<byte>)
    requires offset + |data| <= |buffer|
    ensures |r| == |buffer|
  {
    buffer[..offset] + data + buffer[offset + |data|..]
  }

  method Memcpy(dest: array<byte>, at: nat, data: seq<byte>)
    requires at + |data| <= dest.Length
    modifies dest
    ensures dest[..] == Overwrite(old(dest[..]), at, data)
  {
    forall k | at <= k < at + |data| {
      dest[k] := data[k - at];
    }
  }

  lemma OverwriteNext(buffer: seq<byte>, offset: nat, a: seq<byte>, b: seq<byte>)
    requires offset + |a| + |b| <= |buffer|
    ensures Overwrite(Overwrite(buffer, offset, a), offset + |a|, b) == Overwrite(buffer, offset, a + b)
  {}

  lemma FillNext(b: byte, m: nat, n: nat)
    ensures Fill(b, m) + Fill(b, n) == Fill(b, m + n)
  {}

  /** Pieces put together. */
  function Flatten(parts: seq<seq<byte>>): seq<byte>
    decreases |parts|
  {
    if parts == [] then [] else parts[0] + Flatten(parts[1..])
  }

  lemma {:induction false} FlattenConcat(a: seq<seq<byte>>, b: seq<seq<byte>>)
    ensures Flatten(a + b) == Flatten(a) + Flatten(b)
    decreases |a|
  {
    if a == [] {
      assert a + b == b;
    } else {
      assert (a + b)[1..] == a[1..] + b;
      FlattenConcat(a[1..], b);
    }
  }

  /** The buffers agree everywhere except possibly at positions k to k+width-1. */
  ghost predicate DifferOnlyWithin(a: seq<byte>, b: seq<byte>, k: nat, width: nat) {
    && |a| == |b|
    && forall i :: 0 <= i < |a| && a[i] != b[i] ==> k <= i < k + width
  }

  // ---------- little-endian fields ----------

  function ByteOf(x: u8): byte { x as bv8 }
  function ValueOf(b: byte): u8 { b as int }

  lemma ByteCast(x: int)
    requires 0 <= x < 256
    ensures (x as bv8) as int == x
  {
    if x < 32 {
      assert (x as bv8) as int == x;
    } else if x < 64 {
      assert (x as bv8) as int == x;
    } else if x < 96 {
      assert (x as bv8) as int == x;
    } else if x < 128 {
      assert (x as bv8) as int == x;
    } else if x < 160 {
      assert (x as bv8) as int == x;
    } else if x < 192 {
      assert (x as bv8) as int == x;
    } else if x < 224 {
      assert (x as bv8) as int == x;
    } else {
      assert (x as bv8) as int == x;
    }
  }

  lemma ByteRoundTrip(x: u8)
    ensures ValueOf(ByteOf(x)) == x
  {
    ByteCast(x);
  }

  function Le16(x: u16): (s: seq<byte>)
    ensures |s| == 2
  {
    [ByteOf(x % 256), ByteOf(x / 256)]
  }

  function FromLe16(s: seq<byte>): u16
    requires |s| == 2
  {
    ValueOf(s[0]) + 256 * ValueOf(s[1])
  }

  function Le32(x: u32): (s: seq<byte>)
    ensures |s| == 4
  {
    Le16(x % 0x1_0000) + Le16(x / 0x1_0000)
  }

  function FromLe32(s: seq<byte>): u32
    requires |s| == 4
  {
    FromLe16(s[..2]) + 0x1_0000 * FromLe16(s[2..])
  }

  lemma Le16RoundTrip(x: u16)
    ensures FromLe16(Le16(x)) == x
  {
    ByteRoundTrip(x % 256);
    ByteRoundTrip(x / 256);
    hide ByteOf, ValueOf;
  }

  lemma Le32RoundTrip(x: u32)
    ensures FromLe32(Le32(x)) == x
  {
    Le16RoundTrip(x % 0x1_0000);
    Le16RoundTrip(x / 0x1_0000);
    hide Le16, FromLe16;
    assert Le32(x)[..2] == Le16(x % 0x1_0000) && Le32(x)[2..] == Le16(x / 0x1_0000);
  }

  function Le64(x: u64): (s: seq<byte>)
    ensures |s| == 8
  {
    Le32(x % TWO32) + Le32(x / TWO32)
  }

  function FromLe64(s: seq<byte>): u64
    requires |s| == 8
  {
    FromLe32(s[..4]) + TWO32 * FromLe32(s[4..])
  }

  lemma Le64RoundTrip(x: u64)
    ensures FromLe64(Le64(x)) == x
  {
    hide Le32, FromLe32;
    Le32RoundTrip(x % TWO32);
    Le32RoundTrip(x / TWO32);
    assert Le64(x)[..4] == Le32(x % TWO32) && Le64(x)[4..] == Le32(x / TWO32);
  }

  // ---------- checksum words, kept as bit-vectors ----------

  function LeWord(w: bv32): (s: seq<byte>)
    ensures |s| == 4
  {
    [(w & 0xFF) as bv8, ((w >> 8) & 0xFF) as bv8, ((w >> 16) & 0xFF) as bv8, (w >> 24) as bv8]
  }

  function FromLeWord(s: seq<byte>): bv32
    requires |s| == 4
  {
    (s[0] as bv32) | ((s[1] as bv32) << 8) | ((s[2] as bv32) << 16) | ((s[3] as bv32) << 24)
  }

  lemma LeWordRoundTrip(w: bv32)
    ensures FromLeWord(LeWord(w)) == w
  {}

  // ---------- numbers where they lie ----------

  /** The number in the two bytes at position k, low byte first. */
  function At16(s: seq<byte>, k: nat): u16
    requires k + 2 <= |s|
  {
    s[k] as int + 256 * s[k + 1] as int
  }

  /** The number in the four bytes at position k, low byte first. */
  function At32(s: seq<byte>, k: nat): u32
    requires k + 4 <= |s|
  {
    s[k] as int + 256 * s[k + 1] as int + 65536 * s[k + 2] as int + 16777216 * s[k + 3] as int
  }

  lemma NumbersRead(s: seq<byte>, k: nat)
    ensures k + 2 <= |s| ==> FromLe16(s[k..k + 2]) == At16(s, k)
    ensures k + 4 <= |s| ==> FromLe32(s[k..k + 4]) == At32(s, k)
  {
    if k + 4 <= |s| {
      WordRead(s[k..k + 4]);
    }
  }

  lemma WordRead(w: seq<byte>)
    requires |w| == 4
    ensures FromLe32(w) == At32(w, 0)
  {
    assert FromLe16(w[..2]) == At16(w, 0);
    assert w[2..][0] == w[2] && w[2..][1] == w[3];
    assert FromLe16(w[2..]) == At16(w, 2);
  }

  lemma SliceOfSlice(s: seq<byte>, lo: nat, hi: nat, a: nat, b: nat)
    requires lo <= hi <= |s| && a <= b <= hi - lo
    ensures s[lo..hi][a..b] == s[lo + a..lo + b]
  {
    var part := s[lo..hi][a..b];
    forall i | 0 <= i < |part|
      ensures part[i] == s[lo + a + i]
    {
      assert part[i] == s[lo..hi][a + i];
    }
  }
}
