/** CRC-16-CCITT with polynomial 0x1021, most significant bit first: the nested loops the firmware
    and the host script share, the division they compute, and the two-byte bursts it detects. */
module Crc16 {
  import opened Bytes

  const SEED: bv16 := 0xFFFF
  const POLYNOMIAL: bv16 := 0x1021

  function Xor(a: bv16, b: bv16): bv16 { a ^ b }
  predicate Top(c: bv16) { c & 0x8000 != 0 }
  function Double(c: bv16): bv16 { c << 1 }
  function Lift(b: byte): bv16 { (b as bv16) << 8 }
  function Low(b: byte): bv16 { b as bv16 }

  // ---------- the definition ----------

  function Bit(c: bv16): bv16 {
    if Top(c) then Xor(Double(c), POLYNOMIAL) else Double(c)
  }

  function Bits(c: bv16, n: nat): bv16
    decreases n
  {
    if n == 0 then c else Bits(Bit(c), n - 1)
  }

  function Feed(c: bv16, b: byte): bv16 {
    Bits(Xor(c, Lift(b)), 8)
  }

  function Fold(c: bv16, s: seq<byte>): bv16 {
    if s == [] then c else Feed(Fold(c, s[..|s| - 1]), s[|s| - 1])
  }

  function Checksum(s: seq<byte>): bv16 {
    Fold(SEED, s)
  }

  // ---------- the loops ----------

  method Ccitt(data: seq<byte>, seed: bv16 := SEED) returns (crc: bv16)
    ensures crc == Fold(seed, data)
  {
    crc := seed;
    for i := 0 to |data|
      invariant crc == Fold(seed, data[..i])
    {
      FoldNext(seed, data, i);
      crc := Xor(crc, Lift(data[i]));
      ghost var start := crc;
      hide Xor, Top, Double, Lift, Fold;
      for b := 0 to 8
        invariant Bits(start, 8) == Bits(crc, 8 - b)
      {
        if Top(crc) {
          crc := Xor(Double(crc), POLYNOMIAL);
        } else {
          crc := Double(crc);
        }
      }
    }
    assert data[..|data|] == data;
  }

  lemma FoldNext(c: bv16, data: seq<byte>, i: nat)
    requires i < |data|
    ensures Fold(c, data[..i + 1]) == Feed(Fold(c, data[..i]), data[i])
  {
    hide Feed;
    assert data[..i + 1][..i] == data[..i];
  }

  // ---------- laws of the division step ----------

  lemma XorAssoc(a: bv16, b: bv16, c: bv16)
    ensures Xor(Xor(a, b), c) == Xor(a, Xor(b, c))
  {}

  lemma XorComm(a: bv16, b: bv16)
    ensures Xor(a, b) == Xor(b, a)
  {}

  lemma XorSelf(a: bv16)
    ensures Xor(a, a) == 0 && Xor(a, 0) == a && Xor(0, a) == a
  {}

  lemma XorCancel(a: bv16, b: bv16, c: bv16)
    requires Xor(a, b) == Xor(a, c)
    ensures b == c
  {}

  lemma XorRotate(a: bv16, b: bv16, c: bv16)
    ensures Xor(Xor(a, b), c) == Xor(Xor(a, c), b)
  {
    XorAssoc(a, b, c);
    XorAssoc(a, c, b);
    XorComm(b, c);
    hide Xor;
  }

  lemma XorCancelCommon(a: bv16, b: bv16, p: bv16)
    ensures Xor(Xor(a, p), Xor(b, p)) == Xor(a, b)
  {
    XorRotate(a, p, Xor(b, p));
    XorAssoc(b, p, p);
    XorSelf(p);
    XorSelf(b);
    XorAssoc(a, Xor(b, p), p);
    hide Xor;
  }

  lemma TopXor(a: bv16, b: bv16)
    ensures Top(Xor(a, b)) == (Top(a) != Top(b))
  {}

  lemma DoubleXor(a: bv16, b: bv16)
    ensures Double(Xor(a, b)) == Xor(Double(a), Double(b))
  {}

  lemma BitLinear(a: bv16, b: bv16)
    ensures Bit(Xor(a, b)) == Xor(Bit(a), Bit(b))
  {
    TopXor(a, b);
    DoubleXor(a, b);
    hide Xor, Top, Double;
    var x, y, p := Double(a), Double(b), POLYNOMIAL;
    if Top(a) && Top(b) {
      XorCancelCommon(x, y, p);
    } else if Top(a) {
      XorRotate(x, y, p);
    } else if Top(b) {
      XorAssoc(x, y, p);
    }
  }

  lemma {:induction false} BitsLinear(a: bv16, b: bv16, n: nat)
    ensures Bits(Xor(a, b), n) == Xor(Bits(a, n), Bits(b, n))
    decreases n
  {
    hide Bit, Xor;
    if n > 0 {
      BitLinear(a, b);
      BitsLinear(Bit(a), Bit(b), n - 1);
    }
  }

  /** The step read backwards. */
  function Unbit(c: bv16): bv16 {
    if c & 1 == 1 then ((c ^ POLYNOMIAL) >> 1) | 0x8000 else c >> 1
  }

  lemma UndoubleTop(c: bv16)
    requires Top(c)
    ensures var x := Xor(Double(c), POLYNOMIAL); x & 1 == 1 && ((x ^ POLYNOMIAL) >> 1) | 0x8000 == c
  {}

  lemma UndoubleClear(c: bv16)
    requires !Top(c)
    ensures Double(c) & 1 != 1 && Double(c) >> 1 == c
  {}

  lemma BitInvertible(c: bv16)
    ensures Unbit(Bit(c)) == c
  {
    if Top(c) { UndoubleTop(c); } else { UndoubleClear(c); }
    hide Top, Double, Xor;
  }

  lemma {:induction false} BitsInjective(a: bv16, b: bv16, n: nat)
    requires Bits(a, n) == Bits(b, n)
    ensures a == b
    decreases n
  {
    BitInvertible(a);
    BitInvertible(b);
    hide Bit, Unbit;
    if n > 0 {
      BitsInjective(Bit(a), Bit(b), n - 1);
    }
  }

  lemma {:induction false} BitsSplit(c: bv16, m: nat, n: nat)
    ensures Bits(c, m + n) == Bits(Bits(c, m), n)
    decreases m
  {
    hide Bit;
    if m > 0 {
      BitsSplit(Bit(c), m - 1, n);
    }
  }

  lemma {:induction false} FoldConcat(c: bv16, a: seq<byte>, b: seq<byte>)
    ensures Fold(c, a + b) == Fold(Fold(c, a), b)
    decreases |b|
  {
    hide Feed;
    if b == [] {
      assert a + b == a;
    } else {
      var init := b[..|b| - 1];
      assert (a + b)[..|a + b| - 1] == a + init;
      FoldConcat(c, a, init);
    }
  }

  // ---------- two-byte bursts ----------

  lemma ClearNibbleShifts(x: bv16)
    requires x & 0xF000 == 0
    ensures Bits(x, 4) == x << 4
  {
    assert Bits(x, 4) == Bits(Bit(x), 3) == Bits(Bit(Bit(x)), 2);
  }

  lemma LowByteShifts(b: byte)
    ensures Bits(Low(b), 8) == Lift(b)
  {
    ClearNibbleShifts(Low(b));
    ClearNibbleShifts(Low(b) << 4);
    BitsSplit(Low(b), 4, 4);
    hide Bits;
  }

  /** Two bytes are absorbed as one 16-bit word. */
  lemma PairFold(c: bv16, p: seq<byte>)
    requires |p| == 2
    ensures Fold(c, p) == Bits(Xor(Xor(c, Lift(p[0])), Low(p[1])), 16)
  {
    hide Xor, Lift, Low, Bit, Bits;
    var x := Xor(c, Lift(p[0]));
    BitsLinear(x, Low(p[1]), 8);
    LowByteShifts(p[1]);
    BitsSplit(Xor(x, Low(p[1])), 8, 8);
    FoldTwo(c, p);
    hide Fold;
  }

  lemma FoldTwo(c: bv16, p: seq<byte>)
    requires |p| == 2
    ensures Fold(c, p) == Feed(Feed(c, p[0]), p[1])
  {
    hide Feed;
    FoldNext(c, p, 0);
    FoldNext(c, p, 1);
    assert p[..2] == p && p[..0] == [];
  }

  lemma PairsDiffer(c: bv16, v: seq<byte>, w: seq<byte>)
    requires |v| == |w| == 2 && Fold(c, v) == Fold(c, w)
    ensures v == w
  {
    hide Xor, Lift, Low, Fold, Bits;
    PairFold(c, v);
    PairFold(c, w);
    BitsInjective(Xor(Xor(c, Lift(v[0])), Low(v[1])), Xor(Xor(c, Lift(w[0])), Low(w[1])), 16);
    XorAssoc(c, Lift(v[0]), Low(v[1]));
    XorAssoc(c, Lift(w[0]), Low(w[1]));
    XorCancel(c, Xor(Lift(v[0]), Low(v[1])), Xor(Lift(w[0]), Low(w[1])));
    PairInjective(v[0], v[1], w[0], w[1]);
  }

  lemma PairInjective(a0: byte, a1: byte, b0: byte, b1: byte)
    requires Xor(Lift(a0), Low(a1)) == Xor(Lift(b0), Low(b1))
    ensures a0 == b0 && a1 == b1
  {}

  lemma FeedInjective(c: bv16, d: bv16, b: byte)
    requires Feed(c, b) == Feed(d, b)
    ensures c == d
  {
    BitsInjective(Xor(c, Lift(b)), Xor(d, Lift(b)), 8);
    XorComm(c, Lift(b));
    XorComm(d, Lift(b));
    XorCancel(Lift(b), c, d);
    hide Xor, Lift, Bits;
  }

  lemma {:induction false} FoldInjective(c: bv16, d: bv16, s: seq<byte>)
    requires Fold(c, s) == Fold(d, s)
    ensures c == d
    decreases |s|
  {
    hide Feed;
    if s != [] {
      var n := |s| - 1;
      FeedInjective(Fold(c, s[..n]), Fold(d, s[..n]), s[n]);
      FoldInjective(c, d, s[..n]);
    }
  }

  lemma SandwichDiffers(c: bv16, pre: seq<byte>, v: seq<byte>, w: seq<byte>, post: seq<byte>)
    requires |v| == |w| <= 2
    requires Fold(c, pre + v + post) == Fold(c, pre + w + post)
    ensures v == w
  {
    hide Fold;
    FoldConcat(c, pre + v, post);
    FoldConcat(c, pre + w, post);
    FoldInjective(Fold(c, pre + v), Fold(c, pre + w), post);
    FoldConcat(c, pre, v);
    FoldConcat(c, pre, w);
    var pad: seq<byte> := seq(2 - |v|, _ => 0);
    FoldConcat(Fold(c, pre), v, pad);
    FoldConcat(Fold(c, pre), w, pad);
    PairsDiffer(Fold(c, pre), v + pad, w + pad);
    assert v == (v + pad)[..|v|] && w == (w + pad)[..|w|];
  }

  /** Any change confined to two consecutive bytes changes the checksum. */
  lemma BurstDetected(a: seq<byte>, b: seq<byte>, k: nat)
    requires DifferOnlyWithin(a, b, k, 2)
    requires Checksum(a) == Checksum(b)
    ensures a == b
  {
    hide Fold;
    if k < |a| {
      var e := if k + 2 <= |a| then k + 2 else |a|;
      assert a[..k] == b[..k] && a[e..] == b[e..];
      assert a == a[..k] + a[k..e] + a[e..];
      assert b == b[..k] + b[k..e] + b[e..];
      SandwichDiffers(SEED, a[..k], a[k..e], b[k..e], a[e..]);
    }
  }

  // ---------- checksum zero ----------

  lemma {:induction false} BitsZero(n: nat)
    ensures Bits(0, n) == 0
    decreases n
  {
    if n > 0 {
      BitsZero(n - 1);
    }
  }

  lemma XorZero(a: bv16, b: bv16)
    ensures Xor(a, b) == 0 <==> a == b
  {
    hide Xor;
    XorSelf(a);
    if Xor(a, b) == 0 {
      XorCancel(a, b, a);
    }
  }

  /** Behind any bytes whatever there is exactly one pair that brings the checksum to zero: the bytes of the checksum so
      far. */
  lemma ZeroPair(front: seq<byte>, pair: seq<byte>)
    requires |pair| == 2
    ensures Checksum(front + pair) == 0 <==> Xor(Lift(pair[0]), Low(pair[1])) == Checksum(front)
  {
    hide Xor, Lift, Low, Bits, Fold;
    var c, word := Checksum(front), Xor(Lift(pair[0]), Low(pair[1]));
    FoldConcat(SEED, front, pair);
    PairFold(c, pair);
    XorAssoc(c, Lift(pair[0]), Low(pair[1]));
    XorZero(c, word);
    BitsZero(16);
    if Bits(Xor(c, word), 16) == 0 {
      BitsInjective(Xor(c, word), 0, 16);
    }
  }

  lemma {:induction false} ZerosKeepZero(n: nat)
    ensures Fold(0, seq(n, _ => 0)) == 0
    decreases n
  {
    hide Bits;
    var zeros: seq<byte> := seq(n, _ => 0);
    if n > 0 {
      assert zeros[..n - 1] == seq(n - 1, _ => 0);
      ZerosKeepZero(n - 1);
      BitsZero(8);
      assert Xor(0, Lift(0)) == 0;
    }
  }

  /** Buffers of every length from two on whose checksum is zero. */
  function Unchecked(zeros: nat): (s: seq<byte>)
    ensures |s| == zeros + 2
  {
    [0xFF, 0xFF] + seq(zeros, _ => 0)
  }

  lemma UncheckedIsZero(zeros: nat)
    ensures Checksum(Unchecked(zeros)) == 0
  {
    hide Fold, Bits;
    var pair: seq<byte> := [0xFF, 0xFF];
    FoldNothing(SEED);
    ZeroPair([], pair);
    assert [] + pair == pair;
    assert Xor(Lift(0xFF), Low(0xFF)) == SEED;
    FoldConcat(SEED, pair, seq(zeros, _ => 0));
    ZerosKeepZero(zeros);
  }

  lemma FoldNothing(c: bv16)
    ensures Fold(c, []) == c
  {}
}
