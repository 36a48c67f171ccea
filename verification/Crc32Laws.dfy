/** What CRC-32 promises about whole buffers: independence of how the buffer was cut up, linearity,
    and detection of any corruption confined to four consecutive bytes. */
module Crc32Laws {
  import opened Bytes
  import opened Gf2
  import opened Crc32

  // ---------- streaming ----------

  lemma {:induction false} FoldConcat(c: bv32, a: seq<byte>, b: seq<byte>)
    ensures Fold(c, a + b) == Fold(Fold(c, a), b)
    decreases |b|
  {
    hide Feed;
    if b == [] {
      assert a + b == a;
    } else {
      var init := b[..|b| - 1];
      assert (a + b)[..|a + b| - 1] == a + init;
      FoldConcat(c, a, init);
    }
  }

  function FoldParts(c: bv32, parts: seq<seq<byte>>): bv32
    decreases |parts|
  {
    if parts == [] then c else FoldParts(Fold(c, parts[0]), parts[1..])
  }

  lemma {:induction false} FoldPartsIsFold(c: bv32, parts: seq<seq<byte>>)
    ensures FoldParts(c, parts) == Fold(c, Flatten(parts))
    decreases |parts|
  {
    hide Fold;
    if parts == [] {
      FoldEmpty(c);
    } else {
      FoldConcat(c, parts[0], Flatten(parts[1..]));
      FoldPartsIsFold(Fold(c, parts[0]), parts[1..]);
    }
  }

  lemma FoldEmpty(c: bv32)
    ensures Fold(c, []) == c
  {}

  /** Feeding a buffer in any pieces and finalizing gives the checksum of the whole buffer. */
  lemma StreamedChecksum(parts: seq<seq<byte>>)
    ensures Finalize(FoldParts(INITIAL_REMAINDER, parts)) == Checksum(Flatten(parts))
  {
    FoldPartsIsFold(INITIAL_REMAINDER, parts);
    hide FoldParts, Fold, Flatten;
  }

  // ---------- linearity ----------

  function XorBytes(a: seq<byte>, b: seq<byte>): (r: seq<byte>)
    requires |a| == |b|
    ensures |r| == |a|
  {
    seq(|a|, i requires 0 <= i < |a| => a[i] ^ b[i])
  }

  lemma FeedLinear(c: bv32, d: bv32, x: byte, y: byte)
    ensures Feed(Xor(c, d), x ^ y) == Xor(Feed(c, x), Feed(d, y))
  {
    LowXor(x, y);
    XorRotate(Xor(c, d), Low(x), Low(y));
    XorAssoc(Xor(c, d), Low(x), Low(y));
    XorRotate(c, d, Low(x));
    XorAssoc(Xor(c, Low(x)), d, Low(y));
    BitsLinear(Xor(c, Low(x)), Xor(d, Low(y)), 8);
    hide Xor, Low, Bits;
  }

  /** The checksum register is linear over GF(2) in its start value and the message together. */
  lemma {:induction false} FoldLinear(c: bv32, d: bv32, a: seq<byte>, b: seq<byte>)
    requires |a| == |b|
    ensures Fold(Xor(c, d), XorBytes(a, b)) == Xor(Fold(c, a), Fold(d, b))
    decreases |a|
  {
    hide Feed, Xor;
    if |a| > 0 {
      var n := |a| - 1;
      assert XorBytes(a, b)[..n] == XorBytes(a[..n], b[..n]);
      FoldLinear(c, d, a[..n], b[..n]);
      FeedLinear(Fold(c, a[..n]), Fold(d, b[..n]), a[n], b[n]);
    }
  }

  // ---------- burst detection ----------

  lemma FeedInjective(c: bv32, d: bv32, b: byte)
    requires Feed(c, b) == Feed(d, b)
    ensures c == d
  {
    BitsInjective(Xor(c, Low(b)), Xor(d, Low(b)), 8);
    XorCancelRight(c, d, Low(b));
    hide Xor, Low, Bits;
  }

  /** Equal bytes absorbed into different registers leave them different. */
  lemma {:induction false} FoldInjective(c: bv32, d: bv32, s: seq<byte>)
    requires Fold(c, s) == Fold(d, s)
    ensures c == d
    decreases |s|
  {
    hide Feed;
    if s != [] {
      var n := |s| - 1;
      FeedInjective(Fold(c, s[..n]), Fold(d, s[..n]), s[n]);
      FoldInjective(c, d, s[..n]);
    }
  }

  /** Four bytes are absorbed as one 32-bit word. */
  lemma WordFold(c: bv32, w: seq<byte>)
    requires |w| == 4
    ensures Fold(c, w) == Bits(Xor(c, Word(w[0], w[1], w[2], w[3])), 32)
  {
    hide *;
    var r1 := Feed(c, w[0]);
    var r2 := Feed(r1, w[1]);
    var r3 := Feed(r2, w[2]);
    var r4 := Feed(r3, w[3]);
    FoldFour(c, w);
    PeelByte(c, w[0], w[1], w[2], w[3], 24);
    PeelByte(r1, w[1], w[2], w[3], 0, 16);
    PeelByte(r2, w[2], w[3], 0, 0, 8);
    PeelByte(r3, w[3], 0, 0, 0, 0);
    WordZero();
    XorSelf(r4);
    BitsZero(r4);
  }

  lemma BitsZero(c: bv32)
    ensures Bits(c, 0) == c
  {}

  lemma FoldFour(c: bv32, w: seq<byte>)
    requires |w| == 4
    ensures Fold(c, w) == Feed(Feed(Feed(Feed(c, w[0]), w[1]), w[2]), w[3])
  {
    hide Feed;
    FoldEmpty(c);
    FoldNext(c, w, 0);
    FoldNext(c, w, 1);
    FoldNext(c, w, 2);
    FoldNext(c, w, 3);
    assert w[..4] == w && w[..0] == [];
    hide *;
  }

  /** Eight steps absorb the low byte of a pending word and shift the rest down. */
  lemma PeelByte(r: bv32, b0: byte, b1: byte, b2: byte, b3: byte, rest: nat)
    ensures Bits(Xor(r, Word(b0, b1, b2, b3)), 8 + rest) == Bits(Xor(Feed(r, b0), Word(b1, b2, b3, 0)), rest)
  {
    hide Xor, Low, High, LowByte, Shift8, Word, Bits;
    var word := Word(b0, b1, b2, b3);
    WordPeel(b0, b1, b2, b3);
    LowAndHigh(word);
    HighBitsShift(word);
    BitsSplit(Xor(r, word), 8, rest);
    calc {
      Bits(Xor(r, word), 8);
      { XorAssoc(r, Low(b0), High(word)); }
      Bits(Xor(Xor(r, Low(b0)), High(word)), 8);
      { BitsLinear(Xor(r, Low(b0)), High(word), 8); }
      Xor(Feed(r, b0), Bits(High(word), 8));
      Xor(Feed(r, b0), Word(b1, b2, b3, 0));
    }
  }

  lemma FourBytesDiffer(c: bv32, v: seq<byte>, w: seq<byte>)
    requires |v| == |w| == 4 && Fold(c, v) == Fold(c, w)
    ensures v == w
  {
    WordFold(c, v);
    WordFold(c, w);
    BitsInjective(Xor(c, Word(v[0], v[1], v[2], v[3])), Xor(c, Word(w[0], w[1], w[2], w[3])), 32);
    XorCancel(c, Word(v[0], v[1], v[2], v[3]), Word(w[0], w[1], w[2], w[3]));
    WordInjective(v[0], v[1], v[2], v[3], w[0], w[1], w[2], w[3]);
    hide Xor, Word, Fold, Bits;
  }

  lemma ShortWindowsDiffer(c: bv32, v: seq<byte>, w: seq<byte>)
    requires |v| == |w| <= 4 && Fold(c, v) == Fold(c, w)
    ensures v == w
  {
    var pad: seq<byte> := seq(4 - |v|, _ => 0);
    FoldConcat(c, v, pad);
    FoldConcat(c, w, pad);
    FourBytesDiffer(c, v + pad, w + pad);
    assert v == (v + pad)[..|v|] && w == (w + pad)[..|w|];
  }

  lemma SandwichDiffers(c: bv32, pre: seq<byte>, v: seq<byte>, w: seq<byte>, post: seq<byte>)
    requires |v| == |w| <= 4
    requires Fold(c, pre + v + post) == Fold(c, pre + w + post)
    ensures v == w
  {
    FoldConcat(c, pre + v, post);
    FoldConcat(c, pre + w, post);
    FoldInjective(Fold(c, pre + v), Fold(c, pre + w), post);
    FoldConcat(c, pre, v);
    FoldConcat(c, pre, w);
    ShortWindowsDiffer(Fold(c, pre), v, w);
    hide Fold;
  }

  /** Any change confined to four consecutive bytes changes the checksum. */
  lemma BurstDetected(a: seq<byte>, b: seq<byte>, k: nat)
    requires DifferOnlyWithin(a, b, k, 4)
    requires Checksum(a) == Checksum(b)
    ensures a == b
  {
    FinalizeInjective(Fold(INITIAL_REMAINDER, a), Fold(INITIAL_REMAINDER, b));
    hide Fold;
    if k < |a| {
      var e := if k + 4 <= |a| then k + 4 else |a|;
      assert a[..k] == b[..k] && a[e..] == b[e..];
      assert a == a[..k] + a[k..e] + a[e..] && b == a[..k] + b[k..e] + a[e..];
      SandwichDiffers(INITIAL_REMAINDER, a[..k], a[k..e], b[k..e], a[e..]);
    }
  }

  lemma FinalizeInjective(c: bv32, d: bv32)
    requires Finalize(c) == Finalize(d)
    ensures c == d
  {
    XorCancelRight(c, d, FINAL_XOR_VALUE);
    hide Xor;
  }
}
