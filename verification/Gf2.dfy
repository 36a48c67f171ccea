/** Words over GF(2): exclusive or and the shifts the CRCs are made of. Naming the operations keeps
    the bit-vector reasoning in this module; the proofs elsewhere use only the laws below. */
module Gf2 {
  function Xor(a: bv32, b: bv32): bv32 { a ^ b }
  predicate Odd(c: bv32) { c & 1 == 1 }
  function Half(c: bv32): bv32 { c >> 1 }
  function Low(b: bv8): bv32 { b as bv32 }
  function Shift8(c: bv32): bv32 { c >> 8 }
  function High(c: bv32): bv32 { c & 0xFFFF_FF00 }

  lemma OddXor(a: bv32, b: bv32)
    ensures Odd(Xor(a, b)) == (Odd(a) != Odd(b))
  {}

  lemma HalfXor(a: bv32, b: bv32)
    ensures Half(Xor(a, b)) == Xor(Half(a), Half(b))
  {}

  lemma XorAssoc(a: bv32, b: bv32, c: bv32)
    ensures Xor(Xor(a, b), c) == Xor(a, Xor(b, c))
  {}

  lemma XorComm(a: bv32, b: bv32)
    ensures Xor(a, b) == Xor(b, a)
  {}

  lemma XorSelf(a: bv32)
    ensures Xor(a, a) == 0 && Xor(a, 0) == a && Xor(0, a) == a
  {}

  lemma XorRotate(a: bv32, b: bv32, c: bv32)
    ensures Xor(Xor(a, b), c) == Xor(Xor(a, c), b)
  {
    XorAssoc(a, b, c);
    XorAssoc(a, c, b);
    XorComm(b, c);
    hide Xor;
  }

  lemma XorCancelCommon(a: bv32, b: bv32, p: bv32)
    ensures Xor(Xor(a, p), Xor(b, p)) == Xor(a, b)
  {
    XorRotate(a, p, Xor(b, p));
    XorAssoc(b, p, p);
    XorSelf(p);
    XorSelf(b);
    XorAssoc(a, Xor(b, p), p);
    hide Xor;
  }

  lemma XorCancel(a: bv32, b: bv32, c: bv32)
    requires Xor(a, b) == Xor(a, c)
    ensures b == c
  {}

  function Shift4(c: bv32): bv32 { c >> 4 }
  predicate LowNibbleClear(c: bv32) { c & 0xF == 0 }

  lemma FourHalves(a: bv32)
    ensures Half(Half(Half(Half(a)))) == Shift4(a)
  {}

  lemma ClearNibbleHalves(a: bv32)
    requires LowNibbleClear(a)
    ensures !Odd(a) && !Odd(Half(a)) && !Odd(Half(Half(a))) && !Odd(Half(Half(Half(a))))
  {}

  function LowByte(c: bv32): bv8 { (c & 0xFF) as bv8 }

  lemma LowAndHigh(c: bv32)
    ensures c == Xor(Low(LowByte(c)), High(c))
  {}

  lemma XorLowKeepsHigh(c: bv32, b: bv8)
    ensures Shift8(Xor(c, Low(b))) == Shift8(c)
  {}

  lemma HighNibblesClear(a: bv32)
    ensures LowNibbleClear(High(a)) && LowNibbleClear(Shift4(High(a)))
    ensures Shift4(Shift4(High(a))) == Shift8(a)
  {}

  lemma XorCancelRight(b: bv32, c: bv32, a: bv32)
    requires Xor(b, a) == Xor(c, a)
    ensures b == c
  {}

  lemma LowXor(x: bv8, y: bv8)
    ensures Low(x ^ y) == Xor(Low(x), Low(y))
  {}

  /** Four bytes as one word, least significant first. */
  function Word(b0: bv8, b1: bv8, b2: bv8, b3: bv8): bv32 {
    (b0 as bv32) | ((b1 as bv32) << 8) | ((b2 as bv32) << 16) | ((b3 as bv32) << 24)
  }

  lemma WordPeel(b0: bv8, b1: bv8, b2: bv8, b3: bv8)
    ensures LowByte(Word(b0, b1, b2, b3)) == b0
    ensures Shift8(Word(b0, b1, b2, b3)) == Word(b1, b2, b3, 0)
  {}

  lemma WordZero()
    ensures Word(0, 0, 0, 0) == 0
  {}

  lemma WordInjective(a0: bv8, a1: bv8, a2: bv8, a3: bv8, b0: bv8, b1: bv8, b2: bv8, b3: bv8)
    requires Word(a0, a1, a2, a3) == Word(b0, b1, b2, b3)
    ensures a0 == b0 && a1 == b1 && a2 == b2 && a3 == b3
  {}
}
