// Exclusive or and masks on words, and the algebra that the other modules use instead of
// their definitions.
module Words {

  function Xor(a: bv32, b: bv32): bv32 { a ^ b }

  function And(a: bv32, mask: bv32): bv32 { a & mask }

  function Or(a: bv32, mask: bv32): bv32 { a | mask }

  function Plus(a: bv32, b: bv32): bv32 { a + b }

  function Minus(a: bv32, b: bv32): bv32 { a - b }

  predicate AtMost(a: bv32, b: bv32) { a <= b }

  // The top bit set, cleared and flipped.
  lemma TopSet(a: bv32)
    ensures And(Or(a, 0x8000_0000), 0x7fff_ffff) == And(a, 0x7fff_ffff)
  {
  }

  lemma TopSetAgain(a: bv32)
    ensures Or(And(a, 0x7fff_ffff), 0x8000_0000) == Or(a, 0x8000_0000)
  {
  }

  lemma TopFlipped(a: bv32)
    ensures And(Xor(a, 0x8000_0000), 0x7fff_ffff) == And(a, 0x7fff_ffff)
  {
  }

  // Taking away what is counted in the low ten bits, or less, changes no other bit.
  lemma LessCounted(a: bv32, count: bv32)
    requires AtMost(count, And(a, 0x3ff))
    ensures And(Plus(a, Minus(0, count)), 0xffff_fc00) == And(a, 0xffff_fc00)
    ensures And(Plus(a, Minus(0, count)), 0x3ff) == Minus(And(a, 0x3ff), count)
  {
  }

  // Taking away more borrows from the other bits.
  lemma MoreCounted(a: bv32, b: bv32)
    requires !AtMost(And(b, 0x3ff), And(a, 0x3ff))
    ensures And(Plus(a, Minus(0, And(b, 0x3ff))), 0xffff_fc00) != And(a, 0xffff_fc00)
  {
  }

  lemma ZeroAtMost(a: bv32)
    ensures AtMost(0, a)
  {
  }

  lemma MinusSelf(a: bv32)
    ensures Minus(a, a) == 0 && AtMost(a, a)
  {
  }

  lemma XorZero(a: bv32)
    ensures Xor(a, 0) == a
  {
  }

  lemma XorSwap(a: bv32, b: bv32, c: bv32)
    ensures Xor(Xor(a, b), c) == Xor(Xor(a, c), b)
  {
    XorAssoc(a, b, c);
    XorAssoc(a, c, b);
    XorFlip(b, c);
    hide Xor;
  }

  lemma XorAssoc(a: bv32, b: bv32, c: bv32)
    ensures Xor(Xor(a, b), c) == Xor(a, Xor(b, c))
  {
  }

  lemma XorFlip(a: bv32, b: bv32)
    ensures Xor(a, b) == Xor(b, a)
  {
  }

  lemma XorCancel(a: bv32, b: bv32, c: bv32)
    ensures Xor(Xor(a, c), Xor(b, c)) == Xor(a, b)
  {
    XorAssoc(a, c, Xor(b, c));
    XorFlip(c, Xor(b, c));
    XorTwice(b, c);
    hide Xor;
  }

  lemma XorTwice(a: bv32, b: bv32)
    ensures Xor(Xor(a, b), b) == a
  {
  }

  lemma XorSelf(a: bv32)
    ensures Xor(a, a) == 0 && Xor(0, a) == a && Xor(a, 0) == a
  {
  }

  lemma AndXor(a: bv32, b: bv32, mask: bv32)
    ensures And(Xor(a, b), mask) == Xor(And(a, mask), And(b, mask))
  {
  }

  lemma AndAnd(a: bv32, m: bv32, n: bv32)
    ensures And(And(a, m), n) == And(a, And(m, n))
  {
  }

  lemma AndZero(a: bv32)
    ensures And(a, 0) == 0 && And(0, a) == 0
  {
  }
}
