/** The shift register of the CRC-32 of RFC 1952, section 8. */
module CrcRegister {
  type Byte = bv8

  const POLYNOMIAL: bv32 := 0xedb88320

  // The operations on the register have names so that proofs need not look at
  // the bits.
  function Xor(a: bv32, b: bv32): bv32 { a ^ b }

  function Half(a: bv32): bv32 { a >> 1 }

  function Low(a: bv32): bv32 { a & 1 }

  function LowByte(a: bv32): bv32 { a & 0xff }

  function Rest(a: bv32): bv32 { a >> 8 }

  function Word(c: Byte): bv32 { c as bv32 }

  /** One step of the shift register. */
  function Shift(c: bv32): bv32 {
    Xor(Half(c), if Low(c) == 1 then POLYNOMIAL else 0)
  }

  function Shifts(c: bv32, n: nat): bv32
    decreases n
  {
    if n == 0 then c else Shifts(Shift(c), n - 1)
  }

  // ------------------------------------------------------------------------
  // The register is linear
  // ------------------------------------------------------------------------

  lemma XorParts(a: bv32, b: bv32)
    ensures Low(Xor(a, b)) == Xor(Low(a), Low(b)) && Half(Xor(a, b)) == Xor(Half(a), Half(b))
    ensures Low(a) == 0 || Low(a) == 1
    ensures Xor(0, 0) == 0 && Xor(0, 1) == 1 && Xor(1, 0) == 1 && Xor(1, 1) == 0
  {
  }

  lemma XorGroup(a: bv32, b: bv32, p: bv32)
    ensures Xor(Xor(a, b), p) == Xor(a, Xor(b, p))
  {
  }

  lemma XorTurn(a: bv32, b: bv32)
    ensures Xor(a, b) == Xor(b, a)
  {
  }

  lemma XorSelf(p: bv32)
    ensures Xor(p, p) == 0
  {
  }

  lemma XorZero(a: bv32)
    ensures Xor(a, 0) == a
  {
  }

  lemma XorLaws(a: bv32, b: bv32, p: bv32)
    ensures Xor(Xor(a, p), Xor(b, p)) == Xor(a, b)
    ensures Xor(Xor(a, b), p) == Xor(Xor(a, p), b)
    ensures Xor(Xor(a, b), p) == Xor(a, Xor(b, p))
    ensures Xor(a, 0) == a
  {
    hide Xor;
    XorGroup(a, b, p);
    XorGroup(a, p, b);
    XorTurn(b, p);
    XorGroup(a, p, Xor(b, p));
    XorGroup(p, p, b);
    XorSelf(p);
    XorTurn(0, b);
    XorZero(a);
    XorZero(b);
  }

  lemma ShiftXor(a: bv32, b: bv32)
    ensures Shift(Xor(a, b)) == Xor(Shift(a), Shift(b))
  {
    hide Xor, Half, Low;
    XorParts(a, b);
    XorParts(b, a);
    XorLaws(Half(a), Half(b), POLYNOMIAL);
    XorLaws(Half(a), Half(b), 0);
    XorLaws(Half(b), 0, 0);
  }

  lemma {:induction false} ShiftsXor(a: bv32, b: bv32, n: nat)
    ensures Shifts(Xor(a, b), n) == Xor(Shifts(a, n), Shifts(b, n))
    decreases n
  {
    hide Xor, Shift;
    if n > 0 {
      ShiftXor(a, b);
      ShiftsXor(Shift(a), Shift(b), n - 1);
    }
  }
}
