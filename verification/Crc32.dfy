/** The checksum of a string, one table look-up per byte, against the CRC-32 of
    RFC 1952, section 8, one message bit at a time. */
module Crc32 {
  import opened CrcRegister
  import opened CrcTable

  lemma LowByteSmall(c: bv32)
    ensures LowByte(c) < 256
  {
  }

  function StepByte(c: Byte, crc: bv32): bv32 {
    LowByteSmall(Xor(crc, Word(c)));
    Xor(Table(LowByte(Xor(crc, Word(c)))), Rest(crc))
  }

  function Update(s: seq<Byte>, crc: bv32): bv32 {
    if s == [] then crc else StepByte(s[|s| - 1], Update(s[..|s| - 1], crc))
  }

  /** The register after `n` message bits, the lowest one first. */
  function Serial(crc: bv32, bits: bv32, n: nat): bv32
    decreases n
  {
    if n == 0 then crc else Serial(Shift(Xor(crc, Low(bits))), Half(bits), n - 1)
  }

  /** The checksum of a message, bit by bit. */
  function SerialUpdate(s: seq<Byte>, crc: bv32): bv32 {
    if s == [] then crc else Serial(SerialUpdate(s[..|s| - 1], crc), Word(s[|s| - 1]), 8)
  }

  lemma ShiftEven(y: bv32)
    requires Low(y) == 0
    ensures Shift(y) == Half(y)
  {
    XorLaws(Half(y), 0, 0);
  }

  function Double(a: bv32): bv32 { a << 1 }

  lemma DoubledLow(c: bv32)
    ensures Low(Double(Half(c))) == 0
  {
  }

  lemma DoubledHalf(c: bv32)
    ensures Half(Double(Half(c))) == Half(c)
  {
  }

  lemma DoubledWhole(c: bv32)
    ensures Xor(Low(c), Double(Half(c))) == c
  {
  }

  lemma BitEnters(crc: bv32, c: bv32)
    ensures Shift(Xor(crc, c)) == Xor(Shift(Xor(crc, Low(c))), Half(c))
  {
    hide Shift, Xor, Half, Low, Double;
    var high := Double(Half(c));
    DoubledLow(c);
    DoubledHalf(c);
    DoubledWhole(c);
    XorLaws(crc, Low(c), high);
    ShiftXor(Xor(crc, Low(c)), high);
    ShiftEven(high);
  }

  function Halved(c: bv32, n: nat): bv32
    decreases n
  {
    if n == 0 then c else Halved(Half(c), n - 1)
  }

  /** Feeding the bits in one at a time, or all at once before shifting. */
  lemma {:induction false} SerialIsShifts(crc: bv32, c: bv32, n: nat)
    ensures Shifts(Xor(crc, c), n) == Xor(Serial(crc, c, n), Halved(c, n))
    decreases n
  {
    hide Shift, Xor, Half, Low;
    if n > 0 {
      BitEnters(crc, c);
      SerialIsShifts(Shift(Xor(crc, Low(c))), Half(c), n - 1);
    }
  }

  lemma HalvedByte(c: Byte)
    ensures Halved(Word(c), 8) == 0
  {
    ByteEnds(c);
    hide Half, Word;
    var x2 := Half(Half(Word(c)));
    var x4 := Half(Half(x2));
    assert Halved(Word(c), 8) == Halved(x2, 6) == Halved(x4, 4) == Halved(Half(Half(x4)), 2);
  }

  lemma ByteEnds(c: Byte)
    ensures Half(Half(Half(Half(Half(Half(Half(Half(Word(c))))))))) == 0
  {
  }

  function Left(z: bv32, k: bv32): bv32
    requires k <= 8
  {
    z << k
  }

  lemma LeftLow(z: bv32, k: bv32)
    requires 0 < k <= 8
    ensures Low(Left(z, k)) == 0
  {
  }

  lemma LeftHalf(z: bv32, k: bv32)
    requires z <= 0xffffff && 0 < k <= 8
    ensures Half(Left(z, k)) == Left(z, k - 1)
  {
  }

  lemma LeftShift(z: bv32, k: bv32)
    requires z <= 0xffffff && 0 < k <= 8
    ensures Shift(Left(z, k)) == Left(z, k - 1)
  {
    hide Shift, Left, Half, Low;
    LeftLow(z, k);
    LeftHalf(z, k);
    ShiftEven(Left(z, k));
  }

  lemma ShiftsOut(z: bv32)
    requires z <= 0xffffff
    ensures Shifts(Left(z, 8), 8) == z
  {
    assert Left(z, 0) == z;
    hide Shift, Left;
    LeftShift(z, 8); LeftShift(z, 7); LeftShift(z, 6); LeftShift(z, 5);
    LeftShift(z, 4); LeftShift(z, 3); LeftShift(z, 2); LeftShift(z, 1);
    assert Shifts(Left(z, 8), 8) == Shifts(Left(z, 6), 6) == Shifts(Left(z, 4), 4) == Shifts(Left(z, 2), 2);
  }

  lemma SplitByte(crc: bv32, c: Byte)
    ensures Xor(LowByte(Xor(crc, Word(c))), Left(Rest(crc), 8)) == Xor(crc, Word(c))
  {
  }

  lemma RestSmall(crc: bv32)
    ensures Rest(crc) <= 0xffffff
  {
  }

  /** A look-up in the table does the work of eight single shifts. */
  lemma StepByteIsSerial(c: Byte, crc: bv32)
    ensures StepByte(c, crc) == Serial(crc, Word(c), 8)
  {
    hide Shifts, Table, Serial, Halved, Xor, LowByte, Rest, Left, Word;
    SplitByte(crc, c);
    RestSmall(crc);
    LowByteSmall(Xor(crc, Word(c)));
    TableIsRule(LowByte(Xor(crc, Word(c))));
    ShiftsXor(LowByte(Xor(crc, Word(c))), Left(Rest(crc), 8), 8);
    ShiftsOut(Rest(crc));
    SerialIsShifts(crc, Word(c), 8);
    HalvedByte(c);
    XorLaws(Serial(crc, Word(c), 8), 0, 0);
  }

  /** The checksum is the CRC-32 of the string. */
  lemma {:induction false} UpdateIsSerial(s: seq<Byte>, crc: bv32)
    ensures Update(s, crc) == SerialUpdate(s, crc)
  {
    hide StepByte, Serial, Word;
    if s != [] {
      UpdateIsSerial(s[..|s| - 1], crc);
      StepByteIsSerial(s[|s| - 1], Update(s[..|s| - 1], crc));
    }
  }

  lemma {:induction false} UpdateJoin(a: seq<Byte>, b: seq<Byte>, crc: bv32)
    ensures Update(a + b, crc) == Update(b, Update(a, crc))
  {
    hide StepByte;
    if b == [] {
      assert a + b == a;
    } else {
      UpdateJoin(a, b[..|b| - 1], crc);
      assert (a + b)[..|a + b| - 1] == a + b[..|b| - 1];
    }
  }

  method PartialCrc32(s: seq<Byte>, start: bv32) returns (crc: bv32)
    ensures crc == Update(s, start)
  {
    hide StepByte;
    crc := start;
    for i := 0 to |s|
      invariant crc == Update(s[..i], start)
    {
      crc := StepByte(s[i], crc);
      assert s[..i + 1][..i] == s[..i];
    }
    assert s[..|s|] == s;
  }
}
