/** The CRC of section 3.4 of RFC 2083: its bit-by-bit register, and the table-driven form the icon writer uses. */
module Crc32 {
  type Bytes = seq<bv8>

  const POLYNOMIAL: bv32 := 0xedb8_8320

  function Xor(a: bv32, b: bv32): bv32 { a ^ b }
  function Half(c: bv32): bv32 { c >> 1 }
  function LowBit(c: bv32): bool { c & 1 == 1 }

  /** One shift of the register, the polynomial added when a one falls out. */
  function Shift(c: bv32): bv32 {
    if LowBit(c) then Xor(POLYNOMIAL, Half(c)) else Half(c)
  }

  function Shifts(c: bv32, n: nat): bv32
    decreases n
  {
    if n == 0 then c else Shifts(Shift(c), n - 1)
  }

  /** One message bit into the register: it is added to the lowest bit, which then falls out. */
  function TakeBit(c: bv32, bit: bool): bv32 { Shift(Xor(c, if bit then 1 else 0)) }

  function TakeBits(c: bv32, bits: seq<bool>): bv32
    decreases |bits|
  {
    if bits == [] then c else TakeBits(TakeBit(c, bits[0]), bits[1..])
  }

  /** The lowest `n` bits, the least significant first. */
  function BitsOf(b: bv32, n: nat): seq<bool>
    decreases n
  {
    if n == 0 then [] else [LowBit(b)] + BitsOf(Half(b), n - 1)
  }

  /** The register after these bytes, by definition: bit by bit. */
  function Register(c: bv32, bytes: Bytes): bv32
    decreases |bytes|
  {
    if bytes == [] then c else Register(TakeBits(c, BitsOf(bytes[0] as bv32, 8)), bytes[1..])
  }

  /** The checksum by definition: the register starts as all ones and is inverted at the end. */
  function Checksum(bytes: Bytes): bv32 { !Register(0xffff_ffff, bytes) }

  /** The generator of section 3.4, lowest power in the highest bit: its fourteen powers below the 32nd. */
  lemma PolynomialIs()
    ensures POLYNOMIAL == Power(0) | Power(1) | Power(2) | Power(4) | Power(5) | Power(7) | Power(8) | Power(10)
                        | Power(11) | Power(12) | Power(16) | Power(22) | Power(23) | Power(26)
  {
  }

  function Power(k: nat): bv32
    requires k < 32
  {
    0x8000_0000 >> k
  }

  /** The checksum of the one letter "a". */
  lemma KnownChecksum()
    ensures Checksum([0x61]) == 0xe8b7_be43
  {
    hide Shift, Xor, BitsOf, TakeBits;
    KnownShifts();
    ByteFits(0x61);
    TakeBitsIsShifts(0xffff_ffff, 0x61, 8);
    assert 0x61 as bv8 as bv32 == 0x61;
    assert Register(0x1748_41bc, []) == 0x1748_41bc;
    assert [0x61 as bv8][1..] == [];
    assert Shifts(0xffff_ff9e, 8) == Shifts(0xaff5_1d81, 4) == Shifts(0x1748_41bc, 0);
  }

  lemma KnownShifts()
    ensures Xor(0xffff_ffff, 0x61) == 0xffff_ff9e && !(0x1748_41bc as bv32) == 0xe8b7_be43
    ensures Shift(0xffff_ff9e) == 0x7fff_ffcf && Shift(0x7fff_ffcf) == 0xd247_7cc7
    ensures Shift(0xd247_7cc7) == 0x849b_3d43 && Shift(0x849b_3d43) == 0xaff5_1d81
    ensures Shift(0xaff5_1d81) == 0xba42_0de0 && Shift(0xba42_0de0) == 0x5d21_06f0
    ensures Shift(0x5d21_06f0) == 0x2e90_8378 && Shift(0x2e90_8378) == 0x1748_41bc
  {
  }

  // ---------- the register is linear ----------

  lemma XorHalves(x: bv32, y: bv32)
    ensures Half(Xor(x, y)) == Xor(Half(x), Half(y))
    ensures LowBit(Xor(x, y)) == (LowBit(x) != LowBit(y))
  {
    assert x & 1 == 0 || x & 1 == 1;
    assert y & 1 == 0 || y & 1 == 1;
  }

  lemma XorMoves(p: bv32, y: bv32, z: bv32)
    ensures Xor(Xor(p, y), Xor(p, z)) == Xor(y, z)
    ensures Xor(p, Xor(y, z)) == Xor(Xor(p, y), z) == Xor(y, Xor(p, z))
  {
  }

  lemma ShiftSplits(x: bv32, y: bv32)
    ensures Shift(Xor(x, y)) == Xor(Shift(x), Shift(y))
  {
    XorHalves(x, y);
    XorMoves(POLYNOMIAL, Half(x), Half(y));
    hide Xor, Half, LowBit;
  }

  lemma {:induction false} ShiftsSplit(x: bv32, y: bv32, n: nat)
    ensures Shifts(Xor(x, y), n) == Xor(Shifts(x, n), Shifts(y, n))
    decreases n
  {
    hide Xor, Shift;
    if n > 0 {
      ShiftSplits(x, y);
      ShiftsSplit(Shift(x), Shift(y), n - 1);
    }
  }

  // ---------- eight bits at once ----------

  /** `b` has no bit above the lowest `n`. */
  predicate Fits(b: bv32, n: nat)
    decreases n
  {
    if n == 0 then b == 0 else Fits(Half(b), n - 1)
  }

  function LowPart(b: bv32): bv32 { if LowBit(b) then 1 else 0 }
  function HighPart(b: bv32): bv32 { b & 0xffff_fffe }

  lemma PartsOf(b: bv32)
    ensures b == (b & 1) ^ (b & 0xffff_fffe) && (b & 1 == 0 || b & 1 == 1)
  {
  }

  lemma HighPartIsEven(b: bv32)
    ensures !LowBit(HighPart(b)) && Half(HighPart(b)) == Half(b)
  {
  }

  lemma LowestBit(c: bv32, b: bv32)
    ensures Xor(c, b) == Xor(Xor(c, LowPart(b)), HighPart(b))
    ensures Shift(HighPart(b)) == Half(b)
    ensures Xor(c, 0) == c
  {
    XorZero(c);
    PartsOf(b);
    HighPartIsEven(b);
    assert b == Xor(LowPart(b), HighPart(b));
    hide Xor, HighPart, Half;
    XorMoves(c, LowPart(b), HighPart(b));
  }

  lemma XorZero(c: bv32)
    ensures Xor(c, 0) == c
  {
  }

  /** Reading bits one by one is adding them all and then shifting. */
  lemma {:induction false} TakeBitsIsShifts(c: bv32, b: bv32, n: nat)
    requires Fits(b, n)
    ensures TakeBits(c, BitsOf(b, n)) == Shifts(Xor(c, b), n)
    decreases n
  {
    hide Xor, Half, LowBit, Shift, HighPart;
    LowestBit(c, b);
    if n > 0 {
      ShiftSplits(Xor(c, LowPart(b)), HighPart(b));
      TakeBitsIsShifts(TakeBit(c, LowBit(b)), Half(b), n - 1);
      assert BitsOf(b, n)[1..] == BitsOf(Half(b), n - 1);
    }
  }

  lemma ByteFits(b: bv8)
    ensures Fits(b as bv32, 8)
  {
    EightHalves(b);
    hide Half;
    var x := b as bv32;
    FitsFour(x, 4);
    FitsFour(Half(Half(Half(Half(x)))), 0);
  }

  lemma FitsFour(x: bv32, n: nat)
    ensures Fits(x, n + 4) == Fits(Half(Half(Half(Half(x)))), n)
  {
    hide Half;
    assert Fits(x, n + 4) == Fits(Half(Half(x)), n + 2);
  }

  lemma EightHalves(b: bv8)
    ensures Half(Half(Half(Half(Half(Half(Half(Half(b as bv32)))))))) == 0
  {
  }

  function LowByte(z: bv32): bv32 { z & 0xff }
  function HighBytes(z: bv32): bv32 { z & 0xffff_ff00 }
  function Down8(z: bv32): bv32 { z >> 8 }

  lemma HighBytesAreEven(z: bv32)
    ensures var d := HighBytes(z);
      && Shift(d) == Half(d) && Shift(Half(d)) == Half(Half(d))
      && Shift(Half(Half(d))) == Half(Half(Half(d)))
      && Shift(Half(Half(Half(d)))) == Half(Half(Half(Half(d))))
  {
  }

  lemma HighBytesAreEvenStill(z: bv32)
    ensures var e := Half(Half(Half(Half(HighBytes(z)))));
      && Shift(e) == Half(e) && Shift(Half(e)) == Half(Half(e))
      && Shift(Half(Half(e))) == Half(Half(Half(e)))
      && Shift(Half(Half(Half(e)))) == Half(Half(Half(Half(e)))) == Down8(z)
  {
  }

  lemma ShiftsFour(d: bv32, n: nat)
    requires Shift(d) == Half(d) && Shift(Half(d)) == Half(Half(d))
    requires Shift(Half(Half(d))) == Half(Half(Half(d)))
    requires Shift(Half(Half(Half(d)))) == Half(Half(Half(Half(d))))
    ensures Shifts(d, n + 4) == Shifts(Half(Half(Half(Half(d)))), n)
  {
    hide Half, Shift;
    assert Shifts(d, n + 4) == Shifts(Half(Half(d)), n + 2);
  }

  /** With eight zeros at the bottom nothing is added while they fall out. */
  lemma HighBytesMove(z: bv32)
    ensures Shifts(HighBytes(z), 8) == Down8(z)
  {
    HighBytesAreEven(z);
    HighBytesAreEvenStill(z);
    hide Half, Shift, HighBytes, Down8;
    ShiftsFour(HighBytes(z), 4);
    ShiftsFour(Half(Half(Half(Half(HighBytes(z))))), 0);
  }

  lemma Halved(z: bv32)
    ensures z == Xor(LowByte(z), HighBytes(z))
  {
  }

  lemma ByteMeetsRegister(c: bv32, b: bv8)
    ensures Down8(Xor(c, b as bv32)) == Down8(c)
  {
  }

  /** One byte at once: the table's entry for the low byte, added to the register moved by eight bits. */
  lemma ByteAtOnce(c: bv32, b: bv8)
    ensures TakeBits(c, BitsOf(b as bv32, 8)) == Xor(Shifts(LowByte(Xor(c, b as bv32)), 8), Down8(c))
  {
    hide Shifts, TakeBits, BitsOf, Xor, LowByte, HighBytes, Down8, Fits;
    var z := Xor(c, b as bv32);
    ByteFits(b);
    TakeBitsIsShifts(c, b as bv32, 8);
    Halved(z);
    ShiftsSplit(LowByte(z), HighBytes(z), 8);
    HighBytesMove(z);
    ByteMeetsRegister(c, b);
  }

  // ---------- the table and the loop over it ----------

  function Entry(n: int): bv32
    requires 0 <= n < 256
  {
    Shifts(n as bv32, 8)
  }

  ghost predicate IsTable(table: seq<bv32>) {
    |table| == 256 && forall n :: 0 <= n < 256 ==> table[n] == Entry(n)
  }

  lemma {:induction false} ShiftsLast(c: bv32, n: nat)
    ensures Shifts(c, n + 1) == Shift(Shifts(c, n))
    decreases n
  {
    hide Shift;
    if n > 0 {
      ShiftsLast(Shift(c), n - 1);
    }
  }

  method MakeTable() returns (table: array<bv32>)
    ensures IsTable(table[..]) && fresh(table)
  {
    hide Entry;
    table := new bv32[256](_ => 0);
    var n := 0;
    while n < 256
      invariant 0 <= n <= 256 && table.Length == 256
      invariant forall k :: 0 <= k < n ==> table[k] == Entry(k)
    {
      table[n] := MakeEntry(n);
      n := n + 1;
    }
  }

  method MakeEntry(n: int) returns (c: bv32)
    requires 0 <= n < 256
    ensures c == Entry(n)
  {
    hide Shifts, Xor, Half, LowBit;
    c := n as bv32;
    ShiftsNone(c);
    var j := 0;
    while j < 8
      invariant 0 <= j <= 8
      invariant c == Shifts(n as bv32, j)
    {
      ShiftsLast(n as bv32, j);
      c := if LowBit(c) then Xor(POLYNOMIAL, Half(c)) else Half(c);
      j := j + 1;
    }
  }

  lemma ShiftsNone(c: bv32)
    ensures Shifts(c, 0) == c
  {
  }

  lemma LowByteIndex(z: bv32)
    ensures 0 <= LowByte(z) as int < 256 && Entry(LowByte(z) as int) == Shifts(LowByte(z), 8)
  {
    hide Shifts;
    assert LowByte(z) <= 0xff;
  }

  lemma {:induction false} RegisterLast(c: bv32, bytes: Bytes, b: bv8)
    ensures Register(c, bytes + [b]) == TakeBits(Register(c, bytes), BitsOf(b as bv32, 8))
    decreases |bytes|
  {
    hide TakeBits, BitsOf;
    if bytes == [] {
      assert ([] + [b])[1..] == [];
    } else {
      assert (bytes + [b])[1..] == bytes[1..] + [b];
      RegisterLast(TakeBits(c, BitsOf(bytes[0] as bv32, 8)), bytes[1..], b);
    }
  }

  /** The table-driven checksum is the bit-by-bit one, for every byte sequence. */
  method Crc32(table: seq<bv32>, bytes: Bytes) returns (crc: bv32)
    requires IsTable(table)
    ensures crc == Checksum(bytes)
  {
    hide TakeBits, BitsOf, Entry, Xor, LowByte, Down8, Register;
    var c: bv32 := 0xffff_ffff;
    var i := 0;
    RegisterNone(c);
    assert bytes[..0] == [];
    while i < |bytes|
      invariant 0 <= i <= |bytes|
      invariant c == Register(0xffff_ffff, bytes[..i])
    {
      var z := Xor(c, bytes[i] as bv32);
      LowByteIndex(z);
      ByteAtOnce(c, bytes[i]);
      RegisterLast(0xffff_ffff, bytes[..i], bytes[i]);
      assert bytes[..i + 1] == bytes[..i] + [bytes[i]];
      c := Xor(table[LowByte(z) as int], Down8(c));
      i := i + 1;
    }
    assert bytes[..i] == bytes;
    crc := !c;
  }

  lemma RegisterNone(c: bv32)
    ensures Register(c, []) == c
  {
  }
}
