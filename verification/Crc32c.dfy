/**
  CRC-32C as the wire format computes it, one table lookup per byte, against
  the definition that shifts in the data one bit at a time (the reflected
  polynomial of section 12.1 of RFC 3720).
*/
module Crc32c {

  const POLYNOMIAL: bv32 := 0x82F63B78

  function Xor(a: bv32, b: bv32): bv32 {
    a ^ b
  }

  /** One step of the division: shift right, subtract the polynomial if a one fell out. */
  function Shift(c: bv32): bv32 {
    if Odd(c) then Xor(POLYNOMIAL, Half(c)) else Half(c)
  }

  predicate Odd(c: bv32) {
    c & 1 == 1
  }

  function Half(c: bv32): bv32 {
    c >> 1
  }

  function Shifts(c: bv32, n: nat): bv32 {
    if n == 0 then c else Shift(Shifts(c, n - 1))
  }

  // ---- The definition, bit by bit ----

  function Bit(b: bv8, i: nat): bv32
    requires i < 8
  {
    ((b >> i) & 1) as bv32
  }

  /** The register after the first n bits of a byte, lowest bit first. */
  function BitsIn(c: bv32, b: bv8, n: nat): bv32
    requires n <= 8
  {
    if n == 0 then c else Shift(Xor(BitsIn(c, b, n - 1), Bit(b, n - 1)))
  }

  function BytesIn(c: bv32, data: seq<bv8>): bv32 {
    if data == [] then c else BitsIn(BytesIn(c, data[..|data| - 1]), data[|data| - 1], 8)
  }

  /** Starts from all ones and complements the result. */
  function Crc(data: seq<bv8>): bv32 {
    Xor(BytesIn(0xFFFFFFFF, data), 0xFFFFFFFF)
  }

  // ---- Shifting is linear ----

  lemma HalfLinear(a: bv32, b: bv32)
    ensures Half(Xor(a, b)) == Xor(Half(a), Half(b))
  {}

  lemma OddLinear(a: bv32, b: bv32)
    ensures Odd(Xor(a, b)) <==> Odd(a) != Odd(b)
  {}

  lemma XorAssociates(a: bv32, b: bv32, c: bv32)
    ensures Xor(Xor(a, b), c) == Xor(a, Xor(b, c))
  {}

  lemma XorCommutes(a: bv32, b: bv32)
    ensures Xor(a, b) == Xor(b, a)
  {}

  lemma XorZero(a: bv32)
    ensures Xor(a, 0) == a && Xor(a, a) == 0
  {}

  lemma XorMoves(p: bv32, a: bv32, b: bv32)
    ensures Xor(Xor(p, a), b) == Xor(p, Xor(a, b)) && Xor(a, Xor(p, b)) == Xor(p, Xor(a, b))
    ensures Xor(Xor(p, a), Xor(p, b)) == Xor(a, b)
  {
    hide Xor;
    XorAssociates(p, a, b);
    XorAssociates(a, p, b);
    XorCommutes(a, p);
    XorAssociates(a, p, Xor(p, b));
    XorAssociates(p, p, b);
    XorZero(p);
    XorZero(b);
    XorCommutes(0, b);
  }

  lemma ShiftLinear(a: bv32, b: bv32)
    ensures Shift(Xor(a, b)) == Xor(Shift(a), Shift(b))
  {
    hide Xor;
    hide Odd;
    hide Half;
    HalfLinear(a, b);
    OddLinear(a, b);
    XorMoves(POLYNOMIAL, Half(a), Half(b));
  }

  lemma {:induction false} ShiftsLinear(a: bv32, b: bv32, n: nat)
    ensures Shifts(Xor(a, b), n) == Xor(Shifts(a, n), Shifts(b, n))
  {
    hide Shift;
    hide Xor;
    if n > 0 {
      ShiftsLinear(a, b, n - 1);
      ShiftLinear(Shifts(a, n - 1), Shifts(b, n - 1));
    }
  }

  /** Bits above the lowest eight only move down. */
  lemma HighShifts(c: bv32)
    requires c & 0xFF == 0
    ensures Shifts(c, 8) == c >> 8
  {
    assert Shifts(c, 1) == c >> 1;
    assert Shifts(c, 2) == c >> 2;
    assert Shifts(c, 3) == c >> 3;
    assert Shifts(c, 4) == c >> 4;
    assert Shifts(c, 5) == c >> 5;
    assert Shifts(c, 6) == c >> 6;
    assert Shifts(c, 7) == c >> 7;
  }

  function HighPart(c: bv32): bv32 {
    c & 0xFFFFFF00
  }

  function LowPart(c: bv32): bv32 {
    c & 0xFF
  }

  lemma ByteParts(c: bv32)
    ensures c == Xor(HighPart(c), LowPart(c)) && HighPart(c) & 0xFF == 0 && HighPart(c) >> 8 == c >> 8
  {}

  /** The low byte decides what is subtracted; the rest only moves down. */
  lemma SplitByte(c: bv32)
    ensures Shifts(c, 8) == Xor(c >> 8, Shifts(LowPart(c), 8))
  {
    hide Shifts;
    hide Xor;
    hide HighPart;
    hide LowPart;
    ByteParts(c);
    ShiftsLinear(HighPart(c), LowPart(c), 8);
    HighShifts(HighPart(c));
  }

  // ---- A byte at once, or bit by bit ----

  /** A bit moved up to position n. */
  function Up(x: bv32, n: nat): bv32
    requires n < 8
  {
    x << n
  }

  /** The first n bits of a byte, in place. */
  function Low(b: bv8, n: nat): bv32
    requires n <= 8
  {
    if n == 0 then 0 else Xor(Low(b, n - 1), Up(Bit(b, n - 1), n - 1))
  }

  lemma BitDown(x: bv32, n: nat)
    requires n < 8 && (x == 0 || x == 1)
    ensures Shifts(Up(x, n), n) == x
  {
    var y := x << n;
    if n > 0 {
      assert n == 1 || n == 2 || n == 3 || n == 4 || n == 5 || n == 6 || n == 7;
      assert Shifts(y, 1) == y >> 1;
      assert n > 1 ==> Shifts(y, 2) == y >> 2;
      assert n > 2 ==> Shifts(y, 3) == y >> 3;
      assert n > 3 ==> Shifts(y, 4) == y >> 4;
      assert n > 4 ==> Shifts(y, 5) == y >> 5;
      assert n > 5 ==> Shifts(y, 6) == y >> 6;
      assert n > 6 ==> Shifts(y, 7) == y >> 7;
    }
  }

  lemma BitIsBit(b: bv8, i: nat)
    requires i < 8
    ensures Bit(b, i) == 0 || Bit(b, i) == 1
  {}

  /** Adding a byte's bits one at a time is adding them all and then shifting. */
  lemma {:induction false} BitsAtOnce(c: bv32, b: bv8, n: nat)
    requires n <= 8
    ensures BitsIn(c, b, n) == Shifts(Xor(c, Low(b, n)), n)
  {
    hide Shift;
    hide Xor;
    hide Bit;
    hide Up;
    XorZero(c);
    if n > 0 {
      var x, m := Bit(b, n - 1), n - 1;
      BitsAtOnce(c, b, m);
      BitIsBit(b, m);
      BitDown(x, m);
      ShiftsLinear(Xor(c, Low(b, m)), Up(x, m), m);
      XorAssociates(c, Low(b, m), Up(x, m));
    }
  }

  lemma LowIsAll(b: bv8)
    ensures Low(b, 8) == b as bv32
  {
    assert Low(b, 1) == (b & 1) as bv32;
    assert Low(b, 2) == (b & 3) as bv32;
    assert Low(b, 3) == (b & 7) as bv32;
    assert Low(b, 4) == (b & 15) as bv32;
    assert Low(b, 5) == (b & 31) as bv32;
    assert Low(b, 6) == (b & 63) as bv32;
    assert Low(b, 7) == (b & 127) as bv32;
  }

  function Down(c: bv32): bv32 {
    c >> 8
  }

  lemma HighUntouched(c: bv32, b: bv8)
    ensures Xor(c, Widen(b)) >> 8 == Down(c)
  {}

  lemma ByteAtOnce(c: bv32, b: bv8)
    ensures BitsIn(c, b, 8) == Xor(Down(c), Shifts(LowPart(Xor(c, Widen(b))), 8))
  {
    hide Xor;
    hide Shifts;
    hide BitsIn;
    hide LowPart;
    hide Down;
    BitsAtOnce(c, b, 8);
    LowIsAll(b);
    SplitByte(Xor(c, Widen(b)));
    HighUntouched(c, b);
  }

  // ---- As the program computes it ----

  method ShiftOnce(c: bv32) returns (d: bv32)
    ensures d == Shift(c)
  {
    d := if c & 1 == 1 then POLYNOMIAL ^ (c >> 1) else c >> 1;
  }

  method TableEntry(i: bv32) returns (c: bv32)
    ensures c == Shifts(i, 8)
  {
    hide Shift;
    c := i;
    for k := 0 to 8
      invariant c == Shifts(i, k)
    {
      c := ShiftOnce(c);
    }
  }

  function Position(k: bv8): (j: nat)
    ensures j < 256
  {
    k as int
  }

  function ByteAt(j: int): bv8
    requires 0 <= j < 256
  {
    j as bv8
  }

  function Widen(k: bv8): bv32 {
    k as bv32
  }

  function Narrow(x: bv32): bv8 {
    (x & 0xFF) as bv8
  }

  lemma ByteAtPosition(k: bv8)
    ensures ByteAt(Position(k)) == k
  {}

  lemma WidenNarrow(x: bv32)
    ensures Widen(Narrow(x)) == LowPart(x)
  {}

  ghost predicate IsTable(table: seq<bv32>) {
    |table| == 256 && forall j :: 0 <= j < 256 ==> table[j] == Shifts(Widen(ByteAt(j)), 8)
  }

  method BuildTable() returns (table: seq<bv32>)
    ensures IsTable(table)
  {
    hide Shifts;
    hide Widen;
    hide ByteAt;
    var entries := new bv32[256];
    for i := 0 to 256
      invariant forall j :: 0 <= j < i ==> entries[j] == Shifts(Widen(ByteAt(j)), 8)
    {
      var c := TableEntry(Widen(ByteAt(i)));
      entries[i] := c;
    }
    table := entries[..];
  }

  lemma Lookup(table: seq<bv32>, x: bv32)
    requires IsTable(table)
    ensures |table| == 256 && table[Position(Narrow(x))] == Shifts(LowPart(x), 8)
  {
    hide Shifts;
    hide LowPart;
    hide Narrow;
    hide Widen;
    hide Position;
    hide ByteAt;
    ByteAtPosition(Narrow(x));
    WidenNarrow(x);
  }

  method UpdateByte(table: seq<bv32>, crc: bv32, b: bv8) returns (c: bv32)
    requires IsTable(table)
    ensures c == BitsIn(crc, b, 8)
  {
    hide Xor;
    hide Shifts;
    hide BitsIn;
    hide LowPart;
    hide Down;
    hide Widen;
    hide Narrow;
    hide Position;
    hide IsTable;
    var x := Xor(crc, Widen(b));
    ByteAtOnce(crc, b);
    Lookup(table, x);
    c := Xor(Down(crc), table[Position(Narrow(x))]);
  }

  /** The table-driven checksum is the bit-at-a-time one, on every input. */
  method Checksum(data: seq<bv8>) returns (crc: bv32)
    ensures crc == Crc(data)
  {
    hide Xor;
    hide BitsIn;
    hide IsTable;
    var table := BuildTable();
    crc := 0xFFFFFFFF;
    for i := 0 to |data|
      invariant crc == BytesIn(0xFFFFFFFF, data[..i])
    {
      assert data[..i + 1][..i] == data[..i];
      crc := UpdateByte(table, crc, data[i]);
    }
    assert data[..|data|] == data;
    crc := Xor(crc, 0xFFFFFFFF);
  }

  // ---- The published check value ----

  /** One byte in eight steps. */
  lemma EightSteps(c: bv32, b: bv8)
    ensures BitsIn(c, b, 8)
         == BitIn(BitIn(BitIn(BitIn(BitIn(BitIn(BitIn(BitIn(c, b, 0), b, 1), b, 2), b, 3), b, 4), b, 5), b, 6), b, 7)
  {
    hide Shift;
    hide Xor;
    hide Bit;
    assert BitsIn(c, b, 0) == c && BitsIn(c, b, 1) == BitIn(c, b, 0);
    assert BitsIn(c, b, 2) == BitIn(BitIn(c, b, 0), b, 1);
    assert BitsIn(c, b, 4) == BitIn(BitIn(BitsIn(c, b, 2), b, 2), b, 3);
    assert BitsIn(c, b, 6) == BitIn(BitIn(BitsIn(c, b, 4), b, 4), b, 5);
  }

  function BitIn(c: bv32, b: bv8, i: nat): bv32
    requires i < 8
  {
    Shift(Xor(c, Bit(b, i)))
  }

  lemma BytesAppend(c: bv32, data: seq<bv8>, b: bv8)
    ensures BytesIn(c, data + [b]) == BitsIn(BytesIn(c, data), b, 8)
  {
    assert (data + [b])[..|data|] == data;
  }

  /** The digits 1 to 9 in ASCII, on which CRC-32C is published as 0xE3069283. */
  const DIGITS: seq<bv8> := [0x31, 0x32, 0x33, 0x34, 0x35, 0x36, 0x37, 0x38, 0x39]

  /** The register after each of the digits. */
  lemma DigitsIn()
    ensures BitsIn(0xFFFFFFFF, 0x31, 8) == 0x6F0A661C
    ensures BitsIn(0x6F0A661C, 0x32, 8) == 0x8CAA3B9F
    ensures BitsIn(0x8CAA3B9F, 0x33, 8) == 0xEF84D04D
    ensures BitsIn(0xEF84D04D, 0x34, 8) == 0x09C50B11
    ensures BitsIn(0x09C50B11, 0x35, 8) == 0xE72EDCCA
    ensures BitsIn(0xE72EDCCA, 0x36, 8) == 0xBECA8E79
    ensures BitsIn(0xBECA8E79, 0x37, 8) == 0xEDBD6815
    ensures BitsIn(0xEDBD6815, 0x38, 8) == 0x9F787F65
    ensures BitsIn(0x9F787F65, 0x39, 8) == 0x1CF96D7C
  {
    hide BitsIn;
    EightSteps(0xFFFFFFFF, 0x31);
    EightSteps(0x6F0A661C, 0x32);
    EightSteps(0x8CAA3B9F, 0x33);
    EightSteps(0xEF84D04D, 0x34);
    EightSteps(0x09C50B11, 0x35);
    EightSteps(0xE72EDCCA, 0x36);
    EightSteps(0xBECA8E79, 0x37);
    EightSteps(0xEDBD6815, 0x38);
    EightSteps(0x9F787F65, 0x39);
  }

  lemma CheckValue()
    ensures Crc(DIGITS) == 0xE3069283
  {
    hide BitsIn;
    hide BytesIn;
    var d := DIGITS;
    DigitsIn();
    NoBytes(0xFFFFFFFF);
    assert d[..0] == [];
    BytesAppend(0xFFFFFFFF, d[..0], d[0]);
    assert d[..1] == d[..0] + [d[0]];
    BytesAppend(0xFFFFFFFF, d[..1], d[1]);
    assert d[..2] == d[..1] + [d[1]];
    BytesAppend(0xFFFFFFFF, d[..2], d[2]);
    assert d[..3] == d[..2] + [d[2]];
    BytesAppend(0xFFFFFFFF, d[..3], d[3]);
    assert d[..4] == d[..3] + [d[3]];
    BytesAppend(0xFFFFFFFF, d[..4], d[4]);
    assert d[..5] == d[..4] + [d[4]];
    BytesAppend(0xFFFFFFFF, d[..5], d[5]);
    assert d[..6] == d[..5] + [d[5]];
    BytesAppend(0xFFFFFFFF, d[..6], d[6]);
    assert d[..7] == d[..6] + [d[6]];
    BytesAppend(0xFFFFFFFF, d[..7], d[7]);
    assert d[..8] == d[..7] + [d[7]];
    BytesAppend(0xFFFFFFFF, d[..8], d[8]);
    assert d[..9] == d[..8] + [d[8]];
    assert d[..9] == d;
  }

  lemma NoBytes(c: bv32)
    ensures BytesIn(c, []) == c
  {}
}
