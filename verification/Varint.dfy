/**
  Zigzag variable-length integers: seven bits a byte, lowest first, the high
  bit of a byte announcing another.  The writer's shifts and masks on a 64-bit
  word are divisions by 128 here; the reader's `or` joins bits that never
  overlap and is an addition, its left shift drops what passes 64 bits.
*/
module Varint {
  import opened Bytes

  const TWO63 := 0x8000_0000_0000_0000
  const TWO64 := 0x1_0000_0000_0000_0000

  type i64 = x: int | -0x8000_0000_0000_0000 <= x < 0x8000_0000_0000_0000

  /** (v << 1) ^ (v >> 63): small magnitudes, either sign, become small numbers. */
  function ZigZag(v: i64): (u: nat)
    ensures u < TWO64
  {
    if v >= 0 then 2 * v else -2 * v - 1
  }

  function UnZigZag(u: nat): (v: i64)
    requires u < TWO64
    ensures ZigZag(v) == u
  {
    if u % 2 == 1 then -(u / 2) - 1 else u / 2
  }

  function Groups(u: nat): (b: seq<byte>)
    ensures |b| >= 1
  {
    if u < 0x80 then [u] else [u % 0x80 + 0x80] + Groups(u / 0x80)
  }

  function Encoded(v: i64): (b: seq<byte>)
    ensures |b| >= 1
  {
    Groups(ZigZag(v))
  }

  function Pow128(i: nat): (p: nat)
    ensures p > 0
  {
    if i == 0 then 1 else 0x80 * Pow128(i - 1)
  }

  datatype Read = Short | Got(value: i64, pos: nat)

  /** The reader after i bytes: it stops at a byte without the high bit, or after ten bytes. */
  function ReadFrom(data: seq<byte>, pos: nat, i: nat, result: nat): Read
    requires i <= 10 && result < TWO64
    decreases 10 - i
  {
    if i == 10 then Got(UnZigZag(result), pos)
    else if pos >= |data| then Short
    else
      var r := (result + data[pos] as int % 0x80 * Pow128(i)) % TWO64;
      if data[pos] < 0x80 then Got(UnZigZag(r), pos + 1) else ReadFrom(data, pos + 1, i + 1, r)
  }

  function ReadAt(data: seq<byte>, pos: nat): Read {
    ReadFrom(data, pos, 0, 0)
  }

  lemma SplitGroup(u: nat, p: nat)
    ensures u * p == u % 0x80 * p + u / 0x80 * (0x80 * p) && u % 0x80 * p <= u * p
  {
    var q, r := u / 0x80, u % 0x80;
    assert u == 0x80 * q + r;
    assert u * p == (0x80 * q) * p + r * p;
    assert (0x80 * q) * p == q * (0x80 * p);
  }

  /** A value that still has two groups to come at the tenth byte would not fit 64 bits. */
  lemma TenGroups(u: nat)
    requires u >= 0x80
    ensures u * Pow128(9) >= TWO64
  {
    assert Pow128(3) == 0x20_0000 && Pow128(6) == 0x400_0000_0000 && Pow128(9) == 0x8000_0000_0000_0000;
  }

  lemma ReadStep(data: seq<byte>, pos: nat, i: nat, result: nat, r: nat)
    requires pos < |data| && i <= 9 && r == result + data[pos] as int % 0x80 * Pow128(i) < TWO64
    ensures ReadFrom(data, pos, i, result)
      == if data[pos] < 0x80 then Got(UnZigZag(r), pos + 1) else ReadFrom(data, pos + 1, i + 1, r)
  {
    hide Pow128;
    hide UnZigZag;
    assert r % TWO64 == r;
  }

  lemma {:induction false} ReadsGroups(data: seq<byte>, pos: nat, i: nat, result: nat, u: nat)
    requires HasAt(data, pos, Groups(u)) && i <= 9 && u * Pow128(i) + result < TWO64
    ensures ReadFrom(data, pos, i, result) == Got(UnZigZag(u * Pow128(i) + result), pos + |Groups(u)|)
    decreases u
  {
    hide UnZigZag;
    hide ReadFrom;
    var p := Pow128(i);
    assert data[pos] == Groups(u)[0];
    if u >= 0x80 {
      var low, high := u % 0x80, u / 0x80;
      SplitGroup(u, p);
      TenGroups(u);
      ReadStep(data, pos, i, result, result + low * p);
      HasBoth(data, pos, [low + 0x80], Groups(high));
      ReadsGroups(data, pos + 1, i + 1, result + low * p, high);
    } else {
      ReadStep(data, pos, i, result, result + u * p);
    }
  }

  /** Every 64-bit integer reads back, wherever in the data it stands. */
  lemma RoundTrip(data: seq<byte>, pos: nat, v: i64)
    requires HasAt(data, pos, Encoded(v))
    ensures ReadAt(data, pos) == Got(v, pos + |Encoded(v)|)
  {
    ReadsGroups(data, pos, 0, 0, ZigZag(v));
  }

  /** Known encodings: small magnitudes of either sign in one byte, the next group behind the first. */
  lemma KnownEncodings()
    ensures Encoded(0) == [0] && Encoded(-1) == [1] && Encoded(1) == [2] && Encoded(-64) == [0x7F]
    ensures Encoded(64) == [0x80, 1] && Encoded(150) == [0xAC, 2] && Encoded(-65) == [0x81, 1]
  {
    assert Groups(1) == [1] && Groups(2) == [2];
  }

  // ---- As the program writes it ----

  class ByteWriter {
    var buf: seq<byte>

    constructor ()
      ensures buf == []
    {
      buf := [];
    }

    method Append(data: seq<byte>)
      modifies this
      ensures buf == old(buf) + data
    {
      buf := buf + data;
    }

    method Varint(v: i64)
      modifies this
      ensures buf == old(buf) + Encoded(v)
    {
      var u := ZigZag(v);
      while u >= 0x80
        invariant buf + Groups(u) == old(buf) + Encoded(v)
      {
        assert buf + ([u % 0x80 + 0x80] + Groups(u / 0x80)) == (buf + [u % 0x80 + 0x80]) + Groups(u / 0x80);
        buf := buf + [u % 0x80 + 0x80];
        u := u / 0x80;
      }
      buf := buf + [u];
    }
  }

  method ReadVarint(data: seq<byte>, at: nat) returns (ok: bool, pos: nat, out: i64)
    ensures ReadAt(data, at) == if ok then Got(out, pos) else Short
  {
    var result: nat, power: nat := 0, 1;
    pos, out := at, 0;
    for i := 0 to 10
      invariant result < TWO64 && power == Pow128(i)
      invariant ReadAt(data, at) == ReadFrom(data, pos, i, result)
    {
      if pos >= |data| {
        return false, pos, 0;
      }
      var b := data[pos];
      pos := pos + 1;
      result := (result + b as int % 0x80 * power) % TWO64;
      if b < 0x80 {
        return true, pos, UnZigZag(result);
      }
      power := 0x80 * power;
    }
    return true, pos, UnZigZag(result);
  }
}
