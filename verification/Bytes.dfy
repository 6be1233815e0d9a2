/** Bytes and fixed-width big-endian numbers. */
module Bytes {

  type byte = x: int | 0 <= x < 256

  function Be16(v: nat): (b: seq<byte>)
    requires v < 0x1_0000
    ensures |b| == 2
  {
    [v / 0x100, v % 0x100]
  }

  function Be32(v: nat): (b: seq<byte>)
    requires v < 0x1_0000_0000
    ensures |b| == 4
  {
    [v / 0x100 / 0x100 / 0x100, v / 0x100 / 0x100 % 0x100, v / 0x100 % 0x100, v % 0x100]
  }

  function Read16(b: seq<byte>, p: nat): (v: nat)
    requires p + 2 <= |b|
    ensures v < 0x1_0000
  {
    b[p] as int * 0x100 + b[p + 1]
  }

  function Read32(b: seq<byte>, p: nat): (v: nat)
    requires p + 4 <= |b|
    ensures v < 0x1_0000_0000
  {
    ((b[p] as int * 0x100 + b[p + 1]) * 0x100 + b[p + 2]) * 0x100 + b[p + 3]
  }

  /** The most significant byte comes first. */
  lemma BigEndian()
    ensures Be16(0x0102) == [1, 2] && Be32(0x01020304) == [1, 2, 3, 4]
  {}

  /** `part` stands in `b` at position p. */
  ghost predicate HasAt(b: seq<byte>, p: nat, part: seq<byte>) {
    p + |part| <= |b| && b[p..p + |part|] == part
  }

  lemma HasBoth(b: seq<byte>, p: nat, x: seq<byte>, y: seq<byte>)
    ensures HasAt(b, p, x + y) <==> HasAt(b, p, x) && HasAt(b, p + |x|, y)
  {
    if p + |x| + |y| <= |b| {
      var xy := b[p..p + |x + y|];
      assert xy[..|x|] == b[p..p + |x|] && xy[|x|..] == b[p + |x|..p + |x| + |y|];
      assert xy == xy[..|x|] + xy[|x|..];
    }
  }

  lemma LowDigit(v: nat, high: nat, low: byte)
    ensures v == high * 0x100 + low <==> v / 0x100 == high && v % 0x100 == low
  {}

  lemma Read16At(b: seq<byte>, p: nat, v: nat)
    requires v < 0x1_0000
    ensures HasAt(b, p, Be16(v)) <==> p + 2 <= |b| && Read16(b, p) == v
  {
    if p + 2 <= |b| {
      assert b[p..p + 2] == [b[p], b[p + 1]];
      LowDigit(v, b[p], b[p + 1]);
    }
  }

  lemma Read32At(b: seq<byte>, p: nat, v: nat)
    requires v < 0x1_0000_0000
    ensures HasAt(b, p, Be32(v)) <==> p + 4 <= |b| && Read32(b, p) == v
  {
    if p + 4 <= |b| {
      var h1 := b[p] as int * 0x100 + b[p + 1];
      var h2 := h1 * 0x100 + b[p + 2];
      assert b[p..p + 4] == [b[p], b[p + 1], b[p + 2], b[p + 3]];
      LowDigit(v, h2, b[p + 3]);
      LowDigit(v / 0x100, h1, b[p + 2]);
      LowDigit(v / 0x100 / 0x100, b[p], b[p + 1]);
    }
  }
}
