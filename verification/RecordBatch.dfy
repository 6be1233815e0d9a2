/**
  Kafka record batches of magic 2: what the producer encodes and what the
  consumer parses.
*/
module RecordBatch {
  import opened Bytes
  import opened Domain
  import opened Varint
  import Crc32c

  datatype Pair = Pair(key: seq<byte>, value: seq<byte>)

  datatype Record = Record(offset: int, value: seq<byte>)

  const TWO31 := 0x8000_0000
  const TWO32 := 0x1_0000_0000

  // ---- Encoding ----

  /** A length or index as the writer stores it; anything that fits a batch is far below 2^63. */
  function Number(n: nat): (b: seq<byte>)
    ensures |b| >= 1
  {
    if n < TWO63 then Encoded(n) else [0]
  }

  function RecordBody(i: nat, p: Pair): seq<byte> {
    Number(0) + Number(0) + Number(i) + Number(|p.key|) + p.key + Number(|p.value|) + p.value + Number(0)
  }

  function RecordBytes(i: nat, p: Pair): seq<byte> {
    Number(|RecordBody(i, p)|) + RecordBody(i, p)
  }

  /** The records from index i on. */
  function RecordsFrom(pairs: seq<Pair>, i: nat): seq<byte>
    requires i <= |pairs|
    decreases |pairs| - i
  {
    if i == |pairs| then [] else RecordBytes(i, pairs[i]) + RecordsFrom(pairs, i + 1)
  }

  /** Two's complement in 32 bits; a larger count is truncated as the cast does. */
  function I32(v: int): (b: seq<byte>)
    ensures |b| == 4
  {
    Be32(v % TWO32)
  }

  function I64(v: int): (b: seq<byte>)
    ensures |b| == 8
  {
    Be32(v % TWO64 / TWO32) + Be32(v % TWO32)
  }

  function I16(v: int): (b: seq<byte>)
    ensures |b| == 2
  {
    Be16(v % 0x1_0000)
  }

  /** The part the checksum covers: attributes to record count, then the records. */
  function Fixed(count: nat, ts: int): (b: seq<byte>)
    ensures |b| == 36
  {
    I16(0) + I32(count - 1) + I64(ts) + I64(ts) + I64(-1) + I16(-1) + I32(-1)
  }

  function Covered(pairs: seq<Pair>, ts: int): seq<byte> {
    Fixed(|pairs|, ts) + I32(|pairs|) + RecordsFrom(pairs, 0)
  }

  function AsBits(b: seq<byte>): seq<bv8> {
    seq(|b|, i requires 0 <= i < |b| => b[i] as bv8)
  }

  function Unsigned(x: bv32): (v: nat)
    ensures v < TWO32
  {
    x as int
  }

  function CrcOf(b: seq<byte>): (v: nat)
    ensures v < TWO32
  {
    Unsigned(Crc32c.Crc(AsBits(b)))
  }

  function Front(base: i64, length: int, crc: int): (b: seq<byte>)
    ensures |b| == 21
  {
    I64(base) + I32(length) + I32(-1) + [2] + I32(crc)
  }

  /** A batch as the broker hands it out, with the offset it gave the first record; its length counts what follows. */
  function BatchAt(base: i64, pairs: seq<Pair>, ts: int): seq<byte> {
    Front(base, 9 + |Covered(pairs, ts)|, CrcOf(Covered(pairs, ts))) + Covered(pairs, ts)
  }

  /** A batch as the producer sends it. */
  function Batch(pairs: seq<Pair>, ts: int): seq<byte> {
    BatchAt(0, pairs, ts)
  }

  // ---- Parsing ----

  /** `Undefined`: the program would read beyond the zero that ends the bytes. */
  datatype Parse = Parsed(records: seq<Record>) | Refused | Undefined

  datatype Step<T> = Fail | Next(value: T, pos: nat)

  function Signed32(b: seq<byte>, p: nat): int
    requires p + 4 <= |b|
  {
    var v := Read32(b, p);
    if v < TWO31 then v else v - TWO32
  }

  function Signed64(b: seq<byte>, p: nat): int
    requires p + 8 <= |b|
  {
    Signed32(b, p) * TWO32 + Read32(b, p + 4)
  }

  /** A negative length means absent: nothing to skip. */
  function Skip(pos: nat, len: int): nat {
    if len >= 0 then pos + len else pos
  }

  function SkipHeaders(b: seq<byte>, pos: nat, count: int): Step<()>
    decreases count
  {
    if count <= 0 then Next((), pos)
    else match ReadAt(b, pos)
      case Short => Fail
      case Got(keyLen, p) =>
        match ReadAt(b, Skip(p, keyLen))
        case Short => Fail
        case Got(valueLen, q) => SkipHeaders(b, Skip(q, valueLen), count - 1)
  }

  /** n varints in a row; only the last value matters. */
  function LastOf(b: seq<byte>, pos: nat, n: nat): Step<int>
    requires n > 0
    decreases n
  {
    match ReadAt(b, pos)
    case Short => Fail
    case Got(v, p) => if n == 1 then Next(v, p) else LastOf(b, p, n - 1)
  }

  function ValueAt(b: seq<byte>, pos: nat, len: int): seq<byte> {
    if len < 0 || pos > |b| then [] else if pos + len <= |b| then b[pos..pos + len] else b[pos..]
  }

  /** Attributes, timestamp delta and offset delta; key; value; headers. */
  function ParseBody(b: seq<byte>, pos: nat, base: int): Step<Record> {
    match LastOf(b, pos, 3)
    case Fail => Fail
    case Next(delta, p0) =>
      match ReadAt(b, p0)
      case Short => Fail
      case Got(keyLen, p1) =>
        match ReadAt(b, Skip(p1, keyLen))
        case Short => Fail
        case Got(valueLen, p2) =>
          match ReadAt(b, Skip(p2, valueLen))
          case Short => Fail
          case Got(headers, p3) =>
            match SkipHeaders(b, p3, headers)
            case Fail => Fail
            case Next(_, p4) => Next(Record(base + delta, ValueAt(b, p2, valueLen)), p4)
  }

  function ParseRecord(b: seq<byte>, pos: nat, end: nat, base: int): Step<Record> {
    match ReadAt(b, pos)
    case Short => Fail
    case Got(len, p) =>
      if len < 0 || p + len > end then Fail
      else match ParseBody(b, p, base)
        case Fail => Fail
        case Next(rec, _) => Next(rec, p + len)
  }

  function ParseRecords(b: seq<byte>, pos: nat, end: nat, base: int, count: int, out: seq<Record>): Parse
    decreases count
  {
    if count <= 0 then Parsed(out)
    else match ParseRecord(b, pos, end, base)
      case Fail => Refused
      case Next(rec, p) => ParseRecords(b, p, end, base, count - 1, out + [rec])
  }

  /** One turn of the loop over batches: it ends the parse or goes on at a position. */
  datatype Turn = Stop(result: Parse) | Go(pos: nat, records: seq<Record>)

  /**
    A negative length takes the end back; before the first byte it wraps to beyond
    any size.  The byte after the last one may be read and is zero.
  */
  function TurnAt(b: seq<byte>, pos: nat, out: seq<Record>): (t: Turn)
    ensures t.Go? ==> pos + 12 <= |b| && t.pos <= |b|
  {
    if pos + 12 > |b| then Stop(Parsed(out))
    else
      var base, start, z := Signed64(b, pos), pos + 12, b + [0];
      var end := start + Signed32(b, pos + 8);
      if end < 0 || end > |b| then Stop(Refused)
      else if start + 4 > |b| then Stop(Undefined)
      else if z[start + 4] != 2 then Stop(Refused)
      else if start + 48 > |b| then Stop(Undefined)
      else match ParseRecords(b, start + 49, end, base, Signed32(z, start + 45), out)
        case Parsed(out') => Go(end, out')
        case failure => Stop(failure)
  }

  /** What the loop returns if it goes on at most that many times, or None. */
  function ParseWithin(b: seq<byte>, pos: nat, out: seq<Record>, turns: nat): Option<Parse>
    decreases turns
  {
    match TurnAt(b, pos, out)
    case Stop(r) => Some(r)
    case Go(p, out') => if turns == 0 then None else ParseWithin(b, p, out', turns - 1)
  }

  function ParseSet(b: seq<byte>, turns: nat): Option<Parse> {
    if b == [] || b == [0] then Some(Parsed([])) else ParseWithin(b, 0, [], turns)
  }

  // ---- Round trip ----

  lemma NumberReads(b: seq<byte>, pos: nat, n: nat)
    requires HasAt(b, pos, Number(n)) && n < TWO63
    ensures ReadAt(b, pos) == Got(n, pos + |Number(n)|)
  {
    RoundTrip(b, pos, n);
  }

  ghost predicate FitsBatch(pairs: seq<Pair>, ts: int) {
    9 + |Covered(pairs, ts)| < TWO31
  }

  lemma BodyParts(b: seq<byte>, pos: nat, i: nat, p: Pair)
    requires HasAt(b, pos, RecordBody(i, p))
    ensures var p1 := pos + |Number(0)|; var p2 := p1 + |Number(0)|; var p3 := p2 + |Number(i)|;
      var p4 := p3 + |Number(|p.key|)|; var p5 := p4 + |p.key|; var p6 := p5 + |Number(|p.value|)|;
      var p7 := p6 + |p.value|;
      && HasAt(b, pos, Number(0)) && HasAt(b, p1, Number(0)) && HasAt(b, p2, Number(i))
      && HasAt(b, p3, Number(|p.key|)) && HasAt(b, p5, Number(|p.value|))
      && HasAt(b, p6, p.value) && HasAt(b, p7, Number(0))
      && p7 + |Number(0)| == pos + |RecordBody(i, p)|
  {
    hide HasAt;
    hide Number;
    var s1 := Number(0) + Number(0);
    var s2 := s1 + Number(i);
    var s3 := s2 + Number(|p.key|);
    var s4 := s3 + p.key;
    var s5 := s4 + Number(|p.value|);
    var s6 := s5 + p.value;
    HasBoth(b, pos, s6, Number(0));
    HasBoth(b, pos, s5, p.value);
    HasBoth(b, pos, s4, Number(|p.value|));
    HasBoth(b, pos, s3, p.key);
    HasBoth(b, pos, s2, Number(|p.key|));
    HasBoth(b, pos, s1, Number(i));
    HasBoth(b, pos, Number(0), Number(0));
  }

  lemma BodyParses(b: seq<byte>, pos: nat, i: nat, p: Pair, base: int)
    requires HasAt(b, pos, RecordBody(i, p)) && i < TWO63 && |p.key| < TWO63 && |p.value| < TWO63
    ensures ParseBody(b, pos, base) == Next(Record(base + i, p.value), pos + |RecordBody(i, p)|)
  {
    hide HasAt;
    hide Number;
    hide ReadAt;
    hide RecordBody;
    BodyParts(b, pos, i, p);
    var p1 := pos + |Number(0)|;
    var p2 := p1 + |Number(0)|;
    var p3 := p2 + |Number(i)|;
    var p4 := p3 + |Number(|p.key|)|;
    var p5 := p4 + |p.key|;
    var p6 := p5 + |Number(|p.value|)|;
    var p7 := p6 + |p.value|;
    NumberReads(b, pos, 0);
    NumberReads(b, p1, 0);
    NumberReads(b, p2, i);
    assert LastOf(b, p2, 1) == Next(i, p3);
    assert LastOf(b, p1, 2) == Next(i, p3);
    assert LastOf(b, pos, 3) == Next(i, p3);
    NumberReads(b, p3, |p.key|);
    NumberReads(b, p5, |p.value|);
    NumberReads(b, p7, 0);
    assert SkipHeaders(b, p7 + |Number(0)|, 0) == Next((), p7 + |Number(0)|);
    ValueReads(b, p6, p.value);
  }

  lemma ValueReads(b: seq<byte>, pos: nat, value: seq<byte>)
    requires HasAt(b, pos, value)
    ensures ValueAt(b, pos, |value|) == value
  {}

  lemma RecordParses(b: seq<byte>, pos: nat, end: nat, i: nat, p: Pair, base: int)
    requires HasAt(b, pos, RecordBytes(i, p)) && pos + |RecordBytes(i, p)| <= end
    requires |RecordBytes(i, p)| < TWO63 && i < TWO63
    ensures ParseRecord(b, pos, end, base) == Next(Record(base + i, p.value), pos + |RecordBytes(i, p)|)
  {
    hide ReadAt;
    hide ParseBody;
    hide Number;
    var body := RecordBody(i, p);
    assert |p.key| <= |body| && |p.value| <= |body|;
    HasBoth(b, pos, Number(|body|), body);
    NumberReads(b, pos, |body|);
    BodyParses(b, pos + |Number(|body|)|, i, p, base);
  }

  /** The first i records of a batch, at consecutive offsets. */
  function Results(base: int, pairs: seq<Pair>, i: nat): seq<Record>
    requires i <= |pairs|
  {
    seq(i, k requires 0 <= k < i => Record(base + k, pairs[k].value))
  }

  lemma {:induction false} RecordsParse(b: seq<byte>, pos: nat, end: nat, base: int, pairs: seq<Pair>, i: nat,
                                        out: seq<Record>)
    requires i <= |pairs| < TWO63 && HasAt(b, pos, RecordsFrom(pairs, i)) && pos + |RecordsFrom(pairs, i)| <= end
    requires |RecordsFrom(pairs, i)| < TWO63
    ensures ParseRecords(b, pos, end, base, |pairs| - i, out + Results(base, pairs, i))
         == Parsed(out + Results(base, pairs, |pairs|))
    decreases |pairs| - i
  {
    hide ParseRecord;
    hide RecordBytes;
    if i < |pairs| {
      var rec := RecordBytes(i, pairs[i]);
      HasBoth(b, pos, rec, RecordsFrom(pairs, i + 1));
      RecordParses(b, pos, end, i, pairs[i], base);
      assert out + Results(base, pairs, i) + [Record(base + i, pairs[i].value)] == out + Results(base, pairs, i + 1);
      RecordsParse(b, pos + |rec|, end, base, pairs, i + 1, out);
    }
  }

  lemma I32Reads(b: seq<byte>, p: nat, v: nat)
    requires HasAt(b, p, I32(v)) && v < TWO31
    ensures p + 4 <= |b| && Signed32(b, p) == v
  {
    assert v % TWO32 == v;
    Read32At(b, p, v);
  }

  /** The two halves of a 64-bit word in two's complement. */
  lemma Halves(v: i64)
    ensures var high, low := v % TWO64 / TWO32, v % TWO32;
      high < TWO32 && v == (if high < TWO31 then high else high - TWO32) * TWO32 + low
  {
    var u := v % TWO64;
    assert u == if v >= 0 then v else v + TWO64;
    assert u == u / TWO32 * TWO32 + u % TWO32;
    assert TWO64 == TWO32 * TWO32;
    assert u % TWO32 == v % TWO32;
  }

  lemma I64Reads(b: seq<byte>, p: nat, v: i64)
    requires HasAt(b, p, I64(v))
    ensures p + 8 <= |b| && Signed64(b, p) == v
  {
    hide HasAt;
    hide Be32;
    hide Read32;
    var high, low := v % TWO64 / TWO32, v % TWO32;
    Halves(v);
    HasBoth(b, p, Be32(high), Be32(low));
    Read32At(b, p, high);
    Read32At(b, p + 4, low);
  }

  lemma FrontReads(b: seq<byte>, pos: nat, base: i64, length: nat, crc: int)
    requires HasAt(b, pos, Front(base, length, crc)) && length < TWO31
    ensures pos + 21 <= |b| && Signed64(b, pos) == base && Signed32(b, pos + 8) == length && b[pos + 16] == 2
  {
    hide Signed32;
    hide Signed64;
    hide I64;
    hide I32;
    var f1 := I64(base) + I32(length);
    var f2 := f1 + I32(-1);
    HasBoth(b, pos, f2 + [2], I32(crc));
    HasBoth(b, pos, f2, [2]);
    HasBoth(b, pos, f1, I32(-1));
    HasBoth(b, pos, I64(base), I32(length));
    I64Reads(b, pos, base);
    I32Reads(b, pos + 8, length);
    assert b[pos + 16..pos + 17] == [2];
  }

  lemma CoveredReads(b: seq<byte>, pos: nat, pairs: seq<Pair>, ts: int)
    requires HasAt(b, pos, Covered(pairs, ts)) && |pairs| < TWO31
    ensures pos + 40 <= |b| && Signed32(b, pos + 36) == |pairs| && HasAt(b, pos + 40, RecordsFrom(pairs, 0))
    ensures |Covered(pairs, ts)| == 40 + |RecordsFrom(pairs, 0)|
  {
    hide Signed32;
    hide RecordsFrom;
    hide Fixed;
    var f := Fixed(|pairs|, ts);
    HasBoth(b, pos, f + I32(|pairs|), RecordsFrom(pairs, 0));
    HasBoth(b, pos, f, I32(|pairs|));
    I32Reads(b, pos + 36, |pairs|);
  }

  lemma {:induction false} RecordsAreMany(pairs: seq<Pair>, i: nat)
    requires i <= |pairs|
    ensures |RecordsFrom(pairs, i)| >= |pairs| - i
    decreases |pairs| - i
  {
    hide RecordBody;
    if i < |pairs| {
      RecordsAreMany(pairs, i + 1);
    }
  }

  lemma CoveredLength(pairs: seq<Pair>, ts: int)
    ensures |Covered(pairs, ts)| == 40 + |RecordsFrom(pairs, 0)|
  {}

  /** The zero behind the bytes changes no read within them. */
  lemma EndsInZero(b: seq<byte>, p: nat)
    requires p + 4 <= |b|
    ensures Signed32(b + [0], p) == Signed32(b, p)
  {}

  /** The turn at a whole batch header. */
  lemma HeaderTurn(b: seq<byte>, pos: nat, out: seq<Record>, length: nat)
    requires pos + 61 <= |b| && Signed32(b, pos + 8) == length && pos + 12 + length <= |b| && b[pos + 16] == 2
    ensures var r := ParseRecords(b, pos + 61, pos + 12 + length, Signed64(b, pos), Signed32(b, pos + 57), out);
      TurnAt(b, pos, out) == if r.Parsed? then Go(pos + 12 + length, r.records) else Stop(r)
  {
    hide ParseRecords;
    hide Signed64;
    EndsInZero(b, pos + 57);
    hide Signed32;
  }

  /** Wherever a batch stands, one turn of the loop reads all of it. */
  lemma BatchTurn(b: seq<byte>, pos: nat, base: i64, pairs: seq<Pair>, ts: int, out: seq<Record>)
    requires FitsBatch(pairs, ts) && HasAt(b, pos, BatchAt(base, pairs, ts))
    ensures TurnAt(b, pos, out) == Go(pos + |BatchAt(base, pairs, ts)|, out + Results(base, pairs, |pairs|))
  {
    hide Signed32;
    hide Signed64;
    hide Front;
    hide Covered;
    hide ParseRecords;
    hide CrcOf;
    hide HasAt;
    hide TurnAt;
    hide RecordsFrom;
    hide Results;
    var c := Covered(pairs, ts);
    HasBoth(b, pos, Front(base, 9 + |c|, CrcOf(c)), c);
    FrontReads(b, pos, base, 9 + |c|, CrcOf(c));
    RecordsAreMany(pairs, 0);
    CoveredLength(pairs, ts);
    CoveredReads(b, pos + 21, pairs, ts);
    HasFits(b, pos + 61, RecordsFrom(pairs, 0));
    RecordsParse(b, pos + 61, pos + 21 + |c|, base, pairs, 0, out);
    NoResults(base, pairs, out);
    HeaderTurn(b, pos, out, 9 + |c|);
  }

  lemma NoResults(base: int, pairs: seq<Pair>, out: seq<Record>)
    ensures out + Results(base, pairs, 0) == out
  {}

  lemma HasFits(b: seq<byte>, pos: nat, part: seq<byte>)
    requires HasAt(b, pos, part)
    ensures pos + |part| <= |b|
  {}

  /** One batch in a fetched record set. */
  datatype Sent = Sent(base: i64, pairs: seq<Pair>, ts: int)

  /** The batches from index i on, one behind the other. */
  function WireFrom(sent: seq<Sent>, i: nat): seq<byte>
    requires i <= |sent|
    decreases |sent| - i
  {
    if i == |sent| then [] else BatchAt(sent[i].base, sent[i].pairs, sent[i].ts) + WireFrom(sent, i + 1)
  }

  function AllFrom(sent: seq<Sent>, i: nat): seq<Record>
    requires i <= |sent|
    decreases |sent| - i
  {
    if i == |sent| then []
    else Results(sent[i].base, sent[i].pairs, |sent[i].pairs|) + AllFrom(sent, i + 1)
  }

  lemma AtEnd(b: seq<byte>, out: seq<Record>, turns: nat)
    ensures ParseWithin(b, |b|, out, turns) == Some(Parsed(out))
  {}

  lemma GoesOn(b: seq<byte>, pos: nat, out: seq<Record>, turns: nat)
    requires TurnAt(b, pos, out).Go? && turns > 0
    ensures var t := TurnAt(b, pos, out);
      ParseWithin(b, pos, out, turns) == ParseWithin(b, t.pos, t.records, turns - 1)
  {
    hide TurnAt;
  }

  lemma {:induction false} BatchesParse(b: seq<byte>, pos: nat, sent: seq<Sent>, i: nat, out: seq<Record>, turns: nat)
    requires i <= |sent| && turns >= |sent| - i && HasAt(b, pos, WireFrom(sent, i))
    requires pos + |WireFrom(sent, i)| == |b| && forall k :: i <= k < |sent| ==> FitsBatch(sent[k].pairs, sent[k].ts)
    ensures ParseWithin(b, pos, out, turns) == Some(Parsed(out + AllFrom(sent, i)))
    decreases |sent| - i
  {
    hide FitsBatch;
    hide BatchAt;
    hide Results;
    hide HasAt;
    hide TurnAt;
    hide ParseWithin;
    if i == |sent| {
      AtEnd(b, out, turns);
      assert out + AllFrom(sent, i) == out;
    } else {
      var batch, rest := sent[i], WireFrom(sent, i + 1);
      var bytes := BatchAt(batch.base, batch.pairs, batch.ts);
      var read := Results(batch.base, batch.pairs, |batch.pairs|);
      HasBoth(b, pos, bytes, rest);
      BatchTurn(b, pos, batch.base, batch.pairs, batch.ts, out);
      GoesOn(b, pos, out, turns);
      BatchesParse(b, pos + |bytes|, sent, i + 1, out + read, turns - 1);
      assert out + read + AllFrom(sent, i + 1) == out + (read + AllFrom(sent, i + 1));
    }
  }

  /**
    Any number of batches that fit the wire format, one behind the other and at any
    base offsets, parse to exactly their values, in order, each batch at consecutive
    offsets from its own base.
  */
  lemma SetParses(sent: seq<Sent>, turns: nat)
    requires turns >= |sent| && forall k :: 0 <= k < |sent| ==> FitsBatch(sent[k].pairs, sent[k].ts)
    ensures ParseSet(WireFrom(sent, 0), turns) == Some(Parsed(AllFrom(sent, 0)))
  {
    hide FitsBatch;
    hide ParseWithin;
    hide Results;
    hide BatchAt;
    var b := WireFrom(sent, 0);
    if sent != [] {
      BatchLength(sent[0]);
      assert HasAt(b, 0, b);
      BatchesParse(b, 0, sent, 0, [], turns);
      assert [] + AllFrom(sent, 0) == AllFrom(sent, 0);
    }
  }

  lemma BatchLength(batch: Sent)
    ensures |BatchAt(batch.base, batch.pairs, batch.ts)| >= 61
  {}

  /** What the parser skips: the leader epoch, and the fixed fields from the attributes to the base sequence. */
  lemma FixedFieldsAt(b: seq<byte>, pos: nat, count: nat, ts: int)
    requires HasAt(b, pos, Fixed(count, ts))
    ensures HasAt(b, pos, I16(0)) && HasAt(b, pos + 2, I32(count - 1)) && HasAt(b, pos + 6, I64(ts))
    ensures HasAt(b, pos + 14, I64(ts)) && HasAt(b, pos + 22, I64(-1)) && HasAt(b, pos + 30, I16(-1))
    ensures HasAt(b, pos + 32, I32(-1))
  {
    hide HasAt;
    hide I16;
    hide I32;
    hide I64;
    var f1 := I16(0) + I32(count - 1);
    var f2 := f1 + I64(ts);
    var f3 := f2 + I64(ts);
    var f4 := f3 + I64(-1);
    var f5 := f4 + I16(-1);
    HasBoth(b, pos, f5, I32(-1));
    HasBoth(b, pos, f4, I16(-1));
    HasBoth(b, pos, f3, I64(-1));
    HasBoth(b, pos, f2, I64(ts));
    HasBoth(b, pos, f1, I64(ts));
    HasBoth(b, pos, I16(0), I32(count - 1));
  }

  /**
    Every field of a batch stands where the format puts it: the length counts what
    follows it, the checksum covers everything behind itself, and the last offset,
    the timestamps, the absent producer and the record count have their places.
  */
  lemma FieldsInPlace(base: i64, pairs: seq<Pair>, ts: int)
    ensures var b := BatchAt(base, pairs, ts);
      && |b| >= 61 && HasAt(b, 0, I64(base)) && HasAt(b, 8, I32(|b| - 12)) && HasAt(b, 12, I32(-1)) && b[16] == 2
      && HasAt(b, 17, I32(CrcOf(b[21..])))
      && HasAt(b, 21, I16(0)) && HasAt(b, 23, I32(|pairs| - 1)) && HasAt(b, 27, I64(ts)) && HasAt(b, 35, I64(ts))
      && HasAt(b, 43, I64(-1)) && HasAt(b, 51, I16(-1)) && HasAt(b, 53, I32(-1)) && HasAt(b, 57, I32(|pairs|))
      && HasAt(b, 61, RecordsFrom(pairs, 0))
  {
    hide I16;
    hide I32;
    hide I64;
    hide CrcOf;
    hide RecordsFrom;
    hide Fixed;
    var b, c := BatchAt(base, pairs, ts), Covered(pairs, ts);
    assert HasAt(b, 0, b);
    hide HasAt;
    var front := Front(base, 9 + |c|, CrcOf(c));
    HasBoth(b, 0, front, c);
    assert b[21..] == c;
    var f1 := I64(base) + I32(9 + |c|);
    var f2 := f1 + I32(-1);
    HasBoth(b, 0, f2 + [2], I32(CrcOf(c)));
    HasBoth(b, 0, f2, [2]);
    HasBoth(b, 0, f1, I32(-1));
    HasBoth(b, 0, I64(base), I32(9 + |c|));
    MagicAt(b, 16);
    HasBoth(b, 21, Fixed(|pairs|, ts) + I32(|pairs|), RecordsFrom(pairs, 0));
    HasBoth(b, 21, Fixed(|pairs|, ts), I32(|pairs|));
    FixedFieldsAt(b, 21, |pairs|, ts);
  }

  lemma MagicAt(b: seq<byte>, pos: nat)
    requires HasAt(b, pos, [2])
    ensures pos < |b| && b[pos] == 2
  {
    assert b[pos..pos + 1] == [2];
  }

  /** What the producer encodes, the consumer parses to its values at offsets 0, 1, 2, ... */
  lemma BatchParses(pairs: seq<Pair>, ts: int, turns: nat)
    requires FitsBatch(pairs, ts) && turns > 0
    ensures ParseSet(Batch(pairs, ts), turns) == Some(Parsed(Results(0, pairs, |pairs|)))
  {
    hide BatchAt;
    hide ParseSet;
    hide FitsBatch;
    var sent := [Sent(0, pairs, ts)];
    SetParses(sent, turns);
    assert WireFrom(sent, 1) == [] && AllFrom(sent, 1) == [];
    assert WireFrom(sent, 0) == BatchAt(0, pairs, ts) + [] == Batch(pairs, ts);
    assert AllFrom(sent, 0) == Results(0, pairs, |pairs|) + [] == Results(0, pairs, |pairs|);
  }

  // ---- As the program writes it ----

  method WriteNumber(w: ByteWriter, n: nat)
    requires n < TWO63
    modifies w
    ensures w.buf == old(w.buf) + Number(n)
  {
    w.Varint(n);
  }

  method EncodeBody(i: nat, p: Pair) returns (b: seq<byte>)
    requires i < TWO63 && |p.key| < TWO63 && |p.value| < TWO63
    ensures b == RecordBody(i, p)
  {
    hide Number;
    var rec := new ByteWriter();
    WriteNumber(rec, 0);
    assert rec.buf == Number(0);
    WriteNumber(rec, 0);
    WriteNumber(rec, i);
    WriteNumber(rec, |p.key|);
    rec.Append(p.key);
    WriteNumber(rec, |p.value|);
    rec.Append(p.value);
    WriteNumber(rec, 0);
    b := rec.buf;
  }

  method EncodeRecord(i: nat, p: Pair) returns (b: seq<byte>)
    requires i < TWO63 && |RecordBody(i, p)| < TWO63
    ensures b == RecordBytes(i, p)
  {
    hide Number;
    assert |p.key| <= |RecordBody(i, p)| && |p.value| <= |RecordBody(i, p)|;
    hide RecordBody;
    var body := EncodeBody(i, p);
    var record := new ByteWriter();
    WriteNumber(record, |body|);
    assert record.buf == Number(|body|);
    record.Append(body);
    b := record.buf;
  }

  method PatchI32(b: seq<byte>, at: nat, v: int) returns (r: seq<byte>)
    requires at + 4 <= |b|
    ensures r == b[..at] + I32(v) + b[at + 4..]
  {
    var u := v % TWO32;
    r := b[at := u / 0x100 / 0x100 / 0x100];
    r := r[at + 1 := u / 0x100 / 0x100 % 0x100];
    r := r[at + 2 := u / 0x100 % 0x100];
    r := r[at + 3 := u % 0x100];
  }

  lemma {:induction false} RecordsSplit(pairs: seq<Pair>, i: nat)
    requires i < |pairs|
    ensures |RecordBody(i, pairs[i])| <= |RecordsFrom(pairs, i)| <= |RecordsFrom(pairs, 0)|
  {
    hide RecordBody;
    RecordsShrink(pairs, 0, i);
  }

  lemma {:induction false} RecordsShrink(pairs: seq<Pair>, j: nat, i: nat)
    requires j <= i <= |pairs|
    ensures |RecordsFrom(pairs, i)| <= |RecordsFrom(pairs, j)|
    decreases i - j
  {
    hide RecordBytes;
    if j < i {
      RecordsShrink(pairs, j + 1, i);
    }
  }

  method EncodeRecords(pairs: seq<Pair>) returns (records: seq<byte>)
    requires |pairs| < TWO63 && |RecordsFrom(pairs, 0)| < TWO63
    ensures records == RecordsFrom(pairs, 0)
  {
    hide RecordBytes;
    hide RecordBody;
    records := [];
    for i := 0 to |pairs|
      invariant records + RecordsFrom(pairs, i) == RecordsFrom(pairs, 0)
    {
      RecordsSplit(pairs, i);
      var record := EncodeRecord(i, pairs[i]);
      assert records + (record + RecordsFrom(pairs, i + 1)) == (records + record) + RecordsFrom(pairs, i + 1);
      records := records + record;
    }
  }

  lemma Patched(x: seq<byte>, y: seq<byte>, z: seq<byte>, new_: seq<byte>)
    ensures (x + y + z)[..|x|] + new_ + (x + y + z)[|x| + |y|..] == x + new_ + z
  {
    assert (x + y + z)[..|x|] == x && (x + y + z)[|x| + |y|..] == z;
  }

  /** Placeholders first, then the length and the checksum written over them. */
  method EncodeRecordBatch(pairs: seq<Pair>, ts: int) returns (b: seq<byte>)
    requires |pairs| < TWO63 && |RecordsFrom(pairs, 0)| < TWO63
    ensures b == Batch(pairs, ts)
  {
    hide RecordsFrom;
    hide Fixed;
    hide I32;
    hide I64;
    hide CrcOf;
    var records := EncodeRecords(pairs);
    var fixed := FixedFields(|pairs|, ts);
    var covered := fixed + I32(|pairs|) + records;
    var zero: seq<byte> := [0, 0, 0, 0];
    b := I64(0) + zero + (I32(-1) + [2] + zero + covered);
    Patched(I64(0), zero, I32(-1) + [2] + zero + covered, I32(|b| - 12));
    b := PatchI32(b, 8, |b| - 12);
    var crc := Checksum(b, 21, covered);
    ghost var front := I64(0) + I32(9 + |covered|) + I32(-1) + [2];
    assert b == front + zero + covered;
    Patched(front, zero, covered, I32(crc));
    b := PatchI32(b, 17, crc);
  }

  method FixedFields(count: nat, ts: int) returns (b: seq<byte>)
    ensures b == Fixed(count, ts)
  {
    b := I16(0) + I32(count - 1) + I64(ts) + I64(ts) + I64(-1) + I16(-1) + I32(-1);
  }

  method Checksum(b: seq<byte>, from: nat, ghost covered: seq<byte>) returns (crc: nat)
    requires from <= |b| && b[from..] == covered
    ensures crc == CrcOf(covered)
  {
    var bits := Crc32c.Checksum(AsBits(b[from..]));
    crc := Unsigned(bits);
  }

  /** The consumer's loop over batches, watched for so many turns; None if it has not ended by then. */
  method ParseRecordSet(b: seq<byte>, turns: nat) returns (r: Option<Parse>)
    ensures r == ParseSet(b, turns)
  {
    hide ParseRecords;
    hide Signed32;
    hide Signed64;
    if b == [] || b == [0] {
      return Some(Parsed([]));
    }
    var z: seq<byte> := b + [0];
    var out: seq<Record> := [];
    var pos: nat, left := 0, turns;
    while pos + 12 <= |b|
      invariant ParseWithin(b, pos, out, left) == ParseSet(b, turns)
      decreases left
    {
      var base, length := Signed64(b, pos), Signed32(b, pos + 8);
      var start := pos + 12;
      var end := start + length;
      if end < 0 || end > |b| {
        return Some(Refused);
      }
      if start + 4 > |b| {
        return Some(Undefined);
      }
      if z[start + 4] != 2 {
        return Some(Refused);
      }
      if start + 48 > |b| {
        return Some(Undefined);
      }
      var records := ParseRecordLoop(b, start + 49, end, base, Signed32(z, start + 45), out);
      if !records.Parsed? {
        return Some(records);
      }
      if left == 0 {
        return None;
      }
      out, pos, left := records.records, end, left - 1;
    }
    r := Some(Parsed(out));
  }

  method ParseRecordLoop(b: seq<byte>, at: nat, end: nat, base: int, count: int, before: seq<Record>) returns (r: Parse)
    ensures r == ParseRecords(b, at, end, base, count, before)
  {
    hide ParseRecord;
    var out, pos, i := before, at, 0;
    while i < count
      invariant 0 <= i && (i <= count || i == 0)
      invariant ParseRecords(b, pos, end, base, count - i, out) == ParseRecords(b, at, end, base, count, before)
    {
      var step := ParseOne(b, pos, end, base);
      if step.Fail? {
        return Refused;
      }
      out, pos, i := out + [step.value], step.pos, i + 1;
    }
    r := Parsed(out);
  }

  method ParseOne(b: seq<byte>, at: nat, end: nat, base: int) returns (step: Step<Record>)
    ensures step == ParseRecord(b, at, end, base)
  {
    hide ReadAt;
    hide SkipHeaders;
    var ok, pos, recLen := ReadVarint(b, at);
    if !ok || recLen < 0 {
      return Fail;
    }
    var recEnd := pos + recLen;
    if recEnd > end {
      return Fail;
    }
    ghost var p := pos;
    var attributes, tsDelta, offsetDelta, keyLen, valueLen, headerCount;
    ok, pos, attributes := ReadVarint(b, pos);
    if !ok { return Fail; }
    ghost var p' := pos;
    ok, pos, tsDelta := ReadVarint(b, pos);
    if !ok { return Fail; }
    ok, pos, offsetDelta := ReadVarint(b, pos);
    if !ok { return Fail; }
    assert LastOf(b, p', 2) == Next(offsetDelta, pos);
    assert LastOf(b, p, 3) == Next(offsetDelta, pos);
    ok, pos, keyLen := ReadVarint(b, pos);
    if !ok { return Fail; }
    pos := Skip(pos, keyLen);
    ok, pos, valueLen := ReadVarint(b, pos);
    if !ok { return Fail; }
    var value := ValueAt(b, pos, valueLen);
    pos := Skip(pos, valueLen);
    ok, pos, headerCount := ReadVarint(b, pos);
    if !ok { return Fail; }
    var skipped := SkipAll(b, pos, headerCount);
    if !skipped { return Fail; }
    step := Next(Record(base + offsetDelta, value), recEnd);
  }

  method SkipAll(b: seq<byte>, at: nat, count: int) returns (ok: bool)
    ensures ok == SkipHeaders(b, at, count).Next?
  {
    hide ReadAt;
    var pos, h := at, 0;
    while h < count
      invariant 0 <= h && (h <= count || h == 0)
      invariant SkipHeaders(b, pos, count - h) == SkipHeaders(b, at, count)
    {
      var len;
      ok, pos, len := ReadVarint(b, pos);
      if !ok { return false; }
      pos := Skip(pos, len);
      ok, pos, len := ReadVarint(b, pos);
      if !ok { return false; }
      pos := Skip(pos, len);
      h := h + 1;
    }
    ok := true;
  }
}
