/**
  The v2 binary framing: a 20-byte header and a body, decoded from whatever
  bytes have arrived so far.
*/
module FrameCodec {
  import opened Bytes
  import opened ByteBuffer

  type u16 = x: int | 0 <= x < 0x1_0000
  type u32 = x: int | 0 <= x < 0x1_0000_0000

  const MAGIC: u32 := 0x4D434854
  const VERSION: byte := 2
  const HEADER_LENGTH: u16 := 20
  const HARD_MAX_BODY: u32 := 16 * 1024 * 1024
  const CONTENT_TYPE_JSON: byte := 1

  datatype Frame = Frame(
    magic: u32, version: byte, flags: byte, headerLength: u16, bodyLength: u32,
    messageType: u16, contentType: byte, reserved: byte, requestId: u32, body: seq<byte>)

  datatype DecodeResult = NeedMore | FrameReady(frame: Frame) | UnsupportedVersion | ProtocolError

  datatype EncodeResult = Ok | TooLarge | InvalidFrame

  /** The configured limit never passes the hard one. */
  function MaxBody(configured: u32): u32 {
    if configured < HARD_MAX_BODY then configured else HARD_MAX_BODY
  }

  function Header(f: Frame): (b: seq<byte>)
    ensures |b| == 20
  {
    Be32(f.magic) + [f.version, f.flags] + Be16(f.headerLength) + Be32(f.bodyLength)
    + Be16(f.messageType) + [f.contentType, f.reserved] + Be32(f.requestId)
  }

  function Wire(f: Frame): seq<byte> {
    Header(f) + f.body
  }

  function EncodeResultOf(max: u32, f: Frame): EncodeResult {
    if f.magic != MAGIC || f.version != VERSION || f.headerLength != HEADER_LENGTH || f.flags != 0
       || f.reserved != 0 || f.contentType != CONTENT_TYPE_JSON then InvalidFrame
    else if f.bodyLength != |f.body| then InvalidFrame
    else if |f.body| > max then TooLarge
    else Ok
  }

  /** The header fields of the first 20 bytes, with any body. */
  function ReadHeader(b: seq<byte>, body: seq<byte>): Frame
    requires |b| >= 20
  {
    Frame(Read32(b, 0), b[4], b[5], Read16(b, 6), Read32(b, 8), Read16(b, 12), b[14], b[15], Read32(b, 16), body)
  }

  function Decode(max: u32, b: seq<byte>): DecodeResult {
    if |b| < HEADER_LENGTH then NeedMore
    else
      var h := ReadHeader(b, []);
      if h.magic != MAGIC then ProtocolError
      else if h.version != VERSION then UnsupportedVersion
      else if h.headerLength != HEADER_LENGTH then ProtocolError
      else if h.flags != 0 then ProtocolError
      else if h.reserved != 0 then ProtocolError
      else if h.bodyLength > max then ProtocolError
      else if h.contentType != CONTENT_TYPE_JSON then ProtocolError
      else if |b| < HEADER_LENGTH as int + h.bodyLength then NeedMore
      else FrameReady(h.(body := b[20..20 + h.bodyLength]))
  }

  // ---- Decode is the exact inverse of encode ----

  lemma PairAt(b: seq<byte>, p: nat, x: byte, y: byte)
    ensures HasAt(b, p, [x, y]) <==> p + 2 <= |b| && b[p] == x && b[p + 1] == y
  {
    if p + 2 <= |b| {
      assert b[p..p + 2] == [b[p], b[p + 1]];
    }
  }

  lemma HeaderAt(b: seq<byte>, f: Frame)
    ensures HasAt(b, 0, Header(f)) <==> |b| >= 20 && ReadHeader(b, f.body) == f
  {
    hide HasAt;
    hide Read32;
    hide Read16;
    hide Be32;
    hide Be16;
    var p0 := Be32(f.magic);
    var p1 := p0 + [f.version, f.flags];
    var p2 := p1 + Be16(f.headerLength);
    var p3 := p2 + Be32(f.bodyLength);
    var p4 := p3 + Be16(f.messageType);
    var p5 := p4 + [f.contentType, f.reserved];
    HasBoth(b, 0, p5, Be32(f.requestId));
    HasBoth(b, 0, p4, [f.contentType, f.reserved]);
    HasBoth(b, 0, p3, Be16(f.messageType));
    HasBoth(b, 0, p2, Be32(f.bodyLength));
    HasBoth(b, 0, p1, Be16(f.headerLength));
    HasBoth(b, 0, p0, [f.version, f.flags]);
    Read32At(b, 0, f.magic);
    PairAt(b, 4, f.version, f.flags);
    Read16At(b, 6, f.headerLength);
    Read32At(b, 8, f.bodyLength);
    Read16At(b, 12, f.messageType);
    PairAt(b, 14, f.contentType, f.reserved);
    Read32At(b, 16, f.requestId);
  }

  /** Where each field stands in the header. */
  lemma HeaderLayout(f: Frame)
    ensures var b := Header(f);
      && b[0..4] == Be32(f.magic) && b[4] == f.version && b[5] == f.flags && b[6..8] == Be16(f.headerLength)
      && b[8..12] == Be32(f.bodyLength) && b[12..14] == Be16(f.messageType)
      && b[14] == f.contentType && b[15] == f.reserved && b[16..20] == Be32(f.requestId)
  {}

  /** A frame is decoded exactly when its encoding stands at the front. */
  lemma DecodeExactly(max: u32, b: seq<byte>, f: Frame)
    ensures Decode(max, b) == FrameReady(f) <==> EncodeResultOf(max, f) == Ok && Wire(f) <= b
  {
    hide Header;
    hide Read32;
    hide Read16;
    HeaderAt(b, f);
    HasBoth(b, 0, Header(f), f.body);
    assert Wire(f) <= b <==> HasAt(b, 0, Wire(f));
    if Wire(f) <= b {
      assert b[20..20 + |f.body|] == f.body;
    }
  }

  /** More bytes never change a verdict already reached. */
  lemma DecodeStable(max: u32, b: seq<byte>, more: seq<byte>)
    requires Decode(max, b) != NeedMore
    ensures Decode(max, b + more) == Decode(max, b)
  {
    var c := b + more;
    assert forall i :: 0 <= i < 20 ==> c[i] == b[i];
    assert ReadHeader(c, []) == ReadHeader(b, []);
    if Decode(max, b).FrameReady? {
      var n := ReadHeader(b, []).bodyLength;
      assert c[20..20 + n] == b[20..20 + n];
    }
  }

  /** The frames the codec encodes, field by field. */
  lemma EncodableExactly(max: u32, f: Frame)
    ensures EncodeResultOf(max, f) == Ok
       <==> |f.body| <= max && |f.body| < 0x1_0000_0000
            && f == Frame(0x4D434854, 2, 0, 20, |f.body|, f.messageType, 1, 0, f.requestId, f.body)
    ensures EncodeResultOf(max, f) == TooLarge
       <==> max < |f.body| < 0x1_0000_0000
            && f == Frame(0x4D434854, 2, 0, 20, |f.body|, f.messageType, 1, 0, f.requestId, f.body)
  {}

  // ---- Every verdict, exactly ----

  /** Some frame the codec encodes begins with these bytes and goes on behind them. */
  ghost predicate Begins(max: u32, b: seq<byte>) {
    exists f :: EncodeResultOf(max, f) == Ok && b < Wire(f)
  }

  /** Some such frame stands whole at the front. */
  ghost predicate Stands(max: u32, b: seq<byte>) {
    exists f :: EncodeResultOf(max, f) == Ok && Wire(f) <= b
  }

  /**
    The decoder waits exactly while the header is short or some valid frame is
    incomplete, reports the version exactly when the magic number is right and the
    version byte is not, and every other header that begins no valid frame is an
    error.
  */
  lemma VerdictsExactly(max: u32, b: seq<byte>)
    ensures Decode(max, b).FrameReady? <==> Stands(max, b)
    ensures Decode(max, b) == NeedMore <==> |b| < 20 || Begins(max, b)
    ensures Decode(max, b) == UnsupportedVersion <==> |b| >= 20 && Be32(MAGIC) <= b && b[4] != VERSION
    ensures Decode(max, b) == ProtocolError
       <==> |b| >= 20 && !Begins(max, b) && !Stands(max, b) && (!(Be32(MAGIC) <= b) || b[4] == VERSION)
  {
    hide Decode;
    hide EncodeResultOf;
    hide Wire;
    ReadyStands(max, b);
    WaitsBegins(max, b);
    VersionExactly(max, b);
    StandsOrBegins(max, b);
    if Decode(max, b).FrameReady? {
      FrameLength(max, b);
    }
  }

  lemma FrameLength(max: u32, b: seq<byte>)
    requires Decode(max, b).FrameReady?
    ensures |b| >= 20
  {}

  lemma ReadyStands(max: u32, b: seq<byte>)
    ensures Decode(max, b).FrameReady? <==> Stands(max, b)
  {
    hide Decode;
    hide EncodeResultOf;
    hide Wire;
    if Decode(max, b).FrameReady? {
      DecodeExactly(max, b, Decode(max, b).frame);
    }
    if Stands(max, b) {
      var f :| EncodeResultOf(max, f) == Ok && Wire(f) <= b;
      DecodeExactly(max, b, f);
    }
  }

  /** A frame that begins here is neither ready nor faulty yet. */
  lemma BeginsWaits(max: u32, b: seq<byte>, f: Frame)
    requires EncodeResultOf(max, f) == Ok && b < Wire(f)
    ensures Decode(max, b) == NeedMore
  {
    hide Decode;
    hide EncodeResultOf;
    hide Wire;
    var more := Wire(f)[|b|..];
    assert b + more == Wire(f);
    DecodeExactly(max, Wire(f), f);
    if Decode(max, b) != NeedMore {
      DecodeStable(max, b, more);
      DecodeExactly(max, b, f);
      assert false;
    }
  }

  /** A sound header whose body is still missing, filled up with any bytes, is a frame. */
  lemma WaitsBegins(max: u32, b: seq<byte>)
    ensures Decode(max, b) == NeedMore <==> |b| < 20 || Begins(max, b)
  {
    if Decode(max, b) == NeedMore && |b| >= 20 {
      var h := ReadHeader(b, []);
      var body := b[20..] + seq(20 + h.bodyLength - |b|, _ => 0);
      var f := h.(body := body);
      assert EncodeResultOf(max, f) == Ok;
      HeaderAt(b, f);
      hide Header;
      assert Header(f) + b[20..] == b;
      assert Wire(f) == b + seq(20 + h.bodyLength - |b|, _ => 0);
      assert Begins(max, b);
    }
    if Begins(max, b) {
      var f :| EncodeResultOf(max, f) == Ok && b < Wire(f);
      BeginsWaits(max, b, f);
    }
  }

  lemma VersionExactly(max: u32, b: seq<byte>)
    ensures Decode(max, b) == UnsupportedVersion <==> |b| >= 20 && Be32(MAGIC) <= b && b[4] != VERSION
  {
    hide Be32;
    hide Read32;
    Read32At(b, 0, MAGIC);
    assert HasAt(b, 0, Be32(MAGIC)) <==> Be32(MAGIC) <= b;
  }

  lemma StandsOrBegins(max: u32, b: seq<byte>)
    ensures Stands(max, b) || (|b| >= 20 && Begins(max, b)) ==> |b| >= 20 && Be32(MAGIC) <= b && b[4] == VERSION
  {
    hide Be32;
    hide Read32;
    hide Read16;
    hide Stands;
    hide Begins;
    ReadyStands(max, b);
    WaitsBegins(max, b);
    Read32At(b, 0, MAGIC);
    assert HasAt(b, 0, Be32(MAGIC)) <==> Be32(MAGIC) <= b;
  }

  // ---- The message loop ----

  datatype Status = Open | Failed(error: DecodeResult)

  /** Messages handed up, bytes left over, and whether the connection was closed for an error. */
  datatype Drained = Drained(messages: seq<seq<byte>>, rest: seq<byte>, status: Status)

  function Drain(max: u32, b: seq<byte>): Drained
    decreases |b|
  {
    match Decode(max, b)
    case NeedMore => Drained([], b, Open)
    case FrameReady(f) =>
      var d := Drain(max, b[20 + |f.body|..]);
      d.(messages := [f.body] + d.messages)
    case e => Drained([], b, Failed(e))
  }

  /** What the loop does with each chunk as it arrives; a closed connection reads no more. */
  function Feed(max: u32, d: Drained, chunk: seq<byte>): Drained {
    if d.status.Failed? then d
    else
      var d' := Drain(max, d.rest + chunk);
      d'.(messages := d.messages + d'.messages)
  }

  function FeedAll(max: u32, chunks: seq<seq<byte>>): Drained {
    if chunks == [] then Drained([], [], Open)
    else Feed(max, FeedAll(max, chunks[..|chunks| - 1]), chunks[|chunks| - 1])
  }

  function Concat(chunks: seq<seq<byte>>): seq<byte> {
    if chunks == [] then [] else Concat(chunks[..|chunks| - 1]) + chunks[|chunks| - 1]
  }

  /** One turn of the loop. */
  lemma DrainStep(max: u32, b: seq<byte>)
    ensures var r := Decode(max, b);
      && (r == NeedMore ==> Drain(max, b) == Drained([], b, Open))
      && (r == UnsupportedVersion || r == ProtocolError ==> Drain(max, b) == Drained([], b, Failed(r)))
      && (r.FrameReady? ==> 20 + |r.frame.body| <= |b|)
      && (r.FrameReady? ==>
            var d := Drain(max, b[20 + |r.frame.body|..]); Drain(max, b) == d.(messages := [r.frame.body] + d.messages))
  {
    hide Decode;
    ReadyLength(max, b);
  }

  lemma ReadyLength(max: u32, b: seq<byte>)
    ensures Decode(max, b).FrameReady? ==> 20 + |Decode(max, b).frame.body| <= |b|
  {}

  lemma {:induction false} DrainMore(max: u32, b: seq<byte>, more: seq<byte>)
    ensures var d, e := Drain(max, b), Drain(max, b + more);
      if d.status.Failed? then e == d.(rest := d.rest + more)
      else var t := Drain(max, d.rest + more); e == t.(messages := d.messages + t.messages)
    decreases |b|
  {
    hide Decode;
    ReadyLength(max, b);
    match Decode(max, b)
    case NeedMore =>
      var t := Drain(max, b + more);
      assert [] + t.messages == t.messages;
    case FrameReady(f) =>
      DecodeStable(max, b, more);
      var n := 20 + |f.body|;
      assert (b + more)[n..] == b[n..] + more;
      DrainMore(max, b[n..], more);
      var d := Drain(max, b[n..]);
      if !d.status.Failed? {
        var t := Drain(max, d.rest + more);
        assert [f.body] + (d.messages + t.messages) == ([f.body] + d.messages) + t.messages;
      }
    case e => DecodeStable(max, b, more);
  }

  /**
    However the stream is cut into chunks, the loop hands up the same messages
    and fails, if at all, on the same error as on the whole stream at once.
  */
  lemma {:induction false} ChunkingIrrelevant(max: u32, chunks: seq<seq<byte>>)
    ensures var d, e := FeedAll(max, chunks), Drain(max, Concat(chunks));
      && d.messages == e.messages && d.status == e.status && (d.status == Open ==> d.rest == e.rest)
  {
    if chunks != [] {
      var before, last := chunks[..|chunks| - 1], chunks[|chunks| - 1];
      ChunkingIrrelevant(max, before);
      DrainMore(max, Concat(before), last);
    }
  }

  lemma HandedUp(before: seq<seq<byte>>, body: seq<byte>, rest: seq<seq<byte>>)
    ensures before + ([body] + rest) == (before + [body]) + rest
  {}

  lemma NoneLeft(messages: seq<seq<byte>>)
    ensures messages + [] == messages
  {}

  // ---- Round trip ----

  /** BinaryFrameCodec: a message as the body of a fixed header. */
  function FrameOf(message: seq<byte>): Frame
    requires |message| < 0x1_0000_0000
  {
    Frame(MAGIC, VERSION, 0, HEADER_LENGTH, |message|, 1, CONTENT_TYPE_JSON, 0, 0, message)
  }

  const SIZE_MAX := 0xFFFF_FFFF_FFFF_FFFF

  /** What a send asks before it reserves: a body beyond the limit has the impossible size. */
  function EncodedSize(max: u32, n: nat): nat {
    if n > max then SIZE_MAX else HEADER_LENGTH as int + n
  }

  /** BinaryFrameCodec: the length is tested before the header field is filled. */
  function MessageResultOf(max: u32, message: seq<byte>): EncodeResult {
    if |message| > max then TooLarge else EncodeResultOf(max, FrameOf(message))
  }

  /** The size announced is the size produced, and a body that will be refused is announced as such. */
  lemma EncodedSizeExact(max: u32, message: seq<byte>)
    ensures MessageResultOf(max, message) == if EncodedSize(max, |message|) == SIZE_MAX then TooLarge else Ok
    ensures EncodedSize(max, |message|) != SIZE_MAX ==>
      |message| <= max && |Wire(FrameOf(message))| == EncodedSize(max, |message|)
  {
    hide Header;
    if |message| <= max {
      assert |Wire(FrameOf(message))| == 20 + |message|;
    }
  }

  predicate Fits(max: u32, messages: seq<seq<byte>>) {
    forall i :: 0 <= i < |messages| ==> |messages[i]| <= max
  }

  function EncodeAll(max: u32, messages: seq<seq<byte>>): seq<byte>
    requires Fits(max, messages)
  {
    if messages == [] then [] else Wire(FrameOf(messages[0])) + EncodeAll(max, messages[1..])
  }

  /** Concatenated encodings decode to the original messages, with nothing left over. */
  lemma {:induction false} EncodingsDecode(max: u32, messages: seq<seq<byte>>)
    requires Fits(max, messages)
    ensures Drain(max, EncodeAll(max, messages)) == Drained(messages, [], Open)
  {
    hide Decode;
    hide Wire;
    EmptyNeedsMore(max);
    if messages != [] {
      var f, rest := FrameOf(messages[0]), EncodeAll(max, messages[1..]);
      WireFront(max, f, rest);
      EncodingsDecode(max, messages[1..]);
      assert [messages[0]] + messages[1..] == messages;
    }
  }

  lemma EmptyNeedsMore(max: u32)
    ensures Decode(max, []) == NeedMore
  {}

  lemma WireFront(max: u32, f: Frame, rest: seq<byte>)
    requires EncodeResultOf(max, f) == Ok
    ensures Decode(max, Wire(f) + rest) == FrameReady(f)
    ensures 20 + |f.body| <= |Wire(f) + rest| && (Wire(f) + rest)[20 + |f.body|..] == rest
  {
    hide Header;
    hide Decode;
    DecodeExactly(max, Wire(f) + rest, f);
  }

  // ---- The codec as the program writes it ----

  method WriteBe16(p: array<byte>, at: nat, v: u16)
    requires at + 2 <= p.Length
    modifies p
    ensures p[..at + 2] == old(p[..at]) + Be16(v)
  {
    p[at], p[at + 1] := v / 0x100, v % 0x100;
  }

  method WriteBe32(p: array<byte>, at: nat, v: u32)
    requires at + 4 <= p.Length
    modifies p
    ensures p[..at + 4] == old(p[..at]) + Be32(v)
  {
    p[at], p[at + 1] := v / 0x100 / 0x100 / 0x100, v / 0x100 / 0x100 % 0x100;
    p[at + 2], p[at + 3] := v / 0x100 % 0x100, v % 0x100;
  }

  method WritePair(p: array<byte>, at: nat, x: byte, y: byte)
    requires at + 2 <= p.Length
    modifies p
    ensures p[..at + 2] == old(p[..at]) + [x, y]
  {
    p[at], p[at + 1] := x, y;
  }

  class StreamCodec {
    const maxBodyLength: u32

    constructor (configured: u32)
      ensures maxBodyLength == MaxBody(configured)
    {
      maxBodyLength := if configured < HARD_MAX_BODY then configured else HARD_MAX_BODY;
    }

    /** Consumes a complete frame, or nothing. */
    method DecodeFrame(input: Buffer) returns (r: DecodeResult)
      requires input.Valid()
      modifies input
      ensures input.Valid() && input.storage == old(input.storage) && r == Decode(maxBodyLength, old(input.Contents()))
      ensures input.Contents()
           == if r.FrameReady? then old(input.Contents())[20 + |r.frame.body|..] else old(input.Contents())
    {
      hide Read32;
      hide Read16;
      var n := input.ReadableBytes();
      if n < HEADER_LENGTH {
        return NeedMore;
      }
      var p := input.Peek();
      var h := ReadHeader(p, []);
      if h.magic != MAGIC {
        return ProtocolError;
      }
      if h.version != VERSION {
        return UnsupportedVersion;
      }
      if h.headerLength != HEADER_LENGTH {
        return ProtocolError;
      }
      if h.flags != 0 || h.reserved != 0 || h.bodyLength > maxBodyLength || h.contentType != CONTENT_TYPE_JSON {
        return ProtocolError;
      }
      if n < HEADER_LENGTH as int + h.bodyLength {
        return NeedMore;
      }
      input.Retrieve(HEADER_LENGTH as int + h.bodyLength);
      r := FrameReady(h.(body := p[20..20 + h.bodyLength]));
    }

    method WriteHeader(f: Frame) returns (header: array<byte>)
      ensures fresh(header) && header[..] == Header(f)
    {
      hide Be32;
      hide Be16;
      header := new byte[20](i => 0);
      WriteBe32(header, 0, f.magic);
      assert header[..4] == Be32(f.magic);
      WritePair(header, 4, f.version, f.flags);
      WriteBe16(header, 6, f.headerLength);
      WriteBe32(header, 8, f.bodyLength);
      WriteBe16(header, 12, f.messageType);
      WritePair(header, 14, f.contentType, f.reserved);
      WriteBe32(header, 16, f.requestId);
      assert header[..] == header[..20];
    }

    method EncodeFrame(f: Frame, output: Buffer) returns (r: EncodeResult)
      requires output.Valid()
      modifies output, output.storage
      ensures output.Valid() && r == EncodeResultOf(maxBodyLength, f)
      ensures output.Contents() == old(output.Contents()) + (if r == Ok then Wire(f) else [])
    {
      hide Header;
      r := EncodeResultOf(maxBodyLength, f);
      if r != Ok {
        return;
      }
      var header := WriteHeader(f);
      output.Append(header[..]);
      if f.body != [] {
        output.Append(f.body);
      }
      assert old(output.Contents()) + Header(f) + f.body == old(output.Contents()) + Wire(f);
    }

    /** BinaryFrameCodec: encodes a message as the body of a fixed header. */
    method EncodeMessage(message: seq<byte>, output: Buffer) returns (r: EncodeResult)
      requires output.Valid()
      modifies output, output.storage
      ensures output.Valid() && r == MessageResultOf(maxBodyLength, message)
      ensures r == Ok ==> |message| <= maxBodyLength
      ensures output.Contents() == old(output.Contents()) + (if r == Ok then Wire(FrameOf(message)) else [])
    {
      hide Wire;
      if |message| > maxBodyLength {
        return TooLarge;
      }
      r := EncodeFrame(FrameOf(message), output);
    }

    /** The loop that serves a connection each time bytes have arrived. */
    method OnMessage(input: Buffer) returns (messages: seq<seq<byte>>, status: Status)
      requires input.Valid()
      modifies input
      ensures input.Valid() && input.storage == old(input.storage)
      ensures Drained(messages, input.Contents(), status) == Drain(maxBodyLength, old(input.Contents()))
    {
      hide Decode;
      hide Drain;
      messages := [];
      ghost var all := Drain(maxBodyLength, input.Contents());
      while true
        invariant input.Valid() && input.storage == old(input.storage)
        invariant var d := Drain(maxBodyLength, input.Contents()); all == d.(messages := messages + d.messages)
        decreases |input.Contents()|
      {
        DrainStep(maxBodyLength, input.Contents());
        var r := DecodeFrame(input);
        match r
        case FrameReady(f) =>
          HandedUp(messages, f.body, Drain(maxBodyLength, input.Contents()).messages);
          messages := messages + [f.body];
        case NeedMore =>
          NoneLeft(messages);
          return messages, Open;
        case e =>
          NoneLeft(messages);
          return messages, Failed(e);
      }
    }

    /** Chunks as they come off the socket, until the connection is closed for an error. */
    method Serve(input: Buffer, chunks: seq<seq<byte>>) returns (messages: seq<seq<byte>>, status: Status)
      requires input.Valid() && input.Contents() == []
      modifies input, input.storage
      ensures input.Valid()
      ensures var whole := Drain(maxBodyLength, Concat(chunks)); messages == whole.messages && status == whole.status
    {
      hide Decode;
      hide Drain;
      messages, status := [], Open;
      for i := 0 to |chunks|
        invariant input.Valid() && (input.storage == old(input.storage) || fresh(input.storage))
        invariant status == Open && Drained(messages, input.Contents(), Open) == FeedAll(maxBodyLength, chunks[..i])
      {
        assert chunks[..i + 1][..i] == chunks[..i];
        input.Append(chunks[i]);
        var more, st := OnMessage(input);
        messages, status := messages + more, st;
        assert FeedAll(maxBodyLength, chunks[..i + 1]) == Drained(messages, input.Contents(), status);
        ChunkingIrrelevant(maxBodyLength, chunks[..i + 1]);
        if st.Failed? {
          FailedForGood(maxBodyLength, chunks, i + 1);
          return;
        }
      }
      assert chunks[..|chunks|] == chunks;
      ChunkingIrrelevant(maxBodyLength, chunks);
    }
  }

  /** After an error the rest of the stream makes no difference. */
  lemma {:induction false} FailedForGood(max: u32, chunks: seq<seq<byte>>, n: nat)
    requires n <= |chunks| && FeedAll(max, chunks[..n]).status.Failed?
    ensures var d := FeedAll(max, chunks[..n]); FeedAll(max, chunks) == d
    ensures var d, whole := FeedAll(max, chunks[..n]), Drain(max, Concat(chunks));
      d.messages == whole.messages && d.status == whole.status
  {
    if n == |chunks| {
      assert chunks[..n] == chunks;
    } else {
      var before := chunks[..|chunks| - 1];
      assert before[..n] == chunks[..n];
      FailedForGood(max, before, n);
    }
    ChunkingIrrelevant(max, chunks);
  }
}
