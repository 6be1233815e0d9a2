/** The legacy framing: one message per line. */
module LineCodec {
  import opened Bytes
  import opened ByteBuffer

  const NL: byte := 10
  const CR: byte := 13

  /** Position of the first line feed, or the length when there is none. */
  function LineEnd(b: seq<byte>): (n: nat)
    ensures n <= |b| && (forall i :: 0 <= i < n ==> b[i] != NL) && (n < |b| ==> b[n] == NL)
  {
    if b == [] || b[0] == NL then 0 else 1 + LineEnd(b[1..])
  }

  /** One trailing carriage return belongs to the line ending. */
  function Stripped(line: seq<byte>): seq<byte> {
    if line != [] && line[|line| - 1] == CR then line[..|line| - 1] else line
  }

  datatype Drained = Drained(messages: seq<seq<byte>>, rest: seq<byte>)

  /** All messages in the bytes so far; empty lines are skipped. */
  function Drain(b: seq<byte>): Drained
    decreases |b|
  {
    var n := LineEnd(b);
    if n == |b| then Drained([], b)
    else
      var d, line := Drain(b[n + 1..]), Stripped(b[..n]);
      if line == [] then d else d.(messages := [line] + d.messages)
  }

  function Line(message: seq<byte>): seq<byte> {
    message + [NL]
  }

  function EncodeAll(messages: seq<seq<byte>>): seq<byte> {
    if messages == [] then [] else Line(messages[0]) + EncodeAll(messages[1..])
  }

  /** A message the line format can carry. */
  predicate Plain(message: seq<byte>) {
    message != [] && NL !in message && message[|message| - 1] != CR
  }

  lemma LineEndOf(message: seq<byte>, tail: seq<byte>)
    requires NL !in message
    ensures LineEnd(Line(message) + tail) == |message|
  {
    var b := Line(message) + tail;
    assert b[|message|] == NL;
    assert forall i :: 0 <= i < |message| ==> b[i] == message[i];
  }

  lemma LineEndMore(b: seq<byte>, more: seq<byte>)
    requires LineEnd(b) < |b|
    ensures LineEnd(b + more) == LineEnd(b)
  {
    assert forall i :: 0 <= i < |b| ==> (b + more)[i] == b[i];
  }

  /** Where the bytes are cut makes no difference to the messages. */
  lemma {:induction false} DrainMore(b: seq<byte>, more: seq<byte>)
    ensures var d, e := Drain(b), Drain(b + more); var t := Drain(d.rest + more);
      e == t.(messages := d.messages + t.messages)
    decreases |b|
  {
    hide LineEnd;
    hide Stripped;
    var n := LineEnd(b);
    if n == |b| {
      assert [] + Drain(b + more).messages == Drain(b + more).messages;
    } else {
      LineEndMore(b, more);
      assert (b + more)[..n] == b[..n] && (b + more)[n + 1..] == b[n + 1..] + more;
      DrainMore(b[n + 1..], more);
      var d := Drain(b[n + 1..]);
      var t, line := Drain(d.rest + more), Stripped(b[..n]);
      assert [line] + (d.messages + t.messages) == ([line] + d.messages) + t.messages;
    }
  }

  /** Whatever was received, a message is never empty and never holds a line feed. */
  lemma {:induction false} MessagesAreLines(b: seq<byte>)
    ensures forall m :: m in Drain(b).messages ==> m != [] && NL !in m
    decreases |b|
  {
    var n := LineEnd(b);
    if n < |b| {
      MessagesAreLines(b[n + 1..]);
      var line := Stripped(b[..n]);
      assert forall i :: 0 <= i < |line| ==> line[i] == b[i];
      var rest := Drain(b[n + 1..]).messages;
      var all := [line] + rest;
      assert forall m :: m in all ==> m == line || m in rest;
    }
  }

  ghost predicate AllPlain(messages: seq<seq<byte>>) {
    forall i :: 0 <= i < |messages| ==> Plain(messages[i])
  }

  ghost predicate AllLines(messages: seq<seq<byte>>) {
    forall i :: 0 <= i < |messages| ==> messages[i] != [] && NL !in messages[i]
  }

  lemma DrainLine(m: seq<byte>, rest: seq<byte>)
    requires NL !in m
    ensures var d, line := Drain(rest), Stripped(m);
      Drain(Line(m) + rest) == if line == [] then d else d.(messages := [line] + d.messages)
  {
    hide LineEnd;
    LineEndOf(m, rest);
    var b := Line(m) + rest;
    assert b[..|m|] == m && b[|m| + 1..] == rest;
  }

  /** What is left of lines after a round trip. */
  function Received(messages: seq<seq<byte>>): seq<seq<byte>> {
    if messages == [] then []
    else (if Stripped(messages[0]) == [] then [] else [Stripped(messages[0])]) + Received(messages[1..])
  }

  lemma {:induction false} LinesDecode(messages: seq<seq<byte>>)
    requires AllLines(messages)
    ensures Drain(EncodeAll(messages)) == Drained(Received(messages), [])
  {
    hide Stripped;
    if messages != [] {
      DrainLine(messages[0], EncodeAll(messages[1..]));
      hide Drain;
      LinesDecode(messages[1..]);
      assert [] + Received(messages[1..]) == Received(messages[1..]);
    } else {
      assert LineEnd([]) == 0;
    }
  }

  lemma {:induction false} ReceivedExactly(messages: seq<seq<byte>>)
    requires AllLines(messages)
    ensures |Received(messages)| <= |messages| && (Received(messages) == messages <==> AllPlain(messages))
  {
    if messages != [] {
      var m, tail := messages[0], messages[1..];
      ReceivedExactly(tail);
      PlainSplit(messages);
      assert Plain(m) <==> Stripped(m) == m;
      hide Stripped;
      hide AllPlain;
      hide Plain;
      assert messages == [m] + tail;
      assert ([Stripped(m)] + Received(tail))[1..] == Received(tail);
      assert messages[1..] == tail;
    }
  }

  lemma PlainSplit(messages: seq<seq<byte>>)
    requires messages != []
    ensures AllPlain(messages) <==> Plain(messages[0]) && AllPlain(messages[1..])
  {
    assert forall i :: 0 < i < |messages| ==> messages[i] == messages[1..][i - 1];
  }

  /** The round trip holds exactly for messages without line feeds, not empty, not ending in a carriage return. */
  lemma RoundTripExactly(messages: seq<seq<byte>>)
    ensures Drain(EncodeAll(messages)) == Drained(messages, []) <==> AllPlain(messages)
  {
    hide Drain;
    if AllLines(messages) {
      LinesDecode(messages);
      ReceivedExactly(messages);
    } else {
      MessagesAreLines(EncodeAll(messages));
      var i :| 0 <= i < |messages| && !(messages[i] != [] && NL !in messages[i]);
      assert messages[i] in messages && !Plain(messages[i]);
    }
  }

  /** A message that does not come back as it was sent. */
  lemma CarriageReturnLost()
    ensures Drain(EncodeAll([[65, CR]])) == Drained([[65]], [])
  {
    hide Drain;
    var sent: seq<seq<byte>> := [[65, CR]];
    LinesDecode(sent);
    assert Stripped(sent[0]) == [65];
    assert Received(sent[1..]) == [];
  }

  /** What a send asks before it reserves; the codec refuses nothing. */
  function EncodedSize(n: nat): nat {
    n + 1
  }

  lemma EncodedSizeExact(message: seq<byte>)
    ensures |Line(message)| == EncodedSize(|message|)
  {}

  /** decode: the next message, skipping empty lines; the loop consumes the buffer as it goes. */
  method DecodeLine(input: Buffer) returns (found: bool, message: seq<byte>)
    requires input.Valid()
    modifies input
    ensures input.Valid()
    ensures var d := Drain(old(input.Contents()));
      && found == (d.messages != [])
      && (found ==> message == d.messages[0] && Drain(input.Contents()) == d.(messages := d.messages[1..]))
      && (!found ==> input.Contents() == d.rest)
  {
    hide LineEnd;
    hide Stripped;
    message := [];
    ghost var d := Drain(input.Contents());
    while true
      invariant input.Valid() && input.storage == old(input.storage) && Drain(input.Contents()) == d
      decreases |input.Contents()|
    {
      var data := input.Peek();
      var lineLen := FindLineFeed(data);
      if lineLen == |data| {
        return false, [];
      }
      var line := data[..lineLen];
      input.Retrieve(lineLen + 1);
      assert input.Contents() == data[lineLen + 1..];
      if line != [] && line[|line| - 1] == CR {
        line := line[..|line| - 1];
      }
      StrippedOf(data[..lineLen]);
      if line == [] {
        continue;
      }
      return true, line;
    }
  }

  lemma StrippedOf(line: seq<byte>)
    ensures Stripped(line) == if line != [] && line[|line| - 1] == CR then line[..|line| - 1] else line
  {}

  method FindLineFeed(data: seq<byte>) returns (n: nat)
    ensures n == LineEnd(data)
  {
    n := 0;
    while n < |data| && data[n] != NL
      invariant n <= |data| && forall i :: 0 <= i < n ==> data[i] != NL
    {
      n := n + 1;
    }
  }

  method EncodeLine(message: seq<byte>, output: Buffer)
    requires output.Valid()
    modifies output, output.storage
    ensures output.Valid() && output.Contents() == old(output.Contents()) + Line(message)
  {
    output.Append(message);
    output.Append([NL]);
    assert old(output.Contents()) + message + [NL] == old(output.Contents()) + Line(message);
  }
}
