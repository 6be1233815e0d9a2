/**
  The output codecs seen from the bounded send: what a codec would refuse is
  announced by its size before anything is reserved.
*/
module OutputCodecs {
  import opened Bytes
  import opened Backpressure
  import FrameCodec
  import LineCodec

  /** What the send reserves for a message through the binary codec. */
  function BinaryFrame(max: FrameCodec.u32, message: seq<byte>): Frame {
    Frame(FrameCodec.EncodedSize(max, |message|))
  }

  function LineFrame(message: seq<byte>): Frame {
    Frame(LineCodec.EncodedSize(|message|))
  }

  /** The largest size the binary codec announces for a frame it does not refuse is below the impossible one. */
  const LARGEST_ANNOUNCED := FrameCodec.SIZE_MAX - 1

  /** The binary codec refuses exactly the frames beyond that size, as the send path's limit says. */
  lemma BinaryRefusesExactly(max: FrameCodec.u32, message: seq<byte>)
    ensures FrameCodec.MessageResultOf(max, message) != FrameCodec.Ok
        <==> BinaryFrame(max, message).Size() > LARGEST_ANNOUNCED
  {
    FrameCodec.EncodedSizeExact(max, message);
  }

  /** No frame that passes the hard limit is refused later. */
  ghost predicate NoneRefusedLate(max: FrameCodec.u32, hard: nat) {
    forall message ::
      BinaryFrame(max, message).Size() <= hard ==> FrameCodec.MessageResultOf(max, message) == FrameCodec.Ok
  }

  lemma NoneRefusedLateExactly(max: FrameCodec.u32, hard: nat)
    ensures NoneRefusedLate(max, hard) <==> hard < FrameCodec.SIZE_MAX
  {
    hide FrameCodec.MessageResultOf;
    if hard < FrameCodec.SIZE_MAX {
      forall message | BinaryFrame(max, message).Size() <= hard
        ensures FrameCodec.MessageResultOf(max, message) == FrameCodec.Ok
      {
        BinaryRefusesExactly(max, message);
      }
    } else {
      var long: seq<byte> := seq(max + 1, _ => 0);
      BinaryRefusesExactly(max, long);
    }
  }

  /** The line codec announces the size it produces and reserves no less than a byte. */
  lemma LineSizeExact(message: seq<byte>)
    ensures LineFrame(message).Size() == |LineCodec.Line(message)|
  {
    LineCodec.EncodedSizeExact(message);
  }

  /**
    The low-water signal with the repository's codecs, exactly.  With the line codec,
    which refuses nothing, and with none at all, the marks alone decide.
  */
  lemma CodecsKeepSignal(l: Limits)
    requires l.Valid()
    ensures l.maxEncodable == LARGEST_ANNOUNCED ==>
      (NeverLost(l) <==> l.hard <= l.pause || (2 * l.resume <= l.pause && l.hard < FrameCodec.SIZE_MAX))
    ensures l.maxEncodable >= l.hard ==> (NeverLost(l) <==> l.hard <= l.pause || 2 * l.resume <= l.pause)
  {
    NoSignalLostExactly(l);
  }
}
