/**
  When the record-set parser ends.  A batch length is signed and may take the
  loop back to bytes it has seen, so it need not.
*/
module ParserTermination {
  import opened Bytes
  import opened Counting
  import opened Domain
  import opened RecordBatch

  /** Where the loop goes on from a position, if it does. */
  function Jump(b: seq<byte>, pos: nat): (next: Option<nat>)
    ensures next.Some? ==> pos + 12 <= |b| && next.value <= |b|
  {
    var t := TurnAt(b, pos, []);
    if t.Go? then Some(t.pos) else None
  }

  /** The position after k turns. */
  function Reached(b: seq<byte>, pos: nat, k: nat): Option<nat>
    decreases k
  {
    if k == 0 then Some(pos)
    else match Jump(b, pos)
      case None => None
      case Some(p) => Reached(b, p, k - 1)
  }

  /** Whether the records of a batch parse does not depend on those before them. */
  lemma {:induction false} RecordsAlone(b: seq<byte>, pos: nat, end: nat, base: int, count: int, x: seq<Record>,
                                        y: seq<Record>)
    ensures ParseRecords(b, pos, end, base, count, x).Parsed? == ParseRecords(b, pos, end, base, count, y).Parsed?
    decreases count
  {
    hide ParseRecord;
    if count > 0 && ParseRecord(b, pos, end, base).Next? {
      var rec, p := ParseRecord(b, pos, end, base).value, ParseRecord(b, pos, end, base).pos;
      RecordsAlone(b, p, end, base, count - 1, x + [rec], y + [rec]);
    }
  }

  lemma TurnAlone(b: seq<byte>, pos: nat, out: seq<Record>)
    ensures TurnAt(b, pos, out).Go? == Jump(b, pos).Some?
    ensures TurnAt(b, pos, out).Go? ==> TurnAt(b, pos, out).pos == Jump(b, pos).value
  {
    hide ParseRecords;
    hide Signed32;
    hide Signed64;
    if pos + 12 <= |b| && pos + 60 <= |b| && pos + 12 + Signed32(b, pos + 8) >= 0 {
      var end := pos + 12 + Signed32(b, pos + 8);
      RecordsAlone(b, pos + 61, end, Signed64(b, pos), Signed32(b + [0], pos + 57), out, []);
    }
  }

  lemma {:induction false} GoingExactly(b: seq<byte>, pos: nat, out: seq<Record>, turns: nat)
    ensures ParseWithin(b, pos, out, turns).None? <==> Reached(b, pos, turns + 1).Some?
    decreases turns
  {
    hide TurnAt;
    hide Jump;
    TurnAlone(b, pos, out);
    if TurnAt(b, pos, out).Go? {
      var t := TurnAt(b, pos, out);
      assert Reached(b, t.pos, 0) == Some(t.pos);
      if turns > 0 {
        GoingExactly(b, t.pos, t.records, turns - 1);
      }
    }
  }

  lemma {:induction false} ReachedSplit(b: seq<byte>, pos: nat, i: nat, k: nat)
    ensures Reached(b, pos, i + k)
         == if Reached(b, pos, i).Some? then Reached(b, Reached(b, pos, i).value, k) else None
    decreases i
  {
    hide Jump;
    if i > 0 && Jump(b, pos).Some? {
      ReachedSplit(b, Jump(b, pos).value, i - 1, k);
    }
  }

  /** A position seen twice is seen forever. */
  lemma {:induction false} Cycles(b: seq<byte>, i: nat, j: nat, k: nat)
    requires i < j && Reached(b, 0, i).Some? && Reached(b, 0, i) == Reached(b, 0, j)
    ensures Reached(b, 0, k).Some?
    decreases k
  {
    hide Reached;
    if k <= j {
      ReachedSplit(b, 0, k, j - k);
    } else {
      ReachedSplit(b, 0, j, k - j);
      ReachedSplit(b, 0, i, k - j);
      Cycles(b, i, j, i + (k - j));
    }
  }

  lemma ReachedOnce(b: seq<byte>, pos: nat)
    ensures Reached(b, pos, 1) == Jump(b, pos)
  {
    hide Jump;
    assert Jump(b, pos).Some? ==> Reached(b, Jump(b, pos).value, 0) == Jump(b, pos);
  }

  /** The positions after fewer than k turns. */
  function Path(b: seq<byte>, k: nat): (ps: seq<nat>)
    requires Reached(b, 0, k).Some?
    ensures |ps| == k && forall i :: 0 <= i < k ==> ps[i] <= |b| && Reached(b, 0, i) == Some(ps[i])
    decreases k
  {
    if k == 0 then []
    else
      ReachedSplit(b, 0, k - 1, 1);
      var p := Reached(b, 0, k - 1).value;
      ReachedOnce(b, p);
      Path(b, k - 1) + [p]
  }

  lemma Repeats(b: seq<byte>) returns (i: nat, j: nat)
    requires Reached(b, 0, |b| + 2).Some?
    ensures i < j && Reached(b, 0, i).Some? && Reached(b, 0, i) == Reached(b, 0, j)
  {
    hide Reached;
    i, j := Pigeonhole(Path(b, |b| + 2), |b|);
  }

  ghost predicate Ends(b: seq<byte>) {
    exists turns :: ParseSet(b, turns).Some?
  }

  ghost predicate SeenTwice(b: seq<byte>) {
    exists i: nat, j: nat :: i < j && Reached(b, 0, i).Some? && Reached(b, 0, i) == Reached(b, 0, j)
  }

  /**
    The parser ends exactly if it comes to no position twice, and then it has ended
    after one turn more than there are bytes.
  */
  lemma EndsInTime(b: seq<byte>)
    requires b != [] && b != [0]
    ensures Ends(b) <==> !SeenTwice(b)
    ensures Ends(b) <==> ParseSet(b, |b| + 1).Some?
  {
    hide Reached;
    hide ParseWithin;
    GoingExactly(b, 0, [], |b| + 1);
    if Reached(b, 0, |b| + 2).Some? {
      var i, j := Repeats(b);
      forall turns: nat ensures ParseSet(b, turns).None? {
        GoingExactly(b, 0, [], turns);
        Cycles(b, i, j, turns + 1);
      }
    } else {
      assert ParseSet(b, |b| + 1).Some?;
      if SeenTwice(b) {
        var i: nat, j: nat :| i < j && Reached(b, 0, i).Some? && Reached(b, 0, i) == Reached(b, 0, j);
        Cycles(b, i, j, |b| + 2);
        assert false;
      }
    }
  }

  /** Once the parser has ended, watching it longer changes nothing. */
  lemma {:induction false} EndedForGood(b: seq<byte>, pos: nat, out: seq<Record>, turns: nat, more: nat)
    requires ParseWithin(b, pos, out, turns).Some? && turns <= more
    ensures ParseWithin(b, pos, out, more) == ParseWithin(b, pos, out, turns)
    decreases turns
  {
    hide TurnAt;
    if TurnAt(b, pos, out).Go? {
      EndedForGood(b, TurnAt(b, pos, out).pos, TurnAt(b, pos, out).records, turns - 1, more - 1);
    }
  }

  // ---- Which lengths decide ----

  /** A batch header at the position, if there is one, has at least this length. */
  predicate LengthAt(b: seq<byte>, pos: nat, least: int) {
    pos + 12 <= |b| ==> Signed32(b, pos + 8) >= least
  }

  /** So has every header the loop comes to. */
  ghost predicate LengthsAtLeast(b: seq<byte>, least: int) {
    forall k: nat :: Reached(b, 0, k).Some? ==> LengthAt(b, Reached(b, 0, k).value, least)
  }

  lemma JumpsForward(b: seq<byte>, pos: nat)
    requires LengthAt(b, pos, -11)
    ensures Jump(b, pos).Some? ==> Jump(b, pos).value > pos
  {
    hide ParseRecords;
    hide Signed64;
    hide Signed32;
  }

  lemma {:induction false} PositionsGrow(b: seq<byte>, i: nat, j: nat)
    requires i < j && LengthsAtLeast(b, -11) && Reached(b, 0, j).Some?
    ensures Reached(b, 0, i).Some? && Reached(b, 0, i).value < Reached(b, 0, j).value
    decreases j
  {
    hide LengthAt;
    hide Jump;
    ReachedSplit(b, 0, j - 1, 1);
    var p := Reached(b, 0, j - 1).value;
    assert LengthAt(b, p, -11);
    JumpsForward(b, p);
    assert Jump(b, p).Some? ==> Reached(b, Jump(b, p).value, 0) == Jump(b, p);
    if i < j - 1 {
      PositionsGrow(b, i, j - 1);
    }
  }

  /** Without a length of -12 or less on its way the parser ends. */
  lemma ForwardEnds(b: seq<byte>)
    requires LengthsAtLeast(b, -11)
    ensures Ends(b)
  {
    hide Reached;
    hide LengthsAtLeast;
    hide ParseWithin;
    if b == [] || b == [0] {
      assert ParseSet(b, 0).Some?;
    } else {
      if SeenTwice(b) {
        var i: nat, j: nat :| i < j && Reached(b, 0, i).Some? && Reached(b, 0, i) == Reached(b, 0, j);
        PositionsGrow(b, i, j);
        assert false;
      }
      EndsInTime(b);
    }
  }

  /** A header of length -12 that is not refused leads to itself: from there the parser never ends. */
  lemma StandingStill(b: seq<byte>, k: nat)
    requires b != [] && b != [0]
    requires Reached(b, 0, k).Some? && Jump(b, Reached(b, 0, k).value).Some?
    requires Signed32(b, Reached(b, 0, k).value + 8) == -12
    ensures !Ends(b)
  {
    hide ParseSet;
    hide Signed32;
    hide Jump;
    var p := Reached(b, 0, k).value;
    JumpsTo(b, p);
    ReachedSplit(b, 0, k, 1);
    assert Reached(b, p, 1) == Reached(b, p, 0);
    assert SeenTwice(b);
    EndsInTime(b);
  }

  lemma JumpsTo(b: seq<byte>, pos: nat)
    requires Jump(b, pos).Some?
    ensures Jump(b, pos).value == pos + 12 + Signed32(b, pos + 8)
  {
    hide ParseRecords;
    hide Signed64;
    hide Signed32;
  }

  /** A header of length -12 and no records: 61 bytes, zero but for the length and the magic number. */
  const STUCK: seq<byte> := seq(61, i => if 8 <= i < 11 then 255 else if i == 11 then 244 else if i == 16 then 2 else 0)

  lemma StuckTurn()
    ensures TurnAt(STUCK, 0, []) == Go(0, [])
  {
    assert Signed32(STUCK, 8) == -12;
    assert Signed32(STUCK + [0], 57) == 0;
    assert ParseRecords(STUCK, 61, 0, Signed64(STUCK, 0), 0, []) == Parsed([]);
  }

  /** On it the parser goes round forever. */
  lemma {:induction false} StuckForever(turns: nat)
    ensures ParseSet(STUCK, turns) == None
  {
    hide TurnAt;
    StuckTurn();
    if turns > 0 {
      StuckForever(turns - 1);
    }
  }

  lemma {:induction false} StuckStays(k: nat)
    ensures Reached(STUCK, 0, k) == Some(0)
  {
    hide TurnAt;
    StuckTurn();
    if k > 0 {
      StuckStays(k - 1);
    }
  }

  lemma StuckLengths(least: int)
    requires least <= -12
    ensures LengthsAtLeast(STUCK, least)
  {
    hide Reached;
    assert Signed32(STUCK, 8) == -12;
    forall k: nat | Reached(STUCK, 0, k).Some? ensures LengthAt(STUCK, Reached(STUCK, 0, k).value, least) {
      StuckStays(k);
    }
  }

  ghost predicate EndsFrom(least: int) {
    forall b :: LengthsAtLeast(b, least) ==> Ends(b)
  }

  /**
    The lengths that make the parser end, exactly: a lower bound on all lengths it
    comes to suffices if and only if it is -11 or more.
  */
  lemma SafeLengthsExactly(least: int)
    ensures EndsFrom(least) <==> least >= -11
  {
    hide Ends;
    if least >= -11 {
      forall b | LengthsAtLeast(b, least) ensures Ends(b) {
        LongerLengths(b, least);
        ForwardEnds(b);
      }
    } else {
      StuckLengths(least);
      StuckNeverEnds();
    }
  }

  lemma LongerLengths(b: seq<byte>, least: int)
    requires least >= -11 && LengthsAtLeast(b, least)
    ensures LengthsAtLeast(b, -11)
  {
    hide Reached;
    hide Signed32;
  }

  lemma StuckNeverEnds()
    ensures !Ends(STUCK)
  {
    hide ParseSet;
    forall turns: nat ensures ParseSet(STUCK, turns).None? {
      StuckForever(turns);
    }
  }
}
