/** When client/FragmentProtoAssembler.c gives up a frame, and when it has it whole. */
module FragmentOutcomes {
  import opened Common
  import opened FragmentChunks
  import opened FragmentAssembler
  import opened FragmentOrder
  import opened FragmentAges

  /** The chunk is a part of the frame, and its end if the chunk says so. */
  ghost predicate PartOf(p: Piece, frame: Bytes) {
    p.End() <= |frame| && p.data == frame[p.start..p.End()] && (p.last ==> p.End() == |frame|)
  }

  ghost predicate AllPartsOf(ps: seq<Piece>, frame: Bytes) {
    forall k :: 0 <= k < |ps| ==> PartOf(ps[k], frame)
  }

  ghost predicate OneEnd(ps: seq<Piece>) {
    forall i, j :: 0 <= i < j < |ps| ==> !(ps[i].last && ps[j].last)
  }

  /** The chunks do not overlap, and there is a frame they can be parts of. */
  ghost predicate Compatible(ps: seq<Piece>) {
    Disjoint(ps) && OneEnd(ps) && exists frame :: AllPartsOf(ps, frame)
  }

  ghost predicate CoveredTo(ps: seq<Piece>, end: nat) {
    forall i: nat :: i < end ==> CoveredOnce(ps, i)
  }

  /** The end of the frame is known, and every byte before it. */
  ghost predicate Whole(ps: seq<Piece>) {
    exists k :: 0 <= k < |ps| && ps[k].last && CoveredTo(ps, ps[k].End())
  }

  lemma {:induction false} LengthIsOfLast(ps: seq<Piece>)
    ensures Length(ps).Some? <==> exists k :: 0 <= k < |ps| && ps[k].last
    ensures Length(ps).Some? ==> exists k :: 0 <= k < |ps| && ps[k].last && ps[k].End() == Length(ps).value
  {
    if ps == [] {
    } else {
      var n := |ps| - 1;
      LengthIsOfLast(ps[..n]);
      assert forall k :: 0 <= k < n ==> ps[..n][k] == ps[k];
      if !ps[n].last && Length(ps).Some? {
        var k :| 0 <= k < n && ps[..n][k].last && ps[..n][k].End() == Length(ps).value;
        assert ps[k].last;
      }
    }
  }

  /** Chunks that do not overlap can be parts of what they put together. */
  lemma PartsOfContents(ps: seq<Piece>, length: nat)
    requires Disjoint(ps) && Within(ps, length) && forall k :: 0 <= k < |ps| && ps[k].last ==> ps[k].End() == length
    ensures AllPartsOf(ps, Contents(ps, length))
  {
    var frame := Contents(ps, length);
    forall k | 0 <= k < |ps|
      ensures PartOf(ps[k], frame)
    {
      var p := ps[k];
      forall i | p.start <= i < p.End()
        ensures frame[i] == p.data[i - p.start]
      {
        BytesOf(ps, k, i);
      }
      assert p.data == frame[p.start..p.End()];
    }
  }

  lemma BytesOf(ps: seq<Piece>, k: nat, i: nat)
    requires Disjoint(ps) && k < |ps| && Covers(ps[k], i)
    ensures ByteAt(ps, i) == ps[k].data[i - ps[k].start]
  {
    ByteFromPiece(ps, i);
    var j :| 0 <= j < |ps| && Covers(ps[j], i) && ByteAt(ps, i) == ps[j].data[i - ps[j].start];
  }

  lemma AgreesFits(cfg: Config, ps: seq<Piece>, p: Piece)
    requires PiecesOk(cfg, ps) && OneEnd(ps) && p.End() <= cfg.mtu && Agrees(ps, p)
    ensures Compatible(Snoc(ps, p))
  {
    var ps' := Snoc(ps, p);
    AgreesKeeps(cfg, ps, p);
    LengthIsOfLast(ps);
    LengthIsOfLast(ps');
    assert OneEnd(ps');
    var length := if Length(ps').Some? then Length(ps').value else cfg.mtu;
    PartsOfContents(ps', length);
  }

  lemma FitsAgrees(cfg: Config, ps: seq<Piece>, p: Piece)
    requires PiecesOk(cfg, ps) && Compatible(Snoc(ps, p))
    ensures Agrees(ps, p)
  {
    var ps' := Snoc(ps, p);
    var frame :| AllPartsOf(ps', frame);
    forall k | 0 <= k < |ps|
      ensures !Overlap(ps[k], p) && ps[k].End() <= |frame| && !(ps[k].last && p.last)
    {
      assert ps'[k] == ps[k] && ps'[|ps|] == p && PartOf(ps'[k], frame);
    }
    assert PartOf(ps'[|ps|], frame);
    LengthIsOfLast(ps);
    if Length(ps).Some? {
      var k :| 0 <= k < |ps| && ps[k].last && ps[k].End() == Length(ps).value;
      assert PartOf(ps'[k], frame);
    }
  }

  lemma CompleteIsWhole(ps: seq<Piece>)
    requires Disjoint(ps) && OneEnd(ps) && (Length(ps).Some? ==> Within(ps, Length(ps).value))
    ensures Complete(ps) <==> Whole(ps)
  {
    LengthIsOfLast(ps);
    if Length(ps).Some? {
      var end := Length(ps).value;
      DisjointPiecesTile(ps, end);
      if k :| 0 <= k < |ps| && ps[k].last && CoveredTo(ps, ps[k].End()) {
        var j :| 0 <= j < |ps| && ps[j].last && ps[j].End() == end;
        CoveredSum(ps, end);
      }
    }
  }

  lemma CoveredSum(ps: seq<Piece>, end: nat)
    requires Disjoint(ps) && Within(ps, end) && CoveredTo(ps, end)
    ensures Sum(ps) == end
  {
    forall i: nat
      ensures i in Cover(ps) <==> i in Range(0, end)
    {
      CoverMembers(ps, i);
      assert i < end ==> CoveredOnce(ps, i);
    }
    assert Cover(ps) == Range(0, end);
    CoverSize(ps);
    RangeSize(0, end);
  }

  /**
    A frame is given up if and only if its chunks overlap or cannot all be parts of one frame, or there are too many of
    them; it is finished if and only if they can and every byte of it is there; and otherwise all of them are kept.
  */
  lemma OutcomeMeans(cfg: Config, ps: seq<Piece>, p: Piece)
    requires PiecesOk(cfg, ps) && OneEnd(ps) && p.End() <= cfg.mtu
    ensures var ps', out := Snoc(ps, p), AddPiece(cfg.maxChunks, ps, p);
            && (out.Failed? <==> !Compatible(ps') || (!Whole(ps') && |ps'| == cfg.maxChunks))
            && (out.Finished? <==> Compatible(ps') && Whole(ps'))
            && (out.Waiting? ==> out.pieces == ps' && OneEnd(ps'))
            && (out.Finished? ==> AllPartsOf(ps', out.frame))
  {
    var ps' := Snoc(ps, p);
    if Compatible(ps') {
      FitsAgrees(cfg, ps, p);
    }
    if Agrees(ps, p) {
      AgreesFits(cfg, ps, p);
      AgreesKeeps(cfg, ps, p);
      CompleteIsWhole(ps');
      if Complete(ps') {
        LastIsEnd(ps');
        PartsOfContents(ps', Length(ps').value);
      }
    }
  }

  lemma LastIsEnd(ps: seq<Piece>)
    requires OneEnd(ps) && Length(ps).Some?
    ensures forall k :: 0 <= k < |ps| && ps[k].last ==> ps[k].End() == Length(ps).value
  {
    LengthIsOfLast(ps);
    var j :| 0 <= j < |ps| && ps[j].last && ps[j].End() == Length(ps).value;
    forall k | 0 <= k < |ps| && ps[k].last
      ensures k == j
    {
    }
  }

  // ----- over whole runs

  /** The chunks of the frame with this id that is not timed out; none if there is no such frame. */
  ghost function Held(cfg: Config, es: seq<Entry>, id: nat): seq<Piece> {
    var k := Position(es, id);
    if k < |es| && !TimedOut(cfg, es[k]) then es[k].pieces else []
  }

  ghost predicate EndsOnce(es: seq<Entry>) {
    forall k :: 0 <= k < |es| ==> OneEnd(es[k].pieces)
  }

  lemma PreparedIsHeld(cfg: Config, es: seq<Entry>, id: nat)
    requires cfg.Valid() && PoolOk(cfg, es) && EndsOnce(es)
    ensures var (ready, i) := Prepare(cfg, es, id);
            ready[i].pieces == Held(cfg, es, id) && EndsOnce(ready) && PiecesOk(cfg, ready[i].pieces)
  {
    PrepareOk(cfg, es, id);
    var (ready, i) := Prepare(cfg, es, id);
    forall k | 0 <= k < |ready|
      ensures OneEnd(ready[k].pieces)
    {
      if ready[k].id != id {
        assert ready[k] in ready;
        PrepareOthers(cfg, es, id, ready[k]);
      }
    }
  }

  /** The outcome of a chunk for the frame with its id. */
  ghost predicate TakesChunk(cfg: Config, es: seq<Entry>, c: Chunk, es': seq<Entry>, out: Option<Bytes>) {
    var ps' := Snoc(Held(cfg, es, c.id), c.piece);
    && (out.Some? <==> Compatible(ps') && Whole(ps'))
    && (out.Some? ==> AllPartsOf(ps', out.value))
    && Held(cfg, es', c.id) == if Compatible(ps') && !Whole(ps') && |ps'| < cfg.maxChunks then ps' else []
  }

  lemma ProcessTakes(cfg: Config, es: seq<Entry>, c: Chunk)
    requires cfg.Valid() && PoolOk(cfg, es) && EndsOnce(es) && c.piece.End() <= cfg.mtu
    ensures var (es', out) := Process(cfg, es, c); EndsOnce(es') && TakesChunk(cfg, es, c, es', out)
  {
    PrepareOk(cfg, es, c.id);
    PreparedIsHeld(cfg, es, c.id);
    var (ready, i) := Prepare(cfg, es, c.id);
    OutcomeMeans(cfg, ready[i].pieces, c.piece);
    HeldAfter(cfg, ready, i, c.id, AddPiece(cfg.maxChunks, ready[i].pieces, c.piece));
  }

  lemma HeldAfter(cfg: Config, ready: seq<Entry>, i: nat, id: nat, out: Outcome)
    requires i < |ready| && ready[i].id == id && forall k :: 0 <= k < |ready| && k != i ==> ready[k].id != id
    ensures out.Waiting? ==> Held(cfg, ready[i := Entry(id, out.pieces, 0)], id) == out.pieces
    ensures Held(cfg, Remove(ready, i), id) == []
  {
    if out.Waiting? {
      var es' := ready[i := Entry(id, out.pieces, 0)];
      assert es'[i].id == id;
      assert Position(es', id) == i;
    }
    assert Position(Remove(ready, i), id) == |ready| - 1;
  }

  lemma EndPacketEndsOnce(cfg: Config, es: seq<Entry>, purge: bool)
    requires EndsOnce(es)
    ensures EndsOnce(EndPacket(cfg, es, purge))
  {
    var es' := EndPacket(cfg, es, purge);
    forall k | 0 <= k < |es'|
      ensures OneEnd(es'[k].pieces)
    {
      var e := EndPacketEntries(cfg, es, purge, es'[k]);
    }
  }

  lemma {:induction false} RunEndsOnce(cfg: Config, acts: seq<Act>)
    requires cfg.Valid()
    ensures EndsOnce(After(cfg, acts))
  {
    if acts == [] {
    } else {
      var was := acts[..|acts| - 1];
      RunEndsOnce(cfg, was);
      AfterOk(cfg, was);
      match acts[|acts| - 1]
      case PacketEnd(purge) => EndPacketEndsOnce(cfg, After(cfg, was), purge);
      case Deliver(c) =>
        if c.piece.End() <= cfg.mtu {
          ProcessTakes(cfg, After(cfg, was), c);
        }
    }
  }

  /**
    In every run, a chunk that is not beyond the MTU completes a frame if and only if it and the chunks held for its
    frame do not overlap, can be parts of one frame and have every byte of it; it is held with them if they can be
    parts of one frame, something is missing and there are not too many of them; and otherwise all of them are given up.
  */
  lemma ChunkTaken(cfg: Config, acts: seq<Act>, c: Chunk)
    requires cfg.Valid() && c.piece.End() <= cfg.mtu
    ensures var es := After(cfg, acts); TakesChunk(cfg, es, c, Process(cfg, es, c).0, Process(cfg, es, c).1)
  {
    AfterOk(cfg, acts);
    RunEndsOnce(cfg, acts);
    ProcessTakes(cfg, After(cfg, acts), c);
  }
}
