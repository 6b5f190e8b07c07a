/** A frame is put together from its chunks in whatever order they come. */
module FragmentOrder {
  import opened Common
  import opened FragmentChunks
  import opened FragmentAssembler

  /** The chunks `ms`, in no particular order, are a splitting of the frame. */
  ghost predicate Tiles(frame: Bytes, ms: multiset<Piece>) {
    && ms != multiset{}
    && (forall p :: p in ms ==> IsTile(frame, p) && ms[p] == 1)
    && (forall p :: p in ms && p.data == [] ==> |ms| == 1)
    && (forall p, q :: p in ms && q in ms && p != q ==> !Overlap(p, q))
    && (forall i :: 0 <= i < |frame| ==> Covered(ms, i))
  }

  ghost predicate Covered(ms: multiset<Piece>, i: nat) {
    exists p :: p in ms && Covers(p, i)
  }

  predicate IsTile(frame: Bytes, p: Piece) {
    && p.End() <= |frame|
    && p.data == frame[p.start..p.End()]
    && (p.last <==> p.End() == |frame|)
  }

  lemma Distinct(s: seq<Piece>, i: nat, j: nat)
    requires i < j < |s| && multiset(s)[s[i]] == 1
    ensures s[i] != s[j]
  {
    assert s == s[..j] + s[j..];
    assert s[i] in s[..j] && s[j] in s[j..];
  }

  lemma TilesDisjoint(frame: Bytes, s: seq<Piece>)
    requires Tiles(frame, multiset(s))
    ensures Disjoint(s) && Within(s, |frame|)
  {
    forall i, j | 0 <= i < j < |s|
      ensures !Overlap(s[i], s[j])
    {
      assert s[i] in multiset(s) && s[j] in multiset(s);
      Distinct(s, i, j);
    }
    forall k | 0 <= k < |s|
      ensures s[k].End() <= |frame|
    {
      assert s[k] in multiset(s);
    }
  }

  /** At most one chunk is the last one. */
  lemma OneLast(frame: Bytes, s: seq<Piece>, i: nat, j: nat)
    requires Tiles(frame, multiset(s)) && i < j < |s|
    ensures !(s[i].last && s[j].last)
  {
    assert s[i] in multiset(s) && s[j] in multiset(s);
    assert |multiset(s)| == |s|;
    TilesDisjoint(frame, s);
    assert !Overlap(s[i], s[j]);
  }

  ghost predicate HasLast(s: seq<Piece>) {
    exists p :: p in s && p.last
  }

  lemma {:induction false} LengthOfTiles(frame: Bytes, s: seq<Piece>)
    requires forall p :: p in s ==> IsTile(frame, p)
    ensures Length(s) == if HasLast(s) then Some(|frame|) else None
  {
    if s == [] {
    } else {
      var n := |s| - 1;
      assert forall p :: p in s <==> p in s[..n] || p == s[n];
      LengthOfTiles(frame, s[..n]);
      assert HasLast(s) <==> s[n].last || HasLast(s[..n]);
    }
  }

  lemma TilesCover(frame: Bytes, s: seq<Piece>, i: nat)
    requires Tiles(frame, multiset(s))
    ensures i in Cover(s) <==> i < |frame|
  {
    CoverMembers(s, i);
    if i < |frame| {
      assert Covered(multiset(s), i);
      var p :| p in multiset(s) && Covers(p, i);
      var j :| 0 <= j < |s| && s[j] == p;
    }
    TilesDisjoint(frame, s);
  }

  /** All the chunks together add up to the frame. */
  lemma TilesSum(frame: Bytes, s: seq<Piece>)
    requires Tiles(frame, multiset(s))
    ensures Sum(s) == |frame|
  {
    assert Cover(s) == Range(0, |frame|) by {
      forall i: nat
        ensures i in Cover(s) <==> i in Range(0, |frame|)
      {
        TilesCover(frame, s, i);
      }
    }
    TilesDisjoint(frame, s);
    CoverSize(s);
    RangeSize(0, |frame|);
  }

  /** With a chunk missing they do not. */
  lemma SomeTilesSum(frame: Bytes, s: seq<Piece>, k: nat)
    requires Tiles(frame, multiset(s)) && 0 < k < |s|
    ensures Sum(s[..k]) < |frame|
  {
    TilesDisjoint(frame, s);
    assert s[k].data != [] by {
      assert s[k] in multiset(s) && |multiset(s)| == |s|;
    }
    assert s[..k + 1] == Snoc(s[..k], s[k]);
    LengthAppend(s[..k], s[k]);
    DisjointPiecesTile(s[..k + 1], |frame|);
  }

  lemma TilesContents(frame: Bytes, s: seq<Piece>)
    requires Tiles(frame, multiset(s))
    ensures Contents(s, |frame|) == frame
  {
    forall i | 0 <= i < |frame|
      ensures ByteAt(s, i) == frame[i]
    {
      TilesCover(frame, s, i);
      CoverMembers(s, i);
      ByteFromPiece(s, i);
      var k :| 0 <= k < |s| && Covers(s[k], i) && ByteAt(s, i) == s[k].data[i - s[k].start];
      assert s[k] in multiset(s);
    }
  }

  lemma TilesAgree(frame: Bytes, s: seq<Piece>, k: nat)
    requires Tiles(frame, multiset(s)) && k < |s|
    ensures Agrees(s[..k], s[k])
  {
    TilesDisjoint(frame, s);
    assert forall j :: 0 <= j < |s| ==> s[j] in multiset(s);
    assert forall p :: p in s[..k] ==> p in s;
    LengthOfTiles(frame, s[..k]);
    if s[k].last {
      forall j | 0 <= j < k
        ensures !s[j].last
      {
        OneLast(frame, s, j, k);
      }
    }
  }

  /** The k-th chunk to come, in any order: the frame comes out with the last one, and not before. */
  lemma NextTile(maxChunks: nat, frame: Bytes, s: seq<Piece>, k: nat)
    requires Tiles(frame, multiset(s)) && k < |s| <= maxChunks
    ensures AddPiece(maxChunks, s[..k], s[k]) == if k + 1 == |s| then Finished(frame) else Waiting(s[..k + 1])
  {
    TilesAgree(frame, s, k);
    assert Snoc(s[..k], s[k]) == s[..k + 1];
    assert forall j :: 0 <= j < |s| ==> s[j] in multiset(s);
    assert forall p :: p in s[..k + 1] ==> p in s;
    LengthOfTiles(frame, s[..k + 1]);
    if k + 1 == |s| {
      assert s[..k + 1] == s;
      TilesSum(frame, s);
      TilesContents(frame, s);
      TilesHaveLast(frame, s);
    } else {
      SomeTilesSum(frame, s, k + 1);
    }
  }

  lemma TilesHaveLast(frame: Bytes, s: seq<Piece>)
    requires Tiles(frame, multiset(s))
    ensures HasLast(s)
  {
    if frame == [] {
      assert s[0] in multiset(s) && s[0].last;
    } else {
      assert Covered(multiset(s), |frame| - 1);
      var p :| p in multiset(s) && Covers(p, |frame| - 1);
      assert p in s && p.last;
    }
  }

  // ----- the whole assembler, with other traffic in between

  datatype Act = Deliver(c: Chunk) | PacketEnd(purge: bool)

  ghost function Do(cfg: Config, es: seq<Entry>, a: Act): (seq<Entry>, Option<Bytes>)
    requires cfg.Valid()
  {
    match a
    case Deliver(c) => Process(cfg, es, c)
    case PacketEnd(purge) => (EndPacket(cfg, es, purge), None)
  }

  lemma DoOk(cfg: Config, es: seq<Entry>, a: Act)
    requires cfg.Valid() && PoolOk(cfg, es)
    ensures PoolOk(cfg, Do(cfg, es, a).0)
  {
    match a
    case Deliver(c) => ProcessOk(cfg, es, c);
    case PacketEnd(purge) => EndPacketOk(cfg, es, purge);
  }

  /** The chunks of frame `id`, in the order in which they are delivered. */
  function Delivered(acts: seq<Act>, id: nat): seq<Piece> {
    if acts == [] then []
    else
      var rest := Delivered(acts[1..], id);
      if acts[0].Deliver? && acts[0].c.id == id then [acts[0].c.piece] + rest else rest
  }

  /** The frames that come out of the deliveries for `id`. */
  ghost function Emitted(cfg: Config, es: seq<Entry>, acts: seq<Act>, id: nat): seq<Bytes>
    requires cfg.Valid()
    decreases |acts|
  {
    if acts == [] then [] else
      var (es', out) := Do(cfg, es, acts[0]);
      var rest := Emitted(cfg, es', acts[1..], id);
      if acts[0].Deliver? && acts[0].c.id == id && out.Some? then [out.value] + rest else rest
  }

  predicate Present(es: seq<Entry>, id: nat) {
    Position(es, id) < |es|
  }

  /** Frame `id` is not evicted by other traffic, and none of its chunks comes after its time-out. */
  ghost predicate Survives(cfg: Config, es: seq<Entry>, acts: seq<Act>, id: nat)
    requires cfg.Valid()
    decreases |acts|
  {
    acts != [] ==>
      && (if acts[0].Deliver? && acts[0].c.id == id
          then Present(es, id) ==> !TimedOut(cfg, es[Position(es, id)])
          else Present(es, id) ==> Present(Do(cfg, es, acts[0]).0, id))
      && Survives(cfg, Do(cfg, es, acts[0]).0, acts[1..], id)
  }

  /** The chunks accepted so far for frame `id` are ps. */
  ghost predicate Holds(es: seq<Entry>, id: nat, ps: seq<Piece>) {
    if ps == [] then !Present(es, id) else Present(es, id) && es[Position(es, id)].pieces == ps
  }

  /** Whatever is in es' about frame `id` was already in es. */
  ghost predicate NoNews(es: seq<Entry>, es': seq<Entry>, id: nat) {
    forall e' :: e' in es' && e'.id == id ==> exists e :: e in es && e.id == id && e.pieces == e'.pieces
  }

  lemma HoldsStill(es: seq<Entry>, es': seq<Entry>, id: nat, ps: seq<Piece>)
    requires UniqueIds(es) && NoNews(es, es', id) && Holds(es, id, ps)
    requires Present(es, id) ==> Present(es', id)
    ensures Holds(es', id, ps)
  {
    if Present(es', id) {
      var e' := es'[Position(es', id)];
      var e :| e in es && e.id == id && e.pieces == e'.pieces;
      var j :| 0 <= j < |es| && es[j] == e;
      assert j == Position(es, id);
    }
  }

  lemma EndPacketNoNews(cfg: Config, es: seq<Entry>, purge: bool, id: nat)
    ensures NoNews(es, EndPacket(cfg, es, purge), id)
  {
    var kept := if purge then Purge(cfg, es) else es;
    forall e' | e' in Older(kept) && e'.id == id
      ensures exists e :: e in es && e.id == id && e.pieces == e'.pieces
    {
      var k :| 0 <= k < |kept| && e' == Older(kept)[k];
      assert kept[k] in kept;
    }
  }

  /** The entries for other ids are not touched when the frame of a chunk is prepared. */
  lemma PrepareOthers(cfg: Config, es: seq<Entry>, id: nat, e: Entry)
    requires cfg.Valid() && e in Prepare(cfg, es, id).0 && e.id != id
    ensures e in es
  {
    var k := Position(es, id);
    if k == |es| || TimedOut(cfg, es[k]) {
      var kept := if k < |es| then Remove(es, k) else es;
      assert e in MakeRoom(cfg, kept);
      assert e in kept;
    }
  }

  lemma ProcessNoNews(cfg: Config, es: seq<Entry>, c: Chunk, id: nat)
    requires cfg.Valid() && c.id != id
    ensures NoNews(es, Process(cfg, es, c).0, id)
  {
    if c.piece.End() <= cfg.mtu {
      var ready := Prepare(cfg, es, c.id).0;
      forall e' | e' in Process(cfg, es, c).0 && e'.id == id
        ensures exists e :: e in es && e.id == id && e.pieces == e'.pieces
      {
        assert e' in ready;
        PrepareOthers(cfg, es, c.id, e');
      }
    }
  }

  lemma OwnChunk(cfg: Config, es: seq<Entry>, c: Chunk, ps: seq<Piece>)
    requires cfg.Valid() && PoolOk(cfg, es) && c.piece.End() <= cfg.mtu
    requires Holds(es, c.id, ps) && (Present(es, c.id) ==> !TimedOut(cfg, es[Position(es, c.id)]))
    ensures var (es', out) := Process(cfg, es, c);
            match AddPiece(cfg.maxChunks, ps, c.piece)
            case Failed => out.None?
            case Waiting(ps') => out.None? && Holds(es', c.id, ps')
            case Finished(frame) => out == Some(frame)
  {
    PrepareOk(cfg, es, c.id);
    var (ready, i) := Prepare(cfg, es, c.id);
    var out := AddPiece(cfg.maxChunks, ps, c.piece);
    assert ready[i].pieces == ps;
    if out.Waiting? {
      var es' := ready[i := Entry(c.id, out.pieces, 0)];
      assert es'[i].id == c.id;
      assert Position(es', c.id) == i;
    }
  }

  /** An action that does not deliver a chunk of frame `id`. */
  lemma OtherStep(cfg: Config, es: seq<Entry>, a: Act, id: nat, ps: seq<Piece>)
    requires cfg.Valid() && PoolOk(cfg, es) && Holds(es, id, ps)
    requires !(a.Deliver? && a.c.id == id) && (Present(es, id) ==> Present(Do(cfg, es, a).0, id))
    ensures Holds(Do(cfg, es, a).0, id, ps)
  {
    var es' := Do(cfg, es, a).0;
    match a {
      case Deliver(c) => ProcessNoNews(cfg, es, c, id);
      case PacketEnd(purge) => EndPacketNoNews(cfg, es, purge, id);
    }
    HoldsStill(es, es', id, ps);
  }

  /** The delivery of the next chunk of the frame. */
  lemma OwnStep(cfg: Config, es: seq<Entry>, c: Chunk, frame: Bytes, order: seq<Piece>, k: nat)
    requires cfg.Valid() && PoolOk(cfg, es) && |frame| <= cfg.mtu
    requires Tiles(frame, multiset(order)) && k < |order| <= cfg.maxChunks && c.piece == order[k]
    requires Holds(es, c.id, order[..k]) && (Present(es, c.id) ==> !TimedOut(cfg, es[Position(es, c.id)]))
    ensures var (es', out) := Process(cfg, es, c);
            if k + 1 == |order| then out == Some(frame) else out.None? && Holds(es', c.id, order[..k + 1])
  {
    assert order[k] in multiset(order);
    NextTile(cfg.maxChunks, frame, order, k);
    OwnChunk(cfg, es, c, order[..k]);
  }

  lemma {:induction false} NothingDelivered(cfg: Config, es: seq<Entry>, acts: seq<Act>, id: nat)
    requires cfg.Valid() && Delivered(acts, id) == []
    ensures Emitted(cfg, es, acts, id) == []
    decreases |acts|
  {
    if acts == [] {
    } else {
      NothingDelivered(cfg, Do(cfg, es, acts[0]).0, acts[1..], id);
    }
  }

  /** The first action of a run and what is left of the order after it. */
  lemma DeliveredNext(acts: seq<Act>, id: nat, order: seq<Piece>, k: nat)
    requires acts != [] && k < |order| && Delivered(acts, id) <= order[k..]
    ensures var rest := Delivered(acts[1..], id);
            if acts[0].Deliver? && acts[0].c.id == id then
              && acts[0].c.piece == order[k]
              && rest <= order[k + 1..]
              && (rest == order[k + 1..] <==> Delivered(acts, id) == order[k..])
            else rest == Delivered(acts, id)
  {
    if acts[0].Deliver? && acts[0].c.id == id {
      assert Delivered(acts, id)[0] == acts[0].c.piece && Delivered(acts, id)[1..] == Delivered(acts[1..], id);
      assert order[k..] == [order[k]] + order[k + 1..];
    }
  }

  lemma {:induction false} RestInAnyOrder(cfg: Config, es: seq<Entry>, acts: seq<Act>, id: nat, frame: Bytes,
                                          order: seq<Piece>, k: nat)
    requires cfg.Valid() && PoolOk(cfg, es) && |frame| <= cfg.mtu
    requires Tiles(frame, multiset(order)) && k < |order| <= cfg.maxChunks
    requires Delivered(acts, id) <= order[k..]
    requires Holds(es, id, order[..k]) && Survives(cfg, es, acts, id)
    ensures Emitted(cfg, es, acts, id) == if Delivered(acts, id) == order[k..] then [frame] else []
    decreases |acts|
  {
    if acts == [] {
    } else {
      var es' := Do(cfg, es, acts[0]).0;
      DoOk(cfg, es, acts[0]);
      DeliveredNext(acts, id, order, k);
      if acts[0].Deliver? && acts[0].c.id == id {
        OwnStep(cfg, es, acts[0].c, frame, order, k);
        if k + 1 == |order| {
          NothingDelivered(cfg, es', acts[1..], id);
        } else {
          RestInAnyOrder(cfg, es', acts[1..], id, frame, order, k + 1);
        }
      } else {
        OtherStep(cfg, es, acts[0], id, order[..k]);
        RestInAnyOrder(cfg, es', acts[1..], id, frame, order, k);
      }
    }
  }

  /**
    The chunks of a split frame may come in any order and between any other chunks. As long as the
    frame is neither evicted nor timed out, it comes out exactly once, with identical contents, and
    only when the last missing chunk is there.
  */
  lemma AnyOrder(cfg: Config, es: seq<Entry>, acts: seq<Act>, id: nat, frame: Bytes, order: seq<Piece>)
    requires cfg.Valid() && PoolOk(cfg, es) && !Present(es, id) && |frame| <= cfg.mtu
    requires Tiles(frame, multiset(order)) && |order| <= cfg.maxChunks
    requires Delivered(acts, id) <= order && Survives(cfg, es, acts, id)
    ensures Emitted(cfg, es, acts, id) == if Delivered(acts, id) == order then [frame] else []
  {
    assert order != [];
    assert order[0..] == order;
    RestInAnyOrder(cfg, es, acts, id, frame, order, 0);
  }
}
