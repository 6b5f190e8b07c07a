/**
  What client/FragmentProtoAssembler.c does, on values: the used frames in the order they were
  allocated, each with the chunks accepted for it and with its age, the number of input packets
  finished since the last of them.
*/
module FragmentAssembler {
  import opened Common
  import opened FragmentChunks

  /** FPA_MAX_TIME */
  const MAX_TIME: int := 0xFFFF_FFFF

  datatype Config = Config(mtu: nat, maxChunks: nat, numFrames: nat) {
    ghost predicate Valid() {
      0 < maxChunks && 0 < numFrames < MAX_TIME
    }
  }

  datatype Entry = Entry(id: nat, pieces: seq<Piece>, age: nat)

  // ----- one frame

  /** The length of the frame, once its last chunk is known. */
  function Length(ps: seq<Piece>): Option<nat> {
    if ps == [] then None
    else if ps[|ps| - 1].last then Some(ps[|ps| - 1].End())
    else Length(ps[..|ps| - 1])
  }

  ghost predicate Complete(ps: seq<Piece>) {
    Length(ps).Some? && Sum(ps) >= Length(ps).value
  }

  /** Chunk p agrees with the chunks that the frame already has. */
  ghost predicate Agrees(ps: seq<Piece>, p: Piece) {
    && (forall k :: 0 <= k < |ps| ==> !Overlap(ps[k], p))
    && (if p.last then Length(ps).None? && Within(ps, p.End())
        else Length(ps).Some? ==> p.End() <= Length(ps).value)
  }

  datatype Outcome = Failed | Waiting(pieces: seq<Piece>) | Finished(frame: Bytes)

  ghost function AddPiece(maxChunks: nat, ps: seq<Piece>, p: Piece): Outcome {
    var ps' := Snoc(ps, p);
    if !Agrees(ps, p) then Failed
    else if Complete(ps') then Finished(Contents(ps', Length(ps').value))
    else if |ps'| == maxChunks then Failed
    else Waiting(ps')
  }

  /** The chunks of a frame that is being assembled. */
  ghost predicate PiecesOk(cfg: Config, ps: seq<Piece>) {
    && |ps| < cfg.maxChunks
    && Disjoint(ps)
    && Within(ps, cfg.mtu)
    && (Length(ps).Some? ==> Within(ps, Length(ps).value))
    && !Complete(ps)
  }

  lemma LengthAppend(ps: seq<Piece>, p: Piece)
    ensures Length(Snoc(ps, p)) == if p.last then Some(p.End()) else Length(ps)
    ensures Sum(Snoc(ps, p)) == Sum(ps) + |p.data|
  {
    assert Snoc(ps, p)[..|ps|] == ps;
  }

  /** Accepted chunks stay disjoint and within the frame. */
  lemma AgreesKeeps(cfg: Config, ps: seq<Piece>, p: Piece)
    requires PiecesOk(cfg, ps) && p.End() <= cfg.mtu && Agrees(ps, p)
    ensures var ps' := Snoc(ps, p);
            && Disjoint(ps') && Within(ps', cfg.mtu)
            && (Length(ps').Some? ==> Within(ps', Length(ps').value))
  {
    LengthAppend(ps, p);
  }

  /**
    When a frame is complete, its chunks tile it: their lengths add up to exactly the frame's length,
    all lie within it, and every byte of the frame is the payload byte of the one chunk that covers it.
  */
  lemma FinishedIsTiled(cfg: Config, ps: seq<Piece>, p: Piece)
    requires PiecesOk(cfg, ps) && p.End() <= cfg.mtu
    requires AddPiece(cfg.maxChunks, ps, p).Finished?
    ensures var ps', frame := Snoc(ps, p), AddPiece(cfg.maxChunks, ps, p).frame;
            && |frame| <= cfg.mtu
            && Sum(ps') == |frame|
            && Disjoint(ps') && Within(ps', |frame|)
            && (forall i: nat :: i < |frame| ==> CoveredOnce(ps', i))
            && (forall k, i: nat :: 0 <= k < |ps'| && Covers(ps'[k], i) ==> frame[i] == ps'[k].data[i - ps'[k].start])
  {
    var ps', frame := Snoc(ps, p), AddPiece(cfg.maxChunks, ps, p).frame;
    AgreesKeeps(cfg, ps, p);
    DisjointPiecesTile(ps', |frame|);
    LengthWithin(ps', cfg.mtu);
    forall k, i: nat | 0 <= k < |ps'| && Covers(ps'[k], i)
      ensures frame[i] == ps'[k].data[i - ps'[k].start]
    {
      ByteFromPiece(ps', i);
      var j :| 0 <= j < |ps'| && Covers(ps'[j], i) && ByteAt(ps', i) == ps'[j].data[i - ps'[j].start];
      assert CoveredOnce(ps', i);
    }
  }

  lemma {:induction false} LengthWithin(ps: seq<Piece>, end: nat)
    requires Within(ps, end)
    ensures Length(ps).Some? ==> Length(ps).value <= end
  {
    if ps != [] && !ps[|ps| - 1].last {
      assert forall k :: 0 <= k < |ps| - 1 ==> ps[..|ps| - 1][k] == ps[k];
      LengthWithin(ps[..|ps| - 1], end);
    }
  }

  // ----- the pool of frames

  function PositionFrom(es: seq<Entry>, id: nat, from: nat): (k: nat)
    requires from <= |es|
    ensures from <= k <= |es|
    ensures k < |es| ==> es[k].id == id
    ensures forall j :: from <= j < k ==> es[j].id != id
    decreases |es| - from
  {
    if from == |es| || es[from].id == id then from else PositionFrom(es, id, from + 1)
  }

  /** The first entry with this id. */
  function Position(es: seq<Entry>, id: nat): (k: nat)
    ensures k <= |es|
    ensures k < |es| ==> es[k].id == id
    ensures forall j :: 0 <= j < k ==> es[j].id != id
  {
    PositionFrom(es, id, 0)
  }

  function Remove<T>(s: seq<T>, k: nat): (r: seq<T>)
    requires k < |s|
    ensures |r| == |s| - 1
    ensures forall j :: 0 <= j < |r| ==> r[j] == s[if j < k then j else j + 1]
    ensures forall x :: x in r ==> x in s
  {
    seq(|s| - 1, j requires 0 <= j < |s| - 1 => s[if j < k then j else j + 1])
  }

  predicate TimedOut(cfg: Config, e: Entry) {
    e.age > cfg.numFrames
  }

  /**
    The frame for a chunk: the used one with that id, unless it timed out; otherwise a new one, for
    which the oldest frame makes room if none is free.
  */
  ghost function Prepare(cfg: Config, es: seq<Entry>, id: nat): (r: (seq<Entry>, nat))
    requires cfg.Valid()
    ensures r.1 < |r.0| && r.0[r.1].id == id
  {
    var k := Position(es, id);
    if k < |es| && !TimedOut(cfg, es[k]) then (es, k)
    else
      Allocate(cfg, if k < |es| then Remove(es, k) else es, id)
  }

  function Allocate(cfg: Config, es: seq<Entry>, id: nat): (seq<Entry>, nat) {
    var room := MakeRoom(cfg, es);
    (Snoc(room, Entry(id, [], 0)), |room|)
  }

  function MakeRoom(cfg: Config, es: seq<Entry>): seq<Entry> {
    if es != [] && |es| == cfg.numFrames then Remove(es, 0) else es
  }

  ghost function Process(cfg: Config, es: seq<Entry>, c: Chunk): (seq<Entry>, Option<Bytes>)
    requires cfg.Valid()
  {
    if c.piece.End() > cfg.mtu then (es, None)
    else
      var (ready, i) := Prepare(cfg, es, c.id);
      match AddPiece(cfg.maxChunks, ready[i].pieces, c.piece)
      case Failed => (Remove(ready, i), None)
      case Waiting(ps) => (ready[i := Entry(c.id, ps, 0)], None)
      case Finished(frame) => (Remove(ready, i), Some(frame))
  }

  /** Several chunks, and all the frames that they complete. */
  ghost function Feed(cfg: Config, es: seq<Entry>, cs: seq<Chunk>): (seq<Entry>, seq<Bytes>)
    requires cfg.Valid()
    decreases |cs|
  {
    if cs == [] then (es, []) else
      var (es', out) := Process(cfg, es, cs[0]);
      var (last, frames) := Feed(cfg, es', cs[1..]);
      (last, if out.Some? then [out.value] + frames else frames)
  }

  /** The end of an input packet. `purge` is set when the packet clock had to be rebased. */
  function EndPacket(cfg: Config, es: seq<Entry>, purge: bool): seq<Entry> {
    Older(if purge then Purge(cfg, es) else es)
  }

  function Older(es: seq<Entry>): (r: seq<Entry>)
    ensures |r| == |es| && forall k :: 0 <= k < |es| ==> r[k] == es[k].(age := es[k].age + 1)
  {
    seq(|es|, k requires 0 <= k < |es| => es[k].(age := es[k].age + 1))
  }

  /** reduce_times removes exactly the timed-out frames. */
  function Purge(cfg: Config, es: seq<Entry>): (r: seq<Entry>)
    ensures forall e :: e in r <==> e in es && !TimedOut(cfg, e)
    ensures |r| <= |es|
  {
    if es == [] then []
    else if TimedOut(cfg, es[0]) then Purge(cfg, es[1..])
    else [es[0]] + Purge(cfg, es[1..])
  }

  ghost predicate UniqueIds(es: seq<Entry>) {
    forall i, j :: 0 <= i < j < |es| ==> es[i].id != es[j].id
  }

  /** Every reachable state of the assembler. */
  ghost predicate PoolOk(cfg: Config, es: seq<Entry>) {
    && |es| <= cfg.numFrames
    && UniqueIds(es)
    && (forall k :: 0 <= k < |es| ==> |es[k].pieces| > 0 && PiecesOk(cfg, es[k].pieces))
  }

  lemma RemoveOk(cfg: Config, es: seq<Entry>, k: nat)
    requires PoolOk(cfg, es) && k < |es|
    ensures PoolOk(cfg, Remove(es, k))
    ensures forall j :: 0 <= j < |es| - 1 ==> Remove(es, k)[j] == es[if j < k then j else j + 1]
  {}

  lemma MakeRoomOk(cfg: Config, es: seq<Entry>)
    requires cfg.Valid() && PoolOk(cfg, es)
    ensures PoolOk(cfg, MakeRoom(cfg, es)) && |MakeRoom(cfg, es)| < cfg.numFrames
    ensures forall e :: e in MakeRoom(cfg, es) ==> e in es
  {
    if |es| == cfg.numFrames {
      RemoveOk(cfg, es, 0);
      assert Remove(es, 0) == es[1..];
    }
  }

  /** `ready` is a good pool but for its entry i, the frame of `id`, which may still be without chunks. */
  ghost predicate Ready(cfg: Config, ready: seq<Entry>, i: nat, id: nat) {
    && i < |ready| <= cfg.numFrames
    && PoolOk(cfg, Remove(ready, i))
    && (forall k :: 0 <= k < |ready| && k != i ==> ready[k].id != id)
    && PiecesOk(cfg, ready[i].pieces)
  }

  lemma AllocateOk(cfg: Config, es: seq<Entry>, id: nat)
    requires cfg.Valid() && PoolOk(cfg, es) && forall e :: e in es ==> e.id != id
    ensures var (ready, i) := Allocate(cfg, es, id); Ready(cfg, ready, i, id)
  {
    MakeRoomOk(cfg, es);
    var room := MakeRoom(cfg, es);
    assert Remove(Snoc(room, Entry(id, [], 0)), |room|) == room;
    assert forall j :: 0 <= j < |room| ==> room[j] in room;
  }

  lemma PrepareOk(cfg: Config, es: seq<Entry>, id: nat)
    requires cfg.Valid() && PoolOk(cfg, es)
    ensures var (ready, i) := Prepare(cfg, es, id); Ready(cfg, ready, i, id)
  {
    var k := Position(es, id);
    if k < |es| {
      RemoveOk(cfg, es, k);
    }
    if k == |es| || TimedOut(cfg, es[k]) {
      AllocateOk(cfg, if k < |es| then Remove(es, k) else es, id);
    }
  }

  lemma InsertOk(cfg: Config, ready: seq<Entry>, i: nat, e: Entry)
    requires Ready(cfg, ready, i, e.id)
    requires |e.pieces| > 0 && PiecesOk(cfg, e.pieces)
    ensures PoolOk(cfg, ready[i := e])
  {
    var others, es := Remove(ready, i), ready[i := e];
    forall k | 0 <= k < |es| && k != i
      ensures es[k] == others[if k < i then k else k - 1]
    {}
    InsertIds(others, es, i);
  }

  lemma InsertIds(others: seq<Entry>, es: seq<Entry>, i: nat)
    requires UniqueIds(others) && i < |es| == |others| + 1
    requires forall k :: 0 <= k < |es| && k != i ==> es[k] == others[if k < i then k else k - 1] && es[k].id != es[i].id
    ensures UniqueIds(es)
  {
    forall a, b | 0 <= a < b < |es|
      ensures es[a].id != es[b].id
    {
      if a != i && b != i {
        var x, y := if a < i then a else a - 1, if b < i then b else b - 1;
        assert others[x].id != others[y].id;
      }
    }
  }

  /** Every chunk, whatever it says, leaves a good pool. */
  lemma ProcessOk(cfg: Config, es: seq<Entry>, c: Chunk)
    requires cfg.Valid() && PoolOk(cfg, es)
    ensures PoolOk(cfg, Process(cfg, es, c).0)
  {
    if c.piece.End() <= cfg.mtu {
      PrepareOk(cfg, es, c.id);
      var (ready, i) := Prepare(cfg, es, c.id);
      var out := AddPiece(cfg.maxChunks, ready[i].pieces, c.piece);
      if out.Waiting? {
        AgreesKeeps(cfg, ready[i].pieces, c.piece);
        InsertOk(cfg, ready, i, Entry(c.id, out.pieces, 0));
      }
    }
  }

  lemma {:induction false} PurgeOk(cfg: Config, es: seq<Entry>)
    requires PoolOk(cfg, es)
    ensures PoolOk(cfg, Purge(cfg, es))
  {
    if es == [] {
    } else {
      RemoveOk(cfg, es, 0);
      assert Remove(es, 0) == es[1..];
      PurgeOk(cfg, es[1..]);
      var r := Purge(cfg, es[1..]);
      forall k | 0 <= k < |r|
        ensures r[k].id != es[0].id
      {
        assert r[k] in es[1..];
      }
    }
  }

  /** The end of a packet keeps the pool good and ages every frame that is left by one. */
  lemma EndPacketOk(cfg: Config, es: seq<Entry>, purge: bool)
    requires PoolOk(cfg, es)
    ensures PoolOk(cfg, EndPacket(cfg, es, purge))
  {
    PurgeOk(cfg, es);
  }
}
