/** What the age of a frame counts, and which chunks it holds, over whole runs of the assembler. */
module FragmentAges {
  import opened Common
  import opened FragmentChunks
  import opened FragmentAssembler
  import opened FragmentOrder

  /** The pool after a run that started with no used frames. */
  ghost function After(cfg: Config, acts: seq<Act>): seq<Entry>
    requires cfg.Valid()
  {
    if acts == [] then [] else Do(cfg, After(cfg, acts[..|acts| - 1]), acts[|acts| - 1]).0
  }

  lemma {:induction false} AfterOk(cfg: Config, acts: seq<Act>)
    requires cfg.Valid()
    ensures PoolOk(cfg, After(cfg, acts))
  {
    if acts == [] {
    } else {
      var was := acts[..|acts| - 1];
      AfterOk(cfg, was);
      DoOk(cfg, After(cfg, was), acts[|acts| - 1]);
    }
  }

  /** The packets finished in the course of a run. */
  function PacketsFinished(acts: seq<Act>): nat {
    if acts == [] then 0
    else PacketsFinished(acts[..|acts| - 1]) + if acts[|acts| - 1].PacketEnd? then 1 else 0
  }

  /** A chunk for frame `id` that is looked at. */
  predicate ChunkFor(cfg: Config, a: Act, id: nat) {
    a.Deliver? && a.c.id == id && a.c.piece.End() <= cfg.mtu
  }

  /**
    The last chunk for e came with act j, and e is as many packets old as were finished since; it is timed out if these
    are more than there are frames.
  */
  ghost predicate Since(cfg: Config, acts: seq<Act>, e: Entry, j: nat) {
    && j < |acts|
    && ChunkFor(cfg, acts[j], e.id)
    && e.pieces != [] && e.pieces[|e.pieces| - 1] == acts[j].c.piece
    && (forall i :: j < i < |acts| ==> !ChunkFor(cfg, acts[i], e.id))
    && e.age == PacketsFinished(acts[j..]) && (TimedOut(cfg, e) <==> PacketsFinished(acts[j..]) > cfg.numFrames)
  }

  lemma SinceStill(cfg: Config, acts: seq<Act>, a: Act, e: Entry, e': Entry, j: nat)
    requires Since(cfg, acts, e, j) && e'.id == e.id && e'.pieces == e.pieces && !ChunkFor(cfg, a, e.id)
    requires e'.age == e.age + if a.PacketEnd? then 1 else 0
    ensures Since(cfg, acts + [a], e', j)
  {
    assert (acts + [a])[j..] == acts[j..] + [a];
    assert (acts[j..] + [a])[..|acts[j..]|] == acts[j..];
  }

  lemma SinceNow(cfg: Config, acts: seq<Act>, c: Chunk, e: Entry)
    requires ChunkFor(cfg, Deliver(c), e.id) && e.age == 0 && e.pieces != [] && e.pieces[|e.pieces| - 1] == c.piece
    ensures Since(cfg, acts + [Deliver(c)], e, |acts|)
  {
    assert (acts + [Deliver(c)])[|acts|..] == [Deliver(c)];
    assert [Deliver(c)][..0] == [];
  }

  /** Every entry after a chunk was processed is the one that got the chunk, or was there before. */
  lemma ProcessEntries(cfg: Config, es: seq<Entry>, c: Chunk, e: Entry)
    requires cfg.Valid() && PoolOk(cfg, es) && e in Process(cfg, es, c).0
    ensures if ChunkFor(cfg, Deliver(c), e.id)
            then e.age == 0 && e.pieces != [] && e.pieces[|e.pieces| - 1] == c.piece
            else e in es
  {
    if c.piece.End() <= cfg.mtu {
      PrepareOk(cfg, es, c.id);
      var (ready, i) := Prepare(cfg, es, c.id);
      if e.id != c.id {
        assert e in ready;
        PrepareOthers(cfg, es, c.id, e);
      } else {
        assert forall k :: 0 <= k < |ready| && k != i ==> ready[k].id != c.id;
        assert AddPiece(cfg.maxChunks, ready[i].pieces, c.piece).Waiting?;
      }
    }
  }

  lemma EndPacketEntries(cfg: Config, es: seq<Entry>, purge: bool, e': Entry) returns (e: Entry)
    requires e' in EndPacket(cfg, es, purge)
    ensures e in es && e' == e.(age := e.age + 1)
  {
    var kept := if purge then Purge(cfg, es) else es;
    var k :| 0 <= k < |kept| && e' == Older(kept)[k];
    assert kept[k] in kept;
    e := kept[k];
  }

  /**
    The age of a used frame, in every run, is the number of packets that were finished since its last
    chunk, even across rebases of the packet clock.
  */
  lemma {:induction false} AgeCountsPackets(cfg: Config, acts: seq<Act>, e: Entry)
    requires cfg.Valid() && e in After(cfg, acts)
    ensures exists j: nat :: Since(cfg, acts, e, j)
  {
    var was, a := acts[..|acts| - 1], acts[|acts| - 1];
    assert acts == was + [a];
    AfterOk(cfg, was);
    var es := After(cfg, was);
    match a {
      case Deliver(c) =>
        ProcessEntries(cfg, es, c, e);
        if ChunkFor(cfg, a, e.id) {
          SinceNow(cfg, was, c, e);
        } else {
          AgeCountsPackets(cfg, was, e);
          var j: nat :| Since(cfg, was, e, j);
          SinceStill(cfg, was, a, e, e, j);
        }
      case PacketEnd(purge) =>
        var e0 := EndPacketEntries(cfg, es, purge, e);
        AgeCountsPackets(cfg, was, e0);
        var j: nat :| Since(cfg, was, e0, j);
        SinceStill(cfg, was, a, e0, e, j);
    }
  }
}
