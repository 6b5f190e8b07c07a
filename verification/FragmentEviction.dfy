/** Which frame makes room for a new one, over whole runs of the assembler of flow/FragmentProtoAssembler.c. */
module FragmentEviction {
  import opened Common
  import opened FragmentChunks
  import opened FragmentAssembler
  import opened FragmentOrder
  import opened FragmentAges

  /** There is a frame with this id that has not timed out. */
  ghost predicate Usable(cfg: Config, es: seq<Entry>, id: nat) {
    exists e :: e in es && e.id == id && !TimedOut(cfg, e)
  }

  /** The act makes a frame for the id. */
  ghost predicate Makes(cfg: Config, es: seq<Entry>, a: Act, id: nat) {
    ChunkFor(cfg, a, id) && !Usable(cfg, es, id)
  }

  /** The act that made the last frame with this id, counted from 1. */
  ghost function Born(cfg: Config, acts: seq<Act>, id: nat): (n: nat)
    requires cfg.Valid()
    ensures n <= |acts|
  {
    if acts == [] then 0
    else
      var was, a := acts[..|acts| - 1], acts[|acts| - 1];
      if Makes(cfg, After(cfg, was), a, id) then |acts| else Born(cfg, was, id)
  }

  /** The frames are in the order in which they were made. */
  ghost predicate ByBirth(es: seq<Entry>, born: nat -> nat) {
    forall i, j :: 0 <= i < j < |es| ==> born(es[i].id) < born(es[j].id)
  }

  lemma RemoveByBirth(es: seq<Entry>, born: nat -> nat, k: nat)
    requires ByBirth(es, born) && k < |es|
    ensures ByBirth(Remove(es, k), born)
  {
    var r := Remove(es, k);
    forall i, j | 0 <= i < j < |r|
      ensures born(r[i].id) < born(r[j].id)
    {
      var a, b := if i < k then i else i + 1, if j < k then j else j + 1;
      assert r[i] == es[a] && r[j] == es[b] && a < b;
    }
  }

  lemma AppendByBirth(es: seq<Entry>, born: nat -> nat, e: Entry)
    requires ByBirth(es, born) && forall k :: 0 <= k < |es| ==> born(es[k].id) < born(e.id)
    ensures ByBirth(Snoc(es, e), born)
  {}

  lemma SameIds(es: seq<Entry>, es': seq<Entry>, born: nat -> nat)
    requires ByBirth(es, born) && |es'| == |es| && forall k :: 0 <= k < |es| ==> es'[k].id == es[k].id
    ensures ByBirth(es', born)
  {}

  lemma SameBirths(es: seq<Entry>, born: nat -> nat, born': nat -> nat)
    requires ByBirth(es, born) && forall k :: 0 <= k < |es| ==> born'(es[k].id) == born(es[k].id)
    ensures ByBirth(es, born')
  {}

  lemma {:induction false} PurgeByBirth(cfg: Config, es: seq<Entry>, born: nat -> nat)
    requires ByBirth(es, born)
    ensures ByBirth(Purge(cfg, es), born)
  {
    if es == [] {
    } else {
      RemoveByBirth(es, born, 0);
      assert Remove(es, 0) == es[1..];
      PurgeByBirth(cfg, es[1..], born);
      var r := Purge(cfg, es[1..]);
      forall k | 0 <= k < |r|
        ensures born(es[0].id) < born(r[k].id)
      {
        assert r[k] in es[1..];
      }
    }
  }

  /** `born'` is `born` after a frame for `id` was made by act n. */
  ghost predicate BornNext(born: nat -> nat, born': nat -> nat, made: bool, id: nat, n: nat) {
    forall i :: born'(i) == if made && i == id then n else born(i)
  }

  lemma UsableIsFirst(cfg: Config, es: seq<Entry>, id: nat)
    requires PoolOk(cfg, es)
    ensures Usable(cfg, es, id) <==> Position(es, id) < |es| && !TimedOut(cfg, es[Position(es, id)])
  {
    var k := Position(es, id);
    if k < |es| {
      assert es[k] in es;
    }
  }

  lemma PrepareByBirth(cfg: Config, es: seq<Entry>, id: nat, born: nat -> nat, born': nat -> nat, n: nat)
    requires cfg.Valid() && PoolOk(cfg, es) && ByBirth(es, born) && (forall i :: born(i) < n)
    requires BornNext(born, born', !Usable(cfg, es, id), id, n)
    ensures ByBirth(Prepare(cfg, es, id).0, born')
  {
    var k := Position(es, id);
    UsableIsFirst(cfg, es, id);
    if Usable(cfg, es, id) {
      SameBirths(es, born, born');
    } else {
      if k < |es| {
        RemoveByBirth(es, born, k);
        RemoveOk(cfg, es, k);
      }
      AllocateByBirth(cfg, if k < |es| then Remove(es, k) else es, id, born, born', n);
    }
  }

  lemma AllocateByBirth(cfg: Config, es: seq<Entry>, id: nat, born: nat -> nat, born': nat -> nat, n: nat)
    requires cfg.Valid() && PoolOk(cfg, es) && ByBirth(es, born) && (forall i :: born(i) < n)
    requires forall e :: e in es ==> e.id != id
    requires BornNext(born, born', true, id, n)
    ensures ByBirth(Allocate(cfg, es, id).0, born')
  {
    MakeRoomOk(cfg, es);
    var room := MakeRoom(cfg, es);
    if room != es {
      RemoveByBirth(es, born, 0);
    }
    forall k | 0 <= k < |room|
      ensures room[k].id != id
    {
      assert room[k] in es;
    }
    SameBirths(room, born, born');
    AppendByBirth(room, born', Entry(id, [], 0));
  }

  lemma DoByBirth(cfg: Config, es: seq<Entry>, a: Act, born: nat -> nat, born': nat -> nat, n: nat)
    requires cfg.Valid() && PoolOk(cfg, es) && ByBirth(es, born) && (forall i :: born(i) < n)
    requires forall id :: born'(id) == if Makes(cfg, es, a, id) then n else born(id)
    ensures ByBirth(Do(cfg, es, a).0, born')
  {
    match a
    case PacketEnd(purge) =>
      SameBirths(es, born, born');
      PurgeByBirth(cfg, es, born');
      SameIds(if purge then Purge(cfg, es) else es, EndPacket(cfg, es, purge), born');
    case Deliver(c) =>
      if c.piece.End() > cfg.mtu {
        SameBirths(es, born, born');
      } else {
        PrepareByBirth(cfg, es, c.id, born, born', n);
        var (ready, i) := Prepare(cfg, es, c.id);
        RemoveByBirth(ready, born', i);
        if AddPiece(cfg.maxChunks, ready[i].pieces, c.piece).Waiting? {
          SameIds(ready, Do(cfg, es, a).0, born');
        }
      }
  }

  /** In every run, the frames are in the order in which they were made. */
  lemma {:induction false} RunByBirth(cfg: Config, acts: seq<Act>)
    requires cfg.Valid()
    ensures ByBirth(After(cfg, acts), (id: nat) => Born(cfg, acts, id))
  {
    if acts == [] {
    } else {
      var was, a := acts[..|acts| - 1], acts[|acts| - 1];
      RunByBirth(cfg, was);
      AfterOk(cfg, was);
      DoByBirth(cfg, After(cfg, was), a, (id: nat) => Born(cfg, was, id), (id: nat) => Born(cfg, acts, id), |acts|);
    }
  }

  // ----- what becomes of the other frames

  /** The first frame makes room: there is none for the chunk, and none is free. */
  ghost predicate Evicts(cfg: Config, es: seq<Entry>, c: Chunk) {
    c.piece.End() <= cfg.mtu && |es| == cfg.numFrames && forall e :: e in es ==> e.id != c.id
  }

  lemma RemoveMember(es: seq<Entry>, k: nat, e: Entry)
    requires UniqueIds(es) && k < |es| && e in es
    ensures e in Remove(es, k) <==> e != es[k]
  {
    var j :| 0 <= j < |es| && es[j] == e;
    if j != k {
      assert Remove(es, k)[if j < k then j else j - 1] == e;
    }
  }

  lemma PrepareKeeps(cfg: Config, es: seq<Entry>, id: nat, e: Entry)
    requires cfg.Valid() && PoolOk(cfg, es) && e in es && e.id != id
    ensures e in Prepare(cfg, es, id).0
            <==> !(|es| == cfg.numFrames && (forall x :: x in es ==> x.id != id) && e == es[0])
  {
    var k := Position(es, id);
    if k < |es| {
      assert es[k] in es;
      RemoveMember(es, k, e);
      if TimedOut(cfg, es[k]) {
        assert Prepare(cfg, es, id).0[..|es| - 1] == Remove(es, k);
      }
    } else {
      var room := MakeRoom(cfg, es);
      if |es| == cfg.numFrames {
        RemoveMember(es, 0, e);
      }
      assert Prepare(cfg, es, id).0[..|room|] == room;
      assert e in Prepare(cfg, es, id).0 <==> e in room;
    }
  }

  lemma OthersStay(ready: seq<Entry>, i: nat, x: Entry, e: Entry)
    requires i < |ready| && e.id != ready[i].id && x.id == ready[i].id
    ensures e in Remove(ready, i) <==> e in ready
    ensures e in ready[i := x] <==> e in ready
  {
    if e in ready {
      var j :| 0 <= j < |ready| && ready[j] == e;
      assert Remove(ready, i)[if j < i then j else j - 1] == e;
      assert ready[i := x][j] == e;
    }
  }

  lemma ProcessKeeps(cfg: Config, es: seq<Entry>, c: Chunk, e: Entry)
    requires cfg.Valid() && PoolOk(cfg, es) && e in es && !ChunkFor(cfg, Deliver(c), e.id)
    ensures e in Process(cfg, es, c).0 <==> !(Evicts(cfg, es, c) && e == es[0])
  {
    if c.piece.End() <= cfg.mtu {
      PrepareKeeps(cfg, es, c.id, e);
      var (ready, i) := Prepare(cfg, es, c.id);
      var out := AddPiece(cfg.maxChunks, ready[i].pieces, c.piece);
      OthersStay(ready, i, Entry(c.id, if out.Waiting? then out.pieces else [], 0), e);
    }
  }

  /** The frame was made before all others that there are. */
  ghost predicate MadeFirst(cfg: Config, acts: seq<Act>, e: Entry)
    requires cfg.Valid()
  {
    forall x :: x in After(cfg, acts) && x != e ==> Born(cfg, acts, e.id) < Born(cfg, acts, x.id)
  }

  /**
    In every run, a frame that gets no chunk is lost to a chunk if and only if there is no frame for the chunk, none is
    free, and it was made before all the others.
  */
  lemma OldestIsEvicted(cfg: Config, acts: seq<Act>, c: Chunk, e: Entry)
    requires cfg.Valid() && e in After(cfg, acts) && !ChunkFor(cfg, Deliver(c), e.id)
    ensures e !in After(cfg, Snoc(acts, Deliver(c)))
        <==> Evicts(cfg, After(cfg, acts), c) && MadeFirst(cfg, acts, e)
  {
    var es := After(cfg, acts);
    AfterOk(cfg, acts);
    assert Snoc(acts, Deliver(c))[..|acts|] == acts;
    ProcessKeeps(cfg, es, c, e);
    FirstMadeFirst(cfg, acts, e);
  }

  lemma FirstMadeFirst(cfg: Config, acts: seq<Act>, e: Entry)
    requires cfg.Valid() && e in After(cfg, acts)
    ensures e == After(cfg, acts)[0] <==> MadeFirst(cfg, acts, e)
  {
    RunByBirth(cfg, acts);
    FirstIsOldest(After(cfg, acts), (id: nat) => Born(cfg, acts, id), e);
  }

  lemma FirstIsOldest(es: seq<Entry>, born: nat -> nat, e: Entry)
    requires ByBirth(es, born) && e in es
    ensures e == es[0] <==> forall x :: x in es && x != e ==> born(e.id) < born(x.id)
  {
    if e != es[0] {
      assert es[0] in es;
      var j :| 0 < j < |es| && es[j] == e;
      assert born(es[0].id) < born(es[j].id);
    }
  }

  /** At the end of a packet every frame grows older, and none is lost but timed-out ones, when the clock is rebased. */
  lemma EndPacketKeeps(cfg: Config, es: seq<Entry>, purge: bool, e: Entry)
    requires e in es
    ensures e.(age := e.age + 1) in EndPacket(cfg, es, purge) <==> !(purge && TimedOut(cfg, e))
  {
    var kept := if purge then Purge(cfg, es) else es;
    if e in kept {
      var k :| 0 <= k < |kept| && kept[k] == e;
      assert Older(kept)[k] == e.(age := e.age + 1);
    }
    if e.(age := e.age + 1) in Older(kept) {
      var k :| 0 <= k < |kept| && Older(kept)[k] == e.(age := e.age + 1);
      assert kept[k] == e;
    }
  }
}
