/** How the packets of client/FragmentProtoDisassembler.c are filled, and when they are passed on. */
module FragmentPackets {
  import opened Common
  import opened FragmentChunks
  import opened FragmentDisassembler

  /** The bytes there are room for behind the first k chunks, at most as many as a chunk may have. */
  function Most(cfg: Config, cs: seq<Chunk>, k: nat): int
    requires k <= |cs|
  {
    var room := Room(cfg, cs[..k]);
    if 0 < cfg.chunkMtu < room then cfg.chunkMtu else room
  }

  /** A chunk has as many bytes as it can have, unless it ends its frame. */
  ghost predicate TightAt(cfg: Config, cs: seq<Chunk>, k: nat)
    requires k < |cs|
  {
    |cs[k].piece.data| <= Most(cfg, cs, k) && (!cs[k].piece.last ==> |cs[k].piece.data| == Most(cfg, cs, k))
  }

  ghost predicate Tight(cfg: Config, cs: seq<Chunk>) {
    forall k :: 0 <= k < |cs| ==> TightAt(cfg, cs, k)
  }

  lemma TightNext(cfg: Config, out: seq<Chunk>, id: nat, frame: Bytes, used: nat)
    requires cfg.Valid() && Tight(cfg, out) && Room(cfg, out) > 0 && used <= |frame|
    ensures Tight(cfg, Snoc(out, NextChunk(cfg, id, frame, used, Room(cfg, out))))
  {
    var c := NextChunk(cfg, id, frame, used, Room(cfg, out));
    forall k | 0 <= k < |out| + 1
      ensures TightAt(cfg, Snoc(out, c), k)
    {
      if k < |out| {
        assert TightAt(cfg, out, k);
        assert Snoc(out, c)[..k] == out[..k];
      } else {
        assert Snoc(out, c)[..k] == out;
      }
    }
  }

  lemma {:induction false} FillTight(cfg: Config, id: nat, frame: Bytes, used: nat, out: seq<Chunk>)
    requires cfg.Valid() && Room(cfg, out) > 0 && used <= |frame| && (used < |frame| || used == 0) && Tight(cfg, out)
    ensures Tight(cfg, Fill(cfg, id, frame, used, out).0)
    decreases |frame| - used
  {
    var c := NextChunk(cfg, id, frame, used, Room(cfg, out));
    TightNext(cfg, out, id, frame, used);
    if c.piece.End() < |frame| && Room(cfg, Snoc(out, c)) > 0 {
      FillTight(cfg, id, frame, c.piece.End(), Snoc(out, c));
    }
  }

  /** The packet being filled, if there is one. */
  function Filling(s: State): seq<Chunk> {
    if s.out.Some? then s.out.value else []
  }

  lemma WriteTight(cfg: Config, s: State)
    requires cfg.Valid() && s.input.Some? && s.out.Some? && Room(cfg, s.out.value) > 0
    requires (s.inUsed < |s.input.value| || s.inUsed == 0) && Tight(cfg, s.out.value)
    ensures var (s', packet) := WriteChunks(cfg, s);
            Tight(cfg, Filling(s')) && (packet.Some? ==> Tight(cfg, packet.value))
  {
    FillTight(cfg, s.frameId, s.input.value, s.inUsed, s.out.value);
  }

  lemma StepTight(cfg: Config, s: State, ev: Event)
    requires cfg.Valid() && Valid(cfg, s) && Enabled(cfg, s, ev) && Tight(cfg, Filling(s))
    ensures var (s', packet) := Step(cfg, s, ev);
            Tight(cfg, Filling(s')) && (packet.Some? ==> Tight(cfg, packet.value))
  {
    match ev
    case InputSend(frame) =>
      if s.out.Some? {
        WriteTight(cfg, s.(input := Some(frame), inUsed := 0));
      }
    case OutputRecv =>
      if s.input.Some? {
        WriteTight(cfg, s.(out := Some([])));
      }
    case _ =>
  }

  /** In every run, no chunk is longer than it may be, and none is shorter than it can be unless it ends its frame. */
  lemma {:induction false} PacketsTight(cfg: Config, evs: seq<Event>)
    requires cfg.Valid() && RunOf(cfg, evs).Some?
    ensures var run := RunOf(cfg, evs).value;
            Tight(cfg, Filling(run.s)) && forall k :: 0 <= k < |run.packets| ==> Tight(cfg, run.packets[k])
  {
    if evs == [] {
    } else {
      PacketsTight(cfg, evs[..|evs| - 1]);
      StepTight(cfg, RunOf(cfg, evs[..|evs| - 1]).value.s, evs[|evs| - 1]);
    }
  }

  /**
    A packet is passed on by an input or an output only if it has no room left or there is no latency, and what is not
    passed on waits for the timer, which passes on what there is.
  */
  lemma PassedWhenDue(cfg: Config, s: State, ev: Event)
    requires cfg.Valid() && Valid(cfg, s) && Enabled(cfg, s, ev)
    ensures var (s', packet) := Step(cfg, s, ev);
            && (packet.Some? && !ev.TimerFires? ==> cfg.latency < 0 || Room(cfg, packet.value) <= 0)
            && (Filling(s') != [] ==> cfg.latency >= 0 && Room(cfg, Filling(s')) > 0 && s'.timer && s'.input.None?)
            && (ev.TimerFires? ==> packet == Some(Filling(s)) && Filling(s) != [])
            && (ev.RequestCancel? ==> packet.None?)
  {
    StepValid(cfg, s, ev);
  }
}
