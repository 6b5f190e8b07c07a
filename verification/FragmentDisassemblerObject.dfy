/** The disassembler as the C code runs it, writing headers and payloads into the output buffer it was given. */
module FragmentDisassemblerObject {
  import opened Common
  import opened FragmentChunks
  import D = FragmentDisassembler

  ghost predicate AllFit(cs: seq<Chunk>) {
    forall c :: c in cs ==> c.Fits()
  }

  /** The chunks cs are what was written to the start of the buffer. */
  ghost predicate Holds(buffer: Bytes, used: nat, cs: seq<Chunk>) {
    AllFit(cs) && used == D.Size(cs) <= |buffer| && buffer[..used] == EncodePacket(cs)
  }

  lemma HoldsMore(was: Bytes, now: Bytes, used: nat, cs: seq<Chunk>, c: Chunk)
    requires Holds(was, used, cs) && c.Fits() && used + |EncodeChunk(c)| <= |was| == |now|
    requires now == was[..used] + EncodeChunk(c) + was[used + |EncodeChunk(c)|..]
    ensures Holds(now, used + HEADER + |c.piece.data|, Snoc(cs, c))
  {
    D.SizeAppend(cs, c);
    EncodeAppend(cs, c);
    assert now[..used + |EncodeChunk(c)|] == was[..used] + EncodeChunk(c);
  }

  lemma CopiedTwice(was: Bytes, mid: Bytes, now: Bytes, at: nat, a: Bytes, b: Bytes)
    requires at + |a| + |b| <= |was|
    requires mid == was[..at] + a + was[at + |a|..]
    requires now == mid[..at + |a|] + b + mid[at + |a| + |b|..]
    ensures now == was[..at] + (a + b) + was[at + |a + b|..]
  {
    assert mid[..at + |a|] == was[..at] + a;
    assert mid[at + |a| + |b|..] == was[at + |a + b|..];
  }

  lemma FilledState(cfg: D.Config, was: D.State, now: D.State, out: seq<Chunk>, used: nat)
    requires was.input.Some? && now == was.(inUsed := used, out := Some(out))
    requires cfg.Valid() && was.out.Some? && D.Room(cfg, was.out.value) > 0
    requires was.inUsed < |was.input.value| || was.inUsed == 0
    requires (out, used) == D.Fill(cfg, was.frameId, was.input.value, was.inUsed, was.out.value)
    ensures D.AfterFill(cfg, now, out, used) == D.WriteChunks(cfg, was)
  {}

  method Copy(buffer: array<byte>, at: nat, data: Bytes)
    requires at + |data| <= buffer.Length
    modifies buffer
    ensures buffer[..] == old(buffer[..at]) + data + old(buffer[at + |data|..])
  {
    forall i | 0 <= i < |data| {
      buffer[at + i] := data[i];
    }
  }

  class FragmentProtoDisassembler {
    const cfg: D.Config
    var input: Option<Bytes>
    var inUsed: nat
    var out: array?<byte>
    var outUsed: nat
    var frameId: nat
    var timer: bool
    ghost var chunks: seq<Chunk>

    ghost predicate Consistent()
      reads this, out
    {
      && cfg.Valid()
      && (out != null ==> out.Length == cfg.outputMtu && Holds(out[..], outUsed, chunks))
    }

    ghost function State(): D.State
      reads this
    {
      D.State(input, inUsed, if out == null then None else Some(chunks), frameId, timer)
    }

    ghost predicate Valid()
      reads this, out
    {
      Consistent() && D.Valid(cfg, State())
    }

    constructor (cfg: D.Config)
      requires cfg.Valid()
      ensures Valid() && this.cfg == cfg && State() == D.START
    {
      this.cfg := cfg;
      input := None;
      inUsed := 0;
      out := null;
      outUsed := 0;
      frameId := 0;
      timer := false;
      chunks := [];
    }

    /** Writes one chunk, header and payload, behind the others. */
    method WriteChunk(c: Chunk)
      requires Consistent() && out != null && c.Fits() && D.Room(cfg, chunks) >= |c.piece.data|
      modifies `outUsed, `chunks, out
      ensures Consistent() && chunks == Snoc(old(chunks), c)
    {
      ghost var was := out[..];
      Copy(out, outUsed, Header(c));
      ghost var mid := out[..];
      Copy(out, outUsed + HEADER, c.piece.data);
      CopiedTwice(was, mid, out[..], outUsed, Header(c), c.piece.data);
      HoldsMore(was, out[..], outUsed, chunks, c);
      outUsed := outUsed + HEADER + |c.piece.data|;
      chunks := Snoc(chunks, c);
    }

    /** The do-while loop of write_chunks. */
    method FillOutput()
      requires Consistent() && out != null && D.Room(cfg, chunks) > 0
      requires input.Some? && |input.value| <= cfg.inputMtu && (inUsed < |input.value| || inUsed == 0)
      requires frameId < UINT16_COUNT
      modifies `inUsed, `outUsed, `chunks, out
      ensures Consistent() && (chunks, inUsed) == D.Fill(cfg, frameId, input.value, old(inUsed), old(chunks))
    {
      ghost var goal := D.Fill(cfg, frameId, input.value, inUsed, chunks);
      var more := true;
      while more
        invariant Consistent() && inUsed <= |input.value|
        invariant more ==> D.Room(cfg, chunks) > 0 && (inUsed < |input.value| || inUsed == 0)
        invariant goal == if more then D.Fill(cfg, frameId, input.value, inUsed, chunks) else (chunks, inUsed)
        decreases |input.value| - inUsed, more
      {
        var room := cfg.outputMtu - outUsed - HEADER;
        assert room == D.Room(cfg, chunks);
        var c := D.NextChunk(cfg, frameId, input.value, inUsed, room);
        D.SizeAppend(chunks, c);
        WriteChunk(c);
        inUsed := c.piece.End();
        more := inUsed < |input.value| && cfg.outputMtu - outUsed - HEADER > 0;
      }
    }

    /** The packet that is passed on, if the output packet is full. */
    method WriteChunks() returns (packet: Option<Bytes>)
      requires Consistent() && out != null && D.Room(cfg, chunks) > 0
      requires input.Some? && |input.value| <= cfg.inputMtu && (inUsed < |input.value| || inUsed == 0)
      requires frameId < UINT16_COUNT
      modifies this, out
      ensures Consistent() && (out == old(out) || out == null)
      ensures var (s, cs) := D.WriteChunks(cfg, old(State()));
              State() == s && PacketIs(packet, cs)
    {
      ghost var s0 := State();
      FillOutput();
      FilledState(cfg, s0, State(), chunks, inUsed);
      packet := EndWrite();
    }

    /** Finishes the frame and the packet, if they are. */
    method EndWrite() returns (packet: Option<Bytes>)
      requires Consistent() && input.Some? && out != null
      modifies this
      ensures Consistent() && (out == old(out) || out == null)
      ensures var (s, cs) := D.AfterFill(cfg, old(State()), old(chunks), old(inUsed));
              State() == s && PacketIs(packet, cs)
    {
      if |input.value| == inUsed {
        input := None;
        frameId := (frameId + 1) % UINT16_COUNT;
      }
      if cfg.outputMtu - outUsed - HEADER <= 0 || cfg.latency < 0 {
        packet := Some(out[..outUsed]);
        out := null;
        timer := false;
      } else {
        packet := None;
        timer := true;
      }
    }

    method InputHandlerSend(data: Bytes) returns (packet: Option<Bytes>)
      requires Valid() && D.Enabled(cfg, State(), D.InputSend(data))
      modifies this, out
      ensures Valid() && (out == old(out) || out == null)
      ensures var (s, cs) := D.Step(cfg, old(State()), D.InputSend(data));
              State() == s && PacketIs(packet, cs)
    {
      D.StepValid(cfg, State(), D.InputSend(data));
      input := Some(data);
      inUsed := 0;
      if out == null {
        return None;
      }
      packet := WriteChunks();
    }

    method OutputHandlerRecv(data: array<byte>) returns (packet: Option<Bytes>)
      requires Valid() && D.Enabled(cfg, State(), D.OutputRecv) && data.Length == cfg.outputMtu
      modifies this, data
      ensures Valid() && (out == data || out == null)
      ensures var (s, cs) := D.Step(cfg, old(State()), D.OutputRecv);
              State() == s && PacketIs(packet, cs)
    {
      D.StepValid(cfg, State(), D.OutputRecv);
      out := data;
      outUsed := 0;
      chunks := [];
      if input.None? {
        return None;
      }
      packet := WriteChunks();
    }

    method TimerHandler() returns (packet: Option<Bytes>)
      requires Valid() && D.Enabled(cfg, State(), D.TimerFires)
      modifies this
      ensures Valid() && out == null
      ensures var (s, cs) := D.Step(cfg, old(State()), D.TimerFires);
              State() == s && PacketIs(packet, cs)
    {
      D.StepValid(cfg, State(), D.TimerFires);
      packet := Some(out[..outUsed]);
      out := null;
      timer := false;
    }

    method InputHandlerRequestCancel()
      requires Valid() && D.Enabled(cfg, State(), D.RequestCancel)
      modifies this
      ensures Valid() && out == old(out) && State() == D.Step(cfg, old(State()), D.RequestCancel).0
    {
      D.StepValid(cfg, State(), D.RequestCancel);
      input := None;
    }

    /** Any event; the output supplies a new buffer when it is ready to receive. */
    method Handle(ev: D.Event) returns (packet: Option<Bytes>)
      requires Valid() && D.Enabled(cfg, State(), ev)
      modifies this, out
      ensures Valid() && (out == old(out) || out == null || fresh(out))
      ensures var (s, cs) := D.Step(cfg, old(State()), ev);
              State() == s && PacketIs(packet, cs)
    {
      match ev
      case InputSend(frame) => packet := InputHandlerSend(frame);
      case OutputRecv =>
        var data := new byte[cfg.outputMtu](_ => 0);
        packet := OutputHandlerRecv(data);
      case TimerFires => packet := TimerHandler();
      case RequestCancel =>
        InputHandlerRequestCancel();
        packet := None;
    }
  }

  /** The bytes of the packet are those of the chunks. */
  ghost predicate PacketIs(packet: Option<Bytes>, cs: Option<seq<Chunk>>) {
    if cs.None? then packet.None? else AllFit(cs.value) && packet == Some(EncodePacket(cs.value))
  }
}
