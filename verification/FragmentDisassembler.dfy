/**
  What client/FragmentProtoDisassembler.c does, on values, and what an in-order reader gets back
  from the chunks it writes.
*/
module FragmentDisassembler {
  import opened Common
  import opened FragmentChunks

  /** chunkMtu and latency are negative for none. */
  datatype Config = Config(inputMtu: nat, outputMtu: nat, chunkMtu: int, latency: int) {
    ghost predicate Valid() {
      inputMtu < UINT16_COUNT && outputMtu > HEADER && chunkMtu != 0
    }
  }

  /** The frame being split, how much of it was written, the packet being filled, and the flush timer. */
  datatype State = State(input: Option<Bytes>, inUsed: nat, out: Option<seq<Chunk>>, frameId: nat, timer: bool)

  const START := State(None, 0, None, 0, false)

  function Size(cs: seq<Chunk>): nat {
    if cs == [] then 0 else Size(cs[..|cs| - 1]) + HEADER + |cs[|cs| - 1].piece.data|
  }

  lemma SizeAppend(cs: seq<Chunk>, c: Chunk)
    ensures Size(Snoc(cs, c)) == Size(cs) + HEADER + |c.piece.data|
  {
    assert Snoc(cs, c)[..|cs|] == cs;
  }

  // ----- writing chunks

  /** OUT_AVAIL */
  function Room(cfg: Config, out: seq<Chunk>): int {
    cfg.outputMtu - Size(out) - HEADER
  }

  function ChunkLength(cfg: Config, left: nat, room: int): (n: nat)
    requires room > 0 && cfg.chunkMtu != 0
    ensures n <= left && n <= room
    ensures left > 0 ==> n > 0
    ensures cfg.chunkMtu < 0 && n < left ==> n == room
  {
    var n := if left < room then left else room;
    if cfg.chunkMtu > 0 && cfg.chunkMtu < n then cfg.chunkMtu else n
  }

  function NextChunk(cfg: Config, id: nat, frame: Bytes, used: nat, room: int): Chunk
    requires room > 0 && cfg.chunkMtu != 0 && used <= |frame|
  {
    var n := ChunkLength(cfg, |frame| - used, room);
    Chunk(id, Piece(used, frame[used..used + n], n == |frame| - used))
  }

  /** The chunk has the next bytes of the frame. */
  lemma NextChunkGoesOn(cfg: Config, id: nat, frame: Bytes, used: nat, room: int)
    requires room > 0 && cfg.chunkMtu != 0 && used <= |frame|
    ensures var p := NextChunk(cfg, id, frame, used, room).piece;
            && p.End() <= |frame| && frame[..used] + p.data == frame[..p.End()]
            && (p.last ==> p.End() == |frame| && frame[..used] + p.data == frame)
  {
    var p := NextChunk(cfg, id, frame, used, room).piece;
    assert frame[..used] + p.data == frame[..p.End()];
    assert frame[..|frame|] == frame;
  }

  /** The packet with as many chunks of the frame as fit, and how much of the frame is then written. */
  function Fill(cfg: Config, id: nat, frame: Bytes, used: nat, out: seq<Chunk>): (r: (seq<Chunk>, nat))
    requires cfg.Valid() && Room(cfg, out) > 0 && used <= |frame| && (used < |frame| || used == 0)
    ensures r.1 <= |frame|
    decreases |frame| - used
  {
    var c := NextChunk(cfg, id, frame, used, Room(cfg, out));
    SizeAppend(out, c);
    if c.piece.End() < |frame| && Room(cfg, Snoc(out, c)) > 0
    then Fill(cfg, id, frame, c.piece.End(), Snoc(out, c))
    else (Snoc(out, c), c.piece.End())
  }

  // ----- the handlers

  datatype Event = InputSend(frame: Bytes) | OutputRecv | TimerFires | RequestCancel

  /** What the callers may do. */
  ghost predicate Enabled(cfg: Config, s: State, ev: Event) {
    match ev
    case InputSend(frame) => s.input.None? && |frame| <= cfg.inputMtu
    case OutputRecv => s.out.None?
    case TimerFires => s.timer
    case RequestCancel => s.input.Some?
  }

  ghost predicate Valid(cfg: Config, s: State) {
    && s.frameId < UINT16_COUNT
    && (s.input.Some? ==>
          s.out.None? && |s.input.value| <= cfg.inputMtu && (s.inUsed < |s.input.value| || s.inUsed == 0))
    && (s.out.Some? ==> Room(cfg, s.out.value) > 0)
    && (s.timer <==> s.out.Some? && s.out.value != [])
    && (s.timer ==> cfg.latency >= 0)
  }

  /** write_chunks: the new state and the packet that is full, if one is. */
  function WriteChunks(cfg: Config, s: State): (State, Option<seq<Chunk>>)
    requires cfg.Valid() && s.input.Some? && s.out.Some? && Room(cfg, s.out.value) > 0
    requires s.inUsed < |s.input.value| || s.inUsed == 0
  {
    var (out, used) := Fill(cfg, s.frameId, s.input.value, s.inUsed, s.out.value);
    AfterFill(cfg, s, out, used)
  }

  /** What is done with the frame and with the packet once no more can be written. */
  function AfterFill(cfg: Config, s: State, out: seq<Chunk>, used: nat): (State, Option<seq<Chunk>>)
    requires s.input.Some?
  {
    var s1 := if used == |s.input.value|
              then s.(input := None, inUsed := used, frameId := (s.frameId + 1) % UINT16_COUNT)
              else s.(inUsed := used);
    if Room(cfg, out) <= 0 || cfg.latency < 0
    then (s1.(out := None, timer := false), Some(out))
    else (s1.(out := Some(out), timer := true), None)
  }

  function Step(cfg: Config, s: State, ev: Event): (State, Option<seq<Chunk>>)
    requires cfg.Valid() && Valid(cfg, s) && Enabled(cfg, s, ev)
  {
    match ev
    case InputSend(frame) =>
      var s1 := s.(input := Some(frame), inUsed := 0);
      if s.out.None? then (s1, None) else WriteChunks(cfg, s1)
    case OutputRecv =>
      var s1 := s.(out := Some([]));
      if s.input.None? then (s1, None) else WriteChunks(cfg, s1)
    case TimerFires => (s.(out := None, timer := false), s.out)
    case RequestCancel => (s.(input := None), None)
  }

  lemma {:induction false} FillEnds(cfg: Config, id: nat, frame: Bytes, used: nat, out: seq<Chunk>)
    requires cfg.Valid() && Room(cfg, out) > 0 && (used < |frame| || used == 0)
    ensures var (out', used') := Fill(cfg, id, frame, used, out);
            out' != [] && (used' == |frame| || (Room(cfg, out') <= 0 && used' < |frame|))
    decreases |frame| - used
  {
    var c := NextChunk(cfg, id, frame, used, Room(cfg, out));
    SizeAppend(out, c);
    if c.piece.End() < |frame| && Room(cfg, Snoc(out, c)) > 0 {
      FillEnds(cfg, id, frame, c.piece.End(), Snoc(out, c));
    }
  }

  /** After every handler the next ones find what they assert. */
  lemma StepValid(cfg: Config, s: State, ev: Event)
    requires cfg.Valid() && Valid(cfg, s) && Enabled(cfg, s, ev)
    ensures Valid(cfg, Step(cfg, s, ev).0)
  {
    match ev
    case InputSend(frame) =>
      if s.out.Some? {
        FillEnds(cfg, s.frameId, frame, 0, s.out.value);
      }
    case OutputRecv =>
      if s.input.Some? {
        FillEnds(cfg, s.frameId, s.input.value, s.inUsed, []);
      }
    case _ =>
  }

  // ----- a reader of chunks

  /** A frame that was read whole, and the number of chunks it took. */
  datatype Done = Done(frame: Bytes, chunks: nat)

  /**
    The frames read, and the id, the pieces and the bytes of the one being read; how many frames were given
    up in the middle; and the most pieces and bytes there ever were of a frame being read.
  */
  datatype Reader = Reader(id: nat, pieces: seq<Piece>, bytes: Bytes, done: seq<Done>, cuts: nat, peak: nat, reach: nat)

  const NOTHING := Reader(0, [], [], [], 0, 0, 0)

  /** The chunk continues where the previous one ended, or starts a frame. */
  predicate Continues(r: Reader, c: Chunk) {
    && c.id == r.id && (c.piece.start == 0 || c.piece.start == |r.bytes|)
    && (c.piece.data == [] ==> c.piece.start == 0 && c.piece.last)
  }

  /** A chunk that starts a frame gives up the one being read, and its id is used again. */
  function Rewound(r: Reader, c: Chunk): Reader {
    if c.piece.start == 0
    then r.(pieces := [], bytes := [], cuts := if r.pieces == [] then r.cuts else r.cuts + 1)
    else r
  }

  function Max(a: nat, b: nat): nat { if a < b then b else a }

  function ReadOn(r: Reader, c: Chunk): Reader {
    var bytes := r.bytes + c.piece.data;
    if c.piece.last
    then r.(id := (r.id + 1) % UINT16_COUNT, pieces := [], bytes := [],
            done := Snoc(r.done, Done(bytes, |r.pieces| + 1)))
    else r.(pieces := Snoc(r.pieces, c.piece), bytes := bytes,
            peak := Max(r.peak, |r.pieces| + 1), reach := Max(r.reach, |bytes|))
  }

  function Read(r: Reader, c: Chunk): Reader {
    ReadOn(Rewound(r, c), c)
  }

  /** None unless all of cs can be read in order. */
  function ReadAll(cs: seq<Chunk>): Option<Reader> {
    if cs == [] then Some(NOTHING)
    else
      var r := ReadAll(cs[..|cs| - 1]);
      if r.Some? && Continues(r.value, cs[|cs| - 1]) then Some(Read(r.value, cs[|cs| - 1])) else None
  }

  lemma ReadNext(cs: seq<Chunk>, c: Chunk)
    ensures ReadAll(Snoc(cs, c))
         == var r := ReadAll(cs);
            if r.Some? && Continues(r.value, c) then Some(Read(r.value, c)) else None
  {
    assert Snoc(cs, c)[..|cs|] == cs;
  }

  // ----- what the reader gets from a run

  /**
    A run so far: the state, the packets that were passed on, the frames that came in and were not
    cancelled, and how many were cancelled when some of their bytes had been written.
  */
  datatype Run = Run(s: State, packets: seq<seq<Chunk>>, frames: seq<Bytes>, cuts: nat)

  const RUN_START := Run(START, [], [], 0)

  function Next(cfg: Config, run: Run, ev: Event): Run
    requires cfg.Valid() && Valid(cfg, run.s) && Enabled(cfg, run.s, ev)
  {
    var (s, packet) := Step(cfg, run.s, ev);
    Run(s,
        if packet.Some? then Snoc(run.packets, packet.value) else run.packets,
        match ev
        case InputSend(frame) => Snoc(run.frames, frame)
        case RequestCancel => if run.frames == [] then [] else run.frames[..|run.frames| - 1]
        case _ => run.frames,
        if ev.RequestCancel? && run.s.inUsed > 0 then run.cuts + 1 else run.cuts)
  }

  function Flatten(packets: seq<seq<Chunk>>): seq<Chunk> {
    if packets == [] then [] else Flatten(packets[..|packets| - 1]) + packets[|packets| - 1]
  }

  /** All chunks written so far. */
  function Written(run: Run): seq<Chunk> {
    Flatten(run.packets) + if run.s.out.Some? then run.s.out.value else []
  }

  function Frames(done: seq<Done>): (fs: seq<Bytes>)
    ensures |fs| == |done| && forall k :: 0 <= k < |done| ==> fs[k] == done[k].frame
  {
    seq(|done|, k requires 0 <= k < |done| => done[k].frame)
  }

  /** fragmentproto_max_chunks_for_frame */
  function MaxChunks(carrierMtu: nat, frameMtu: nat): nat
    requires carrierMtu > HEADER
  {
    var payload := carrierMtu - HEADER;
    (frameMtu + payload - 1) / payload + 1
  }

  /** With no chunk limit: how much of a frame is written by its first n chunks. */
  ghost predicate BigChunks(cfg: Config, n: nat, bytes: nat) {
    cfg.chunkMtu < 0 && n > 0 ==> (n - 1) * (cfg.outputMtu - HEADER) < bytes
  }

  ghost predicate FewChunks(cfg: Config, d: Done)
    requires cfg.Valid()
  {
    |d.frame| <= cfg.inputMtu && (cfg.chunkMtu < 0 ==> d.chunks <= MaxChunks(cfg.outputMtu, |d.frame|))
  }

  /** No frame was longer, or took more chunks, than the MTUs say, also of those that were given up. */
  ghost predicate WithinLimits(cfg: Config, r: Reader)
    requires cfg.Valid()
  {
    && r.reach <= cfg.inputMtu && (cfg.chunkMtu < 0 ==> r.peak < MaxChunks(cfg.outputMtu, cfg.inputMtu))
    && forall k :: 0 <= k < |r.done| ==> FewChunks(cfg, r.done[k])
  }

  /**
    The reader of cs is in the middle of `frame`, of which `used` bytes were written, having read `before`;
    `cuts` frames were cancelled in the middle, the last of which the reader still has if none of `frame` was written.
  */
  ghost predicate Reading(cfg: Config, cs: seq<Chunk>, id: nat, frame: Bytes, used: nat, before: seq<Bytes>, cuts: nat)
    requires cfg.Valid()
  {
    ReadAll(cs).Some? && ReaderAt(cfg, ReadAll(cs).value, id, frame, used, before, cuts)
  }

  ghost predicate ReaderAt(cfg: Config, r: Reader, id: nat, frame: Bytes, used: nat, before: seq<Bytes>, cuts: nat)
    requires cfg.Valid()
  {
    && used <= |frame| <= cfg.inputMtu
    && r.id == id && Frames(r.done) == before && WithinLimits(cfg, r)
    && cuts == (if used == 0 && r.pieces != [] then r.cuts + 1 else r.cuts)
    && (used > 0 ==> r.bytes == frame[..used] && r.pieces != [] && BigChunks(cfg, |r.pieces|, used))
  }

  lemma CeilBound(n: nat, payload: nat, len: nat)
    requires payload > 0 && n * payload < len
    ensures n + 2 <= (len + payload - 1) / payload + 1
  {
    var q := (len + payload - 1) / payload;
    assert len <= q * payload;
    assert (n - q) * payload < 0;
  }

  /** The chunk is what the reader expects next. */
  lemma ReadStart(cfg: Config, cs: seq<Chunk>, id: nat, frame: Bytes, used: nat, before: seq<Bytes>, cuts: nat,
                  room: int)
      returns (r: Reader)
    requires cfg.Valid() && Reading(cfg, cs, id, frame, used, before, cuts) && room > 0 && (used < |frame| || used == 0)
    ensures ReadAll(Snoc(cs, NextChunk(cfg, id, frame, used, room)))
            == Some(ReadOn(r, NextChunk(cfg, id, frame, used, room)))
    ensures r.id == id && r.bytes == frame[..used] && Frames(r.done) == before && r.cuts == cuts && WithinLimits(cfg, r)
    ensures BigChunks(cfg, |r.pieces|, used) && (r.pieces == [] <==> used == 0)
  {
    var c := NextChunk(cfg, id, frame, used, room);
    ReadNext(cs, c);
    r := Rewound(ReadAll(cs).value, c);
  }

  lemma OneMoreIsBig(cfg: Config, n: nat, used: nat, len: nat)
    requires cfg.Valid() && BigChunks(cfg, n, used) && (n == 0 <==> used == 0) && 0 < len && used + len < cfg.inputMtu
    requires used > 0 && cfg.chunkMtu < 0 ==> len == cfg.outputMtu - HEADER
    ensures BigChunks(cfg, n + 1, used + len)
    ensures cfg.chunkMtu < 0 ==> n + 1 < MaxChunks(cfg.outputMtu, cfg.inputMtu)
  {
    if cfg.chunkMtu < 0 {
      var payload := cfg.outputMtu - HEADER;
      if used > 0 {
        assert n * payload == (n - 1) * payload + payload;
      }
      CeilBound(n, payload, cfg.inputMtu);
    }
  }

  /** A chunk that does not finish the frame. */
  lemma ReadMore(cfg: Config, cs: seq<Chunk>, id: nat, frame: Bytes, used: nat, before: seq<Bytes>, cuts: nat,
                 room: int)
    requires cfg.Valid() && Reading(cfg, cs, id, frame, used, before, cuts) && used < |frame| && room > 0
    requires used > 0 && cfg.chunkMtu < 0 ==> room == cfg.outputMtu - HEADER
    requires !NextChunk(cfg, id, frame, used, room).piece.last
    ensures var c := NextChunk(cfg, id, frame, used, room);
            Reading(cfg, Snoc(cs, c), id, frame, c.piece.End(), before, cuts)
  {
    var c := NextChunk(cfg, id, frame, used, room);
    var r := ReadStart(cfg, cs, id, frame, used, before, cuts, room);
    NextChunkGoesOn(cfg, id, frame, used, room);
    OneMoreIsBig(cfg, |r.pieces|, used, |c.piece.data|);
  }

  lemma OneMoreIsFew(cfg: Config, frame: Bytes, n: nat, used: nat)
    requires cfg.Valid() && BigChunks(cfg, n, used) && used <= |frame| <= cfg.inputMtu
    ensures FewChunks(cfg, Done(frame, n + 1))
  {
    if cfg.chunkMtu < 0 && n > 0 {
      CeilBound(n - 1, cfg.outputMtu - HEADER, |frame|);
    }
  }

  lemma ReaderAtEnd(cfg: Config, r: Reader, r': Reader, frame: Bytes, before: seq<Bytes>, d: Done)
    requires cfg.Valid() && WithinLimits(cfg, r) && Frames(r.done) == before && FewChunks(cfg, d) && d.frame == frame
    requires r'.done == Snoc(r.done, d) && r'.reach == r.reach && r'.peak == r.peak && r'.pieces == []
    ensures ReaderAt(cfg, r', r'.id, [], 0, Snoc(before, frame), r'.cuts)
  {}

  /** The chunk that finishes the frame. */
  lemma ReadLast(cfg: Config, cs: seq<Chunk>, id: nat, frame: Bytes, used: nat, before: seq<Bytes>, cuts: nat,
                 room: int)
    requires cfg.Valid() && Reading(cfg, cs, id, frame, used, before, cuts) && (used < |frame| || used == 0) && room > 0
    requires NextChunk(cfg, id, frame, used, room).piece.last
    ensures var c := NextChunk(cfg, id, frame, used, room);
            && c.piece.End() == |frame|
            && Reading(cfg, Snoc(cs, c), (id + 1) % UINT16_COUNT, [], 0, Snoc(before, frame), cuts)
  {
    var c := NextChunk(cfg, id, frame, used, room);
    var r := ReadStart(cfg, cs, id, frame, used, before, cuts, room);
    NextChunkGoesOn(cfg, id, frame, used, room);
    OneMoreIsFew(cfg, frame, |r.pieces|, used);
    ReaderAtEnd(cfg, r, ReadOn(r, c), frame, before, Done(frame, |r.pieces| + 1));
  }

  // ----- runs

  /** The reader is where the writer is. */
  ghost predicate Matches(cfg: Config, cs: seq<Chunk>, s: State, frames: seq<Bytes>, cuts: nat)
    requires cfg.Valid()
  {
    if s.input.None? then Reading(cfg, cs, s.frameId, [], 0, frames, cuts)
    else
      && frames != [] && frames[|frames| - 1] == s.input.value
      && Reading(cfg, cs, s.frameId, s.input.value, s.inUsed, frames[..|frames| - 1], cuts)
  }

  /** The packets passed on fit the output and are never empty. */
  ghost predicate GoodPacket(cfg: Config, cs: seq<Chunk>) {
    && 0 < |cs| && Size(cs) <= cfg.outputMtu
    && forall k :: 0 <= k < |cs| ==> cs[k].Fits()
  }

  ghost predicate RunOk(cfg: Config, run: Run)
    requires cfg.Valid()
  {
    && Valid(cfg, run.s)
    && (forall k :: 0 <= k < |run.packets| ==> GoodPacket(cfg, run.packets[k]))
    && (run.s.out.Some? && run.s.out.value != [] ==> GoodPacket(cfg, run.s.out.value))
    && Matches(cfg, Written(run), run.s, run.frames, run.cuts)
  }

  lemma GoodAppend(cfg: Config, out: seq<Chunk>, c: Chunk)
    requires (forall k :: 0 <= k < |out| ==> out[k].Fits()) && c.Fits() && |c.piece.data| <= Room(cfg, out)
    ensures GoodPacket(cfg, Snoc(out, c)) && Room(cfg, Snoc(out, c)) == Room(cfg, out) - HEADER - |c.piece.data|
  {
    SizeAppend(out, c);
  }

  /** What filling a packet does for the reader. */
  ghost predicate Filled(cfg: Config, prev: seq<Chunk>, id: nat, frame: Bytes, out: seq<Chunk>, used: nat,
                         before: seq<Bytes>, cuts: nat)
    requires cfg.Valid()
  {
    && GoodPacket(cfg, out)
    && (if used == |frame| then Reading(cfg, prev + out, (id + 1) % UINT16_COUNT, [], 0, Snoc(before, frame), cuts)
        else Room(cfg, out) <= 0 && 0 < used < |frame| && Reading(cfg, prev + out, id, frame, used, before, cuts))
  }

  lemma {:induction false} FillOk(cfg: Config, prev: seq<Chunk>, id: nat, frame: Bytes, used: nat, out: seq<Chunk>,
                                  before: seq<Bytes>, cuts: nat)
    requires cfg.Valid() && Room(cfg, out) > 0 && (used < |frame| || used == 0)
    requires id < UINT16_COUNT && |frame| <= cfg.inputMtu && forall k :: 0 <= k < |out| ==> out[k].Fits()
    requires Reading(cfg, prev + out, id, frame, used, before, cuts)
    requires used > 0 && cfg.chunkMtu < 0 ==> out == []
    ensures var (out', used') := Fill(cfg, id, frame, used, out);
            Filled(cfg, prev, id, frame, out', used', before, cuts)
    decreases |frame| - used
  {
    var room := Room(cfg, out);
    var c := NextChunk(cfg, id, frame, used, room);
    PlusSnoc(prev, out, c);
    GoodAppend(cfg, out, c);
    if c.piece.last {
      ReadLast(cfg, prev + out, id, frame, used, before, cuts, room);
    } else {
      ReadMore(cfg, prev + out, id, frame, used, before, cuts, room);
      if Room(cfg, Snoc(out, c)) > 0 {
        FillOk(cfg, prev, id, frame, c.piece.End(), Snoc(out, c), before, cuts);
      }
    }
  }

  lemma FlattenAppend(packets: seq<seq<Chunk>>, p: seq<Chunk>)
    ensures Flatten(Snoc(packets, p)) == Flatten(packets) + p
  {
    assert Snoc(packets, p)[..|packets|] == packets;
  }

  lemma AfterFillMatches(cfg: Config, prev: seq<Chunk>, s: State, frames: seq<Bytes>, cuts: nat, out: seq<Chunk>,
                         used: nat)
    requires cfg.Valid() && s.input.Some? && frames != [] && frames[|frames| - 1] == s.input.value
    requires Filled(cfg, prev, s.frameId, s.input.value, out, used, frames[..|frames| - 1], cuts)
    ensures Matches(cfg, prev + out, AfterFill(cfg, s, out, used).0, frames, cuts)
  {
    assert Snoc(frames[..|frames| - 1], s.input.value) == frames;
  }

  /** write_chunks writes `out`, which goes to the output or stays for more chunks. */
  ghost predicate Wrote(cfg: Config, s: State, packet: Option<seq<Chunk>>, out: seq<Chunk>) {
    && Valid(cfg, s) && GoodPacket(cfg, out)
    && if packet.Some? then packet.value == out && s.out.None? else s.out == Some(out)
  }

  lemma AfterFillWrote(cfg: Config, s: State, out: seq<Chunk>, used: nat)
    requires cfg.Valid() && s.input.Some? && |s.input.value| <= cfg.inputMtu && s.frameId < UINT16_COUNT
    requires GoodPacket(cfg, out) && (used == |s.input.value| || (Room(cfg, out) <= 0 && 0 < used < |s.input.value|))
    ensures var (s', packet) := AfterFill(cfg, s, out, used); Wrote(cfg, s', packet, out)
  {}

  /** write_chunks, with `prev` passed on before. */
  lemma WriteChunksOk(cfg: Config, prev: seq<Chunk>, s: State, frames: seq<Bytes>, cuts: nat) returns (out: seq<Chunk>)
    requires cfg.Valid() && s.input.Some? && s.out.Some? && Room(cfg, s.out.value) > 0
    requires s.frameId < UINT16_COUNT && |s.input.value| <= cfg.inputMtu
    requires s.inUsed < |s.input.value| || s.inUsed == 0
    requires s.inUsed > 0 ==> s.out.value == []
    requires forall k :: 0 <= k < |s.out.value| ==> s.out.value[k].Fits()
    requires Matches(cfg, prev + s.out.value, s, frames, cuts)
    ensures var (s', packet) := WriteChunks(cfg, s);
            Wrote(cfg, s', packet, out) && Matches(cfg, prev + out, s', frames, cuts)
  {
    FillOk(cfg, prev, s.frameId, s.input.value, s.inUsed, s.out.value, frames[..|frames| - 1], cuts);
    var (filled, used) := Fill(cfg, s.frameId, s.input.value, s.inUsed, s.out.value);
    out := filled;
    AfterFillMatches(cfg, prev, s, frames, cuts, out, used);
    AfterFillWrote(cfg, s, out, used);
  }

  lemma WrittenWrote(run: Run, next: Run, packet: Option<seq<Chunk>>, out: seq<Chunk>)
    requires next.packets == if packet.Some? then Snoc(run.packets, packet.value) else run.packets
    requires if packet.Some? then packet.value == out && next.s.out.None? else next.s.out == Some(out)
    ensures Written(next) == Flatten(run.packets) + out
  {
    if packet.Some? {
      FlattenAppend(run.packets, out);
      assert Flatten(next.packets) + [] == Flatten(next.packets);
    }
  }

  /** A run goes on with a packet that write_chunks left. */
  lemma WroteOk(cfg: Config, run: Run, next: Run, packet: Option<seq<Chunk>>, out: seq<Chunk>)
    requires cfg.Valid() && RunOk(cfg, run)
    requires next.packets == if packet.Some? then Snoc(run.packets, packet.value) else run.packets
    requires Wrote(cfg, next.s, packet, out) && Matches(cfg, Flatten(run.packets) + out, next.s, next.frames, next.cuts)
    ensures RunOk(cfg, next)
  {
    WrittenWrote(run, next, packet, out);
  }

  lemma WrittenNext(cfg: Config, run: Run, ev: Event)
    requires cfg.Valid() && Valid(cfg, run.s) && Enabled(cfg, run.s, ev)
    ensures var (s, packet) := Step(cfg, run.s, ev);
            Written(Next(cfg, run, ev))
            == Flatten(run.packets) + (if packet.Some? then packet.value else [])
               + (if s.out.Some? then s.out.value else [])
  {
    var packet := Step(cfg, run.s, ev).1;
    if packet.Some? {
      FlattenAppend(run.packets, packet.value);
    } else {
      assert Flatten(run.packets) + [] == Flatten(run.packets);
    }
  }

  /** Starting to write a frame that has just come in. */
  lemma StartOk(cfg: Config, prev: seq<Chunk>, s: State, frame: Bytes, frames: seq<Bytes>, cuts: nat)
    requires cfg.Valid() && s.input.None? && |frame| <= cfg.inputMtu && Matches(cfg, prev, s, frames, cuts)
    ensures Matches(cfg, prev, s.(input := Some(frame), inUsed := 0), Snoc(frames, frame), cuts)
  {
    assert Snoc(frames, frame)[..|frames|] == frames;
  }

  lemma InputSendOk(cfg: Config, run: Run, frame: Bytes)
    requires cfg.Valid() && RunOk(cfg, run) && Enabled(cfg, run.s, InputSend(frame))
    ensures RunOk(cfg, Next(cfg, run, InputSend(frame)))
  {
    var s1 := run.s.(input := Some(frame), inUsed := 0);
    StartOk(cfg, Written(run), run.s, frame, run.frames, run.cuts);
    var prev := Flatten(run.packets);
    if run.s.out.Some? {
      var out := WriteChunksOk(cfg, prev, s1, Snoc(run.frames, frame), run.cuts);
      var (s', packet) := WriteChunks(cfg, s1);
      WroteOk(cfg, run, Next(cfg, run, InputSend(frame)), packet, out);
    } else {
      WrittenNext(cfg, run, InputSend(frame));
      assert prev + [] + [] == prev + [];
    }
  }

  lemma OutputRecvOk(cfg: Config, run: Run)
    requires cfg.Valid() && RunOk(cfg, run) && Enabled(cfg, run.s, OutputRecv)
    ensures RunOk(cfg, Next(cfg, run, OutputRecv))
  {
    var s1 := run.s.(out := Some([]));
    var prev := Flatten(run.packets);
    if run.s.input.Some? {
      var out := WriteChunksOk(cfg, prev, s1, run.frames, run.cuts);
      var (s', packet) := WriteChunks(cfg, s1);
      WroteOk(cfg, run, Next(cfg, run, OutputRecv), packet, out);
    } else {
      WrittenNext(cfg, run, OutputRecv);
      assert prev + [] + [] == prev + [];
    }
  }

  lemma RestOk(cfg: Config, run: Run, ev: Event)
    requires cfg.Valid() && RunOk(cfg, run) && Enabled(cfg, run.s, ev)
    requires ev.TimerFires? || ev.RequestCancel?
    ensures RunOk(cfg, Next(cfg, run, ev))
  {
    WrittenNext(cfg, run, ev);
    var prev := Flatten(run.packets);
    assert run.s.out.Some? ==> prev + run.s.out.value + [] == prev + run.s.out.value;
    assert prev + [] + [] == prev + [];
  }

  /** Every handler, in every reachable state, keeps the reader where the writer is. */
  lemma NextOk(cfg: Config, run: Run, ev: Event)
    requires cfg.Valid() && RunOk(cfg, run) && Enabled(cfg, run.s, ev)
    ensures RunOk(cfg, Next(cfg, run, ev))
  {
    match ev
    case InputSend(frame) => InputSendOk(cfg, run, frame);
    case OutputRecv => OutputRecvOk(cfg, run);
    case _ => RestOk(cfg, run, ev);
  }

  /** The run after the events, if the callers kept to the protocol. */
  ghost function RunOf(cfg: Config, evs: seq<Event>): (run: Option<Run>)
    requires cfg.Valid()
    ensures run.Some? ==> Valid(cfg, run.value.s)
  {
    if evs == [] then Some(RUN_START)
    else
      var run, ev := RunOf(cfg, evs[..|evs| - 1]), evs[|evs| - 1];
      if run.None? || !Enabled(cfg, run.value.s, ev) then None
      else
        StepValid(cfg, run.value.s, ev);
        Some(Next(cfg, run.value, ev))
  }

  lemma AtStart(cfg: Config)
    requires cfg.Valid()
    ensures RunOk(cfg, RUN_START)
  {
    assert Written(RUN_START) == [];
    assert Reading(cfg, [], 0, [], 0, [], 0);
  }

  /** In every run the reader is where the writer is. */
  lemma {:induction false} EveryRun(cfg: Config, evs: seq<Event>)
    requires cfg.Valid() && RunOf(cfg, evs).Some?
    ensures RunOk(cfg, RunOf(cfg, evs).value)
  {
    if evs == [] {
      AtStart(cfg);
    } else {
      EveryRun(cfg, evs[..|evs| - 1]);
      NextOk(cfg, RunOf(cfg, evs[..|evs| - 1]).value, evs[|evs| - 1]);
    }
  }

  lemma ReaderGetsFrames(cfg: Config, cs: seq<Chunk>, s: State, frames: seq<Bytes>, cuts: nat)
    requires cfg.Valid() && Matches(cfg, cs, s, frames, cuts)
    ensures ReadAll(cs).Some?
    ensures var r := ReadAll(cs).value;
            && Frames(r.done) + (if s.input.Some? then [s.input.value] else []) == frames
            && (s.input.Some? && s.inUsed > 0 ==> r.bytes == s.input.value[..s.inUsed] && r.cuts == cuts)
            && (cfg.chunkMtu < 0 ==> forall d :: d in r.done ==> d.chunks <= MaxChunks(cfg.outputMtu, |d.frame|))
  {
    var r := ReadAll(cs).value;
    forall d | d in r.done
      ensures FewChunks(cfg, d)
    {
      var k :| 0 <= k < |r.done| && r.done[k] == d;
    }
  }

  /**
    In every run, all the chunks written so far are the frames that came in, whole and in order, with a part of
    each frame that was cancelled in the middle before the frame that came after it, and the part of the
    current frame that was written; without a chunk limit no frame took more chunks than
    fragmentproto_max_chunks_for_frame says.
  */
  lemma WrittenIsFrames(cfg: Config, evs: seq<Event>)
    requires cfg.Valid() && RunOf(cfg, evs).Some?
    ensures var run := RunOf(cfg, evs).value;
            && ReadAll(Written(run)).Some?
            && var r := ReadAll(Written(run)).value;
               && Frames(r.done) + (if run.s.input.Some? then [run.s.input.value] else []) == run.frames
               && (run.s.input.Some? && run.s.inUsed > 0 ==>
                 r.bytes == run.s.input.value[..run.s.inUsed] && r.cuts == run.cuts)
               && (cfg.chunkMtu < 0 ==> forall d :: d in r.done ==> d.chunks <= MaxChunks(cfg.outputMtu, |d.frame|))
  {
    var run := RunOf(cfg, evs).value;
    EveryRun(cfg, evs);
    ReaderGetsFrames(cfg, Written(run), run.s, run.frames, run.cuts);
  }
}
