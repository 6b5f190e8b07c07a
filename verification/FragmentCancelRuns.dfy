/** Runs in which frames are cancelled in the middle, split into packets of one byte of payload each. */
module FragmentCancelRuns {
  import opened Common
  import opened FragmentChunks
  import opened FragmentAssembler
  import opened FragmentRoundTrip
  import D = FragmentDisassembler

  const SPLIT := D.Config(2, 8, -1, -1)

  const JOIN := Config(2, 3, 200_000)

  // ----- the two ends

  /** The events and the run, what the assembler made of its packets, and what the tracker did. */
  datatype Ends = Ends(evs: seq<D.Event>, run: D.Run, es: seq<Entry>, frames: seq<Bytes>, t: Tracker)

  const AT_REST := Ends([], D.RUN_START, [], [], AT_START)

  /** The pool and the frames after one more chunk and the end of its packet, with no rebase of the clock. */
  ghost function Took(es: seq<Entry>, frames: seq<Bytes>, c: Chunk): (seq<Entry>, seq<Bytes>) {
    var (es', out) := Process(JOIN, es, c);
    (Older(es'), if out.Some? then Snoc(frames, out.value) else frames)
  }

  /** What an assembler makes of its pool and its frames with one more chunk. */
  type Taker = (seq<Entry>, seq<Bytes>, Chunk) -> (seq<Entry>, seq<Bytes>)

  predicate CanSend(x: Ends, frame: Bytes) {
    x.run.s == D.State(None, x.run.s.inUsed, None, x.run.s.frameId, false) && 0 < |frame| <= 2
  }

  predicate CanPass(x: Ends) {
    var s := x.run.s;
    s == D.State(s.input, s.inUsed, None, s.frameId, false) && s.input.Some? && s.inUsed < |s.input.value| <= 2
  }

  /** A frame comes in. */
  function Send(x: Ends, frame: Bytes): Ends {
    x.(evs := Snoc(x.evs, D.InputSend(frame)),
       run := x.run.(s := x.run.s.(input := Some(frame), inUsed := 0), frames := Snoc(x.run.frames, frame)))
  }

  /** The chunk with the next byte. */
  function NextChunk(s: D.State): Chunk
    requires s.input.Some? && s.inUsed < |s.input.value|
  {
    Chunk(s.frameId, Piece(s.inUsed, [s.input.value[s.inUsed]], s.inUsed + 1 == |s.input.value|))
  }

  function Passed(s: D.State): D.State
    requires s.input.Some?
  {
    if s.inUsed + 1 == |s.input.value|
    then s.(input := None, inUsed := s.inUsed + 1, frameId := (s.frameId + 1) % UINT16_COUNT)
    else s.(inUsed := s.inUsed + 1)
  }

  /** A packet with its next byte is passed on. */
  ghost function Pass(took: Taker, x: Ends): Ends
    requires CanPass(x)
  {
    var c := NextChunk(x.run.s);
    var (es, frames) := took(x.es, x.frames, c);
    Ends(Snoc(x.evs, D.OutputRecv), x.run.(s := Passed(x.run.s), packets := Snoc(x.run.packets, [c])), es, frames,
         Track(JOIN, x.t, c))
  }

  /** It is cancelled. */
  function Cancel(x: Ends): Ends
    requires x.run.frames != []
  {
    x.(evs := Snoc(x.evs, D.RequestCancel),
       run := D.Run(x.run.s.(input := None), x.run.packets, x.run.frames[..|x.run.frames| - 1],
                    if x.run.s.inUsed > 0 then x.run.cuts + 1 else x.run.cuts))
  }

  // ----- they are what they say

  /** Packets of one chunk each. */
  ghost predicate Small(packets: seq<seq<Chunk>>) {
    forall k :: 0 <= k < |packets| ==> |packets[k]| == 1 && Good(packets[k])
  }

  function Falses(n: nat): (s: seq<bool>)
    ensures |s| == n
  {
    if n == 0 then [] else Snoc(Falses(n - 1), false)
  }

  ghost predicate Leads(evs: seq<D.Event>, run: D.Run) {
    D.RunOf(SPLIT, evs) == Some(run)
  }

  ghost predicate Makes(packets: seq<seq<Chunk>>, es: seq<Entry>, frames: seq<Bytes>, t: Tracker) {
    && Small(packets) && Assembled(JOIN, Encoded(packets), Falses(|packets|)) == (es, frames)
    && TrackFrom(JOIN, AT_START, D.Flatten(packets)) == t
  }

  ghost predicate Real(x: Ends) {
    Leads(x.evs, x.run) && Makes(x.run.packets, x.es, x.frames, x.t)
  }

  lemma FillByte(id: nat, frame: Bytes, k: nat, c: Chunk)
    requires k < |frame| && c == Chunk(id, Piece(k, [frame[k]], k + 1 == |frame|))
    ensures D.Fill(SPLIT, id, frame, k, []) == ([c], k + 1) && D.Size([c]) == 8
  {
    assert D.Size([]) == 0;
    assert D.NextChunk(SPLIT, id, frame, k, 1) == c;
    D.SizeAppend([], c);
    assert Snoc([], c) == [c];
  }

  lemma RunThen(evs: seq<D.Event>, run: D.Run, ev: D.Event, next: D.Run)
    requires Leads(evs, run) && D.Valid(SPLIT, run.s) && D.Enabled(SPLIT, run.s, ev) && next == D.Next(SPLIT, run, ev)
    ensures Leads(Snoc(evs, ev), next)
  {
    assert Snoc(evs, ev)[..|evs|] == evs;
  }

  lemma NextPass(run: D.Run)
    requires D.Valid(SPLIT, run.s) && run.s.input.Some? && run.s.inUsed < |run.s.input.value|
    requires run.s == D.State(run.s.input, run.s.inUsed, None, run.s.frameId, false)
    ensures D.Next(SPLIT, run, D.OutputRecv)
            == run.(s := Passed(run.s), packets := Snoc(run.packets, [NextChunk(run.s)]))
  {
    FillByte(run.s.frameId, run.s.input.value, run.s.inUsed, NextChunk(run.s));
  }

  lemma FeedOne(es: seq<Entry>, c: Chunk)
    ensures var (es', out) := Process(JOIN, es, c); Feed(JOIN, es, [c]) == (es', if out.Some? then [out.value] else [])
  {
    var (es', out) := Process(JOIN, es, c);
    assert [c][1..] == [];
    assert Feed(JOIN, es', [c][1..]) == (es', []);
    assert out.Some? ==> [out.value] + [] == [out.value];
  }

  lemma AssembledSnoc(packets: seq<Bytes>, rebases: seq<bool>, packet: Bytes, c: Chunk)
    requires |packets| == |rebases| && ParsePacket(packet) == [c]
    ensures var (es, frames) := Assembled(JOIN, packets, rebases);
            Assembled(JOIN, Snoc(packets, packet), Snoc(rebases, false)) == Took(es, frames, c)
  {
    var (es, frames) := Assembled(JOIN, packets, rebases);
    assert Snoc(packets, packet)[..|packets|] == packets && Snoc(rebases, false)[..|packets|] == rebases;
    FeedOne(es, c);
    var out := Process(JOIN, es, c).1;
    assert frames + [] == frames && (out.Some? ==> frames + [out.value] == Snoc(frames, out.value));
  }

  lemma EncodedSnoc(packets: seq<seq<Chunk>>, c: Chunk)
    requires Small(packets) && c.Fits()
    ensures Small(Snoc(packets, [c])) && Encoded(Snoc(packets, [c])) == Snoc(Encoded(packets), EncodePacket([c]))
  {
    assert Good([c]);
  }

  lemma JoinedNext(packets: seq<seq<Chunk>>, c: Chunk)
    requires Small(packets) && c.Fits()
    ensures Small(Snoc(packets, [c]))
    ensures var (es, frames) := Assembled(JOIN, Encoded(packets), Falses(|packets|));
            Assembled(JOIN, Encoded(Snoc(packets, [c])), Falses(|packets| + 1)) == Took(es, frames, c)
  {
    EncodedSnoc(packets, c);
    PacketRoundTrip([c]);
    AssembledSnoc(Encoded(packets), Falses(|packets|), EncodePacket([c]), c);
  }

  lemma TrackNext(packets: seq<seq<Chunk>>, c: Chunk)
    ensures TrackFrom(JOIN, AT_START, D.Flatten(Snoc(packets, [c])))
            == Track(JOIN, TrackFrom(JOIN, AT_START, D.Flatten(packets)), c)
  {
    D.FlattenAppend(packets, [c]);
    Parted(JOIN, D.NOTHING, AT_START, D.Flatten(packets), [c]);
    assert [c][1..] == [];
  }

  lemma MakesNext(packets: seq<seq<Chunk>>, c: Chunk, es: seq<Entry>, frames: seq<Bytes>, t: Tracker)
    requires Makes(packets, es, frames, t) && c.Fits()
    ensures Makes(Snoc(packets, [c]), Took(es, frames, c).0, Took(es, frames, c).1, Track(JOIN, t, c))
  {
    JoinedNext(packets, c);
    TrackNext(packets, c);
  }

  lemma RealSend(x: Ends, frame: Bytes)
    requires Real(x) && CanSend(x, frame)
    ensures Real(Send(x, frame))
  {
    RunThen(x.evs, x.run, D.InputSend(frame), Send(x, frame).run);
  }

  lemma RealPass(x: Ends)
    requires Real(x) && CanPass(x)
    ensures Real(Pass(Took, x))
  {
    NextPass(x.run);
    RunThen(x.evs, x.run, D.OutputRecv, Pass(Took, x).run);
    MakesNext(x.run.packets, NextChunk(x.run.s), x.es, x.frames, x.t);
  }

  lemma RealCancel(x: Ends)
    requires Real(x) && CanPass(x) && x.run.frames != []
    ensures Real(Cancel(x))
  {
    RunThen(x.evs, x.run, D.RequestCancel, Cancel(x).run);
  }

  /** A property that holds at rest and stays. */
  ghost predicate Stays(took: Taker, holds: Ends -> bool) {
    && holds(AT_REST)
    && (forall x, frame :: holds(x) && CanSend(x, frame) ==> holds(Send(x, frame)))
    && (forall x :: holds(x) && CanPass(x) ==> holds(Pass(took, x)))
    && (forall x :: holds(x) && CanPass(x) && x.run.frames != [] ==> holds(Cancel(x)))
  }

  // ----- one cancelled frame, and two in a row

  const FRAME: Bytes := [1, 2]

  const HEAD := Piece(0, [1], false)

  const TAIL := Piece(1, [2], true)

  const SHORT: Bytes := [3]

  const ALL := Piece(0, [3], true)

  /** A frame is cancelled after its first byte. */
  ghost function SendCancel(took: Taker, x: Ends): (y: Ends)
    requires CanSend(x, FRAME)
    ensures y.run.s == D.State(None, 1, None, x.run.s.frameId, false) && y.run.frames == x.run.frames
    ensures y.run.cuts == x.run.cuts + 1
    ensures var c := Chunk(x.run.s.frameId, HEAD);
            (y.es, y.frames) == took(x.es, x.frames, c) && y.t == Track(JOIN, x.t, c)
  {
    Cancel(Pass(took, Send(x, FRAME)))
  }

  lemma SendCancelHolds(took: Taker, holds: Ends -> bool, x: Ends)
    requires Stays(took, holds) && holds(x) && CanSend(x, FRAME)
    ensures holds(SendCancel(took, x))
  {}

  /** A frame is written whole. */
  ghost function SendWhole(took: Taker, x: Ends): (y: Ends)
    requires CanSend(x, FRAME)
    ensures y.run.s == D.State(None, 2, None, (x.run.s.frameId + 1) % UINT16_COUNT, false)
    ensures y.run.frames == Snoc(x.run.frames, FRAME) && y.run.cuts == x.run.cuts
    ensures var head, tail := Chunk(x.run.s.frameId, HEAD), Chunk(x.run.s.frameId, TAIL);
            && (y.es, y.frames) == took(took(x.es, x.frames, head).0, took(x.es, x.frames, head).1, tail)
            && y.t == Track(JOIN, Track(JOIN, x.t, head), tail)
  {
    Pass(took, Pass(took, Send(x, FRAME)))
  }

  lemma SendWholeHolds(took: Taker, holds: Ends -> bool, x: Ends)
    requires Stays(took, holds) && holds(x) && CanSend(x, FRAME)
    ensures holds(SendWhole(took, x))
  {}

  /** A frame of one byte is written whole. */
  ghost function SendShort(took: Taker, x: Ends): (y: Ends)
    requires CanSend(x, SHORT)
    ensures y.run.s == D.State(None, 1, None, (x.run.s.frameId + 1) % UINT16_COUNT, false)
    ensures y.run.frames == Snoc(x.run.frames, SHORT) && y.run.cuts == x.run.cuts
    ensures (y.es, y.frames) == took(x.es, x.frames, Chunk(x.run.s.frameId, ALL))
  {
    Pass(took, Send(x, SHORT))
  }

  lemma SendShortHolds(took: Taker, holds: Ends -> bool, x: Ends)
    requires Stays(took, holds) && holds(x) && CanSend(x, SHORT)
    ensures holds(SendShort(took, x))
  {}

  /** What the pieces do to a frame with none or with one of them. */
  lemma AddPieces()
    ensures AddPiece(3, [], HEAD) == Waiting([HEAD]) && AddPiece(3, [], TAIL) == Waiting([TAIL])
    ensures AddPiece(3, [HEAD], HEAD) == Failed
    ensures AddPiece(3, [HEAD], TAIL) == Finished(FRAME) == AddPiece(3, [TAIL], HEAD)
  {
    LengthAppend([], HEAD);
    LengthAppend([], TAIL);
    LengthAppend([HEAD], TAIL);
    LengthAppend([TAIL], HEAD);
    assert Snoc([], HEAD) == [HEAD] && Snoc([], TAIL) == [TAIL];
    assert Snoc([HEAD], TAIL) == [HEAD, TAIL] && Snoc([TAIL], HEAD) == [TAIL, HEAD];
    assert Overlap([HEAD][0], HEAD);
    BothBytes();
  }

  lemma BothBytes()
    ensures Contents([HEAD, TAIL], 2) == FRAME == Contents([TAIL, HEAD], 2)
  {
    assert [HEAD, TAIL][..1] == [HEAD] && [TAIL, HEAD][..1] == [TAIL];
    assert ByteAt([HEAD, TAIL], 0) == 1 == ByteAt([TAIL, HEAD], 0);
    assert ByteAt([HEAD, TAIL], 1) == 2 == ByteAt([TAIL, HEAD], 1);
  }

  /** What is left of a frame that was lost. */
  function Stale(age: nat): Entry { Entry(0, [TAIL], age) }

  function Half(id: nat, age: nat): Entry { Entry(id, [HEAD], age) }

  /** A frame is lost but for its tail; a head with the same id completes that. */
  lemma TookLost(frames: seq<Bytes>, age: nat)
    requires age <= JOIN.numFrames
    ensures Took([], frames, Chunk(0, HEAD)) == ([Half(0, 1)], frames)
    ensures Took([Half(0, 1)], frames, Chunk(0, HEAD)) == ([], frames)
    ensures Took([], frames, Chunk(0, TAIL)) == ([Stale(1)], frames)
    ensures Took([Stale(age)], frames, Chunk(0, HEAD)) == ([], Snoc(frames, FRAME))
  {
    AddPieces();
    assert Snoc([], Entry(0, [], 0)) == [Entry(0, [], 0)];
    assert [Entry(0, [], 0)][0 := Half(0, 0)] == [Half(0, 0)] && [Entry(0, [], 0)][0 := Stale(0)] == [Stale(0)];
    assert Remove([Half(0, 1)], 0) == [] && Remove([Stale(age)], 0) == [];
    assert Older([Half(0, 0)]) == [Half(0, 1)] && Older([Stale(0)]) == [Stale(1)] && Older([]) == [];
  }

  /** Another frame comes out beside what is left of the one that was lost. */
  lemma TookHead(id: nat, age: nat, frames: seq<Bytes>)
    requires 0 < id
    ensures Took([Stale(age)], frames, Chunk(id, HEAD)) == ([Stale(age + 1), Half(id, 1)], frames)
  {
    AddPieces();
    var ready := Snoc([Stale(age)], Entry(id, [], 0));
    assert Prepare(JOIN, [Stale(age)], id) == (ready, 1);
    assert ready[1 := Half(id, 0)] == [Stale(age), Half(id, 0)];
    assert Older([Stale(age), Half(id, 0)]) == [Stale(age + 1), Half(id, 1)];
  }

  lemma TookTail(id: nat, age: nat, frames: seq<Bytes>)
    requires 0 < id
    ensures Took([Stale(age), Half(id, 1)], frames, Chunk(id, TAIL)) == ([Stale(age + 1)], Snoc(frames, FRAME))
  {
    AddPieces();
    var es := [Stale(age), Half(id, 1)];
    assert Prepare(JOIN, es, id) == (es, 1) && Remove(es, 1) == [Stale(age)];
    assert Older([Stale(age)]) == [Stale(age + 1)];
  }

  lemma TookShort(frames: seq<Bytes>)
    ensures Took([Half(0, 1)], frames, Chunk(0, ALL)) == ([], frames)
  {
    assert Overlap([HEAD][0], ALL) && Remove([Half(0, 1)], 0) == [] && Older([]) == [];
  }

  lemma TookOnly(frames: seq<Bytes>)
    ensures Took([], frames, Chunk(0, ALL)) == ([], Snoc(frames, SHORT))
  {
    LengthAppend([], ALL);
    assert Snoc([], ALL) == [ALL] && Contents([ALL], 1) == SHORT;
    assert Snoc([], Entry(0, [], 0)) == [Entry(0, [], 0)] && Remove([Entry(0, [], 0)], 0) == [] && Older([]) == [];
  }

  /** All that the runs below need to know of the assembler. */
  ghost predicate Takes(took: Taker) {
    && (forall fs :: took([], fs, Chunk(0, HEAD)) == ([Half(0, 1)], fs))
    && (forall fs :: took([Half(0, 1)], fs, Chunk(0, HEAD)) == ([], fs))
    && (forall fs :: took([], fs, Chunk(0, TAIL)) == ([Stale(1)], fs))
    && (forall fs, age: nat :: age <= JOIN.numFrames ==>
      took([Stale(age)], fs, Chunk(0, HEAD)) == ([], Snoc(fs, FRAME)))
    && (forall fs, age: nat, id: nat :: 0 < id ==>
      took([Stale(age)], fs, Chunk(id, HEAD)) == ([Stale(age + 1), Half(id, 1)], fs))
    && (forall fs, age: nat, id: nat :: 0 < id ==>
          took([Stale(age), Half(id, 1)], fs, Chunk(id, TAIL)) == ([Stale(age + 1)], Snoc(fs, FRAME)))
    && (forall fs :: took([Half(0, 1)], fs, Chunk(0, ALL)) == ([], fs))
    && (forall fs :: took([], fs, Chunk(0, ALL)) == ([], Snoc(fs, SHORT)))
  }

  lemma TookTakes()
    ensures Takes(Took)
  {
    forall fs: seq<Bytes>, age: nat | age <= JOIN.numFrames
      ensures Took([Stale(age)], fs, Chunk(0, HEAD)) == ([], Snoc(fs, FRAME))
    {
      TookLost(fs, age);
    }
    forall fs: seq<Bytes>, age: nat, id: nat | 0 < id
      ensures Took([Stale(age)], fs, Chunk(id, HEAD)) == ([Stale(age + 1), Half(id, 1)], fs)
      ensures Took([Stale(age), Half(id, 1)], fs, Chunk(id, TAIL)) == ([Stale(age + 1)], Snoc(fs, FRAME))
    {
      TookHead(id, age, fs);
      TookTail(id, age, fs);
    }
    forall fs: seq<Bytes>
      ensures Took([], fs, Chunk(0, HEAD)) == ([Half(0, 1)], fs)
      ensures Took([Half(0, 1)], fs, Chunk(0, HEAD)) == ([], fs)
      ensures Took([], fs, Chunk(0, TAIL)) == ([Stale(1)], fs)
      ensures Took([Half(0, 1)], fs, Chunk(0, ALL)) == ([], fs)
      ensures Took([], fs, Chunk(0, ALL)) == ([], Snoc(fs, SHORT))
    {
      TookLost(fs, 0);
      TookShort(fs);
      TookOnly(fs);
    }
  }

  lemma RealStays()
    ensures Stays(Took, Real)
  {
    forall x, frame | Real(x) && CanSend(x, frame)
      ensures Real(Send(x, frame))
    {
      RealSend(x, frame);
    }
    forall x | Real(x) && CanPass(x)
      ensures Real(Pass(Took, x))
    {
      RealPass(x);
    }
    forall x | Real(x) && CanPass(x) && x.run.frames != []
      ensures Real(Cancel(x))
    {
      RealCancel(x);
    }
  }

  /** What the tracker makes of the head, and of the next frame. */
  lemma Tracked(t: Tracker, id: nat)
    ensures Track(JOIN, AT_START, Chunk(id, HEAD)) == Tracker([HEAD], true, 0)
    ensures Track(JOIN, Tracker([HEAD], true, 0), Chunk(id, HEAD)) == Tracker([], false, 0)
    ensures Track(JOIN, Tracker([], false, 0), Chunk(id, TAIL)).since == 1
    ensures Track(JOIN, t, Chunk(id, HEAD)).since == t.since <= Track(JOIN, t, Chunk(id, TAIL)).since
  {
    assert Snoc([], HEAD) == [HEAD] && Overlap([HEAD][0], HEAD);
  }

  /** The events lead to a run without anything held back. */
  ghost predicate Gives(x: Ends, whole: seq<Bytes>, frames: seq<Bytes>, cuts: nat) {
    Flushed(x.run.s) && WholeFrames(x.run) == whole && x.frames == frames && x.run.cuts == cuts
  }

  lemma LosesNext(took: Taker, holds: Ends -> bool) returns (x: Ends)
    requires Takes(took) && Stays(took, holds)
    ensures holds(x) && Gives(x, [SHORT], [], 1)
  {
    x := SendCancel(took, AT_REST);
    SendCancelHolds(took, holds, AT_REST);
    SendShortHolds(took, holds, x);
    x := SendShort(took, x);
    assert x.run.frames == [SHORT];
  }

  lemma SavesThird(took: Taker, holds: Ends -> bool) returns (x: Ends)
    requires Takes(took) && Stays(took, holds)
    ensures holds(x) && Gives(x, [SHORT], [SHORT], 2)
  {
    x := SendCancel(took, AT_REST);
    SendCancelHolds(took, holds, AT_REST);
    SendCancelHolds(took, holds, x);
    x := SendCancel(took, x);
    SendShortHolds(took, holds, x);
    x := SendShort(took, x);
    assert x.run.frames == [SHORT] == x.frames;
  }

  // ----- the frame id comes round

  ghost predicate Copies(frames: seq<Bytes>, n: nat) {
    |frames| == n && forall i :: 0 <= i < n ==> frames[i] == FRAME
  }

  /**
    A frame was lost and n more were written whole since. They came out, and there is still something left of
    the first.
  */
  ghost predicate OneBehind(x: Ends, n: nat, age: nat) {
    && x.run.s == D.State(None, 2, None, (n + 1) % UINT16_COUNT, false) && Copies(x.run.frames, n + 1)
      && x.run.cuts == 1
    && age == 2 * n + 1 && x.es == [Stale(age)] && Copies(x.frames, n) && x.t.since > 0
  }

  lemma BehindAfter(took: Taker, x: Ends, n: nat, age: nat)
    requires Takes(took) && OneBehind(x, n, age) && n + 1 < UINT16_COUNT
    ensures OneBehind(SendWhole(took, x), n + 1, age + 2)
  {
    var y, id := SendWhole(took, x), n + 1;
    assert x.run.s.frameId == id && (id + 1) % UINT16_COUNT == y.run.s.frameId;
    assert took([Stale(age)], x.frames, Chunk(id, HEAD)) == ([Stale(age + 1), Half(id, 1)], x.frames);
    assert took([Stale(age + 1), Half(id, 1)], x.frames, Chunk(id, TAIL))
      == ([Stale(age + 1 + 1)], Snoc(x.frames, FRAME));
    Tracked(x.t, id);
    Tracked(Track(JOIN, x.t, Chunk(id, HEAD)), id);
  }

  lemma {:induction false} Rounds(took: Taker, holds: Ends -> bool, n: nat) returns (x: Ends, age: nat)
    requires Takes(took) && Stays(took, holds) && n < UINT16_COUNT
    ensures holds(x) && OneBehind(x, n, age)
  {
    if n == 0 {
      x, age := SendCancel(took, AT_REST), 1;
      SendCancelHolds(took, holds, AT_REST);
      SendWholeHolds(took, holds, x);
      x := SendWhole(took, x);
      Tracked(AT_START, 0);
    } else {
      var y, a := Rounds(took, holds, n - 1);
      BehindAfter(took, y, n - 1, a);
      SendWholeHolds(took, holds, y);
      x, age := SendWhole(took, y), a + 2;
    }
  }

  lemma RoundAgain(took: Taker, holds: Ends -> bool) returns (x: Ends)
    requires Takes(took) && Stays(took, holds)
    ensures holds(x) && Gives(x, x.frames, x.frames, 2) && x.t.since > 0
  {
    var y, age := Rounds(took, holds, UINT16_COUNT - 1);
    SendCancelHolds(took, holds, y);
    x := SendCancel(took, y);
    Tracked(y.t, 0);
    assert Snoc(y.frames, FRAME) == y.run.frames;
  }

  // ----- what comes of the runs

  /** What the assembler makes of the packets of the run after the events, if its clock is not rebased. */
  ghost predicate Comes(evs: seq<D.Event>, whole: seq<Bytes>, frames: seq<Bytes>, cuts: nat) {
    && D.RunOf(SPLIT, evs).Some?
    && var run := D.RunOf(SPLIT, evs).value;
       && Flushed(run.s) && WholeFrames(run) == whole && run.cuts == cuts
       && Small(run.packets) && Assembled(JOIN, Encoded(run.packets), Falses(|run.packets|)).1 == frames
  }

  lemma RealComes(x: Ends, whole: seq<Bytes>, frames: seq<Bytes>, cuts: nat)
    requires Real(x) && Gives(x, whole, frames, cuts)
    ensures Comes(x.evs, whole, frames, cuts) && SinceLoss(JOIN, D.Flatten(x.run.packets)) == x.t.since
    ensures D.RunOf(SPLIT, x.evs) == Some(x.run)
  {}

  /** One byte of a frame is sent before it is cancelled: the next frame never comes out. */
  lemma CancelLosesNext() returns (evs: seq<D.Event>)
    ensures Comes(evs, [SHORT], [], 1)
  {
    TookTakes();
    RealStays();
    var x := LosesNext(Took, Real);
    RealComes(x, [SHORT], [], 1);
    evs := x.evs;
  }

  /**
    If the second frame is cancelled after its first byte too, that has cost the byte of the first, and the
    third comes out.
  */
  lemma SecondCancelSavesThird() returns (evs: seq<D.Event>)
    ensures Comes(evs, [SHORT], [SHORT], 2)
  {
    TookTakes();
    RealStays();
    var x := SavesThird(Took, Real);
    RealComes(x, [SHORT], [SHORT], 2);
    evs := x.evs;
  }

  /**
    A lost frame does not always show in what comes out: if the frame id comes round while there is something left
    of it, the next frame with its id can complete that, and be cancelled.
  */
  lemma IdComesRound() returns (evs: seq<D.Event>, frames: seq<Bytes>)
    ensures Comes(evs, frames, frames, 2) && SinceLoss(JOIN, D.Flatten(D.RunOf(SPLIT, evs).value.packets)) > 0
  {
    TookTakes();
    RealStays();
    var x := RoundAgain(Took, Real);
    RealComes(x, x.frames, x.frames, 2);
    evs, frames := x.evs, x.frames;
  }
}
