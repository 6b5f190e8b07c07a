/** What cancelling frames in the middle costs: once, twice in a row, and across the wrap of the frame id. */
module FragmentCancel {
  import opened Common
  import opened FragmentChunks
  import opened FragmentAssembler
  import opened FragmentRoundTrip
  import D = FragmentDisassembler

  // ----- one cancelled frame

  lemma {:induction false} FillGrows(cfg: D.Config, id: nat, frame: Bytes, used: nat, out: seq<Chunk>)
    requires cfg.Valid() && D.Room(cfg, out) > 0 && used <= |frame| && (used < |frame| || used == 0)
    ensures var out' := D.Fill(cfg, id, frame, used, out).0;
            |out| < |out'| && out'[..|out|] == out && out'[|out|].piece.start == used
    decreases |frame| - used
  {
    var c := D.NextChunk(cfg, id, frame, used, D.Room(cfg, out));
    D.SizeAppend(out, c);
    assert Snoc(out, c)[..|out|] == out;
    if c.piece.End() < |frame| && D.Room(cfg, Snoc(out, c)) > 0 {
      FillGrows(cfg, id, frame, c.piece.End(), Snoc(out, c));
      var out' := D.Fill(cfg, id, frame, used, out).0;
      assert out'[..|out| + 1] == Snoc(out, c);
      assert out'[..|out|] == out'[..|out| + 1][..|out|];
    }
  }

  /** Nothing of the current frame was written, if there is one. */
  predicate Unstarted(s: D.State) {
    s.input.None? || s.inUsed == 0
  }

  /** What a handler writes goes behind what was written before. */
  ghost predicate Grows(was: D.Run, now: D.Run, more: seq<Chunk>) {
    && D.Written(now) == D.Written(was) + more
    && (Unstarted(was.s) ==> if more == [] then Unstarted(now.s) else more[0].piece.start == 0)
  }

  lemma WriteGrows(cfg: D.Config, run: D.Run, ev: D.Event, s1: D.State) returns (more: seq<Chunk>)
    requires cfg.Valid() && D.Valid(cfg, run.s) && D.Enabled(cfg, run.s, ev) && s1.input.Some? && s1.out.Some?
    requires D.Room(cfg, s1.out.value) > 0 && s1.inUsed <= |s1.input.value|
    requires s1.inUsed < |s1.input.value| || s1.inUsed == 0
    requires D.Written(run) == D.Flatten(run.packets) + s1.out.value && D.Step(cfg, run.s, ev) == D.WriteChunks(cfg, s1)
    requires Unstarted(run.s) ==> s1.inUsed == 0
    ensures Grows(run, D.Next(cfg, run, ev), more)
  {
    var out, prev := s1.out.value, D.Flatten(run.packets);
    var filled := D.Fill(cfg, s1.frameId, s1.input.value, s1.inUsed, out).0;
    FillGrows(cfg, s1.frameId, s1.input.value, s1.inUsed, out);
    more := filled[|out|..];
    assert filled == out + more;
    D.WrittenWrote(run, D.Next(cfg, run, ev), D.Step(cfg, run.s, ev).1, filled);
    Regroup(prev, out, more);
  }

  lemma WrittenGrows(cfg: D.Config, run: D.Run, ev: D.Event) returns (more: seq<Chunk>)
    requires cfg.Valid() && D.Valid(cfg, run.s) && D.Enabled(cfg, run.s, ev)
    ensures Grows(run, D.Next(cfg, run, ev), more)
  {
    if ev.InputSend? && run.s.out.Some? {
      more := WriteGrows(cfg, run, ev, run.s.(input := Some(ev.frame), inUsed := 0));
    } else if ev.OutputRecv? && run.s.input.Some? {
      more := WriteGrows(cfg, run, ev, run.s.(out := Some([])));
    } else {
      more := [];
      D.WrittenNext(cfg, run, ev);
    }
  }

  lemma GrowsOn(a: D.Run, b: D.Run, c: D.Run, m1: seq<Chunk>, m2: seq<Chunk>)
    requires Grows(a, b, m1) && Grows(b, c, m2)
    ensures Grows(a, c, m1 + m2)
  {
    Regroup(D.Written(a), m1, m2);
  }

  lemma RunSnoc(cfg: D.Config, evs: seq<D.Event>, ev: D.Event)
    requires cfg.Valid() && D.RunOf(cfg, Snoc(evs, ev)).Some?
    ensures D.RunOf(cfg, evs).Some? && D.Enabled(cfg, D.RunOf(cfg, evs).value.s, ev)
    ensures D.RunOf(cfg, Snoc(evs, ev)) == Some(D.Next(cfg, D.RunOf(cfg, evs).value, ev))
  {
    assert Snoc(evs, ev)[..|evs|] == evs;
  }

  lemma {:induction false} LaterGrows(cfg: D.Config, evs: seq<D.Event>, later: seq<D.Event>) returns (more: seq<Chunk>)
    requires cfg.Valid() && D.RunOf(cfg, evs + later).Some?
    ensures D.RunOf(cfg, evs).Some? && Grows(D.RunOf(cfg, evs).value, D.RunOf(cfg, evs + later).value, more)
    decreases |later|
  {
    if later == [] {
      assert evs + later == evs;
      more := [];
      assert D.Written(D.RunOf(cfg, evs).value) + [] == D.Written(D.RunOf(cfg, evs).value);
    } else {
      var n := |later| - 1;
      assert evs + later == Snoc(evs + later[..n], later[n]);
      RunSnoc(cfg, evs + later[..n], later[n]);
      var m1 := LaterGrows(cfg, evs, later[..n]);
      var run := D.RunOf(cfg, evs + later[..n]).value;
      var m2 := WrittenGrows(cfg, run, later[n]);
      GrowsOn(D.RunOf(cfg, evs).value, run, D.RunOf(cfg, evs + later).value, m1, m2);
      more := m1 + m2;
    }
  }

  lemma {:induction false} SinceCounts(cfg: Config, r: D.Reader, t: Tracker, cs: seq<Chunk>)
    requires ReadFrom(r, cs).Some? && t.since > 0
    ensures TrackFrom(cfg, t, cs).since - t.since == |ReadFrom(r, cs).value.done| - |r.done|
    decreases |cs|
  {
    if cs == [] {
    } else {
      SinceCounts(cfg, D.Read(r, cs[0]), Track(cfg, t, cs[0]), cs[1..]);
    }
  }

  /** A frame that was begun while pieces were held counts as lost when it is written whole. */
  lemma {:induction false} BlockedUntilDone(cfg: Config, r: D.Reader, t: Tracker, cs: seq<Chunk>)
    requires ReadFrom(r, cs).Some? && ReadFrom(r, cs).value.cuts == r.cuts
    requires r.pieces != [] && !t.clean && t.since == 0
    ensures TrackFrom(cfg, t, cs).since == |ReadFrom(r, cs).value.done| - |r.done|
    decreases |cs|
  {
    if cs == [] {
    } else {
      var c := cs[0];
      var r' := D.Read(r, c);
      CutsGrow(r', cs[1..]);
      if c.piece.last {
        SinceCounts(cfg, r', Track(cfg, t, c), cs[1..]);
      } else {
        BlockedUntilDone(cfg, r', Track(cfg, t, c), cs[1..]);
      }
    }
  }

  /** What is known of the assembler when the first frame is about to be cancelled in the middle. */
  lemma HeldAtCancel(cfg: Config, cs: seq<Chunk>)
    requires cfg.Valid() && ReadFrom(D.NOTHING, cs).Some? && Fits(cfg, ReadFrom(D.NOTHING, cs).value)
    requires ReadFrom(D.NOTHING, cs).value.cuts == 0 && ReadFrom(D.NOTHING, cs).value.pieces != []
    ensures var t := TrackFrom(cfg, AT_START, cs); t.since == 0 && t.held != []
  {
    NoCutsNoLoss(cfg, D.NOTHING, AT_START, cs);
    FeedSettles(cfg, [], D.NOTHING, AT_START, cs);
  }

  lemma LostAfterCancel(cfg: Config, r: D.Reader, t: Tracker, cs: seq<Chunk>)
    requires ReadFrom(r, cs).Some? && ReadFrom(r, cs).value.cuts <= r.cuts + 1
    requires r.pieces != [] && t.held != [] && t.since == 0 && (cs != [] ==> cs[0].piece.start == 0)
    ensures TrackFrom(cfg, t, cs).since == |ReadFrom(r, cs).value.done| - |r.done|
  {
    if cs != [] {
      var c := cs[0];
      CutsGrow(D.Read(r, c), cs[1..]);
      if c.piece.last {
        SinceCounts(cfg, D.Read(r, c), Track(cfg, t, c), cs[1..]);
      } else {
        BlockedUntilDone(cfg, D.Read(r, c), Track(cfg, t, c), cs[1..]);
      }
    }
  }

  /** The runs in which exactly one frame is cancelled in the middle, after the events `evs`. */
  ghost predicate CancelsOnce(dcfg: D.Config, evs: seq<D.Event>, later: seq<D.Event>)
    requires dcfg.Valid()
  {
    && D.RunOf(dcfg, evs + [D.RequestCancel] + later).Some?
      && D.RunOf(dcfg, evs + [D.RequestCancel] + later).value.cuts == 1
    && D.RunOf(dcfg, evs).Some? && D.RunOf(dcfg, evs).value.cuts == 0
    && D.RunOf(dcfg, evs).value.s.input.Some? && D.RunOf(dcfg, evs).value.s.inUsed > 0
  }

  /** If one frame is cancelled in the middle, the next one that is written whole is lost. */
  lemma LostAfterOne(dcfg: D.Config, cfg: Config, evs: seq<D.Event>, later: seq<D.Event>)
    requires ClientLimits(dcfg, cfg) && CancelsOnce(dcfg, evs, later)
    ensures var was, run := D.RunOf(dcfg, evs).value, D.RunOf(dcfg, evs + [D.RequestCancel] + later).value;
            SinceLoss(cfg, D.Written(run)) == |WholeFrames(run)| - |WholeFrames(was)|
  {
    var was, cut := D.RunOf(dcfg, evs).value, evs + [D.RequestCancel];
    assert cut[..|evs|] == evs;
    var more := LaterGrows(dcfg, cut, later);
    var run := D.RunOf(dcfg, cut + later).value;
    D.WrittenNext(dcfg, was, D.RequestCancel);
    assert D.Flatten(was.packets) + [] + [] == D.Flatten(was.packets) + [];
    assert D.Written(run) == D.Written(was) + more;
    D.EveryRun(dcfg, evs);
    D.EveryRun(dcfg, cut + later);
    ChunksSuffice(dcfg, cfg, was);
    WholeFramesRead(dcfg, was);
    WholeFramesRead(dcfg, run);
    ReadWhole(D.Written(was));
    ReadWhole(D.Written(run));
    HeldAtCancel(cfg, D.Written(was));
    Parted(cfg, D.NOTHING, AT_START, D.Written(was), more);
    LostAfterCancel(cfg, D.ReadAll(D.Written(was)).value, TrackFrom(cfg, AT_START, D.Written(was)), more);
  }

  /**
    A run in which one frame is cancelled in the middle: the frames come out on time if and only if none is
    written whole after that. As long as these are not so many that the frame id comes round, the frames that come
    out are those that were written whole if and only if there are none after the cancelled one.
  */
  lemma OneCancel(dcfg: D.Config, cfg: Config, evs: seq<D.Event>, later: seq<D.Event>, rebases: seq<bool>)
    requires ClientLimits(dcfg, cfg) && CancelsOnce(dcfg, evs, later)
    requires Flushed(D.RunOf(dcfg, evs + [D.RequestCancel] + later).value.s)
    requires |rebases| == |D.RunOf(dcfg, evs + [D.RequestCancel] + later).value.packets|
    ensures var was, run := D.RunOf(dcfg, evs).value, D.RunOf(dcfg, evs + [D.RequestCancel] + later).value;
            && (forall k :: 0 <= k < |run.packets| ==> Good(run.packets[k]))
            && var after := |WholeFrames(run)| - |WholeFrames(was)|;
               && (OnTime(cfg, run.packets, rebases) <==> after == 0)
               && (after < UINT16_COUNT ==>
                     (Assembled(cfg, Encoded(run.packets), rebases).1 == WholeFrames(run) <==> after == 0))
  {
    var all := evs + [D.RequestCancel] + later;
    var run := D.RunOf(dcfg, all).value;
    LostAfterOne(dcfg, cfg, evs, later);
    RoundTrip(dcfg, cfg, all, rebases);
    assert D.Written(run) == D.Flatten(run.packets);
  }
}
