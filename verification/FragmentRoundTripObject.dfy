/** What the round trip of frames means for the two ends that the C code runs. */
module FragmentRoundTripObject {
  import opened Common
  import opened FragmentAssembler
  import opened FragmentChunks
  import opened FragmentRoundTrip
  import A = FragmentAssemblerObject
  import D = FragmentDisassembler
  import S = FragmentDisassemblerObject

  /** The packets are the bytes of those that the disassembler passed on. */
  ghost predicate PacketsOf(run: D.Run, packets: seq<Bytes>) {
    (forall k :: 0 <= k < |run.packets| ==> Good(run.packets[k])) && packets == Encoded(run.packets)
  }

  lemma PacketsNext(dcfg: D.Config, run: D.Run, ev: D.Event, packets: seq<Bytes>, packet: Option<Bytes>)
    requires dcfg.Valid() && D.RunOk(dcfg, run) && D.Enabled(dcfg, run.s, ev) && PacketsOf(run, packets)
    requires S.PacketIs(packet, D.Step(dcfg, run.s, ev).1)
    ensures PacketsOf(D.Next(dcfg, run, ev), if packet.Some? then Snoc(packets, packet.value) else packets)
  {
    D.NextOk(dcfg, run, ev);
    PacketsAreGood(dcfg, D.Next(dcfg, run, ev));
  }

  lemma {:induction false} RunPrefix(dcfg: D.Config, evs: seq<D.Event>, i: nat)
    requires dcfg.Valid() && D.RunOf(dcfg, evs).Some? && i <= |evs|
    ensures D.RunOf(dcfg, evs[..i]).Some?
    decreases |evs|
  {
    if i == |evs| {
      assert evs[..i] == evs;
    } else {
      RunPrefix(dcfg, evs[..|evs| - 1], i);
      assert evs[..|evs| - 1][..i] == evs[..i];
    }
  }

  lemma RunNext(dcfg: D.Config, evs: seq<D.Event>, i: nat)
    requires dcfg.Valid() && D.RunOf(dcfg, evs).Some? && i < |evs|
    ensures D.RunOf(dcfg, evs[..i]).Some? && D.Enabled(dcfg, D.RunOf(dcfg, evs[..i]).value.s, evs[i])
    ensures D.RunOf(dcfg, evs[..i + 1]) == Some(D.Next(dcfg, D.RunOf(dcfg, evs[..i]).value, evs[i]))
  {
    RunPrefix(dcfg, evs, i + 1);
    assert evs[..i + 1][..i] == evs[..i];
  }

  /** One event more. */
  method SplitNext(d: S.FragmentProtoDisassembler, ghost run: D.Run, ev: D.Event, packets: seq<Bytes>)
      returns (more: seq<Bytes>)
    requires d.Valid() && D.RunOk(d.cfg, run) && d.State() == run.s && D.Enabled(d.cfg, run.s, ev)
    requires PacketsOf(run, packets)
    modifies d, d.out
    ensures d.Valid() && (d.out == old(d.out) || d.out == null || fresh(d.out))
    ensures d.State() == D.Next(d.cfg, run, ev).s && PacketsOf(D.Next(d.cfg, run, ev), more)
  {
    var packet := d.Handle(ev);
    PacketsNext(d.cfg, run, ev, packets, packet);
    more := if packet.Some? then Snoc(packets, packet.value) else packets;
  }

  /** A new disassembler handles the events one after the other; the packets that it passes on. */
  method SplitAll(d: S.FragmentProtoDisassembler, evs: seq<D.Event>) returns (packets: seq<Bytes>)
    requires d.Valid() && d.State() == D.START && D.RunOf(d.cfg, evs).Some?
    modifies d, d.out
    ensures d.Valid() && d.State() == D.RunOf(d.cfg, evs).value.s && PacketsOf(D.RunOf(d.cfg, evs).value, packets)
  {
    packets := [];
    ghost var run := D.RUN_START;
    var i := 0;
    while i < |evs|
      invariant 0 <= i <= |evs| && d.Valid() && (d.out == old(d.out) || d.out == null || fresh(d.out))
      invariant D.RunOf(d.cfg, evs[..i]) == Some(run) && d.State() == run.s && PacketsOf(run, packets)
    {
      RunNext(d.cfg, evs, i);
      D.EveryRun(d.cfg, evs[..i]);
      packets := SplitNext(d, run, evs[i], packets);
      run := D.Next(d.cfg, run, evs[i]);
      i := i + 1;
    }
    assert evs[..i] == evs;
  }

  /** A new assembler gets the packets one after the other; what comes out, and when the packet clock was rebased. */
  method AssembleAll(a: A.FragmentProtoAssembler, packets: seq<Bytes>)
      returns (frames: seq<Bytes>, ghost rebases: seq<bool>)
    requires a.Valid() && a.input == None && a.State() == []
    modifies a
    ensures a.Valid() && |rebases| == |packets| && (a.State(), frames) == Assembled(a.cfg, packets, rebases)
  {
    frames, rebases := [], [];
    var i := 0;
    while i < |packets|
      invariant 0 <= i <= |packets| && a.Valid() && a.input == None && |rebases| == i
      invariant Gave(a.cfg, packets, rebases, a.State(), frames)
    {
      ghost var rebase;
      frames, rebase := AssembleNext(a, packets, i, frames, rebases);
      rebases := Snoc(rebases, rebase);
      i := i + 1;
    }
    assert packets[..i] == packets;
  }

  /** What came of the first packets, as many as there are in `rebases`. */
  ghost predicate Gave(cfg: Config, packets: seq<Bytes>, rebases: seq<bool>, es: seq<Entry>, frames: seq<Bytes>) {
    cfg.Valid() && |rebases| <= |packets| && (es, frames) == Assembled(cfg, packets[..|rebases|], rebases)
  }

  lemma GaveMore(cfg: Config, packets: seq<Bytes>, rebases: seq<bool>, es: seq<Entry>, frames: seq<Bytes>, rebase: bool,
                 es': seq<Entry>, more: seq<Bytes>)
    requires Gave(cfg, packets, rebases, es, frames) && |rebases| < |packets|
    requires var (fed, out) := Feed(cfg, es, ParsePacket(packets[|rebases|]));
             es' == EndPacket(cfg, fed, rebase) && more == out
    ensures Gave(cfg, packets, Snoc(rebases, rebase), es', frames + more)
  {
    var i := |rebases|;
    assert packets[..i + 1] == Snoc(packets[..i], packets[i]);
    AssembledLast(cfg, packets[..i], rebases, packets[i], rebase);
  }

  lemma AssembledLast(cfg: Config, packets: seq<Bytes>, rebases: seq<bool>, packet: Bytes, rebase: bool)
    requires cfg.Valid() && |packets| == |rebases|
    ensures var (es, frames) := Assembled(cfg, packets, rebases);
            var (fed, more) := Feed(cfg, es, ParsePacket(packet));
            Assembled(cfg, Snoc(packets, packet), Snoc(rebases, rebase)) == (EndPacket(cfg, fed, rebase), frames + more)
  {
    assert Snoc(packets, packet)[..|packets|] == packets && Snoc(rebases, rebase)[..|packets|] == rebases;
  }

  method AssembleNext(a: A.FragmentProtoAssembler, packets: seq<Bytes>, i: nat, frames: seq<Bytes>,
                      ghost rebases: seq<bool>)
      returns (all: seq<Bytes>, ghost rebase: bool)
    requires a.Valid() && a.input == None && i == |rebases| < |packets|
    requires Gave(a.cfg, packets, rebases, a.State(), frames)
    modifies a
    ensures a.Valid() && a.input == None && Gave(a.cfg, packets, Snoc(rebases, rebase), a.State(), all)
  {
    rebase := a.time == MAX_TIME;
    ghost var es := a.State();
    var more := a.ReceivePacket(packets[i]);
    GaveMore(a.cfg, packets, rebases, es, frames, rebase, a.State(), more);
    all := frames + more;
  }

  /**
    Two new ends with the limits that the client uses, any frames and any of them cancelled: the frames that were
    written whole come out, in order and once each, unless one of them was begun while the assembler had
    pieces of a cancelled one; then fewer do.
  */
  method Transfer(d: S.FragmentProtoDisassembler, a: A.FragmentProtoAssembler, evs: seq<D.Event>)
      returns (frames: seq<Bytes>)
    requires d.Valid() && d.State() == D.START && D.RunOf(d.cfg, evs).Some?
    requires a.Valid() && a.input == None && a.State() == [] && ClientLimits(d.cfg, a.cfg)
    modifies d, d.out, a
    ensures var run := D.RunOf(d.cfg, evs).value;
            var n := SinceLoss(a.cfg, D.Flatten(run.packets));
            && (n == 0 ==> frames <= WholeFrames(run) && (Flushed(run.s) ==> frames == WholeFrames(run)))
            && (0 < n < UINT16_COUNT ==> |frames| < |WholeFrames(run)|)
            && (run.cuts == 0 ==> n == 0)
  {
    var packets := SplitAll(d, evs);
    ghost var rebases;
    frames, rebases := AssembleAll(a, packets);
    RoundTrip(d.cfg, a.cfg, evs, rebases);
  }
}
