/** Which relay flows there are and where they and the local flows go, told from what has happened to the client. */
module RelayFlowHistory {
  import opened Common
  import opened Lists
  import opened RelayAssignment
  import opened RelayNetwork
  import H = RelayHistory
  import F = RelayFlows

  type Pair = (Id, Id)

  /** The event ends the relay flow. */
  predicate Ends(ev: Event, k: Pair) {
    match ev
    case PeerRemove(p) => p == k.0 || p == k.1
    case Inactive(s, d) => (s, d) == k
    case _ => false
  }

  /** A frame was to be relayed, and the flow for it has not been inactive since nor lost one of its peers. */
  predicate Relayed(evs: seq<Event>, k: Pair) {
    evs != [] &&
    var ev := evs[|evs| - 1];
    ev == RelayFrame(k.0, k.1) || (!Ends(ev, k) && Relayed(evs[..|evs| - 1], k))
  }

  /** The flow of the last frame to be relayed, until the frame is passed to it or the flow ends. */
  function Routing(evs: seq<Event>): Option<Pair> {
    if evs == [] then None
    else
      var ev, before := evs[|evs| - 1], Routing(evs[..|evs| - 1]);
      match ev
      case RelayFrame(s, d) => Some((s, d))
      case RouteFrame => None
      case _ => if before.Some? && Ends(ev, before.value) then None else before
  }

  // ----- what an event does to the relay flows

  ghost predicate SameFlows(dp: F.State, dp': F.State) {
    dp'.desired.Keys == dp.desired.Keys && dp'.current == dp.current
  }

  /** The flow is one of peer p. */
  predicate With(k: Pair, p: Id) {
    k.0 == p || k.1 == p
  }

  ghost predicate Loses(dp: F.State, dp': F.State, p: Id) {
    && (forall k :: k in dp'.desired <==> k in dp.desired && !With(k, p))
    && dp'.current == if dp.current.Some? && With(dp.current.value, p) then None else dp.current
  }

  lemma DropLinkFlows(st: State, p: Id)
    requires Valid(st) && p in st.net.peers && st.net.peers[p].haveLink
    ensures SameFlows(st.dp, DropLink(st, p).dp)
  {
    assert DropLink(st, p).dp == F.SetSink(st.dp, p, None);
  }

  lemma CleanupFlows(st: State, p: Id)
    requires Valid(st) && p in st.net.peers
    ensures SameFlows(st.dp, Cleanup(st, p).dp)
  {
    if st.net.peers[p].haveLink {
      DropLinkFlows(st, p);
    } else {
      assert Cleanup(st, p).dp == st.dp;
    }
  }

  lemma {:induction false} SourceCurrent(dp: F.State, s: Id)
    requires F.Inv(dp) && s in dp.sources
    ensures F.FreeSourceFlows(dp, s).current
            == if dp.current.Some? && dp.current.value.0 == s then None else dp.current
    decreases |dp.sources[s]|
  {
    assert F.SourceOk(dp, s);
    if dp.sources[s] == [] {
      if dp.current.Some? {
        assert F.FlowOk(dp, dp.current.value.0, dp.current.value.1);
      }
    } else {
      var d := dp.sources[s][0];
      assert F.FlowOk(dp, s, d);
      F.FreeFlowInv(dp, s, d);
      F.WithoutFirst(dp.sources[s]);
      SourceCurrent(F.FreeFlow(dp, s, d), s);
    }
  }

  lemma {:induction false} SinkCurrent(dp: F.State, d: Id)
    requires F.Inv(dp) && d in dp.sinks
    ensures F.FreeSinkFlows(dp, d).current
            == if dp.current.Some? && dp.current.value.1 == d then None else dp.current
    decreases |dp.sinks[d].flows|
  {
    assert F.SinkOk(dp, d);
    if dp.sinks[d].flows == [] {
      if dp.current.Some? {
        assert F.FlowOk(dp, dp.current.value.0, dp.current.value.1);
      }
    } else {
      var s := dp.sinks[d].flows[0];
      assert F.FlowOk(dp, s, d);
      F.FreeFlowInv(dp, s, d);
      F.WithoutFirst(dp.sinks[d].flows);
      SinkCurrent(F.FreeFlow(dp, s, d), d);
    }
  }

  lemma PeerFlowsGo(dp: F.State, p: Id)
    requires F.Inv(dp) && p in dp.sources && p in dp.sinks
    ensures F.Inv(F.SinkFree(dp, p)) && p in F.SinkFree(dp, p).sources
    ensures Loses(dp, F.SourceFree(F.SinkFree(dp, p), p), p)
  {
    F.FreeInv(dp, p);
    SinkCurrent(dp, p);
    SourceCurrent(F.SinkFree(dp, p), p);
  }

  lemma ForgetFlows(st: State, p: Id)
    requires Valid(st) && Unconnected(st.net, p) && !st.net.peers[p].isRelay
    ensures Loses(st.dp, ForgetPeer(st, p).dp, p)
  {
    assert Joined(st, p);
    PeerFlowsGo(st.dp, p);
  }

  lemma LosesAfter(a: F.State, b: F.State, c: F.State, p: Id)
    requires SameFlows(a, b) && Loses(b, c, p)
    ensures Loses(a, c, p)
  {
    forall k ensures k in c.desired
      <==> k in a.desired && !With(k, p) { assert k in b.desired.Keys <==> k in a.desired; }
  }

  lemma RemoveFlows(st: State, p: Id)
    requires Valid(st) && p in st.net.peers
    ensures Loses(st.dp, RemovePeer(st, p).dp, p)
  {
    var st1 := Cleanup(st, p);
    CleanupFlows(st, p);
    ForgetFlows(st1, p);
    LosesAfter(st.dp, st1.dp, RemovePeer(st, p).dp, p);
  }

  lemma LinkFlows(st: State, ev: Event)
    requires Valid(st) && May(st, ev)
    requires ev.FreshLink? || ev.PeerReset? || ev.PeerNeedsRelay?
    ensures SameFlows(st.dp, Handle(st, ev).dp)
  {
    var st1 := Cleanup(st, ev.p);
    CleanupFlows(st, ev.p);
    match ev
    case FreshLink(p, ok) => assert Handle(st, ev).dp == if ok then F.SetSink(st1.dp, p, Some(p)) else st1.dp;
    case PeerReset(p) =>
    case PeerNeedsRelay(p) => assert Handle(st, ev).dp == if st.net.peers[p].waiting then st.dp else st1.dp;
  }

  lemma SubmittedFlow(dp: F.State, s: Id, d: Id, k: Pair)
    requires F.Inv(dp) && F.Has(dp, s, d)
    ensures k in F.SubmitFrame(dp, s, d).desired <==> k == (s, d) || k in dp.desired
  {
    assert F.SourceOk(dp, s);
  }

  /** The flows after an event, told from those before. */
  ghost predicate FlowsNext(dp: F.State, ev: Event, dp': F.State) {
    && (forall k :: k in dp'.desired <==> ev == RelayFrame(k.0, k.1) || (k in dp.desired && !Ends(ev, k)))
    && dp'.current == (match ev
                       case RelayFrame(s, d) => Some((s, d))
                       case RouteFrame => None
                       case _ => if dp.current.Some? && Ends(ev, dp.current.value) then None else dp.current)
  }

  lemma SameFlowsNext(dp: F.State, ev: Event, dp': F.State)
    requires SameFlows(dp, dp') && !ev.RelayFrame? && !ev.RouteFrame? && !ev.PeerRemove? && !ev.Inactive?
    ensures FlowsNext(dp, ev, dp')
  {
    forall k ensures k in dp'.desired
      <==> k in dp.desired && !Ends(ev, k) { assert k in dp'.desired.Keys <==> k in dp.desired; }
  }

  lemma FlowsStep(st: State, ev: Event)
    requires Valid(st) && May(st, ev)
    ensures FlowsNext(st.dp, ev, Handle(st, ev).dp)
  {
    var dp, dp' := st.dp, Handle(st, ev).dp;
    match ev
    case PeerRemove(p) =>
      RemoveFlows(st, p);
      LosesNext(dp, dp', p);
    case RelayFrame(s, d) =>
      assert Joined(st, s) && Joined(st, d);
      forall k ensures k in dp'.desired <==> k == (s, d) || k in dp.desired { SubmittedFlow(dp, s, d, k); }
    case RouteFrame =>
    case Inactive(s, d) =>
    case FreshLink(_, _) => LinkFlows(st, ev); SameFlowsNext(dp, ev, dp');
    case PeerReset(_) => LinkFlows(st, ev); SameFlowsNext(dp, ev, dp');
    case PeerNeedsRelay(_) => LinkFlows(st, ev); SameFlowsNext(dp, ev, dp');
    case _ =>
      SameFlowsNext(dp, ev, dp');
  }

  lemma LosesNext(dp: F.State, dp': F.State, p: Id)
    requires Loses(dp, dp', p)
    ensures FlowsNext(dp, PeerRemove(p), dp')
  {}

  // ----- over whole runs

  ghost predicate FlowsAsTold(dp: F.State, evs: seq<Event>) {
    (forall k :: k in dp.desired <==> Relayed(evs, k)) && dp.current == Routing(evs)
  }

  lemma {:induction false} FlowsOfRun(evs: seq<Event>)
    requires Run(evs).Some?
    ensures FlowsAsTold(Run(evs).value.dp, evs)
  {
    if evs == [] {
    } else {
      var before, ev := evs[..|evs| - 1], evs[|evs| - 1];
      FlowsOfRun(before);
      FlowsStep(Run(before).value, ev);
    }
  }

  /**
    In every run, there is a relay flow from s to d if and only if a frame was relayed and the flow did not end since;
    it goes to the link of d, if d has one, and nowhere otherwise; and a frame that is to be passed on goes to the flow
    it was submitted for.
  */
  lemma RelayFlowsAreTold(evs: seq<Event>, s: Id, d: Id)
    requires Run(evs).Some?
    ensures var dp := Run(evs).value.dp;
            && ((s, d) in dp.desired <==> Relayed(evs, (s, d)))
            && (Relayed(evs, (s, d)) ==> dp.desired[(s, d)] == if H.ToldOf(evs, d).link then Some(d) else None)
            && dp.current == Routing(evs)
  {
    var st := Run(evs).value;
    FlowsOfRun(evs);
    H.RelaysAreTold(evs, d);
    if (s, d) in st.dp.desired {
      F.WantedOnlyThroughSink(st.dp, s, d);
      assert Joined(st, d);
    }
  }
}
