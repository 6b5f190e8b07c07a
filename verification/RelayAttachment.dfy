/**
  The client keeps the rules of client/DataProto.c: each call that it makes, when it makes it, attaches a flow that
  is attached nowhere, to a sink that exists, or detaches one that is attached, or frees a sink that no flow wants or
  a flow that wants no sink.
*/
module RelayAttachment {
  import opened Common
  import opened Lists
  import opened FlowCalls
  import opened RelayAssignment
  import opened RelayNetwork
  import F = RelayFlows
  import A = FlowAttachment

  // ----- the client's flows and sinks

  predicate Has(st: State, k: Key) {
    match k
    case Local(p) => p in st.net.peers
    case Relay(s, d) => (s, d) in st.dp.desired
  }

  function Wants(st: State, k: Key): Option<Id>
    requires Has(st, k)
  {
    match k
    case Local(p) => st.net.peers[p].desired
    case Relay(s, d) => st.dp.desired[(s, d)]
  }

  function Links(n: Net): set<Id> {
    set p | p in n.peers && n.peers[p].haveLink
  }

  ghost function Of(st: State): (v: View)
    ensures forall k :: k in v.wants <==> Has(st, k)
    ensures forall k :: Has(st, k) ==> v.wants[k] == Wants(st, k)
    ensures v.sinks == Links(st.net)
  {
    var keys := (set p | p in st.net.peers :: Local(p)) + (set k | k in st.dp.desired :: Relay(k.0, k.1));
    View(map k | k in keys :: Wants(st, k), Links(st.net))
  }

  ghost predicate Shows(v: View, st: State, k: Key) {
    if Has(st, k) then k in v.wants && v.wants[k] == Wants(st, k) else k !in v.wants
  }

  lemma IsOf(v: View, st: State)
    requires v.sinks == Links(st.net) && forall k :: Shows(v, st, k)
    ensures v == Of(st)
  {
    var w := Of(st);
    assert forall k :: k in v.wants || k in w.wants ==> Shows(v, st, k);
    assert v.wants == w.wants;
  }

  /** The calls, each allowed when it is made, lead from the flows and sinks of st to those of st'. */
  ghost predicate Makes(st: State, calls: seq<Call>, st': State) {
    Leads(Of(st), calls, Of(st'))
  }

  lemma MakesOn(a: State, xs: seq<Call>, b: State, ys: seq<Call>, c: State)
    requires Makes(a, xs, b) && Makes(b, ys, c)
    ensures Makes(a, xs + ys, c)
  {
    LeadsOn(Of(a), xs, Of(b), ys, Of(c));
  }

  /** The calls xs, and nothing more before c. */
  lemma MakesSame(a: State, xs: seq<Call>, b: State, c: State)
    requires Makes(a, xs, b) && Makes(b, [], c)
    ensures Makes(a, xs, c)
  {}

  // ----- local flows

  /** No local flow wants anything else, and no link changes. */
  ghost predicate SameWants(n: Net, n': Net) {
    SameLinks(n, n') && forall p :: p in n.peers ==> n'.peers[p].desired == n.peers[p].desired
  }

  lemma NoCalls(st: State, n': Net)
    requires SameWants(st.net, n')
    ensures Makes(st, [], st.(net := n'))
  {
    IsOf(Of(st), st.(net := n'));
  }

  /** The local flow of p, and nothing else, wants something else. */
  lemma OneCall(st: State, p: Id, to: Option<Id>, n': Net)
    requires p in st.net.peers && SameLinks(st.net, n') && n'.peers[p].desired == to
    requires st.net.peers[p].desired.Some? == to.None?
    requires forall q :: q in st.net.peers && q != p ==> n'.peers[q].desired == st.net.peers[q].desired
    requires to.Some? ==> to.value in st.net.peers && st.net.peers[to.value].haveLink
    ensures Makes(st, [SetFlow(Local(p), to)], st.(net := n'))
  {
    var call := SetFlow(Local(p), to);
    IsOf(Do(Of(st), call), st.(net := n'));
    LeadsOne(Of(st), call, Of(st.(net := n')));
  }

  lemma MakesFreeRelaying(st: State, p: Id)
    requires Inv(st.net) && p in st.net.peers && st.net.peers[p].relaying.Some?
    requires st.net.peers[p].relaying.value in st.net.peers && st.net.peers[p].relaying.value != p
    ensures Makes(st, [Detach(Local(p))], st.(net := FreeRelaying(st.net, p)))
  {
    assert PeerOk(st.net, p);
    OneCall(st, p, None, FreeRelaying(st.net, p));
  }

  lemma MakesAssignFirst(st: State)
    requires Inv(st.net) && st.net.waiting != [] && st.net.relays != []
    ensures Makes(st, [Attach(Local(st.net.waiting[0]), st.net.relays[0])], st.(net := AssignFirst(st.net)))
  {
    var n := st.net;
    var p, r := n.waiting[0], n.relays[0];
    assert PeerOk(n, p) && PeerOk(n, r);
    UnregisterInv(n, p);
    InstallInv(Unregister(n, p), p, r);
    OneCall(st, p, Some(r), AssignFirst(n));
  }

  lemma {:induction false} MakesAssign(st: State)
    requires Inv(st.net)
    ensures Makes(st, AssignCalls(st.net), st.(net := Assign(st.net)))
    decreases |st.net.waiting|
  {
    if st.net.waiting == [] || st.net.relays == [] {
    } else {
      var mid := st.(net := AssignFirst(st.net));
      MakesAssignFirst(st);
      MakesAssign(mid);
      MakesOn(st, [Attach(Local(st.net.waiting[0]), st.net.relays[0])], mid, AssignCalls(mid.net),
        st.(net := Assign(st.net)));
    }
  }

  lemma MakesFreeFirstUser(st: State, p: Id)
    requires Inv(st.net) && p in st.net.peers && st.net.peers[p].users != []
    ensures Makes(st, [Detach(Local(st.net.peers[p].users[0]))], st.(net := FreeFirstUser(st.net, p)))
  {
    var n, u := st.net, st.net.peers[p].users[0];
    assert PeerOk(n, p) && PeerOk(n, u);
    OneCall(st, u, None, FreeFirstUser(n, p));
  }

  lemma {:induction false} MakesFreeUsers(st: State, p: Id)
    requires Inv(st.net) && p in st.net.peers
    ensures Makes(st, FreeUsersCalls(st.net, p), st.(net := FreeUsers(st.net, p)))
    decreases |st.net.peers[p].users|
  {
    if st.net.peers[p].users == [] {
    } else {
      var n := st.net;
      var mid := st.(net := FreeFirstUser(n, p));
      MakesFreeFirstUser(st, p);
      MakesFreeUsers(mid, p);
      MakesOn(st, [Detach(Local(n.peers[p].users[0]))], mid, FreeUsersCalls(mid.net, p), st.(net := FreeUsers(n, p)));
    }
  }

  lemma MakesEnable(st: State, p: Id)
    requires Valid(st) && p in st.net.peers && st.net.peers[p].haveLink && !st.net.peers[p].isRelay
    ensures Makes(st, EnableCalls(st.net, p), Provider(st, p, true))
  {
    EnableInv(st.net, p);
    var mid := st.(net := Enable(st.net, p));
    NoCalls(st, mid.net);
    MakesAssign(mid);
  }

  /** Every user of the relay is detached from it before any is attached to another one. */
  lemma MakesDisable(st: State, p: Id)
    requires Valid(st) && p in st.net.peers && st.net.peers[p].haveLink
    ensures Makes(st, DisableCalls(st.net, p), Provider(st, p, false))
  {
    var n := st.net;
    var freed := st.(net := FreeUsers(n, p));
    UnlistInv(freed.net, p);
    var mid := st.(net := Unlist(freed.net, p));
    MakesFreeUsers(st, p);
    NoCalls(freed, mid.net);
    MakesSame(st, FreeUsersCalls(n, p), freed, mid);
    MakesAssign(mid);
    MakesOn(st, FreeUsersCalls(n, p), mid, AssignCalls(mid.net), Provider(st, p, false));
  }

  // ----- links

  /** The link of p is there or not, and what its local flow and the relay flows to it want is set accordingly. */
  ghost predicate Relinked(st: State, st': State, p: Id, up: bool) {
    var to := if up then Some(p) else None;
    && p in st.net.peers && st'.net.peers == st.net.peers[p := st.net.peers[p].(haveLink := up, desired := to)]
    && st'.dp.desired == map k | k in st.dp.desired :: if k.1 == p then to else st.dp.desired[k]
  }

  lemma LinksAfter(st: State, st': State, p: Id, up: bool)
    requires Relinked(st, st', p, up)
    ensures Links(st'.net) == if up then Links(st.net) + {p} else Links(st.net) - {p}
  {}

  /** The view after that; `flows` are the sources of the relay flows to p. */
  ghost function Relink(v: View, flows: seq<Id>, p: Id, up: bool): View {
    var to := if up then Some(p) else None;
    View(SetTo(v, flows, p, to).wants[Local(p) := to], if up then v.sinks + {p} else v.sinks - {p})
  }

  /**
    The list of a relay sink has exactly the sources of the flows to it, and these want what the sink is
    attached to.
  */
  ghost predicate FlowsOf(st: State, p: Id, flows: seq<Id>, to: Option<Id>) {
    && NoDup(flows) && (forall s :: s in flows <==> Has(st, Relay(s, p)))
    && forall s :: s in flows ==> Of(st).wants[Relay(s, p)] == to
  }

  lemma FlowsOfSink(st: State, p: Id)
    requires Valid(st) && p in st.net.peers
    ensures FlowsOf(st, p, st.dp.sinks[p].flows, if st.net.peers[p].haveLink then Some(p) else None)
  {
    assert Joined(st, p) && F.SinkOk(st.dp, p);
    forall s
      ensures s in st.dp.sinks[p].flows <==> Has(st, Relay(s, p))
      ensures Has(st, Relay(s, p)) ==> Wants(st, Relay(s, p)) == st.dp.sinks[p].dpSink
    {
      assert F.FlowOk(st.dp, s, p);
    }
  }

  lemma RelinkIs(st: State, st': State, p: Id, up: bool, flows: seq<Id>, to: Option<Id>)
    requires Relinked(st, st', p, up) && FlowsOf(st, p, flows, to)
    ensures Relink(Of(st), flows, p, up) == Of(st')
  {
    var v := Of(st);
    var v' := Relink(v, flows, p, up);
    LinksAfter(st, st', p, up);
    forall k
      ensures Shows(v', st', k)
    {
      assert Has(st, k) == Has(st', k) && (k in v.wants <==> Has(st, k));
      assert k.Relay? && k.d == p ==> (k.s in flows <==> Has(st, k));
    }
    IsOf(v', st');
  }

  lemma RelinkUp(v: View, flows: seq<Id>, p: Id)
    requires p !in v.sinks && Local(p) in v.wants && v.wants[Local(p)].None? && NoDup(flows)
    requires forall s :: s in flows ==> Relay(s, p) in v.wants && v.wants[Relay(s, p)].None?
    ensures Leads(v, [SinkInit(p), Attach(Local(p), p)] + SetFlows(flows, p, Some(p)), Relink(v, flows, p, true))
  {
    var v1 := Do(v, SinkInit(p));
    var v2 := Do(v1, Attach(Local(p), p));
    LeadsOne(v1, Attach(Local(p), p), v2);
    assert [SinkInit(p), Attach(Local(p), p)][1..] == [Attach(Local(p), p)];
    SetFlowsLeads(v2, flows, p, Some(p));
    assert SetTo(v2, flows, p, Some(p)).wants == Relink(v, flows, p, true).wants;
    LeadsOn(v, [SinkInit(p), Attach(Local(p), p)], v2, SetFlows(flows, p, Some(p)), Relink(v, flows, p, true));
  }

  lemma RelinkDown(v: View, flows: seq<Id>, p: Id)
    requires p in v.sinks && Local(p) in v.wants && v.wants[Local(p)].Some? && NoDup(flows)
    requires forall s :: s in flows ==> Relay(s, p) in v.wants && v.wants[Relay(s, p)].Some?
    requires forall k :: k in v.wants && v.wants[k] == Some(p) ==>
             k == Local(p) || (k.Relay? && k.d == p && k.s in flows)
    ensures Leads(v, SetFlows(flows, p, None) + [Detach(Local(p)), SinkFree(p)], Relink(v, flows, p, false))
  {
    var v1, v3 := SetTo(v, flows, p, None), Relink(v, flows, p, false);
    SetFlowsLeads(v, flows, p, None);
    var v2 := Do(v1, Detach(Local(p)));
    LeadsOne(v2, SinkFree(p), v3);
    assert [Detach(Local(p)), SinkFree(p)][1..] == [SinkFree(p)];
    LeadsOn(v, SetFlows(flows, p, None), v1, [Detach(Local(p)), SinkFree(p)], v3);
  }

  /** A new link: none of the flows that are attached to its sink was attached. */
  lemma MakesLinkUp(st: State, p: Id)
    requires Valid(st) && Unconnected(st.net, p)
    ensures Makes(st, LinkUpCalls(st, p), LinkUp(st, p))
  {
    assert PeerOk(st.net, p);
    var flows := st.dp.sinks[p].flows;
    FlowsOfSink(st, p);
    RelinkUp(Of(st), flows, p);
    RelinkIs(st, LinkUp(st, p), p, true, flows, None);
  }

  /** The sink of p is wanted only by its local flow and by the relay flows to p. */
  lemma WantedByFlowsTo(st: State, p: Id)
    requires Valid(st) && p in st.net.peers && st.net.peers[p].haveLink && !st.net.peers[p].isRelay
    ensures forall k :: Has(st, k) && Wants(st, k) == Some(p) ==> k == Local(p) || (k.Relay? && k.d == p)
  {
    forall k | Has(st, k) && Wants(st, k) == Some(p)
      ensures k == Local(p) || (k.Relay? && k.d == p)
    {
      match k
      case Local(q) => assert PeerOk(st.net, q) && PeerOk(st.net, p);
      case Relay(s, d) =>
        F.WantedOnlyThroughSink(st.dp, s, d);
        assert Joined(st, d);
    }
  }

  /** A link goes: when its sink is freed, all flows that wanted it have been detached. */
  lemma MakesLinkDown(st: State, p: Id)
    requires Valid(st) && p in st.net.peers && st.net.peers[p].haveLink && !st.net.peers[p].isRelay
    ensures Makes(st, LinkDownCalls(st, p), LinkDown(st, p))
  {
    assert PeerOk(st.net, p);
    var flows := st.dp.sinks[p].flows;
    FlowsOfSink(st, p);
    WantedByFlowsTo(st, p);
    RelinkDown(Of(st), flows, p);
    RelinkIs(st, LinkDown(st, p), p, false, flows, Some(p));
  }

  // ----- relay flows

  lemma FlowAdded(st: State, dp: F.State, s: Id, d: Id, to: Option<Id>)
    requires dp.desired == st.dp.desired[(s, d) := to]
    ensures Of(st).(wants := Of(st).wants[Relay(s, d) := to]) == Of(st.(dp := dp))
  {
    var v, st' := Of(st), st.(dp := dp);
    var v' := v.(wants := v.wants[Relay(s, d) := to]);
    forall k
      ensures Shows(v', st', k)
    {
      assert k in v.wants <==> Has(st, k);
    }
    IsOf(v', st');
  }

  lemma MakesCreateFlow(st: State, s: Id, d: Id)
    requires Valid(st) && F.Has(st.dp, s, d) && (s, d) !in st.dp.desired
    ensures Makes(st, F.CreateFlowCalls(st.dp, s, d), st.(dp := F.CreateFlow(st.dp, s, d)))
  {
    var v, k, to := Of(st), Relay(s, d), st.dp.sinks[d].dpSink;
    var v' := Of(st.(dp := F.CreateFlow(st.dp, s, d)));
    assert Joined(st, d);
    FlowAdded(st, F.CreateFlow(st.dp, s, d), s, d, to);
    var v1 := Do(v, FlowInit(k));
    if to.Some? {
      assert Do(v1, Attach(k, to.value)).wants == v'.wants;
      LeadsOne(v1, Attach(k, to.value), v');
      assert [FlowInit(k), Attach(k, to.value)][1..] == [Attach(k, to.value)];
    } else {
      LeadsOne(v, FlowInit(k), v');
    }
  }

  lemma FlowFreed(st: State, s: Id, d: Id)
    requires F.Has(st.dp, s, d)
    ensures Of(st).(wants := Of(st).wants - {Relay(s, d)}) == Of(st.(dp := F.FreeFlow(st.dp, s, d)))
  {
    var v, st' := Of(st), st.(dp := F.FreeFlow(st.dp, s, d));
    var v' := v.(wants := v.wants - {Relay(s, d)});
    forall k
      ensures Shows(v', st', k)
    {
      assert k in v.wants <==> Has(st, k);
    }
    IsOf(v', st');
  }

  /** A relay flow is detached before it is freed, if it is attached. */
  lemma MakesFreeFlow(st: State, s: Id, d: Id)
    requires F.Inv(st.dp) && (s, d) in st.dp.desired
    ensures F.Has(st.dp, s, d)
    ensures Makes(st, F.FreeFlowCalls(st.dp, s, d), st.(dp := F.FreeFlow(st.dp, s, d)))
  {
    F.WantedOnlyThroughSink(st.dp, s, d);
    assert F.FlowOk(st.dp, s, d);
    var v, k := Of(st), Relay(s, d);
    var v' := Of(st.(dp := F.FreeFlow(st.dp, s, d)));
    FlowFreed(st, s, d);
    if st.dp.sinks[d].dpSink.Some? {
      var v1 := Do(v, Detach(k));
      assert Do(v1, FlowFree(k)).wants == v'.wants;
      LeadsOne(v1, FlowFree(k), v');
      assert [Detach(k), FlowFree(k)][1..] == [FlowFree(k)];
    } else {
      LeadsOne(v, FlowFree(k), v');
    }
  }

  lemma {:induction false} MakesSourceFlows(st: State, s: Id)
    requires F.Inv(st.dp) && s in st.dp.sources
    ensures Makes(st, F.SourceFreeCalls(st.dp, s), st.(dp := F.FreeSourceFlows(st.dp, s)))
    decreases |st.dp.sources[s]|
  {
    assert F.SourceOk(st.dp, s);
    if st.dp.sources[s] == [] {
    } else {
      var d := st.dp.sources[s][0];
      MakesFreeFlow(st, s, d);
      F.FreeFlowInv(st.dp, s, d);
      F.WithoutFirst(st.dp.sources[s]);
      var mid := st.(dp := F.FreeFlow(st.dp, s, d));
      MakesSourceFlows(mid, s);
      MakesOn(st, F.FreeFlowCalls(st.dp, s, d), mid, F.SourceFreeCalls(mid.dp, s),
        st.(dp := F.FreeSourceFlows(st.dp, s)));
    }
  }

  lemma {:induction false} MakesSinkFlows(st: State, d: Id)
    requires F.Inv(st.dp) && d in st.dp.sinks
    ensures Makes(st, F.SinkFreeCalls(st.dp, d), st.(dp := F.FreeSinkFlows(st.dp, d)))
    decreases |st.dp.sinks[d].flows|
  {
    assert F.SinkOk(st.dp, d);
    if st.dp.sinks[d].flows == [] {
    } else {
      var s := st.dp.sinks[d].flows[0];
      MakesFreeFlow(st, s, d);
      F.FreeFlowInv(st.dp, s, d);
      F.WithoutFirst(st.dp.sinks[d].flows);
      var mid := st.(dp := F.FreeFlow(st.dp, s, d));
      MakesSinkFlows(mid, d);
      MakesOn(st, F.FreeFlowCalls(st.dp, s, d), mid, F.SinkFreeCalls(mid.dp, d), st.(dp := F.FreeSinkFlows(st.dp, d)));
    }
  }

  /** The flows are the same, whatever else changes. */
  lemma SameFlows(st: State, dp: F.State)
    requires dp.desired == st.dp.desired
    ensures Makes(st, [], st.(dp := dp))
  {
    IsOf(Of(st), st.(dp := dp));
  }

  // ----- peers

  /** A peer without a link comes or goes; no relay flow does. */
  lemma PeerView(st: State, st': State, p: Id, there: bool)
    requires st'.dp.desired == st.dp.desired && (p in st.net.peers ==> !st.net.peers[p].haveLink)
    requires if there then p in st'.net.peers && !st'.net.peers[p].haveLink && st'.net.peers[p].desired.None?
             else p !in st'.net.peers
    requires forall q :: q != p ==> (q in st'.net.peers <==> q in st.net.peers)
    requires forall q :: q != p && q in st.net.peers ==> st'.net.peers[q] == st.net.peers[q]
    ensures Do(Of(st), if there then FlowInit(Local(p)) else FlowFree(Local(p))) == Of(st')
  {
    var v' := Do(Of(st), if there then FlowInit(Local(p)) else FlowFree(Local(p)));
    forall k
      ensures Shows(v', st', k)
    {
      assert k in Of(st).wants <==> Has(st, k);
    }
    assert Links(st'.net) == Links(st.net);
    IsOf(v', st');
  }

  lemma MakesAddPeer(st: State, p: Id, canRelay: bool)
    requires Valid(st) && p !in st.net.peers
    ensures Makes(st, [FlowInit(Local(p))], AddPeer(st, p, canRelay))
  {
    PeerView(st, AddPeer(st, p, canRelay), p, true);
    LeadsOne(Of(st), FlowInit(Local(p)), Of(AddPeer(st, p, canRelay)));
  }

  /** The relay sink of p goes with its flows, and then the relay source. */
  lemma MakesFreeReceive(st: State, p: Id)
    requires F.Inv(st.dp) && p in st.dp.sinks && p in st.dp.sources
    ensures F.Inv(F.SinkFree(st.dp, p))
    ensures Makes(st, F.SinkFreeCalls(st.dp, p) + F.SourceFreeCalls(F.SinkFree(st.dp, p), p),
                  st.(dp := F.SourceFree(F.SinkFree(st.dp, p), p)))
  {
    F.FreeInv(st.dp, p);
    var a, b := st.(dp := F.FreeSinkFlows(st.dp, p)), st.(dp := F.SinkFree(st.dp, p));
    var c, d := st.(dp := F.FreeSourceFlows(b.dp, p)), st.(dp := F.SourceFree(b.dp, p));
    MakesSinkFlows(st, p);
    SameFlows(a, b.dp);
    MakesSame(st, F.SinkFreeCalls(st.dp, p), a, b);
    MakesSourceFlows(b, p);
    SameFlows(c, d.dp);
    MakesSame(b, F.SourceFreeCalls(b.dp, p), c, d);
    MakesOn(st, F.SinkFreeCalls(st.dp, p), b, F.SourceFreeCalls(b.dp, p), d);
  }

  lemma MakesForgetPeer(st: State, p: Id)
    requires Valid(st) && Unconnected(st.net, p) && !st.net.peers[p].isRelay
    ensures Makes(st, ForgetPeerCalls(st, p), ForgetPeer(st, p))
  {
    assert PeerOk(st.net, p);
    MakesFreeReceive(st, p);
    var mid := st.(dp := F.SourceFree(F.SinkFree(st.dp, p), p));
    PeerView(mid, ForgetPeer(st, p), p, false);
    LeadsOne(Of(mid), FlowFree(Local(p)), Of(ForgetPeer(st, p)));
    var calls := F.SinkFreeCalls(st.dp, p) + F.SourceFreeCalls(F.SinkFree(st.dp, p), p);
    MakesOn(st, calls, mid, [FlowFree(Local(p))], ForgetPeer(st, p));
  }

  // ----- every handler

  lemma MakesDropLink(st: State, p: Id)
    requires Valid(st) && p in st.net.peers && st.net.peers[p].haveLink
    ensures Makes(st, DropLinkCalls(st, p), DropLink(st, p))
  {
    if st.net.peers[p].isRelay {
      var mid := Provider(st, p, false);
      MakesDisable(st, p);
      MakesLinkDown(mid, p);
      MakesOn(st, DisableCalls(st.net, p), mid, LinkDownCalls(mid, p), DropLink(st, p));
    } else {
      MakesLinkDown(st, p);
    }
  }

  lemma MakesCleanup(st: State, p: Id)
    requires Valid(st) && p in st.net.peers
    ensures Makes(st, CleanupCalls(st, p), Cleanup(st, p))
  {
    assert PeerOk(st.net, p);
    if st.net.peers[p].haveLink {
      MakesDropLink(st, p);
    } else if st.net.peers[p].relaying.Some? {
      RelayingOk(st.net, p);
      MakesFreeRelaying(st, p);
    } else if st.net.peers[p].waiting {
      UnregisterInv(st.net, p);
      NoCalls(st, Unregister(st.net, p));
    }
  }

  lemma MakesNeedRelay(st: State, p: Id)
    requires Valid(st) && p in st.net.peers && !st.net.peers[p].isRelay
    ensures Makes(st, NeedRelayCalls(st, p), NeedRelay(st, p))
  {
    if !st.net.peers[p].waiting {
      assert PeerOk(st.net, p);
      var a := Cleanup(st, p);
      RegisterInv(a.net, p);
      var b := a.(net := Register(a.net, p));
      MakesCleanup(st, p);
      NoCalls(a, b.net);
      MakesSame(st, CleanupCalls(st, p), a, b);
      MakesAssign(b);
      MakesOn(st, CleanupCalls(st, p), b, AssignCalls(b.net), NeedRelay(st, p));
    }
  }

  lemma MakesRelayFrame(st: State, s: Id, d: Id)
    requires Valid(st) && s in st.net.peers && d in st.net.peers
    ensures Makes(st, F.SubmitFrameCalls(st.dp, s, d), st.(dp := F.SubmitFrame(st.dp, s, d)))
  {
    assert F.SourceOk(st.dp, s) && F.FlowOk(st.dp, s, d);
    if d in st.dp.sources[s] {
      SameFlows(st, F.SubmitFrame(st.dp, s, d));
    } else {
      var mid := st.(dp := F.CreateFlow(st.dp, s, d));
      MakesCreateFlow(st, s, d);
      SameFlows(mid, F.SubmitFrame(st.dp, s, d));
      MakesSame(st, F.CreateFlowCalls(st.dp, s, d), mid, st.(dp := F.SubmitFrame(st.dp, s, d)));
    }
  }

  lemma MakesPeerRemove(st: State, p: Id)
    requires Valid(st) && p in st.net.peers
    ensures Makes(st, RemovePeerCalls(st, p), RemovePeer(st, p))
  {
    var a := Cleanup(st, p);
    MakesCleanup(st, p);
    MakesForgetPeer(a, p);
    MakesOn(st, CleanupCalls(st, p), a, ForgetPeerCalls(a, p), RemovePeer(st, p));
  }

  lemma MakesFreshLink(st: State, p: Id)
    requires Valid(st) && p in st.net.peers
    ensures Makes(st, FreshLinkCalls(st, p, true), LinkUp(Cleanup(st, p), p))
  {
    var a := Cleanup(st, p);
    MakesCleanup(st, p);
    MakesLinkUp(a, p);
    MakesOn(st, CleanupCalls(st, p), a, LinkUpCalls(a, p), LinkUp(a, p));
  }

  /** Each call that a handler of the client makes is allowed when it is made, in every valid state. */
  lemma RulesKept(st: State, ev: Event)
    requires Valid(st) && May(st, ev)
    ensures Leads(Of(st), HandleCalls(st, ev), Of(Handle(st, ev)))
  {
    match ev
    case PeerAdd(p, canRelay) => MakesAddPeer(st, p, canRelay);
    case PeerRemove(p) => MakesPeerRemove(st, p);
    case FreshLink(p, ok) =>
      if ok { MakesFreshLink(st, p); } else { MakesCleanup(st, p); }
    case PeerReset(p) => MakesCleanup(st, p);
    case PeerNeedsRelay(p) => MakesNeedRelay(st, p);
    case Up(p) => if st.net.peers[p].canRelay && !st.net.peers[p].isRelay { MakesEnable(st, p); }
    case Down(p) => if st.net.peers[p].isRelay { MakesDisable(st, p); }
    case RelayFrame(s, d) => MakesRelayFrame(st, s, d);
    case RouteFrame => SameFlows(st, st.dp.(current := None));
    case Inactive(s, d) => MakesFreeFlow(st, s, d);
  }

  /** The same for all calls of a run, from the start. */
  lemma {:induction false} EveryRunKeepsRules(evs: seq<Event>)
    requires Run(evs).Some?
    ensures Leads(Of(START), RunCalls(evs), Of(Run(evs).value))
  {
    if evs == [] {
    } else {
      var before, ev := evs[..|evs| - 1], evs[|evs| - 1];
      var st := Run(before).value;
      EveryRunKeepsRules(before);
      RulesKept(st, ev);
      LeadsOn(Of(START), RunCalls(before), Of(st), HandleCalls(st, ev), Of(Handle(st, ev)));
    }
  }

  // ----- what the rules are for

  /** The ids of the flows in DataProto. */
  ghost predicate Names(name: Key -> A.Id) {
    forall a, b :: name(a) == name(b) ==> a == b
  }

  function Triangle(n: nat): nat {
    if n == 0 then 0 else Triangle(n - 1) + n
  }

  lemma {:induction false} TriangleGrows(m: nat, n: nat)
    requires m < n
    ensures Triangle(m) + m < Triangle(n)
    decreases n
  {
    if m < n - 1 {
      TriangleGrows(m, n - 1);
    }
  }

  /** There is room for a name for each of them. */
  function SomeName(k: Key): A.Id {
    match k
    case Local(p) => 2 * p
    case Relay(s, d) => 2 * (Triangle(s + d) + s) + 1
  }

  lemma SomeNames()
    ensures Names(SomeName)
  {
    forall a, b | SomeName(a) == SomeName(b)
      ensures a == b
    {
      if a.Relay? && b.Relay? {
        if a.s + a.d < b.s + b.d {
          TriangleGrows(a.s + a.d, b.s + b.d);
        } else if b.s + b.d < a.s + a.d {
          TriangleGrows(b.s + b.d, a.s + a.d);
        }
      }
    }
  }

  ghost predicate AgreeOn(st: A.State, v: View, name: Key -> A.Id, k: Key) {
    if k in v.wants then name(k) in st.flows && st.flows[name(k)].desired == v.wants[k] else name(k) !in st.flows
  }

  /** Flow f of DataProto is one of the client's. */
  ghost predicate Named(name: Key -> A.Id, f: A.Id) {
    exists k :: name(k) == f
  }

  /** DataProto has these flows, which desire these sinks, and these sinks. */
  ghost predicate Agree(st: A.State, v: View, name: Key -> A.Id) {
    (forall k :: AgreeOn(st, v, name, k)) && (forall f :: f in st.flows ==> Named(name, f)) && st.sinks.Keys == v.sinks
  }

  /** The call as an event of DataProto; a new flow gets buffer b. */
  function EventOf(call: Call, name: Key -> A.Id, b: A.Id): A.Event {
    match call
    case SinkInit(s) => A.SinkInit(s)
    case SinkFree(s) => A.SinkFree(s)
    case FlowInit(k) => A.FlowInit(name(k), b)
    case FlowFree(k) => A.FlowFree(name(k))
    case Attach(k, s) => A.Attach(name(k), s)
    case Detach(k) => A.Detach(name(k))
  }

  lemma AllowedMay(st: A.State, v: View, name: Key -> A.Id, call: Call, b: A.Id)
    requires Names(name) && A.Inv(st) && Agree(st, v, name) && Can(v, call) && b !in st.buffers
    ensures A.May(st, EventOf(call, name, b))
  {
    if call.SinkFree? {
      forall f | f in st.flows
        ensures st.flows[f].desired != Some(call.s)
      {
        assert Named(name, f);
        var k :| name(k) == f;
        assert AgreeOn(st, v, name, k);
      }
    } else if !call.SinkInit? {
      assert AgreeOn(st, v, name, call.k);
    }
  }

  /** What a call does to the flows and sinks of DataProto. */
  ghost predicate Done(st: A.State, st': A.State, call: Call, name: Key -> A.Id) {
    match call
    case SinkInit(s) => st'.flows == st.flows && st'.sinks.Keys == st.sinks.Keys + {s}
    case SinkFree(s) => st'.flows == st.flows && st'.sinks.Keys == st.sinks.Keys - {s}
    case FlowInit(k) => (exists b :: st'.flows == st.flows[name(k) := A.Flow(b, None)])
      && st'.sinks.Keys == st.sinks.Keys
    case FlowFree(k) => st'.flows == st.flows - {name(k)} && st'.sinks.Keys == st.sinks.Keys
    case Attach(k, s) =>
      && name(k) in st.flows && st'.flows == st.flows[name(k) := st.flows[name(k)].(desired := Some(s))]
      && st'.sinks.Keys == st.sinks.Keys
    case Detach(k) =>
      && name(k) in st.flows && st'.flows == st.flows[name(k) := st.flows[name(k)].(desired := None)]
      && st'.sinks.Keys == st.sinks.Keys
  }

  lemma DoneAfter(st: A.State, call: Call, name: Key -> A.Id, b: A.Id)
    requires A.Enabled(st, EventOf(call, name, b))
    ensures Done(st, A.Step(st, EventOf(call, name, b)), call, name)
  {}

  lemma AgreeDone(st: A.State, st': A.State, v: View, name: Key -> A.Id, call: Call)
    requires Names(name) && Agree(st, v, name) && Can(v, call) && Done(st, st', call, name)
    ensures Agree(st', Do(v, call), name)
  {
    forall k
      ensures AgreeOn(st', Do(v, call), name, k)
    {
      assert AgreeOn(st, v, name, k);
    }
    forall f | f in st'.flows
      ensures Named(name, f)
    {
      assert f in st.flows ==> Named(name, f);
    }
  }

  lemma AgreeAfter(st: A.State, v: View, name: Key -> A.Id, call: Call, b: A.Id)
    requires Names(name) && A.Inv(st) && Agree(st, v, name) && Can(v, call) && b !in st.buffers
    ensures A.Enabled(st, EventOf(call, name, b)) && Agree(A.Step(st, EventOf(call, name, b)), Do(v, call), name)
  {
    AllowedMay(st, v, name, call, b);
    A.MayEnabled(st, EventOf(call, name, b));
    DoneAfter(st, call, name, b);
    AgreeDone(st, A.Step(st, EventOf(call, name, b)), v, name, call);
  }

  /** What the queues and the connectors do changes no flow and no sink. */
  lemma OthersAgree(st: A.State, v: View, name: Key -> A.Id, ev: A.Event)
    requires A.Enabled(st, ev) && Agree(st, v, name) && (ev.PacketIn? || ev.QueueStart? || ev.QueueDone? || ev.DoneJob?)
    ensures Agree(A.Step(st, ev), v, name)
  {
    var st' := A.Step(st, ev);
    assert st'.flows == st.flows && st'.sinks.Keys == st.sinks.Keys;
    forall k
      ensures AgreeOn(st', v, name, k)
    {
      assert AgreeOn(st, v, name, k);
    }
  }

  // ----- the client and DataProto together

  lemma {:induction false} SomeFreshId(used: set<nat>)
    ensures exists b: nat :: b !in used && forall x :: x in used ==> x < b
    decreases used
  {
    if used == {} {
      assert 0 !in used;
    } else {
      var x :| x in used;
      SomeFreshId(used - {x});
      var c: nat :| c !in used - {x} && forall y :: y in used - {x} ==> y < c;
      var b := if c > x then c else x + 1;
      assert forall y :: y in used ==> y == x || y in used - {x};
      assert b !in used;
    }
  }

  /** The buffer that a new flow gets. */
  ghost function FreshBuffer(st: A.State): (b: A.Id)
    ensures b !in st.buffers
  {
    SomeFreshId(st.buffers.Keys);
    var b: nat :| b !in st.buffers.Keys;
    b
  }

  /** DataProto does what the calls say, one after the other; None if one of them is not allowed. */
  ghost function DoCalls(st: A.State, calls: seq<Call>, name: Key -> A.Id): (st': Option<A.State>)
    requires A.Inv(st)
    ensures st'.Some? ==> A.Inv(st'.value)
    decreases |calls|
  {
    if calls == [] then Some(st)
    else
      var ev := EventOf(calls[0], name, FreshBuffer(st));
      if !A.May(st, ev) then None
      else
        A.MayEnabled(st, ev);
        A.StepInv(st, ev);
        DoCalls(A.Step(st, ev), calls[1..], name)
  }

  /** Calls that the rules allow are all done, and DataProto has the flows and sinks that they lead to. */
  lemma {:induction false} AllCallsDone(st: A.State, v: View, calls: seq<Call>, v': View, name: Key -> A.Id)
    requires Names(name) && A.Inv(st) && Agree(st, v, name) && Leads(v, calls, v')
    ensures DoCalls(st, calls, name).Some? && Agree(DoCalls(st, calls, name).value, v', name)
    decreases |calls|
  {
    if calls == [] {
    } else {
      var b := FreshBuffer(st);
      var ev := EventOf(calls[0], name, b);
      AllowedMay(st, v, name, calls[0], b);
      AgreeAfter(st, v, name, calls[0], b);
      A.StepInv(st, ev);
      AllCallsDone(A.Step(st, ev), Do(v, calls[0]), calls[1..], v', name);
    }
  }

  /**
    A handler of the client, with all calls that it makes, or something that a queue or a connector of
    DataProto does.
  */
  datatype Both = Client(ev: Event) | Inside(ev': A.Event)

  datatype Pair = Pair(client: State, dp: A.State)

  predicate IsInside(ev: A.Event) {
    ev.PacketIn? || ev.QueueStart? || ev.QueueDone? || ev.DoneJob?
  }

  /** What may happen next, as far as the peers, the network and the queues go. */
  ghost predicate CanHappen(x: Pair, e: Both) {
    match e
    case Client(ev) => May(x.client, ev)
    case Inside(ev) => IsInside(ev) && A.May(x.dp, ev)
  }

  ghost predicate Together(x: Pair, name: Key -> A.Id) {
    Valid(x.client) && Settled(x.client.net) && A.Inv(x.dp) && Agree(x.dp, Of(x.client), name)
  }

  /** None if a call of the client is not allowed. */
  ghost function Next(x: Pair, e: Both, name: Key -> A.Id): (x': Option<Pair>)
    requires Valid(x.client) && A.Inv(x.dp) && CanHappen(x, e)
  {
    match e
    case Client(ev) =>
      var dp := DoCalls(x.dp, HandleCalls(x.client, ev), name);
      if dp.None? then None else Some(Pair(Handle(x.client, ev), dp.value))
    case Inside(ev) =>
      A.MayEnabled(x.dp, ev);
      Some(x.(dp := A.Step(x.dp, ev)))
  }

  /**
    Whatever happens next, every call that the client makes to DataProto is allowed when it is made, so that no
    assertion of DataProto fails, and both have the same flows, wanting the same sinks, afterwards.
  */
  lemma NextTogether(x: Pair, e: Both, name: Key -> A.Id)
    requires Names(name) && Together(x, name) && CanHappen(x, e)
    ensures Next(x, e, name).Some? && Together(Next(x, e, name).value, name)
  {
    match e
    case Client(ev) =>
      RulesKept(x.client, ev);
      HandleValid(x.client, ev);
      AllCallsDone(x.dp, Of(x.client), HandleCalls(x.client, ev), Of(Handle(x.client, ev)), name);
    case Inside(ev) =>
      A.MayEnabled(x.dp, ev);
      A.StepInv(x.dp, ev);
      OthersAgree(x.dp, Of(x.client), name, ev);
  }

  lemma AgreeAtStart(name: Key -> A.Id)
    ensures Together(Pair(START, A.EMPTY), name)
  {
    assert Of(START).wants == map[];
  }

  /** The state after a run in which everything could happen when it did. */
  ghost function RunBoth(es: seq<Both>, name: Key -> A.Id): (x: Option<Pair>)
    requires Names(name)
    ensures x.Some? ==> Together(x.value, name)
  {
    if es == [] then
      AgreeAtStart(name);
      Some(Pair(START, A.EMPTY))
    else
      var x, e := RunBoth(es[..|es| - 1], name), es[|es| - 1];
      if x.None? || !CanHappen(x.value, e) then None
      else
        NextTogether(x.value, e, name);
        Next(x.value, e, name)
  }

  /**
    In every run of the client and DataProto together, with the handlers of the client and the steps of queues and
    connectors in any order: no call of the client fails, whatever comes next, and a flow of the client is one of
    DataProto that desires the same sink, which exists.
  */
  lemma NoCallFails(es: seq<Both>, name: Key -> A.Id, e: Both, k: Key)
    requires Names(name) && RunBoth(es, name).Some?
    ensures var x := RunBoth(es, name).value;
            && (CanHappen(x, e) ==> RunBoth(Snoc(es, e), name).Some?)
            && (Has(x.client, k) <==> name(k) in x.dp.flows)
            && (Has(x.client, k) ==> x.dp.flows[name(k)].desired == Wants(x.client, k))
            && (Has(x.client, k) && Wants(x.client, k).Some? ==> Wants(x.client, k).value in x.dp.sinks)
  {
    var x := RunBoth(es, name).value;
    assert Snoc(es, e)[..|es|] == es;
    if CanHappen(x, e) {
      NextTogether(x, e, name);
    }
    assert AgreeOn(x.dp, Of(x.client), name, k);
    assert name(k) in x.dp.flows ==> A.FlowOk(x.dp, name(k));
  }
}
