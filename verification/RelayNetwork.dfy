/**
  The handlers of client/client.c that give peers links and relays, together with the relay flows of
  client/DPRelay.c. A peer's relay sink is attached to the peer's own DataProto sink, which the peer has
  exactly while it has a link.
*/
module RelayNetwork {
  import opened Common
  import opened Lists
  import opened RelayAssignment
  import C = FlowCalls
  import F = RelayFlows

  datatype State = State(net: Net, dp: F.State)

  const START := State(EMPTY, F.EMPTY)

  /** The relay sink of p is attached if p has a link. */
  ghost predicate Joined(st: State, p: Id) {
    p in st.net.peers ==>
      p in st.dp.sources && p in st.dp.sinks && st.dp.sinks[p].dpSink == if st.net.peers[p].haveLink then Some(p)
        else None
  }

  ghost predicate Valid(st: State) {
    && Inv(st.net) && F.Inv(st.dp)
    && st.dp.sources.Keys == st.net.peers.Keys && st.dp.sinks.Keys == st.net.peers.Keys
    && forall p :: Joined(st, p)
  }

  lemma SameLinksValid(st: State, net: Net)
    requires Valid(st) && Inv(net) && SameLinks(st.net, net)
    ensures Valid(st.(net := net))
  {
    forall p ensures Joined(st.(net := net), p) { assert Joined(st, p); }
  }

  // ----- links

  function LinkUp(st: State, p: Id): (st': State)
    requires Valid(st) && Unconnected(st.net, p)
    ensures Valid(st')
  {
    var st' := State(InitLink(st.net, p), F.SetSink(st.dp, p, Some(p)));
    InitLinkInv(st.net, p);
    F.SetSinkInv(st.dp, p, Some(p));
    assert forall q :: Joined(st, q) ==> Joined(st', q);
    st'
  }

  /** peer_free_link: the relay sink and the local flow are detached, and the DataProto sink is freed. */
  function LinkDown(st: State, p: Id): (st': State)
    requires Valid(st) && p in st.net.peers && st.net.peers[p].haveLink && !st.net.peers[p].isRelay
    ensures Valid(st') && Unconnected(st'.net, p)
  {
    var st' := State(FreeLink(st.net, p), F.SetSink(st.dp, p, None));
    FreeLinkInv(st.net, p);
    F.SetSinkInv(st.dp, p, None);
    assert forall q :: Joined(st, q) ==> Joined(st', q);
    st'
  }

  /** The DataProto sink that is freed with a link is then wanted by no local and by no relay flow. */
  lemma FreedSinkIsUnwanted(st: State, p: Id)
    requires Valid(st) && p in st.net.peers && st.net.peers[p].haveLink && !st.net.peers[p].isRelay
    ensures var st' := LinkDown(st, p);
            && (forall q :: q in st'.net.peers ==> st'.net.peers[q].desired != Some(p))
            && (forall k :: k in st'.dp.desired ==> st'.dp.desired[k] != Some(p))
  {
    var st' := LinkDown(st, p);
    forall q | q in st'.net.peers
      ensures st'.net.peers[q].desired != Some(p)
    {
      NobodyWantsFreedLink(st.net, p, q);
    }
    forall k | k in st'.dp.desired
      ensures st'.dp.desired[k] != Some(p)
    {
      F.WantedOnlyThroughSink(st'.dp, k.0, k.1);
      assert Joined(st', k.1);
    }
  }

  /** A sink that a flow wants exists. */
  lemma WantedSinkExists(st: State)
    requires Valid(st)
    ensures forall q :: q in st.net.peers && st.net.peers[q].desired.Some? ==>
              var s := st.net.peers[q].desired.value; s in st.net.peers && st.net.peers[s].haveLink
    ensures forall k :: k in st.dp.desired && st.dp.desired[k].Some? ==>
              var s := st.dp.desired[k].value; s in st.net.peers && st.net.peers[s].haveLink
  {
    forall q | q in st.net.peers && st.net.peers[q].desired.Some?
      ensures var s := st.net.peers[q].desired.value; s in st.net.peers && st.net.peers[s].haveLink
    {
      WantedHasLink(st.net, q);
    }
    forall k | k in st.dp.desired && st.dp.desired[k].Some?
      ensures var s := st.dp.desired[k].value; s in st.net.peers && st.net.peers[s].haveLink
    {
      F.WantedOnlyThroughSink(st.dp, k.0, k.1);
      assert Joined(st, k.1);
    }
  }

  // ----- the handlers

  /** A peer gives up its link, and first stops being a relay provider if it is one. */
  function DropLink(st: State, p: Id): (st': State)
    requires Valid(st) && p in st.net.peers && st.net.peers[p].haveLink
    ensures Valid(st') && Unconnected(st'.net, p) && !st'.net.peers[p].isRelay
    ensures st'.net.peers.Keys == st.net.peers.Keys && (Settled(st.net) ==> Settled(st'.net))
    ensures !st.net.peers[p].isRelay ==> st'.net.relays == st.net.relays
  {
    LinkDown(if st.net.peers[p].isRelay then Provider(st, p, false) else st, p)
  }

  /** peer_cleanup_connections */
  function Cleanup(st: State, p: Id): (st': State)
    requires Valid(st) && p in st.net.peers
    ensures Valid(st') && Unconnected(st'.net, p) && !st'.net.peers[p].isRelay
    ensures st'.net.peers.Keys == st.net.peers.Keys && (Settled(st.net) ==> Settled(st'.net))
    ensures !st.net.peers[p].isRelay ==> st'.net.relays == st.net.relays
  {
    assert PeerOk(st.net, p);
    var x := st.net.peers[p];
    if x.haveLink then DropLink(st, p)
    else if x.relaying.Some? then
      RelayingOk(st.net, p);
      FreeRelayingInv(st.net, p);
      SameLinksValid(st, FreeRelaying(st.net, p));
      st.(net := FreeRelaying(st.net, p))
    else if x.waiting then
      UnregisterInv(st.net, p);
      SameLinksValid(st, Unregister(st.net, p));
      st.(net := Unregister(st.net, p))
    else st
  }

  /** Peer p, which has a link, starts or stops being a relay provider. */
  function Provider(st: State, p: Id, on: bool): (st': State)
    requires Valid(st) && p in st.net.peers && st.net.peers[p].haveLink && (on ==> !st.net.peers[p].isRelay)
    ensures Valid(st') && Settled(st'.net) && SameLinks(st.net, st'.net) && SameNeeds(st.net, st'.net)
    ensures st'.net.peers[p].isRelay == on
  {
    var net := if on then EnableProvider(st.net, p) else DisableProvider(st.net, p);
    SameLinksValid(st, net);
    st.(net := net)
  }

  /** peer_need_relay */
  function NeedRelay(st: State, p: Id): (st': State)
    requires Valid(st) && p in st.net.peers && !st.net.peers[p].isRelay
    ensures Valid(st') && (Settled(st.net) ==> Settled(st'.net)) && st'.net.peers.Keys == st.net.peers.Keys
  {
    if st.net.peers[p].waiting then st
    else
      assert PeerOk(st.net, p);
      var st1 := Cleanup(st, p);
      RegisterInv(st1.net, p);
      SameLinksValid(st1, Assign(Register(st1.net, p)));
      st1.(net := Assign(Register(st1.net, p)))
  }

  /** A new peer, with nothing yet. */
  function AddPeer(st: State, p: Id, canRelay: bool): (st': State)
    requires Valid(st) && p !in st.net.peers
    ensures Valid(st') && (Settled(st.net) ==> Settled(st'.net))
  {
    var net := st.net.(peers := st.net.peers[p := Peer(canRelay, false, None, false, false, [], None)]);
    var dp := F.SinkInit(F.SourceInit(st.dp, p), p);
    AddPeerInv(st.net, p, canRelay);
    F.InitInv(st.dp, p);
    F.InitInv(F.SourceInit(st.dp, p), p);
    assert forall q :: Joined(st, q) ==> Joined(State(net, dp), q);
    State(net, dp)
  }

  lemma AddPeerInv(n: Net, p: Id, canRelay: bool)
    requires Inv(n) && p !in n.peers
    ensures Inv(n.(peers := n.peers[p := Peer(canRelay, false, None, false, false, [], None)]))
  {
    var n' := n.(peers := n.peers[p := Peer(canRelay, false, None, false, false, [], None)]);
    forall q ensures PeerOk(n', q) { assert PeerOk(n, q); }
  }

  /** A peer that is not connected goes: first its relay sink and then its relay source, with all their flows. */
  function ForgetPeer(st: State, p: Id): (st': State)
    requires Valid(st) && Unconnected(st.net, p) && !st.net.peers[p].isRelay
    ensures Valid(st') && (Settled(st.net) ==> Settled(st'.net)) && st'.net.peers.Keys == st.net.peers.Keys - {p}
    ensures forall k :: k in st'.dp.desired ==> k.0 != p && k.1 != p
  {
    F.FreeInv(st.dp, p);
    F.FreeInv(F.SinkFree(st.dp, p), p);
    RemovePeerInv(st.net, p);
    var st' := State(st.net.(peers := st.net.peers - {p}), F.SourceFree(F.SinkFree(st.dp, p), p));
    assert forall q :: Joined(st, q) ==> Joined(st', q);
    st'
  }

  /** peer_remove */
  function RemovePeer(st: State, p: Id): (st': State)
    requires Valid(st) && p in st.net.peers
    ensures Valid(st') && (Settled(st.net) ==> Settled(st'.net)) && st'.net.peers.Keys == st.net.peers.Keys - {p}
    ensures forall k :: k in st'.dp.desired ==> k.0 != p && k.1 != p
  {
    ForgetPeer(Cleanup(st, p), p)
  }

  lemma RemovePeerInv(n: Net, p: Id)
    requires Inv(n) && Unconnected(n, p) && !n.peers[p].isRelay
    ensures Inv(n.(peers := n.peers - {p}))
  {
    var n' := n.(peers := n.peers - {p});
    assert PeerOk(n, p);
    forall q ensures PeerOk(n', q) { assert PeerOk(n, q); }
  }

  /** What peers other than p need is not changed. */
  ghost predicate OthersNeed(n: Net, n': Net, p: Id) {
    forall q :: q in n.peers && q != p ==> Needs(n', q) == Needs(n, q)
  }

  /** However p loses its connection, and whoever it relayed for, the other peers go on needing a relay if they did. */
  lemma CleanupKeepsNeeds(st: State, p: Id)
    requires Valid(st) && p in st.net.peers
    ensures OthersNeed(st.net, Cleanup(st, p).net, p)
  {}

  lemma RegisterAndAssign(n: Net, p: Id)
    requires Inv(n) && Unconnected(n, p) && Inv(Register(n, p))
    ensures var n' := Assign(Register(n, p));
            Needs(n', p) && OthersNeed(n, n', p) && (n.relays != [] ==> n'.peers[p].relaying.Some?)
  {
    var n' := Assign(Register(n, p));
    assert Needs(Register(n, p), p) && OthersNeed(n, Register(n, p), p);
    assert PeerOk(n', p);
  }

  /** A peer that needs a relay is given one if there is one, and waits for one otherwise. */
  lemma NeedRelayMeans(st: State, p: Id)
    requires Valid(st) && p in st.net.peers && !st.net.peers[p].isRelay && Settled(st.net)
    ensures Needs(NeedRelay(st, p).net, p) && OthersNeed(st.net, NeedRelay(st, p).net, p)
    ensures st.net.relays != [] ==> NeedRelay(st, p).net.peers[p].relaying.Some?
  {
    if st.net.peers[p].waiting {
      assert PeerOk(st.net, p);
    } else {
      var n := Cleanup(st, p).net;
      CleanupKeepsNeeds(st, p);
      RegisterInv(n, p);
      RegisterAndAssign(n, p);
      OthersNeedBoth(st.net, n, Assign(Register(n, p)), p);
    }
  }

  lemma OthersNeedBoth(a: Net, b: Net, c: Net, p: Id)
    requires OthersNeed(a, b, p) && OthersNeed(b, c, p) && a.peers.Keys == b.peers.Keys
    ensures OthersNeed(a, c, p)
  {}

  // ----- whole runs

  datatype Event =
    | PeerAdd(p: Id, canRelay: bool) | PeerRemove(p: Id)
    | FreshLink(p: Id, ok: bool)     // a new link for p is made, or cannot be
    | PeerReset(p: Id)
    | PeerNeedsRelay(p: Id)
    | Up(p: Id) | Down(p: Id)        // the DataProto sink of p reports that it is up or down
    | RelayFrame(s: Id, d: Id)       // s sends a frame to be relayed to d
    | RouteFrame                     // the frame is passed to the current relay flow
    | Inactive(s: Id, d: Id)         // the relay flow from s to d times out

  ghost predicate May(st: State, ev: Event) {
    match ev
    case PeerAdd(p, _) => p !in st.net.peers
    case PeerNeedsRelay(p) => p in st.net.peers && !st.net.peers[p].isRelay
    case Up(p) => p in st.net.peers && st.net.peers[p].haveLink
    case Down(p) => p in st.net.peers && st.net.peers[p].haveLink
    case RelayFrame(s, d) => s in st.net.peers && d in st.net.peers && s != d && st.dp.current.None?
    case RouteFrame => true
    case Inactive(s, d) => (s, d) in st.dp.desired
    case _ => ev.p in st.net.peers
  }

  function Handle(st: State, ev: Event): State
    requires Valid(st) && May(st, ev)
  {
    match ev
    case PeerAdd(p, canRelay) => AddPeer(st, p, canRelay)
    case PeerRemove(p) => RemovePeer(st, p)
    case FreshLink(p, ok) => if ok then LinkUp(Cleanup(st, p), p) else Cleanup(st, p)
    case PeerReset(p) => Cleanup(st, p)
    case PeerNeedsRelay(p) => NeedRelay(st, p)
    case Up(p) => if st.net.peers[p].canRelay && !st.net.peers[p].isRelay then Provider(st, p, true) else st
    case Down(p) => if st.net.peers[p].isRelay then Provider(st, p, false) else st
    case RelayFrame(s, d) => st.(dp := F.SubmitFrame(st.dp, s, d))
    case RouteFrame => st.(dp := st.dp.(current := None))
    case Inactive(s, d) =>
      assert F.FlowOk(st.dp, s, d);
      st.(dp := F.FreeFlow(st.dp, s, d))
  }

  // ----- the calls to DataProto, in the order in which the code makes them

  /** peer_init_link: the sink is made, the local flow attached, and then the relay flows to the peer. */
  function LinkUpCalls(st: State, p: Id): seq<C.Call>
    requires p in st.dp.sinks
  {
    [C.SinkInit(p), C.Attach(C.Local(p), p)] + F.SetSinkCalls(st.dp, p, Some(p))
  }

  /** peer_free_link: the relay flows are detached, then the local flow, and then the sink is freed. */
  function LinkDownCalls(st: State, p: Id): seq<C.Call>
    requires p in st.dp.sinks
  {
    F.SetSinkCalls(st.dp, p, None) + [C.Detach(C.Local(p)), C.SinkFree(p)]
  }

  function DropLinkCalls(st: State, p: Id): seq<C.Call>
    requires Valid(st) && p in st.net.peers && st.net.peers[p].haveLink
  {
    if st.net.peers[p].isRelay then DisableCalls(st.net, p) + LinkDownCalls(Provider(st, p, false), p)
    else LinkDownCalls(st, p)
  }

  /** peer_cleanup_connections */
  function CleanupCalls(st: State, p: Id): seq<C.Call>
    requires Valid(st) && p in st.net.peers
  {
    if st.net.peers[p].haveLink then DropLinkCalls(st, p)
    else if st.net.peers[p].relaying.Some? then [C.Detach(C.Local(p))]
    else []
  }

  /** peer_need_relay */
  function NeedRelayCalls(st: State, p: Id): seq<C.Call>
    requires Valid(st) && p in st.net.peers && !st.net.peers[p].isRelay
  {
    if st.net.peers[p].waiting then []
    else
      var st1 := Cleanup(st, p);
      RegisterInv(st1.net, p);
      CleanupCalls(st, p) + AssignCalls(Register(st1.net, p))
  }

  /** DPReceivePeer_Free, and then the local flow is freed. */
  function ForgetPeerCalls(st: State, p: Id): seq<C.Call>
    requires Valid(st) && Unconnected(st.net, p) && !st.net.peers[p].isRelay
  {
    F.FreeInv(st.dp, p);
    F.SinkFreeCalls(st.dp, p) + F.SourceFreeCalls(F.SinkFree(st.dp, p), p) + [C.FlowFree(C.Local(p))]
  }

  /** peer_remove */
  function RemovePeerCalls(st: State, p: Id): seq<C.Call>
    requires Valid(st) && p in st.net.peers
  {
    CleanupCalls(st, p) + ForgetPeerCalls(Cleanup(st, p), p)
  }

  /** What peer_bind_one_address and peer_connect do first. */
  function FreshLinkCalls(st: State, p: Id, ok: bool): seq<C.Call>
    requires Valid(st) && p in st.net.peers
  {
    if ok then CleanupCalls(st, p) + LinkUpCalls(Cleanup(st, p), p) else CleanupCalls(st, p)
  }

  function HandleCalls(st: State, ev: Event): seq<C.Call>
    requires Valid(st) && May(st, ev)
  {
    match ev
    case PeerAdd(p, _) => [C.FlowInit(C.Local(p))]
    case PeerRemove(p) => RemovePeerCalls(st, p)
    case FreshLink(p, ok) => FreshLinkCalls(st, p, ok)
    case PeerReset(p) => CleanupCalls(st, p)
    case PeerNeedsRelay(p) => NeedRelayCalls(st, p)
    case Up(p) => if st.net.peers[p].canRelay && !st.net.peers[p].isRelay then EnableCalls(st.net, p) else []
    case Down(p) => if st.net.peers[p].isRelay then DisableCalls(st.net, p) else []
    case RelayFrame(s, d) => F.SubmitFrameCalls(st.dp, s, d)
    case RouteFrame => []
    case Inactive(s, d) =>
      assert F.FlowOk(st.dp, s, d);
      F.FreeFlowCalls(st.dp, s, d)
  }

  lemma DpValid(st: State, dp: F.State)
    requires Valid(st) && F.Inv(dp)
    requires dp.sources.Keys == st.dp.sources.Keys && dp.sinks.Keys == st.dp.sinks.Keys
    requires forall d :: d in dp.sinks ==> dp.sinks[d].dpSink == st.dp.sinks[d].dpSink
    ensures Valid(st.(dp := dp))
  {
    forall p ensures Joined(st.(dp := dp), p) { assert Joined(st, p); }
  }

  /** Every handler finds a consistent state in which no peer waits while there is a relay, and leaves one. */
  lemma HandleValid(st: State, ev: Event)
    requires Valid(st) && Settled(st.net) && May(st, ev)
    ensures Valid(Handle(st, ev)) && Settled(Handle(st, ev).net)
  {
    match ev
    case RelayFrame(s, d) =>
      F.SubmitFrameInv(st.dp, s, d);
      DpValid(st, F.SubmitFrame(st.dp, s, d));
    case RouteFrame =>
      F.NoCurrentInv(st.dp);
      DpValid(st, st.dp.(current := None));
    case Inactive(s, d) =>
      assert F.FlowOk(st.dp, s, d);
      F.FreeFlowInv(st.dp, s, d);
      DpValid(st, F.FreeFlow(st.dp, s, d));
    case _ =>
  }

  /** The state after a run in which every event was one that may happen. */
  ghost function Run(evs: seq<Event>): (st: Option<State>)
    ensures st.Some? ==> Valid(st.value) && Settled(st.value.net)
  {
    if evs == [] then Some(START)
    else
      var st, ev := Run(evs[..|evs| - 1]), evs[|evs| - 1];
      if st.None? || !May(st.value, ev) then None
      else
        HandleValid(st.value, ev);
        Some(Handle(st.value, ev))
  }

  /** All calls of a run. */
  ghost function RunCalls(evs: seq<Event>): seq<C.Call>
    requires Run(evs).Some?
  {
    if evs == [] then []
    else
      var before := evs[..|evs| - 1];
      RunCalls(before) + HandleCalls(Run(before).value, evs[|evs| - 1])
  }

  lemma {:induction false} RunPrefix(evs: seq<Event>, k: nat)
    requires Run(evs).Some? && k <= |evs|
    ensures Run(evs[..k]).Some?
  {
    if k == |evs| {
      assert evs[..k] == evs;
    } else {
      RunPrefix(evs[..|evs| - 1], k);
      assert evs[..|evs| - 1][..k] == evs[..k];
    }
  }

  lemma RunNext(evs: seq<Event>, k: nat)
    requires Run(evs).Some? && k < |evs|
    ensures var st := Run(evs[..k]);
            st.Some? && May(st.value, evs[k]) && Run(evs[..k + 1]) == Some(Handle(st.value, evs[k]))
  {
    RunPrefix(evs, k + 1);
    assert evs[..k + 1][..k] == evs[..k];
  }

  lemma RunCallsNext(evs: seq<Event>, k: nat)
    requires k < |evs| && Run(evs[..k]).Some? && May(Run(evs[..k]).value, evs[k]) && Run(evs[..k + 1]).Some?
    ensures RunCalls(evs[..k + 1]) == RunCalls(evs[..k]) + HandleCalls(Run(evs[..k]).value, evs[k])
  {
    assert evs[..k + 1][..k] == evs[..k];
  }

  function Count(b: bool): nat { if b then 1 else 0 }

  /**
    At every handler boundary, each peer has at most one of a link, a relaying peer and the waiting flag;
    the relay, relay-user and waiting lists have exactly the peers that the fields say, once each; and no
    peer waits while there is a relay.
  */
  lemma EveryRun(evs: seq<Event>)
    requires Run(evs).Some?
    ensures var n := Run(evs).value.net;
            && (forall p :: p in n.peers ==>
                  Count(n.peers[p].haveLink) + Count(n.peers[p].relaying.Some?) + Count(n.peers[p].waiting) <= 1)
            && (forall p :: p in n.relays <==> p in n.peers && n.peers[p].isRelay)
            && (forall p :: p in n.waiting <==> p in n.peers && n.peers[p].waiting)
            && (forall p, r :: r in n.peers ==>
              (p in n.peers[r].users <==> p in n.peers && n.peers[p].relaying == Some(r)))
            && NoDup(n.relays) && NoDup(n.waiting) && (forall r :: r in n.peers ==> NoDup(n.peers[r].users))
            && (n.relays == [] || n.waiting == [])
  {
    var n := Run(evs).value.net;
    assert forall p :: p in n.peers ==> PeerOk(n, p);
  }
}
