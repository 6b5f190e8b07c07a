/** The link and relay functions of client/client.c, which change the peers and the global lists in place. */
module RelayNetworkObject {
  import opened Common
  import opened Lists
  import opened RelayAssignment
  import opened RelayNetwork
  import C = FlowCalls
  import F = RelayFlows
  import R = RelayFlowsObject

  class Client {
    var peers: map<Id, Peer>
    var relays: seq<Id>
    var waitingRelayPeers: seq<Id>
    const router: R.DPRelayRouter

    ghost function Peers(): Net
      reads this
    {
      Net(peers, relays, waitingRelayPeers)
    }

    ghost function Now(): State
      reads this, router`sources, router`sinks, router`desired, router`currentFlow
    {
      State(Peers(), router.Now())
    }

    constructor ()
      ensures Valid(Now()) && Now() == START && fresh(router) && router.calls == []
    {
      peers, relays, waitingRelayPeers := map[], [], [];
      router := new R.DPRelayRouter();
    }

    /** DataProto is called. */
    ghost method Call(call: C.Call)
      modifies router`calls
      ensures C.Made(old(router.calls), [call], router.calls)
    {
      router.calls := router.calls + [call];
    }

    // ----- the waiting list and relaying

    method PeerRegisterNeedRelay(p: Id)
      requires Inv(Peers()) && Unconnected(Peers(), p)
      modifies this
      ensures Inv(Peers()) && Peers() == Register(old(Peers()), p)
    {
      RegisterInv(Peers(), p);
      waitingRelayPeers := waitingRelayPeers + [p];
      peers := peers[p := peers[p].(waiting := true)];
    }

    method PeerUnregisterNeedRelay(p: Id)
      requires Inv(Peers()) && p in peers && peers[p].waiting
      modifies this
      ensures Inv(Peers()) && Unconnected(Peers(), p) && Peers() == Unregister(old(Peers()), p)
    {
      UnregisterInv(Peers(), p);
      waitingRelayPeers := Without(waitingRelayPeers, p);
      peers := peers[p := peers[p].(waiting := false)];
    }

    method PeerInstallRelaying(p: Id, relay: Id)
      requires Inv(Peers()) && Unconnected(Peers(), p) && relay in peers && peers[relay].isRelay
      modifies this, router`calls
      ensures Inv(Peers()) && p != relay && Peers() == Install(old(Peers()), p, relay)
      ensures C.Made(old(router.calls), [C.Attach(C.Local(p), relay)], router.calls)
    {
      InstallInv(Peers(), p, relay);
      peers := peers[relay := peers[relay].(users := peers[relay].users + [p])];
      Call(C.Attach(C.Local(p), relay));
      peers := peers[p := peers[p].(desired := Some(relay))];
      peers := peers[p := peers[p].(relaying := Some(relay))];
      assert peers == Install(old(Peers()), p, relay).peers;
    }

    method PeerFreeRelaying(p: Id)
      requires Inv(Peers()) && p in peers && peers[p].relaying.Some?
      modifies this, router`calls
      ensures old(peers)[p].relaying.value in old(peers) && old(peers)[p].relaying.value != p
      ensures Inv(Peers()) && Unconnected(Peers(), p) && Peers() == FreeRelaying(old(Peers()), p)
      ensures C.Made(old(router.calls), [C.Detach(C.Local(p))], router.calls)
    {
      RelayingOk(Peers(), p);
      FreeRelayingInv(Peers(), p);
      var relay := peers[p].relaying.value;
      Call(C.Detach(C.Local(p)));
      peers := peers[p := peers[p].(desired := None)];
      peers := peers[relay := peers[relay].(users := Without(peers[relay].users, p))];
      peers := peers[p := peers[p].(relaying := None)];
      assert peers == FreeRelaying(old(Peers()), p).peers;
    }

    /** The first waiting peer gets the first relay. */
    method AssignFirstRelay(ghost was: seq<C.Call>, ghost all: seq<C.Call>)
      requires Inv(Peers()) && waitingRelayPeers != [] && relays != []
      requires C.Left(was, all, router.calls, AssignCalls(Peers()))
      modifies this, router`calls
      ensures Inv(Peers()) && Peers() == AssignFirst(old(Peers())) && |waitingRelayPeers| < |old(waitingRelayPeers)|
      ensures C.Left(was, all, router.calls, AssignCalls(Peers()))
    {
      var p, relay := waitingRelayPeers[0], relays[0];
      assert PeerOk(Peers(), p) && PeerOk(Peers(), relay);
      ghost var next := AssignFirst(Peers());
      PeerUnregisterNeedRelay(p);
      PeerInstallRelaying(p, relay);
      assert Peers() == next;
      C.LeftLess(was, all, old(router.calls), [C.Attach(C.Local(p), relay)], router.calls, AssignCalls(next));
    }

    method AssignRelays()
      requires Inv(Peers())
      modifies this, router`calls
      ensures Inv(Peers()) && Peers() == Assign(old(Peers()))
      ensures C.Made(old(router.calls), AssignCalls(old(Peers())), router.calls)
    {
      ghost var n, was, all := Peers(), router.calls, AssignCalls(Peers());
      C.LeftAll(was, all);
      while waitingRelayPeers != []
        invariant Inv(Peers()) && Assign(Peers()) == Assign(n)
        invariant C.Left(was, all, router.calls, AssignCalls(Peers()))
        decreases |waitingRelayPeers|
      {
        if relays == [] {
          C.NoneLeft(was, all, router.calls);
          return;
        }
        AssignFirstRelay(was, all);
      }
      C.NoneLeft(was, all, router.calls);
    }

    method PeerEnableRelayProvider(p: Id)
      requires Inv(Peers()) && p in peers && peers[p].haveLink && !peers[p].isRelay
      modifies this, router`calls
      ensures Inv(Peers()) && Peers() == EnableProvider(old(Peers()), p)
      ensures C.Made(old(router.calls), EnableCalls(old(Peers()), p), router.calls)
    {
      EnableInv(Peers(), p);
      relays := relays + [p];
      peers := peers[p := peers[p].(users := [])];
      peers := peers[p := peers[p].(isRelay := true)];
      assert Peers() == Enable(old(Peers()), p);
      AssignRelays();
    }

    /** Disconnects the first user of relay p. */
    method FreeRelayUser(p: Id, ghost was: seq<C.Call>, ghost all: seq<C.Call>)
      requires Inv(Peers()) && p in peers && peers[p].users != []
      requires C.Left(was, all, router.calls, FreeUsersCalls(Peers(), p))
      modifies this, router`calls
      ensures Inv(Peers()) && Peers() == FreeFirstUser(old(Peers()), p) && p in peers
      ensures C.Left(was, all, router.calls, FreeUsersCalls(Peers(), p))
    {
      var user := peers[p].users[0];
      assert PeerOk(Peers(), p) && PeerOk(Peers(), user);
      ghost var next := FreeFirstUser(Peers(), p);
      PeerFreeRelaying(user);
      PeerRegisterNeedRelay(user);
      assert Peers() == next;
      C.LeftLess(was, all, old(router.calls), [C.Detach(C.Local(user))], router.calls, FreeUsersCalls(next, p));
    }

    /** Disconnects the users of relay p. */
    method FreeRelayUsers(p: Id)
      requires Inv(Peers()) && p in peers
      modifies this, router`calls
      ensures Inv(Peers()) && Peers() == FreeUsers(old(Peers()), p)
      ensures C.Made(old(router.calls), FreeUsersCalls(old(Peers()), p), router.calls)
    {
      ghost var n, was, all := Peers(), router.calls, FreeUsersCalls(Peers(), p);
      C.LeftAll(was, all);
      while peers[p].users != []
        invariant Inv(Peers()) && p in peers && FreeUsers(Peers(), p) == FreeUsers(n, p)
        invariant C.Left(was, all, router.calls, FreeUsersCalls(Peers(), p))
        decreases |peers[p].users|
      {
        FreeRelayUser(p, was, all);
      }
      C.NoneLeft(was, all, router.calls);
    }

    method PeerDisableRelayProvider(p: Id)
      requires Inv(Peers()) && p in peers
      modifies this, router`calls
      ensures Inv(Peers()) && Peers() == DisableProvider(old(Peers()), p)
      ensures C.Made(old(router.calls), DisableCalls(old(Peers()), p), router.calls)
    {
      FreeRelayUsers(p);
      UnlistInv(Peers(), p);
      ghost var mid := router.calls;
      relays := Without(relays, p);
      peers := peers[p := peers[p].(isRelay := false)];
      ghost var n := Peers();
      AssignRelays();
      C.MadeMore(old(router.calls), FreeUsersCalls(old(Peers()), p), mid, AssignCalls(n), router.calls);
    }

    // ----- links

    /** What peer_init_link does to the peer, the router and DataProto. */
    method MakeLink(p: Id)
      requires router.Valid() && p in peers && p in router.sinks
      modifies this, router
      ensures router.Valid() && Peers() == InitLink(old(Peers()), p)
      ensures router.Now() == F.SetSink(old(router.Now()), p, Some(p))
      ensures C.Made(old(router.calls), LinkUpCalls(old(Now()), p), router.calls)
    {
      Call(C.SinkInit(p));
      ghost var mid := router.calls;
      Call(C.Attach(C.Local(p), p));
      peers := peers[p := peers[p].(desired := Some(p))];
      ghost var mid2 := router.calls;
      router.SetSink(p, Some(p));
      peers := peers[p := peers[p].(haveLink := true)];
      assert Peers() == InitLink(old(Peers()), p);
      LinkUpMade(old(router.calls), mid, mid2, router.calls, old(Now()), p);
    }

    method PeerInitLink(p: Id)
      requires Valid(Now()) && Unconnected(Peers(), p)
      modifies this, router
      ensures Valid(Now()) && Now() == LinkUp(old(Now()), p)
      ensures C.Made(old(router.calls), LinkUpCalls(old(Now()), p), router.calls)
    {
      ghost var next := LinkUp(Now(), p);
      MakeLink(p);
      assert Now() == next;
    }

    /** What peer_free_link does to them. */
    method BreakLink(p: Id)
      requires router.Valid() && p in peers && p in router.sinks
      modifies this, router
      ensures router.Valid() && Peers() == FreeLink(old(Peers()), p)
      ensures router.Now() == F.SetSink(old(router.Now()), p, None)
      ensures C.Made(old(router.calls), LinkDownCalls(old(Now()), p), router.calls)
    {
      router.SetSink(p, None);
      ghost var mid := router.calls;
      Call(C.Detach(C.Local(p)));
      peers := peers[p := peers[p].(desired := None)];
      ghost var mid2 := router.calls;
      Call(C.SinkFree(p));
      peers := peers[p := peers[p].(haveLink := false)];
      assert Peers() == FreeLink(old(Peers()), p);
      LinkDownMade(old(router.calls), mid, mid2, router.calls, old(Now()), p);
    }

    method PeerFreeLink(p: Id)
      requires Valid(Now()) && p in peers && peers[p].haveLink && !peers[p].isRelay
      modifies this, router
      ensures Valid(Now()) && Unconnected(Peers(), p) && Now() == LinkDown(old(Now()), p)
      ensures C.Made(old(router.calls), LinkDownCalls(old(Now()), p), router.calls)
    {
      ghost var next := LinkDown(Now(), p);
      BreakLink(p);
      assert Now() == next;
    }

    /** The cleanup of a peer that has a link. */
    method PeerDropLink(p: Id)
      requires Valid(Now()) && p in peers && peers[p].haveLink
      modifies this, router
      ensures Valid(Now()) && Unconnected(Peers(), p) && Now() == DropLink(old(Now()), p)
      ensures C.Made(old(router.calls), DropLinkCalls(old(Now()), p), router.calls)
    {
      if !peers[p].isRelay {
        PeerFreeLink(p);
        return;
      }
      ghost var st := Now();
      PeerDisableRelayProvider(p);
      SameLinksValid(st, Peers());
      ghost var mid, calls := Now(), router.calls;
      PeerFreeLink(p);
      C.MadeMore(old(router.calls), DisableCalls(st.net, p), calls, LinkDownCalls(mid, p), router.calls);
    }

    method PeerCleanupConnections(p: Id)
      requires Valid(Now()) && p in peers
      modifies this, router
      ensures Valid(Now()) && Unconnected(Peers(), p) && Now() == Cleanup(old(Now()), p)
      ensures C.Made(old(router.calls), CleanupCalls(old(Now()), p), router.calls)
    {
      ghost var st := Now();
      assert PeerOk(Peers(), p);
      ghost var next := Cleanup(st, p);
      C.MadeNone(router.calls);
      if peers[p].haveLink {
        PeerDropLink(p);
      } else if peers[p].relaying.Some? {
        PeerFreeRelaying(p);
      } else if peers[p].waiting {
        PeerUnregisterNeedRelay(p);
      }
      assert Now() == next;
    }

    /** A peer that does not wait gives up its connection; it is no relay provider. */
    method PeerDisconnect(p: Id)
      requires Valid(Now()) && p in peers && !peers[p].isRelay && !peers[p].waiting
      modifies this, router
      ensures Valid(Now()) && Unconnected(Peers(), p) && Now() == Cleanup(old(Now()), p)
      ensures C.Made(old(router.calls), CleanupCalls(old(Now()), p), router.calls)
    {
      ghost var next := Cleanup(Now(), p);
      assert PeerOk(Peers(), p);
      C.MadeNone(router.calls);
      if peers[p].haveLink {
        PeerFreeLink(p);
      } else if peers[p].relaying.Some? {
        PeerFreeRelaying(p);
      }
      assert Now() == next;
    }

    method PeerNeedRelay(p: Id)
      requires Valid(Now()) && p in peers && !peers[p].isRelay
      modifies this, router
      ensures Valid(Now()) && Now() == NeedRelay(old(Now()), p)
      ensures C.Made(old(router.calls), NeedRelayCalls(old(Now()), p), router.calls)
    {
      C.MadeNone(router.calls);
      if peers[p].waiting {
        return;
      }
      ghost var next := NeedRelay(Now(), p);
      PeerDisconnect(p);
      ghost var mid := router.calls;
      PeerRegisterNeedRelay(p);
      ghost var n := Peers();
      AssignRelays();
      C.MadeMore(old(router.calls), CleanupCalls(old(Now()), p), mid, AssignCalls(n), router.calls);
      assert Now() == next;
    }

    // ----- handlers

    method PeerDataprotoHandler(p: Id, up: bool)
      requires Valid(Now()) && p in peers && peers[p].haveLink
      modifies this, router`calls
      ensures var ev := if up then Up(p) else Down(p);
              && Valid(Now()) && Now() == Handle(old(Now()), ev)
              && C.Made(old(router.calls), HandleCalls(old(Now()), ev), router.calls)
      ensures p in peers && peers[p].isRelay == (up && (old(peers)[p].canRelay || old(peers)[p].isRelay))
    {
      ghost var st := Now();
      C.MadeNone(router.calls);
      if up {
        if peers[p].canRelay && !peers[p].isRelay {
          PeerEnableRelayProvider(p);
          SameLinksValid(st, Peers());
        }
      } else {
        if peers[p].isRelay {
          PeerDisableRelayProvider(p);
          SameLinksValid(st, Peers());
        }
      }
    }

    /** The fresh link of peer_bind_one_address and peer_connect; `ok` if the link can be made. */
    method GetFreshLink(p: Id, ok: bool)
      requires Valid(Now()) && p in peers
      modifies this, router
      ensures Valid(Now()) && Now() == if ok then LinkUp(Cleanup(old(Now()), p), p) else Cleanup(old(Now()), p)
      ensures C.Made(old(router.calls), FreshLinkCalls(old(Now()), p, ok), router.calls)
    {
      PeerCleanupConnections(p);
      if ok {
        ghost var mid, calls := Now(), router.calls;
        PeerInitLink(p);
        C.MadeMore(old(router.calls), CleanupCalls(old(Now()), p), calls, LinkUpCalls(mid, p), router.calls);
      }
    }

    method PeerAdd(p: Id, canRelay: bool)
      requires Valid(Now()) && p !in peers
      modifies this, router
      ensures Valid(Now()) && Now() == Handle(old(Now()), Event.PeerAdd(p, canRelay))
      ensures C.Made(old(router.calls), [C.FlowInit(C.Local(p))], router.calls)
    {
      ghost var next := AddPeer(Now(), p, canRelay);
      Call(C.FlowInit(C.Local(p)));
      router.PeerInit(p);
      peers := peers[p := Peer(canRelay, false, None, false, false, [], None)];
      assert Now() == next;
    }

    /** Frees the receive side of a peer that is not connected, and its local flow. */
    method PeerForget(p: Id)
      requires Valid(Now()) && Unconnected(Peers(), p) && !peers[p].isRelay
      modifies this, router
      ensures Valid(Now()) && Now() == ForgetPeer(old(Now()), p)
      ensures C.Made(old(router.calls), ForgetPeerCalls(old(Now()), p), router.calls)
    {
      ghost var next, dp := ForgetPeer(Now(), p), router.Now();
      peers := peers - {p};
      router.SinkFree(p);
      ghost var mid := router.calls;
      router.SourceFree(p);
      ghost var mid2 := router.calls;
      Call(C.FlowFree(C.Local(p)));
      assert Now() == next;
      var xs, ys := F.SinkFreeCalls(dp, p), F.SourceFreeCalls(F.SinkFree(dp, p), p);
      C.MadeMore(old(router.calls), xs, mid, ys, mid2);
      C.MadeMore(old(router.calls), xs + ys, mid2, [C.FlowFree(C.Local(p))], router.calls);
    }

    method PeerRemove(p: Id)
      requires Valid(Now()) && p in peers
      modifies this, router
      ensures Valid(Now()) && Now() == RemovePeer(old(Now()), p)
      ensures C.Made(old(router.calls), RemovePeerCalls(old(Now()), p), router.calls)
    {
      PeerCleanupConnections(p);
      ghost var mid, calls := Now(), router.calls;
      PeerForget(p);
      C.MadeMore(old(router.calls), CleanupCalls(old(Now()), p), calls, ForgetPeerCalls(mid, p), router.calls);
    }

    /** A frame is relayed, or a relay flow times out. */
    method HandleRelay(ev: Event)
      requires Valid(Now()) && Settled(Peers()) && May(Now(), ev) && (ev.RelayFrame? || ev.RouteFrame? || ev.Inactive?)
      modifies router
      ensures Valid(Now()) && Settled(Peers()) && Now() == Handle(old(Now()), ev)
      ensures C.Made(old(router.calls), HandleCalls(old(Now()), ev), router.calls)
    {
      HandleValid(Now(), ev);
      C.MadeNone(router.calls);
      match ev
      case RelayFrame(s, d) =>
        assert Joined(Now(), s) && Joined(Now(), d);
        router.SubmitFrame(s, d);
      case RouteFrame => var _ := router.RouterDpSourceHandler();
      case Inactive(s, d) =>
        assert F.FlowOk(router.Now(), s, d);
        router.FreeFlow(s, d);
    }

    method HandleEvent(ev: Event)
      requires Valid(Now()) && Settled(Peers()) && May(Now(), ev)
      modifies this, router
      ensures Valid(Now()) && Settled(Peers()) && Now() == Handle(old(Now()), ev)
      ensures C.Made(old(router.calls), HandleCalls(old(Now()), ev), router.calls)
    {
      HandleValid(Now(), ev);
      if ev.RelayFrame? || ev.RouteFrame? || ev.Inactive? {
        HandleRelay(ev);
        return;
      }
      match ev
      case PeerAdd(p, canRelay) => PeerAdd(p, canRelay);
      case PeerRemove(p) => PeerRemove(p);
      case FreshLink(p, ok) => GetFreshLink(p, ok);
      case PeerReset(p) => PeerCleanupConnections(p);
      case PeerNeedsRelay(p) => PeerNeedRelay(p);
      case Up(p) => PeerDataprotoHandler(p, true);
      case Down(p) => PeerDataprotoHandler(p, false);
      case _ =>
    }

    /** Every run of the model is a run of the client, which makes exactly the calls of the model. */
    method HandleAll(evs: seq<Event>)
      requires Now() == START && router.calls == [] && Run(evs).Some?
      modifies this, router
      ensures Run(evs) == Some(Now()) && router.calls == RunCalls(evs)
    {
      var i := 0;
      while i < |evs|
        invariant 0 <= i <= |evs| && Run(evs[..i]) == Some(Now()) && router.calls == RunCalls(evs[..i])
      {
        RunNext(evs, i);
        RunCallsNext(evs, i);
        HandleEvent(evs[i]);
        i := i + 1;
      }
      assert evs[..i] == evs;
    }
  }

  lemma LinkUpMade(a: seq<C.Call>, b: seq<C.Call>, c: seq<C.Call>, d: seq<C.Call>, st: State, p: Id)
    requires p in st.dp.sinks && C.Made(a, [C.SinkInit(p)], b) && C.Made(b, [C.Attach(C.Local(p), p)], c)
    requires C.Made(c, F.SetSinkCalls(st.dp, p, Some(p)), d)
    ensures C.Made(a, LinkUpCalls(st, p), d)
  {
    C.MadeMore(a, [C.SinkInit(p)], b, [C.Attach(C.Local(p), p)], c);
    assert [C.SinkInit(p)] + [C.Attach(C.Local(p), p)] == [C.SinkInit(p), C.Attach(C.Local(p), p)];
    C.MadeMore(a, [C.SinkInit(p), C.Attach(C.Local(p), p)], c, F.SetSinkCalls(st.dp, p, Some(p)), d);
  }

  lemma LinkDownMade(a: seq<C.Call>, b: seq<C.Call>, c: seq<C.Call>, d: seq<C.Call>, st: State, p: Id)
    requires p in st.dp.sinks && C.Made(a, F.SetSinkCalls(st.dp, p, None), b)
    requires C.Made(b, [C.Detach(C.Local(p))], c) && C.Made(c, [C.SinkFree(p)], d)
    ensures C.Made(a, LinkDownCalls(st, p), d)
  {
    C.MadeMore(b, [C.Detach(C.Local(p))], c, [C.SinkFree(p)], d);
    assert [C.Detach(C.Local(p))] + [C.SinkFree(p)] == [C.Detach(C.Local(p)), C.SinkFree(p)];
    C.MadeMore(a, F.SetSinkCalls(st.dp, p, None), b, [C.Detach(C.Local(p)), C.SinkFree(p)], d);
  }
}
