/**
  What makes a peer a relay provider, and which provider a peer is given, told from what has happened to the
  client.
*/
module RelayHistory {
  import opened Common
  import opened Lists
  import opened RelayAssignment
  import opened RelayNetwork
  import F = RelayFlows

  // ----- who relays

  /**
    What the events say of a peer: whether it is there, whether it may relay, whether it has a link, whether the last
    report on that link was that it is up, and whether it was last said to need a relay.
  */
  datatype Told = Told(there: bool, canRelay: bool, link: bool, up: bool, needs: bool)

  const UNKNOWN := Told(false, false, false, false, false)

  function Hear(t: Told, ev: Event, p: Id): Told {
    match ev
    case PeerAdd(q, canRelay) => if q == p then Told(true, canRelay, false, false, false) else t
    case PeerRemove(q) => if q == p then UNKNOWN else t
    case FreshLink(q, ok) => if q == p then t.(link := ok, up := false, needs := false) else t
    case PeerReset(q) => if q == p then t.(link := false, up := false, needs := false) else t
    case PeerNeedsRelay(q) => if q == p then t.(link := false, up := false, needs := true) else t
    case Up(q) => if q == p then t.(up := true) else t
    case Down(q) => if q == p then t.(up := false) else t
    case _ => t
  }

  function ToldOf(evs: seq<Event>, p: Id): Told {
    if evs == [] then UNKNOWN else Hear(ToldOf(evs[..|evs| - 1], p), evs[|evs| - 1], p)
  }

  ghost predicate AsTold(n: Net, p: Id, t: Told) {
    && (p in n.peers <==> t.there) && (!t.there ==> t == UNKNOWN)
    && (p in n.peers ==>
          && n.peers[p].canRelay == t.canRelay && n.peers[p].haveLink == t.link
          && (n.peers[p].isRelay <==> t.link && t.canRelay && t.up)
          && (Needs(n, p) <==> t.needs))
  }

  /** The events that are about p itself leave of other peers what makes them relays. */
  ghost predicate SameRoles(n: Net, n': Net, p: Id) {
    forall q :: q != p ==>
      && (q in n'.peers <==> q in n.peers)
      && (q in n.peers ==>
            && n'.peers[q].canRelay == n.peers[q].canRelay && n'.peers[q].haveLink == n.peers[q].haveLink
            && n'.peers[q].isRelay == n.peers[q].isRelay && Needs(n', q) == Needs(n, q))
  }

  lemma SameRolesBoth(a: Net, b: Net, c: Net, p: Id)
    requires SameRoles(a, b, p) && SameRoles(b, c, p)
    ensures SameRoles(a, c, p)
  {}

  lemma FreeFirstRoles(n: Net, p: Id)
    requires Inv(n) && p in n.peers && n.peers[p].users != []
    ensures SameRoles(n, FreeFirstUser(n, p), p)
  {
    assert PeerOk(n, p) && PeerOk(n, n.peers[p].users[0]);
  }

  lemma {:induction false} FreeUsersRoles(n: Net, p: Id)
    requires Inv(n) && p in n.peers
    ensures SameRoles(n, FreeUsers(n, p), p)
    decreases |n.peers[p].users|
  {
    if n.peers[p].users == [] {
    } else {
      var n1 := FreeFirstUser(n, p);
      FreeFirstRoles(n, p);
      FreeUsersRoles(n1, p);
      SameRolesBoth(n, n1, FreeUsers(n, p), p);
    }
  }

  lemma ProviderRoles(st: State, p: Id, on: bool)
    requires Valid(st) && p in st.net.peers && st.net.peers[p].haveLink && (on ==> !st.net.peers[p].isRelay)
    ensures SameRoles(st.net, Provider(st, p, on).net, p)
  {
    if on {
      EnableInv(st.net, p);
    } else {
      FreeUsersRoles(st.net, p);
      UnlistInv(FreeUsers(st.net, p), p);
    }
  }

  lemma DropLinkRoles(st: State, p: Id)
    requires Valid(st) && p in st.net.peers && st.net.peers[p].haveLink
    ensures SameRoles(st.net, DropLink(st, p).net, p) && p in DropLink(st, p).net.peers
    ensures DropLink(st, p).net.peers[p].canRelay == st.net.peers[p].canRelay
  {
    if st.net.peers[p].isRelay {
      ProviderRoles(st, p, false);
    }
  }

  /** The peer has no link after the event, and no other peer changes its role. */
  ghost predicate Unlinks(n: Net, n': Net, q: Id, needs: bool) {
    && SameRoles(n, n', q) && q in n.peers && q in n'.peers && n'.peers[q].canRelay == n.peers[q].canRelay
    && !n'.peers[q].haveLink && !n'.peers[q].isRelay && Needs(n', q) == needs
  }

  /** A cleanup leaves the peer with nothing, and other peers in their roles. */
  lemma CleanupRoles(st: State, p: Id)
    requires Valid(st) && p in st.net.peers
    ensures Unlinks(st.net, Cleanup(st, p).net, p, false)
  {
    assert PeerOk(st.net, p);
    if st.net.peers[p].haveLink {
      DropLinkRoles(st, p);
    } else if st.net.peers[p].relaying.Some? {
      RelayingOk(st.net, p);
    }
  }

  lemma RegisterRoles(n: Net, p: Id)
    requires Inv(n) && Unconnected(n, p) && !n.peers[p].isRelay
    ensures Inv(Register(n, p)) && Unlinks(n, Assign(Register(n, p)), p, true)
  {
    RegisterInv(n, p);
    var n1 := Register(n, p);
    assert Needs(n1, p) && SameRoles(n, n1, p) && SameRoles(n1, Assign(n1), p);
    SameRolesBoth(n, n1, Assign(n1), p);
  }

  lemma NeedRelayRoles(st: State, p: Id)
    requires Valid(st) && p in st.net.peers && !st.net.peers[p].isRelay
    ensures Unlinks(st.net, NeedRelay(st, p).net, p, true)
  {
    assert PeerOk(st.net, p);
    if !st.net.peers[p].waiting {
      CleanupRoles(st, p);
      RegisterRoles(Cleanup(st, p).net, p);
      SameRolesBoth(st.net, Cleanup(st, p).net, NeedRelay(st, p).net, p);
    }
  }

  lemma OthersAsTold(n: Net, n': Net, q: Id, p: Id, t: Told)
    requires SameRoles(n, n', q) && p != q && AsTold(n, p, t)
    ensures AsTold(n', p, t)
  {}

  lemma UnlinksAsTold(n: Net, n': Net, q: Id, needs: bool, p: Id, t: Told)
    requires Unlinks(n, n', q, needs) && AsTold(n, p, t)
    ensures AsTold(n', p, if p == q then t.(link := false, up := false, needs := needs) else t)
  {}

  lemma HearCleanup(st: State, q: Id, p: Id, t: Told)
    requires Valid(st) && q in st.net.peers && AsTold(st.net, p, t)
    ensures AsTold(Cleanup(st, q).net, p, if p == q then t.(link := false, up := false, needs := false) else t)
  {
    CleanupRoles(st, q);
    UnlinksAsTold(st.net, Cleanup(st, q).net, q, false, p, t);
  }

  lemma HearLinkUp(st: State, q: Id, p: Id, t: Told)
    requires Valid(st) && Unconnected(st.net, q) && AsTold(st.net, p, t)
    ensures AsTold(LinkUp(st, q).net, p, if p == q then t.(link := true, up := false) else t)
  {
    assert PeerOk(st.net, q);
  }

  lemma HearForget(st: State, q: Id, p: Id, t: Told)
    requires Valid(st) && Unconnected(st.net, q) && !st.net.peers[q].isRelay && AsTold(st.net, p, t)
    ensures AsTold(ForgetPeer(st, q).net, p, if p == q then UNKNOWN else t)
  {}

  lemma HearReport(st: State, q: Id, up: bool, p: Id, t: Told)
    requires Valid(st) && q in st.net.peers && st.net.peers[q].haveLink && AsTold(st.net, p, t)
    ensures AsTold(Handle(st, if up then Up(q) else Down(q)).net, p, if p == q then t.(up := up) else t)
  {
    var n' := Handle(st, if up then Up(q) else Down(q)).net;
    assert PeerOk(st.net, q);
    if up && st.net.peers[q].canRelay && !st.net.peers[q].isRelay {
      ProviderRoles(st, q, true);
    } else if !up && st.net.peers[q].isRelay {
      ProviderRoles(st, q, false);
    }
    if p != q {
      OthersAsTold(st.net, n', q, p, t);
    }
  }

  lemma HearStep(st: State, ev: Event, p: Id, t: Told)
    requires Valid(st) && May(st, ev) && AsTold(st.net, p, t)
    ensures AsTold(Handle(st, ev).net, p, Hear(t, ev, p))
  {
    match ev
    case PeerAdd(q, canRelay) =>
    case PeerRemove(q) =>
      HearCleanup(st, q, p, t);
      HearForget(Cleanup(st, q), q, p, if p == q then t.(link := false, up := false, needs := false) else t);
    case FreshLink(q, ok) =>
      HearCleanup(st, q, p, t);
      HearLinkUp(Cleanup(st, q), q, p, if p == q then t.(link := false, up := false, needs := false) else t);
    case PeerReset(q) => HearCleanup(st, q, p, t);
    case PeerNeedsRelay(q) =>
      NeedRelayRoles(st, q);
      UnlinksAsTold(st.net, NeedRelay(st, q).net, q, true, p, t);
    case Up(q) => HearReport(st, q, true, p, t);
    case Down(q) => HearReport(st, q, false, p, t);
    case RelayFrame(s, d) =>
    case RouteFrame =>
    case Inactive(s, d) =>
  }

  /**
    In every run, a peer is a relay provider if and only if it has a link, it was said that it may relay when it was
    added, and the last report on that link was that it is up; and it has a relay or waits for one if and only if it was
    last said to need one.
  */
  lemma {:induction false} RelaysAreTold(evs: seq<Event>, p: Id)
    requires Run(evs).Some?
    ensures AsTold(Run(evs).value.net, p, ToldOf(evs, p))
  {
    if evs == [] {
    } else {
      var before, ev := evs[..|evs| - 1], evs[|evs| - 1];
      RelaysAreTold(before, p);
      HearStep(Run(before).value, ev, p, ToldOf(before, p));
    }
  }

  // ----- which relay a peer is given

  /** All peers that are reached through a relay are reached through the first one. */
  ghost predicate OneRelay(n: Net) {
    forall p :: p in n.peers && n.peers[p].relaying.Some? ==> n.relays != [] && n.peers[p].relaying == Some(n.relays[0])
  }

  lemma {:induction false} AssignOneRelay(n: Net)
    requires Inv(n) && OneRelay(n)
    ensures OneRelay(Assign(n))
    decreases |n.waiting|
  {
    if n.waiting == [] || n.relays == [] {
    } else {
      var p, r := n.waiting[0], n.relays[0];
      assert PeerOk(n, p) && PeerOk(n, r);
      AssignOneRelay(AssignFirst(n));
    }
  }

  /** Only the users of p lose their relay. */
  ghost predicate OnlyUsers(n: Net, n': Net, p: Id) {
    && n'.peers.Keys == n.peers.Keys
    && forall q :: q in n.peers && n'.peers[q].relaying.Some? ==>
         n'.peers[q].relaying == n.peers[q].relaying && n'.peers[q].relaying != Some(p)
  }

  lemma FreeFirstOnly(n: Net, p: Id)
    requires Inv(n) && p in n.peers && n.peers[p].users != []
    ensures FreeFirstUser(n, p).peers.Keys == n.peers.Keys
    ensures forall q :: q in n.peers && FreeFirstUser(n, p).peers[q].relaying.Some? ==>
              FreeFirstUser(n, p).peers[q].relaying == n.peers[q].relaying
  {
    assert PeerOk(n, p) && PeerOk(n, n.peers[p].users[0]);
  }

  lemma {:induction false} FreeUsersOnly(n: Net, p: Id)
    requires Inv(n) && p in n.peers
    ensures OnlyUsers(n, FreeUsers(n, p), p)
    decreases |n.peers[p].users|
  {
    assert PeerOk(n, p);
    if n.peers[p].users == [] {
      assert forall q :: q in n.peers ==> PeerOk(n, q);
    } else {
      FreeFirstOnly(n, p);
      FreeUsersOnly(FreeFirstUser(n, p), p);
    }
  }

  /** The list of relays without p, and nobody is reached through p any more. */
  ghost predicate WithoutRelay(n: Net, n': Net, p: Id) {
    OnlyUsers(n, n', p) && n'.relays == Without(n.relays, p)
  }

  lemma OneRelayLess(n: Net, n': Net, p: Id)
    requires OneRelay(n) && WithoutRelay(n, n', p)
    ensures OneRelay(n')
  {
    if n.relays != [] && n.relays[0] != p {
      assert Without(n.relays, p)[0] == n.relays[0];
    }
  }

  lemma EnableOneRelay(n: Net, p: Id)
    requires Inv(n) && OneRelay(n) && p in n.peers && n.peers[p].haveLink && !n.peers[p].isRelay
    ensures OneRelay(EnableProvider(n, p)) && EnableProvider(n, p).relays == n.relays + [p]
  {
    EnableInv(n, p);
    assert OneRelay(Enable(n, p));
    AssignOneRelay(Enable(n, p));
  }

  lemma DisableOneRelay(n: Net, p: Id)
    requires Inv(n) && OneRelay(n) && p in n.peers
    ensures OneRelay(DisableProvider(n, p)) && DisableProvider(n, p).relays == Without(n.relays, p)
  {
    var n1 := FreeUsers(n, p);
    FreeUsersOnly(n, p);
    UnlistInv(n1, p);
    assert WithoutRelay(n, Unlist(n1, p), p);
    OneRelayLess(n, Unlist(n1, p), p);
    AssignOneRelay(Unlist(n1, p));
  }

  lemma FewerRelayed(n: Net, n': Net)
    requires OneRelay(n) && n'.relays == n.relays && n'.peers.Keys == n.peers.Keys
    requires forall q :: q in n.peers && n'.peers[q].relaying.Some? ==> n'.peers[q].relaying == n.peers[q].relaying
    ensures OneRelay(n')
  {}

  /** Freeing a link changes nobody's relay. */
  lemma LinkDownOneRelay(st: State, p: Id)
    requires Valid(st) && OneRelay(st.net) && p in st.net.peers && st.net.peers[p].haveLink && !st.net.peers[p].isRelay
    ensures OneRelay(LinkDown(st, p).net) && LinkDown(st, p).net.relays == st.net.relays
  {}

  lemma DropLinkOneRelay(st: State, p: Id)
    requires Valid(st) && OneRelay(st.net) && p in st.net.peers && st.net.peers[p].haveLink
    ensures OneRelay(DropLink(st, p).net) && DropLink(st, p).net.relays == Without(st.net.relays, p)
  {
    assert PeerOk(st.net, p);
    if st.net.peers[p].isRelay {
      DisableOneRelay(st.net, p);
      LinkDownOneRelay(Provider(st, p, false), p);
    } else {
      WithoutAbsent(st.net.relays, p);
      LinkDownOneRelay(st, p);
    }
  }

  lemma FreeRelayingOneRelay(n: Net, p: Id)
    requires OneRelay(n) && p in n.peers && n.peers[p].relaying.Some? && n.peers[p].relaying.value in n.peers
    requires n.peers[p].relaying.value != p
    ensures OneRelay(FreeRelaying(n, p)) && FreeRelaying(n, p).relays == n.relays
  {
    FewerRelayed(n, FreeRelaying(n, p));
  }

  /** The first relays are the same, and p is not among them any more. */
  ghost predicate LeftRelays(n: Net, n': Net, p: Id) {
    OneRelay(n') && n'.relays == Without(n.relays, p)
  }

  lemma CleanupUnlinked(st: State, p: Id)
    requires Valid(st) && OneRelay(st.net) && p in st.net.peers && !st.net.peers[p].haveLink
    ensures LeftRelays(st.net, Cleanup(st, p).net, p)
  {
    var n := st.net;
    assert PeerOk(n, p);
    WithoutAbsent(n.relays, p);
    var n' := Cleanup(st, p).net;
    if n.peers[p].relaying.Some? {
      RelayingOk(n, p);
      assert n' == FreeRelaying(n, p);
      FreeRelayingOneRelay(n, p);
    } else {
      assert n' == if n.peers[p].waiting then Unregister(n, p) else n;
      FewerRelayed(n, n');
    }
  }

  lemma CleanupOneRelay(st: State, p: Id)
    requires Valid(st) && OneRelay(st.net) && p in st.net.peers
    ensures LeftRelays(st.net, Cleanup(st, p).net, p)
  {
    if st.net.peers[p].haveLink {
      DropLinkOneRelay(st, p);
    } else {
      CleanupUnlinked(st, p);
    }
  }

  /** How an event changes the list of relays. */
  function RelaysAfter(n: Net, ev: Event): seq<Id> {
    match ev
    case PeerRemove(p) => Without(n.relays, p)
    case FreshLink(p, _) => Without(n.relays, p)
    case PeerReset(p) => Without(n.relays, p)
    case Up(p) => if p in n.peers && n.peers[p].canRelay && p !in n.relays then n.relays + [p] else n.relays
    case Down(p) => Without(n.relays, p)
    case _ => n.relays
  }

  lemma RemoveOneRelay(st: State, p: Id)
    requires Valid(st) && OneRelay(st.net) && p in st.net.peers
    ensures LeftRelays(st.net, RemovePeer(st, p).net, p)
  {
    var n1, n' := Cleanup(st, p).net, RemovePeer(st, p).net;
    CleanupOneRelay(st, p);
    assert n'.relays == n1.relays && n'.peers == n1.peers - {p};
  }

  lemma InitLinkOneRelay(n: Net, p: Id)
    requires OneRelay(n) && p in n.peers
    ensures OneRelay(InitLink(n, p)) && InitLink(n, p).relays == n.relays
  {}

  lemma LinkUpOneRelay(st: State, p: Id)
    requires Valid(st) && OneRelay(st.net) && Unconnected(st.net, p)
    ensures OneRelay(LinkUp(st, p).net) && LinkUp(st, p).net.relays == st.net.relays
  {
    InitLinkOneRelay(st.net, p);
    assert LinkUp(st, p).net == InitLink(st.net, p);
  }

  lemma OneRelayStep(st: State, ev: Event)
    requires Valid(st) && OneRelay(st.net) && May(st, ev)
    ensures OneRelay(Handle(st, ev).net) && Handle(st, ev).net.relays == RelaysAfter(st.net, ev)
  {
    var n := st.net;
    match ev
    case PeerRemove(p) => RemoveOneRelay(st, p);
    case FreshLink(p, ok) =>
      CleanupOneRelay(st, p);
      if ok {
        LinkUpOneRelay(Cleanup(st, p), p);
      }
    case PeerReset(p) => CleanupOneRelay(st, p);
    case PeerNeedsRelay(p) => NeedRelayOneRelay(st, p);
    case Up(p) => ReportOneRelay(st, p, true);
    case Down(p) => ReportOneRelay(st, p, false);
    case _ =>
  }

  lemma NeedRelayOneRelay(st: State, p: Id)
    requires Valid(st) && OneRelay(st.net) && p in st.net.peers && !st.net.peers[p].isRelay
    ensures OneRelay(NeedRelay(st, p).net) && NeedRelay(st, p).net.relays == st.net.relays
  {
    assert PeerOk(st.net, p);
    if !st.net.peers[p].waiting {
      CleanupOneRelay(st, p);
      WithoutAbsent(st.net.relays, p);
      RegisterInv(Cleanup(st, p).net, p);
      AssignOneRelay(Register(Cleanup(st, p).net, p));
    }
  }

  lemma ReportOneRelay(st: State, p: Id, up: bool)
    requires Valid(st) && OneRelay(st.net) && p in st.net.peers && st.net.peers[p].haveLink
    ensures var n, ev := st.net, if up then Up(p) else Down(p);
            OneRelay(Handle(st, ev).net) && Handle(st, ev).net.relays == RelaysAfter(n, ev)
  {
    assert PeerOk(st.net, p);
    if up {
      if st.net.peers[p].canRelay && !st.net.peers[p].isRelay {
        EnableOneRelay(st.net, p);
      }
    } else if st.net.peers[p].isRelay {
      DisableOneRelay(st.net, p);
    } else {
      WithoutAbsent(st.net.relays, p);
    }
  }

  /** Since which event the last report on the link of p has been that it is up. */
  function UpSince(evs: seq<Event>, p: Id): nat {
    if evs == [] then 0
    else
      var before := evs[..|evs| - 1];
      if evs[|evs| - 1] == Up(p) && !ToldOf(before, p).up then |evs| else UpSince(before, p)
  }

  lemma {:induction false} UpSinceBound(evs: seq<Event>, p: Id)
    ensures UpSince(evs, p) <= |evs|
  {
    if evs == [] {
    } else {
      UpSinceBound(evs[..|evs| - 1], p);
    }
  }

  /** The relays are in the order in which they became relays. */
  ghost predicate ByAge(evs: seq<Event>, relays: seq<Id>) {
    relays == []
      || ((forall r :: r in relays[1..] ==> UpSince(evs, relays[0]) < UpSince(evs, r)) && ByAge(evs, relays[1..]))
  }

  lemma {:induction false} ByAgeWithout(evs: seq<Event>, relays: seq<Id>, p: Id)
    requires ByAge(evs, relays)
    ensures ByAge(evs, Without(relays, p))
  {
    if relays == [] {
    } else {
      ByAgeWithout(evs, relays[1..], p);
      var w := Without(relays[1..], p);
      assert ([relays[0]] + w)[1..] == w;
    }
  }

  lemma {:induction false} ByAgeStill(evs: seq<Event>, evs': seq<Event>, relays: seq<Id>)
    requires ByAge(evs, relays) && forall r :: r in relays ==> UpSince(evs', r) == UpSince(evs, r)
    ensures ByAge(evs', relays)
  {
    if relays == [] {
    } else {
      ByAgeStill(evs, evs', relays[1..]);
    }
  }

  lemma {:induction false} ByAgeAppend(evs: seq<Event>, relays: seq<Id>, p: Id)
    requires ByAge(evs, relays) && forall r :: r in relays ==> UpSince(evs, r) < UpSince(evs, p)
    ensures ByAge(evs, relays + [p])
  {
    if relays == [] {
      assert (relays + [p])[1..] == [];
    } else {
      assert (relays + [p])[1..] == relays[1..] + [p];
      ByAgeAppend(evs, relays[1..], p);
    }
  }

  lemma ByAgeStep(evs: seq<Event>, ev: Event, n: Net)
    requires Run(evs).Some? && Run(evs).value.net == n && May(Run(evs).value, ev) && ByAge(evs, n.relays)
    ensures ByAge(Snoc(evs, ev), RelaysAfter(n, ev))
  {
    var evs' := Snoc(evs, ev);
    assert evs'[..|evs|] == evs;
    forall r | r in n.relays
      ensures UpSince(evs', r) == UpSince(evs, r) <= |evs|
    {
      RelaysAreTold(evs, r);
      assert PeerOk(n, r);
      UpSinceBound(evs, r);
    }
    ByAgeStill(evs, evs', n.relays);
    match ev
    case PeerRemove(p) => ByAgeWithout(evs', n.relays, p);
    case FreshLink(p, _) => ByAgeWithout(evs', n.relays, p);
    case PeerReset(p) => ByAgeWithout(evs', n.relays, p);
    case Down(p) => ByAgeWithout(evs', n.relays, p);
    case Up(p) =>
      RelaysAreTold(evs, p);
      assert PeerOk(n, p);
      if n.peers[p].canRelay && p !in n.relays {
        ByAgeAppend(evs', n.relays, p);
      }
    case _ =>
  }

  lemma {:induction false} RunOneRelay(evs: seq<Event>)
    requires Run(evs).Some?
    ensures OneRelay(Run(evs).value.net) && ByAge(evs, Run(evs).value.net.relays)
  {
    if evs == [] {
    } else {
      var before, ev := evs[..|evs| - 1], evs[|evs| - 1];
      RunOneRelay(before);
      OneRelayStep(Run(before).value, ev);
      ByAgeStep(before, ev, Run(before).value.net);
      assert Snoc(before, ev) == evs;
    }
  }

  /** Peer r is a provider, and no other one has been up for longer. */
  ghost predicate Longest(evs: seq<Event>, r: Id) {
    && (var t := ToldOf(evs, r); t.link && t.canRelay && t.up)
    && forall q :: (var t := ToldOf(evs, q); t.link && t.canRelay && t.up) && q != r ==>
      UpSince(evs, r) < UpSince(evs, q)
  }

  /**
    In every run, told from the events alone: a peer is reached through r if and only if it was last said to need a
    relay and r is the provider that has been up for longest.
  */
  lemma RelayedThroughLongest(evs: seq<Event>, p: Id, r: Id)
    requires Run(evs).Some?
    ensures var n := Run(evs).value.net;
            p in n.peers && n.peers[p].relaying == Some(r) <==> ToldOf(evs, p).needs && Longest(evs, r)
  {
    var n := Run(evs).value.net;
    RunOneRelay(evs);
    RelaysAreTold(evs, p);
    FirstIsLongest(evs, r);
    if p in n.peers {
      assert PeerOk(n, p);
    }
  }

  lemma FirstIsLongest(evs: seq<Event>, r: Id)
    requires Run(evs).Some? && ByAge(evs, Run(evs).value.net.relays)
    ensures var relays := Run(evs).value.net.relays;
            Longest(evs, r) <==> relays != [] && relays[0] == r
  {
    var n := Run(evs).value.net;
    forall q
      ensures (var t := ToldOf(evs, q); t.link && t.canRelay && t.up) <==> q in n.relays
    {
      RelaysAreTold(evs, q);
      assert PeerOk(n, q);
    }
    if n.relays != [] {
      assert forall q :: q in n.relays ==> q == n.relays[0] || q in n.relays[1..];
    }
  }
}
