/**
  Which peers have a link of their own, which relay for others, and which wait for a relay: the peer
  fields and the lists of client/client.c, on values.
*/
module RelayAssignment {
  import opened Common
  import opened Lists
  import C = FlowCalls

  type Id = nat

  /** `desired` is the peer whose DataProto sink the local flow to this peer wants. */
  datatype Peer = Peer(canRelay: bool, haveLink: bool, relaying: Option<Id>, waiting: bool, isRelay: bool,
                       users: seq<Id>, desired: Option<Id>)

  datatype Net = Net(peers: map<Id, Peer>, relays: seq<Id>, waiting: seq<Id>)

  const EMPTY := Net(map[], [], [])

  // ----- the invariant

  /** What holds of every peer whenever one of the functions below is called or returns. */
  ghost predicate PeerOk(n: Net, p: Id) {
    p in n.peers ==>
      var x := n.peers[p];
      && !(x.haveLink && x.relaying.Some?) && !(x.haveLink && x.waiting) && !(x.relaying.Some? && x.waiting)
      && (x.isRelay ==> x.haveLink)
      && (x.isRelay <==> p in n.relays)
      && (x.waiting <==> p in n.waiting)
      && (x.relaying.Some? ==> var r := x.relaying.value; r in n.peers && n.peers[r].isRelay && p in n.peers[r].users)
      && NoDup(x.users)
      && (forall u :: u in x.users ==> x.isRelay && u in n.peers && n.peers[u].relaying == Some(p))
      && x.desired == if x.haveLink then Some(p) else x.relaying
  }

  ghost predicate Inv(n: Net) {
    && (forall p :: PeerOk(n, p))
    && NoDup(n.relays) && NoDup(n.waiting)
    && (forall p :: p in n.relays || p in n.waiting ==> p in n.peers)
  }

  /** No peer waits while there is a relay. */
  predicate Settled(n: Net) {
    n.relays == [] || n.waiting == []
  }

  /** Peer p has none of a link, a relay and a place in the waiting list. */
  predicate Unconnected(n: Net, p: Id) {
    p in n.peers && !n.peers[p].haveLink && n.peers[p].relaying.None? && !n.peers[p].waiting
  }

  /** The peers are the same, and so are the links they have. */
  predicate SameLinks(n: Net, n': Net) {
    n'.peers.Keys == n.peers.Keys && forall p :: p in n.peers ==>
      n'.peers[p].haveLink == n.peers[p].haveLink && n'.peers[p].canRelay == n.peers[p].canRelay
  }

  /** The peer is reached through a relay, or waits for one. */
  predicate Needs(n: Net, p: Id) {
    p in n.peers && (n.peers[p].relaying.Some? || n.peers[p].waiting)
  }

  /** No peer that needs a relay is forgotten, and none starts to need one. */
  predicate SameNeeds(n: Net, n': Net) {
    n'.peers.Keys == n.peers.Keys && forall p :: p in n.peers ==> Needs(n', p) == Needs(n, p)
  }

  // ----- the waiting list

  function Register(n: Net, p: Id): (r: Net)
    requires p in n.peers
  {
    Net(n.peers[p := n.peers[p].(waiting := true)], n.relays, n.waiting + [p])
  }

  function Unregister(n: Net, p: Id): Net
    requires p in n.peers
  {
    Net(n.peers[p := n.peers[p].(waiting := false)], n.relays, Without(n.waiting, p))
  }

  lemma RegisterInv(n: Net, p: Id)
    requires Inv(n) && Unconnected(n, p)
    ensures Inv(Register(n, p)) && SameLinks(n, Register(n, p))
  {
    var n' := Register(n, p);
    assert PeerOk(n, p);
    AppendNoDup(n.waiting, p);
    forall q ensures PeerOk(n', q) { assert PeerOk(n, q); }
  }

  lemma UnregisterInv(n: Net, p: Id)
    requires Inv(n) && p in n.peers && n.peers[p].waiting
    ensures Inv(Unregister(n, p)) && Unconnected(Unregister(n, p), p) && SameLinks(n, Unregister(n, p))
  {
    var n' := Unregister(n, p);
    assert PeerOk(n, p);
    WithoutNoDup(n.waiting, p);
    forall q ensures PeerOk(n', q) { assert PeerOk(n, q); }
  }

  // ----- relaying through another peer

  function Install(n: Net, p: Id, r: Id): Net
    requires p in n.peers && r in n.peers && p != r
  {
    n.(peers := n.peers[r := n.peers[r].(users := n.peers[r].users + [p])]
                       [p := n.peers[p].(relaying := Some(r), desired := Some(r))])
  }

  function FreeRelaying(n: Net, p: Id): Net
    requires p in n.peers && n.peers[p].relaying.Some? && n.peers[p].relaying.value in n.peers
    requires n.peers[p].relaying.value != p
  {
    var r := n.peers[p].relaying.value;
    n.(peers := n.peers[r := n.peers[r].(users := Without(n.peers[r].users, p))]
                       [p := n.peers[p].(relaying := None, desired := None)])
  }

  lemma InstallInv(n: Net, p: Id, r: Id)
    requires Inv(n) && Unconnected(n, p) && r in n.peers && n.peers[r].isRelay
    ensures p != r && n.peers[p].desired.None?
    ensures Inv(Install(n, p, r)) && SameLinks(n, Install(n, p, r))
  {
    assert PeerOk(n, p) && PeerOk(n, r);
    var n' := Install(n, p, r);
    AppendNoDup(n.peers[r].users, p);
    forall q ensures PeerOk(n', q) { assert PeerOk(n, q); }
  }

  /** A peer that relays through another is not itself the other one. */
  lemma RelayingOk(n: Net, p: Id)
    requires Inv(n) && p in n.peers && n.peers[p].relaying.Some?
    ensures var r := n.peers[p].relaying.value;
            r in n.peers && r != p && n.peers[r].isRelay && n.peers[r].haveLink && p in n.peers[r].users
  {
    assert PeerOk(n, p) && PeerOk(n, n.peers[p].relaying.value);
  }

  lemma FreeRelayingInv(n: Net, p: Id)
    requires Inv(n) && p in n.peers && n.peers[p].relaying.Some?
    requires n.peers[p].relaying.value in n.peers && n.peers[p].relaying.value != p
    ensures Inv(FreeRelaying(n, p)) && Unconnected(FreeRelaying(n, p), p) && SameLinks(n, FreeRelaying(n, p))
  {
    FreeRelayingLinks(n, p);
    FreeRelayingPeers(n, p);
  }

  lemma FreeRelayingPeers(n: Net, p: Id)
    requires Inv(n) && p in n.peers && n.peers[p].relaying.Some?
    requires n.peers[p].relaying.value in n.peers && n.peers[p].relaying.value != p
    ensures Inv(FreeRelaying(n, p))
  {
    var r := n.peers[p].relaying.value;
    assert PeerOk(n, p) && PeerOk(n, r);
    var n' := FreeRelaying(n, p);
    WithoutNoDup(n.peers[r].users, p);
    forall q ensures PeerOk(n', q) { assert PeerOk(n, q); }
  }

  lemma FreeRelayingLinks(n: Net, p: Id)
    requires Inv(n) && p in n.peers && n.peers[p].relaying.Some?
    requires n.peers[p].relaying.value in n.peers && n.peers[p].relaying.value != p
    ensures Unconnected(FreeRelaying(n, p), p) && SameLinks(n, FreeRelaying(n, p))
  {
    assert PeerOk(n, p);
  }

  /** Links, relays and the connections of peers that do not wait are as before. */
  predicate Undisturbed(n: Net, n': Net) {
    && SameLinks(n, n') && n'.relays == n.relays
    && forall p :: p in n.peers ==>
         && n'.peers[p].isRelay == n.peers[p].isRelay
         && (!n.peers[p].waiting ==> !n'.peers[p].waiting && n'.peers[p].relaying == n.peers[p].relaying)
  }

  /** The first waiting peer gets the first relay. */
  function AssignFirst(n: Net): (n': Net)
    requires Inv(n) && n.waiting != [] && n.relays != []
    ensures Inv(n') && Undisturbed(n, n') && SameNeeds(n, n') && |n'.waiting| < |n.waiting|
  {
    var p, r := n.waiting[0], n.relays[0];
    assert PeerOk(n, p) && PeerOk(n, r);
    UnregisterInv(n, p);
    InstallInv(Unregister(n, p), p, r);
    WithoutShorter(n.waiting, p);
    Install(Unregister(n, p), p, r)
  }

  /** assign_relays */
  function Assign(n: Net): (n': Net)
    requires Inv(n)
    ensures Inv(n') && Settled(n') && Undisturbed(n, n') && SameNeeds(n, n')
    decreases |n.waiting|
  {
    if n.waiting == [] || n.relays == [] then n else Assign(AssignFirst(n))
  }

  // ----- relay providers

  function Enable(n: Net, p: Id): Net
    requires p in n.peers
  {
    Net(n.peers[p := n.peers[p].(users := [], isRelay := true)], n.relays + [p], n.waiting)
  }

  /** The first user of relay p loses it and needs another one. */
  function FreeFirstUser(n: Net, p: Id): (n': Net)
    requires Inv(n) && p in n.peers && n.peers[p].users != []
    ensures Inv(n') && SameLinks(n, n') && SameNeeds(n, n') && n'.relays == n.relays
    ensures n'.peers[p].isRelay == n.peers[p].isRelay && |n'.peers[p].users| < |n.peers[p].users|
  {
    var u := n.peers[p].users[0];
    assert PeerOk(n, p) && PeerOk(n, u);
    FreeRelayingInv(n, u);
    RegisterInv(FreeRelaying(n, u), u);
    WithoutShorter(n.peers[p].users, u);
    Register(FreeRelaying(n, u), u)
  }

  function FreeUsers(n: Net, p: Id): (n': Net)
    requires Inv(n) && p in n.peers
    ensures Inv(n') && SameLinks(n, n') && SameNeeds(n, n') && n'.relays == n.relays
    ensures n'.peers[p].isRelay == n.peers[p].isRelay && n'.peers[p].users == []
    decreases |n.peers[p].users|
  {
    if n.peers[p].users == [] then n else FreeUsers(FreeFirstUser(n, p), p)
  }

  function Unlist(n: Net, p: Id): Net
    requires p in n.peers
  {
    Net(n.peers[p := n.peers[p].(isRelay := false)], Without(n.relays, p), n.waiting)
  }

  lemma EnableInv(n: Net, p: Id)
    requires Inv(n) && p in n.peers && n.peers[p].haveLink && !n.peers[p].isRelay
    ensures Inv(Enable(n, p)) && SameLinks(n, Enable(n, p))
  {
    var n' := Enable(n, p);
    assert PeerOk(n, p);
    AppendNoDup(n.relays, p);
    forall q ensures PeerOk(n', q) { assert PeerOk(n, q); }
  }

  lemma UnlistInv(n: Net, p: Id)
    requires Inv(n) && p in n.peers && n.peers[p].users == []
    ensures Inv(Unlist(n, p)) && SameLinks(n, Unlist(n, p))
  {
    var n' := Unlist(n, p);
    assert PeerOk(n, p);
    WithoutNoDup(n.relays, p);
    forall q ensures PeerOk(n', q) { assert PeerOk(n, q); }
  }

  /** peer_enable_relay_provider */
  function EnableProvider(n: Net, p: Id): (r: Net)
    requires Inv(n) && p in n.peers && n.peers[p].haveLink && !n.peers[p].isRelay
    ensures Inv(r) && Settled(r) && SameLinks(n, r) && SameNeeds(n, r) && r.peers[p].isRelay
  {
    EnableInv(n, p);
    Assign(Enable(n, p))
  }

  /** peer_disable_relay_provider */
  function DisableProvider(n: Net, p: Id): (r: Net)
    requires Inv(n) && p in n.peers
    ensures Inv(r) && Settled(r) && SameLinks(n, r) && SameNeeds(n, r) && !r.peers[p].isRelay
  {
    UnlistInv(FreeUsers(n, p), p);
    Assign(Unlist(FreeUsers(n, p), p))
  }

  // ----- links

  function InitLink(n: Net, p: Id): Net
    requires p in n.peers
  {
    n.(peers := n.peers[p := n.peers[p].(haveLink := true, desired := Some(p))])
  }

  function FreeLink(n: Net, p: Id): Net
    requires p in n.peers
  {
    n.(peers := n.peers[p := n.peers[p].(haveLink := false, desired := None)])
  }

  lemma InitLinkInv(n: Net, p: Id)
    requires Inv(n) && Unconnected(n, p)
    ensures Inv(InitLink(n, p)) && n.peers[p].desired.None? && !n.peers[p].isRelay
  {
    var n' := InitLink(n, p);
    assert PeerOk(n, p);
    forall q ensures PeerOk(n', q) { assert PeerOk(n, q); }
  }

  lemma FreeLinkInv(n: Net, p: Id)
    requires Inv(n) && p in n.peers && n.peers[p].haveLink && !n.peers[p].isRelay
    ensures Inv(FreeLink(n, p)) && Unconnected(FreeLink(n, p), p)
  {
    var n' := FreeLink(n, p);
    assert PeerOk(n, p);
    forall q ensures PeerOk(n', q) { assert PeerOk(n, q); }
  }

  /** A sink that is wanted exists: its peer has a link. */
  lemma WantedHasLink(n: Net, p: Id)
    requires Inv(n) && p in n.peers && n.peers[p].desired.Some?
    ensures var s := n.peers[p].desired.value; s in n.peers && n.peers[s].haveLink
  {
    assert PeerOk(n, p);
    if n.peers[p].relaying.Some? {
      RelayingOk(n, p);
    }
  }

  /** When the link of p is freed, no local flow wants its sink any more. */
  lemma NobodyWantsFreedLink(n: Net, p: Id, q: Id)
    requires Inv(n) && p in n.peers && n.peers[p].haveLink && !n.peers[p].isRelay && q in n.peers
    ensures FreeLink(n, p).peers[q].desired != Some(p)
  {
    assert PeerOk(n, q) && PeerOk(n, p);
  }

  // ----- the calls to DataProto, in the order in which the code makes them

  /** assign_relays */
  function AssignCalls(n: Net): seq<C.Call>
    requires Inv(n)
    decreases |n.waiting|
  {
    if n.waiting == [] || n.relays == [] then []
    else [C.Attach(C.Local(n.waiting[0]), n.relays[0])] + AssignCalls(AssignFirst(n))
  }

  function FreeUsersCalls(n: Net, p: Id): seq<C.Call>
    requires Inv(n) && p in n.peers
    decreases |n.peers[p].users|
  {
    if n.peers[p].users == [] then []
    else [C.Detach(C.Local(n.peers[p].users[0]))] + FreeUsersCalls(FreeFirstUser(n, p), p)
  }

  /** peer_enable_relay_provider */
  function EnableCalls(n: Net, p: Id): seq<C.Call>
    requires Inv(n) && p in n.peers && n.peers[p].haveLink && !n.peers[p].isRelay
  {
    EnableInv(n, p);
    AssignCalls(Enable(n, p))
  }

  /** peer_disable_relay_provider */
  function DisableCalls(n: Net, p: Id): seq<C.Call>
    requires Inv(n) && p in n.peers
  {
    UnlistInv(FreeUsers(n, p), p);
    FreeUsersCalls(n, p) + AssignCalls(Unlist(FreeUsers(n, p), p))
  }
}
