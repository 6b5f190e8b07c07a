/** The frame decider as the C code runs it, with its trees, lists and timers changed in place. */
module FrameDeciderObject {
  import opened Common
  import opened Lists
  import opened LinkedList3
  import opened D = FrameDecider
  import opened X = Decisions
  import M = MacTable
  import G = GroupIndex

  /** The peer that was just handed out, if any, and those after it. */
  function ToCome(p: Option<PeerId>, rest: seq<PeerId>): seq<PeerId> {
    if p.Some? then [p.value] + rest else []
  }

  lemma OneMore(all: seq<PeerId>, sent: seq<PeerId>, p: PeerId, rest: seq<PeerId>)
    requires sent <= all && all[|sent|..] == [p] + rest
    ensures sent + [p] <= all && all[|sent + [p]|..] == rest
  {
    assert all[|sent|..][0] == p && all[|sent|..][1..] == rest;
  }

  // ----- the links of the entries

  ghost predicate ListLinked(nodes: map<Entry, Node<Entry>>, lists: map<nat, seq<Entry>>, sig: nat) {
    sig in lists ==> Chain(nodes, None, lists[sig])
  }

  /** The entries of each signature are linked in the order of its list. */
  ghost predicate AllLinked(nodes: map<Entry, Node<Entry>>, lists: map<nat, seq<Entry>>) {
    forall sig :: ListLinked(nodes, lists, sig)
  }

  /** Changing the links of entries with one signature does not change the lists of the others. */
  lemma Relinked(ix: G.Index, used: set<Entry>, nodes: map<Entry, Node<Entry>>, nodes': map<Entry, Node<Entry>>,
                 sig: nat, changed: seq<Entry>, list: seq<Entry>)
    requires G.Valid(ix, used) && AllLinked(nodes, ix.lists) && SameBut(nodes, nodes', changed)
    requires Chain(nodes', None, list)
    requires forall e :: e in changed ==> G.Sig(e.group) == sig
    ensures AllLinked(nodes', ix.lists[sig := list]) && AllLinked(nodes', ix.lists - {sig})
  {
    forall x: nat | x != sig
      ensures ListLinked(nodes', ix.lists, x)
    {
      assert ListLinked(nodes, ix.lists, x) && G.SigOk(ix, x);
      if x in ix.lists {
        ChainFrame(nodes, nodes', None, ix.lists[x]);
      }
    }
    var updated, removed := ix.lists[sig := list], ix.lists - {sig};
    forall x: nat
      ensures ListLinked(nodes', updated, x) && ListLinked(nodes', removed, x)
    {
      assert x == sig || ListLinked(nodes', ix.lists, x);
    }
  }

  ghost predicate FreeAt<T>(max: nat, free: map<PeerId, nat>, used: map<PeerId, seq<T>>, p: PeerId) {
    p in used ==> p in free && free[p] + |used[p]| == max
  }

  /** Free entries and used ones add up to all the entries of each peer. */
  ghost predicate FreeOk<T>(max: nat, free: map<PeerId, nat>, used: map<PeerId, seq<T>>) {
    forall p :: FreeAt(max, free, used, p)
  }

  lemma FreeUpdate<T>(max: nat, free: map<PeerId, nat>, used: map<PeerId, seq<T>>, p: PeerId, n: nat, l: seq<T>)
    requires FreeOk(max, free, used) && n + |l| == max
    ensures FreeOk(max, free[p := n], used[p := l])
    ensures p in free && n == free[p] ==> FreeOk(max, free, used[p := l])
  {
    var free', used' := free[p := n], used[p := l];
    forall q ensures FreeAt(max, free', used', q) { assert FreeAt(max, free, used, q); }
    assert p in free && n == free[p] ==> free' == free;
  }

  lemma FreeRemoved<T>(max: nat, free: map<PeerId, nat>, used: map<PeerId, seq<T>>, p: PeerId)
    requires FreeOk(max, free, used)
    ensures FreeOk(max, free, used - {p})
  {
    forall q ensures FreeAt(max, free, used - {p}, q) { assert FreeAt(max, free, used, q); }
  }

  /** Of the entries es, the first i were looked at. */
  ghost predicate LoweredFirst(cfg: Config, was: map<Entry, int>, now: map<Entry, int>, es: seq<Entry>, i: nat,
                               g: Group, time: int) {
    && i <= |es| && now.Keys == was.Keys
    && forall e :: e in was ==> now[e] == if e in es[..i] then Lowered(cfg, was, g, time)[e] else was[e]
  }

  lemma LoweredNext(cfg: Config, was: map<Entry, int>, now: map<Entry, int>, es: seq<Entry>, i: nat, g: Group,
                    time: int)
    requires LoweredFirst(cfg, was, now, es, i, g, time) && i < |es| && es[i] in was && es[i] !in es[..i]
    ensures es[i] in now && now[es[i]] == was[es[i]]
    ensures LoweredFirst(cfg, was, now[es[i] := Lowered(cfg, was, g, time)[es[i]]], es, i + 1, g, time)
  {
    assert es[..i + 1] == es[..i] + [es[i]];
  }

  /** All the entries of group g are in the list of its signature. */
  lemma LoweredAll(cfg: Config, gs: Groups, now: map<Entry, int>, g: Group, time: int)
    requires GroupsOk(cfg, gs)
    requires var es := if G.Sig(g) in gs.ix.lists then gs.ix.lists[G.Sig(g)] else [];
             LoweredFirst(cfg, gs.endTimes, now, es, |es|, g, time)
    ensures now == Lowered(cfg, gs.endTimes, g, time)
  {
    var es := if G.Sig(g) in gs.ix.lists then gs.ix.lists[G.Sig(g)] else [];
    assert es[..|es|] == es;
    forall e | e in gs.endTimes
      ensures e.group == g ==> e in es
    {
      assert G.EntryOk(gs.ix, Used(gs.joined), e);
    }
  }

  lemma {:induction false} NotBefore<T>(s: seq<T>, i: nat)
    requires NoDup(s) && i < |s|
    ensures s[i] !in s[..i]
  {
    if i > 0 {
      NotBefore(s[1..], i - 1);
      assert s[..i] == [s[0]] + s[1..][..i - 1];
      assert s[i] in s[1..];
    }
  }

  lemma {:induction false} WithoutCount<T>(s: seq<T>, x: T)
    requires NoDup(s) && x in s
    ensures |Without(s, x)| == |s| - 1
  {
    if s[0] == x {
      WithoutAbsent(s[1..], x);
    } else {
      WithoutCount(s[1..], x);
    }
  }

  /** The tree knows who owns an address. */
  lemma OwnerInTree(t: M.Table, tree: map<Bytes, PeerId>, mac: Bytes)
    requires M.TreeOk(tree, t.used)
    ensures mac in tree ==> Owns(t, tree[mac], mac)
    ensures forall p :: Owns(t, p, mac) ==> mac in tree && tree[mac] == p
  {
    assert M.Found(tree, t.used, mac);
    forall p | Owns(t, p, mac)
      ensures mac in tree && tree[mac] == p
    {
      assert M.Listed(tree, t.used, p);
    }
  }

  class FrameDecider {
    const cfg: Config
    var peersList: seq<PeerId>
    var macsTree: map<Bytes, PeerId>
    var macsUsed: map<PeerId, seq<Bytes>>
    var macsFree: map<PeerId, nat>
    var groupsUsed: map<PeerId, seq<Group>>
    var groupsFree: map<PeerId, nat>
    var endTimes: map<Entry, int>
    var multicastTree: map<nat, Entry>
    const links: Links<Entry>
    ghost var sigLists: map<nat, seq<Entry>>
    var masters: set<Entry>
    var decision: Decision

    ghost function Macs(): M.Table
      reads `macsUsed
    {
      M.Table(cfg.maxMacs, macsUsed)
    }

    ghost function Ix(): G.Index
      reads `multicastTree, `sigLists, `masters
    {
      G.Index(multicastTree, sigLists, masters)
    }

    ghost function Gs(): Groups
      reads `groupsUsed, `endTimes, `multicastTree, `sigLists, `masters
    {
      Groups(groupsUsed, endTimes, Ix())
    }

    ghost function Now(): State
      reads `peersList, `macsUsed, `groupsUsed, `endTimes, `multicastTree, `sigLists, `masters
    {
      State(peersList, Macs(), Gs())
    }

    ghost predicate MacsValid()
      reads `macsTree, `macsUsed, `macsFree
    {
      cfg.maxMacs > 0 && M.Valid(Macs()) && M.TreeOk(macsTree, macsUsed) && FreeOk(cfg.maxMacs, macsFree, macsUsed)
    }

    ghost predicate GroupsValid()
      reads `groupsUsed, `groupsFree, `endTimes, `multicastTree, `sigLists, `masters, links
    {
      cfg.Valid() && IndexOk() && FreeOk(cfg.maxGroups, groupsFree, groupsUsed)
    }

    ghost predicate IndexOk()
      reads `groupsUsed, `endTimes, `multicastTree, `sigLists, `masters, links
    {
      GroupsOk(cfg, Gs()) && AllLinked(links.nodes, sigLists)
    }

    ghost predicate Valid()
      reads this, links
    {
      PeersOk(peersList, macsUsed.Keys, groupsUsed.Keys) && MacsValid() && GroupsValid()
    }

    /** With the decision that is under way. */
    ghost function All(): Full
      reads this
    {
      Full(Now(), decision)
    }

    /** What the decision stands at is still there. */
    ghost predicate DecisionLive()
      reads this
    {
      Live(peersList, sigLists, decision)
    }

    /** The destinations still to come. */
    ghost function ToSend(): seq<PeerId>
      reads this
    {
      Remaining(peersList, sigLists, decision)
    }

    constructor (cfg: Config)
      requires cfg.Valid()
      ensures Valid() && this.cfg == cfg && Now() == Empty(cfg) && decision == NoDecision && fresh(links)
    {
      this.cfg := cfg;
      peersList, macsTree, macsUsed, macsFree := [], map[], map[], map[];
      groupsUsed, groupsFree, endTimes := map[], map[], map[];
      multicastTree, sigLists, masters := map[], map[], {};
      links := new Links<Entry>();
      decision := NoDecision;
    }

    // ----- addresses

    method AddMacToPeer(p: PeerId, mac: Bytes)
      requires MacsValid() && p in macsUsed
      modifies `macsTree, `macsUsed, `macsFree
      ensures MacsValid() && Macs() == M.Sight(old(Macs()), p, mac)
    {
      if mac in macsTree {
        assert M.Found(macsTree, macsUsed, mac);
        if macsTree[mac] == p {
          RenewMac(p, mac);
          return;
        }
        M.Disassociate(Macs(), macsTree, p, mac);
        DisassociateMac(mac);
      }
      AcquireMac(p, mac);
    }

    /** The address of p becomes its newest. */
    method RenewMac(p: PeerId, mac: Bytes)
      requires MacsValid() && p in macsUsed && mac in macsTree && macsTree[mac] == p
      modifies `macsUsed
      ensures MacsValid() && Macs() == M.Sight(old(Macs()), p, mac)
    {
      M.SightValid(Macs(), p, mac);
      M.SightAgain(Macs(), macsTree, p, mac);
      assert M.Found(macsTree, macsUsed, mac) && M.ListOk(Macs(), p) && FreeAt(cfg.maxMacs, macsFree, macsUsed, p);
      WithoutCount(macsUsed[p], mac);
      FreeUpdate(cfg.maxMacs, macsFree, macsUsed, p, macsFree[p], Without(macsUsed[p], mac) + [mac]);
      macsUsed := macsUsed[p := Without(macsUsed[p], mac) + [mac]];
    }

    /** The peer that has the address loses it. */
    method DisassociateMac(mac: Bytes)
      requires MacsValid() && mac in macsTree && macsTree[mac] in macsUsed
      modifies `macsTree, `macsUsed, `macsFree
      ensures FreeOk(cfg.maxMacs, macsFree, macsUsed) && macsTree == old(macsTree) - {mac}
      ensures var q := old(macsTree)[mac]; macsUsed == old(macsUsed)[q := Without(old(macsUsed)[q], mac)]
    {
      var q := macsTree[mac];
      assert M.Found(macsTree, macsUsed, mac) && M.ListOk(Macs(), q) && FreeAt(cfg.maxMacs, macsFree, macsUsed, q);
      WithoutCount(macsUsed[q], mac);
      FreeUpdate(cfg.maxMacs, macsFree, macsUsed, q, macsFree[q] + 1, Without(macsUsed[q], mac));
      macsTree := macsTree - {mac};
      macsUsed := macsUsed[q := Without(macsUsed[q], mac)];
      macsFree := macsFree[q := macsFree[q] + 1];
    }

    /** Nobody has the address: p gets it in a free entry, or in place of its oldest address. */
    method AcquireMac(p: PeerId, mac: Bytes)
      requires MacsValid() && p in macsUsed && mac !in macsTree
      modifies `macsTree, `macsUsed, `macsFree
      ensures MacsValid() && Macs() == M.Sight(old(Macs()), p, mac)
    {
      M.SightValid(Macs(), p, mac);
      assert FreeAt(cfg.maxMacs, macsFree, macsUsed, p);
      if macsFree[p] > 0 {
        M.SightFree(Macs(), macsTree, p, mac);
        FreeUpdate(cfg.maxMacs, macsFree, macsUsed, p, macsFree[p] - 1, macsUsed[p] + [mac]);
        macsFree := macsFree[p := macsFree[p] - 1];
        macsUsed := macsUsed[p := macsUsed[p] + [mac]];
      } else {
        M.SightFull(Macs(), macsTree, p, mac);
        FreeUpdate(cfg.maxMacs, macsFree, macsUsed, p, macsFree[p], macsUsed[p][1..] + [mac]);
        macsTree := macsTree - {macsUsed[p][0]};
        macsUsed := macsUsed[p := macsUsed[p][1..] + [mac]];
      }
      macsTree := macsTree[mac := p];
    }

    method InitMacs(p: PeerId)
      requires MacsValid() && p !in macsUsed
      modifies `macsUsed, `macsFree
      ensures MacsValid() && Macs() == M.Learn(old(Macs()), p) && macsUsed.Keys == old(macsUsed).Keys + {p}
    {
      M.LearnValid(Macs(), p);
      M.LearnTree(macsTree, macsUsed, p);
      FreeUpdate(cfg.maxMacs, macsFree, macsUsed, p, cfg.maxMacs, []);
      macsUsed := macsUsed[p := []];
      macsFree := macsFree[p := cfg.maxMacs];
    }

    method RemoveMacs(p: PeerId)
      requires p in macsUsed
      modifies `macsTree
      ensures macsTree == M.Pruned(old(macsTree), macsUsed[p])
    {
      var macs, i := macsUsed[p], 0;
      assert M.Pruned(macsTree, macs[..0]) == macsTree;
      while i < |macs|
        invariant 0 <= i <= |macs| && macsTree == M.Pruned(old(macsTree), macs[..i])
      {
        M.PrunedNext(old(macsTree), macs, i);
        macsTree := macsTree - {macs[i]};
        i := i + 1;
      }
      assert macs[..i] == macs;
    }

    method FreeMacs(p: PeerId)
      requires MacsValid() && p in macsUsed
      modifies `macsTree, `macsUsed
      ensures MacsValid() && Macs() == M.Forget(old(Macs()), p) && macsUsed.Keys == old(macsUsed).Keys - {p}
    {
      M.ForgetValid(Macs(), p);
      M.ForgetTree(macsTree, macsUsed, p);
      FreeRemoved(cfg.maxMacs, macsFree, macsUsed, p);
      RemoveMacs(p);
      macsUsed := macsUsed - {p};
    }

    // ----- the multicast index

    method AddToMulticast(e: Entry, ghost used: set<Entry>)
      requires AllLinked(links.nodes, sigLists) && G.Valid(Ix(), used) && e !in used
      modifies links, `multicastTree, `sigLists, `masters
      ensures AllLinked(links.nodes, sigLists) && G.Valid(Ix(), used + {e}) && Ix() == G.Add(old(Ix()), e)
    {
      var sig := G.Sig(e.group);
      ghost var ix, was := Ix(), links.nodes;
      G.AddValid(ix, used, e);
      assert G.SigOk(ix, sig) && G.EntryOk(ix, used, e) && ListLinked(was, sigLists, sig);
      if sig in multicastTree {
        ghost var list := sigLists[sig];
        links.InitAfter(e, multicastTree[sig], list);
        Relinked(ix, used, was, links.nodes, sig, list + [e], InsertAfter(list, multicastTree[sig], e));
        sigLists := sigLists[sig := InsertAfter(list, multicastTree[sig], e)];
      } else {
        masters := masters + {e};
        multicastTree := multicastTree[sig := e];
        links.InitLonely(e);
        Relinked(ix, used, was, links.nodes, sig, [e], [e]);
        sigLists := sigLists[sig := [e]];
      }
    }

    method RemoveFromMulticast(e: Entry, ghost used: set<Entry>)
      requires AllLinked(links.nodes, sigLists) && G.Valid(Ix(), used) && e in used
      modifies links, `multicastTree, `sigLists, `masters, `decision
      ensures AllLinked(links.nodes, sigLists) && G.Valid(Ix(), used - {e}) && Ix() == G.Remove(old(Ix()), e)
      ensures decision == Jumped(old(sigLists), old(decision), e)
    {
      var sig := G.Sig(e.group);
      assert G.SigOk(Ix(), sig) && G.EntryOk(Ix(), used, e) && ListLinked(links.nodes, sigLists, sig);
      G.RemoveValid(Ix(), used, e);
      if e in masters {
        PassMaster(e, sigLists[sig]);
      } else {
        assert masters - {e} == masters;
      }
      FreeNode(e, old(Ix()), used);
    }

    /** Another entry of the list becomes the master, if there is one. */
    method PassMaster(e: Entry, ghost list: seq<Entry>)
      requires Chain(links.nodes, None, list) && NoDup(list) && e in list
      modifies `multicastTree, `masters
      ensures var sig := G.Sig(e.group);
              if |list| == 1 then multicastTree == old(multicastTree) - {sig} && masters == old(masters) - {e}
              else multicastTree == old(multicastTree)[sig := NextOrPrev(list, e)]
                   && masters == old(masters) - {e} + {NextOrPrev(list, e)}
    {
      multicastTree := multicastTree - {G.Sig(e.group)};
      masters := masters - {e};
      var lonely := links.IsLonely(e, list);
      if !lonely {
        var next := links.NextOrPrev(e, list);
        masters := masters + {next};
        multicastTree := multicastTree[G.Sig(e.group) := next];
      }
    }

    /** LinkedList3Node_Free: an iterator at the entry jumps, and then the entry is taken out of its list. */
    method FreeNode(e: Entry, ghost ix: G.Index, ghost used: set<Entry>)
      requires G.Valid(ix, used) && e in used && sigLists == ix.lists && AllLinked(links.nodes, sigLists)
      modifies links, `sigLists, `decision
      ensures AllLinked(links.nodes, sigLists) && sigLists == G.Remove(ix, e).lists
      ensures decision == Jumped(old(sigLists), old(decision), e)
    {
      ghost var sig, was := G.Sig(e.group), links.nodes;
      assert G.SigOk(ix, sig) && G.EntryOk(ix, used, e) && ListLinked(was, sigLists, sig);
      ghost var list := sigLists[sig];
      ChainNext(was, None, list, e);
      if decision == Multicast(Iterator(Some(e), true)) {
        decision := Multicast(Iterator(links.nodes[e].n, true));
      }
      links.Free(e, list);
      Relinked(ix, used, was, links.nodes, sig, list, Without(list, e));
      sigLists := if Without(list, e) == [] then sigLists - {sig} else sigLists[sig := Without(list, e)];
    }

    // ----- groups

    method RenewGroup(p: PeerId, g: Group, end: int)
      requires IndexOk() && p in groupsUsed && g in groupsUsed[p] && FreeOk(cfg.maxGroups, groupsFree, groupsUsed)
      modifies `groupsUsed, `endTimes
      ensures IndexOk() && FreeOk(cfg.maxGroups, groupsFree, groupsUsed) && Gs() == Renew(old(Gs()), p, g, end)
    {
      RenewOk(cfg, Gs(), p, g, end);
      assert FreeAt(cfg.maxGroups, groupsFree, groupsUsed, p) && D.ListOk(cfg.maxGroups, groupsUsed, p);
      WithoutCount(groupsUsed[p], g);
      FreeUpdate(cfg.maxGroups, groupsFree, groupsUsed, p, groupsFree[p], Without(groupsUsed[p], g) + [g]);
      groupsUsed := groupsUsed[p := Without(groupsUsed[p], g) + [g]];
      endTimes := endTimes[G.Entry(p, g) := end];
    }

    /** Entry e, which is in use, is taken from the index and from the used list, and its timer is stopped. */
    method DropEntry(e: Entry)
      requires IndexOk() && e in Used(groupsUsed)
      modifies links, `groupsUsed, `endTimes, `multicastTree, `sigLists, `masters, `decision
      ensures IndexOk() && Gs() == Leave(old(Gs()), e) && decision == Jumped(old(sigLists), old(decision), e)
    {
      LeaveOk(cfg, Gs(), e);
      RemoveFromMulticast(e, Used(groupsUsed));
      groupsUsed := groupsUsed[e.peer := Without(groupsUsed[e.peer], e.group)];
      endTimes := endTimes - {e};
    }

    method EnterGroup(p: PeerId, g: Group, end: int)
      requires IndexOk() && p in groupsUsed && g !in groupsUsed[p] && |groupsUsed[p]| < cfg.maxGroups
      modifies links, `groupsUsed, `endTimes, `multicastTree, `sigLists, `masters
      ensures IndexOk() && Gs() == Enter(old(Gs()), p, g, end)
    {
      EnterOk(cfg, Gs(), p, g, end);
      AddToMulticast(G.Entry(p, g), Used(groupsUsed));
      groupsUsed := groupsUsed[p := groupsUsed[p] + [g]];
      endTimes := endTimes[G.Entry(p, g) := end];
    }

    /** The earliest used entry of p is taken for another group. */
    method ReuseOldest(p: PeerId)
      requires IndexOk() && p in groupsUsed && groupsUsed[p] != []
      modifies links, `groupsUsed, `endTimes, `multicastTree, `sigLists, `masters, `decision
      ensures IndexOk() && Gs() == MakeRoom(old(Gs()), p) && groupsUsed == old(groupsUsed)[p := old(groupsUsed)[p][1..]]
      ensures decision == Jumped(old(sigLists), old(decision), G.Entry(p, old(groupsUsed)[p][0]))
    {
      MakeRoomOk(cfg, Gs(), p);
      DropEntry(G.Entry(p, groupsUsed[p][0]));
    }

    /** Peer p, which is not in the group, joins it with a free entry, or with its earliest used one. */
    method JoinGroup(p: PeerId, g: Group, end: int)
      requires GroupsValid() && p in groupsUsed && g !in groupsUsed[p]
      modifies links, `groupsUsed, `endTimes, `multicastTree, `sigLists, `masters, `groupsFree, `decision
      ensures GroupsValid() && Gs() == Join(cfg, old(Gs()), p, g, end)
      ensures groupsUsed.Keys == old(groupsUsed).Keys
      ensures decision == Joined(cfg, old(Gs()), old(decision), p, g)
    {
      assert FreeAt(cfg.maxGroups, groupsFree, groupsUsed, p) && D.ListOk(cfg.maxGroups, groupsUsed, p);
      if groupsFree[p] > 0 {
        FreeUpdate(cfg.maxGroups, groupsFree, groupsUsed, p, groupsFree[p] - 1, groupsUsed[p] + [g]);
        groupsFree := groupsFree[p := groupsFree[p] - 1];
      } else {
        FreeUpdate(cfg.maxGroups, groupsFree, groupsUsed, p, groupsFree[p], groupsUsed[p][1..] + [g]);
        ReuseOldest(p);
      }
      ghost var used := groupsUsed[p := groupsUsed[p] + [g]];
      assert used == old(groupsUsed)[p := groupsUsed[p] + [g]];
      EnterGroup(p, g, end);
    }

    method AddGroupToPeer(p: PeerId, g: Group, now: int)
      requires GroupsValid() && p in groupsUsed
      modifies links, `groupsUsed, `endTimes, `multicastTree, `sigLists, `masters, `groupsFree, `decision
      ensures GroupsValid() && Gs() == Join(cfg, old(Gs()), p, g, now + cfg.membershipInterval)
      ensures groupsUsed.Keys == old(groupsUsed).Keys
      ensures decision == Joined(cfg, old(Gs()), old(decision), p, g)
    {
      if g in groupsUsed[p] {
        RenewGroup(p, g, now + cfg.membershipInterval);
      } else {
        JoinGroup(p, g, now + cfg.membershipInterval);
      }
    }

    method RemoveGroupEntry(e: Entry)
      requires GroupsValid() && e in Used(groupsUsed)
      modifies links, `groupsUsed, `endTimes, `multicastTree, `sigLists, `masters, `groupsFree, `decision
      ensures GroupsValid() && Gs() == Leave(old(Gs()), e) && decision == Jumped(old(sigLists), old(decision), e)
      ensures groupsUsed.Keys == old(groupsUsed).Keys
    {
      assert FreeAt(cfg.maxGroups, groupsFree, groupsUsed, e.peer) && D.ListOk(cfg.maxGroups, groupsUsed, e.peer);
      WithoutCount(groupsUsed[e.peer], e.group);
      FreeUpdate(cfg.maxGroups, groupsFree, groupsUsed, e.peer, groupsFree[e.peer] + 1,
        Without(groupsUsed[e.peer], e.group));
      DropEntry(e);
      groupsFree := groupsFree[e.peer := groupsFree[e.peer] + 1];
    }

    /**
      Looks only at the entries with the signature of the group, and lowers the timers of all the entries of
      the group.
    */
    method LowerGroupTimersToLmqt(g: Group, now: int)
      requires IndexOk()
      modifies `endTimes
      ensures endTimes == Lowered(cfg, old(endTimes), g, now)
    {
      var sig := G.Sig(g);
      ghost var gs := Gs();
      assert G.SigOk(Ix(), sig) && ListLinked(links.nodes, sigLists, sig);
      if sig !in multicastTree {
        LoweredAll(cfg, gs, endTimes, g, now);
        return;
      }
      forall e | e in sigLists[sig] ensures e in endTimes { assert G.EntryOk(Ix(), Used(groupsUsed), e); }
      LowerEach(multicastTree[sig], g, now, sigLists[sig]);
      LoweredAll(cfg, gs, endTimes, g, now);
    }

    /** Walks through the list of the master from its start. */
    method LowerEach(master: Entry, g: Group, now: int, ghost es: seq<Entry>)
      requires Chain(links.nodes, None, es) && NoDup(es) && master in es && forall e :: e in es ==> e in endTimes
      modifies `endTimes
      ensures LoweredFirst(cfg, old(endTimes), endTimes, es, |es|, g, now)
    {
      ghost var was, i := endTimes, 0;
      var first := links.First(master, es);
      var it := Some(first);
      while it.Some?
        invariant 0 <= i <= |es| && it == (if i < |es| then Some(es[i]) else None)
        invariant LoweredFirst(cfg, was, endTimes, es, i, g, now)
        decreases |es| - i
      {
        var e := it.value;
        ChainAt(links.nodes, None, es, i);
        NotBefore(es, i);
        LoweredNext(cfg, was, endTimes, es, i, g, now);
        assert endTimes[e := endTimes[e]] == endTimes;
        it := links.nodes[e].n;
        if e.group == g && endTimes[e] > now + cfg.lastMemberQueryTime {
          endTimes := endTimes[e := now + cfg.lastMemberQueryTime];
        }
        i := i + 1;
      }
    }

    method InitGroups(p: PeerId)
      requires GroupsValid() && p !in groupsUsed
      modifies `groupsUsed, `groupsFree
      ensures GroupsValid() && Gs() == AddPeer(old(Gs()), p) && groupsUsed.Keys == old(groupsUsed).Keys + {p}
    {
      AddPeerOk(cfg, Gs(), p);
      FreeUpdate(cfg.maxGroups, groupsFree, groupsUsed, p, cfg.maxGroups, []);
      groupsUsed := groupsUsed[p := []];
      groupsFree := groupsFree[p := cfg.maxGroups];
    }

    /** Removes the group entries of p from the index and stops their timers. */
    method RemoveGroups(p: PeerId)
      requires GroupsValid() && p in groupsUsed
      modifies links, `groupsUsed, `endTimes, `multicastTree, `sigLists, `masters, `groupsFree, `decision
      ensures GroupsValid() && Gs() == LeaveAll(old(Gs()), p) && decision == JumpedAll(old(Gs()), old(decision), p)
    {
      while groupsUsed[p] != []
        invariant GroupsValid() && p in groupsUsed && LeaveAll(Gs(), p) == LeaveAll(old(Gs()), p)
        invariant JumpedAll(Gs(), decision, p) == JumpedAll(old(Gs()), old(decision), p)
        decreases |groupsUsed[p]|
      {
        var e := G.Entry(p, groupsUsed[p][0]);
        assert D.ListOk(cfg.maxGroups, groupsUsed, p);
        WithoutCount(groupsUsed[p], e.group);
        RemoveGroupEntry(e);
      }
    }

    method FreeGroups(p: PeerId)
      requires GroupsValid() && p in groupsUsed
      modifies links, `groupsUsed, `endTimes, `multicastTree, `sigLists, `masters, `groupsFree, `decision
      ensures GroupsValid() && Gs() == DropPeer(old(Gs()), p) && groupsUsed.Keys == old(groupsUsed).Keys - {p}
      ensures decision == JumpedAll(old(Gs()), old(decision), p)
    {
      DropPeerOk(cfg, Gs(), p);
      RemoveGroups(p);
      FreeRemoved(cfg.maxGroups, groupsFree, groupsUsed, p);
      groupsUsed := groupsUsed - {p};
    }

    // ----- peers

    method FrameDeciderPeerInit(p: PeerId)
      requires Valid() && p !in peersList
      modifies `peersList, `macsUsed, `macsFree, `groupsUsed, `groupsFree
      ensures Valid() && Now() == PeerInit(old(Now()), p)
      ensures old(DecisionLive()) ==>
                && DecisionLive()
                && ToSend() == old(ToSend()) + if decision.Flood? && decision.current.Some? then [p] else []
    {
      if decision.Flood? && DecisionLive() {
        RestAppend(peersList, decision.current, p);
      }
      InitTables(p);
    }

    method InitTables(p: PeerId)
      requires Valid() && p !in peersList
      modifies `peersList, `macsUsed, `macsFree, `groupsUsed, `groupsFree
      ensures Valid() && Now() == PeerInit(old(Now()), p)
    {
      PeersAdded(peersList, macsUsed.Keys, groupsUsed.Keys, p);
      peersList := peersList + [p];
      InitMacs(p);
      InitGroups(p);
    }

    method FrameDeciderPeerFree(p: PeerId)
      requires Valid() && p in peersList
      modifies this, links
      ensures Valid() && All() == Full(PeerFree(old(Now()), p), Freed(old(Now()), old(decision), p))
      ensures old(DecisionLive()) ==>
                && (DecisionLive() <==> !StuckAtPeer(old(decision), p))
                && (ToSend() == Without(old(ToSend()), p) <==> !StuckAtPeer(old(decision), p))
    {
      if DecisionLive() {
        ghost var _, _ := FreedRemaining(cfg, Now(), decision, p);
      }
      FreePeer(p);
    }

    method FreePeer(p: PeerId)
      requires Valid() && p in peersList
      modifies this, links
      ensures Valid() && All() == Full(PeerFree(old(Now()), p), Freed(old(Now()), old(decision), p))
    {
      PeersRemoved(peersList, macsUsed.Keys, groupsUsed.Keys, p);
      JumpedAllOther(Gs(), decision, p);
      if decision == Unicast(p) {
        decision := NoDecision;
      }
      JumpedAllOther(Gs(), decision, p);
      FreeTables(p);
      Delist(p);
    }

    method FreeTables(p: PeerId)
      requires MacsValid() && GroupsValid() && p in macsUsed && p in groupsUsed
      modifies links, `groupsUsed, `endTimes, `multicastTree, `sigLists, `masters, `groupsFree, `decision,
        `macsTree, `macsUsed
      ensures MacsValid() && Macs() == M.Forget(old(Macs()), p) && macsUsed.Keys == old(macsUsed).Keys - {p}
      ensures GroupsValid() && Gs() == DropPeer(old(Gs()), p) && groupsUsed.Keys == old(groupsUsed).Keys - {p}
      ensures decision == JumpedAll(old(Gs()), old(decision), p)
    {
      FreeGroups(p);
      FreeMacs(p);
    }

    /** The peer is taken out of the list, which a flood may be at. */
    method Delist(p: PeerId)
      modifies `peersList, `decision
      ensures peersList == Without(old(peersList), p)
      ensures decision == match old(decision)
                          case Flood(current) => Flood(Jump(old(peersList), current, p))
                          case d => d
    {
      if decision == Flood(Some(p)) {
        decision := Flood(NextOf(peersList, p));
      }
      peersList := Without(peersList, p);
    }

    // ----- decisions

    /**
      Decides who gets the frame; a frame that is too short to have an Ethernet header is None. If a multicast
      decision is under way, no new decision is made, and its iterator is not attached any more.
    */
    method AnalyzeAndDecide(frame: Option<Frame>, now: int)
      requires Valid() && (frame.Some? ==> frame.value.Valid())
      modifies `endTimes, `decision
      ensures Valid() && All() == X.Next(cfg, old(All()), if frame.None? then Short else Do(Decide(frame.value, now)))
      ensures !old(decision).Multicast? ==>
                DecisionLive() && ToSend() == if frame.None? then [] else Destinations(Now(), frame.value)
    {
      if decision.Multicast? {
        decision := Multicast(decision.it.(attached := false));
        return;
      }
      decision := NoDecision;
      if frame.None? { return; }
      AnalyzeQuery(frame.value.query, now);
      ChosenRemaining(cfg, Now(), frame.value);
      decision := Choose(frame.value);
    }

    method AnalyzeQuery(query: Option<Group>, now: int)
      requires GroupsValid()
      modifies `endTimes
      ensures GroupsValid() && Gs() == Queried(cfg, old(Gs()), query, now)
    {
      if query.Some? {
        LowerGroupTimersToLmqt(query.value, now);
      }
    }

    method Choose(frame: Frame) returns (d: Decision)
      requires Valid() && frame.Valid()
      ensures d == Chosen(Now(), frame)
      ensures Remaining(Now().peers, SigLists(Now()), d) == Destinations(Now(), frame)
    {
      ChosenRemaining(cfg, Now(), frame);
      if frame.igmp || frame.dest == BROADCAST {
        return Flood(Head(peersList));
      }
      if frame.dest[..3] == MULTICAST {
        var sig := G.SigOfMac(frame.dest);
        assert G.SigOk(Ix(), sig) && ListLinked(links.nodes, sigLists, sig);
        if sig in multicastTree {
          var first := links.First(multicastTree[sig], sigLists[sig]);
          return Multicast(Iterator(Some(first), true));
        }
        return NoDecision;
      }
      OwnerInTree(Macs(), macsTree, frame.dest);
      if frame.dest in macsTree {
        return Unicast(macsTree[frame.dest]);
      }
      return Flood(Head(peersList));
    }

    method NextDestination() returns (p: Option<PeerId>)
      requires Valid() && DecisionLive()
      modifies `decision
      ensures DecisionLive() && All() == X.Next(cfg, old(All()), Ask)
      ensures var rest := old(ToSend());
              if rest == [] then p == None && decision == NoDecision else p == Some(rest[0]) && ToSend() == rest[1..]
    {
      AskedRemaining(cfg, Now(), decision);
      match decision {
        case NoDecision => return None;
        case Unicast(q) =>
          decision := NoDecision;
          return Some(q);
        case Flood(current) =>
          if current.None? {
            decision := NoDecision;
            return None;
          }
          decision := Flood(NextOf(peersList, current.value));
          return current;
        case Multicast(it) =>
          if it.at.None? {
            decision := NoDecision;
            return None;
          }
          var e := it.at.value;
          assert ListLinked(links.nodes, sigLists, G.Sig(e.group));
          ChainNext(links.nodes, None, sigLists[G.Sig(e.group)], e);
          decision := Multicast(Iterator(links.nodes[e].n, true));
          return Some(e.peer);
      }
    }

    /** Asks for destinations until there are no more. */
    method Drain() returns (sent: seq<PeerId>)
      requires Valid() && DecisionLive()
      modifies `decision
      ensures sent == old(ToSend()) && decision == NoDecision
    {
      ghost var all := ToSend();
      sent := [];
      var p := Pull(all);
      while p.Some?
        invariant DecisionLive() && sent <= all && all[|sent|..] == ToCome(p, ToSend())
        invariant p.None? ==> decision == NoDecision
        decreases |all| - |sent|
      {
        OneMore(all, sent, p.value, ToSend());
        var next := Pull(ToSend());
        sent := sent + [p.value];
        p := next;
      }
    }

    /** The next destination, with what is left to come. */
    method Pull(ghost rest: seq<PeerId>) returns (p: Option<PeerId>)
      requires Valid() && DecisionLive() && rest == ToSend()
      modifies `decision
      ensures DecisionLive() && ToCome(p, ToSend()) == rest && (p.None? ==> decision == NoDecision)
    {
      p := NextDestination();
      assert rest != [] ==> [rest[0]] + rest[1..] == rest;
    }

    // ----- what the client does

    /** A frame from the device. */
    method DeviceFrame(frame: Option<Frame>, now: int) returns (sent: seq<PeerId>)
      requires Valid() && decision == NoDecision && (frame.Some? ==> frame.value.Valid())
      modifies `endTimes, `decision
      ensures Valid() && decision == NoDecision
      ensures if frame.None? then Now() == old(Now()) && sent == []
              else Now() == Step(cfg, old(Now()), Decide(frame.value, now)) && sent == Destinations(Now(), frame.value)
    {
      AnalyzeAndDecide(frame, now);
      sent := Drain();
    }

    method HandleInit(p: PeerId)
      requires Valid() && decision == NoDecision && May(Now(), Init(p))
      modifies this, links
      ensures Valid() && decision == NoDecision && Now() == Step(cfg, old(Now()), Init(p))
    {
      FrameDeciderPeerInit(p);
    }

    method HandleFree(p: PeerId)
      requires Valid() && decision == NoDecision && May(Now(), Event.Free(p))
      modifies this, links
      ensures Valid() && decision == NoDecision && Now() == Step(cfg, old(Now()), Event.Free(p))
    {
      FrameDeciderPeerFree(p);
    }

    /** A frame from peer p with this source address. */
    method HandleSeen(p: PeerId, mac: Bytes)
      requires Valid() && decision == NoDecision && May(Now(), Seen(p, mac))
      modifies this, links
      ensures Valid() && decision == NoDecision && Now() == Step(cfg, old(Now()), Seen(p, mac))
    {
      AddMacToPeer(p, mac);
    }

    /** An IGMP membership report from peer p. */
    method HandleReport(p: PeerId, g: Group, now: int)
      requires Valid() && decision == NoDecision && May(Now(), Report(p, g, now))
      modifies this, links
      ensures Valid() && decision == NoDecision && Now() == Step(cfg, old(Now()), Report(p, g, now))
    {
      ghost var was := Now();
      AddGroupToPeer(p, g, now);
      assert Now() == was.(groups := Gs());
    }

    method HandleExpire(e: Entry)
      requires Valid() && decision == NoDecision && May(Now(), Expire(e))
      modifies this, links
      ensures Valid() && decision == NoDecision && Now() == Step(cfg, old(Now()), Expire(e))
    {
      ghost var was := Now();
      RemoveGroupEntry(e);
      assert Now() == was.(groups := Gs());
    }

    /** Any event; the result is who the frame is sent to, if there is one. */
    method Handle(ev: Event) returns (sent: seq<PeerId>)
      requires Valid() && decision == NoDecision && May(Now(), ev)
      modifies this, links
      ensures Valid() && decision == NoDecision && Now() == Step(cfg, old(Now()), ev)
      ensures ev.Decide? ==> sent == Destinations(Now(), ev.frame)
    {
      sent := [];
      match ev
      case Init(p) => HandleInit(p);
      case Free(p) => HandleFree(p);
      case Seen(p, mac) => HandleSeen(p, mac);
      case Report(p, g, now) => HandleReport(p, g, now);
      case Expire(e) => HandleExpire(e);
      case Decide(frame, now) => sent := DeviceFrame(Some(frame), now);
    }

    method HandleNext(evs: seq<Event>, k: nat) returns (sent: seq<PeerId>)
      requires Valid() && decision == NoDecision && k < |evs| && Run(cfg, evs).Some? && Reached(cfg, evs, k, Now())
      modifies this, links
      ensures Valid() && decision == NoDecision && Reached(cfg, evs, k + 1, Now()) && SentOk(cfg, evs, k, sent)
    {
      RunNext(cfg, evs, k);
      sent := Handle(evs[k]);
    }

    /**
      Any number of events, from the start: no frame ever finds a decision under way, and each goes to its
      destinations.
    */
    method HandleAll(evs: seq<Event>) returns (sent: seq<seq<PeerId>>)
      requires Valid() && decision == NoDecision && Now() == Empty(cfg) && Run(cfg, evs).Some?
      modifies this, links
      ensures Valid() && decision == NoDecision && Some(Now()) == Run(cfg, evs)
      ensures |sent| == |evs| && AllSent(cfg, evs, sent)
    {
      sent := [];
      while |sent| < |evs|
        invariant Valid() && decision == NoDecision && AllSent(cfg, evs, sent) && Reached(cfg, evs, |sent|, Now())
      {
        var to := HandleNext(evs, |sent|);
        AllSentNext(cfg, evs, sent, to);
        sent := Snoc(sent, to);
      }
      assert evs[..|evs|] == evs;
    }
  }

  /** The first k events lead to this state. */
  ghost predicate Reached(cfg: Config, evs: seq<Event>, k: nat, st: State)
    requires cfg.Valid() && k <= |evs|
  {
    Run(cfg, evs[..k]) == Some(st)
  }

  /** The frame of event k goes to its destinations in the state of the run. */
  ghost predicate SentOk(cfg: Config, evs: seq<Event>, k: nat, sent: seq<PeerId>)
    requires cfg.Valid() && k < |evs|
  {
    evs[k].Decide? ==>
      var st := Run(cfg, evs[..k + 1]);
      st.Some? && evs[k].frame.Valid() && sent == Destinations(st.value, evs[k].frame)
  }

  /** Each of the first |sent| events had its frame, if any, sent to its destinations. */
  ghost predicate AllSent(cfg: Config, evs: seq<Event>, sent: seq<seq<PeerId>>)
    requires cfg.Valid()
  {
    |sent| <= |evs| && forall k :: 0 <= k < |sent| ==> SentOk(cfg, evs, k, sent[k])
  }

  lemma AllSentNext(cfg: Config, evs: seq<Event>, sent: seq<seq<PeerId>>, to: seq<PeerId>)
    requires cfg.Valid() && AllSent(cfg, evs, sent) && |sent| < |evs| && SentOk(cfg, evs, |sent|, to)
    ensures AllSent(cfg, evs, Snoc(sent, to))
  {
    var sent' := Snoc(sent, to);
    forall k | 0 <= k < |sent'|
      ensures SentOk(cfg, evs, k, sent'[k])
    {
      assert k < |sent| ==> SentOk(cfg, evs, k, sent[k]);
    }
  }

  lemma {:induction false} RunNext(cfg: Config, evs: seq<Event>, k: nat)
    requires cfg.Valid() && Run(cfg, evs).Some? && k < |evs|
    ensures var st := Run(cfg, evs[..k]);
            && st.Some? && May(st.value, evs[k])
            && Run(cfg, evs[..k + 1]) == Some(Step(cfg, st.value, evs[k]))
  {
    var before := evs[..|evs| - 1];
    if k == |evs| - 1 {
      assert evs[..k + 1] == evs;
    } else {
      RunNext(cfg, before, k);
      assert before[..k] == evs[..k] && before[..k + 1] == evs[..k + 1];
    }
  }
}
