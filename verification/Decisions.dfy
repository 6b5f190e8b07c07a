/**
  How client/FrameDecider.c hands out the destinations of a frame: it remembers where it is in the list of peers, or
  in the list of the entries with the frame's signature, while peers and entries come and go.
*/
module Decisions {
  import opened Common
  import opened Lists
  import opened FrameDecider
  import M = MacTable
  import G = GroupIndex

  /** A LinkedList3Iterator, and whether the node it is at knows of it. */
  datatype Iterator = Iterator(at: Option<Entry>, attached: bool)

  datatype Decision = NoDecision | Unicast(peer: PeerId) | Flood(current: Option<PeerId>) | Multicast(it: Iterator)

  function ListOf(lists: map<nat, seq<Entry>>, e: Entry): seq<Entry> {
    if G.Sig(e.group) in lists then lists[G.Sig(e.group)] else []
  }

  /**
    The entries still to come of a multicast decision; one that left its list comes nevertheless if the
    iterator is at it.
  */
  function Left(lists: map<nat, seq<Entry>>, d: Decision): seq<Entry> {
    if !d.Multicast? || d.it.at.None? then []
    else
      var e := d.it.at.value;
      if e in ListOf(lists, e) then From(ListOf(lists, e), e) else [e]
  }

  /** The destinations still to come. */
  function Remaining(peers: seq<PeerId>, lists: map<nat, seq<Entry>>, d: Decision): seq<PeerId> {
    match d
    case NoDecision => []
    case Unicast(p) => [p]
    case Flood(current) => Rest(peers, current)
    case Multicast(_) => G.PeersOf(Left(lists, d))
  }

  /** What the decision stands at is still there. */
  predicate Live(peers: seq<PeerId>, lists: map<nat, seq<Entry>>, d: Decision) {
    match d
    case NoDecision => true
    case Unicast(p) => p in peers
    case Flood(current) => current.Some? ==> current.value in peers
    case Multicast(it) => it.at.Some? ==> it.at.value in ListOf(lists, it.at.value)
  }

  /** The iterator is not attached and stands at this entry, which it cannot leave when the entry goes. */
  predicate StuckAt(d: Decision, e: Entry) {
    d.Multicast? && !d.it.attached && d.it.at == Some(e)
  }

  predicate StuckAtPeer(d: Decision, p: PeerId) {
    d.Multicast? && !d.it.attached && d.it.at.Some? && d.it.at.value.peer == p
  }

  // ----- entries come and go

  /** LinkedList3Node_Free: an attached iterator at the node jumps to the next one. */
  function Jumped(lists: map<nat, seq<Entry>>, d: Decision, e: Entry): Decision {
    if d.Multicast? && d.it.attached then Multicast(Iterator(Jump(ListOf(lists, e), d.it.at, e), true)) else d
  }

  /** The entries to come are the same without the one that goes, if and only if the iterator is not stuck at it. */
  lemma JumpedLeft(ix: G.Index, used: set<Entry>, d: Decision, e: Entry)
    requires G.Valid(ix, used) && e in used && Live([], ix.lists, d) && d.Multicast?
    ensures var lists', d' := G.Remove(ix, e).lists, Jumped(ix.lists, d, e);
            && (Live([], lists', d') <==> !StuckAt(d, e))
            && (Left(lists', d') == Without(Left(ix.lists, d), e) <==> !StuckAt(d, e))
            && (StuckAt(d, e) ==> Left(lists', d') == [e])
  {
    var sig := G.Sig(e.group);
    var lists' := G.Remove(ix, e).lists;
    assert G.SigOk(ix, sig) && G.EntryOk(ix, used, e);
    if d.it.at.Some? {
      var at := d.it.at.value;
      assert G.SigOk(ix, G.Sig(at.group));
      assert ListOf(lists', at) == Without(ListOf(ix.lists, at), e) by { RemovedList(ix, used, e, at); }
      RestWithout(ListOf(ix.lists, at), d.it.at, e);
      RestNext(ListOf(ix.lists, at), at);
      if at != e {
        assert at in ListOf(lists', at);
      }
    }
  }

  lemma RemovedList(ix: G.Index, used: set<Entry>, e: Entry, x: Entry)
    requires G.Valid(ix, used) && e in used
    ensures ListOf(G.Remove(ix, e).lists, x) == Without(ListOf(ix.lists, x), e)
  {
    assert G.SigOk(ix, G.Sig(x.group)) && G.EntryOk(ix, used, e);
    if G.Sig(x.group) != G.Sig(e.group) {
      WithoutAbsent(ListOf(ix.lists, x), e);
    }
  }

  /** A new entry comes behind the master of its signature, if the master is still to come, and otherwise not at all. */
  lemma AddedLeft(ix: G.Index, used: set<Entry>, d: Decision, e: Entry)
    requires G.Valid(ix, used) && e !in used && Live([], ix.lists, d) && d.Multicast?
    ensures var left, sig := Left(ix.lists, d), G.Sig(e.group);
            && Live([], G.Add(ix, e).lists, d)
            && Left(G.Add(ix, e).lists, d)
               == if sig in ix.tree && ix.tree[sig] in left then InsertAfter(left, ix.tree[sig], e) else left
  {
    var sig := G.Sig(e.group);
    assert G.SigOk(ix, sig) && G.EntryOk(ix, used, e);
    if d.it.at.Some? {
      var at := d.it.at.value;
      assert G.SigOk(ix, G.Sig(at.group));
      if G.Sig(at.group) == sig {
        RestInsert(ix.lists[sig], d.it.at, ix.tree[sig], e);
      } else if sig in ix.tree {
        assert ix.tree[sig] !in ListOf(ix.lists, at);
      }
    }
  }

  // ----- peers come and go

  function OfOthers(es: seq<Entry>, p: PeerId): seq<Entry> {
    if es == [] then [] else if es[0].peer == p then OfOthers(es[1..], p) else [es[0]] + OfOthers(es[1..], p)
  }

  lemma {:induction false} PeersOfOthers(es: seq<Entry>, p: PeerId)
    ensures G.PeersOf(OfOthers(es, p)) == Without(G.PeersOf(es), p)
  {
    if es == [] {
    } else {
      PeersOfOthers(es[1..], p);
      assert G.PeersOf(es)[1..] == G.PeersOf(es[1..]);
      if es[0].peer != p {
        assert OfOthers(es, p)[1..] == OfOthers(es[1..], p);
        assert G.PeersOf(OfOthers(es, p))[1..] == G.PeersOf(OfOthers(es[1..], p));
      }
    }
  }

  lemma {:induction false} OthersWithout(es: seq<Entry>, e: Entry)
    ensures OfOthers(Without(es, e), e.peer) == OfOthers(es, e.peer)
  {
    if es == [] {
    } else {
      OthersWithout(es[1..], e);
      if es[0] != e {
        var w := Without(es[1..], e);
        assert ([es[0]] + w)[1..] == w;
      }
    }
  }

  lemma {:induction false} AllOthers(es: seq<Entry>, p: PeerId)
    requires forall e :: e in es ==> e.peer != p
    ensures OfOthers(es, p) == es
  {
    if es == [] {
    } else {
      AllOthers(es[1..], p);
    }
  }

  /** The entries of a peer that goes are taken out one after the other. */
  function JumpedAll(gs: Groups, d: Decision, p: PeerId): Decision
    requires p in gs.joined
    decreases |gs.joined[p]|
  {
    if gs.joined[p] == [] then d
    else
      var e := G.Entry(p, gs.joined[p][0]);
      WithoutShorter(gs.joined[p], e.group);
      JumpedAll(MakeRoom(gs, p), Jumped(gs.ix.lists, d, e), p)
  }

  lemma {:induction false} JumpedAllLeft(cfg: Config, gs: Groups, d: Decision, p: PeerId)
    requires GroupsOk(cfg, gs) && p in gs.joined && Live([], gs.ix.lists, d) && d.Multicast? && !StuckAtPeer(d, p)
    ensures var lists', d' := LeaveAll(gs, p).ix.lists, JumpedAll(gs, d, p);
            d'.Multicast? && Live([], lists', d') && Left(lists', d') == OfOthers(Left(gs.ix.lists, d), p)
    decreases |gs.joined[p]|
  {
    var left := Left(gs.ix.lists, d);
    if gs.joined[p] == [] {
      forall e | e in left
        ensures e.peer != p
      {
        assert G.EntryOk(gs.ix, Used(gs.joined), e) && G.SigOk(gs.ix, G.Sig(d.it.at.value.group));
      }
      AllOthers(left, p);
    } else {
      var e := G.Entry(p, gs.joined[p][0]);
      MakeRoomOk(cfg, gs, p);
      JumpedLeft(gs.ix, Used(gs.joined), d, e);
      JumpedAllLeft(cfg, MakeRoom(gs, p), Jumped(gs.ix.lists, d, e), p);
      OthersWithout(left, e);
    }
  }

  lemma {:induction false} JumpedAllOther(gs: Groups, d: Decision, p: PeerId)
    requires p in gs.joined
    ensures !d.Multicast? ==> JumpedAll(gs, d, p) == d
    ensures d.Multicast? ==> JumpedAll(gs, d, p).Multicast?
    decreases |gs.joined[p]|
  {
    if gs.joined[p] == [] {
    } else {
      var e := G.Entry(p, gs.joined[p][0]);
      WithoutShorter(gs.joined[p], e.group);
      JumpedAllOther(MakeRoom(gs, p), Jumped(gs.ix.lists, d, e), p);
    }
  }

  lemma {:induction false} JumpedAllStuck(cfg: Config, gs: Groups, d: Decision, p: PeerId)
    requires GroupsOk(cfg, gs) && p in gs.joined && StuckAtPeer(d, p)
    ensures JumpedAll(gs, d, p) == d && Left(LeaveAll(gs, p).ix.lists, d) == [d.it.at.value]
    decreases |gs.joined[p]|
  {
    if gs.joined[p] == [] {
      var e := d.it.at.value;
      assert G.EntryOk(gs.ix, Used(gs.joined), e);
    } else {
      MakeRoomOk(cfg, gs, p);
      JumpedAllStuck(cfg, MakeRoom(gs, p), d, p);
    }
  }

  /** FrameDeciderPeer_Free */
  function Freed(st: State, d: Decision, p: PeerId): Decision
    requires p in st.groups.joined
  {
    match d
    case NoDecision => NoDecision
    case Unicast(q) => if q == p then NoDecision else d
    case Flood(current) => Flood(Jump(st.peers, current, p))
    case Multicast(_) => JumpedAll(st.groups, d, p)
  }

  function SigLists(st: State): map<nat, seq<Entry>> {
    st.groups.ix.lists
  }

  /** What freeing the peer does to the decision, if it is a multicast one. */
  lemma FreedMulticast(cfg: Config, st: State, d: Decision, p: PeerId)
    requires Valid(cfg, st) && p in st.peers && d.Multicast? && Live([], SigLists(st), d)
    ensures var lists', d' := SigLists(PeerFree(st, p)), Freed(st, d, p);
            && d'.Multicast? && (Live([], lists', d') <==> !StuckAtPeer(d, p))
            && G.PeersOf(Left(lists', d')) == if StuckAtPeer(d, p) then [p]
              else Without(G.PeersOf(Left(SigLists(st), d)), p)
  {
    var gs' := LeaveAll(st.groups, p);
    if StuckAtPeer(d, p) {
      JumpedAllStuck(cfg, st.groups, d, p);
      assert G.PeersOf([d.it.at.value]) == [p];
      LeaveAllOk(cfg, st.groups, p);
      assert G.EntryOk(gs'.ix, Used(gs'.joined), d.it.at.value);
    } else {
      JumpedAllLeft(cfg, st.groups, d, p);
      PeersOfOthers(Left(SigLists(st), d), p);
    }
  }

  /**
    The destinations still to come after a peer was freed are the same without the peer if and only if the iterator
    is not stuck at an entry of the peer; if it is, the freed peer is the next one.
  */
  lemma FreedRemaining(cfg: Config, st: State, d: Decision, p: PeerId) returns (rest: seq<PeerId>, rest': seq<PeerId>)
    requires Valid(cfg, st) && p in st.peers && Live(st.peers, SigLists(st), d)
    ensures rest == Remaining(st.peers, SigLists(st), d)
    ensures rest' == Remaining(Without(st.peers, p), SigLists(PeerFree(st, p)), Freed(st, d, p))
    ensures Live(Without(st.peers, p), SigLists(PeerFree(st, p)), Freed(st, d, p)) <==> !StuckAtPeer(d, p)
    ensures rest' == Without(rest, p) <==> !StuckAtPeer(d, p)
    ensures StuckAtPeer(d, p) ==> rest' == [p]
  {
    rest := Remaining(st.peers, SigLists(st), d);
    rest' := Remaining(Without(st.peers, p), SigLists(PeerFree(st, p)), Freed(st, d, p));
    match d
    case NoDecision => assert rest' == Without(rest, p);
    case Unicast(q) =>
      assert rest == [q] + [];
      assert Without(rest, p) == if q == p then [] else [q];
    case Flood(current) =>
      RestWithout(st.peers, current, p);
      assert rest' == Without(rest, p);
    case Multicast(_) =>
      FreedMulticast(cfg, st, d, p);
      if StuckAtPeer(d, p) {
        assert rest' == [p] && p in [p] && p !in Without(rest, p);
      } else {
        assert rest' == Without(rest, p);
      }
  }

  /** A peer that joins a group with no free entry gives up its oldest entry. */
  predicate GivesUp(cfg: Config, gs: Groups, p: PeerId, g: Group)
    requires p in gs.joined
  {
    g !in gs.joined[p] && gs.joined[p] != [] && |gs.joined[p]| == cfg.maxGroups
  }

  function Joined(cfg: Config, gs: Groups, d: Decision, p: PeerId, g: Group): Decision
    requires p in gs.joined
  {
    if GivesUp(cfg, gs, p, g) then Jumped(gs.ix.lists, d, G.Entry(p, gs.joined[p][0])) else d
  }

  /**
    The entries to come after a join: without the one given up, and with the new one behind its master if that
    is to come.
  */
  lemma JoinedLeft(cfg: Config, gs: Groups, d: Decision, p: PeerId, g: Group, end: int)
    requires cfg.Valid() && GroupsOk(cfg, gs) && p in gs.joined && Live([], gs.ix.lists, d) && d.Multicast?
    ensures var lists', d' := Join(cfg, gs, p, g, end).ix.lists, Joined(cfg, gs, d, p, g);
            var stuck := GivesUp(cfg, gs, p, g) && StuckAt(d, G.Entry(p, gs.joined[p][0]));
            && d'.Multicast? && (Live([], lists', d') <==> !stuck)
            && (!stuck ==>
                  var ix := if GivesUp(cfg, gs, p, g) then MakeRoom(gs, p).ix else gs.ix;
                  var left := if GivesUp(cfg, gs, p, g) then Without(Left(gs.ix.lists, d), G.Entry(p, gs.joined[p][0]))
                              else Left(gs.ix.lists, d);
                  var sig := G.Sig(g);
                  Left(lists', d') == if g !in gs.joined[p] && sig in ix.tree && ix.tree[sig] in left
                                      then InsertAfter(left, ix.tree[sig], G.Entry(p, g)) else left)
  {
    assert ListOk(cfg.maxGroups, gs.joined, p);
    var e := G.Entry(p, g);
    if GivesUp(cfg, gs, p, g) {
      var o := G.Entry(p, gs.joined[p][0]);
      MakeRoomOk(cfg, gs, p);
      JumpedLeft(gs.ix, Used(gs.joined), d, o);
      var gs1, d1 := MakeRoom(gs, p), Jumped(gs.ix.lists, d, o);
      if StuckAt(d, o) {
        assert G.EntryOk(gs1.ix, Used(gs1.joined), o);
        EnterOk(cfg, gs1, p, g, end);
        assert G.EntryOk(Enter(gs1, p, g, end).ix, Used(Enter(gs1, p, g, end).joined), o);
      } else {
        AddedLeft(gs1.ix, Used(gs1.joined), d1, e);
      }
    } else if g !in gs.joined[p] {
      AddedLeft(gs.ix, Used(gs.joined), d, e);
    }
  }

  // ----- decisions are made and handed out

  /** Who gets the frame, in the order of the lists. */
  ghost function Chosen(st: State, frame: Frame): Decision
    requires frame.Valid()
  {
    if frame.igmp || frame.dest == BROADCAST then Flood(Head(st.peers))
    else if frame.dest[..3] == MULTICAST then
      var sig := G.SigOfMac(frame.dest);
      if sig in SigLists(st) then Multicast(Iterator(Head(SigLists(st)[sig]), true)) else NoDecision
    else if exists p :: Owns(st.macs, p, frame.dest) then var p :| Owns(st.macs, p, frame.dest); Unicast(p)
    else Flood(Head(st.peers))
  }

  lemma ChosenRemaining(cfg: Config, st: State, frame: Frame)
    requires Valid(cfg, st) && frame.Valid()
    ensures var d := Chosen(st, frame);
            && Live(st.peers, SigLists(st), d) && Remaining(st.peers, SigLists(st), d) == Destinations(st, frame)
            && (d.Multicast? ==> d.it.attached)
  {
    if frame.igmp || frame.dest == BROADCAST {
    } else if frame.dest[..3] == MULTICAST {
      assert G.SigOk(st.groups.ix, G.SigOfMac(frame.dest));
    } else if exists p :: Owns(st.macs, p, frame.dest) {
      var p := Chosen(st, frame).peer;
      assert Destinations(st, frame) != [];
      var q := Destinations(st, frame)[0];
      assert M.Apart(st.macs, p, q);
    }
  }

  /** FrameDecider_NextDestination: the destination and the decision that is left. */
  function Asked(peers: seq<PeerId>, lists: map<nat, seq<Entry>>, d: Decision): (Option<PeerId>, Decision) {
    match d
    case NoDecision => (None, NoDecision)
    case Unicast(p) => (Some(p), NoDecision)
    case Flood(current) =>
      if current.None? then (None, NoDecision) else (current, Flood(NextOf(peers, current.value)))
    case Multicast(it) =>
      if it.at.None? then (None, NoDecision)
      else (Some(it.at.value.peer), Multicast(Iterator(NextOf(ListOf(lists, it.at.value), it.at.value), true)))
  }

  /** The destinations come one at a time, in order, and then the decision is over. */
  lemma AskedRemaining(cfg: Config, st: State, d: Decision)
    requires Valid(cfg, st) && Live(st.peers, SigLists(st), d)
    ensures var rest, (p, d') := Remaining(st.peers, SigLists(st), d), Asked(st.peers, SigLists(st), d);
            && Live(st.peers, SigLists(st), d') && (d'.Multicast? ==> d'.it.attached)
            && if rest == [] then p == None && d' == NoDecision
               else p == Some(rest[0]) && Remaining(st.peers, SigLists(st), d') == rest[1..]
  {
    if d.Flood? && d.current.Some? {
      RestNext(st.peers, d.current.value);
    } else if d.Multicast? && d.it.at.Some? {
      var e := d.it.at.value;
      assert G.SigOk(st.groups.ix, G.Sig(e.group));
      RestNext(ListOf(SigLists(st), e), e);
      var left := Left(SigLists(st), d);
      assert G.PeersOf(left)[1..] == G.PeersOf(left[1..]);
    }
  }

  // ----- whole runs, with decisions that are under way

  datatype Full = Full(st: State, d: Decision)

  /** An event, or a call of FrameDecider_NextDestination, or a frame that is too short to have an Ethernet header. */
  datatype Act = Do(ev: Event) | Ask | Short

  ghost predicate Can(f: Full, a: Act) {
    match a
    case Do(ev) => May(f.st, ev)
    case Ask => Live(f.st.peers, SigLists(f.st), f.d)
    case Short => true
  }

  /** The decision that a new frame finds: the code gives up any but a multicast one, of which it frees the iterator. */
  function Interrupted(d: Decision): Decision {
    if d.Multicast? then Multicast(d.it.(attached := false)) else NoDecision
  }

  ghost function Moved(cfg: Config, f: Full, ev: Event): Decision
    requires cfg.Valid() && Valid(cfg, f.st) && May(f.st, ev)
  {
    match ev
    case Init(_) => f.d
    case Free(p) => Freed(f.st, f.d, p)
    case Seen(_, _) => f.d
    case Report(p, g, _) => Joined(cfg, f.st.groups, f.d, p, g)
    case Expire(e) => Jumped(SigLists(f.st), f.d, e)
    case Decide(frame, _) => Chosen(Step(cfg, f.st, ev), frame)
  }

  ghost function Next(cfg: Config, f: Full, a: Act): Full
    requires cfg.Valid() && Valid(cfg, f.st) && Can(f, a)
  {
    match a
    case Ask => f.(d := Asked(f.st.peers, SigLists(f.st), f.d).1)
    case Short => f.(d := Interrupted(f.d))
    case Do(ev) =>
      if ev.Decide? && f.d.Multicast? then f.(d := Interrupted(f.d)) else Full(Step(cfg, f.st, ev), Moved(cfg, f, ev))
  }

  /** The destinations still to come of the decision under way. */
  function Pending(f: Full): seq<PeerId> {
    Remaining(f.st.peers, SigLists(f.st), f.d)
  }

  /**
    A new frame, while a multicast decision is under way, changes nothing but that the iterator is no longer attached:
    the same destinations are still to come. Otherwise what was to come is given up, and the destinations of the frame
    are to come; there are none if it is too short.
  */
  lemma NewFrame(cfg: Config, f: Full, a: Act)
    requires cfg.Valid() && Valid(cfg, f.st) && Can(f, a) && (a.Short? || (a.Do? && a.ev.Decide?))
    ensures var f' := Next(cfg, f, a);
            if f.d.Multicast? then
              f'.st == f.st && Pending(f') == Pending(f) && f'.d.Multicast? && !f'.d.it.attached
            else if a.Short? then f' == Full(f.st, NoDecision) && Pending(f') == []
            else f'.st == Step(cfg, f.st, a.ev) && Pending(f') == Destinations(f'.st, a.ev.frame)
  {
    if !f.d.Multicast? && a.Do? {
      StepValid(cfg, f.st, a.ev);
      ChosenRemaining(cfg, Step(cfg, f.st, a.ev), a.ev.frame);
    }
  }

  lemma NextValid(cfg: Config, f: Full, a: Act)
    requires cfg.Valid() && Valid(cfg, f.st) && Can(f, a)
    ensures Valid(cfg, Next(cfg, f, a).st)
  {
    if a.Do? {
      StepValid(cfg, f.st, a.ev);
    }
  }

  ghost function FullRun(cfg: Config, acts: seq<Act>): (f: Option<Full>)
    requires cfg.Valid()
    ensures f.Some? ==> Valid(cfg, f.value.st)
  {
    if acts == [] then Some(Full(Empty(cfg), NoDecision))
    else
      var f, a := FullRun(cfg, acts[..|acts| - 1]), acts[|acts| - 1];
      if f.None? || !Can(f.value, a) then None
      else
        NextValid(cfg, f.value, a);
        Some(Next(cfg, f.value, a))
  }

  /** No frame comes while a multicast decision is under way. */
  ghost predicate Uninterrupted(cfg: Config, acts: seq<Act>)
    requires cfg.Valid()
  {
    acts == [] ||
    (var before, a := acts[..|acts| - 1], acts[|acts| - 1];
     && Uninterrupted(cfg, before)
     && (FullRun(cfg, before).Some? && FullRun(cfg, before).value.d.Multicast? ==> a.Ask? || (a.Do? && !a.ev.Decide?)))
  }

  ghost predicate DecisionOk(f: Full) {
    Live(f.st.peers, SigLists(f.st), f.d) && (f.d.Multicast? ==> f.d.it.attached)
  }

  lemma MovedOk(cfg: Config, f: Full, ev: Event)
    requires cfg.Valid() && Valid(cfg, f.st) && May(f.st, ev) && DecisionOk(f) && (ev.Decide? ==> !f.d.Multicast?)
    ensures DecisionOk(Full(Step(cfg, f.st, ev), Moved(cfg, f, ev)))
  {
    match ev
    case Init(p) =>
    case Free(p) =>
      var _, _ := FreedRemaining(cfg, f.st, f.d, p);
      if f.d.Multicast? {
        JumpedAllAttached(f.st.groups, f.d, p);
      }
    case Seen(p, mac) =>
    case Report(p, g, now) =>
      if f.d.Multicast? {
        JoinedLeft(cfg, f.st.groups, f.d, p, g, now + cfg.membershipInterval);
      }
    case Expire(e) =>
      if f.d.Multicast? {
        JumpedLeft(f.st.groups.ix, Used(f.st.groups.joined), f.d, e);
      }
    case Decide(frame, now) =>
      StepValid(cfg, f.st, ev);
      ChosenRemaining(cfg, Step(cfg, f.st, ev), frame);
  }

  lemma {:induction false} JumpedAllAttached(gs: Groups, d: Decision, p: PeerId)
    requires p in gs.joined && d.Multicast? && d.it.attached
    ensures JumpedAll(gs, d, p).Multicast? && JumpedAll(gs, d, p).it.attached
    decreases |gs.joined[p]|
  {
    if gs.joined[p] == [] {
    } else {
      var e := G.Entry(p, gs.joined[p][0]);
      WithoutShorter(gs.joined[p], e.group);
      JumpedAllAttached(MakeRoom(gs, p), Jumped(gs.ix.lists, d, e), p);
    }
  }

  lemma {:induction false} UninterruptedOk(cfg: Config, acts: seq<Act>)
    requires cfg.Valid() && FullRun(cfg, acts).Some? && Uninterrupted(cfg, acts)
    ensures DecisionOk(FullRun(cfg, acts).value)
  {
    if acts == [] {
    } else {
      var before, a := acts[..|acts| - 1], acts[|acts| - 1];
      UninterruptedOk(cfg, before);
      var f := FullRun(cfg, before).value;
      if a.Do? {
        MovedOk(cfg, f, a.ev);
      } else if a.Ask? {
        AskedRemaining(cfg, f.st, f.d);
      }
    }
  }

  /**
    However peers and entries come and go between the calls of FrameDecider_NextDestination, in every run in which
    no frame interrupts a multicast decision the next destination can be asked for, and all destinations to come are
    peers that exist.
  */
  lemma DestinationsExist(cfg: Config, acts: seq<Act>, p: PeerId)
    requires cfg.Valid() && FullRun(cfg, acts).Some? && Uninterrupted(cfg, acts)
    ensures var f := FullRun(cfg, acts).value;
            && Can(f, Ask)
            && (p in Remaining(f.st.peers, SigLists(f.st), f.d) ==> p in f.st.peers)
  {
    UninterruptedOk(cfg, acts);
    var f := FullRun(cfg, acts).value;
    if f.d.Multicast? && p in Remaining(f.st.peers, SigLists(f.st), f.d) {
      var left := Left(SigLists(f.st), f.d);
      var k :| 0 <= k < |left| && G.PeersOf(left)[k] == p;
      assert G.SigOk(f.st.groups.ix, G.Sig(f.d.it.at.value.group))
        && G.EntryOk(f.st.groups.ix, Used(f.st.groups.joined), left[k]);
      assert left[k] in left;
    }
  }

  // ----- what an interrupted decision does

  const ONE := Config(1, 1, 0, 0)

  /** 224.0.0.1 */
  const GROUP: Group := 0xE000_0001
  const MEMBER := G.Entry(1, GROUP)
  const TO_GROUP := Frame([0x01, 0x00, 0x5E, 0x00, 0x00, 0x01], false, None)

  /**
    Peer 1 comes, joins the group and goes again while a frame for the group, interrupted by another one, is
    handed out.
  */
  function ExampleAct(n: nat): Act {
    if n == 0 then Do(Init(1))
    else if n == 1 then Do(Report(1, GROUP, 0))
    else if n <= 3 then Do(Decide(TO_GROUP, 0))
    else Do(Event.Free(1))
  }

  function Example(n: nat): Full {
    if n == 0 then Full(Empty(ONE), NoDecision)
    else if n == 1 then Full(State([1], M.Table(1, map[1 := []]), Groups(map[1 := []], map[], G.EMPTY)), NoDecision)
    else if n == 5 then Full(Empty(ONE), Multicast(Iterator(Some(MEMBER), false)))
    else
      var ix := G.Index(map[1 := MEMBER], map[1 := [MEMBER]], {MEMBER});
      Full(State([1], M.Table(1, map[1 := []]), Groups(map[1 := [GROUP]], map[MEMBER := 0], ix)),
           if n == 2 then NoDecision else Multicast(Iterator(Some(MEMBER), n == 3)))
  }

  lemma ExampleComes()
    requires Valid(ONE, Example(0).st)
    ensures Can(Example(0), ExampleAct(0)) && Next(ONE, Example(0), ExampleAct(0)) == Example(1)
  {
    assert PeerInit(Example(0).st, 1) == Example(1).st;
  }

  lemma ExampleJoins()
    requires Valid(ONE, Example(1).st)
    ensures Can(Example(1), ExampleAct(1)) && Next(ONE, Example(1), ExampleAct(1)) == Example(2)
  {
    var gs := Example(1).st.groups;
    assert G.Sig(MEMBER.group) == 1;
    var ix := G.Add(G.EMPTY, MEMBER);
    assert ix.masters == {MEMBER};
    assert ix.tree == map[1 := MEMBER];
    assert ix.lists == map[1 := [MEMBER]];
    assert [] + [GROUP] == [GROUP];
    assert gs.joined[1 := [GROUP]] == map[1 := [GROUP]] && gs.endTimes[MEMBER := 0] == map[MEMBER := 0];
    assert Enter(gs, 1, GROUP, 0) == Example(2).st.groups;
    assert Join(ONE, gs, 1, GROUP, 0) == Example(2).st.groups;
  }

  lemma ExampleDecides()
    requires Valid(ONE, Example(2).st) && Valid(ONE, Example(3).st)
    ensures Can(Example(2), ExampleAct(2)) && Next(ONE, Example(2), ExampleAct(2)) == Example(3)
    ensures Can(Example(3), ExampleAct(3)) && Next(ONE, Example(3), ExampleAct(3)) == Example(4)
  {
    assert TO_GROUP.dest[..3] == MULTICAST && TO_GROUP.dest[2..] == [0x5E, 0x00, 0x00, 0x01];
    assert G.SigOfMac(TO_GROUP.dest) == 1;
  }

  lemma ExampleFrees()
    requires Valid(ONE, Example(4).st)
    ensures Can(Example(4), ExampleAct(4)) && Next(ONE, Example(4), ExampleAct(4)) == Example(5)
  {
    var gs := Example(4).st.groups;
    assert Without([GROUP], GROUP) == [] && Without([MEMBER], MEMBER) == [] && Without([1], 1) == [];
    assert MakeRoom(gs, 1) == Groups(map[1 := []], map[], G.EMPTY);
    assert LeaveAll(gs, 1) == Groups(map[1 := []], map[], G.EMPTY);
    assert JumpedAll(gs, Example(4).d, 1) == Example(4).d;
  }

  lemma FullRunNext(cfg: Config, acts: seq<Act>, a: Act, f: Full)
    requires cfg.Valid() && FullRun(cfg, acts) == Some(f) && Can(f, a)
    ensures FullRun(cfg, Snoc(acts, a)) == Some(Next(cfg, f, a))
  {
    assert Snoc(acts, a)[..|acts|] == acts;
  }

  lemma ExampleStarts() returns (acts: seq<Act>)
    ensures FullRun(ONE, acts) == Some(Example(2))
  {
    acts := [];
    FullRunNext(ONE, acts, ExampleAct(0), Example(0));
    acts := Snoc(acts, ExampleAct(0));
    ExampleComes();
    ExampleJoins();
    FullRunNext(ONE, acts, ExampleAct(1), Example(1));
    acts := Snoc(acts, ExampleAct(1));
  }

  /** A run after which a peer that does not exist is the next destination. */
  lemma InterruptedDecision() returns (acts: seq<Act>)
    ensures FullRun(ONE, acts).Some?
    ensures var f := FullRun(ONE, acts).value; Remaining(f.st.peers, SigLists(f.st), f.d) == [1] && 1 !in f.st.peers
  {
    acts := ExampleStarts();
    ExampleDecides();
    FullRunNext(ONE, acts, ExampleAct(2), Example(2));
    acts := Snoc(acts, ExampleAct(2));
    FullRunNext(ONE, acts, ExampleAct(3), Example(3));
    acts := Snoc(acts, ExampleAct(3));
    ExampleFrees();
    FullRunNext(ONE, acts, ExampleAct(4), Example(4));
    acts := Snoc(acts, ExampleAct(4));
    assert Left(map[], Example(5).d) == [MEMBER] && G.PeersOf([MEMBER]) == [1];
  }
}
