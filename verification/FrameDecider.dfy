/** The frame decider of client/FrameDecider.c, on values: who has which addresses and groups, and who gets a frame. */
module FrameDecider {
  import opened Common
  import opened Lists
  import M = MacTable
  import G = GroupIndex

  type Group = G.Group
  type Entry = G.Entry

  datatype Config = Config(maxMacs: nat, maxGroups: nat, membershipInterval: int, lastMemberQueryTime: int) {
    ghost predicate Valid() {
      maxMacs > 0 && maxGroups > 0
    }
  }

  // ----- groups

  /**
    The groups of each peer, the one joined the longest time ago first, with the timers and the index of their
    entries.
  */
  datatype Groups = Groups(joined: map<PeerId, seq<Group>>, endTimes: map<Entry, int>, ix: G.Index)

  /** The entries in use. */
  ghost function Used(joined: map<PeerId, seq<Group>>): (used: set<Entry>)
    ensures forall e :: e in used <==> e.peer in joined && e.group in joined[e.peer]
  {
    set p, g | p in joined && g in joined[p] :: G.Entry(p, g)
  }

  ghost predicate ListOk(max: nat, joined: map<PeerId, seq<Group>>, p: PeerId) {
    p in joined ==> NoDup(joined[p]) && |joined[p]| <= max
  }

  ghost predicate GroupsOk(cfg: Config, gs: Groups) {
    && (forall p :: ListOk(cfg.maxGroups, gs.joined, p))
    && gs.endTimes.Keys == Used(gs.joined)
    && G.Valid(gs.ix, Used(gs.joined))
  }

  lemma UsedAdd(joined: map<PeerId, seq<Group>>, p: PeerId, g: Group)
    requires p in joined
    ensures Used(joined[p := joined[p] + [g]]) == Used(joined) + {G.Entry(p, g)}
    ensures Used(joined[p := Without(joined[p], g)]) == Used(joined) - {G.Entry(p, g)}
    ensures g in joined[p] ==> Used(joined[p := Without(joined[p], g) + [g]]) == Used(joined)
  {}

  /** A group entry that is in use is given up. */
  function Leave(gs: Groups, e: Entry): Groups
    requires e.peer in gs.joined
  {
    Groups(gs.joined[e.peer := Without(gs.joined[e.peer], e.group)], gs.endTimes - {e}, G.Remove(gs.ix, e))
  }

  lemma LeaveOk(cfg: Config, gs: Groups, e: Entry)
    requires GroupsOk(cfg, gs) && e in Used(gs.joined)
    ensures GroupsOk(cfg, Leave(gs, e))
  {
    G.RemoveValid(gs.ix, Used(gs.joined), e);
    UsedAdd(gs.joined, e.peer, e.group);
    assert ListOk(cfg.maxGroups, gs.joined, e.peer);
    WithoutNoDup(gs.joined[e.peer], e.group);
    forall q ensures ListOk(cfg.maxGroups, Leave(gs, e).joined, q) { assert ListOk(cfg.maxGroups, gs.joined, q); }
  }

  /** Peer p, which is not in the group and has a free entry, joins it. */
  function Enter(gs: Groups, p: PeerId, g: Group, end: int): Groups
    requires p in gs.joined
  {
    Groups(gs.joined[p := gs.joined[p] + [g]], gs.endTimes[G.Entry(p, g) := end], G.Add(gs.ix, G.Entry(p, g)))
  }

  lemma EnterOk(cfg: Config, gs: Groups, p: PeerId, g: Group, end: int)
    requires GroupsOk(cfg, gs) && p in gs.joined && g !in gs.joined[p] && |gs.joined[p]| < cfg.maxGroups
    ensures GroupsOk(cfg, Enter(gs, p, g, end))
  {
    G.AddValid(gs.ix, Used(gs.joined), G.Entry(p, g));
    UsedAdd(gs.joined, p, g);
    assert ListOk(cfg.maxGroups, gs.joined, p);
    AppendNoDup(gs.joined[p], g);
    forall q
      ensures ListOk(cfg.maxGroups, Enter(gs, p, g, end).joined, q)
    {
      assert ListOk(cfg.maxGroups, gs.joined, q);
    }
  }

  /** A group that the peer is in already becomes its newest. */
  function Renew(gs: Groups, p: PeerId, g: Group, end: int): Groups
    requires p in gs.joined
  {
    gs.(joined := gs.joined[p := Without(gs.joined[p], g) + [g]], endTimes := gs.endTimes[G.Entry(p, g) := end])
  }

  lemma RenewOk(cfg: Config, gs: Groups, p: PeerId, g: Group, end: int)
    requires GroupsOk(cfg, gs) && p in gs.joined && g in gs.joined[p]
    ensures GroupsOk(cfg, Renew(gs, p, g, end))
  {
    UsedAdd(gs.joined, p, g);
    assert ListOk(cfg.maxGroups, gs.joined, p);
    WithoutNoDup(gs.joined[p], g);
    AppendNoDup(Without(gs.joined[p], g), g);
    WithoutShorter(gs.joined[p], g);
    forall q
      ensures ListOk(cfg.maxGroups, Renew(gs, p, g, end).joined, q)
    {
      assert ListOk(cfg.maxGroups, gs.joined, q);
    }
  }

  /** The oldest group of p is given up. */
  function MakeRoom(gs: Groups, p: PeerId): Groups
    requires p in gs.joined && gs.joined[p] != []
  {
    Leave(gs, G.Entry(p, gs.joined[p][0]))
  }

  lemma MakeRoomOk(cfg: Config, gs: Groups, p: PeerId)
    requires GroupsOk(cfg, gs) && p in gs.joined && gs.joined[p] != []
    ensures GroupsOk(cfg, MakeRoom(gs, p)) && MakeRoom(gs, p).joined == gs.joined[p := gs.joined[p][1..]]
  {
    LeaveOk(cfg, gs, G.Entry(p, gs.joined[p][0]));
    assert ListOk(cfg.maxGroups, gs.joined, p);
    WithoutAbsent(gs.joined[p][1..], gs.joined[p][0]);
  }

  function JoinNew(cfg: Config, gs: Groups, p: PeerId, g: Group, end: int): Groups
    requires cfg.Valid() && p in gs.joined
  {
    Enter(if |gs.joined[p]| == cfg.maxGroups then MakeRoom(gs, p) else gs, p, g, end)
  }

  /** add_group_to_peer: the peer joins or stays in the group; its oldest group makes room if it has no free entry. */
  function Join(cfg: Config, gs: Groups, p: PeerId, g: Group, end: int): Groups
    requires cfg.Valid() && p in gs.joined
  {
    if g in gs.joined[p] then Renew(gs, p, g, end) else JoinNew(cfg, gs, p, g, end)
  }

  lemma JoinOk(cfg: Config, gs: Groups, p: PeerId, g: Group, end: int)
    requires cfg.Valid() && GroupsOk(cfg, gs) && p in gs.joined
    ensures GroupsOk(cfg, Join(cfg, gs, p, g, end)) && Join(cfg, gs, p, g, end).joined.Keys == gs.joined.Keys
  {
    assert ListOk(cfg.maxGroups, gs.joined, p);
    if g in gs.joined[p] {
      RenewOk(cfg, gs, p, g, end);
    } else if |gs.joined[p]| == cfg.maxGroups {
      MakeRoomOk(cfg, gs, p);
      EnterOk(cfg, MakeRoom(gs, p), p, g, end);
    } else {
      EnterOk(cfg, gs, p, g, end);
    }
  }

  /**
    After a join the peer is in the group, and of its other groups only the oldest can be gone, if it had no
    free entry.
  */
  lemma JoinMeans(cfg: Config, gs: Groups, p: PeerId, g: Group, end: int, e: Entry)
    requires cfg.Valid() && GroupsOk(cfg, gs) && p in gs.joined
    ensures var gs' := Join(cfg, gs, p, g, end);
            && (e in Used(gs'.joined) <==>
                  e == G.Entry(p, g) || (e in Used(gs.joined)
                    && !(e.peer == p && g !in gs.joined[p] && |gs.joined[p]| == cfg.maxGroups
                      && e.group == gs.joined[p][0])))
            && (e in Used(gs'.joined) ==>
                  e in gs'.endTimes && gs'.endTimes[e] == if e == G.Entry(p, g) then end else gs.endTimes[e])
  {
    assert ListOk(cfg.maxGroups, gs.joined, p);
    if g !in gs.joined[p] && |gs.joined[p]| == cfg.maxGroups {
      MakeRoomOk(cfg, gs, p);
    }
  }

  /** Peer p leaves all its groups. */
  function LeaveAll(gs: Groups, p: PeerId): (gs': Groups)
    requires p in gs.joined
    ensures p in gs'.joined
    decreases |gs.joined[p]|
  {
    if gs.joined[p] == [] then gs
    else
      WithoutShorter(gs.joined[p], gs.joined[p][0]);
      LeaveAll(MakeRoom(gs, p), p)
  }

  lemma {:induction false} LeaveAllOk(cfg: Config, gs: Groups, p: PeerId)
    requires GroupsOk(cfg, gs) && p in gs.joined
    ensures GroupsOk(cfg, LeaveAll(gs, p)) && LeaveAll(gs, p).joined == gs.joined[p := []]
    ensures forall e :: e in gs.endTimes && e.peer != p ==>
              e in LeaveAll(gs, p).endTimes && LeaveAll(gs, p).endTimes[e] == gs.endTimes[e]
    decreases |gs.joined[p]|
  {
    if gs.joined[p] == [] {
      assert gs.joined[p := []] == gs.joined;
    } else {
      MakeRoomOk(cfg, gs, p);
      LeaveAllOk(cfg, MakeRoom(gs, p), p);
    }
  }

  /** A new peer, in no group. */
  function AddPeer(gs: Groups, p: PeerId): Groups {
    gs.(joined := gs.joined[p := []])
  }

  function DropPeer(gs: Groups, p: PeerId): Groups
    requires p in gs.joined
  {
    var gs1 := LeaveAll(gs, p);
    gs1.(joined := gs1.joined - {p})
  }

  lemma AddPeerOk(cfg: Config, gs: Groups, p: PeerId)
    requires GroupsOk(cfg, gs) && p !in gs.joined
    ensures GroupsOk(cfg, AddPeer(gs, p))
  {
    assert Used(AddPeer(gs, p).joined) == Used(gs.joined);
    forall q ensures ListOk(cfg.maxGroups, AddPeer(gs, p).joined, q) { assert ListOk(cfg.maxGroups, gs.joined, q); }
  }

  /** A peer that goes leaves its groups, and the other peers are not touched. */
  lemma DropPeerOk(cfg: Config, gs: Groups, p: PeerId)
    requires GroupsOk(cfg, gs) && p in gs.joined
    ensures GroupsOk(cfg, DropPeer(gs, p)) && DropPeer(gs, p).joined == gs.joined - {p}
    ensures forall e :: e in gs.endTimes && e.peer != p ==>
              e in DropPeer(gs, p).endTimes && DropPeer(gs, p).endTimes[e] == gs.endTimes[e]
  {
    LeaveAllOk(cfg, gs, p);
    assert Used(DropPeer(gs, p).joined) == Used(LeaveAll(gs, p).joined);
    forall q ensures ListOk(cfg.maxGroups, DropPeer(gs, p).joined, q) { assert ListOk(cfg.maxGroups, gs.joined, q); }
  }

  /** The entries of group g end at most the last member query time from now. */
  function Lowered(cfg: Config, endTimes: map<Entry, int>, g: Group, now: int): map<Entry, int> {
    map e | e in endTimes ::
      if e.group == g && endTimes[e] > now + cfg.lastMemberQueryTime then now + cfg.lastMemberQueryTime else endTimes[e]
  }

  /** After a query for a group, if there is one. */
  function Queried(cfg: Config, gs: Groups, query: Option<Group>, now: int): Groups {
    if query.None? then gs else gs.(endTimes := Lowered(cfg, gs.endTimes, query.value, now))
  }

  // ----- decisions

  datatype State = State(peers: seq<PeerId>, macs: M.Table, groups: Groups)

  function Empty(cfg: Config): State {
    State([], M.Table(cfg.maxMacs, map[]), Groups(map[], map[], G.EMPTY))
  }

  ghost predicate PeersOk(peers: seq<PeerId>, macs: set<PeerId>, groups: set<PeerId>) {
    NoDup(peers) && (forall p :: p in peers <==> p in macs) && macs == groups
  }

  lemma PeersAdded(peers: seq<PeerId>, macs: set<PeerId>, groups: set<PeerId>, p: PeerId)
    requires PeersOk(peers, macs, groups) && p !in peers
    ensures PeersOk(peers + [p], macs + {p}, groups + {p})
  {
    AppendNoDup(peers, p);
  }

  lemma PeersRemoved(peers: seq<PeerId>, macs: set<PeerId>, groups: set<PeerId>, p: PeerId)
    requires PeersOk(peers, macs, groups)
    ensures PeersOk(Without(peers, p), macs - {p}, groups - {p})
  {
    WithoutNoDup(peers, p);
  }

  ghost predicate Valid(cfg: Config, st: State) {
    && PeersOk(st.peers, st.macs.used.Keys, st.groups.joined.Keys)
    && st.macs.max == cfg.maxMacs && M.Valid(st.macs)
    && GroupsOk(cfg, st.groups)
  }

  /** What the decider sees of a frame from the device: where it goes, whether it is IGMP, and the group it queries. */
  datatype Frame = Frame(dest: Bytes, igmp: bool, query: Option<Group>) {
    ghost predicate Valid() {
      |dest| == 6
    }
  }

  const BROADCAST: Bytes := [0xFF, 0xFF, 0xFF, 0xFF, 0xFF, 0xFF]
  const MULTICAST: Bytes := [0x01, 0x00, 0x5E]

  /**
    Everyone gets broadcasts, IGMP and what is for an unknown address; a multicast frame goes to the entries
    with its signature.
  */
  ghost function Destinations(st: State, frame: Frame): seq<PeerId>
    requires frame.Valid()
  {
    if frame.igmp || frame.dest == BROADCAST then st.peers
    else if frame.dest[..3] == MULTICAST then G.Destinations(st.groups.ix, G.SigOfMac(frame.dest))
    else if exists p :: Owns(st.macs, p, frame.dest) then var p :| Owns(st.macs, p, frame.dest); [p]
    else st.peers
  }

  predicate Owns(macs: M.Table, p: PeerId, mac: Bytes) {
    p in macs.used && mac in macs.used[p]
  }

  // ----- whole runs

  datatype Event =
    | Init(p: PeerId) | Free(p: PeerId)
    | Seen(p: PeerId, mac: Bytes)               // a frame from peer p has this source address
    | Report(p: PeerId, g: Group, now: int)     // peer p reports that it is in group g
    | Expire(e: Entry)                          // the timer of an entry fires
    | Decide(frame: Frame, now: int)            // the device has a frame

  ghost predicate May(st: State, ev: Event) {
    match ev
    case Init(p) => p !in st.peers
    case Free(p) => p in st.peers
    case Seen(p, mac) => p in st.peers
    case Report(p, g, now) => p in st.peers
    case Expire(e) => e in Used(st.groups.joined)
    case Decide(frame, now) => frame.Valid()
  }

  function PeerInit(st: State, p: PeerId): State {
    State(st.peers + [p], M.Learn(st.macs, p), AddPeer(st.groups, p))
  }

  function PeerFree(st: State, p: PeerId): State
    requires p in st.groups.joined
  {
    State(Without(st.peers, p), M.Forget(st.macs, p), DropPeer(st.groups, p))
  }

  function Step(cfg: Config, st: State, ev: Event): State
    requires cfg.Valid() && Valid(cfg, st) && May(st, ev)
  {
    match ev
    case Init(p) => PeerInit(st, p)
    case Free(p) => PeerFree(st, p)
    case Seen(p, mac) => st.(macs := M.Sight(st.macs, p, mac))
    case Report(p, g, now) => st.(groups := Join(cfg, st.groups, p, g, now + cfg.membershipInterval))
    case Expire(e) => st.(groups := Leave(st.groups, e))
    case Decide(frame, now) => st.(groups := Queried(cfg, st.groups, frame.query, now))
  }

  lemma PeerInitValid(cfg: Config, st: State, p: PeerId)
    requires Valid(cfg, st) && p !in st.peers
    ensures Valid(cfg, PeerInit(st, p))
  {
    PeersAdded(st.peers, st.macs.used.Keys, st.groups.joined.Keys, p);
    M.LearnValid(st.macs, p);
    AddPeerOk(cfg, st.groups, p);
  }

  lemma PeerFreeValid(cfg: Config, st: State, p: PeerId)
    requires Valid(cfg, st) && p in st.peers
    ensures Valid(cfg, PeerFree(st, p))
  {
    PeersRemoved(st.peers, st.macs.used.Keys, st.groups.joined.Keys, p);
    M.ForgetValid(st.macs, p);
    DropPeerOk(cfg, st.groups, p);
  }

  lemma StepValid(cfg: Config, st: State, ev: Event)
    requires cfg.Valid() && Valid(cfg, st) && May(st, ev)
    ensures Valid(cfg, Step(cfg, st, ev))
  {
    match ev
    case Init(p) => PeerInitValid(cfg, st, p);
    case Free(p) => PeerFreeValid(cfg, st, p);
    case Seen(p, mac) => M.SightValid(st.macs, p, mac);
    case Report(p, g, now) => JoinOk(cfg, st.groups, p, g, now + cfg.membershipInterval);
    case Expire(e) => LeaveOk(cfg, st.groups, e);
    case _ =>
  }

  /** The state after a run in which every event was one that may happen. */
  ghost function Run(cfg: Config, evs: seq<Event>): (st: Option<State>)
    requires cfg.Valid()
    ensures st.Some? ==> Valid(cfg, st.value)
  {
    if evs == [] then Some(Empty(cfg))
    else
      var st, ev := Run(cfg, evs[..|evs| - 1]), evs[|evs| - 1];
      if st.None? || !May(st.value, ev) then None
      else
        StepValid(cfg, st.value, ev);
        Some(Step(cfg, st.value, ev))
  }

  /** m is an entry in use with the same signature as e. */
  ghost predicate SameSig(used: set<Entry>, e: Entry, m: Entry) {
    m in used && G.Sig(m.group) == G.Sig(e.group)
  }

  lemma OneMaster(ix: G.Index, used: set<Entry>, e: Entry)
    requires G.Valid(ix, used) && e in used
    ensures exists m :: m in ix.masters && SameSig(used, e, m)
              && forall n :: n in ix.masters && SameSig(used, e, n) ==> n == m
  {
    var sig := G.Sig(e.group);
    assert G.EntryOk(ix, used, e) && G.SigOk(ix, sig);
    var m := ix.tree[sig];
    assert G.EntryOk(ix, used, m) && SameSig(used, e, m);
    forall n | n in ix.masters && SameSig(used, e, n)
      ensures n == m
    {
      assert G.EntryOk(ix, used, n);
    }
  }

  /**
    In every reachable state, each signature with entries in use has exactly one master, and a multicast
    frame goes to each peer as many times as the peer has entries in use with the frame's signature.
  */
  lemma EveryRun(cfg: Config, evs: seq<Event>, frame: Frame, p: PeerId, e: Entry)
    requires cfg.Valid() && Run(cfg, evs).Some? && frame.Valid()
    ensures var st := Run(cfg, evs).value;
            var used, masters := Used(st.groups.joined), st.groups.ix.masters;
            && (e in used ==>
                  exists m :: m in masters && SameSig(used, e, m)
                    && forall n :: n in masters && SameSig(used, e, n) ==> n == m)
            && (!frame.igmp && frame.dest[..3] == MULTICAST ==>
                  multiset(Destinations(st, frame))[p] == |G.Members(used, G.SigOfMac(frame.dest), p)|)
  {
    var st := Run(cfg, evs).value;
    var used := Used(st.groups.joined);
    if e in used {
      OneMaster(st.groups.ix, used, e);
    }
    if !frame.igmp && frame.dest[..3] == MULTICAST {
      assert frame.dest[0] == frame.dest[..3][0];
      G.OncePerEntry(st.groups.ix, used, G.SigOfMac(frame.dest), p);
    }
  }

  // ----- a peer that gets a frame twice

  /** 224.0.0.1 and 225.0.0.1 have one signature. */
  const ONE_GROUP: Group := 0xE000_0001
  const OTHER_GROUP: Group := 0xE100_0001
  const TO_BOTH := Frame([0x01, 0x00, 0x5E, 0x00, 0x00, 0x01], false, None)

  lemma RunSnoc(cfg: Config, evs: seq<Event>, st: State, ev: Event)
    requires cfg.Valid() && Valid(cfg, st) && Run(cfg, evs) == Some(st) && May(st, ev)
    ensures Run(cfg, Snoc(evs, ev)) == Some(Step(cfg, st, ev)) && Valid(cfg, Step(cfg, st, ev))
  {
    assert Snoc(evs, ev)[..|evs|] == evs;
    StepValid(cfg, st, ev);
  }

  /** A run after which peer p is in these groups, and nobody else in any. */
  ghost predicate InGroups(cfg: Config, evs: seq<Event>, st: State, p: PeerId, gs: seq<Group>)
    requires cfg.Valid()
  {
    && Run(cfg, evs) == Some(st) && Valid(cfg, st) && p in st.peers && p in st.groups.joined
      && st.groups.joined[p] == gs
    && forall e :: e in Used(st.groups.joined) <==> e.peer == p && e.group in gs
  }

  lemma InNone(cfg: Config, p: PeerId) returns (evs: seq<Event>, st: State)
    requires cfg.Valid()
    ensures InGroups(cfg, evs, st, p, [])
  {
    st := Step(cfg, Empty(cfg), Init(p));
    RunSnoc(cfg, [], Empty(cfg), Init(p));
    evs := Snoc([], Init(p));
  }

  /** It joins another one. */
  lemma InOneMore(cfg: Config, evs: seq<Event>, st: State, p: PeerId, gs: seq<Group>, g: Group)
      returns (evs': seq<Event>, st': State)
    requires cfg.Valid() && InGroups(cfg, evs, st, p, gs) && |gs| < cfg.maxGroups && g !in gs
    ensures InGroups(cfg, evs', st', p, gs + [g])
  {
    st' := Step(cfg, st, Report(p, g, 0));
    RunSnoc(cfg, evs, st, Report(p, g, 0));
    evs' := Snoc(evs, Report(p, g, 0));
    forall e
      ensures e in Used(st'.groups.joined) <==> e.peer == p && e.group in gs + [g]
    {
      JoinMeans(cfg, st.groups, p, g, cfg.membershipInterval, e);
    }
  }

  /** A peer that joins two groups with one signature gets a frame for either of them twice. */
  lemma TwoGroupsTwoFrames(cfg: Config, p: PeerId) returns (evs: seq<Event>)
    requires cfg.Valid() && cfg.maxGroups >= 2
    ensures Run(cfg, evs).Some? && multiset(Destinations(Run(cfg, evs).value, TO_BOTH))[p] == 2
  {
    var st;
    evs, st := InNone(cfg, p);
    evs, st := InOneMore(cfg, evs, st, p, [], ONE_GROUP);
    evs, st := InOneMore(cfg, evs, st, p, [] + [ONE_GROUP], OTHER_GROUP);
    TwiceForBoth(cfg, evs, st, p);
  }

  lemma TwiceForBoth(cfg: Config, evs: seq<Event>, st: State, p: PeerId)
    requires cfg.Valid() && InGroups(cfg, evs, st, p, [] + [ONE_GROUP] + [OTHER_GROUP])
    ensures multiset(Destinations(st, TO_BOTH))[p] == 2
  {
    BothSigs();
    TwoMembers(Used(st.groups.joined), p);
    G.OncePerEntry(st.groups.ix, Used(st.groups.joined), 1, p);
  }

  lemma BothSigs()
    ensures TO_BOTH.dest[..3] == MULTICAST && G.SigOfMac(TO_BOTH.dest) == 1
    ensures G.Sig(ONE_GROUP) == 1 == G.Sig(OTHER_GROUP) && TO_BOTH.dest != BROADCAST
  {
    assert TO_BOTH.dest[2..] == [0x5E, 0x00, 0x00, 0x01];
    assert TO_BOTH.dest[0] != BROADCAST[0];
  }

  lemma TwoMembers(used: set<Entry>, p: PeerId)
    requires forall e :: e in used <==> e.peer == p && e.group in [] + [ONE_GROUP] + [OTHER_GROUP]
    ensures |G.Members(used, 1, p)| == 2
  {
    assert G.Members(used, 1, p) == {G.Entry(p, ONE_GROUP), G.Entry(p, OTHER_GROUP)};
  }
}
