/** Who gets a frame, told by the events of the run alone, for client/FrameDecider.c. */
module FrameDestinations {
  import opened Common
  import opened Lists
  import opened Recency
  import D = FrameDecider
  import M = MacTable
  import G = GroupIndex

  // ----- what a capped list holds, by its history

  /** What was used after x. */
  function Later<T(==)>(ops: seq<Op<T>>, x: T): set<T> {
    set op | op in ops && LastUse(ops, x) < LastUse(ops, op.x) :: op.x
  }

  /** Since x was last used, there were never `max` others that were used after it. */
  predicate Recent<T(==)>(max: nat, ops: seq<Op<T>>, x: T) {
    && ops != [] && 0 < LastUse(ops, x) && |Later(ops, x)| < max
    && (ops[|ops| - 1].x == x || Recent(max, ops[..|ops| - 1], x))
  }

  function Members<T(==)>(l: seq<T>): set<T> {
    set x | x in l
  }

  lemma {:induction false} MembersCount<T>(l: seq<T>)
    ensures |Members(l)| <= |l|
    ensures NoDup(l) ==> |Members(l)| == |l|
  {
    if l == [] {
    } else {
      MembersCount(l[1..]);
      assert Members(l) == Members(l[1..]) + {l[0]};
    }
  }

  lemma {:induction false} UsedInOps<T>(ops: seq<Op<T>>, x: T)
    requires 0 < LastUse(ops, x)
    ensures exists op :: op in ops && op.x == x
  {
    if ops[|ops| - 1].x == x {
    } else {
      UsedInOps(ops[..|ops| - 1], x);
    }
  }

  lemma LaterMeans<T>(ops: seq<Op<T>>, x: T, y: T)
    ensures y in Later(ops, x) <==> LastUse(ops, x) < LastUse(ops, y)
  {
    if LastUse(ops, x) < LastUse(ops, y) {
      UsedInOps(ops, y);
    }
  }

  lemma {:induction false} AfterListOk<T>(max: nat, ops: seq<Op<T>>)
    requires max > 0
    ensures NoDup(After(max, ops)) && |After(max, ops)| <= max
  {
    if ops == [] {
    } else {
      var before, op := ops[..|ops| - 1], ops[|ops| - 1];
      AfterListOk(max, before);
      var rest := Without(After(max, before), op.x);
      WithoutNoDup(After(max, before), op.x);
      AppendNoDup(rest, op.x);
      if rest != [] {
        AppendNoDup(rest[1..], op.x);
      }
    }
  }

  /** What is listed has fewer than `max` behind it. */
  lemma FewLater<T>(max: nat, ops: seq<Op<T>>, x: T)
    requires max > 0 && x in After(max, ops)
    ensures |Later(ops, x)| < max
  {
    var l := After(max, ops);
    AfterListOk(max, ops);
    AfterOrdered(max, ops);
    OrderedUsed(ops, l, x);
    forall y | y in Later(ops, x)
      ensures y in Members(l) - {x}
    {
      LaterMeans(ops, x, y);
      if y !in l {
        MadeRoom(max, ops, y, x);
      }
    }
    MembersCount(l);
    Smaller(Later(ops, x), Members(l) - {x});
  }

  lemma {:induction false} Smaller<T>(a: set<T>, b: set<T>)
    requires a <= b
    ensures |a| <= |b|
  {
    if a == {} {
    } else {
      var x :| x in a;
      Smaller(a - {x}, b - {x});
    }
  }

  /** What makes room for something new has `max` behind it. */
  lemma ManyLater<T>(max: nat, before: seq<Op<T>>, op: Op<T>, x: T)
    requires max > 0 && x in After(max, before) && x != op.x && x !in Apply(max, After(max, before), op)
    ensures |Later(before + [op], x)| >= max
  {
    var ops, rest := before + [op], Without(After(max, before), op.x);
    assert ops[..|before|] == before;
    AfterListOk(max, before);
    AfterOrdered(max, before);
    WithoutNoDup(After(max, before), op.x);
    OrderedWithout(before, After(max, before), op.x);
    OrderedLater(before, op, rest);
    assert x == rest[0] && |rest| == max;
    var late := Members(rest[1..]) + {op.x};
    forall y | y in late
      ensures y in Later(ops, x)
    {
      LastUseBound(before, x);
      LaterMeans(ops, x, y);
    }
    MembersCount(rest[1..]);
    Smaller(late, Later(ops, x));
  }

  /** A capped list in the order of last use holds exactly what was used recently. */
  lemma {:induction false} ListedIffRecent<T>(max: nat, ops: seq<Op<T>>, x: T)
    requires max > 0
    ensures x in After(max, ops) <==> Recent(max, ops, x)
  {
    if ops == [] {
    } else {
      var before, op := ops[..|ops| - 1], ops[|ops| - 1];
      assert ops == before + [op];
      ListedIffRecent(max, before, x);
      if x in After(max, ops) {
        FewLater(max, ops, x);
        AfterOrdered(max, ops);
        OrderedUsed(ops, After(max, ops), x);
      } else if x in After(max, before) && x != op.x {
        ManyLater(max, before, op, x);
      }
    }
  }

  // ----- over whole runs

  /** The peer was made, and has not gone since. */
  predicate Exists(evs: seq<D.Event>, p: PeerId) {
    evs != [] &&
    match evs[|evs| - 1]
    case Init(q) => q == p || Exists(evs[..|evs| - 1], p)
    case Free(q) => q != p && Exists(evs[..|evs| - 1], p)
    case _ => Exists(evs[..|evs| - 1], p)
  }

  /** The peer has the address: it was last seen from this peer, and the peer was not seen with too many since. */
  predicate Has(cfg: D.Config, evs: seq<D.Event>, p: PeerId, mac: Bytes) {
    Exists(evs, p) && Recent(cfg.maxMacs, MacOps(evs, p), mac)
  }

  /** The peer is in the group: it reported it, it did not expire since, and the peer did not report too many since. */
  predicate IsIn(cfg: D.Config, evs: seq<D.Event>, e: D.Entry) {
    Exists(evs, e.peer) && Recent(cfg.maxGroups, GroupOps(evs, e.peer), e.group)
  }

  lemma {:induction false} PeersExist(cfg: D.Config, evs: seq<D.Event>, p: PeerId)
    requires cfg.Valid() && D.Run(cfg, evs).Some?
    ensures p in D.Run(cfg, evs).value.peers <==> Exists(evs, p)
  {
    if evs == [] {
    } else {
      PeersExist(cfg, evs[..|evs| - 1], p);
    }
  }

  lemma OwnsIffHas(cfg: D.Config, evs: seq<D.Event>, p: PeerId, mac: Bytes)
    requires cfg.Valid() && D.Run(cfg, evs).Some?
    ensures D.Owns(D.Run(cfg, evs).value.macs, p, mac) <==> Has(cfg, evs, p, mac)
    ensures Has(cfg, evs, p, mac) ==> SeenLast(evs, p, mac)
  {
    PeersExist(cfg, evs, p);
    ListedIffRecent(cfg.maxMacs, MacOps(evs, p), mac);
    UsedIsSeen(evs, p, mac);
    if Exists(evs, p) {
      ListsOfRun(cfg, evs, p);
    }
  }

  lemma UsedIffIsIn(cfg: D.Config, evs: seq<D.Event>, e: D.Entry)
    requires cfg.Valid() && D.Run(cfg, evs).Some?
    ensures e in D.Used(D.Run(cfg, evs).value.groups.joined) <==> IsIn(cfg, evs, e)
  {
    PeersExist(cfg, evs, e.peer);
    ListedIffRecent(cfg.maxGroups, GroupOps(evs, e.peer), e.group);
    if Exists(evs, e.peer) {
      ListsOfRun(cfg, evs, e.peer);
    }
  }

  lemma {:induction false} OnceEach<T>(l: seq<T>, x: T)
    requires NoDup(l)
    ensures multiset(l)[x] == if x in l then 1 else 0
  {
    if l == [] {
    } else {
      OnceEach(l[1..], x);
      assert l == [l[0]] + l[1..];
      assert multiset(l) == multiset{l[0]} + multiset(l[1..]);
    }
  }

  predicate ToAll(frame: D.Frame) {
    frame.igmp || frame.dest == D.BROADCAST
  }

  /** IGMP, broadcasts and frames for an address that no peer has go once to each peer there is. */
  lemma FloodedOnce(cfg: D.Config, evs: seq<D.Event>, frame: D.Frame, p: PeerId)
    requires cfg.Valid() && D.Run(cfg, evs).Some? && frame.Valid()
    requires ToAll(frame) || (frame.dest[..3] != D.MULTICAST && forall q :: !Has(cfg, evs, q, frame.dest))
    ensures multiset(D.Destinations(D.Run(cfg, evs).value, frame))[p] == if Exists(evs, p) then 1 else 0
  {
    var st := D.Run(cfg, evs).value;
    forall q ensures D.Owns(st.macs, q, frame.dest) <==> Has(cfg, evs, q, frame.dest) {
      OwnsIffHas(cfg, evs, q, frame.dest);
    }
    assert D.Destinations(st, frame) == st.peers;
    OnceEach(st.peers, p);
    PeersExist(cfg, evs, p);
  }

  /** Any other frame for an address that a peer has goes to that peer alone. */
  lemma SentToOwner(cfg: D.Config, evs: seq<D.Event>, frame: D.Frame, p: PeerId)
    requires cfg.Valid() && D.Run(cfg, evs).Some? && frame.Valid()
    requires !ToAll(frame) && frame.dest[..3] != D.MULTICAST && Has(cfg, evs, p, frame.dest)
    ensures D.Destinations(D.Run(cfg, evs).value, frame) == [p] && SeenLast(evs, p, frame.dest)
    ensures forall q :: Has(cfg, evs, q, frame.dest) ==> q == p
  {
    var macs := D.Run(cfg, evs).value.macs;
    OwnsIffHas(cfg, evs, p, frame.dest);
    forall q | D.Owns(macs, q, frame.dest)
      ensures q == p
    {
      assert M.Apart(macs, p, q);
    }
    forall q | Has(cfg, evs, q, frame.dest)
      ensures q == p
    {
      OwnsIffHas(cfg, evs, q, frame.dest);
    }
  }

  /** A multicast frame goes to a peer once for each of its groups that has the frame's signature. */
  lemma SentToMembers(cfg: D.Config, evs: seq<D.Event>, frame: D.Frame, p: PeerId, groups: set<D.Group>)
    requires cfg.Valid() && D.Run(cfg, evs).Some? && frame.Valid()
    requires !ToAll(frame) && frame.dest[..3] == D.MULTICAST
    requires forall g :: g in groups <==> IsIn(cfg, evs, G.Entry(p, g)) && G.Sig(g) == G.SigOfMac(frame.dest)
    ensures multiset(D.Destinations(D.Run(cfg, evs).value, frame))[p] == |groups|
  {
    var sig, used := G.SigOfMac(frame.dest), D.Used(D.Run(cfg, evs).value.groups.joined);
    D.EveryRun(cfg, evs, frame, p, G.Entry(p, 0));
    var members := G.Members(used, sig, p);
    forall g ensures G.Entry(p, g) in members <==> g in groups { UsedIffIsIn(cfg, evs, G.Entry(p, g)); }
    SameCount(members, groups, p);
  }

  lemma {:induction false} SameCount(members: set<D.Entry>, groups: set<D.Group>, p: PeerId)
    requires forall e :: e in members ==> e.peer == p
    requires forall g :: G.Entry(p, g) in members <==> g in groups
    ensures |members| == |groups|
  {
    if members == {} {
      if g :| g in groups {
        assert G.Entry(p, g) in members;
      }
    } else {
      var e :| e in members;
      assert e == G.Entry(p, e.group);
      SameCount(members - {e}, groups - {e.group}, p);
    }
  }

  // ----- when a membership ends

  /** When the membership ends after the event, if it did not end before it and would have ended at `end`. */
  function EndAfter(cfg: D.Config, end: int, ev: D.Event, e: D.Entry): int {
    match ev
    case Report(p, g, now) => if G.Entry(p, g) == e then now + cfg.membershipInterval else end
    case Decide(frame, now) =>
      if frame.query == Some(e.group) && now + cfg.lastMemberQueryTime < end then now + cfg.lastMemberQueryTime else end
    case _ => end
  }

  /** When the peer is no longer in the group, if it does not report it again and nobody asks for it. */
  function EndOf(cfg: D.Config, evs: seq<D.Event>, e: D.Entry): int {
    if evs == [] then 0 else EndAfter(cfg, EndOf(cfg, evs[..|evs| - 1], e), evs[|evs| - 1], e)
  }

  ghost predicate EndsAt(gs: D.Groups, e: D.Entry, end: int) {
    e in gs.endTimes ==> gs.endTimes[e] == end
  }

  lemma EndAfterFree(cfg: D.Config, st: D.State, q: PeerId, e: D.Entry, end: int)
    requires D.Valid(cfg, st) && q in st.peers && EndsAt(st.groups, e, end)
    ensures EndsAt(D.DropPeer(st.groups, q), e, end)
  {
    D.DropPeerOk(cfg, st.groups, q);
  }

  lemma EndAfterReport(cfg: D.Config, st: D.State, q: PeerId, g: D.Group, now: int, e: D.Entry, end: int)
    requires cfg.Valid() && D.Valid(cfg, st) && q in st.peers && EndsAt(st.groups, e, end)
    ensures EndsAt(D.Join(cfg, st.groups, q, g, now + cfg.membershipInterval), e,
                   EndAfter(cfg, end, D.Report(q, g, now), e))
  {
    D.JoinOk(cfg, st.groups, q, g, now + cfg.membershipInterval);
    D.JoinMeans(cfg, st.groups, q, g, now + cfg.membershipInterval, e);
  }

  lemma EndStep(cfg: D.Config, st: D.State, ev: D.Event, e: D.Entry, end: int)
    requires cfg.Valid() && D.Valid(cfg, st) && D.May(st, ev) && EndsAt(st.groups, e, end)
    ensures EndsAt(D.Step(cfg, st, ev).groups, e, EndAfter(cfg, end, ev, e))
  {
    match ev
    case Free(q) => EndAfterFree(cfg, st, q, e, end);
    case Report(q, g, now) => EndAfterReport(cfg, st, q, g, now, e, end);
    case _ =>
  }

  lemma {:induction false} EndOfRun(cfg: D.Config, evs: seq<D.Event>, e: D.Entry)
    requires cfg.Valid() && D.Run(cfg, evs).Some?
    ensures EndsAt(D.Run(cfg, evs).value.groups, e, EndOf(cfg, evs, e))
  {
    if evs == [] {
    } else {
      var before, ev := evs[..|evs| - 1], evs[|evs| - 1];
      EndOfRun(cfg, before, e);
      EndStep(cfg, D.Run(cfg, before).value, ev, e, EndOf(cfg, before, e));
    }
  }

  /**
    In every run, the timer of a membership is set to the membership interval after the last report, or to the last
    member query time after a later query for the group if that is sooner.
  */
  lemma EndsInTime(cfg: D.Config, evs: seq<D.Event>, e: D.Entry)
    requires cfg.Valid() && D.Run(cfg, evs).Some? && IsIn(cfg, evs, e)
    ensures var gs := D.Run(cfg, evs).value.groups; e in gs.endTimes && gs.endTimes[e] == EndOf(cfg, evs, e)
  {
    UsedIffIsIn(cfg, evs, e);
    EndOfRun(cfg, evs, e);
  }
}
