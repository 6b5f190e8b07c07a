/**
  Capped lists that are kept in the order of last use, as client/FrameDecider.c keeps the addresses and
  the groups of a peer: what their order means over whole histories.
*/
module Recency {
  import opened Common
  import opened Lists
  import M = MacTable
  import G = GroupIndex
  import D = FrameDecider

  /** A member is used, or taken away by something else. */
  datatype Op<T> = Touch(x: T) | Drop(x: T)

  /** The oldest member goes if a new one is used and there is no room. */
  function Apply<T(==)>(max: nat, l: seq<T>, op: Op<T>): seq<T> {
    var rest := Without(l, op.x);
    if op.Drop? then rest
    else Newest(max, rest, op.x)
  }

  function After<T(==)>(max: nat, ops: seq<Op<T>>): seq<T> {
    if ops == [] then [] else Apply(max, After(max, ops[..|ops| - 1]), ops[|ops| - 1])
  }

  /** When x was last used, counted from 1; 0 if it was not, or was taken away since. */
  function LastUse<T(==)>(ops: seq<Op<T>>, x: T): nat {
    if ops == [] then 0
    else if ops[|ops| - 1].x == x then (if ops[|ops| - 1].Touch? then |ops| else 0)
    else LastUse(ops[..|ops| - 1], x)
  }

  lemma {:induction false} LastUseBound<T>(ops: seq<Op<T>>, x: T)
    ensures LastUse(ops, x) <= |ops|
  {
    if ops == [] || ops[|ops| - 1].x == x {
    } else {
      LastUseBound(ops[..|ops| - 1], x);
    }
  }

  /** Every member was used, and each one before those behind it. */
  ghost predicate Ordered<T>(ops: seq<Op<T>>, l: seq<T>) {
    l == [] || (0 < LastUse(ops, l[0]) && (forall y :: y in l[1..] ==> LastUse(ops, l[0]) < LastUse(ops, y))
      && Ordered(ops, l[1..]))
  }

  lemma {:induction false} OrderedWithout<T>(ops: seq<Op<T>>, l: seq<T>, x: T)
    requires Ordered(ops, l)
    ensures Ordered(ops, Without(l, x))
  {
    if l == [] {
    } else {
      OrderedWithout(ops, l[1..], x);
      var w := Without(l[1..], x);
      assert ([l[0]] + w)[1..] == w;
    }
  }

  /** A new operation does not change when the members it is not about were last used. */
  lemma {:induction false} OrderedLater<T>(ops: seq<Op<T>>, op: Op<T>, l: seq<T>)
    requires Ordered(ops, l) && op.x !in l
    ensures Ordered(ops + [op], l)
  {
    assert (ops + [op])[..|ops|] == ops;
    if l == [] {
    } else {
      OrderedLater(ops, op, l[1..]);
      forall y | y in l[1..]
        ensures LastUse(ops + [op], l[0]) < LastUse(ops + [op], y)
      {
        assert y in l;
      }
    }
  }

  lemma {:induction false} OrderedAppend<T>(ops: seq<Op<T>>, l: seq<T>, x: T)
    requires Ordered(ops, l) && 0 < LastUse(ops, x) && forall y :: y in l ==> LastUse(ops, y) < LastUse(ops, x)
    ensures Ordered(ops, l + [x])
  {
    if l == [] {
      assert l + [x] == [x] && [x][1..] == [];
    } else {
      assert (l + [x])[0] == l[0] && (l + [x])[1..] == l[1..] + [x];
      OrderedAppend(ops, l[1..], x);
    }
  }

  lemma ApplyOrdered<T>(max: nat, ops: seq<Op<T>>, op: Op<T>, l: seq<T>)
    requires Ordered(ops, l)
    ensures Ordered(ops + [op], Apply(max, l, op))
  {
    var rest := Without(l, op.x);
    OrderedWithout(ops, l, op.x);
    OrderedLater(ops, op, rest);
    var kept := if rest != [] && |rest| == max then rest[1..] else rest;
    assert (ops + [op])[..|ops|] == ops;
    if op.Touch? {
      forall y | y in kept
        ensures LastUse(ops + [op], y) < LastUse(ops + [op], op.x)
      {
        LastUseBound(ops, y);
      }
      OrderedAppend(ops + [op], kept, op.x);
    }
  }

  /** Whatever was used and taken away, the list is in the order of last use. */
  lemma {:induction false} AfterOrdered<T>(max: nat, ops: seq<Op<T>>)
    ensures Ordered(ops, After(max, ops))
  {
    if ops == [] {
    } else {
      var n := |ops| - 1;
      AfterOrdered(max, ops[..n]);
      ApplyOrdered(max, ops[..n], ops[n], After(max, ops[..n]));
      assert ops == ops[..n] + [ops[n]];
    }
  }

  /** What made room for others was not used for longer than everything that is still listed. */
  lemma {:induction false} MadeRoom<T>(max: nat, ops: seq<Op<T>>, x: T, y: T)
    requires x !in After(max, ops) && 0 < LastUse(ops, x) && y in After(max, ops)
    ensures LastUse(ops, x) < LastUse(ops, y)
    decreases |ops|
  {
    var before, op := ops[..|ops| - 1], ops[|ops| - 1];
    var l := After(max, before);
    if y == op.x {
      LastUseBound(before, x);
    } else if x in l {
      AfterOrdered(max, before);
      OrderedWithout(before, l, op.x);
    } else {
      MadeRoom(max, before, x, y);
    }
  }

  // ----- the lists of the frame decider are such lists

  /** To the peer it was seen from, an address is used; from all others it is taken away. */
  lemma SightIsUse(t: M.Table, p: PeerId, mac: Bytes, q: PeerId)
    requires p in t.used && q in t.used
    ensures M.Sight(t, p, mac).used[q] == Apply(t.max, t.used[q], if q == p then Touch(mac) else Drop(mac))
  {}

  /** A report of a group is a use of it, and its expiry takes it away. */
  lemma JoinIsUse(cfg: D.Config, gs: D.Groups, p: PeerId, g: D.Group, end: int, q: PeerId)
    requires cfg.Valid() && D.GroupsOk(cfg, gs) && p in gs.joined && q in gs.joined
    ensures q in D.Join(cfg, gs, p, g, end).joined
    ensures D.Join(cfg, gs, p, g, end).joined[q] == if q == p then Apply(cfg.maxGroups, gs.joined[q], Touch(g))
            else gs.joined[q]
  {
    assert D.ListOk(cfg.maxGroups, gs.joined, p);
    var l := gs.joined[p];
    if g in l {
      WithoutShorter(l, g);
    } else {
      WithoutAbsent(l, g);
      if |l| == cfg.maxGroups {
        D.MakeRoomOk(cfg, gs, p);
      }
    }
  }

  lemma LeaveIsDrop(cfg: D.Config, gs: D.Groups, e: D.Entry, q: PeerId)
    requires e.peer in gs.joined && q in gs.joined
    ensures q in D.Leave(gs, e).joined
    ensures D.Leave(gs, e).joined[q] == if q == e.peer then Apply(cfg.maxGroups, gs.joined[q], Drop(e.group))
            else gs.joined[q]
  {}

  // ----- over whole runs

  /** What happened to the list of addresses of peer p since it was made. */
  function MacOps(evs: seq<D.Event>, p: PeerId): seq<Op<Bytes>> {
    if evs == [] then []
    else
      var before, ev := MacOps(evs[..|evs| - 1], p), evs[|evs| - 1];
      match ev
      case Init(q) => if q == p then [] else before
      case Seen(q, mac) => before + [if q == p then Touch(mac) else Drop(mac)]
      case _ => before
  }

  /** What happened to the list of groups of peer p since it was made. */
  function GroupOps(evs: seq<D.Event>, p: PeerId): seq<Op<D.Group>> {
    if evs == [] then []
    else
      var before, ev := GroupOps(evs[..|evs| - 1], p), evs[|evs| - 1];
      match ev
      case Init(q) => if q == p then [] else before
      case Report(q, g, _) => if q == p then before + [Touch(g)] else before
      case Expire(e) => if e.peer == p then before + [Drop(e.group)] else before
      case _ => before
  }

  lemma AfterNext<T>(max: nat, ops: seq<Op<T>>, op: Op<T>)
    ensures After(max, ops + [op]) == Apply(max, After(max, ops), op)
  {
    assert (ops + [op])[..|ops|] == ops;
  }

  /** In every run, the addresses and the groups of a peer are what its history left. */
  lemma {:induction false} ListsOfRun(cfg: D.Config, evs: seq<D.Event>, p: PeerId)
    requires cfg.Valid() && D.Run(cfg, evs).Some? && p in D.Run(cfg, evs).value.peers
    ensures var st := D.Run(cfg, evs).value;
            && p in st.macs.used && st.macs.used[p] == After(cfg.maxMacs, MacOps(evs, p))
            && p in st.groups.joined && st.groups.joined[p] == After(cfg.maxGroups, GroupOps(evs, p))
  {
    var before, ev := evs[..|evs| - 1], evs[|evs| - 1];
    var st := D.Run(cfg, before).value;
    if ev == D.Init(p) {
    } else {
      ListsOfRun(cfg, before, p);
      match ev
      case Init(q) =>
      case Free(q) => D.DropPeerOk(cfg, st.groups, q);
      case Seen(q, mac) =>
        SightIsUse(st.macs, q, mac, p);
        AfterNext(cfg.maxMacs, MacOps(before, p), if q == p then Touch(mac) else Drop(mac));
      case Report(q, g, now) =>
        JoinIsUse(cfg, st.groups, q, g, now + cfg.membershipInterval, p);
        AfterNext(cfg.maxGroups, GroupOps(before, p), Touch(g));
      case Expire(e) =>
        LeaveIsDrop(cfg, st.groups, e, p);
        AfterNext(cfg.maxGroups, GroupOps(before, p), Drop(e.group));
      case Decide(_, _) =>
    }
  }

  /**
    In every run, the addresses of a peer are in the order in which they were last seen, and one that was seen, was
    not seen elsewhere since and is not known any more was not seen for longer than all that are known.
  */
  lemma OldestAddressGoes(cfg: D.Config, evs: seq<D.Event>, p: PeerId, x: Bytes, y: Bytes)
    requires cfg.Valid() && D.Run(cfg, evs).Some? && p in D.Run(cfg, evs).value.peers
    ensures var macs, ops := D.Run(cfg, evs).value.macs, MacOps(evs, p);
            && p in macs.used && Ordered(ops, macs.used[p])
            && (x !in macs.used[p] && 0 < LastUse(ops, x) && y in macs.used[p] ==> LastUse(ops, x) < LastUse(ops, y))
  {
    var ops := MacOps(evs, p);
    ListsOfRun(cfg, evs, p);
    AfterOrdered(cfg.maxMacs, ops);
    if x !in After(cfg.maxMacs, ops) && 0 < LastUse(ops, x) && y in After(cfg.maxMacs, ops) {
      MadeRoom(cfg.maxMacs, ops, x, y);
    }
  }

  /** The same for the groups of a peer, which are used by reports and taken away when they expire. */
  lemma OldestGroupGoes(cfg: D.Config, evs: seq<D.Event>, p: PeerId, x: D.Group, y: D.Group)
    requires cfg.Valid() && D.Run(cfg, evs).Some? && p in D.Run(cfg, evs).value.peers
    ensures var joined, ops := D.Run(cfg, evs).value.groups.joined, GroupOps(evs, p);
            && p in joined && Ordered(ops, joined[p])
            && (x !in joined[p] && 0 < LastUse(ops, x) && y in joined[p] ==> LastUse(ops, x) < LastUse(ops, y))
  {
    var ops := GroupOps(evs, p);
    ListsOfRun(cfg, evs, p);
    AfterOrdered(cfg.maxGroups, ops);
    if x !in After(cfg.maxGroups, ops) && 0 < LastUse(ops, x) && y in After(cfg.maxGroups, ops) {
      MadeRoom(cfg.maxGroups, ops, x, y);
    }
  }

  // ----- who owns an address

  /** The address was last seen from peer p, and after the peer was made. */
  predicate SeenLast(evs: seq<D.Event>, p: PeerId, mac: Bytes) {
    evs != [] &&
    match evs[|evs| - 1]
    case Seen(q, m) => if m == mac then q == p else SeenLast(evs[..|evs| - 1], p, mac)
    case Init(q) => q != p && SeenLast(evs[..|evs| - 1], p, mac)
    case _ => SeenLast(evs[..|evs| - 1], p, mac)
  }

  lemma {:induction false} UsedIsSeen(evs: seq<D.Event>, p: PeerId, mac: Bytes)
    ensures 0 < LastUse(MacOps(evs, p), mac) <==> SeenLast(evs, p, mac)
  {
    if evs == [] {
    } else {
      var before, ev := evs[..|evs| - 1], evs[|evs| - 1];
      UsedIsSeen(before, p, mac);
      if ev.Seen? {
        var ops := MacOps(before, p);
        assert (ops + [if ev.p == p then Touch(ev.mac) else Drop(ev.mac)])[..|ops|] == ops;
      }
    }
  }

  lemma {:induction false} OrderedUsed<T>(ops: seq<Op<T>>, l: seq<T>, x: T)
    requires Ordered(ops, l) && x in l
    ensures 0 < LastUse(ops, x)
  {
    if l[0] == x {
    } else {
      OrderedUsed(ops, l[1..], x);
    }
  }

  /**
    In every run, a peer owns an address, and gets the frames for it alone, if and only if the address was last seen
    from it, since it was made, and not before all the addresses that the peer has.
  */
  lemma OwnsIffSeenLast(cfg: D.Config, evs: seq<D.Event>, p: PeerId, mac: Bytes)
    requires cfg.Valid() && D.Run(cfg, evs).Some? && p in D.Run(cfg, evs).value.peers
    ensures var macs, ops := D.Run(cfg, evs).value.macs, MacOps(evs, p);
            && p in macs.used
            && (D.Owns(macs, p, mac) <==>
                  SeenLast(evs, p, mac) && exists y :: y in macs.used[p] && LastUse(ops, y) <= LastUse(ops, mac))
  {
    var st, ops := D.Run(cfg, evs).value, MacOps(evs, p);
    ListsOfRun(cfg, evs, p);
    AfterOrdered(cfg.maxMacs, ops);
    UsedIsSeen(evs, p, mac);
    if D.Owns(st.macs, p, mac) {
      OrderedUsed(ops, st.macs.used[p], mac);
    } else if SeenLast(evs, p, mac) {
      forall y | y in st.macs.used[p]
        ensures LastUse(ops, mac) < LastUse(ops, y)
      {
        MadeRoom(cfg.maxMacs, ops, mac, y);
      }
    }
  }
}
