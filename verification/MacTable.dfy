/**
  The learned MAC addresses of client/FrameDecider.c: for every peer, the addresses last seen from it, oldest
  first.
*/
module MacTable {
  import opened Common
  import opened Lists

  type Mac = Bytes

  /** At most `max` addresses for each peer. */
  datatype Table = Table(max: nat, used: map<PeerId, seq<Mac>>)

  ghost predicate ListOk(t: Table, p: PeerId) {
    p in t.used ==> NoDup(t.used[p]) && |t.used[p]| <= t.max
  }

  ghost predicate Apart(t: Table, p: PeerId, q: PeerId) {
    p in t.used && q in t.used && p != q ==> forall mac :: mac in t.used[p] ==> mac !in t.used[q]
  }

  /** Nothing is listed twice, neither with one peer nor with two. */
  ghost predicate Valid(t: Table) {
    (forall p :: ListOk(t, p)) && (forall p, q :: Apart(t, p, q))
  }

  /** No peer has the address. */
  function TakenAway(used: map<PeerId, seq<Mac>>, mac: Mac): map<PeerId, seq<Mac>> {
    map q | q in used :: Without(used[q], mac)
  }

  /** Peer p is seen with address mac: no other peer has it any more, and it is p's newest. */
  function Sight(t: Table, p: PeerId, mac: Mac): Table
    requires p in t.used
  {
    var rest := TakenAway(t.used, mac);
    t.(used := rest[p := Newest(t.max, rest[p], mac)])
  }

  /** A new peer, of which no address was seen. */
  function Learn(t: Table, p: PeerId): Table {
    t.(used := t.used[p := []])
  }

  function Forget(t: Table, p: PeerId): Table {
    t.(used := t.used - {p})
  }

  lemma LearnValid(t: Table, p: PeerId)
    requires Valid(t) && p !in t.used
    ensures Valid(Learn(t, p))
  {
    var t' := Learn(t, p);
    forall a ensures ListOk(t', a) { assert ListOk(t, a); }
    forall a, b ensures Apart(t', a, b) { assert Apart(t, a, b); }
  }

  lemma ForgetValid(t: Table, p: PeerId)
    requires Valid(t)
    ensures Valid(Forget(t, p))
  {
    var t' := Forget(t, p);
    forall a ensures ListOk(t', a) { assert ListOk(t, a); }
    forall a, b ensures Apart(t', a, b) { assert Apart(t, a, b); }
  }

  ghost predicate Found(tree: map<Mac, PeerId>, used: map<PeerId, seq<Mac>>, mac: Mac) {
    mac in tree ==> tree[mac] in used && mac in used[tree[mac]]
  }

  ghost predicate Listed(tree: map<Mac, PeerId>, used: map<PeerId, seq<Mac>>, p: PeerId) {
    p in used ==> forall mac :: mac in used[p] ==> mac in tree && tree[mac] == p
  }

  /** The tree finds the peer of every address. */
  ghost predicate TreeOk(tree: map<Mac, PeerId>, used: map<PeerId, seq<Mac>>) {
    (forall mac :: Found(tree, used, mac)) && (forall p :: Listed(tree, used, p))
  }

  lemma NewestOk(max: nat, l: seq<Mac>, mac: Mac)
    requires NoDup(l) && |l| <= max && max > 0 && mac !in l
    ensures NoDup(Newest(max, l, mac)) && |Newest(max, l, mac)| <= max
    ensures forall m :: m in Newest(max, l, mac) ==> m == mac || m in l
    ensures var r := Newest(max, l, mac); r != [] && r[|r| - 1] == mac
    ensures l != [] && |l| == max ==>
              l[0] !in Newest(max, l, mac) && forall m :: m in l && m != l[0] ==> m in Newest(max, l, mac)
    ensures |l| < max ==> forall m :: m in l ==> m in Newest(max, l, mac)
  {
    var kept := if l != [] && |l| == max then l[1..] else l;
    AppendNoDup(kept, mac);
    assert forall m :: m in l && l != [] && m != l[0] ==> m in l[1..];
  }

  lemma SightValid(t: Table, p: PeerId, mac: Mac)
    requires Valid(t) && t.max > 0 && p in t.used
    ensures Valid(Sight(t, p, mac))
  {
    var t' := Sight(t, p, mac);
    assert ListOk(t, p);
    WithoutNoDup(t.used[p], mac);
    NewestOk(t.max, Without(t.used[p], mac), mac);
    forall a
      ensures ListOk(t', a)
    {
      assert ListOk(t, a);
      if a in t.used {
        WithoutNoDup(t.used[a], mac);
      }
    }
    forall a, b ensures Apart(t', a, b) { assert Apart(t, a, b); }
  }

  /**
    After a sighting the address belongs to that peer alone; of the other addresses only the oldest of the
    peer can be gone, and only if the peer had no free entry.
  */
  lemma SightMeans(t: Table, p: PeerId, mac: Mac, q: PeerId, m: Mac)
    requires Valid(t) && t.max > 0 && p in t.used && q in t.used
    ensures var t' := Sight(t, p, mac);
            m in t'.used[q] <==>
              if m == mac then q == p
              else m in t.used[q] && !(q == p && mac !in t.used[p] && |t.used[p]| == t.max && m == t.used[p][0])
  {
    var l := Without(t.used[p], mac);
    assert ListOk(t, p);
    WithoutNoDup(t.used[p], mac);
    NewestOk(t.max, l, mac);
    if mac in t.used[p] {
      WithoutShorter(t.used[p], mac);
    } else {
      WithoutAbsent(t.used[p], mac);
    }
  }

  // ----- what the tree has to do

  /** Only peer q has the address, so only its list changes when the address is taken away. */
  lemma OnlyOwner(t: Table, tree: map<Mac, PeerId>, q: PeerId, mac: Mac)
    requires TreeOk(tree, t.used) && q in t.used && (mac in tree ==> tree[mac] == q)
    ensures TakenAway(t.used, mac) == t.used[q := Without(t.used[q], mac)]
  {
    forall a | a in t.used && a != q
      ensures Without(t.used[a], mac) == t.used[a]
    {
      assert Listed(tree, t.used, a);
      WithoutAbsent(t.used[a], mac);
    }
  }

  lemma RemoveTree(used: map<PeerId, seq<Mac>>, tree: map<Mac, PeerId>, mac: Mac)
    requires TreeOk(tree, used) && mac in tree && tree[mac] in used
    ensures TreeOk(tree - {mac}, used[tree[mac] := Without(used[tree[mac]], mac)])
  {
    var used' := used[tree[mac] := Without(used[tree[mac]], mac)];
    forall m ensures Found(tree - {mac}, used', m) { assert Found(tree, used, m); }
    forall a ensures Listed(tree - {mac}, used', a) { assert Listed(tree, used, a); }
  }

  lemma InsertTree(used: map<PeerId, seq<Mac>>, tree: map<Mac, PeerId>, p: PeerId, mac: Mac)
    requires TreeOk(tree, used) && p in used && mac !in tree
    ensures TreeOk(tree[mac := p], used[p := used[p] + [mac]])
  {
    var tree', used' := tree[mac := p], used[p := used[p] + [mac]];
    forall m ensures Found(tree', used', m) { assert Found(tree, used, m); }
    forall a ensures Listed(tree', used', a) { assert Listed(tree, used, a); }
  }

  /** Peer p already has the address. */
  lemma SightAgain(t: Table, tree: map<Mac, PeerId>, p: PeerId, mac: Mac)
    requires Valid(t) && TreeOk(tree, t.used) && p in t.used && mac in tree && tree[mac] == p
    ensures Sight(t, p, mac).used == t.used[p := Without(t.used[p], mac) + [mac]]
    ensures TreeOk(tree, Sight(t, p, mac).used)
  {
    assert Found(tree, t.used, mac) && ListOk(t, p);
    WithoutShorter(t.used[p], mac);
    OnlyOwner(t, tree, p, mac);
    RemoveTree(t.used, tree, mac);
    InsertTree(t.used[p := Without(t.used[p], mac)], tree - {mac}, p, mac);
    assert (tree - {mac})[mac := p] == tree;
  }

  /** Another peer loses the address. */
  lemma Disassociate(t: Table, tree: map<Mac, PeerId>, p: PeerId, mac: Mac)
    requires Valid(t) && TreeOk(tree, t.used) && p in t.used && mac in tree && tree[mac] != p
    ensures tree[mac] in t.used
    ensures var used := t.used[tree[mac] := Without(t.used[tree[mac]], mac)];
            && Valid(t.(used := used)) && TreeOk(tree - {mac}, used)
            && Sight(t.(used := used), p, mac) == Sight(t, p, mac)
  {
    assert Found(tree, t.used, mac) && ListOk(t, tree[mac]);
    var q := tree[mac];
    var t1 := t.(used := t.used[q := Without(t.used[q], mac)]);
    WithoutNoDup(t.used[q], mac);
    forall a ensures ListOk(t1, a) { assert ListOk(t, a); }
    forall a, b ensures Apart(t1, a, b) { assert Apart(t, a, b); }
    RemoveTree(t.used, tree, mac);
    OnlyOwner(t, tree, q, mac);
    OnlyOwner(t1, tree - {mac}, p, mac);
    assert Listed(tree, t.used, p);
    WithoutAbsent(t.used[p], mac);
    assert t1.used[p := Without(t1.used[p], mac)] == t1.used;
  }

  /** Nobody has the address, and p has a free entry for it. */
  lemma SightFree(t: Table, tree: map<Mac, PeerId>, p: PeerId, mac: Mac)
    requires Valid(t) && TreeOk(tree, t.used) && p in t.used && mac !in tree && |t.used[p]| < t.max
    ensures Sight(t, p, mac).used == t.used[p := t.used[p] + [mac]]
    ensures TreeOk(tree[mac := p], Sight(t, p, mac).used)
  {
    assert Listed(tree, t.used, p);
    OnlyOwner(t, tree, p, mac);
    WithoutAbsent(t.used[p], mac);
    InsertTree(t.used, tree, p, mac);
  }

  /** Nobody has the address, and p has no free entry: its oldest address makes room. */
  lemma SightFull(t: Table, tree: map<Mac, PeerId>, p: PeerId, mac: Mac)
    requires Valid(t) && t.max > 0 && TreeOk(tree, t.used) && p in t.used && mac !in tree && |t.used[p]| == t.max
    ensures Sight(t, p, mac).used == t.used[p := t.used[p][1..] + [mac]]
    ensures TreeOk((tree - {t.used[p][0]})[mac := p], Sight(t, p, mac).used)
  {
    var l := t.used[p];
    assert Listed(tree, t.used, p) && ListOk(t, p);
    OnlyOwner(t, tree, p, mac);
    WithoutAbsent(l, mac);
    WithoutAbsent(l[1..], l[0]);
    RemoveTree(t.used, tree, l[0]);
    var used1 := t.used[p := l[1..]];
    InsertTree(used1, tree - {l[0]}, p, mac);
    assert used1[p := used1[p] + [mac]] == t.used[p := l[1..] + [mac]];
  }

  lemma LearnTree(tree: map<Mac, PeerId>, used: map<PeerId, seq<Mac>>, p: PeerId)
    requires TreeOk(tree, used) && p !in used
    ensures TreeOk(tree, used[p := []])
  {
    var used' := used[p := []];
    forall mac ensures Found(tree, used', mac) { assert Found(tree, used, mac); }
    forall q ensures Listed(tree, used', q) { assert Listed(tree, used, q); }
  }

  /** The tree without the addresses in the list. */
  function Pruned(tree: map<Mac, PeerId>, macs: seq<Mac>): map<Mac, PeerId> {
    map mac | mac in tree && mac !in macs :: tree[mac]
  }

  lemma PrunedNext(tree: map<Mac, PeerId>, macs: seq<Mac>, i: nat)
    requires i < |macs|
    ensures Pruned(tree, macs[..i + 1]) == Pruned(tree, macs[..i]) - {macs[i]}
  {
    assert macs[..i + 1] == macs[..i] + [macs[i]];
  }

  lemma ForgetTree(tree: map<Mac, PeerId>, used: map<PeerId, seq<Mac>>, p: PeerId)
    requires TreeOk(tree, used) && p in used
    ensures TreeOk(Pruned(tree, used[p]), used - {p})
  {
    var tree', used' := Pruned(tree, used[p]), used - {p};
    forall m ensures Found(tree', used', m) { assert Found(tree, used, m); }
    forall a ensures Listed(tree', used', a) { assert Listed(tree, used, a) && Listed(tree, used, p); }
  }
}
