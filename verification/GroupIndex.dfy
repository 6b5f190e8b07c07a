/**
  The multicast index of client/FrameDecider.c: the group entries of all peers, in one list for each
  signature, with one master entry by which the tree finds the list.
*/
module GroupIndex {
  import opened Common
  import opened Lists

  /** An IPv4 group address, in host byte order. */
  type Group = nat

  // ----- signatures

  /** The last 23 bits. */
  function Sig(g: Group): nat {
    g % 0x80_0000
  }

  function Be32(b: Bytes): (n: nat)
    requires |b| == 4
    ensures n < 0x1_0000_0000
  {
    b[0] as int * 0x100_0000 + b[1] as int * 0x1_0000 + b[2] as int * 0x100 + b[3] as int
  }

  /** compute_sig_for_mac */
  function SigOfMac(mac: Bytes): nat
    requires |mac| == 6
  {
    Be32(mac[2..]) % 0x80_0000
  }

  /** The mapping of section 6.4 of RFC 1112: the low-order 23 bits of the group go into 01-00-5E-00-00-00. */
  function MacOfGroup(group: Bytes): Bytes
    requires |group| == 4
  {
    [0x01, 0x00, 0x5E, group[1] % 128, group[2], group[3]]
  }

  lemma SigOfBytes(b: Bytes)
    requires |b| == 4
    ensures Sig(Be32(b)) == (b[1] % 128) as int * 0x1_0000 + b[2] as int * 0x100 + b[3] as int
  {
    var low := (b[1] % 128) as int * 0x1_0000 + b[2] as int * 0x100 + b[3] as int;
    var high := b[0] as int * 2 + b[1] as int / 128;
    assert Be32(b) == high * 0x80_0000 + low;
    assert 0 <= low < 0x80_0000;
  }

  /**
    Of the addresses 01-00-5E-x-y-z, exactly the one that RFC 1112 maps the group to has the group's
    signature, and besides it the one that differs from it in the top bit of x, to which no group is mapped.
  */
  lemma SigsAgree(group: Bytes, mac: Bytes)
    requires |group| == 4 && |mac| == 6 && mac[..3] == [0x01, 0x00, 0x5E]
    ensures SigOfMac(mac) == Sig(Be32(group)) <==> mac[3 := mac[3] % 128] == MacOfGroup(group)
    ensures mac[3] < 128 ==> (SigOfMac(mac) == Sig(Be32(group)) <==> mac == MacOfGroup(group))
  {
    SigOfBytes(group);
    SigOfBytes(mac[2..]);
    var m, g := mac[3 := mac[3] % 128], MacOfGroup(group);
    assert mac[0] == mac[..3][0] && mac[1] == mac[..3][1] && mac[2] == mac[..3][2];
    assert m == g <==> m[3] == g[3] && m[4] == g[4] && m[5] == g[5];
    if SigOfMac(mac) == Sig(Be32(group)) {
      DigitsUnique(mac[3] % 128, mac[4], mac[5], group[1] % 128, group[2], group[3]);
    }
  }

  lemma DigitsUnique(a: byte, b: byte, c: byte, x: byte, y: byte, z: byte)
    requires a as int * 0x1_0000 + b as int * 0x100 + c as int == x as int * 0x1_0000 + y as int * 0x100 + z as int
    ensures a == x && b == y && c == z
  {}

  // ----- the index

  /** The entry of a peer for a group. */
  datatype Entry = Entry(peer: PeerId, group: Group)

  datatype Index = Index(tree: map<nat, Entry>, lists: map<nat, seq<Entry>>, masters: set<Entry>)

  const EMPTY := Index(map[], map[], {})

  function Add(ix: Index, e: Entry): Index {
    var sig := Sig(e.group);
    if sig in ix.tree && sig in ix.lists
    then ix.(lists := ix.lists[sig := InsertAfter(ix.lists[sig], ix.tree[sig], e)])
    else Index(ix.tree[sig := e], ix.lists[sig := [e]], ix.masters + {e})
  }

  function Remove(ix: Index, e: Entry): Index {
    var sig := Sig(e.group);
    if sig !in ix.lists then ix
    else
      var list := ix.lists[sig];
      var rest := Without(list, e);
      var lists, masters := (if rest == [] then ix.lists - {sig} else ix.lists[sig := rest]), ix.masters - {e};
      if e !in ix.masters then Index(ix.tree, lists, masters)
      else if |list| <= 1 then Index(ix.tree - {sig}, lists, masters)
      else Index(ix.tree[sig := NextOrPrev(list, e)], lists, masters + {NextOrPrev(list, e)})
  }

  /** The list of a signature has only entries with that signature, and the one master among them is in the tree. */
  ghost predicate SigOk(ix: Index, sig: nat) {
    && (sig in ix.tree <==> sig in ix.lists)
    && (sig in ix.lists ==>
          && NoDup(ix.lists[sig]) && ix.tree[sig] in ix.lists[sig]
          && forall e :: e in ix.lists[sig] ==> Sig(e.group) == sig && (e in ix.masters <==> e == ix.tree[sig]))
  }

  /** An entry is in use exactly if it is in the list of its signature. */
  ghost predicate EntryOk(ix: Index, used: set<Entry>, e: Entry) {
    && (e in used <==> Sig(e.group) in ix.lists && e in ix.lists[Sig(e.group)])
    && (e in ix.masters ==> e in used)
  }

  ghost predicate Valid(ix: Index, used: set<Entry>) {
    (forall sig :: SigOk(ix, sig)) && (forall e :: EntryOk(ix, used, e))
  }

  lemma AddValid(ix: Index, used: set<Entry>, e: Entry)
    requires Valid(ix, used) && e !in used
    ensures Valid(Add(ix, e), used + {e})
  {
    var sig := Sig(e.group);
    assert SigOk(ix, sig) && EntryOk(ix, used, e);
    var ix', used' := Add(ix, e), used + {e};
    if sig in ix.tree {
      InsertAfterNoDup(ix.lists[sig], ix.tree[sig], e);
    }
    forall s ensures SigOk(ix', s) { assert SigOk(ix, s); }
    forall x ensures EntryOk(ix', used', x) { assert EntryOk(ix, used, x); }
  }

  lemma RemoveValid(ix: Index, used: set<Entry>, e: Entry)
    requires Valid(ix, used) && e in used
    ensures Valid(Remove(ix, e), used - {e})
  {
    var sig := Sig(e.group);
    assert SigOk(ix, sig) && EntryOk(ix, used, e);
    var ix', used' := Remove(ix, e), used - {e};
    var list := ix.lists[sig];
    WithoutNoDup(list, e);
    OneLeft(list, e);
    if |list| >= 2 {
      NextOrPrevIsOther(list, e);
    }
    forall s ensures SigOk(ix', s) { assert SigOk(ix, s); }
    forall x ensures EntryOk(ix', used', x) { assert EntryOk(ix, used, x); }
  }

  lemma OneLeft(s: seq<Entry>, e: Entry)
    requires NoDup(s) && e in s
    ensures Without(s, e) == [] <==> |s| == 1
  {
    if |s| >= 2 {
      NextOrPrevIsOther(s, e);
      assert NextOrPrev(s, e) in Without(s, e);
    } else {
      assert s == [e];
      assert Without(s[1..], e) == [];
    }
  }

  // ----- who gets a multicast frame

  function PeersOf(es: seq<Entry>): (ps: seq<PeerId>)
    ensures |ps| == |es| && forall k :: 0 <= k < |es| ==> ps[k] == es[k].peer
  {
    seq(|es|, k requires 0 <= k < |es| => es[k].peer)
  }

  /** The peers that a frame for this signature goes to, in the order of the list. */
  function Destinations(ix: Index, sig: nat): seq<PeerId> {
    if sig in ix.lists then PeersOf(ix.lists[sig]) else []
  }

  /** The entries in use of peer p that have this signature. */
  ghost function Members(used: set<Entry>, sig: nat, p: PeerId): set<Entry> {
    set e | e in used && e.peer == p && Sig(e.group) == sig
  }

  function OfPeer(es: seq<Entry>, p: PeerId): set<Entry> {
    set e | e in es && e.peer == p
  }

  lemma OfPeerFirst(es: seq<Entry>, p: PeerId)
    requires es != [] && es[0] !in es[1..]
    ensures |OfPeer(es, p)| == |OfPeer(es[1..], p)| + if es[0].peer == p then 1 else 0
  {
    var rest := OfPeer(es[1..], p);
    assert OfPeer(es, p) == if es[0].peer == p then rest + {es[0]} else rest;
  }

  lemma {:induction false} CountPeers(es: seq<Entry>, p: PeerId)
    requires NoDup(es)
    ensures multiset(PeersOf(es))[p] == |OfPeer(es, p)|
  {
    if es == [] {
      assert OfPeer(es, p) == {};
    } else {
      CountPeers(es[1..], p);
      OfPeerFirst(es, p);
      assert PeersOf(es) == [es[0].peer] + PeersOf(es[1..]);
    }
  }

  /** A frame goes to each peer as many times as the peer has entries with the frame's signature. */
  lemma OncePerEntry(ix: Index, used: set<Entry>, sig: nat, p: PeerId)
    requires Valid(ix, used)
    ensures multiset(Destinations(ix, sig))[p] == |Members(used, sig, p)|
  {
    assert SigOk(ix, sig);
    var es := if sig in ix.lists then ix.lists[sig] else [];
    CountPeers(es, p);
    forall e
      ensures e in Members(used, sig, p) <==> e in es && e.peer == p
    {
      assert EntryOk(ix, used, e);
    }
    assert Members(used, sig, p) == OfPeer(es, p);
  }
}
