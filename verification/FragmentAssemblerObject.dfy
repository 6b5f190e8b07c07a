/** The assembler as the C code runs it: a pool of frame entries, two lists, a tree and a packet clock. */
module FragmentAssemblerObject {
  import opened Common
  import opened FragmentChunks
  import opened FragmentAssembler

  datatype Span = Span(start: nat, len: nat)

  /** A frame entry; `length` is -1 while unknown. The buffer is as long as the output MTU. */
  datatype Frame = Frame(id: nat, time: int, chunks: seq<Span>, sum: nat, length: int, lengthSoFar: nat, buffer: Bytes)

  // ----- the free and the used list

  /** The two lists together hold every entry of the pool once. */
  ghost predicate ListsOk(n: nat, free: seq<nat>, used: seq<nat>) {
    |free| + |used| == n && Distinct(free + used, n)
  }

  ghost predicate Distinct(s: seq<nat>, n: nat) {
    s == [] || (s[0] < n && s[0] !in s[1..] && Distinct(s[1..], n))
  }

  lemma {:induction false} DistinctPairs(s: seq<nat>, n: nat)
    ensures Distinct(s, n)
            <==> (forall k :: 0 <= k < |s| ==> s[k] < n) && (forall i, j :: 0 <= i < j < |s| ==> s[i] != s[j])
  {
    if s == [] {
    } else {
      DistinctPairs(s[1..], n);
      assert forall k :: 0 <= k < |s[1..]| ==> s[1..][k] == s[k + 1];
    }
  }

  lemma UsedDistinct(n: nat, free: seq<nat>, used: seq<nat>)
    requires ListsOk(n, free, used)
    ensures forall k :: 0 <= k < |used| ==> used[k] < n && used[k] !in free
    ensures forall i, j :: 0 <= i < j < |used| ==> used[i] != used[j]
  {
    DistinctPairs(free + used, n);
    assert forall k :: 0 <= k < |used| ==> (free + used)[|free| + k] == used[k];
    assert forall k :: 0 <= k < |free| ==> (free + used)[k] == free[k];
  }

  // ----- the tree, the frames and what they stand for

  /** The tree finds every used frame, and only those, by its id. */
  ghost predicate TreeOk(frames: seq<Frame>, used: seq<nat>, tree: map<nat, nat>) {
    if used == [] then tree == map[]
    else
      var n, u := |used| - 1, used[|used| - 1];
      && u < |frames| && frames[u].id in tree && tree[frames[u].id] == u
      && TreeOk(frames, used[..n], tree - {frames[u].id})
  }

  /** The same, frame by frame. */
  ghost predicate EachInTree(frames: seq<Frame>, used: seq<nat>, tree: map<nat, nat>) {
    && (forall k :: 0 <= k < |used| ==>
      used[k] < |frames| && frames[used[k]].id in tree && tree[frames[used[k]].id] == used[k])
    && (forall id :: id in tree ==> tree[id] in used && tree[id] < |frames| && frames[tree[id]].id == id)
  }

  lemma {:induction false} TreeEach(frames: seq<Frame>, used: seq<nat>, tree: map<nat, nat>)
    requires TreeOk(frames, used, tree)
    ensures EachInTree(frames, used, tree)
  {
    if used == [] {
    } else {
      var n, u := |used| - 1, used[|used| - 1];
      var rest := tree - {frames[u].id};
      TreeEach(frames, used[..n], rest);
      assert forall k :: 0 <= k < n ==> used[..n][k] == used[k] && frames[used[k]].id in rest;
      forall id | id in tree
        ensures tree[id] in used && tree[id] < |frames| && frames[tree[id]].id == id
      {
        assert id != frames[u].id ==> id in rest && rest[id] in used[..n];
      }
    }
  }

  lemma {:induction false} TreeFromEach(frames: seq<Frame>, used: seq<nat>, tree: map<nat, nat>)
    requires EachInTree(frames, used, tree)
    requires forall i, j :: 0 <= i < j < |used| ==> used[i] != used[j]
    ensures TreeOk(frames, used, tree)
  {
    if used == [] {
      assert tree.Keys == {};
    } else {
      var n, u := |used| - 1, used[|used| - 1];
      var rest := tree - {frames[u].id};
      assert forall k :: 0 <= k < n ==> used[..n][k] == used[k];
      assert EachInTree(frames, used[..n], rest) by {
        assert forall v :: v in used ==> v in used[..n] || v == u;
      }
      TreeFromEach(frames, used[..n], rest);
    }
  }

  /** Entry f has the chunks ps and their bytes in its buffer. */
  ghost predicate FrameOk(mtu: nat, f: Frame, ps: seq<Piece>) {
    && |f.chunks| == |ps|
    && (forall k :: 0 <= k < |ps| ==> f.chunks[k] == Span(ps[k].start, |ps[k].data|))
    && f.sum == Sum(ps)
    && f.length == (if Length(ps).Some? then Length(ps).value else -1)
    && (Length(ps).None? ==> Within(ps, f.lengthSoFar))
    && (f.lengthSoFar == 0 || exists k :: 0 <= k < |ps| && ps[k].End() >= f.lengthSoFar)
    && |f.buffer| == mtu
    && (forall i :: i in Cover(ps) ==> i < mtu && f.buffer[i] == ByteAt(ps, i))
  }

  ghost predicate BuffersOk(mtu: nat, frames: seq<Frame>) {
    frames == [] || (|frames[0].buffer| == mtu && BuffersOk(mtu, frames[1..]))
  }

  lemma {:induction false} BuffersAll(mtu: nat, frames: seq<Frame>)
    ensures BuffersOk(mtu, frames) <==> forall u :: 0 <= u < |frames| ==> |frames[u].buffer| == mtu
  {
    if frames == [] {
    } else {
      BuffersAll(mtu, frames[1..]);
      assert forall u :: 0 <= u < |frames| - 1 ==> frames[1..][u] == frames[u + 1];
    }
  }

  lemma BuffersUpdate(mtu: nat, frames: seq<Frame>, u: nat, f: Frame)
    requires BuffersOk(mtu, frames) && u < |frames|
    ensures |frames[u].buffer| == mtu
    ensures |f.buffer| == mtu ==> BuffersOk(mtu, frames[u := f])
  {
    BuffersAll(mtu, frames);
    BuffersAll(mtu, frames[u := f]);
  }

  ghost predicate UsedOk(mtu: nat, time: int, frames: seq<Frame>, accepted: seq<seq<Piece>>, u: nat) {
    u < |frames| == |accepted| && 0 <= frames[u].time <= time && FrameOk(mtu, frames[u], accepted[u])
  }

  /** The used frames are in order, and none is newer than the clock. */
  ghost predicate FramesOk(mtu: nat, time: int, frames: seq<Frame>, accepted: seq<seq<Piece>>, used: seq<nat>) {
    if used == [] then |frames| == |accepted|
    else
      var n := |used| - 1;
      FramesOk(mtu, time, frames, accepted, used[..n]) && UsedOk(mtu, time, frames, accepted, used[n])
  }

  ghost function EntryOf(time: int, frames: seq<Frame>, accepted: seq<seq<Piece>>, u: nat): Entry
    requires u < |frames| == |accepted| && frames[u].time <= time
  {
    Entry(frames[u].id, accepted[u], time - frames[u].time)
  }

  /** The used frames as entries of the model. */
  ghost function Entries(mtu: nat, time: int, frames: seq<Frame>, accepted: seq<seq<Piece>>,
                         used: seq<nat>): (es: seq<Entry>)
    requires FramesOk(mtu, time, frames, accepted, used)
    ensures |es| == |used|
  {
    if used == [] then []
    else
      var n := |used| - 1;
      Entries(mtu, time, frames, accepted, used[..n]) + [EntryOf(time, frames, accepted, used[n])]
  }

  lemma {:induction false} FrameAt(mtu: nat, time: int, frames: seq<Frame>, accepted: seq<seq<Piece>>, used: seq<nat>,
                                   k: nat)
    requires FramesOk(mtu, time, frames, accepted, used) && k < |used|
    ensures UsedOk(mtu, time, frames, accepted, used[k])
    ensures Entries(mtu, time, frames, accepted, used)[k] == EntryOf(time, frames, accepted, used[k])
  {
    var n := |used| - 1;
    if k < n {
      FrameAt(mtu, time, frames, accepted, used[..n], k);
    }
  }

  /** The same for every frame. */
  lemma FrameAtAll(mtu: nat, time: int, frames: seq<Frame>, accepted: seq<seq<Piece>>, used: seq<nat>)
    requires FramesOk(mtu, time, frames, accepted, used)
    ensures |frames| == |accepted|
    ensures forall k :: 0 <= k < |used| ==>
              && UsedOk(mtu, time, frames, accepted, used[k])
              && Entries(mtu, time, frames, accepted, used)[k] == EntryOf(time, frames, accepted, used[k])
  {
    SameLength(mtu, time, frames, accepted, used);
    forall k | 0 <= k < |used|
      ensures UsedOk(mtu, time, frames, accepted, used[k])
      ensures Entries(mtu, time, frames, accepted, used)[k] == EntryOf(time, frames, accepted, used[k])
    {
      FrameAt(mtu, time, frames, accepted, used, k);
    }
  }

  lemma SameLength(mtu: nat, time: int, frames: seq<Frame>, accepted: seq<seq<Piece>>, used: seq<nat>)
    requires FramesOk(mtu, time, frames, accepted, used)
    ensures |frames| == |accepted|
  {}

  lemma {:induction false} FramesFrom(mtu: nat, time: int, frames: seq<Frame>, accepted: seq<seq<Piece>>,
                                      used: seq<nat>)
    requires |frames| == |accepted|
    requires forall k :: 0 <= k < |used| ==> UsedOk(mtu, time, frames, accepted, used[k])
    ensures FramesOk(mtu, time, frames, accepted, used)
  {
    if used == [] {
    } else {
      var n := |used| - 1;
      assert forall k :: 0 <= k < n ==> used[..n][k] == used[k];
      FramesFrom(mtu, time, frames, accepted, used[..n]);
    }
  }

  /** Only the used entries matter. */
  lemma {:induction false} FramesAgree(mtu: nat, time: int, frames: seq<Frame>, accepted: seq<seq<Piece>>,
                                       frames': seq<Frame>, accepted': seq<seq<Piece>>, used: seq<nat>)
    requires FramesOk(mtu, time, frames, accepted, used)
    requires |frames| == |accepted| == |frames'| == |accepted'|
    requires forall u :: u in used && u < |frames| ==> frames'[u] == frames[u] && accepted'[u] == accepted[u]
    ensures FramesOk(mtu, time, frames', accepted', used)
    ensures Entries(mtu, time, frames', accepted', used) == Entries(mtu, time, frames, accepted, used)
  {
    if used == [] {
    } else {
      FramesAgree(mtu, time, frames, accepted, frames', accepted', used[..|used| - 1]);
    }
  }

  lemma PositionOf(es: seq<Entry>, id: nat, k: nat)
    requires k < |es| && es[k].id == id && forall j :: 0 <= j < k ==> es[j].id != id
    ensures Position(es, id) == k
  {}

  // ----- what freeing an entry does to them

  lemma FreeLists(n: nat, free: seq<nat>, used: seq<nat>, k: nat)
    requires ListsOk(n, free, used) && k < |used|
    ensures ListsOk(n, free + [used[k]], Remove(used, k))
  {
    UsedDistinct(n, free, used);
    FreeDistinct(n, free, used);
    var u, rest := used[k], Remove(used, k);
    var t := free + [u] + rest;
    forall i | 0 <= i < |t|
      ensures t[i] < n && forall j :: i < j < |t| ==> t[i] != t[j]
    {
      assert i > |free| ==> t[i] == rest[i - |free| - 1];
      assert forall j :: |free| < j < |t| ==> t[j] == rest[j - |free| - 1] && rest[j - |free| - 1] in used;
    }
    DistinctPairs(t, n);
  }

  lemma FreeDistinct(n: nat, free: seq<nat>, used: seq<nat>)
    requires ListsOk(n, free, used)
    ensures forall i :: 0 <= i < |free| ==> free[i] < n
    ensures forall i, j :: 0 <= i < j < |free| ==> free[i] != free[j]
  {
    DistinctPairs(free + used, n);
    assert forall k :: 0 <= k < |free| ==> (free + used)[k] == free[k];
  }

  lemma RemoveMembers(used: seq<nat>, k: nat)
    requires k < |used|
    ensures forall j :: 0 <= j < |used| - 1 ==> Remove(used, k)[j] == used[if j < k then j else j + 1]
    ensures forall u :: u in used && u != used[k] ==> u in Remove(used, k)
  {
    forall u | u in used && u != used[k]
      ensures u in Remove(used, k)
    {
      var j :| 0 <= j < |used| && used[j] == u;
      assert Remove(used, k)[if j < k then j else j - 1] == u;
    }
  }

  lemma FreeTree(n: nat, free: seq<nat>, frames: seq<Frame>, used: seq<nat>, tree: map<nat, nat>, k: nat)
    requires ListsOk(n, free, used) && TreeOk(frames, used, tree) && k < |used| && used[k] < |frames|
    ensures TreeOk(frames, Remove(used, k), tree - {frames[used[k]].id})
  {
    UsedDistinct(n, free, used);
    TreeEach(frames, used, tree);
    EachInTreeRemove(frames, used, tree, k);
    RemoveMembers(used, k);
    TreeFromEach(frames, Remove(used, k), tree - {frames[used[k]].id});
  }

  lemma EachInTreeRemove(frames: seq<Frame>, used: seq<nat>, tree: map<nat, nat>, k: nat)
    requires EachInTree(frames, used, tree) && k < |used|
    requires forall i, j :: 0 <= i < j < |used| ==> used[i] != used[j]
    ensures EachInTree(frames, Remove(used, k), tree - {frames[used[k]].id})
  {
    RemoveMembers(used, k);
  }

  lemma FreeEntries(mtu: nat, time: int, frames: seq<Frame>, accepted: seq<seq<Piece>>, used: seq<nat>, k: nat)
    requires FramesOk(mtu, time, frames, accepted, used) && k < |used|
    ensures FramesOk(mtu, time, frames, accepted, Remove(used, k))
    ensures Entries(mtu, time, frames, accepted, Remove(used, k))
            == Remove(Entries(mtu, time, frames, accepted, used), k)
  {
    var used' := Remove(used, k);
    RemoveMembers(used, k);
    FrameAtAll(mtu, time, frames, accepted, used);
    FramesFrom(mtu, time, frames, accepted, used');
    FrameAtAll(mtu, time, frames, accepted, used');
  }

  // ----- what allocating an entry does to them

  lemma AllocLists(n: nat, free: seq<nat>, used: seq<nat>)
    requires ListsOk(n, free, used) && free != []
    ensures ListsOk(n, free[1..], used + [free[0]])
    ensures free[0] < n && free[0] !in used
  {
    var s, t := free + used, free[1..] + (used + [free[0]]);
    DistinctPairs(s, n);
    DistinctPairs(t, n);
    assert s[0] == free[0];
    assert forall k :: 0 <= k < |used| ==> s[|free| + k] == used[k];
    assert forall i :: 0 <= i < |t| ==> t[i] == s[if i == |t| - 1 then 0 else i + 1];
  }

  lemma AllocTree(n: nat, free: seq<nat>, frames: seq<Frame>, used: seq<nat>, tree: map<nat, nat>, u: nat, f: Frame)
    requires ListsOk(n, free, used) && TreeOk(frames, used, tree) && u < |frames| && u !in used && f.id !in tree
    ensures TreeOk(frames[u := f], used + [u], tree[f.id := u])
  {
    UsedDistinct(n, free, used);
    TreeEach(frames, used, tree);
    assert forall k :: 0 <= k < |used| ==> used[k] != u;
    assert EachInTree(frames[u := f], used + [u], tree[f.id := u]);
    TreeFromEach(frames[u := f], used + [u], tree[f.id := u]);
  }

  lemma AllocEntries(mtu: nat, time: int, frames: seq<Frame>, accepted: seq<seq<Piece>>, used: seq<nat>, u: nat,
                     f: Frame)
    requires FramesOk(mtu, time, frames, accepted, used) && u < |frames| == |accepted| && u !in used
    requires 0 <= f.time == time && FrameOk(mtu, f, [])
    ensures FramesOk(mtu, time, frames[u := f], accepted[u := []], used + [u])
    ensures Entries(mtu, time, frames[u := f], accepted[u := []], used + [u])
         == Entries(mtu, time, frames, accepted, used) + [Entry(f.id, [], 0)]
  {
    assert (used + [u])[..|used|] == used;
    FramesAgree(mtu, time, frames, accepted, frames[u := f], accepted[u := []], used);
  }

  lemma AllocAll(cfg: Config, time: int, frames: seq<Frame>, accepted: seq<seq<Piece>>, free: seq<nat>, used: seq<nat>,
                 tree: map<nat, nat>, u: nat, f: Frame)
    requires ListsOk(cfg.numFrames, free, used) && TreeOk(frames, used, tree) && BuffersOk(cfg.mtu, frames)
    requires FramesOk(cfg.mtu, time, frames, accepted, used) && u < |frames| && u !in used && f.id !in tree && 0 <= time
    requires f == Frame(f.id, time, [], 0, -1, 0, frames[u].buffer)
    ensures |frames| == |accepted| && TreeOk(frames[u := f], used + [u], tree[f.id := u])
    ensures BuffersOk(cfg.mtu, frames[u := f])
    ensures FramesOk(cfg.mtu, time, frames[u := f], accepted[u := []], used + [u])
    ensures Entries(cfg.mtu, time, frames[u := f], accepted[u := []], used + [u])
         == Entries(cfg.mtu, time, frames, accepted, used) + [Entry(f.id, [], 0)]
  {
    SameLength(cfg.mtu, time, frames, accepted, used);
    BuffersUpdate(cfg.mtu, frames, u, f);
    AllocTree(cfg.numFrames, free, frames, used, tree, u, f);
    AllocEntries(cfg.mtu, time, frames, accepted, used, u, f);
  }

  // ----- what accepting a chunk does to them

  /** The entry after chunk p was added to it. */
  function Accept(f: Frame, p: Piece, time: int): Frame
    requires p.End() <= |f.buffer|
  {
    f.(time := time,
       chunks := f.chunks + [Span(p.start, |p.data|)],
       sum := f.sum + |p.data|,
       length := if p.last then p.End() else f.length,
       lengthSoFar := if !p.last && f.length < 0 && f.lengthSoFar < p.End() then p.End() else f.lengthSoFar,
       buffer := f.buffer[..p.start] + p.data + f.buffer[p.End()..])
  }

  lemma CoverAppend(ps: seq<Piece>, p: Piece)
    ensures Cover(Snoc(ps, p)) == Cover(ps) + Range(p.start, p.End())
    ensures forall i: nat :: ByteAt(Snoc(ps, p), i) == if Covers(p, i) then p.data[i - p.start] else ByteAt(ps, i)
  {
    assert Snoc(ps, p)[..|ps|] == ps;
  }

  lemma AcceptBuffer(mtu: nat, f: Frame, ps: seq<Piece>, p: Piece, time: int)
    requires FrameOk(mtu, f, ps) && p.End() <= mtu
    ensures var buffer := Accept(f, p, time).buffer;
            |buffer| == mtu && forall i :: i in Cover(Snoc(ps, p)) ==> i < mtu && buffer[i] == ByteAt(Snoc(ps, p), i)
  {
    CoverAppend(ps, p);
    var buffer := f.buffer[..p.start] + p.data + f.buffer[p.End()..];
    assert Accept(f, p, time).buffer == buffer;
    forall i | i in Cover(Snoc(ps, p))
      ensures i < mtu && buffer[i] == ByteAt(Snoc(ps, p), i)
    {
      if !Covers(p, i) {
        assert i in Cover(ps) && buffer[i] == f.buffer[i];
      }
    }
  }

  lemma AcceptLength(mtu: nat, f: Frame, ps: seq<Piece>, p: Piece, time: int)
    requires FrameOk(mtu, f, ps) && p.End() <= mtu
    ensures var so := Accept(f, p, time).lengthSoFar;
            && (Length(Snoc(ps, p)).None? ==> Within(Snoc(ps, p), so))
            && (so == 0 || exists k :: 0 <= k < |Snoc(ps, p)| && Snoc(ps, p)[k].End() >= so)
  {
    LengthAppend(ps, p);
    var so := Accept(f, p, time).lengthSoFar;
    if so != f.lengthSoFar {
      assert Snoc(ps, p)[|ps|].End() >= so;
    } else if so != 0 {
      var k :| 0 <= k < |ps| && ps[k].End() >= so;
      assert Snoc(ps, p)[k].End() >= so;
    }
  }

  lemma AcceptOk(mtu: nat, f: Frame, ps: seq<Piece>, p: Piece, time: int)
    requires FrameOk(mtu, f, ps) && p.End() <= mtu
    ensures FrameOk(mtu, Accept(f, p, time), Snoc(ps, p))
  {
    LengthAppend(ps, p);
    AcceptBuffer(mtu, f, ps, p, time);
    AcceptLength(mtu, f, ps, p, time);
  }

  lemma RemoveUpdated(es: seq<Entry>, k: nat, e: Entry)
    requires k < |es|
    ensures Remove(es[k := e], k) == Remove(es, k)
  {}

  /** A complete frame is what its buffer starts with. */
  lemma BufferContents(cfg: Config, f: Frame, ps: seq<Piece>, p: Piece)
    requires PiecesOk(cfg, ps) && p.End() <= cfg.mtu && Agrees(ps, p)
    requires FrameOk(cfg.mtu, f, Snoc(ps, p)) && Complete(Snoc(ps, p))
    ensures 0 <= f.length <= |f.buffer| && f.buffer[..f.length] == Contents(Snoc(ps, p), f.length)
  {
    FinishedIsTiled(cfg, ps, p);
    forall i: nat | i < f.length
      ensures f.buffer[i] == ByteAt(Snoc(ps, p), i)
    {
      assert CoveredOnce(Snoc(ps, p), i);
      CoverMembers(Snoc(ps, p), i);
    }
  }

  lemma UpdateTree(n: nat, free: seq<nat>, frames: seq<Frame>, used: seq<nat>, tree: map<nat, nat>, u: nat, f: Frame)
    requires ListsOk(n, free, used) && TreeOk(frames, used, tree) && u < |frames| && f.id == frames[u].id
    ensures TreeOk(frames[u := f], used, tree)
  {
    UsedDistinct(n, free, used);
    TreeEach(frames, used, tree);
    TreeFromEach(frames[u := f], used, tree);
  }

  lemma UpdateEntries(n: nat, free: seq<nat>, mtu: nat, time: int, frames: seq<Frame>, accepted: seq<seq<Piece>>,
                      used: seq<nat>, k: nat, f: Frame, ps: seq<Piece>)
    requires ListsOk(n, free, used) && FramesOk(mtu, time, frames, accepted, used)
    requires k < |used| && used[k] < |frames| == |accepted|
    requires 0 <= f.time == time && FrameOk(mtu, f, ps)
    ensures var u := used[k];
            && FramesOk(mtu, time, frames[u := f], accepted[u := ps], used)
            && Entries(mtu, time, frames[u := f], accepted[u := ps], used)
               == Entries(mtu, time, frames, accepted, used)[k := Entry(f.id, ps, 0)]
  {
    UsedDistinct(n, free, used);
    var u := used[k];
    var frames', accepted' := frames[u := f], accepted[u := ps];
    forall j | 0 <= j < |used|
      ensures UsedOk(mtu, time, frames', accepted', used[j])
    {
      FrameAt(mtu, time, frames, accepted, used, j);
      assert j != k ==> used[j] != u;
    }
    FramesFrom(mtu, time, frames', accepted', used);
    forall j | 0 <= j < |used|
      ensures Entries(mtu, time, frames', accepted', used)[j]
           == Entries(mtu, time, frames, accepted, used)[k := Entry(f.id, ps, 0)][j]
    {
      FrameAt(mtu, time, frames, accepted, used, j);
      FrameAt(mtu, time, frames', accepted', used, j);
      assert j != k ==> used[j] != u;
    }
  }

  // ----- what rebasing the clock does to them

  /** m is the smallest time of the first i used frames; None if i is 0. */
  ghost predicate LeastTime(frames: seq<Frame>, used: seq<nat>, i: nat, m: Option<int>) {
    && i <= |used|
    && (m.None? <==> i == 0)
    && (forall k :: 0 <= k < i ==> used[k] < |frames|)
    && (m.Some? ==> forall k :: 0 <= k < i ==> m.value <= frames[used[k]].time)
    && (m.Some? ==> exists k :: 0 <= k < i && m.value == frames[used[k]].time)
  }

  lemma LeastTimeNext(frames: seq<Frame>, used: seq<nat>, i: nat, m: Option<int>)
    requires LeastTime(frames, used, i, m) && i < |used| && used[i] < |frames|
    ensures LeastTime(frames, used, i + 1,
                      if m.None? || frames[used[i]].time < m.value then Some(frames[used[i]].time) else m)
  {
    assert frames[used[i]].time == frames[used[i]].time;
  }

  lemma LeastTimeSame(frames: seq<Frame>, used: seq<nat>, used': seq<nat>, i: nat, m: Option<int>)
    requires LeastTime(frames, used, i, m) && i <= |used'| && forall k :: 0 <= k < i ==> used'[k] == used[k]
    ensures LeastTime(frames, used', i, m)
  {
    if m.Some? {
      var k :| 0 <= k < i && m.value == frames[used[k]].time;
      assert used'[k] == used[k];
    }
  }

  /** Of the used frames es, `kept` were looked at and did not time out, and `rest` are still to be looked at. */
  ghost predicate Purging(cfg: Config, es: seq<Entry>, cur: seq<Entry>, kept: seq<Entry>, rest: seq<Entry>) {
    cur == kept + rest && Purge(cfg, es) == kept + Purge(cfg, rest)
  }

  lemma PurgeDrop(cfg: Config, es: seq<Entry>, cur: seq<Entry>, kept: seq<Entry>, rest: seq<Entry>)
    requires Purging(cfg, es, cur, kept, rest) && rest != [] && TimedOut(cfg, rest[0])
    ensures Purging(cfg, es, Remove(cur, |kept|), kept, rest[1..])
  {
    assert Remove(kept + rest, |kept|) == kept + rest[1..];
  }

  lemma PurgeKeep(cfg: Config, es: seq<Entry>, cur: seq<Entry>, kept: seq<Entry>, rest: seq<Entry>)
    requires Purging(cfg, es, cur, kept, rest) && rest != [] && !TimedOut(cfg, rest[0])
    ensures Purging(cfg, es, cur, kept + [rest[0]], rest[1..])
  {
    assert kept + rest == kept + [rest[0]] + rest[1..];
    assert kept + ([rest[0]] + Purge(cfg, rest[1..])) == kept + [rest[0]] + Purge(cfg, rest[1..]);
  }

  /** The times of the first i used frames were reduced by m. */
  ghost predicate Shifted(was: seq<Frame>, now: seq<Frame>, used: seq<nat>, i: nat, m: int) {
    && |now| == |was| && i <= |used|
    && forall u :: 0 <= u < |was| ==> now[u] == if u in used[..i] then was[u].(time := was[u].time - m) else was[u]
  }

  lemma ShiftedNext(was: seq<Frame>, now: seq<Frame>, used: seq<nat>, i: nat, m: int)
    requires Shifted(was, now, used, i, m) && i < |used| && used[i] < |was| && used[i] !in used[..i]
    ensures Shifted(was, now[used[i] := now[used[i]].(time := now[used[i]].time - m)], used, i + 1, m)
  {
    assert used[..i + 1] == used[..i] + [used[i]];
  }

  lemma {:induction false} ShiftedEntries(mtu: nat, time: int, was: seq<Frame>, now: seq<Frame>,
                                          accepted: seq<seq<Piece>>, used: seq<nat>, m: int)
    requires FramesOk(mtu, time, was, accepted, used) && |now| == |was|
    requires forall u :: u in used && u < |was| ==> now[u] == was[u].(time := was[u].time - m) && m <= was[u].time
    ensures FramesOk(mtu, time - m, now, accepted, used)
    ensures Entries(mtu, time - m, now, accepted, used) == Entries(mtu, time, was, accepted, used)
  {
    if used == [] {
    } else {
      ShiftedEntries(mtu, time, was, now, accepted, used[..|used| - 1], m);
    }
  }

  lemma {:induction false} ShiftedTree(was: seq<Frame>, now: seq<Frame>, used: seq<nat>, tree: map<nat, nat>)
    requires TreeOk(was, used, tree) && |now| == |was| && forall u :: 0 <= u < |was| ==> now[u].id == was[u].id
    ensures TreeOk(now, used, tree)
  {
    if used == [] {
    } else {
      var u := used[|used| - 1];
      ShiftedTree(was, now, used[..|used| - 1], tree - {was[u].id});
    }
  }

  lemma ShiftedBuffers(mtu: nat, was: seq<Frame>, now: seq<Frame>, used: seq<nat>, m: int)
    requires BuffersOk(mtu, was) && Shifted(was, now, used, |used|, m)
    ensures BuffersOk(mtu, now)
  {
    BuffersAll(mtu, was);
    BuffersAll(mtu, now);
  }

  /** Reducing all times and the clock alike changes no age. */
  lemma ShiftedSame(mtu: nat, time: int, was: seq<Frame>, now: seq<Frame>, accepted: seq<seq<Piece>>, used: seq<nat>,
                    tree: map<nat, nat>, m: int)
    requires FramesOk(mtu, time, was, accepted, used) && TreeOk(was, used, tree) && BuffersOk(mtu, was)
    requires Shifted(was, now, used, |used|, m) && LeastTime(was, used, |used|, Some(m))
    ensures FramesOk(mtu, time - m, now, accepted, used) && TreeOk(now, used, tree) && BuffersOk(mtu, now)
    ensures Entries(mtu, time - m, now, accepted, used) == Entries(mtu, time, was, accepted, used)
  {
    assert used[..|used|] == used;
    ShiftedEntries(mtu, time, was, now, accepted, used, m);
    ShiftedTree(was, now, used, tree);
    ShiftedBuffers(mtu, was, now, used, m);
  }

  lemma {:induction false} OlderEntries(mtu: nat, time: int, frames: seq<Frame>, accepted: seq<seq<Piece>>,
                                        used: seq<nat>)
    requires FramesOk(mtu, time, frames, accepted, used)
    ensures FramesOk(mtu, time + 1, frames, accepted, used)
    ensures Entries(mtu, time + 1, frames, accepted, used) == Older(Entries(mtu, time, frames, accepted, used))
  {
    if used == [] {
    } else {
      OlderEntries(mtu, time, frames, accepted, used[..|used| - 1]);
    }
  }

  /** The smallest time belongs to a frame that did not time out, so the reduced clock is small. */
  lemma LeastTimeBound(cfg: Config, time: int, frames: seq<Frame>, accepted: seq<seq<Piece>>, used: seq<nat>, m: int)
    requires FramesOk(cfg.mtu, time, frames, accepted, used) && LeastTime(frames, used, |used|, Some(m))
    requires forall e :: e in Entries(cfg.mtu, time, frames, accepted, used) ==> !TimedOut(cfg, e)
    ensures 0 <= m <= time && time - m <= cfg.numFrames
  {
    var k :| 0 <= k < |used| && m == frames[used[k]].time;
    FrameAt(cfg.mtu, time, frames, accepted, used, k);
    assert Entries(cfg.mtu, time, frames, accepted, used)[k] in Entries(cfg.mtu, time, frames, accepted, used);
  }

  // ----- reading a packet

  /** The chunks of b, until one completes a frame: the new pool, that frame, and what is left of b. */
  ghost function Scan(cfg: Config, es: seq<Entry>, b: Bytes): (seq<Entry>, Option<Bytes>, Bytes)
    requires cfg.Valid()
    decreases |b|
  {
    var first := FirstChunk(b);
    if first.None? then (es, None, b) else
      var (c, n) := first.value;
      var (es', out) := Process(cfg, es, c);
      if out.Some? then (es', out, b[n..]) else Scan(cfg, es', b[n..])
  }

  /** Stopping at each completed frame and going on where it stopped, the assembler sees every chunk of the packet. */
  lemma {:induction false} ScanIsFeed(cfg: Config, es: seq<Entry>, b: Bytes)
    requires cfg.Valid()
    ensures var (es', out, rest) := Scan(cfg, es, b);
            if out.None? then Feed(cfg, es, ParsePacket(b)) == (es', [])
            else
              var (last, frames) := Feed(cfg, es', ParsePacket(rest));
              |rest| < |b| && Feed(cfg, es, ParsePacket(b)) == (last, [out.value] + frames)
    decreases |b|
  {
    var first := FirstChunk(b);
    if first.Some? {
      var (c, n) := first.value;
      assert ParsePacket(b)[0] == c && ParsePacket(b)[1..] == ParsePacket(b[n..]);
      if Process(cfg, es, c).1.None? {
        ScanIsFeed(cfg, Process(cfg, es, c).0, b[n..]);
      }
    }
  }

  class FragmentProtoAssembler {
    const cfg: Config
    var input: Option<Bytes>
    var inPos: nat
    var time: int
    var frames: seq<Frame>
    ghost var accepted: seq<seq<Piece>>
    var framesFree: seq<nat>
    var framesUsed: seq<nat>
    var framesUsedTree: map<nat, nat>

    ghost predicate Consistent()
      reads this
    {
      && cfg.Valid()
      && |frames| == cfg.numFrames
      && 0 <= time <= MAX_TIME
      && ListsOk(cfg.numFrames, framesFree, framesUsed)
      && TreeOk(frames, framesUsed, framesUsedTree)
      && BuffersOk(cfg.mtu, frames)
      && FramesOk(cfg.mtu, time, frames, accepted, framesUsed)
    }

    ghost function State(): (es: seq<Entry>)
      requires Consistent()
      reads this
    {
      Entries(cfg.mtu, time, frames, accepted, framesUsed)
    }

    ghost predicate Valid()
      reads this
    {
      Consistent() && PoolOk(cfg, State())
    }

    /** The k-th used frame. */
    lemma UsedAt(k: nat)
      requires Consistent() && k < |framesUsed|
      ensures |frames| == |accepted| && UsedOk(cfg.mtu, time, frames, accepted, framesUsed[k])
      ensures State()[k] == EntryOf(time, frames, accepted, framesUsed[k])
    {
      FrameAt(cfg.mtu, time, frames, accepted, framesUsed, k);
    }

    /** The tree lookup. */
    lemma TreePosition(id: nat)
      requires Consistent()
      ensures id in framesUsedTree <==> Position(State(), id) < |framesUsed|
      ensures id in framesUsedTree ==> framesUsed[Position(State(), id)] == framesUsedTree[id]
    {
      UsedDistinct(cfg.numFrames, framesFree, framesUsed);
      TreeEach(frames, framesUsed, framesUsedTree);
      FrameAtAll(cfg.mtu, time, frames, accepted, framesUsed);
      if id in framesUsedTree {
        var k :| 0 <= k < |framesUsed| && framesUsed[k] == framesUsedTree[id];
        PositionOf(State(), id, k);
      }
    }

    constructor (cfg: Config)
      requires cfg.Valid()
      ensures Valid() && this.cfg == cfg && State() == [] && input == None
    {
      this.cfg := cfg;
      input := None;
      inPos := 0;
      time := 0;
      frames := seq(cfg.numFrames, _ => Frame(0, 0, [], 0, -1, 0, seq(cfg.mtu, _ => 0)));
      accepted := seq(cfg.numFrames, _ => []);
      framesFree := seq(cfg.numFrames, i => i);
      framesUsed := [];
      framesUsedTree := map[];
      new;
      AllFree(cfg.numFrames);
      BuffersAll(cfg.mtu, frames);
    }

    /** Entry u is the k-th used one. */
    method FreeFrame(u: nat, ghost k: nat)
      requires Consistent() && k < |framesUsed| && framesUsed[k] == u
      modifies `framesFree, `framesUsed, `framesUsedTree
      ensures Consistent() && State() == Remove(old(State()), k)
      ensures framesUsed == Remove(old(framesUsed), k) && framesFree == old(framesFree) + [u]
      ensures u < |frames| && framesUsedTree == old(framesUsedTree) - {frames[u].id}
    {
      UsedAt(k);
      FreeLists(cfg.numFrames, framesFree, framesUsed, k);
      FreeTree(cfg.numFrames, framesFree, frames, framesUsed, framesUsedTree, k);
      FreeEntries(cfg.mtu, time, frames, accepted, framesUsed, k);
      Unlink(u, k);
      framesUsedTree := framesUsedTree - {frames[u].id};
      framesFree := framesFree + [u];
    }

    method Unlink(u: nat, ghost k: nat)
      requires ListsOk(cfg.numFrames, framesFree, framesUsed) && k < |framesUsed| && framesUsed[k] == u
      modifies `framesUsed
      ensures framesUsed == Remove(old(framesUsed), k)
    {
      UsedDistinct(cfg.numFrames, framesFree, framesUsed);
      var i :| 0 <= i < |framesUsed| && framesUsed[i] == u;
      framesUsed := Remove(framesUsed, i);
    }

    method FreeOldestFrame()
      requires Consistent() && framesUsed != []
      modifies `framesFree, `framesUsed, `framesUsedTree
      ensures Consistent() && State() == old(State())[1..]
      ensures framesFree != [] && framesUsedTree.Keys <= old(framesUsedTree).Keys
    {
      FreeFrame(framesUsed[0], 0);
      assert Remove(old(State()), 0) == old(State())[1..];
    }

    method AllocateNewFrame(id: nat) returns (u: nat)
      requires Consistent() && id !in framesUsedTree
      modifies `framesFree, `framesUsed, `framesUsedTree, `frames, `accepted
      ensures Consistent() && State() == Allocate(cfg, old(State()), id).0
      ensures framesUsed != [] && framesUsed[|framesUsed| - 1] == u
    {
      assert |framesFree| + |framesUsed| == cfg.numFrames;
      if framesFree == [] {
        FreeOldestFrame();
      }
      u := framesFree[0];
      TakeFree(id);
    }

    /** The first free entry becomes the newest used one. */
    method TakeFree(id: nat)
      requires Consistent() && id !in framesUsedTree && framesFree != []
      modifies `framesFree, `framesUsed, `framesUsedTree, `frames, `accepted
      ensures Consistent() && State() == old(State()) + [Entry(id, [], 0)]
      ensures framesUsed == old(framesUsed) + [old(framesFree)[0]]
    {
      var u := framesFree[0];
      AllocLists(cfg.numFrames, framesFree, framesUsed);
      var f := Frame(id, time, [], 0, -1, 0, frames[u].buffer);
      AllocAll(cfg, time, frames, accepted, framesFree, framesUsed, framesUsedTree, u, f);
      framesFree := framesFree[1..];
      frames := frames[u := f];
      accepted := accepted[u := []];
      framesUsed := framesUsed + [u];
      framesUsedTree := framesUsedTree[id := u];
    }

    /** A new frame takes the place of entry v, the k-th used one, which has its id. */
    method ReplaceFrame(id: nat, v: nat, ghost k: nat) returns (u: nat)
      requires Consistent() && k < |framesUsed| && framesUsed[k] == v && v < |frames| && frames[v].id == id
      modifies `framesFree, `framesUsed, `framesUsedTree, `frames, `accepted
      ensures Consistent() && State() == Allocate(cfg, Remove(old(State()), k), id).0
      ensures framesUsed != [] && framesUsed[|framesUsed| - 1] == u
    {
      FreeFrame(v, k);
      u := AllocateNewFrame(id);
    }

    /** The used frame with this id, or a new one if there is none or it timed out. */
    method FindFrame(id: nat) returns (u: nat)
      requires Consistent()
      modifies `framesFree, `framesUsed, `framesUsedTree, `frames, `accepted
      ensures Consistent()
      ensures var (ready, i) := Prepare(cfg, old(State()), id);
              State() == ready && framesUsed[i] == u
    {
      TreePosition(id);
      if id !in framesUsedTree {
        u := AllocateNewFrame(id);
      } else {
        u := framesUsedTree[id];
        UsedAt(Position(State(), id));
        if time - frames[u].time > cfg.numFrames {
          u := ReplaceFrame(id, u, Position(State(), id));
        }
      }
    }

    /** Whether a chunk agrees with the chunks that frame u already has. */
    method ChunkAgrees(u: nat, p: Piece) returns (ok: bool)
      requires u < |frames| && |accepted| == |frames| && FrameOk(cfg.mtu, frames[u], accepted[u])
      requires Length(accepted[u]).Some? ==> Within(accepted[u], Length(accepted[u]).value)
      ensures ok == Agrees(accepted[u], p)
    {
      var frame := frames[u];
      ghost var ps := accepted[u];
      var i := 0;
      while i < |frame.chunks|
        invariant 0 <= i <= |frame.chunks|
        invariant forall k :: 0 <= k < i ==> !Overlap(ps[k], p)
      {
        var chunk := frame.chunks[i];
        assert chunk == Span(ps[i].start, |ps[i].data|);
        if chunk.start + chunk.len > p.start && p.End() > chunk.start {
          assert Overlap(ps[i], p);
          return false;
        }
        i := i + 1;
      }
      if p.last {
        if frame.length >= 0 { return false; }
        if frame.lengthSoFar > p.End() { return false; }
      } else {
        if frame.length >= 0 {
          if p.End() > frame.length { return false; }
        }
      }
      return true;
    }

    method AddChunk(u: nat, p: Piece, ghost k: nat)
      requires Consistent() && k < |framesUsed| && framesUsed[k] == u && p.End() <= cfg.mtu
      modifies `frames, `accepted
      ensures Consistent()
      ensures State() == old(State())[k := Entry(old(State())[k].id, Snoc(old(State())[k].pieces, p), 0)]
      ensures framesUsed == old(framesUsed) && u < |accepted| && accepted[u] == Snoc(old(State())[k].pieces, p)
    {
      UsedAt(k);
      AcceptOk(cfg.mtu, frames[u], accepted[u], p, time);
      var f := Accept(frames[u], p, time);
      BuffersUpdate(cfg.mtu, frames, u, f);
      UpdateTree(cfg.numFrames, framesFree, frames, framesUsed, framesUsedTree, u, f);
      UpdateEntries(cfg.numFrames, framesFree, cfg.mtu, time, frames, accepted, framesUsed, k, f, Snoc(accepted[u], p));
      frames := frames[u := f];
      accepted := accepted[u := Snoc(accepted[u], p)];
    }

    /** Frame u, the k-th used one, gets chunk p. */
    method PutChunk(u: nat, p: Piece, ghost k: nat) returns (sent: Option<Bytes>)
      requires Consistent() && k < |framesUsed| && framesUsed[k] == u && p.End() <= cfg.mtu
      requires PiecesOk(cfg, State()[k].pieces)
      modifies `framesFree, `framesUsed, `framesUsedTree, `frames, `accepted
      ensures Consistent()
      ensures (State(), sent) == match AddPiece(cfg.maxChunks, old(State())[k].pieces, p)
                                 case Failed => (Remove(old(State()), k), None)
                                 case Waiting(ps) => (old(State())[k := Entry(old(State())[k].id, ps, 0)], None)
                                 case Finished(frame) => (Remove(old(State()), k), Some(frame))
    {
      ghost var es, ps := State(), State()[k].pieces;
      UsedAt(k);
      var ok := ChunkAgrees(u, p);
      if ok {
        AddChunk(u, p, k);
        sent := Settle(u, p, k, ps);
        RemoveUpdated(es, k, Entry(es[k].id, Snoc(ps, p), 0));
      } else {
        FreeFrame(u, k);
        sent := None;
      }
    }

    /** Frame u has just got chunk p: it is complete, or out of chunks, or waits for more. */
    method Settle(u: nat, p: Piece, ghost k: nat, ghost ps: seq<Piece>) returns (sent: Option<Bytes>)
      requires Consistent() && k < |framesUsed| && framesUsed[k] == u
      requires PiecesOk(cfg, ps) && p.End() <= cfg.mtu && Agrees(ps, p)
      requires u < |accepted| && accepted[u] == Snoc(ps, p)
      modifies `framesFree, `framesUsed, `framesUsedTree
      ensures Consistent()
      ensures sent == if Complete(Snoc(ps, p)) then Some(Contents(Snoc(ps, p), Length(Snoc(ps, p)).value)) else None
      ensures State() == if Complete(Snoc(ps, p)) || |Snoc(ps, p)| == cfg.maxChunks
                         then Remove(old(State()), k) else old(State())
    {
      UsedAt(k);
      var frame := frames[u];
      if frame.length < 0 || frame.sum < frame.length {
        if |frame.chunks| == cfg.maxChunks {
          FreeFrame(u, k);
        }
        return None;
      }
      BufferContents(cfg, frame, ps, p);
      FreeFrame(u, k);
      return Some(frame.buffer[..frame.length]);
    }

    /** Processes one chunk; the result is the frame passed to the output, if that completed one. */
    method ProcessChunk(id: nat, p: Piece) returns (sent: Option<Bytes>)
      requires Valid()
      modifies `framesFree, `framesUsed, `framesUsedTree, `frames, `accepted
      ensures Valid()
      ensures (State(), sent) == Process(cfg, old(State()), Chunk(id, p))
    {
      ProcessOk(cfg, State(), Chunk(id, p));
      PrepareOk(cfg, State(), id);
      if p.start > cfg.mtu { return None; }
      if |p.data| > cfg.mtu - p.start { return None; }
      ghost var i := Prepare(cfg, State(), id).1;
      var u := FindFrame(id);
      sent := PutChunk(u, p, i);
    }

    /** Frees the i-th used frame if it timed out; otherwise takes its time into account and steps past it. */
    method CheckTimeOut(i: nat, minTime: Option<int>) returns (next: nat, newMin: Option<int>)
      requires Consistent() && i < |framesUsed| && LeastTime(frames, framesUsed, i, minTime)
      modifies `framesFree, `framesUsed, `framesUsedTree
      ensures Consistent()
      ensures if TimedOut(cfg, old(State())[i])
              then next == i && State() == Remove(old(State()), i)
              else next == i + 1 && State() == old(State())
      ensures LeastTime(frames, framesUsed, next, newMin)
    {
      var u := framesUsed[i];
      UsedAt(i);
      if time - frames[u].time > cfg.numFrames {
        ghost var used := framesUsed;
        FreeFrame(u, i);
        LeastTimeSame(frames, used, framesUsed, i, minTime);
        next, newMin := i, minTime;
      } else {
        LeastTimeNext(frames, framesUsed, i, minTime);
        newMin := if minTime.None? || frames[u].time < minTime.value then Some(frames[u].time) else minTime;
        next := i + 1;
      }
    }

    /** Frees the timed-out frames and finds the smallest time of the others. */
    method FreeTimedOut() returns (minTime: Option<int>)
      requires Consistent()
      modifies `framesFree, `framesUsed, `framesUsedTree
      ensures Consistent() && State() == Purge(cfg, old(State()))
      ensures LeastTime(frames, framesUsed, |framesUsed|, minTime)
    {
      ghost var es, kept, rest := State(), [], State();
      var i: nat := 0;
      minTime := None;
      while i < |framesUsed|
        invariant Consistent()
        invariant Purging(cfg, es, State(), kept, rest)
        invariant i == |kept| && LeastTime(frames, framesUsed, i, minTime)
        decreases |rest|
      {
        assert State()[i] == rest[0];
        if TimedOut(cfg, rest[0]) {
          PurgeDrop(cfg, es, State(), kept, rest);
        } else {
          PurgeKeep(cfg, es, State(), kept, rest);
          kept := kept + [rest[0]];
        }
        i, minTime := CheckTimeOut(i, minTime);
        rest := rest[1..];
      }
      assert rest == [];
    }

    method SubtractFromFrames(minTime: int)
      requires ListsOk(cfg.numFrames, framesFree, framesUsed) && |frames| == cfg.numFrames
      modifies `frames
      ensures Shifted(old(frames), frames, framesUsed, |framesUsed|, minTime)
    {
      UsedDistinct(cfg.numFrames, framesFree, framesUsed);
      var i := 0;
      while i < |framesUsed|
        invariant 0 <= i <= |framesUsed| && |frames| == cfg.numFrames
        invariant Shifted(old(frames), frames, framesUsed, i, minTime)
      {
        var u := framesUsed[i];
        ShiftedNext(old(frames), frames, framesUsed, i, minTime);
        frames := frames[u := frames[u].(time := frames[u].time - minTime)];
        i := i + 1;
      }
    }

    /** All times and the clock are reduced alike, which changes no age. */
    method SubtractTimes(minTime: int)
      requires Consistent() && LeastTime(frames, framesUsed, |framesUsed|, Some(minTime)) && 0 <= minTime <= time
      modifies `frames, `time
      ensures Consistent() && State() == old(State()) && time == old(time) - minTime
    {
      SubtractFromFrames(minTime);
      time := time - minTime;
      ShiftedSame(cfg.mtu, old(time), old(frames), frames, accepted, framesUsed, framesUsedTree, minTime);
    }

    /** Removes the timed-out frames, keeps all other ages, and leaves room to increment the clock. */
    method ReduceTimes()
      requires Consistent()
      modifies `framesFree, `framesUsed, `framesUsedTree, `frames, `time
      ensures Consistent() && State() == Purge(cfg, old(State()))
      ensures if framesUsed == [] then time == 0 else time <= cfg.numFrames
    {
      var minTime := FreeTimedOut();
      if minTime.None? {
        time := 0;
        return;
      }
      LeastTimeBound(cfg, time, frames, accepted, framesUsed, minTime.value);
      SubtractTimes(minTime.value);
    }

    method Tick()
      requires Consistent() && time < MAX_TIME
      modifies `time
      ensures Consistent() && State() == Older(old(State()))
    {
      OlderEntries(cfg.mtu, time, frames, accepted, framesUsed);
      time := time + 1;
    }

    /** The packet clock moves on, and with it the age of every used frame. */
    method EndOfPacket()
      requires Valid()
      modifies `framesFree, `framesUsed, `framesUsedTree, `frames, `time
      ensures Valid() && State() == EndPacket(cfg, old(State()), old(time) == MAX_TIME)
    {
      EndPacketOk(cfg, State(), time == MAX_TIME);
      if time == MAX_TIME {
        ReduceTimes();
        if framesUsed != [] {
          Tick();
        }
      } else {
        Tick();
      }
    }

    /** Processes chunks of the input packet until one completes a frame. */
    method ReadChunks() returns (sent: Option<Bytes>)
      requires Valid() && input.Some? && inPos <= |input.value|
      modifies `framesFree, `framesUsed, `framesUsedTree, `frames, `accepted, `inPos
      ensures Valid()
      ensures var (es, out, rest) := Scan(cfg, old(State()), old(input.value[inPos..]));
              && sent == out && State() == es
              && (sent.Some? ==> inPos <= |input.value| && input.value[inPos..] == rest)
    {
      ghost var es, b := State(), input.value[inPos..];
      sent := None;
      while inPos < |input.value|
        invariant Valid() && inPos <= |input.value|
        invariant sent == None && Scan(cfg, State(), input.value[inPos..]) == Scan(cfg, es, b)
      {
        var first := FirstChunk(input.value[inPos..]);
        if first.None? { return; }
        ghost var rest := input.value[inPos..];
        var (c, n) := first.value;
        sent := ProcessChunk(c.id, c.piece);
        inPos := inPos + n;
        assert input.value[inPos..] == rest[n..];
        if sent.Some? { return; }
      }
    }

    /** Goes on with the input packet; the result is a completed frame, at which it stops for the output. */
    method ProcessInput() returns (sent: Option<Bytes>)
      requires Valid() && input.Some? && inPos <= |input.value|
      modifies this
      ensures Valid()
      ensures var (es, out, rest) := Scan(cfg, old(State()), old(input.value[inPos..]));
              && sent == out
              && (if sent.Some? then
                    && State() == es && time == old(time)
                    && input == old(input) && inPos <= |input.value| && input.value[inPos..] == rest
                  else
                    State() == EndPacket(cfg, es, old(time) == MAX_TIME) && input == None)
    {
      sent := ReadChunks();
      if sent.None? {
        EndOfPacket();
        input := None;
      }
    }

    method InputHandlerSend(data: Bytes) returns (sent: Option<Bytes>)
      requires Valid() && input == None
      modifies this
      ensures Valid()
      ensures var (es, out, rest) := Scan(cfg, old(State()), data);
              && sent == out
              && (if sent.Some? then
                    && State() == es && time == old(time)
                    && input == Some(data) && inPos <= |data| && data[inPos..] == rest
                  else
                    State() == EndPacket(cfg, es, old(time) == MAX_TIME) && input == None)
    {
      input := Some(data);
      inPos := 0;
      assert data[0..] == data;
      sent := ProcessInput();
    }

    /** The rest of the input packet, if the output takes every frame; the frames that it gets. */
    method ReceiveRest() returns (frames: seq<Bytes>)
      requires Valid() && input.Some? && inPos <= |input.value|
      modifies this
      ensures Valid() && input == None
      ensures var (es, more) := Feed(cfg, old(State()), ParsePacket(old(input.value[inPos..])));
              frames == more && State() == EndPacket(cfg, es, old(time) == MAX_TIME)
      decreases |input.value| - inPos
    {
      ScanIsFeed(cfg, State(), input.value[inPos..]);
      var sent := ProcessInput();
      if sent.None? {
        return [];
      }
      var more := ReceiveRest();
      frames := [sent.value] + more;
    }

    /** A whole packet: the frames that its chunks complete come out, in order, and the packet clock moves on. */
    method ReceivePacket(data: Bytes) returns (frames: seq<Bytes>)
      requires Valid() && input == None
      modifies this
      ensures Valid() && input == None
      ensures var (es, more) := Feed(cfg, old(State()), ParsePacket(data));
              frames == more && State() == EndPacket(cfg, es, old(time) == MAX_TIME)
    {
      input, inPos := Some(data), 0;
      assert data[0..] == data;
      frames := ReceiveRest();
    }
  }

  lemma AllFree(n: nat)
    ensures ListsOk(n, seq(n, i => i), [])
  {
    DistinctPairs(seq(n, i => i) + [], n);
  }
}
