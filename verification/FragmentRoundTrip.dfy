/**
  When frames that are split and put together again come out as they went in, also if frames are cancelled
  in the middle. The frame id is not advanced then, so the next frame is sent under the id of what the
  assembler has of the cancelled one.
*/
module FragmentRoundTrip {
  import opened Common
  import opened FragmentChunks
  import opened FragmentAssembler
  import D = FragmentDisassembler

  // ----- one frame

  /** The pieces, in this order, are the bytes of the start of a frame. */
  ghost predicate InOrder(ps: seq<Piece>, bytes: Bytes) {
    && Disjoint(ps) && Within(ps, |bytes|)
    && Length(ps).None?
    && Sum(ps) == |bytes| && Contents(ps, |bytes|) == bytes
  }

  lemma NextInOrder(ps: seq<Piece>, bytes: Bytes, p: Piece)
    requires InOrder(ps, bytes) && p.start == |bytes|
    ensures Agrees(ps, p) && Complete(Snoc(ps, p)) == p.last
    ensures Contents(Snoc(ps, p), p.End()) == bytes + p.data
    ensures p.last ==> Length(Snoc(ps, p)) == Some(p.End())
    ensures !p.last ==> InOrder(Snoc(ps, p), bytes + p.data)
  {
    LengthAppend(ps, p);
    assert Snoc(ps, p)[..|ps|] == ps;
    forall i | 0 <= i < p.End()
      ensures ByteAt(Snoc(ps, p), i) == (bytes + p.data)[i]
    {
      assert i < |bytes| ==> Contents(ps, |bytes|)[i] == ByteAt(ps, i);
    }
  }

  // ----- what can be told from the chunks that were sent

  /**
    The pieces that the assembler has under the id of the frame being written; whether it had none when
    that frame was begun; and how many frames were written whole since the first that was begun while it had some.
  */
  datatype Tracker = Tracker(held: seq<Piece>, clean: bool, since: nat)

  const AT_START := Tracker([], true, 0)

  ghost predicate Clashes(held: seq<Piece>, p: Piece) {
    exists k :: 0 <= k < |held| && Overlap(held[k], p)
  }

  /** A piece that overlaps with another, or takes the last place for one, costs them all. */
  ghost function Kept(cfg: Config, held: seq<Piece>, p: Piece): seq<Piece> {
    if Clashes(held, p) || |held| + 1 == cfg.maxChunks then [] else Snoc(held, p)
  }

  predicate Clean(t: Tracker, c: Chunk) {
    if c.piece.start == 0 then t.held == [] else t.clean
  }

  ghost function Track(cfg: Config, t: Tracker, c: Chunk): Tracker {
    if c.piece.last then Tracker([], true, if t.since > 0 || !Clean(t, c) then t.since + 1 else 0)
    else Tracker(Kept(cfg, t.held, c.piece), Clean(t, c), t.since)
  }

  ghost function TrackFrom(cfg: Config, t: Tracker, cs: seq<Chunk>): (t': Tracker)
    ensures t'.since >= t.since
    decreases |cs|
  {
    if cs == [] then t else TrackFrom(cfg, Track(cfg, t, cs[0]), cs[1..])
  }

  /** Reading on from r; None unless all of cs can be read in order. */
  function ReadFrom(r: D.Reader, cs: seq<Chunk>): Option<D.Reader>
    decreases |cs|
  {
    if cs == [] then Some(r)
    else if D.Continues(r, cs[0]) then ReadFrom(D.Read(r, cs[0]), cs[1..])
    else None
  }

  /** The frame that ends with chunk c, if one does. */
  function Ends(r: D.Reader, c: Chunk): Option<Bytes> {
    if c.piece.last then Some(D.Rewound(r, c).bytes + c.piece.data) else None
  }

  /** For each chunk, the frame that ends with it. */
  function Due(r: D.Reader, cs: seq<Chunk>): (due: seq<Option<Bytes>>)
    ensures |due| == |cs|
    decreases |cs|
  {
    if cs == [] then [] else [Ends(r, cs[0])] + Due(D.Read(r, cs[0]), cs[1..])
  }

  // ----- the pool while only clean frames were written whole

  /** The assembler can hold what the reader has read. */
  ghost predicate Fits(cfg: Config, r: D.Reader) {
    && r.peak < cfg.maxChunks && r.reach <= cfg.mtu
    && forall k :: 0 <= k < |r.done| ==> r.done[k].chunks <= cfg.maxChunks && |r.done[k].frame| <= cfg.mtu
  }

  lemma FitsBefore(cfg: Config, r: D.Reader, c: Chunk)
    requires Fits(cfg, D.Read(r, c))
    ensures Fits(cfg, r)
    ensures var r0 := D.Rewound(r, c);
            && |r0.bytes| + |c.piece.data| <= cfg.mtu && |r0.pieces| + 1 <= cfg.maxChunks
            && (!c.piece.last ==> |r0.pieces| + 1 < cfg.maxChunks)
  {
    var r0, done := D.Rewound(r, c), D.Read(r, c).done;
    assert forall k :: 0 <= k < |r.done| ==> r.done[k] == done[k];
    if c.piece.last {
      assert done[|r.done|] == D.Done(r0.bytes + c.piece.data, |r0.pieces| + 1);
    }
  }

  /** The pool has these pieces under the id and nothing else, and they are at most `age` packets past. */
  ghost predicate HoldsOnly(es: seq<Entry>, id: nat, held: seq<Piece>, age: nat) {
    if held == [] then es == [] else |es| == 1 && es[0] == Entry(id, held, es[0].age) && es[0].age <= age
  }

  ghost predicate Parts(held: seq<Piece>) {
    Length(held).None? && forall k :: 0 <= k < |held| ==> held[k].data != []
  }

  /**
    A frame of which e bytes were sent cannot be completed with these pieces: some before e are missing, or
    there is one from another frame ahead.
  */
  ghost predicate Blocked(held: seq<Piece>, e: nat) {
    (Within(held, e) && Sum(held) < e) || exists k :: 0 <= k < |held| && held[k].End() > e
  }

  ghost predicate Follows(es: seq<Entry>, r: D.Reader, t: Tracker, age: nat) {
    && HoldsOnly(es, r.id, t.held, age) && Parts(t.held)
    && if r.pieces == [] then r.bytes == [] && t.held == []
       else if t.clean then t.held == r.pieces && InOrder(r.pieces, r.bytes)
       else Blocked(t.held, |r.bytes|)
  }

  lemma HeldReady(cfg: Config, es: seq<Entry>, id: nat, held: seq<Piece>)
    requires cfg.Valid() && HoldsOnly(es, id, held, 1)
    ensures var (ready, i) := Prepare(cfg, es, id); i == 0 && |ready| == 1 && ready[0].pieces == held
  {}

  lemma NotLast(cfg: Config, es: seq<Entry>, held: seq<Piece>, c: Chunk)
    requires cfg.Valid() && HoldsOnly(es, c.id, held, 1) && Parts(held)
    requires !c.piece.last && c.piece.data != [] && c.piece.End() <= cfg.mtu
    ensures var (es', out) := Process(cfg, es, c);
            out.None? && HoldsOnly(es', c.id, Kept(cfg, held, c.piece), 0) && Parts(Kept(cfg, held, c.piece))
  {
    HeldReady(cfg, es, c.id, held);
    LengthAppend(held, c.piece);
  }

  /** A chunk of a frame that was begun with nothing held. */
  lemma CleanStep(cfg: Config, es: seq<Entry>, r: D.Reader, c: Chunk)
    requires cfg.Valid() && HoldsOnly(es, c.id, r.pieces, 1) && InOrder(r.pieces, r.bytes)
    requires c.piece.start == |r.bytes| && c.piece.End() <= cfg.mtu && |r.pieces| + 1 <= cfg.maxChunks
    ensures c.piece.last ==> Process(cfg, es, c) == ([], Some(r.bytes + c.piece.data))
    ensures !c.piece.last && |r.pieces| + 1 < cfg.maxChunks ==>
              Kept(cfg, r.pieces, c.piece) == Snoc(r.pieces, c.piece)
                && InOrder(Snoc(r.pieces, c.piece), r.bytes + c.piece.data)
  {
    NextInOrder(r.pieces, r.bytes, c.piece);
    HeldReady(cfg, es, c.id, r.pieces);
  }

  lemma BlockedMore(cfg: Config, held: seq<Piece>, p: Piece)
    requires Parts(held) && Blocked(held, p.start) && p.data != []
    ensures Blocked(Kept(cfg, held, p), p.End())
  {
    LengthAppend(held, p);
    if k :| 0 <= k < |held| && held[k].End() > p.start {
      if Kept(cfg, held, p) != [] {
        assert !Overlap(held[k], p);
        assert Snoc(held, p)[k].End() > p.End();
      }
    }
  }

  lemma BlockedLast(cfg: Config, held: seq<Piece>, p: Piece)
    requires Parts(held) && Blocked(held, p.start) && p.last
    ensures !AddPiece(cfg.maxChunks, held, p).Finished?
  {
    LengthAppend(held, p);
    if k :| 0 <= k < |held| && held[k].End() > p.start {
      assert Overlap(held[k], p) || held[k].End() > p.End();
    }
  }

  // ----- the pool after a frame was lost

  /** `id` comes one to `since` frames after `past`. */
  predicate Recent(id: nat, past: nat, since: nat) {
    1 <= (id - past) % UINT16_COUNT <= since
  }

  /** The frames with a known length were written whole, and not longer ago. */
  ghost predicate Late(es: seq<Entry>, id: nat, since: nat) {
    forall e :: e in es && Length(e.pieces).Some? ==> Recent(id, e.id, since)
  }

  lemma NextRecent(id: nat, past: nat, since: nat)
    requires since + 1 < UINT16_COUNT
    ensures Recent(id, past, since) ==> Recent((id + 1) % UINT16_COUNT, past, since + 1)
    ensures Recent((id + 1) % UINT16_COUNT, id, since + 1)
  {
    var d := (id - past) % UINT16_COUNT;
    if Recent(id, past, since) {
      StepModulo(id, past);
    }
    StepModulo(id, id);
  }

  lemma StepModulo(id: nat, past: nat)
    requires (id - past) % UINT16_COUNT + 1 < UINT16_COUNT
    ensures ((id + 1) % UINT16_COUNT - past) % UINT16_COUNT == (id - past) % UINT16_COUNT + 1
  {
    var q, k := (id + 1) / UINT16_COUNT, (id - past) / UINT16_COUNT;
    var d := (id - past) % UINT16_COUNT;
    assert (id + 1) % UINT16_COUNT - past == (k - q) * UINT16_COUNT + (d + 1);
  }

  lemma ReadyFrom(cfg: Config, es: seq<Entry>, id: nat)
    requires cfg.Valid()
    ensures forall e :: e in Prepare(cfg, es, id).0 ==> e in es || e == Entry(id, [], 0)
  {}

  /** A chunk of the current frame completes something only if it is the last one of its frame. */
  lemma LateStep(cfg: Config, es: seq<Entry>, id: nat, c: Chunk, since: nat)
    requires cfg.Valid() && Late(es, id, since) && c.id == id
    requires since < UINT16_COUNT && (c.piece.last ==> since + 1 < UINT16_COUNT)
    ensures var (es', out) := Process(cfg, es, c);
            && (out.Some? ==> c.piece.last)
            && Late(es', if c.piece.last then (id + 1) % UINT16_COUNT else id,
                    if c.piece.last then since + 1 else since)
  {
    var es' := Process(cfg, es, c).0;
    var id', since' := if c.piece.last then (id + 1) % UINT16_COUNT else id, if c.piece.last then since + 1 else since;
    ReadyFrom(cfg, es, id);
    var (ready, i) := Prepare(cfg, es, id);
    assert ready[i] in ready;
    LengthAppend(ready[i].pieces, c.piece);
    forall e | e in es' && Length(e.pieces).Some?
      ensures Recent(id', e.id, since')
    {
      if c.piece.last {
        NextRecent(id, e.id, since);
      }
    }
  }

  // ----- one chunk

  /** A chunk of a frame that was begun with nothing held does what the reader expects. */
  lemma CleanFollows(cfg: Config, es: seq<Entry>, r: D.Reader, t: Tracker, c: Chunk)
    requires cfg.Valid() && Follows(es, r, t, 1) && D.Continues(r, c) && Fits(cfg, D.Read(r, c)) && Clean(t, c)
    ensures var (es', out) := Process(cfg, es, c);
            out == Ends(r, c) && Follows(es', D.Read(r, c), Track(cfg, t, c), 0)
  {
    FitsBefore(cfg, r, c);
    var r0 := D.Rewound(r, c);
    CleanStep(cfg, es, r0, c);
    if !c.piece.last {
      NotLast(cfg, es, t.held, c);
    }
  }

  /** A chunk of a frame that was begun while pieces were held completes nothing. */
  lemma BlockedFollows(cfg: Config, es: seq<Entry>, r: D.Reader, t: Tracker, c: Chunk)
    requires cfg.Valid() && Follows(es, r, t, 1) && D.Continues(r, c) && Fits(cfg, D.Read(r, c)) && !Clean(t, c)
    ensures Process(cfg, es, c).1.None?
    ensures !c.piece.last ==> Follows(Process(cfg, es, c).0, D.Read(r, c), Track(cfg, t, c), 0)
    ensures c.piece.last ==> Late(Process(cfg, es, c).0, D.Read(r, c).id, 1)
  {
    FitsBefore(cfg, r, c);
    assert c.piece.start == 0 ==> t.held[0].End() > 0;
    assert Blocked(t.held, c.piece.start);
    if c.piece.last {
      HeldReady(cfg, es, c.id, t.held);
      BlockedLast(cfg, t.held, c.piece);
      LateStep(cfg, es, r.id, c, 0);
    } else {
      NotLast(cfg, es, t.held, c);
      BlockedMore(cfg, t.held, c.piece);
    }
  }

  // ----- several chunks

  /** What each of the chunks completes. */
  ghost function FeedEach(cfg: Config, es: seq<Entry>, cs: seq<Chunk>): (r: (seq<Entry>, seq<Option<Bytes>>))
    requires cfg.Valid()
    ensures |r.1| == |cs|
    decreases |cs|
  {
    if cs == [] then (es, []) else
      var (es', out) := Process(cfg, es, cs[0]);
      var (last, outs) := FeedEach(cfg, es', cs[1..]);
      (last, [out] + outs)
  }

  function Somes<T>(s: seq<Option<T>>): (r: seq<T>)
    ensures |r| <= |s|
  {
    if s == [] then [] else if s[0].Some? then [s[0].value] + Somes(s[1..]) else Somes(s[1..])
  }

  lemma {:induction false} SomesPlus<T>(a: seq<Option<T>>, b: seq<Option<T>>)
    ensures Somes(a + b) == Somes(a) + Somes(b)
  {
    if a == [] {
      assert a + b == b;
    } else {
      SomesPlus(a[1..], b);
      var s := a + b;
      assert s[0] == a[0] && s[1..] == a[1..] + b;
      if a[0].Some? {
        Regroup([a[0].value], Somes(a[1..]), Somes(b));
      }
    }
  }

  lemma {:induction false} FeedIsEach(cfg: Config, es: seq<Entry>, cs: seq<Chunk>)
    requires cfg.Valid()
    ensures Feed(cfg, es, cs) == (FeedEach(cfg, es, cs).0, Somes(FeedEach(cfg, es, cs).1))
    decreases |cs|
  {
    if cs == [] {
    } else {
      var (es', out) := Process(cfg, es, cs[0]);
      FeedIsEach(cfg, es', cs[1..]);
      assert ([out] + FeedEach(cfg, es', cs[1..]).1)[1..] == FeedEach(cfg, es', cs[1..]).1;
    }
  }

  lemma FramesAppend(a: seq<D.Done>, d: D.Done)
    ensures D.Frames(Snoc(a, d)) == D.Frames(a) + [d.frame]
  {}

  /** The frames due are those that the reader reads. */
  lemma {:induction false} DueIsRead(r: D.Reader, cs: seq<Chunk>)
    requires ReadFrom(r, cs).Some?
    ensures D.Frames(ReadFrom(r, cs).value.done) == D.Frames(r.done) + Somes(Due(r, cs))
    decreases |cs|
  {
    if cs == [] {
    } else {
      var c, r', due := cs[0], D.Read(r, cs[0]), Due(D.Read(r, cs[0]), cs[1..]);
      DueIsRead(r', cs[1..]);
      assert ([Ends(r, c)] + due)[1..] == due;
      var r0 := D.Rewound(r, c);
      FramesAppend(r.done, D.Done(r0.bytes + c.piece.data, |r0.pieces| + 1));
    }
  }

  /** After a frame was lost, no more frames come out than are due. */
  lemma {:induction false} LateFeed(cfg: Config, es: seq<Entry>, r: D.Reader, t: Tracker, cs: seq<Chunk>)
    requires cfg.Valid() && ReadFrom(r, cs).Some? && t.since > 0 && Late(es, r.id, t.since)
    requires TrackFrom(cfg, t, cs).since < UINT16_COUNT
    ensures var (es', outs) := FeedEach(cfg, es, cs);
            && Late(es', ReadFrom(r, cs).value.id, TrackFrom(cfg, t, cs).since)
            && |Somes(outs)| <= |Somes(Due(r, cs))|
    decreases |cs|
  {
    if cs == [] {
    } else {
      var c := cs[0];
      var (es', out) := Process(cfg, es, c);
      var r', t' := D.Read(r, c), Track(cfg, t, c);
      LateStep(cfg, es, r.id, c, t.since);
      LateFeed(cfg, es', r', t', cs[1..]);
      assert ([out] + FeedEach(cfg, es', cs[1..]).1)[1..] == FeedEach(cfg, es', cs[1..]).1;
      assert ([Ends(r, c)] + Due(r', cs[1..]))[1..] == Due(r', cs[1..]);
    }
  }

  /**
    After chunks for which `due` was due and `outs` came out: they are the same until the first frame is lost,
    and then never again; and fewer frames come out as long as the frame id has not come round.
  */
  ghost predicate Settled(es: seq<Entry>, r: D.Reader, t: Tracker, outs: seq<Option<Bytes>>, due: seq<Option<Bytes>>,
                          age: nat) {
    if t.since == 0 then outs == due && Follows(es, r, t, age)
    else outs != due && (t.since < UINT16_COUNT ==> Late(es, r.id, t.since) && |Somes(outs)| < |Somes(due)|)
  }

  lemma {:induction false} FitsBeforeAll(cfg: Config, r: D.Reader, cs: seq<Chunk>)
    requires ReadFrom(r, cs).Some? && Fits(cfg, ReadFrom(r, cs).value)
    ensures Fits(cfg, r)
    decreases |cs|
  {
    if cs == [] {
    } else {
      FitsBeforeAll(cfg, D.Read(r, cs[0]), cs[1..]);
      FitsBefore(cfg, r, cs[0]);
    }
  }

  lemma SettledCons(es: seq<Entry>, r: D.Reader, t: Tracker, outs: seq<Option<Bytes>>, due: seq<Option<Bytes>>,
                    age: nat, x: Option<Bytes>)
    requires Settled(es, r, t, outs, due, age)
    ensures Settled(es, r, t, [x] + outs, [x] + due, age)
  {
    assert ([x] + outs)[1..] == outs && ([x] + due)[1..] == due;
  }

  lemma {:induction false} FeedSettles(cfg: Config, es: seq<Entry>, r: D.Reader, t: Tracker, cs: seq<Chunk>)
    requires cfg.Valid() && Follows(es, r, t, 1) && t.since == 0
    requires ReadFrom(r, cs).Some? && Fits(cfg, ReadFrom(r, cs).value)
    ensures var (es', outs) := FeedEach(cfg, es, cs);
            Settled(es', ReadFrom(r, cs).value, TrackFrom(cfg, t, cs), outs, Due(r, cs), if cs == [] then 1 else 0)
    decreases |cs|
  {
    if cs == [] {
    } else {
      var c, rest := cs[0], cs[1..];
      var (es', out) := Process(cfg, es, c);
      var r', t' := D.Read(r, c), Track(cfg, t, c);
      var (last, outs) := FeedEach(cfg, es', rest);
      FitsBeforeAll(cfg, r', rest);
      if Clean(t, c) {
        CleanFollows(cfg, es, r, t, c);
      } else {
        BlockedFollows(cfg, es, r, t, c);
      }
      if t'.since == 0 {
        FeedSettles(cfg, es', r', t', rest);
        SettledCons(last, ReadFrom(r', rest).value, TrackFrom(cfg, t', rest), outs, Due(r', rest),
                    if rest == [] then 1 else 0, out);
      } else {
        assert ([out] + outs)[0] != ([Ends(r, c)] + Due(r', rest))[0];
        assert ([out] + outs)[1..] == outs && ([Ends(r, c)] + Due(r', rest))[1..] == Due(r', rest);
        if TrackFrom(cfg, t', rest).since < UINT16_COUNT {
          LateFeed(cfg, es', r', t', rest);
        }
      }
    }
  }

  // ----- whole packets

  /** The pool and the frames that come out after the packets, any of which may make the clock be rebased. */
  ghost function Assembled(cfg: Config, packets: seq<Bytes>, rebases: seq<bool>): (seq<Entry>, seq<Bytes>)
    requires cfg.Valid() && |packets| == |rebases|
  {
    if packets == [] then ([], [])
    else
      var n := |packets| - 1;
      var (es, frames) := Assembled(cfg, packets[..n], rebases[..n]);
      var (es', more) := Feed(cfg, es, ParsePacket(packets[n]));
      (EndPacket(cfg, es', rebases[n]), frames + more)
  }

  /** The same, with what each chunk completes. */
  ghost function AssembledEach(cfg: Config, packets: seq<Bytes>, rebases: seq<bool>): (seq<Entry>, seq<Option<Bytes>>)
    requires cfg.Valid() && |packets| == |rebases|
  {
    if packets == [] then ([], [])
    else
      var n := |packets| - 1;
      var (es, outs) := AssembledEach(cfg, packets[..n], rebases[..n]);
      var (es', more) := FeedEach(cfg, es, ParsePacket(packets[n]));
      (EndPacket(cfg, es', rebases[n]), outs + more)
  }

  lemma {:induction false} AssembledIsEach(cfg: Config, packets: seq<Bytes>, rebases: seq<bool>)
    requires cfg.Valid() && |packets| == |rebases|
    ensures var (es, outs) := AssembledEach(cfg, packets, rebases);
            Assembled(cfg, packets, rebases) == (es, Somes(outs))
  {
    if packets == [] {
    } else {
      var n := |packets| - 1;
      AssembledIsEach(cfg, packets[..n], rebases[..n]);
      var (es, outs) := AssembledEach(cfg, packets[..n], rebases[..n]);
      FeedIsEach(cfg, es, ParsePacket(packets[n]));
      SomesPlus(outs, FeedEach(cfg, es, ParsePacket(packets[n])).1);
    }
  }

  ghost predicate Good(packet: seq<Chunk>) {
    packet != [] && forall c :: c in packet ==> c.Fits()
  }

  ghost function Encoded(packets: seq<seq<Chunk>>): (bs: seq<Bytes>)
    requires forall k :: 0 <= k < |packets| ==> Good(packets[k])
    ensures |bs| == |packets| && forall k :: 0 <= k < |bs| ==> Good(packets[k]) && bs[k] == EncodePacket(packets[k])
  {
    seq(|packets|, k requires 0 <= k < |packets| => assert Good(packets[k]); EncodePacket(packets[k]))
  }

  lemma EndPacketSettled(cfg: Config, es: seq<Entry>, r: D.Reader, t: Tracker, outs: seq<Option<Bytes>>,
                         due: seq<Option<Bytes>>, rebase: bool)
    requires cfg.Valid() && Settled(es, r, t, outs, due, 0)
    ensures Settled(EndPacket(cfg, es, rebase), r, t, outs, due, 1)
  {
    if t.since > 0 {
      forall e' | e' in EndPacket(cfg, es, rebase)
        ensures exists e :: e in es && e.id == e'.id && e.pieces == e'.pieces
      {
        var kept := if rebase then Purge(cfg, es) else es;
        var k :| 0 <= k < |kept| && e' == Older(kept)[k];
        assert kept[k] in kept;
      }
    }
  }

  lemma SettledPlus(es: seq<Entry>, r: D.Reader, t: Tracker, outs: seq<Option<Bytes>>, due: seq<Option<Bytes>>,
                    age: nat, before: seq<Option<Bytes>>)
    requires Settled(es, r, t, outs, due, age)
    ensures Settled(es, r, t, before + outs, before + due, age)
  {
    assert (before + outs)[|before|..] == outs && (before + due)[|before|..] == due;
    SomesPlus(before, outs);
    SomesPlus(before, due);
  }

  /** The next chunks after some of which `due` was due and `outs` came out. */
  lemma MoreSettles(cfg: Config, es: seq<Entry>, r: D.Reader, t: Tracker, outs: seq<Option<Bytes>>,
                    due: seq<Option<Bytes>>, cs: seq<Chunk>)
    requires cfg.Valid() && |outs| == |due| && Settled(es, r, t, outs, due, 1) && cs != []
    requires ReadFrom(r, cs).Some? && Fits(cfg, ReadFrom(r, cs).value)
    ensures var (es', more) := FeedEach(cfg, es, cs);
            Settled(es', ReadFrom(r, cs).value, TrackFrom(cfg, t, cs), outs + more, due + Due(r, cs), 0)
  {
    var (es', more) := FeedEach(cfg, es, cs);
    if t.since == 0 {
      FeedSettles(cfg, es, r, t, cs);
      SettledPlus(es', ReadFrom(r, cs).value, TrackFrom(cfg, t, cs), more, Due(r, cs), 0, outs);
    } else {
      assert (outs + more)[..|outs|] == outs && (due + Due(r, cs))[..|due|] == due;
      if TrackFrom(cfg, t, cs).since < UINT16_COUNT {
        LateFeed(cfg, es, r, t, cs);
        SomesPlus(outs, more);
        SomesPlus(due, Due(r, cs));
      }
    }
  }

  lemma {:induction false} Parted(cfg: Config, r: D.Reader, t: Tracker, a: seq<Chunk>, b: seq<Chunk>)
    ensures ReadFrom(r, a + b) == if ReadFrom(r, a).Some? then ReadFrom(ReadFrom(r, a).value, b) else None
    ensures ReadFrom(r, a).Some? ==> Due(r, a + b) == Due(r, a) + Due(ReadFrom(r, a).value, b)
    ensures TrackFrom(cfg, t, a + b) == TrackFrom(cfg, TrackFrom(cfg, t, a), b)
    decreases |a|
  {
    if a == [] {
      assert a + b == b;
    } else {
      assert (a + b)[1..] == a[1..] + b;
      Parted(cfg, D.Read(r, a[0]), Track(cfg, t, a[0]), a[1..], b);
    }
  }

  /** One packet more, after the chunks `before`. */
  lemma PacketSettles(cfg: Config, before: seq<Chunk>, last: seq<Chunk>, es: seq<Entry>, outs: seq<Option<Bytes>>,
                      rebase: bool)
    requires cfg.Valid() && last != [] && |outs| == |before|
    requires ReadFrom(D.NOTHING, before + last).Some? && Fits(cfg, ReadFrom(D.NOTHING, before + last).value)
    requires ReadFrom(D.NOTHING, before).Some?
    requires Settled(es, ReadFrom(D.NOTHING, before).value, TrackFrom(cfg, AT_START, before), outs,
             Due(D.NOTHING, before), 1)
    ensures var (es', more) := FeedEach(cfg, es, last);
            Settled(EndPacket(cfg, es', rebase), ReadFrom(D.NOTHING, before + last).value,
                    TrackFrom(cfg, AT_START, before + last), outs + more, Due(D.NOTHING, before + last), 1)
  {
    var r, t := ReadFrom(D.NOTHING, before).value, TrackFrom(cfg, AT_START, before);
    Parted(cfg, D.NOTHING, AT_START, before, last);
    MoreSettles(cfg, es, r, t, outs, Due(D.NOTHING, before), last);
    var (es', more) := FeedEach(cfg, es, last);
    EndPacketSettled(cfg, es', ReadFrom(r, last).value, TrackFrom(cfg, t, last), outs + more,
                     Due(D.NOTHING, before) + Due(r, last), rebase);
  }

  lemma EachNext(cfg: Config, packets: seq<seq<Chunk>>, rebases: seq<bool>, n: nat)
    requires cfg.Valid() && |packets| == |rebases| == n + 1 && (forall k :: 0 <= k < |packets| ==> Good(packets[k]))
    ensures var (es, outs) := AssembledEach(cfg, Encoded(packets[..n]), rebases[..n]);
            var (es', more) := FeedEach(cfg, es, packets[n]);
            AssembledEach(cfg, Encoded(packets), rebases) == (EndPacket(cfg, es', rebases[n]), outs + more)
  {
    assert Good(packets[n]);
    assert Encoded(packets)[..n] == Encoded(packets[..n]);
    PacketRoundTrip(packets[n]);
  }

  /** What came out after the packets, and the pool. */
  ghost predicate AllSettled(cfg: Config, cs: seq<Chunk>, es: seq<Entry>, outs: seq<Option<Bytes>>) {
    && |outs| == |cs| && ReadFrom(D.NOTHING, cs).Some?
    && Settled(es, ReadFrom(D.NOTHING, cs).value, TrackFrom(cfg, AT_START, cs), outs, Due(D.NOTHING, cs), 1)
  }

  lemma {:induction false} AssembledSettles(cfg: Config, packets: seq<seq<Chunk>>, rebases: seq<bool>)
    requires cfg.Valid() && |packets| == |rebases| && (forall k :: 0 <= k < |packets| ==> Good(packets[k]))
    requires ReadFrom(D.NOTHING, D.Flatten(packets)).Some? && Fits(cfg, ReadFrom(D.NOTHING, D.Flatten(packets)).value)
    ensures var (es, outs) := AssembledEach(cfg, Encoded(packets), rebases);
            AllSettled(cfg, D.Flatten(packets), es, outs)
  {
    if packets == [] {
    } else {
      var n := |packets| - 1;
      var before, last := D.Flatten(packets[..n]), packets[n];
      assert Good(packets[n]);
      ReadBefore(cfg, before, last);
      AssembledSettles(cfg, packets[..n], rebases[..n]);
      EachNext(cfg, packets, rebases, n);
      var (es, outs) := AssembledEach(cfg, Encoded(packets[..n]), rebases[..n]);
      PacketSettles(cfg, before, last, es, outs, rebases[n]);
    }
  }

  lemma ReadBefore(cfg: Config, before: seq<Chunk>, last: seq<Chunk>)
    requires ReadFrom(D.NOTHING, before + last).Some? && Fits(cfg, ReadFrom(D.NOTHING, before + last).value)
    ensures ReadFrom(D.NOTHING, before).Some? && Fits(cfg, ReadFrom(D.NOTHING, before).value)
  {
    Parted(cfg, D.NOTHING, AT_START, before, last);
    FitsBeforeAll(cfg, ReadFrom(D.NOTHING, before).value, last);
  }

  // ----- disassembler and assembler together

  /** The frames that were written completely. */
  function WholeFrames(run: D.Run): seq<Bytes> {
    if run.s.input.Some? && run.frames != [] then run.frames[..|run.frames| - 1] else run.frames
  }

  /** All that was written has been passed on. */
  predicate Flushed(s: D.State) {
    s.out.None? || s.out.value == []
  }

  /**
    How many frames were written whole since the first that was begun while the assembler had pieces of a
    cancelled one; 0 if none was.
  */
  ghost function SinceLoss(cfg: Config, cs: seq<Chunk>): nat {
    TrackFrom(cfg, AT_START, cs).since
  }

  /** Every frame comes out with the chunk that it ends with, and nothing else comes out. */
  ghost predicate OnTime(cfg: Config, packets: seq<seq<Chunk>>, rebases: seq<bool>)
    requires cfg.Valid() && |packets| == |rebases| && forall k :: 0 <= k < |packets| ==> Good(packets[k])
  {
    AssembledEach(cfg, Encoded(packets), rebases).1 == Due(D.NOTHING, D.Flatten(packets))
  }

  lemma PacketsAreGood(cfg: D.Config, run: D.Run)
    requires cfg.Valid() && D.RunOk(cfg, run)
    ensures forall k :: 0 <= k < |run.packets| ==> Good(run.packets[k])
  {
    forall k | 0 <= k < |run.packets|
      ensures Good(run.packets[k])
    {
      assert D.GoodPacket(cfg, run.packets[k]);
    }
  }

  lemma {:induction false} ReadInParts(p: seq<Chunk>, cs: seq<Chunk>)
    ensures D.ReadAll(p + cs) == if D.ReadAll(p).Some? then ReadFrom(D.ReadAll(p).value, cs) else None
    decreases |cs|
  {
    if cs == [] {
      assert p + cs == p;
    } else {
      assert p + cs == Snoc(p, cs[0]) + cs[1..];
      D.ReadNext(p, cs[0]);
      ReadInParts(Snoc(p, cs[0]), cs[1..]);
    }
  }

  lemma ReadWhole(cs: seq<Chunk>)
    ensures ReadFrom(D.NOTHING, cs) == D.ReadAll(cs)
  {
    assert [] + cs == cs;
    ReadInParts([], cs);
  }

  lemma WholeFramesRead(dcfg: D.Config, run: D.Run)
    requires dcfg.Valid() && D.RunOk(dcfg, run)
    ensures D.ReadAll(D.Written(run)).Some? && D.Frames(D.ReadAll(D.Written(run)).value.done) == WholeFrames(run)
  {}

  /** What the reader makes of the packets that were passed on, and of those still to come. */
  lemma ReadSent(dcfg: D.Config, cfg: Config, run: D.Run)
    requires dcfg.Valid() && D.RunOk(dcfg, run) && Fits(cfg, D.ReadAll(D.Written(run)).value)
    ensures var sent := ReadFrom(D.NOTHING, D.Flatten(run.packets));
            && sent.Some? && Fits(cfg, sent.value)
            && D.Frames(sent.value.done) == Somes(Due(D.NOTHING, D.Flatten(run.packets))) <= WholeFrames(run)
            && (Flushed(run.s) ==> D.Frames(sent.value.done) == WholeFrames(run))
  {
    WholeFramesRead(dcfg, run);
    var sent := D.Flatten(run.packets);
    var held := if run.s.out.Some? then run.s.out.value else [];
    ReadWhole(D.Written(run));
    Parted(cfg, D.NOTHING, AT_START, sent, held);
    var r := ReadFrom(D.NOTHING, sent).value;
    FitsBeforeAll(cfg, r, held);
    DueIsRead(D.NOTHING, sent);
    assert D.Frames([]) == [] && [] + Somes(Due(D.NOTHING, sent)) == Somes(Due(D.NOTHING, sent));
    DueIsRead(r, held);
    assert Flushed(run.s) ==> sent + held == sent;
  }

  /**
    What the assembler makes of the packets of any run of a disassembler, if it has enough chunks and a large enough
    MTU for what was written. Every frame comes out on time if and only if none was written whole that
    was begun while the assembler had pieces of a cancelled one. Then the frames come out in order and
    once each, all of them if no chunk is held back. Otherwise fewer come out, unless the frame id has come round since.
  */
  lemma RoundTripWithin(dcfg: D.Config, cfg: Config, run: D.Run, rebases: seq<bool>)
    requires dcfg.Valid() && cfg.Valid() && D.RunOk(dcfg, run) && |rebases| == |run.packets|
    requires Fits(cfg, D.ReadAll(D.Written(run)).value)
    ensures forall k :: 0 <= k < |run.packets| ==> Good(run.packets[k])
    ensures var n, frames := SinceLoss(cfg, D.Flatten(run.packets)), Assembled(cfg, Encoded(run.packets), rebases).1;
            && (OnTime(cfg, run.packets, rebases) <==> n == 0)
            && (n == 0 ==> frames <= WholeFrames(run) && (Flushed(run.s) ==> frames == WholeFrames(run)))
            && (0 < n < UINT16_COUNT ==> |frames| < |WholeFrames(run)|)
  {
    PacketsAreGood(dcfg, run);
    ReadSent(dcfg, cfg, run);
    AssembledSettles(cfg, run.packets, rebases);
    AssembledIsEach(cfg, Encoded(run.packets), rebases);
  }

  lemma DivideMonotonic(a: nat, b: nat, d: nat)
    requires a <= b && d > 0
    ensures a / d <= b / d
  {
    var p, q := a / d, b / d;
    assert p * d <= a && b < q * d + d;
    assert (q + 1 - p) * d == q * d + d - p * d;
    PositiveFactor(q + 1 - p, d);
  }

  lemma PositiveFactor(x: int, d: nat)
    requires x * d > 0
    ensures x > 0
  {}

  lemma MaxChunksMonotonic(carrierMtu: nat, a: nat, b: nat)
    requires carrierMtu > HEADER && a <= b
    ensures D.MaxChunks(carrierMtu, a) <= D.MaxChunks(carrierMtu, b)
  {
    var payload := carrierMtu - HEADER;
    DivideMonotonic(a + payload - 1, b + payload - 1, payload);
  }

  /** The limits that the client sets up the two ends with. */
  ghost predicate ClientLimits(dcfg: D.Config, cfg: Config) {
    && dcfg.Valid() && dcfg.chunkMtu < 0 && cfg.Valid()
    && dcfg.inputMtu <= cfg.mtu && D.MaxChunks(dcfg.outputMtu, dcfg.inputMtu) <= cfg.maxChunks
  }

  /** With no chunk limit, the number of chunks that fragmentproto_max_chunks_for_frame gives is enough. */
  lemma ChunksSuffice(dcfg: D.Config, cfg: Config, run: D.Run)
    requires ClientLimits(dcfg, cfg) && D.RunOk(dcfg, run)
    ensures D.ReadAll(D.Written(run)).Some? && Fits(cfg, D.ReadAll(D.Written(run)).value)
  {
    WholeFramesRead(dcfg, run);
    var r := D.ReadAll(D.Written(run)).value;
    forall k | 0 <= k < |r.done|
      ensures r.done[k].chunks <= cfg.maxChunks && |r.done[k].frame| <= cfg.mtu
    {
      assert D.FewChunks(dcfg, r.done[k]);
      MaxChunksMonotonic(dcfg.outputMtu, |r.done[k].frame|, dcfg.inputMtu);
    }
  }

  /** While no frame is given up, every frame is begun with nothing held. */
  lemma {:induction false} NoCutsNoLoss(cfg: Config, r: D.Reader, t: Tracker, cs: seq<Chunk>)
    requires ReadFrom(r, cs).Some? && t.since == 0
    requires if r.pieces == [] then r.bytes == [] && t.held == [] else t.clean
    ensures ReadFrom(r, cs).value.cuts >= r.cuts
    ensures ReadFrom(r, cs).value.cuts == r.cuts ==>
              TrackFrom(cfg, t, cs).since == 0 && (ReadFrom(r, cs).value.pieces == [] || TrackFrom(cfg, t, cs).clean)
    decreases |cs|
  {
    if cs == [] {
    } else {
      var c := cs[0];
      if c.piece.start == 0 && r.pieces != [] {
        CutsGrow(D.Read(r, c), cs[1..]);
      } else {
        NoCutsNoLoss(cfg, D.Read(r, c), Track(cfg, t, c), cs[1..]);
      }
    }
  }

  lemma {:induction false} CutsGrow(r: D.Reader, cs: seq<Chunk>)
    requires ReadFrom(r, cs).Some?
    ensures ReadFrom(r, cs).value.cuts >= r.cuts && r.done <= ReadFrom(r, cs).value.done
    decreases |cs|
  {
    if cs == [] {
    } else {
      CutsGrow(D.Read(r, cs[0]), cs[1..]);
    }
  }

  /**
    With the limits that the client uses, in every run, whatever frames come in and whichever are cancelled,
    across the wrap of the 16-bit frame id and any rebase of the packet clock: the frames come out on time if and
    only if no frame was written whole that was begun while the assembler had pieces of a cancelled one.
    So it is if no frame was cancelled in the middle; then the frames come out as they went in, once each.
  */
  lemma RoundTrip(dcfg: D.Config, cfg: Config, evs: seq<D.Event>, rebases: seq<bool>)
    requires ClientLimits(dcfg, cfg) && D.RunOf(dcfg, evs).Some? && |rebases| == |D.RunOf(dcfg, evs).value.packets|
    ensures var run := D.RunOf(dcfg, evs).value;
            && (forall k :: 0 <= k < |run.packets| ==> Good(run.packets[k]))
            && var n, frames := SinceLoss(cfg, D.Flatten(run.packets)), Assembled(cfg, Encoded(run.packets), rebases).1;
               && (OnTime(cfg, run.packets, rebases) <==> n == 0)
               && (n == 0 ==> frames <= WholeFrames(run) && (Flushed(run.s) ==> frames == WholeFrames(run)))
               && (0 < n < UINT16_COUNT ==> |frames| < |WholeFrames(run)|)
               && (run.cuts == 0 ==> n == 0)
  {
    var run := D.RunOf(dcfg, evs).value;
    D.EveryRun(dcfg, evs);
    ChunksSuffice(dcfg, cfg, run);
    RoundTripWithin(dcfg, cfg, run, rebases);
    var sent, held := D.Flatten(run.packets), if run.s.out.Some? then run.s.out.value else [];
    ReadWhole(D.Written(run));
    Parted(cfg, D.NOTHING, AT_START, sent, held);
    CutsGrow(ReadFrom(D.NOTHING, sent).value, held);
    NoCutsNoLoss(cfg, D.NOTHING, AT_START, sent);
  }
}
