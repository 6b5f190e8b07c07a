/**
  Chunks of protocol/fragmentproto.h: how they are laid out in a packet, and what it takes for the
  pieces of a frame to cover it exactly.
*/
module FragmentChunks {
  import opened Common

  const HEADER: int := 7

  /** One chunk: bytes of a frame from position `start` on; `last` if the frame ends with them. */
  datatype Piece = Piece(start: nat, data: Bytes, last: bool) {
    function End(): nat { start + |data| }
  }

  datatype Chunk = Chunk(id: nat, piece: Piece) {
    ghost predicate Fits() {
      id < UINT16_COUNT && piece.start < UINT16_COUNT && |piece.data| < UINT16_COUNT
    }
  }

  // ----- packets

  function Header(c: Chunk): (b: Bytes)
    requires c.Fits()
    ensures |b| == HEADER
  {
    [Low(c.id), High(c.id), Low(c.piece.start), High(c.piece.start), Low(|c.piece.data|), High(|c.piece.data|),
     if c.piece.last then 1 else 0]
  }

  function EncodeChunk(c: Chunk): Bytes
    requires c.Fits()
  {
    Header(c) + c.piece.data
  }

  /** A packet is a sequence of chunks, one after the other. */
  function EncodePacket(cs: seq<Chunk>): Bytes
    requires forall c :: c in cs ==> c.Fits()
  {
    if cs == [] then [] else EncodeChunk(cs[0]) + EncodePacket(cs[1..])
  }

  /** The first chunk of b and how many bytes it takes, or None if b does not start with a whole, well-formed one. */
  function FirstChunk(b: Bytes): (r: Option<(Chunk, nat)>)
    ensures r.Some? ==> HEADER <= r.value.1 <= |b| && r.value.0.Fits()
  {
    if |b| < HEADER then None else
      var len := Le16(b[4], b[5]);
      if b[6] > 1 || |b| - HEADER < len then None
      else Some((Chunk(Le16(b[0], b[1]), Piece(Le16(b[2], b[3]), b[HEADER..HEADER + len], b[6] == 1)), HEADER + len))
  }

  /** The chunks that the assembler sees in a packet: up to the first malformed one. */
  function ParsePacket(b: Bytes): seq<Chunk> {
    var first := FirstChunk(b);
    if first.None? then [] else [first.value.0] + ParsePacket(b[first.value.1..])
  }

  lemma Between(a: Bytes, b: Bytes, c: Bytes)
    ensures (a + b + c)[|a|..|a| + |b|] == b && forall i :: 0 <= i < |a| ==> (a + b + c)[i] == a[i]
  {}

  /** The fields of a header are those of the chunk. */
  lemma HeaderFields(c: Chunk)
    requires c.Fits()
    ensures var h := Header(c);
            && h[0] as int + 256 * h[1] as int == Le16(h[0], h[1]) == c.id
            && h[2] as int + 256 * h[3] as int == Le16(h[2], h[3]) == c.piece.start
            && h[4] as int + 256 * h[5] as int == Le16(h[4], h[5]) == |c.piece.data|
            && h[6] == if c.piece.last then 1 else 0
  {
    Le16RoundTrip(c.id);
    Le16RoundTrip(c.piece.start);
    Le16RoundTrip(|c.piece.data|);
  }

  lemma FirstOfEncoded(c: Chunk, rest: Bytes)
    requires c.Fits()
    ensures FirstChunk(EncodeChunk(c) + rest) == Some((c, |EncodeChunk(c)|))
  {
    Between(Header(c), c.piece.data, rest);
    HeaderFields(c);
  }

  lemma ParseCons(c: Chunk, rest: Bytes)
    requires c.Fits()
    ensures ParsePacket(EncodeChunk(c) + rest) == [c] + ParsePacket(rest)
  {
    FirstOfEncoded(c, rest);
    assert (EncodeChunk(c) + rest)[|EncodeChunk(c)|..] == rest;
  }

  /** A packet is read back as the chunks it was written from. */
  lemma {:induction false} PacketRoundTrip(cs: seq<Chunk>)
    requires forall c :: c in cs ==> c.Fits()
    ensures ParsePacket(EncodePacket(cs)) == cs
  {
    if cs == [] {
    } else {
      PacketRoundTrip(cs[1..]);
      ParseCons(cs[0], EncodePacket(cs[1..]));
    }
  }

  lemma {:induction false} EncodeAppend(cs: seq<Chunk>, c: Chunk)
    requires c.Fits() && forall d :: d in cs ==> d.Fits()
    ensures EncodePacket(Snoc(cs, c)) == EncodePacket(cs) + EncodeChunk(c)
  {
    if cs == [] {
      assert Snoc(cs, c) == [c] && EncodePacket([c][1..]) == [];
    } else {
      assert Snoc(cs, c)[1..] == Snoc(cs[1..], c);
      EncodeAppend(cs[1..], c);
    }
  }

  // ----- covering a frame

  /** chunks_overlap */
  predicate Overlap(p: Piece, q: Piece) {
    p.End() > q.start && q.End() > p.start
  }

  function Sum(ps: seq<Piece>): nat {
    if ps == [] then 0 else Sum(ps[..|ps| - 1]) + |ps[|ps| - 1].data|
  }

  function Range(start: nat, end: nat): (r: set<nat>)
    ensures forall i: nat :: i in r <==> start <= i < end
    decreases end - start
  {
    if start >= end then {} else {start} + Range(start + 1, end)
  }

  lemma {:induction false} RangeSize(start: nat, end: nat)
    requires start <= end
    ensures |Range(start, end)| == end - start
    decreases end - start
  {
    if start < end {
      RangeSize(start + 1, end);
    }
  }

  predicate Covers(p: Piece, i: nat) {
    p.start <= i < p.End()
  }

  function Cover(ps: seq<Piece>): set<nat> {
    if ps == [] then {} else Cover(ps[..|ps| - 1]) + Range(ps[|ps| - 1].start, ps[|ps| - 1].End())
  }

  ghost predicate Disjoint(ps: seq<Piece>) {
    forall i, j :: 0 <= i < j < |ps| ==> !Overlap(ps[i], ps[j])
  }

  lemma {:induction false} CoverMembers(ps: seq<Piece>, i: nat)
    ensures i in Cover(ps) <==> exists k :: 0 <= k < |ps| && Covers(ps[k], i)
  {
    if ps == [] {
    } else {
      var n := |ps| - 1;
      CoverMembers(ps[..n], i);
      if k :| 0 <= k < |ps| && Covers(ps[k], i) {
        assert k < n ==> ps[..n][k] == ps[k];
      }
      if k :| 0 <= k < |ps[..n]| && Covers(ps[..n][k], i) {
        assert ps[k] == ps[..n][k];
      }
    }
  }

  lemma {:induction false} CoverSize(ps: seq<Piece>)
    requires Disjoint(ps)
    ensures |Cover(ps)| == Sum(ps)
  {
    if ps == [] {
    } else {
      var n, p := |ps| - 1, ps[|ps| - 1];
      CoverSize(ps[..n]);
      RangeSize(p.start, p.End());
      forall i | i in Cover(ps[..n])
        ensures i !in Range(p.start, p.End())
      {
        CoverMembers(ps[..n], i);
        var k :| 0 <= k < n && Covers(ps[..n][k], i);
        assert !Overlap(ps[k], ps[n]);
      }
      assert Cover(ps[..n]) !! Range(p.start, p.End());
    }
  }

  ghost predicate Within(ps: seq<Piece>, end: nat) {
    forall k :: 0 <= k < |ps| ==> ps[k].End() <= end
  }

  /** Exactly one piece has a byte for position i. */
  ghost predicate CoveredOnce(ps: seq<Piece>, i: nat) {
    exists k :: 0 <= k < |ps| && Covers(ps[k], i) && forall j :: 0 <= j < |ps| && j != k ==> !Covers(ps[j], i)
  }

  lemma SubsetSize<T>(a: set<T>, b: set<T>)
    requires a <= b
    ensures |a| <= |b|
    ensures |a| == |b| ==> a == b
  {
    assert b == a + (b - a);
    assert |b| == |a| + |b - a|;
  }

  /**
    Disjoint pieces within [0, end) never add up to more than end, and if they add up to end, every
    position is covered, by exactly one of them.
  */
  lemma DisjointPiecesTile(ps: seq<Piece>, end: nat)
    requires Disjoint(ps) && Within(ps, end)
    ensures Sum(ps) <= end
    ensures Sum(ps) == end ==> forall i: nat :: i < end ==> CoveredOnce(ps, i)
  {
    CoverSize(ps);
    RangeSize(0, end);
    forall i | i in Cover(ps)
      ensures i in Range(0, end)
    {
      CoverMembers(ps, i);
    }
    SubsetSize(Cover(ps), Range(0, end));
    if Sum(ps) == end {
      forall i: nat | i < end
        ensures CoveredOnce(ps, i)
      {
        assert i in Cover(ps);
        CoverMembers(ps, i);
        var k :| 0 <= k < |ps| && Covers(ps[k], i);
        forall j | 0 <= j < |ps| && j != k
          ensures !Covers(ps[j], i)
        {
          assert j < k ==> !Overlap(ps[j], ps[k]);
          assert k < j ==> !Overlap(ps[k], ps[j]);
        }
      }
    }
  }

  /** The byte that the pieces put at position i (the newest piece wins, if several do). */
  function ByteAt(ps: seq<Piece>, i: nat): byte {
    if ps == [] then 0
    else
      var p := ps[|ps| - 1];
      if Covers(p, i) then p.data[i - p.start] else ByteAt(ps[..|ps| - 1], i)
  }

  function Contents(ps: seq<Piece>, length: nat): Bytes {
    seq(length, i requires 0 <= i < length => ByteAt(ps, i))
  }

  /** A byte of the contents is the payload byte of a piece that covers its position. */
  lemma {:induction false} ByteFromPiece(ps: seq<Piece>, i: nat)
    requires exists k :: 0 <= k < |ps| && Covers(ps[k], i)
    ensures exists k :: 0 <= k < |ps| && Covers(ps[k], i) && ByteAt(ps, i) == ps[k].data[i - ps[k].start]
  {
    var n := |ps| - 1;
    if !Covers(ps[n], i) {
      var k :| 0 <= k < |ps| && Covers(ps[k], i);
      assert ps[..n][k] == ps[k];
      ByteFromPiece(ps[..n], i);
      var j :| 0 <= j < n && Covers(ps[..n][j], i) && ByteAt(ps[..n], i) == ps[..n][j].data[i - ps[..n][j].start];
      assert ps[j] == ps[..n][j];
    }
  }
}
