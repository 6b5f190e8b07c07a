/** The stream of protocol/packetproto.h: packets, each after its length, and how a stream is cut into packets again. */
module PacketProto {
  import opened Common

  const HEADER := 2

  /** What flow/PacketProtoEncoder.c makes of a packet. */
  function Encode(p: Bytes): (b: Bytes)
    requires |p| < UINT16_COUNT
    ensures |b| == HEADER + |p| && b[0] as int + 256 * b[1] as int == |p| && b[2..] == p
  {
    [Low(|p|), High(|p|)] + p
  }

  ghost predicate Fit(mtu: nat, ps: seq<Bytes>) {
    mtu < UINT16_COUNT && forall k :: 0 <= k < |ps| ==> |ps[k]| <= mtu
  }

  function EncodeAll(mtu: nat, ps: seq<Bytes>): Bytes
    requires Fit(mtu, ps)
  {
    if ps == [] then [] else Encode(ps[0]) + EncodeAll(mtu, ps[1..])
  }

  lemma {:induction false} EncodeNext(mtu: nat, ps: seq<Bytes>, p: Bytes)
    requires Fit(mtu, ps) && |p| <= mtu
    ensures Fit(mtu, ps + [p]) && EncodeAll(mtu, ps + [p]) == EncodeAll(mtu, ps) + Encode(p)
  {
    if ps == [] {
      assert ps + [p] == [p] && EncodeAll(mtu, [p][1..]) == [];
    } else {
      assert (ps + [p])[0] == ps[0] && (ps + [p])[1..] == ps[1..] + [p];
      EncodeNext(mtu, ps[1..], p);
      Regroup(Encode(ps[0]), EncodeAll(mtu, ps[1..]), Encode(p));
    }
  }

  /** What a buffer starts with. */
  datatype First = Incomplete | TooLarge | Packet(data: Bytes)

  function FirstPacket(mtu: nat, b: Bytes): (r: First)
    ensures r.Packet? ==> HEADER + |r.data| <= |b| && |r.data| <= mtu
  {
    if |b| < HEADER then Incomplete
    else
      var len := Le16(b[0], b[1]);
      if len > mtu then TooLarge
      else if |b| - HEADER < len then Incomplete
      else Packet(b[HEADER..HEADER + len])
  }

  /** All whole packets at the start of b, up to one that is too large. */
  function Packets(mtu: nat, b: Bytes): seq<Bytes> {
    var first := FirstPacket(mtu, b);
    if first.Packet? then [first.data] + Packets(mtu, b[HEADER + |first.data|..]) else []
  }

  /** What is left of b after those. */
  function Remainder(mtu: nat, b: Bytes): Bytes {
    var first := FirstPacket(mtu, b);
    if first.Packet? then Remainder(mtu, b[HEADER + |first.data|..]) else b
  }

  lemma FirstOfEncoded(mtu: nat, p: Bytes, rest: Bytes)
    requires |p| <= mtu < UINT16_COUNT
    ensures FirstPacket(mtu, Encode(p) + rest) == Packet(p)
  {
    var b := Encode(p) + rest;
    Le16RoundTrip(|p|);
    assert b[0] == Low(|p|) && b[1] == High(|p|);
    assert b[HEADER..HEADER + |p|] == p;
  }

  lemma PacketsCons(mtu: nat, p: Bytes, rest: Bytes)
    requires |p| <= mtu < UINT16_COUNT
    ensures Packets(mtu, Encode(p) + rest) == [p] + Packets(mtu, rest)
    ensures Remainder(mtu, Encode(p) + rest) == Remainder(mtu, rest)
  {
    FirstOfEncoded(mtu, p, rest);
    assert (Encode(p) + rest)[HEADER + |p|..] == rest;
  }

  /** A stream of packets is cut into those packets, followed by those in the rest. */
  lemma {:induction false} PacketsOfEncoded(mtu: nat, ps: seq<Bytes>, rest: Bytes)
    requires Fit(mtu, ps)
    ensures Packets(mtu, EncodeAll(mtu, ps) + rest) == ps + Packets(mtu, rest)
    ensures Remainder(mtu, EncodeAll(mtu, ps) + rest) == Remainder(mtu, rest)
  {
    if ps == [] {
      assert EncodeAll(mtu, ps) + rest == rest;
    } else {
      var tail, more := EncodeAll(mtu, ps[1..]) + rest, Packets(mtu, rest);
      PacketsOfEncoded(mtu, ps[1..], rest);
      PacketsCons(mtu, ps[0], tail);
      assert EncodeAll(mtu, ps) + rest == Encode(ps[0]) + tail by {
        Regroup(Encode(ps[0]), EncodeAll(mtu, ps[1..]), rest);
      }
      assert [ps[0]] + (ps[1..] + more) == ps + more by {
        assert ps == [ps[0]] + ps[1..];
        Regroup([ps[0]], ps[1..], more);
      }
    }
  }

  /** A whole packet at the start is an encoded packet. */
  lemma FirstIsEncoded(mtu: nat, b: Bytes)
    requires mtu < UINT16_COUNT && FirstPacket(mtu, b).Packet?
    ensures var p := FirstPacket(mtu, b).data; b == Encode(p) + b[HEADER + |p|..]
  {
    var p := FirstPacket(mtu, b).data;
    LowHigh(b[0], b[1]);
    assert b == [b[0], b[1]] + p + b[HEADER + |p|..];
  }

  lemma LowHigh(low: byte, high: byte)
    ensures Low(Le16(low, high)) == low && High(Le16(low, high)) == high
  {}

  /** Nothing more can be got out of b before more is received. */
  ghost predicate Waiting(mtu: nat, b: Bytes) {
    FirstPacket(mtu, b) == Incomplete
  }

  /**
    If the stream is the packets `sent` and then something of which no whole packet can be got, then the
    packets of the stream are exactly those.
  */
  lemma SentIsAll(mtu: nat, stream: Bytes, sent: seq<Bytes>, rest: Bytes)
    requires Fit(mtu, sent) && stream == EncodeAll(mtu, sent) + rest && !FirstPacket(mtu, rest).Packet?
    ensures Packets(mtu, stream) == sent && Remainder(mtu, stream) == rest
  {
    PacketsOfEncoded(mtu, sent, rest);
    assert sent + [] == sent;
  }

  /** Any part of an encoded stream, from its start, has the first of the packets, and nothing in it is too large. */
  lemma {:induction false} PartOfStream(mtu: nat, ps: seq<Bytes>, part: Bytes)
    requires Fit(mtu, ps) && part <= EncodeAll(mtu, ps)
    ensures Packets(mtu, part) <= ps && Waiting(mtu, Remainder(mtu, part))
    ensures part == EncodeAll(mtu, ps) ==> Packets(mtu, part) == ps && Remainder(mtu, part) == []
  {
    if ps == [] {
    } else {
      var e := Encode(ps[0]);
      if |part| < |e| {
        assert part <= e;
        PartOfPacket(mtu, ps[0], part);
      } else {
        var rest := part[|e|..];
        assert part == e + rest;
        assert rest <= EncodeAll(mtu, ps[1..]);
        PartOfStream(mtu, ps[1..], rest);
        PacketsCons(mtu, ps[0], rest);
      }
    }
  }

  lemma PartOfPacket(mtu: nat, p: Bytes, part: Bytes)
    requires |p| <= mtu < UINT16_COUNT && part < Encode(p)
    ensures Waiting(mtu, part)
  {
    Le16RoundTrip(|p|);
    assert |part| >= HEADER ==> part[0] == Encode(p)[0] && part[1] == Encode(p)[1];
  }

  // ----- any cutting of the stream

  function Concat(pieces: seq<Bytes>): Bytes {
    if pieces == [] then [] else pieces[0] + Concat(pieces[1..])
  }

  /** The packets that come out if the pieces are received one after the other, after `buffered`. */
  function Decoded(mtu: nat, buffered: Bytes, pieces: seq<Bytes>): seq<Bytes>
    decreases |pieces|
  {
    if pieces == [] then []
    else
      var b := buffered + pieces[0];
      Packets(mtu, b) + Decoded(mtu, Remainder(mtu, b), pieces[1..])
  }

  /** More can be received later: first the packets of a, then those of what is left and of b. */
  lemma {:induction false} PacketsSplit(mtu: nat, a: Bytes, b: Bytes)
    requires Waiting(mtu, Remainder(mtu, a))
    ensures Packets(mtu, a + b) == Packets(mtu, a) + Packets(mtu, Remainder(mtu, a) + b)
    decreases |a|
  {
    var first := FirstPacket(mtu, a);
    if first.Packet? {
      var n := HEADER + |first.data|;
      assert (a + b)[n..] == a[n..] + b;
      assert (a + b)[HEADER..n] == a[HEADER..n];
      PacketsSplit(mtu, a[n..], b);
      Regroup([first.data], Packets(mtu, a[n..]), Packets(mtu, Remainder(mtu, a) + b));
    } else {
      assert [] + Packets(mtu, a + b) == Packets(mtu, a + b);
    }
  }

  lemma {:induction false} RestOfCut(mtu: nat, ps: seq<Bytes>, before: Bytes, pieces: seq<Bytes>)
    requires Fit(mtu, ps) && before + Concat(pieces) == EncodeAll(mtu, ps)
    ensures Packets(mtu, before) + Decoded(mtu, Remainder(mtu, before), pieces) == ps
    decreases |pieces|
  {
    if pieces == [] {
      assert before + [] == before;
      PartOfStream(mtu, ps, before);
      assert ps + [] == ps;
    } else {
      PartOfStream(mtu, ps, before);
      var now, r := before + pieces[0], Remainder(mtu, before) + pieces[0];
      Regroup(before, pieces[0], Concat(pieces[1..]));
      RestOfCut(mtu, ps, now, pieces[1..]);
      PacketsSplit(mtu, before, pieces[0]);
      RemainderSplit(mtu, before, pieces[0]);
      Regroup(Packets(mtu, before), Packets(mtu, r), Decoded(mtu, Remainder(mtu, r), pieces[1..]));
    }
  }

  lemma {:induction false} RemainderSplit(mtu: nat, a: Bytes, b: Bytes)
    requires Waiting(mtu, Remainder(mtu, a))
    ensures Remainder(mtu, a + b) == Remainder(mtu, Remainder(mtu, a) + b)
    decreases |a|
  {
    var first := FirstPacket(mtu, a);
    if first.Packet? {
      var n := HEADER + |first.data|;
      assert (a + b)[n..] == a[n..] + b;
      assert (a + b)[HEADER..n] == a[HEADER..n];
      RemainderSplit(mtu, a[n..], b);
    }
  }

  /** However the stream is cut into receives, exactly the packets that were encoded come out, in order. */
  lemma AnyCut(mtu: nat, ps: seq<Bytes>, pieces: seq<Bytes>)
    requires Fit(mtu, ps) && Concat(pieces) == EncodeAll(mtu, ps)
    ensures Decoded(mtu, [], pieces) == ps
  {
    assert [] + Concat(pieces) == Concat(pieces);
    RestOfCut(mtu, ps, [], pieces);
    assert [] + Decoded(mtu, [], pieces) == Decoded(mtu, [], pieces);
  }

  // ----- when a stream is given up

  lemma Prefixed(a: Bytes, b: Bytes)
    requires a <= b
    ensures b == a + b[|a|..]
  {}

  /** A buffer starts with a packet if and only if it starts with what the encoder makes of the packet. */
  lemma StartsWithPacket(mtu: nat, b: Bytes, p: Bytes)
    requires |p| <= mtu < UINT16_COUNT
    ensures FirstPacket(mtu, b) == Packet(p) <==> Encode(p) <= b
  {
    if FirstPacket(mtu, b) == Packet(p) {
      FirstIsEncoded(mtu, b);
    }
    if Encode(p) <= b {
      var rest := b[|Encode(p)|..];
      Prefixed(Encode(p), b);
      FirstOfEncoded(mtu, p, rest);
    }
  }

  /** A packet that a buffer with a whole header is the start of. */
  lemma Completed(mtu: nat, b: Bytes) returns (p: Bytes)
    requires mtu < UINT16_COUNT && Waiting(mtu, b) && |b| >= HEADER
    ensures |p| <= mtu && b < Encode(p)
  {
    var len := Le16(b[0], b[1]);
    LowHigh(b[0], b[1]);
    p := b[HEADER..] + seq(len - (|b| - HEADER), i => 0);
    assert b == [b[0], b[1]] + b[HEADER..];
  }

  /** More is waited for if and only if the header is not whole or the buffer is the start of some packet. */
  lemma MayBecomePacket(mtu: nat, b: Bytes)
    requires mtu < UINT16_COUNT
    ensures Waiting(mtu, b) <==> |b| < HEADER || exists p: Bytes :: |p| <= mtu && b < Encode(p)
  {
    if Waiting(mtu, b) && |b| >= HEADER {
      var p := Completed(mtu, b);
    }
    if p: Bytes :| |p| <= mtu && b < Encode(p) {
      PartOfPacket(mtu, p, b);
    }
  }

  /** The bytes are the start of what the encoder makes of some packets. */
  ghost predicate PartOfSome(mtu: nat, b: Bytes) {
    exists ps :: Fit(mtu, ps) && b <= EncodeAll(mtu, ps)
  }

  lemma {:induction false} PacketsThenRest(mtu: nat, b: Bytes)
    requires mtu < UINT16_COUNT
    ensures Fit(mtu, Packets(mtu, b)) && b == EncodeAll(mtu, Packets(mtu, b)) + Remainder(mtu, b)
    decreases |b|
  {
    var first := FirstPacket(mtu, b);
    if first.Packet? {
      var rest := b[HEADER + |first.data|..];
      FirstIsEncoded(mtu, b);
      PacketsThenRest(mtu, rest);
      Regroup(Encode(first.data), EncodeAll(mtu, Packets(mtu, rest)), Remainder(mtu, rest));
      assert Packets(mtu, b)[1..] == Packets(mtu, rest);
    }
  }

  lemma WaitingIsPart(mtu: nat, b: Bytes)
    requires mtu < UINT16_COUNT && Waiting(mtu, Remainder(mtu, b)) && |Remainder(mtu, b)| >= HEADER
    ensures PartOfSome(mtu, b)
  {
    var ps := Packets(mtu, b);
    PacketsThenRest(mtu, b);
    var p := Completed(mtu, Remainder(mtu, b));
    EncodeNext(mtu, ps, p);
    assert b <= EncodeAll(mtu, ps + [p]);
  }

  lemma {:induction false} AllWasCut(mtu: nat, b: Bytes)
    ensures !FirstPacket(mtu, Remainder(mtu, b)).Packet?
    decreases |b|
  {
    var first := FirstPacket(mtu, b);
    if first.Packet? {
      AllWasCut(mtu, b[HEADER + |first.data|..]);
    }
  }

  /**
    A stream is given up, once the header of a packet is whole, if and only if it is not the start of what the encoder
    makes of any packets.
  */
  lemma GivenUpIff(mtu: nat, stream: Bytes)
    requires mtu < UINT16_COUNT && |Remainder(mtu, stream)| >= HEADER
    ensures FirstPacket(mtu, Remainder(mtu, stream)) == TooLarge <==> !PartOfSome(mtu, stream)
  {
    AllWasCut(mtu, stream);
    if Waiting(mtu, Remainder(mtu, stream)) {
      WaitingIsPart(mtu, stream);
    }
    if PartOfSome(mtu, stream) {
      var ps :| Fit(mtu, ps) && stream <= EncodeAll(mtu, ps);
      PartOfStream(mtu, ps, stream);
    }
  }
}
