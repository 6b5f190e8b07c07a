/** The decoder of flow/PacketProtoDecoder.c and the encoder of flow/PacketProtoEncoder.c, working in their buffers. */
module PacketProtoObject {
  import opened Common
  import opened PacketProto

  /**
    The one operation that is outstanding: a receive of up to `room` bytes at `at`, or a send of the `len`
    bytes at `at`.
  */
  datatype Pending = Receiving(at: nat, room: nat) | Sending(at: nat, len: nat)

  lemma MovedPacket(mtu: nat, stream: Bytes, sent: seq<Bytes>, b: Bytes)
    requires Fit(mtu, sent) && stream == EncodeAll(mtu, sent) + b && FirstPacket(mtu, b).Packet?
    ensures var p := FirstPacket(mtu, b).data;
            Fit(mtu, sent + [p]) && stream == EncodeAll(mtu, sent + [p]) + b[HEADER + |p|..]
  {
    var p := FirstPacket(mtu, b).data;
    FirstIsEncoded(mtu, b);
    EncodeNext(mtu, sent, p);
    Regroup(EncodeAll(mtu, sent), Encode(p), b[HEADER + |p|..]);
  }

  class PacketProtoDecoder {
    const mtu: nat
    const buf: array<byte>
    var bufStart: nat
    var bufUsed: nat
    var pending: Pending
    // what was received and what was sent on, since the start, or the last error or reset
    ghost var stream: Bytes
    ghost var sent: seq<Bytes>
    ghost var current: Bytes

    ghost predicate Shape()
      reads this
    {
      mtu < UINT16_COUNT && buf.Length == HEADER + mtu && bufStart + bufUsed <= buf.Length
    }

    ghost function Buffered(): Bytes
      requires Shape()
      reads this, buf
    {
      buf[bufStart..bufStart + bufUsed]
    }

    /** What was received is what was sent on and what is buffered. */
    ghost predicate Consistent()
      reads this, buf
    {
      Shape() && Fit(mtu, sent) && stream == EncodeAll(mtu, sent) + Buffered()
    }

    /**
      A receive is for at least one byte, right behind the buffered data, of which no packet can be got. A
      packet being sent stays where it is.
    */
    ghost predicate Valid()
      reads this, buf
    {
      && Consistent()
      && match pending
         case Receiving(at, room) => at == bufStart + bufUsed && room == buf.Length - at && room > 0
           && Waiting(mtu, Buffered())
         case Sending(at, len) => at + len <= buf.Length && buf[at..at + len] == current
    }

    constructor (outputMtu: nat)
      ensures Valid() && pending == Receiving(0, buf.Length) && stream == [] && sent == []
      ensures mtu == (if outputMtu < UINT16_COUNT then outputMtu else UINT16_COUNT - 1) && fresh(buf)
    {
      mtu := if outputMtu < UINT16_COUNT then outputMtu else UINT16_COUNT - 1;
      buf := new byte[HEADER + if outputMtu < UINT16_COUNT then outputMtu else UINT16_COUNT - 1];
      bufStart, bufUsed := 0, 0;
      stream, sent, current := [], [], [];
      new;
      pending := Receiving(0, buf.Length);
    }

    /** While it waits, the packets sent on are exactly those of what was received, however that was cut. */
    lemma SentExactly()
      requires Valid() && pending.Receiving?
      ensures sent == Packets(mtu, stream) && Buffered() == Remainder(mtu, stream)
    {
      SentIsAll(mtu, stream, sent, Buffered());
    }

    /** process_data; the result is whether an error is reported. */
    method ProcessData() returns (error: bool)
      requires Consistent()
      modifies this, buf
      ensures Valid()
      ensures match FirstPacket(mtu, old(Buffered()))
              case Packet(p) => !error && pending.Sending? && current == p && sent == old(sent) + [p]
                && stream == old(stream)
              case Incomplete => !error && pending.Receiving? && sent == old(sent) && stream == old(stream)
              case TooLarge => error && pending == Receiving(0, buf.Length) && sent == [] && stream == []
    {
      error := false;
      if bufUsed >= HEADER {
        var len := Le16(buf[bufStart], buf[bufStart + 1]);
        if len > mtu {
          error := true;
          StartOver();
          return;
        }
        if bufUsed - HEADER >= len {
          ghost var p, rest := WholePacket();
          SendPacket(len, p, rest);
          return;
        }
      }
      ReceiveMore();
    }

    /** After an error nothing is buffered. */
    method StartOver()
      requires Shape()
      modifies `bufStart, `bufUsed, `stream, `sent, `pending
      ensures Valid() && pending == Receiving(0, buf.Length) && sent == [] && stream == []
    {
      bufStart, bufUsed := 0, 0;
      stream, sent := [], [];
      pending := Receiving(0, buf.Length);
    }

    /** A receive is started behind the buffered data. */
    method ReceiveMore()
      requires Consistent() && Waiting(mtu, Buffered()) && bufUsed < buf.Length
      modifies `bufStart, `pending, buf
      ensures Valid() && pending.Receiving?
    {
      WrapAround();
      pending := Receiving(bufStart + bufUsed, buf.Length - (bufStart + bufUsed));
    }

    /** The buffered data starts with packet p, and `rest` is behind it. */
    lemma WholePacket() returns (p: Bytes, rest: Bytes)
      requires Consistent() && FirstPacket(mtu, Buffered()).Packet?
      ensures p == FirstPacket(mtu, Buffered()).data && HEADER + |p| <= bufUsed
      ensures buf[bufStart + HEADER..bufStart + HEADER + |p|] == p
      ensures buf[bufStart + HEADER + |p|..bufStart + bufUsed] == rest
      ensures Fit(mtu, sent + [p]) && stream == EncodeAll(mtu, sent + [p]) + rest
    {
      var b := Buffered();
      p := FirstPacket(mtu, b).data;
      rest := b[HEADER + |p|..];
      assert forall i :: 0 <= i < |b| ==> b[i] == buf[bufStart + i];
      assert buf[bufStart + HEADER..bufStart + HEADER + |p|] == b[HEADER..HEADER + |p|] == p;
      MovedPacket(mtu, stream, sent, b);
    }

    method SendPacket(len: nat, ghost p: Bytes, ghost rest: Bytes)
      requires Shape() && HEADER + len <= bufUsed
      requires buf[bufStart + HEADER..bufStart + HEADER + len] == p
      requires buf[bufStart + HEADER + len..bufStart + bufUsed] == rest
      requires Fit(mtu, sent + [p]) && stream == EncodeAll(mtu, sent + [p]) + rest
      modifies `pending, `bufStart, `bufUsed, `sent, `current
      ensures Valid() && pending.Sending? && current == p && sent == old(sent) + [p]
    {
      pending := Sending(bufStart + HEADER, len);
      bufStart, bufUsed := bufStart + HEADER + len, bufUsed - HEADER - len;
      current, sent := p, sent + [p];
    }

    /** If the buffered data reaches the end of the buffer, it is moved to the start, so that more can be received. */
    method WrapAround()
      requires Shape() && bufUsed < buf.Length
      modifies `bufStart, buf
      ensures Shape() && Buffered() == old(Buffered()) && bufStart + bufUsed < buf.Length
    {
      if bufStart + bufUsed == buf.Length {
        forall i | 0 <= i < bufUsed {
          buf[i] := buf[bufStart + i];
        }
        bufStart := 0;
      }
    }

    /** The data was put where the receive said. */
    method InputHandlerDone(data: Bytes) returns (error: bool)
      requires Valid() && pending.Receiving? && 0 < |data| <= pending.room
      modifies this, buf
      ensures Valid()
      ensures match FirstPacket(mtu, old(Buffered()) + data)
              case Packet(p) => !error && pending.Sending? && current == p && sent == old(sent) + [p]
                && stream == old(stream) + data
              case Incomplete => !error && pending.Receiving? && sent == old(sent) && stream == old(stream) + data
              case TooLarge => error && pending == Receiving(0, buf.Length) && sent == [] && stream == []
    {
      Receive(data);
      error := ProcessData();
    }

    method Receive(data: Bytes)
      requires Consistent() && bufStart + bufUsed + |data| <= buf.Length
      modifies buf, `bufUsed, `stream
      ensures Consistent() && Buffered() == old(Buffered()) + data && stream == old(stream) + data
    {
      ghost var b, encoded := Buffered(), EncodeAll(mtu, sent);
      Put(bufStart + bufUsed, data);
      Regroup(encoded, b, data);
      bufUsed := bufUsed + |data|;
      stream := stream + data;
      assert stream == encoded + (b + data);
    }

    method Put(at: nat, data: Bytes)
      requires at + |data| <= buf.Length
      modifies buf
      ensures forall start :: 0 <= start <= at ==> buf[start..at + |data|] == old(buf[start..at]) + data
    {
      forall i | 0 <= i < |data| {
        buf[at + i] := data[i];
      }
    }

    method OutputHandlerDone() returns (error: bool)
      requires Valid() && pending.Sending?
      modifies this, buf
      ensures Valid()
      ensures match FirstPacket(mtu, old(Buffered()))
              case Packet(p) => !error && pending.Sending? && current == p && sent == old(sent) + [p]
                && stream == old(stream)
              case Incomplete => !error && pending.Receiving? && sent == old(sent) && stream == old(stream)
              case TooLarge => error && pending == Receiving(0, buf.Length) && sent == [] && stream == []
    {
      error := ProcessData();
    }

    /** The buffered data is dropped; an outstanding receive is still right behind it. */
    method Reset()
      requires Valid()
      modifies this
      ensures Valid() && pending == old(pending) && Buffered() == [] && stream == [] && sent == []
    {
      bufStart, bufUsed := bufStart + bufUsed, 0;
      stream, sent := [], [];
      assert Buffered() == [];
    }
  }

  /** The encoder: it has the input put the packet behind the header, and then writes the header. */
  class PacketProtoEncoder {
    const mtu: nat
    var outputPacket: array?<byte>

    ghost predicate Valid()
      reads this
    {
      mtu < UINT16_COUNT && (outputPacket != null ==> outputPacket.Length == HEADER + mtu)
    }

    constructor (mtu: nat)
      requires mtu < UINT16_COUNT
      ensures Valid() && this.mtu == mtu && outputPacket == null
    {
      this.mtu, outputPacket := mtu, null;
    }

    /** Where the input is to put a packet, and the room for it there. */
    method OutputHandlerRecv(data: array<byte>) returns (at: nat, room: nat)
      requires Valid() && outputPacket == null && data.Length == HEADER + mtu
      modifies this
      ensures Valid() && outputPacket == data && at == HEADER && room == mtu && at + room == data.Length
    {
      outputPacket := data;
      at, room := HEADER, mtu;
    }

    /** The input has put a packet of this length behind the header. */
    method InputHandlerDone(inLen: nat) returns (encLen: nat)
      requires Valid() && outputPacket != null && inLen <= mtu
      modifies this, outputPacket
      ensures Valid() && outputPacket == null
      ensures encLen == HEADER + inLen
      ensures old(outputPacket)[..encLen] == Encode(old(outputPacket[HEADER..HEADER + inLen]))
    {
      var packet := outputPacket;
      ghost var p := packet[HEADER..HEADER + inLen];
      packet[0], packet[1] := Low(inLen), High(inLen);
      outputPacket := null;
      encLen := HEADER + inLen;
      assert packet[..encLen] == [Low(inLen), High(inLen)] + p;
    }
  }

  /** A packet that the input puts where it is told comes out encoded. */
  method EncodePacket(e: PacketProtoEncoder, p: Bytes, data: array<byte>) returns (encLen: nat)
    requires e.Valid() && e.outputPacket == null && data.Length == HEADER + e.mtu && |p| <= e.mtu
    modifies e, data
    ensures e.Valid() && e.outputPacket == null && encLen <= data.Length && data[..encLen] == Encode(p)
  {
    var at, room := e.OutputHandlerRecv(data);
    forall i | 0 <= i < |p| {
      data[at + i] := p[i];
    }
    assert data[HEADER..HEADER + |p|] == p;
    encLen := e.InputHandlerDone(|p|);
  }

  // ----- a whole stream

  /** What was received and what was sent on are parts of the stream of the packets ps. */
  ghost predicate PartOf(mtu: nat, stream: Bytes, sent: seq<Bytes>, buffered: Bytes, ps: seq<Bytes>) {
    Fit(mtu, ps) && Fit(mtu, sent) && stream <= EncodeAll(mtu, ps) && stream == EncodeAll(mtu, sent) + buffered
  }

  lemma NothingTooLarge(mtu: nat, stream: Bytes, sent: seq<Bytes>, buffered: Bytes, ps: seq<Bytes>)
    requires PartOf(mtu, stream, sent, buffered, ps)
    ensures FirstPacket(mtu, buffered) != TooLarge
  {
    PartOfStream(mtu, ps, stream);
    PacketsOfEncoded(mtu, sent, buffered);
  }

  lemma LessLeft(mtu: nat, sent: seq<Bytes>, p: Bytes, a: Bytes, b: Bytes)
    requires Fit(mtu, sent) && |p| <= mtu && Fit(mtu, sent + [p])
    requires EncodeAll(mtu, sent) + a == EncodeAll(mtu, sent + [p]) + b
    ensures |b| < |a|
  {
    EncodeNext(mtu, sent, p);
  }

  /** The output takes all the packets that are there. */
  method Drain(d: PacketProtoDecoder, ghost ps: seq<Bytes>)
    requires d.Valid() && PartOf(d.mtu, d.stream, d.sent, d.Buffered(), ps)
    modifies d, d.buf
    ensures d.Valid() && d.pending.Receiving? && d.stream == old(d.stream)
  {
    while d.pending.Sending?
      invariant d.Valid() && d.stream == old(d.stream) && Fit(d.mtu, ps) && d.stream <= EncodeAll(d.mtu, ps)
      decreases |d.Buffered()|, d.pending.Sending?
    {
      NothingTooLarge(d.mtu, d.stream, d.sent, d.Buffered(), ps);
      ghost var sent, b := d.sent, d.Buffered();
      var error := d.OutputHandlerDone();
      assert !error;
      if d.pending.Sending? {
        LessLeft(d.mtu, sent, d.current, b, d.Buffered());
      }
    }
  }

  /** The next bytes of the stream, as many as there is room for. */
  method ReceiveSome(d: PacketProtoDecoder, data: Bytes, ghost ps: seq<Bytes>)
    requires d.Valid() && d.pending.Receiving? && 0 < |data| <= d.pending.room
    requires Fit(d.mtu, ps) && d.stream + data <= EncodeAll(d.mtu, ps)
    modifies d, d.buf
    ensures d.Valid() && d.pending.Receiving? && d.stream == old(d.stream) + data
  {
    ghost var b := d.Buffered() + data;
    Regroup(EncodeAll(d.mtu, d.sent), d.Buffered(), data);
    NothingTooLarge(d.mtu, d.stream + data, d.sent, b, ps);
    var error := d.InputHandlerDone(data);
    assert !error;
    Drain(d, ps);
  }

  /** A piece of the stream, in as many receives as it takes. */
  method ReceivePiece(d: PacketProtoDecoder, piece: Bytes, ghost ps: seq<Bytes>)
    requires d.Valid() && d.pending.Receiving? && Fit(d.mtu, ps) && d.stream + piece <= EncodeAll(d.mtu, ps)
    modifies d, d.buf
    ensures d.Valid() && d.pending.Receiving? && d.stream == old(d.stream) + piece
  {
    var i := 0;
    while i < |piece|
      invariant 0 <= i <= |piece| && d.Valid() && d.pending.Receiving? && d.stream == old(d.stream) + piece[..i]
    {
      var n := if |piece| - i < d.pending.room then |piece| - i else d.pending.room;
      assert piece[..i + n] == piece[..i] + piece[i..i + n];
      assert old(d.stream) + piece[..i + n] <= old(d.stream) + piece;
      Regroup(old(d.stream), piece[..i], piece[i..i + n]);
      ReceiveSome(d, piece[i..i + n], ps);
      i := i + n;
    }
    assert piece[..i] == piece;
  }

  /**
    However the stream of the packets ps is cut, a new decoder passes on exactly these packets, and reports no
    error.
  */
  method DecodeStream(d: PacketProtoDecoder, pieces: seq<Bytes>, ghost ps: seq<Bytes>)
    requires d.Valid() && d.pending.Receiving? && d.stream == [] && Fit(d.mtu, ps)
    requires Concat(pieces) == EncodeAll(d.mtu, ps)
    modifies d, d.buf
    ensures d.Valid() && d.pending.Receiving? && d.stream == EncodeAll(d.mtu, ps) && d.sent == ps && d.Buffered() == []
  {
    var i := 0;
    assert pieces[0..] == pieces && [] + Concat(pieces) == Concat(pieces);
    while i < |pieces|
      invariant 0 <= i <= |pieces| && d.Valid() && d.pending.Receiving?
      invariant d.stream + Concat(pieces[i..]) == EncodeAll(d.mtu, ps)
    {
      assert pieces[i..][1..] == pieces[i + 1..];
      Regroup(d.stream, pieces[i], Concat(pieces[i + 1..]));
      ReceivePiece(d, pieces[i], ps);
      i := i + 1;
    }
    assert d.stream + [] == d.stream;
    d.SentExactly();
    PartOfStream(d.mtu, ps, d.stream);
  }
}
