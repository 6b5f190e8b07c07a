/** The parser that bproto_generator/bproto_functions.php generates takes nothing but what a writer can write. */
module BProtoAccepted {
  import opened Common
  import opened BProto

  lemma {:induction false} LeBytesOfValue(b: Bytes)
    ensures LeValue(b) < Power256(|b|) && LeBytes(LeValue(b), |b|) == b
  {
    if b == [] {
    } else {
      LeBytesOfValue(b[1..]);
      var v := LeValue(b);
      assert v % 256 == b[0] as int && v / 256 == LeValue(b[1..]);
      assert b == [b[0]] + b[1..];
    }
  }

  /** The header of an entry that was read is the one that would be written. */
  lemma HeaderWritten(header: Bytes)
    requires |header| == HEADER
    ensures LeValue(header[..2]) < UINT16_COUNT && LeValue(header[2..]) < UINT16_COUNT
    ensures EncodeHeader(LeValue(header[..2]), LeValue(header[2..])) == header
  {
    assert Power256(2) == UINT16_COUNT;
    LeBytesOfValue(header[..2]);
    LeBytesOfValue(header[2..]);
    assert header == header[..2] + header[2..];
  }

  lemma LengthWritten(length: Bytes)
    requires |length| == DATA_HEADER
    ensures LeValue(length) < UINT32_COUNT && LeBytes(LeValue(length), DATA_HEADER) == length
  {
    assert Power256(2) == 0x1_0000 && Power256(DATA_HEADER) == UINT32_COUNT;
    LeBytesOfValue(length);
  }

  lemma Cut(b: Bytes, i: nat, j: nat)
    requires i <= j <= |b|
    ensures b == b[..i] + b[i..j] + b[j..]
  {}

  lemma CutMore(b: Bytes, i: nat, j: nat, k: nat)
    requires i <= j <= k <= |b|
    ensures b == b[..i] + b[i..j] + b[j..k] + b[k..]
  {}

  /** A number. */
  lemma NumberWritten(d: Def, b: Bytes, raw: Raw)
    requires DefOk(d) && FirstRaw(b) == Some(raw) && Fits(d, raw) && d.typ.UInt?
    ensures PayloadOk(d.typ, |raw.payload|) && b == EncodeEntry(d, raw.payload) + b[raw.size..]
  {
    HeaderWritten(b[..HEADER]);
    assert b[..HEADER][..2] == b[..2] && b[..HEADER][2..] == b[2..HEADER];
    Cut(b, HEADER, raw.size);
  }

  /** Data, of whatever length or of a fixed one. */
  lemma DataWritten(d: Def, b: Bytes, raw: Raw)
    requires DefOk(d) && FirstRaw(b) == Some(raw) && Fits(d, raw) && !d.typ.UInt?
    ensures PayloadOk(d.typ, |raw.payload|) && |raw.payload| < UINT32_COUNT
    ensures b == EncodeEntry(d, raw.payload) + b[raw.size..]
  {
    var at := HEADER + DATA_HEADER;
    HeaderWritten(b[..HEADER]);
    assert b[..HEADER][..2] == b[..2] && b[..HEADER][2..] == b[2..HEADER];
    LengthWritten(b[HEADER..at]);
    CutMore(b, HEADER, at, raw.size);
  }

  lemma PayloadOfValue(t: Type, payload: Bytes)
    requires PayloadOk(t, |payload|) && (t.ConstData? ==> t.length < UINT32_COUNT)
    ensures ValueOk(t, ValueOf(t, payload)) && Payload(t, ValueOf(t, payload)) == payload
  {
    if t.UInt? {
      LeBytesOfValue(payload);
    }
  }

  /** The first entry is one that a call of an Add function writes. */
  lemma FirstIsWritten(schema: seq<Def>, b: Bytes) returns (c: Call)
    requires SchemaOk(schema) && FirstItem(schema, b).Some?
    ensures CallOk(schema, c) && ItemOf(schema, c) == FirstItem(schema, b).value
    ensures b == EncodeEntry(schema[c.entry], PayloadOf(schema, c)) + b[FirstItem(schema, b).value.size..]
  {
    var raw, item := FirstRaw(b).value, FirstItem(schema, b).value;
    var d := schema[item.entry];
    assert DefOk(d);
    if d.typ.UInt? {
      NumberWritten(d, b, raw);
    } else {
      DataWritten(d, b, raw);
    }
    PayloadOfValue(d.typ, raw.payload);
    c := Call(item.entry, ValueOf(d.typ, raw.payload));
  }

  lemma {:induction false} WrittenCons(schema: seq<Def>, c: Call, calls: seq<Call>)
    requires SchemaOk(schema) && CallOk(schema, c) && CallsOk(schema, calls)
    ensures CallsOk(schema, [c] + calls)
    ensures Written(schema, [c] + calls)
            == EncodeEntry(schema[c.entry], PayloadOf(schema, c)) + Written(schema, calls)
    decreases |calls|
  {
    var entry, all := EncodeEntry(schema[c.entry], PayloadOf(schema, c)), [c] + calls;
    if calls == [] {
      assert all == [c] && [c][..0] == [];
      assert Written(schema, [c]) == [] + entry;
    } else {
      var n := |calls| - 1;
      WrittenCons(schema, c, calls[..n]);
      assert all[..n + 1] == [c] + calls[..n] && all[n + 1] == calls[n];
      Regroup(entry, Written(schema, calls[..n]), EncodeEntry(schema[calls[n].entry], PayloadOf(schema, calls[n])));
    }
  }

  lemma ItemsOfCons(schema: seq<Def>, c: Call, calls: seq<Call>)
    requires CallOk(schema, c) && CallsOk(schema, calls) && CallsOk(schema, [c] + calls)
    ensures ItemsOf(schema, [c] + calls) == [ItemOf(schema, c)] + ItemsOf(schema, calls)
  {}

  /** The calls write the buffer, and they are what is read from it. */
  ghost predicate Writes(schema: seq<Def>, calls: seq<Call>, b: Bytes, items: seq<Item>)
    requires SchemaOk(schema)
  {
    CallsOk(schema, calls) && Written(schema, calls) == b && ItemsOf(schema, calls) == items
  }

  lemma WritesCons(schema: seq<Def>, c: Call, entry: Bytes, calls: seq<Call>, rest: Bytes, items: seq<Item>)
    requires SchemaOk(schema) && CallOk(schema, c) && Writes(schema, calls, rest, items)
    requires entry == EncodeEntry(schema[c.entry], PayloadOf(schema, c))
    ensures Writes(schema, [c] + calls, entry + rest, [ItemOf(schema, c)] + items)
  {
    WrittenCons(schema, c, calls);
    ItemsOfCons(schema, c, calls);
  }

  /** A buffer that is made of entries is what some calls write. */
  lemma {:induction false} ItemsAreWritten(schema: seq<Def>, b: Bytes) returns (calls: seq<Call>)
    requires SchemaOk(schema) && Items(schema, b).Some?
    ensures Writes(schema, calls, b, Items(schema, b).value)
    decreases |b|
  {
    if b == [] {
      calls := [];
    } else {
      var c := FirstIsWritten(schema, b);
      var tail := b[FirstItem(schema, b).value.size..];
      var rest := ItemsAreWritten(schema, tail);
      WritesCons(schema, c, EncodeEntry(schema[c.entry], PayloadOf(schema, c)), rest, tail, Items(schema, tail).value);
      calls := [c] + rest;
    }
  }

  lemma CountsAreCalls(schema: seq<Def>, calls: seq<Call>)
    requires CallsOk(schema, calls)
    ensures CountsOk(schema, ItemsOf(schema, calls)) <==> Finished(schema, calls)
  {
    forall e | 0 <= e < |schema|
      ensures |Occurrences(ItemsOf(schema, calls), e)| == |ValuesFor(calls, e)|
    {
      OccurrencesWritten(schema, calls, e);
    }
  }

  ghost predicate CanWrite(schema: seq<Def>, b: Bytes)
    requires SchemaOk(schema)
  {
    exists calls :: CallsOk(schema, calls) && Finished(schema, calls) && Written(schema, calls) == b
  }

  /** For every description, Parser_Init accepts exactly the buffers that calls which meet the asserts can write. */
  lemma AcceptedIffWritten(schema: seq<Def>, b: Bytes)
    requires SchemaOk(schema)
    ensures Accepts(schema, b) <==> CanWrite(schema, b)
  {
    if Accepts(schema, b) {
      var calls := ItemsAreWritten(schema, b);
      CountsAreCalls(schema, calls);
    }
    if CanWrite(schema, b) {
      var calls :| CallsOk(schema, calls) && Finished(schema, calls) && Written(schema, calls) == b;
      WrittenIsAccepted(schema, calls);
    }
  }
}
