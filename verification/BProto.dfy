/**
  The messages that bproto_generator/bproto_functions.php generates code for, with the message
  description as data: how entries are laid out in bytes, and what a buffer holds.
*/
module BProto {
  import opened Common

  // ----- little-endian numbers of any length

  function LeBytes(v: nat, n: nat): (b: Bytes)
    ensures |b| == n
  {
    if n == 0 then [] else [v % 256] + LeBytes(v / 256, n - 1)
  }

  function LeValue(b: Bytes): nat {
    if b == [] then 0 else b[0] as int + 256 * LeValue(b[1..])
  }

  function Power256(n: nat): nat {
    if n == 0 then 1 else 256 * Power256(n - 1)
  }

  lemma {:induction false} LeRoundTrip(v: nat, n: nat)
    requires v < Power256(n)
    ensures LeValue(LeBytes(v, n)) == v
  {
    if n > 0 {
      assert v / 256 < Power256(n - 1);
      LeRoundTrip(v / 256, n - 1);
      assert LeBytes(v, n)[1..] == LeBytes(v / 256, n - 1);
    }
  }

  lemma {:induction false} Multiples(d: nat, q: nat, k: nat)
    requires q < k
    ensures d * q + d <= d * k
  {
    if q + 1 < k {
      Multiples(d, q, k - 1);
    }
    assert d * k == d * (k - 1) + d;
  }

  lemma OneQuotient(d: nat, q: nat, r: nat, k: nat, m: nat)
    requires d * q + r == d * k + m && r < d && m < d
    ensures q == k
  {
    if q < k {
      Multiples(d, q, k);
    } else if k < q {
      Multiples(d, k, q);
    }
  }

  lemma Quotient(x: nat, d: nat, q: nat, r: nat)
    requires x == d * q + r && r < d
    ensures x / d == q
  {
    OneQuotient(d, q, r, x / d, x % d);
  }

  lemma DivideTwice(v: nat, d: nat)
    requires d > 0
    ensures v / 256 / d == v / (256 * d)
  {
    var q := v / 256;
    Quotient(v, 256 * d, q / d, 256 * (q % d) + v % 256);
  }

  lemma {:induction false} PowerPositive(n: nat)
    ensures Power256(n) > 0
  {
    if n > 0 {
      PowerPositive(n - 1);
    }
  }

  /** The bytes of a number, the one that counts least first. */
  lemma {:induction false} LeBytesAt(v: nat, n: nat, k: nat)
    requires k < n
    ensures Power256(k) > 0 && LeBytes(v, n)[k] == v / Power256(k) % 256
  {
    PowerPositive(k);
    if k == 0 {
    } else {
      PowerPositive(k - 1);
      LeBytesAt(v / 256, n - 1, k - 1);
      DivideTwice(v, Power256(k - 1));
    }
  }

  // ----- message descriptions

  /** Numbers of 1, 2, 4 or 8 bytes, told apart by their type code, data of any length, and data of a fixed length. */
  datatype Type = UInt(code: nat) | Data | ConstData(length: nat)

  datatype Cardinality = Repeated | RequiredRepeated | Optional | Required

  datatype Def = Def(id: nat, typ: Type, card: Cardinality)

  const TYPE_DATA := 5
  const TYPE_CONSTDATA := 6

  /** BPROTO_TYPE_... */
  function TypeCode(t: Type): nat {
    match t
    case UInt(code) => code
    case Data => TYPE_DATA
    case ConstData(_) => TYPE_CONSTDATA
  }

  /** The bytes of the numbers with type codes 1 to 4. */
  function SizeOfCode(code: nat): nat {
    if code == 1 then 1 else if code == 2 then 2 else if code == 3 then 4 else 8
  }

  /**
    Codes with the same case are looked at together by the generated parser: each kind of number, and data of
    both kinds.
  */
  function Case(code: nat): nat {
    if code == TYPE_CONSTDATA then TYPE_DATA else code
  }

  ghost predicate DefOk(d: Def) {
    && d.id < UINT16_COUNT
    && (d.typ.UInt? ==> 1 <= d.typ.code <= 4)
    && (d.typ.ConstData? ==> d.typ.length < UINT32_COUNT)
  }

  /** A description for which the generated switches have no case twice. */
  ghost predicate SchemaOk(schema: seq<Def>) {
    && (forall e :: 0 <= e < |schema| ==> DefOk(schema[e]))
    && (forall i, j :: NoClash(schema, i, j))
  }

  ghost predicate NoClash(schema: seq<Def>, i: nat, j: nat) {
    i < j < |schema| ==> schema[i].id != schema[j].id || Case(TypeCode(schema[i].typ)) != Case(TypeCode(schema[j].typ))
  }

  predicate CardOk(c: Cardinality, count: nat) {
    match c
    case Repeated => true
    case RequiredRepeated => count >= 1
    case Optional => count <= 1
    case Required => count == 1
  }

  // ----- values

  datatype Value = Num(v: nat) | Blob(data: Bytes)

  ghost predicate ValueOk(t: Type, v: Value) {
    match t
    case UInt(code) => v.Num? && v.v < Power256(SizeOfCode(code))
    case Data => v.Blob? && |v.data| < UINT32_COUNT
    case ConstData(length) => v.Blob? && |v.data| == length
  }

  function Payload(t: Type, v: Value): Bytes {
    match v
    case Num(n) => if t.UInt? then LeBytes(n, SizeOfCode(t.code)) else []
    case Blob(data) => data
  }

  function ValueOf(t: Type, payload: Bytes): Value {
    if t.UInt? then Num(LeValue(payload)) else Blob(payload)
  }

  lemma ValueRoundTrip(t: Type, v: Value)
    requires ValueOk(t, v)
    ensures ValueOf(t, Payload(t, v)) == v
  {
    if v.Num? {
      LeRoundTrip(v.v, SizeOfCode(t.code));
    }
  }

  /** A payload of this length can be written. */
  ghost predicate PayloadOk(t: Type, length: nat) {
    match t
    case UInt(code) => length == SizeOfCode(code)
    case Data => length < UINT32_COUNT
    case ConstData(size) => length == size
  }

  lemma PayloadFits(t: Type, v: Value)
    requires ValueOk(t, v)
    ensures PayloadOk(t, |Payload(t, v)|)
  {}

  // ----- entries in bytes

  const HEADER := 4
  const DATA_HEADER := 4
  const UINT32_COUNT: int := 0x1_0000_0000

  function EncodeHeader(id: nat, code: nat): (b: Bytes)
    requires id < UINT16_COUNT && code < UINT16_COUNT
    ensures |b| == HEADER
  {
    LeBytes(id, 2) + LeBytes(code, 2)
  }

  /** The length in front of a payload, if it has one. */
  function LengthBytes(t: Type, n: nat): Bytes
    requires t.UInt? || n < UINT32_COUNT
  {
    if t.UInt? then [] else LeBytes(n, DATA_HEADER)
  }

  /** A number has no length before it. */
  function Joined(t: Type, header: Bytes, length: Bytes, payload: Bytes): Bytes {
    if t.UInt? then header + payload else header + length + payload
  }

  function EncodeEntry(d: Def, payload: Bytes): Bytes
    requires DefOk(d) && (d.typ.UInt? || |payload| < UINT32_COUNT)
  {
    Joined(d.typ, EncodeHeader(d.id, TypeCode(d.typ)), LengthBytes(d.typ, |payload|), payload)
  }

  /**
    The bytes of an entry: id and type as little-endian numbers of two bytes; before data, its length as one of four;
    then the payload.
  */
  lemma EntryLayout(d: Def, payload: Bytes)
    requires DefOk(d) && (d.typ.UInt? || |payload| < UINT32_COUNT)
    ensures var b := EncodeEntry(d, payload);
            && |b| >= 4 && b[0] as int + 0x100 * b[1] as int == d.id
            && b[2] as int + 0x100 * b[3] as int
               == (match d.typ case UInt(code) => code case Data => 5 case ConstData(_) => 6)
            && if d.typ.UInt? then b[4..] == payload
               else
                 && |b| >= 8 && b[8..] == payload
                 && b[4] as int + 0x100 * b[5] as int + 0x1_0000 * b[6] as int + 0x100_0000 * b[7] as int == |payload|
  {
    TwoBytes(d.id);
    TwoBytes(TypeCode(d.typ));
    if !d.typ.UInt? {
      FourBytes(|payload|);
    }
  }

  lemma TwoBytes(v: nat)
    requires v < UINT16_COUNT
    ensures LeBytes(v, 2)[0] as int + 0x100 * LeBytes(v, 2)[1] as int == v
  {
    assert LeBytes(v, 2)[1] == LeBytes(v / 256, 1)[0];
  }

  lemma FourBytes(v: nat)
    requires v < UINT32_COUNT
    ensures var b := LeBytes(v, 4);
            b[0] as int + 0x100 * b[1] as int + 0x1_0000 * b[2] as int + 0x100_0000 * b[3] as int == v
  {
    var high := v / 0x1_0000;
    assert LeBytes(v, 4) == [v % 256, v / 256 % 256] + LeBytes(high, 2);
    TwoBytes(high);
  }

  /** The SIZE macro of the entry, for a payload of this length. */
  function SizeMacro(d: Def, length: nat): nat {
    match d.typ
    case UInt(code) => HEADER + SizeOfCode(code)
    case Data => HEADER + DATA_HEADER + length
    case ConstData(size) => HEADER + DATA_HEADER + size
  }

  /** An entry as it is found in a buffer, before it is known which one it is. */
  datatype Raw = Raw(id: nat, code: nat, payload: Bytes, size: nat)

  function FirstRaw(b: Bytes): (r: Option<Raw>)
    ensures r.Some? ==> HEADER <= r.value.size <= |b|
    ensures r.Some? ==> r.value.size == |r.value.payload| + HEADER + if r.value.code < TYPE_DATA then 0 else DATA_HEADER
  {
    if |b| < HEADER then None
    else
      var id, code := LeValue(b[..2]), LeValue(b[2..HEADER]);
      if 1 <= code <= 4 then
        var size := SizeOfCode(code);
        if |b| - HEADER < size then None else Some(Raw(id, code, b[HEADER..HEADER + size], HEADER + size))
      else if code == TYPE_DATA || code == TYPE_CONSTDATA then
        if |b| - HEADER < DATA_HEADER then None
        else
          var at, length := HEADER + DATA_HEADER, LeValue(b[HEADER..HEADER + DATA_HEADER]);
          if |b| - at < length then None else Some(Raw(id, code, b[at..at + length], at + length))
      else None
  }

  /** The entry of the description with this id, among those that are looked at together. */
  function Find(schema: seq<Def>, raw: Raw): (e: nat)
    ensures e <= |schema|
    ensures e < |schema| ==> schema[e].id == raw.id && Case(TypeCode(schema[e].typ)) == Case(raw.code)
    ensures forall i :: 0 <= i < e ==> schema[i].id != raw.id || Case(TypeCode(schema[i].typ)) != Case(raw.code)
  {
    if schema == [] then 0
    else if schema[0].id == raw.id && Case(TypeCode(schema[0].typ)) == Case(raw.code) then 0
    else 1 + Find(schema[1..], raw)
  }

  /** The entry is one that the description has, of the right type and length. */
  predicate Fits(d: Def, raw: Raw) {
    && d.id == raw.id && TypeCode(d.typ) == raw.code
    && (d.typ.ConstData? ==> |raw.payload| == d.typ.length)
  }

  /** What is in a buffer: an entry of the description, its payload, and the bytes it takes. */
  datatype Item = Item(entry: nat, payload: Bytes, size: nat)

  function FirstItem(schema: seq<Def>, b: Bytes): (r: Option<Item>)
    ensures r.Some? ==> HEADER <= r.value.size <= |b| && r.value.entry < |schema|
  {
    var raw := FirstRaw(b);
    if raw.None? then None
    else
      var e := Find(schema, raw.value);
      if e < |schema| && Fits(schema[e], raw.value) then Some(Item(e, raw.value.payload, raw.value.size)) else None
  }

  /** All entries of a buffer, or None if it is not made of entries of the description. */
  function Items(schema: seq<Def>, b: Bytes): Option<seq<Item>> {
    if b == [] then Some([])
    else
      var first := FirstItem(schema, b);
      if first.None? then None
      else
        var rest := Items(schema, b[first.value.size..]);
        if rest.None? then None else Some([first.value] + rest.value)
  }

  /** The payloads of entry e, in order. */
  function Occurrences(items: seq<Item>, e: nat): seq<Bytes> {
    if items == [] then []
    else if items[0].entry == e then [items[0].payload] + Occurrences(items[1..], e)
    else Occurrences(items[1..], e)
  }

  ghost predicate CountsOk(schema: seq<Def>, items: seq<Item>) {
    forall e :: 0 <= e < |schema| ==> CardOk(schema[e].card, |Occurrences(items, e)|)
  }

  /** Parser_Init takes the buffer. */
  ghost predicate Accepts(schema: seq<Def>, b: Bytes) {
    Items(schema, b).Some? && CountsOk(schema, Items(schema, b).value)
  }

  /** An entry that is required is there, and one that is not repeated is not there twice. */
  ghost predicate AsRequired(d: Def, count: nat) {
    && (d.card.Required? || d.card.RequiredRepeated? ==> count > 0)
    && (!d.card.Repeated? && !d.card.RequiredRepeated? ==> count < 2)
  }

  lemma AcceptsMeans(schema: seq<Def>, b: Bytes)
    ensures Accepts(schema, b)
        <==> Items(schema, b).Some?
             && forall e :: 0 <= e < |schema| ==> AsRequired(schema[e], |Occurrences(Items(schema, b).value, e)|)
  {
    if Items(schema, b).Some? {
      var items := Items(schema, b).value;
      forall e | 0 <= e < |schema|
        ensures CardOk(schema[e].card, |Occurrences(items, e)|) <==> AsRequired(schema[e], |Occurrences(items, e)|)
      {}
    }
  }

  // ----- what a writer writes

  /** A call of an Add function: the entry and its value. */
  datatype Call = Call(entry: nat, value: Value)

  ghost predicate CallOk(schema: seq<Def>, c: Call) {
    c.entry < |schema| && ValueOk(schema[c.entry].typ, c.value)
  }

  function PayloadOf(schema: seq<Def>, c: Call): Bytes
    requires c.entry < |schema|
  {
    Payload(schema[c.entry].typ, c.value)
  }

  function ItemOf(schema: seq<Def>, c: Call): Item
    requires c.entry < |schema|
  {
    var payload := PayloadOf(schema, c);
    Item(c.entry, payload, SizeMacro(schema[c.entry], |payload|))
  }

  ghost predicate CallsOk(schema: seq<Def>, calls: seq<Call>) {
    forall k :: 0 <= k < |calls| ==> CallOk(schema, calls[k])
  }

  function Written(schema: seq<Def>, calls: seq<Call>): Bytes
    requires SchemaOk(schema) && CallsOk(schema, calls)
  {
    if calls == [] then []
    else
      var n := |calls| - 1;
      Written(schema, calls[..n]) + EncodeEntry(schema[calls[n].entry], PayloadOf(schema, calls[n]))
  }

  function Sizes(schema: seq<Def>, calls: seq<Call>): nat
    requires CallsOk(schema, calls)
  {
    if calls == [] then 0
    else
      var n := |calls| - 1;
      Sizes(schema, calls[..n]) + ItemOf(schema, calls[n]).size
  }

  function ItemsOf(schema: seq<Def>, calls: seq<Call>): (items: seq<Item>)
    requires CallsOk(schema, calls)
    ensures |items| == |calls| && forall k :: 0 <= k < |calls| ==> items[k] == ItemOf(schema, calls[k])
  {
    seq(|calls|, k requires 0 <= k < |calls| => ItemOf(schema, calls[k]))
  }

  lemma EncodeEntrySize(d: Def, v: Value)
    requires DefOk(d) && ValueOk(d.typ, v)
    ensures |EncodeEntry(d, Payload(d.typ, v))| == SizeMacro(d, |Payload(d.typ, v)|)
  {}

  /** The bytes used are the sum of the SIZE macros. */
  lemma {:induction false} UsedIsSizes(schema: seq<Def>, calls: seq<Call>)
    requires SchemaOk(schema) && CallsOk(schema, calls)
    ensures |Written(schema, calls)| == Sizes(schema, calls)
  {
    if calls == [] {
    } else {
      var n := |calls| - 1;
      UsedIsSizes(schema, calls[..n]);
      assert CallOk(schema, calls[n]);
      EncodeEntrySize(schema[calls[n].entry], calls[n].value);
    }
  }

  // ----- it is read back as it was written

  lemma HeaderRead(id: nat, code: nat)
    requires id < UINT16_COUNT && code < UINT16_COUNT
    ensures ReadsAs(EncodeHeader(id, code), id, code)
  {
    assert Power256(2) == UINT16_COUNT;
    LeRoundTrip(id, 2);
    LeRoundTrip(code, 2);
    assert EncodeHeader(id, code)[..2] == LeBytes(id, 2);
    assert EncodeHeader(id, code)[2..HEADER] == LeBytes(code, 2);
  }

  ghost predicate ReadsAs(header: Bytes, id: nat, code: nat) {
    |header| == HEADER && LeValue(header[..2]) == id && LeValue(header[2..HEADER]) == code
  }

  lemma RawOfNumber(header: Bytes, id: nat, code: nat, payload: Bytes, rest: Bytes)
    requires ReadsAs(header, id, code) && 1 <= code <= 4 && |payload| == SizeOfCode(code)
    ensures FirstRaw(header + payload + rest) == Some(Raw(id, code, payload, HEADER + |payload|))
  {
    var b := header + payload + rest;
    assert b[..2] == header[..2] && b[2..HEADER] == header[2..HEADER];
    assert b[HEADER..HEADER + |payload|] == payload;
  }

  lemma RawOfData(header: Bytes, id: nat, code: nat, length: Bytes, payload: Bytes, rest: Bytes)
    requires ReadsAs(header, id, code) && (code == TYPE_DATA || code == TYPE_CONSTDATA)
    requires |length| == DATA_HEADER && LeValue(length) == |payload|
    ensures FirstRaw(header + length + payload + rest) == Some(Raw(id, code, payload, HEADER + DATA_HEADER + |payload|))
  {
    var b, at := header + length + payload + rest, HEADER + DATA_HEADER;
    assert b[..2] == header[..2] && b[2..HEADER] == header[2..HEADER];
    assert b[HEADER..at] == length;
    assert b[at..at + |payload|] == payload;
  }

  lemma RawOfParts(d: Def, header: Bytes, length: Bytes, payload: Bytes, rest: Bytes)
    requires DefOk(d) && PayloadOk(d.typ, |payload|) && ReadsAs(header, d.id, TypeCode(d.typ))
    requires d.typ.UInt? || (|length| == DATA_HEADER && LeValue(length) == |payload|)
    ensures FirstRaw(Joined(d.typ, header, length, payload) + rest)
         == Some(Raw(d.id, TypeCode(d.typ), payload, SizeMacro(d, |payload|)))
  {
    if d.typ.UInt? {
      RawOfNumber(header, d.id, TypeCode(d.typ), payload, rest);
    } else {
      RawOfData(header, d.id, TypeCode(d.typ), length, payload, rest);
    }
  }

  lemma RawOfLength(d: Def, length: Bytes, payload: Bytes, rest: Bytes)
    requires DefOk(d) && PayloadOk(d.typ, |payload|)
    requires d.typ.UInt? || (|length| == DATA_HEADER && LeValue(length) == |payload|)
    ensures FirstRaw(Joined(d.typ, EncodeHeader(d.id, TypeCode(d.typ)), length, payload) + rest)
         == Some(Raw(d.id, TypeCode(d.typ), payload, SizeMacro(d, |payload|)))
  {
    HeaderRead(d.id, TypeCode(d.typ));
    RawOfParts(d, EncodeHeader(d.id, TypeCode(d.typ)), length, payload, rest);
  }

  lemma LengthRead(t: Type, n: nat)
    requires t.UInt? || n < UINT32_COUNT
    ensures t.UInt? || (|LengthBytes(t, n)| == DATA_HEADER && LeValue(LengthBytes(t, n)) == n)
  {
    if !t.UInt? {
      assert Power256(2) == 0x1_0000 && Power256(DATA_HEADER) == UINT32_COUNT;
      LeRoundTrip(n, DATA_HEADER);
    }
  }

  lemma RawOfEntry(d: Def, payload: Bytes, rest: Bytes)
    requires DefOk(d) && PayloadOk(d.typ, |payload|)
    ensures FirstRaw(EncodeEntry(d, payload) + rest)
            == Some(Raw(d.id, TypeCode(d.typ), payload, SizeMacro(d, |payload|)))
  {
    LengthRead(d.typ, |payload|);
    RawOfLength(d, LengthBytes(d.typ, |payload|), payload, rest);
  }

  lemma FindOwn(schema: seq<Def>, e: nat, raw: Raw)
    requires SchemaOk(schema) && e < |schema| && schema[e].id == raw.id && TypeCode(schema[e].typ) == raw.code
    ensures Find(schema, raw) == e
  {
    assert NoClash(schema, Find(schema, raw), e);
  }

  lemma FirstOfEntry(schema: seq<Def>, e: nat, payload: Bytes, rest: Bytes)
    requires SchemaOk(schema) && e < |schema| && PayloadOk(schema[e].typ, |payload|)
    ensures FirstItem(schema, EncodeEntry(schema[e], payload) + rest)
            == Some(Item(e, payload, SizeMacro(schema[e], |payload|)))
  {
    var d := schema[e];
    assert DefOk(d);
    RawOfEntry(d, payload, rest);
    FindOwn(schema, e, Raw(d.id, TypeCode(d.typ), payload, SizeMacro(d, |payload|)));
  }

  lemma FirstOfWritten(schema: seq<Def>, c: Call, rest: Bytes)
    requires SchemaOk(schema) && CallOk(schema, c)
    ensures FirstItem(schema, EncodeEntry(schema[c.entry], PayloadOf(schema, c)) + rest) == Some(ItemOf(schema, c))
  {
    PayloadFits(schema[c.entry].typ, c.value);
    FirstOfEntry(schema, c.entry, PayloadOf(schema, c), rest);
  }

  lemma ItemsCons(schema: seq<Def>, entry: Bytes, item: Item, rest: Bytes)
    requires FirstItem(schema, entry + rest) == Some(item) && item.size == |entry| && Items(schema, rest).Some?
    ensures Items(schema, entry + rest) == Some([item] + Items(schema, rest).value)
  {
    assert (entry + rest)[|entry|..] == rest;
  }

  /** What is written before `rest` is read before it. */
  lemma WrittenBefore(schema: seq<Def>, calls: seq<Call>, c: Call, rest: Bytes) returns (entry: Bytes)
    requires SchemaOk(schema) && CallsOk(schema, calls) && CallOk(schema, c) && Items(schema, rest).Some?
    ensures CallsOk(schema, calls + [c])
    ensures Written(schema, calls + [c]) + rest == Written(schema, calls) + (entry + rest)
    ensures Items(schema, entry + rest) == Some([ItemOf(schema, c)] + Items(schema, rest).value)
  {
    entry := EncodeEntry(schema[c.entry], PayloadOf(schema, c));
    assert (calls + [c])[..|calls|] == calls;
    Regroup(Written(schema, calls), entry, rest);
    FirstOfWritten(schema, c, rest);
    EncodeEntrySize(schema[c.entry], c.value);
    ItemsCons(schema, entry, ItemOf(schema, c), rest);
  }

  lemma {:induction false} ItemsOfWritten(schema: seq<Def>, calls: seq<Call>, rest: Bytes)
    requires SchemaOk(schema) && CallsOk(schema, calls) && Items(schema, rest).Some?
    ensures Items(schema, Written(schema, calls) + rest) == Some(ItemsOf(schema, calls) + Items(schema, rest).value)
    decreases |calls|
  {
    if calls == [] {
      assert Written(schema, calls) + rest == rest;
      assert ItemsOf(schema, calls) + Items(schema, rest).value == Items(schema, rest).value;
    } else {
      var n := |calls| - 1;
      var before, item := calls[..n], ItemOf(schema, calls[n]);
      assert calls == before + [calls[n]];
      var entry := WrittenBefore(schema, before, calls[n], rest);
      ItemsOfWritten(schema, before, entry + rest);
      assert ItemsOf(schema, calls) == ItemsOf(schema, before) + [item];
      Regroup(ItemsOf(schema, before), [item], Items(schema, rest).value);
    }
  }

  /** For every description and every calls, what was written is read back as the calls, in order. */
  lemma RoundTrip(schema: seq<Def>, calls: seq<Call>)
    requires SchemaOk(schema) && CallsOk(schema, calls)
    ensures Items(schema, Written(schema, calls)) == Some(ItemsOf(schema, calls))
  {
    ItemsOfWritten(schema, calls, []);
    assert Written(schema, calls) + [] == Written(schema, calls);
    assert ItemsOf(schema, calls) + [] == ItemsOf(schema, calls);
  }

  /** The values that were written for entry e, in order. */
  function ValuesFor(calls: seq<Call>, e: nat): seq<Value> {
    if calls == [] then []
    else if calls[0].entry == e then [calls[0].value] + ValuesFor(calls[1..], e)
    else ValuesFor(calls[1..], e)
  }

  function ValuesOf(t: Type, payloads: seq<Bytes>): (vs: seq<Value>)
    ensures |vs| == |payloads|
  {
    if payloads == [] then [] else [ValueOf(t, payloads[0])] + ValuesOf(t, payloads[1..])
  }

  /** The cardinality asserts of Writer_Finish, and so of the Add functions. */
  ghost predicate Finished(schema: seq<Def>, calls: seq<Call>) {
    forall e :: 0 <= e < |schema| ==> CardOk(schema[e].card, |ValuesFor(calls, e)|)
  }

  lemma {:induction false} OccurrencesWritten(schema: seq<Def>, calls: seq<Call>, e: nat)
    requires CallsOk(schema, calls) && e < |schema|
    ensures ValuesOf(schema[e].typ, Occurrences(ItemsOf(schema, calls), e)) == ValuesFor(calls, e)
  {
    if calls == [] {
    } else {
      var c := calls[0];
      assert CallOk(schema, c);
      assert forall k :: 0 <= k < |calls| - 1 ==> calls[1..][k] == calls[k + 1];
      OccurrencesWritten(schema, calls[1..], e);
      assert ItemsOf(schema, calls)[1..] == ItemsOf(schema, calls[1..]);
      if c.entry == e {
        ValueRoundTrip(schema[e].typ, c.value);
        var rest := Occurrences(ItemsOf(schema, calls[1..]), e);
        assert ([PayloadOf(schema, c)] + rest)[1..] == rest;
      }
    }
  }

  /**
    For every description, and every calls that meet the cardinality asserts, Parser_Init accepts what
    was written, each entry has exactly the values that were written for it, in order, and the bytes
    used are the sum of the SIZE macros.
  */
  lemma WrittenIsAccepted(schema: seq<Def>, calls: seq<Call>)
    requires SchemaOk(schema) && CallsOk(schema, calls) && Finished(schema, calls)
    ensures Accepts(schema, Written(schema, calls))
    ensures forall e :: 0 <= e < |schema| ==>
              ValuesOf(schema[e].typ, Occurrences(Items(schema, Written(schema, calls)).value, e))
                == ValuesFor(calls, e)
    ensures |Written(schema, calls)| == Sizes(schema, calls)
  {
    RoundTrip(schema, calls);
    UsedIsSizes(schema, calls);
    forall e | 0 <= e < |schema|
      ensures ValuesOf(schema[e].typ, Occurrences(ItemsOf(schema, calls), e)) == ValuesFor(calls, e)
    {
      OccurrencesWritten(schema, calls, e);
    }
  }
}
