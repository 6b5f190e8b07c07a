/** The writer and the parser that are generated for a message, with the message description as data. */
module BProtoObject {
  import opened Common
  import opened BProto
  import opened BProtoPositions

  lemma {:induction false} ValuesForAppend(calls: seq<Call>, c: Call, e: nat)
    ensures ValuesFor(calls + [c], e) == if c.entry == e then ValuesFor(calls, e) + [c.value] else ValuesFor(calls, e)
  {
    if calls == [] {
      assert calls + [c] == [c];
      assert ValuesFor([c][1..], e) == [];
    } else {
      assert (calls + [c])[0] == calls[0] && (calls + [c])[1..] == calls[1..] + [c];
      ValuesForAppend(calls[1..], c, e);
    }
  }

  /** The add assert of an entry that can only be there once. */
  predicate OnlyOnce(c: Cardinality) {
    c == Optional || c == Required
  }

  class Writer {
    const schema: seq<Def>
    var out: Bytes
    var counts: seq<nat>
    ghost var calls: seq<Call>

    ghost predicate Counted(e: nat)
      reads this
    {
      e < |schema| == |counts| ==> counts[e] == |ValuesFor(calls, e)|
    }

    ghost predicate Valid()
      reads this
    {
      && SchemaOk(schema) && CallsOk(schema, calls) && out == Written(schema, calls)
      && |counts| == |schema| && forall e :: Counted(e)
    }

    constructor (schema: seq<Def>)
      requires SchemaOk(schema)
      ensures Valid() && this.schema == schema && calls == []
    {
      this.schema := schema;
      out := [];
      counts := seq(|schema|, _ => 0);
      calls := [];
    }

    /** Adds a value of entry e; a number, or the data that is put where the function says. */
    method Add(e: nat, v: Value)
      requires Valid() && e < |schema| && ValueOk(schema[e].typ, v)
      requires OnlyOnce(schema[e].card) ==> counts[e] == 0
      modifies this
      ensures Valid() && calls == old(calls) + [Call(e, v)]
    {
      var d := schema[e];
      var payload := Payload(d.typ, v);
      ghost var c := Call(e, v);
      assert (calls + [c])[..|calls|] == calls;
      assert DefOk(d);
      PayloadFits(d.typ, v);
      out := out + EncodeEntry(d, payload);
      counts := counts[e := counts[e] + 1];
      calls := calls + [c];
      forall x
        ensures Counted(x)
      {
        assert old(Counted(x));
        ValuesForAppend(old(calls), c, x);
      }
    }

    /** The bytes used; what was written will be accepted. */
    method Finish() returns (used: nat)
      requires Valid() && forall e :: 0 <= e < |schema| ==> CardOk(schema[e].card, counts[e])
      ensures used == |out| == Sizes(schema, calls) && Accepts(schema, out)
    {
      forall e | 0 <= e < |schema|
        ensures CardOk(schema[e].card, |ValuesFor(calls, e)|)
      {
        assert Counted(e);
      }
      WrittenIsAccepted(schema, calls);
      used := |out|;
    }
  }

  // ----- the parser

  /** The fields of all entries, after the items `seen`. */
  ghost predicate TrackedAt(seen: seq<Item>, bufLen: nat, starts: seq<nat>, spans: seq<nat>, counts: seq<nat>, e: nat) {
    e < |starts| == |spans| == |counts| ==> Tracked(seen, bufLen, e, starts[e], spans[e], counts[e])
  }

  ghost predicate AllTracked(seen: seq<Item>, bufLen: nat, starts: seq<nat>, spans: seq<nat>, counts: seq<nat>) {
    |starts| == |spans| == |counts| && forall e: nat :: TrackedAt(seen, bufLen, starts, spans, counts, e)
  }

  lemma TrackedUpdate(seen: seq<Item>, bufLen: nat, starts: seq<nat>, spans: seq<nat>, counts: seq<nat>, item: Item)
      returns (start: nat, span: nat)
    requires AllTracked(seen, bufLen, starts, spans, counts) && item.entry < |starts|
    requires Size(seen) + item.size <= bufLen && item.size > 0
    ensures start == if starts[item.entry] == bufLen then Size(seen) else starts[item.entry]
    ensures start <= Size(seen) && span == Size(seen) + item.size - start
    ensures var e := item.entry;
            AllTracked(seen + [item], bufLen, starts[e := start], spans[e := span], counts[e := counts[e] + 1])
  {
    var e := item.entry;
    assert TrackedAt(seen, bufLen, starts, spans, counts, e);
    TrackedNext(seen, bufLen, e, starts[e], spans[e], counts[e], item);
    start := if starts[e] == bufLen then Size(seen) else starts[e];
    span := Size(seen) + item.size - start;
    var starts', spans', counts' := starts[e := start], spans[e := span], counts[e := counts[e] + 1];
    forall x: nat
      ensures TrackedAt(seen + [item], bufLen, starts', spans', counts', x)
    {
      assert TrackedAt(seen, bufLen, starts, spans, counts, x);
      if x < |starts| {
        TrackedNext(seen, bufLen, x, starts[x], spans[x], counts[x], item);
      }
    }
  }

  ghost predicate PositionedAt(items: seq<Item>, bufLen: nat, starts: seq<nat>, spans: seq<nat>, poss: seq<nat>,
                               nexts: seq<nat>, e: nat) {
    e < |starts| == |spans| == |poss| == |nexts| ==>
      Positioned(items, bufLen, e, starts[e], spans[e], poss[e], nexts[e])
  }

  ghost predicate AllPositioned(items: seq<Item>, bufLen: nat, starts: seq<nat>, spans: seq<nat>, poss: seq<nat>,
                                nexts: seq<nat>) {
    |starts| == |spans| == |poss| == |nexts|
      && forall e: nat :: PositionedAt(items, bufLen, starts, spans, poss, nexts, e)
  }

  /** Every entry starts at its first occurrence, with all its occurrences left. */
  lemma AllStart(items: seq<Item>, bufLen: nat, starts: seq<nat>, spans: seq<nat>, counts: seq<nat>, poss: seq<nat>,
                 nexts: seq<nat>)
    requires AllTracked(items, bufLen, starts, spans, counts) && Size(items) == bufLen
    requires |poss| == |nexts| == |starts|
    requires forall e :: 0 <= e < |starts| ==> poss[e] == 0 && nexts[e] == FirstOf(items, e)
    ensures AllPositioned(items, bufLen, starts, spans, poss, nexts)
    ensures forall e :: 0 <= e < |starts| ==>
              nexts[e] <= |items| && Occurrences(items[nexts[e]..], e) == Occurrences(items, e)
                && counts[e] == |Occurrences(items, e)|
  {
    forall e: nat
      ensures PositionedAt(items, bufLen, starts, spans, poss, nexts, e)
      ensures e < |starts| ==>
                nexts[e] <= |items| && Occurrences(items[nexts[e]..], e) == Occurrences(items, e)
                  && counts[e] == |Occurrences(items, e)|
    {
      assert TrackedAt(items, bufLen, starts, spans, counts, e);
      if e < |starts| {
        StartPositioned(items, bufLen, e, starts[e], spans[e]);
      }
    }
  }

  /** Entry e is moved; the others are not. */
  lemma OneMoved(items: seq<Item>, bufLen: nat, starts: seq<nat>, spans: seq<nat>, poss: seq<nat>, nexts: seq<nat>,
                 e: nat, pos: nat, next: nat)
    requires AllPositioned(items, bufLen, starts, spans, poss, nexts) && e < |starts|
    requires Positioned(items, bufLen, e, starts[e], spans[e], pos, next)
    ensures AllPositioned(items, bufLen, starts, spans, poss[e := pos], nexts[e := next])
  {
    var poss', nexts' := poss[e := pos], nexts[e := next];
    forall x: nat
      ensures PositionedAt(items, bufLen, starts, spans, poss', nexts', x)
    {
      assert PositionedAt(items, bufLen, starts, spans, poss, nexts, x);
    }
  }

  /** The buffer is `seen` and what is read from pos on. */
  ghost predicate ReadSoFar(schema: seq<Def>, buf: Bytes, pos: nat, seen: seq<Item>) {
    && pos == Size(seen) && pos <= |buf|
    && var rest := Items(schema, buf[pos..]);
       Items(schema, buf) == if rest.None? then None else Some(seen + rest.value)
  }

  lemma ReadNext(schema: seq<Def>, buf: Bytes, pos: nat, seen: seq<Item>, item: Item)
    requires ReadSoFar(schema, buf, pos, seen) && pos < |buf| && FirstItem(schema, buf[pos..]) == Some(item)
    ensures ReadSoFar(schema, buf, pos + item.size, seen + [item])
  {
    SizeAppend(seen, item);
    var rest := Items(schema, buf[pos + item.size..]);
    assert buf[pos..][item.size..] == buf[pos + item.size..];
    if rest.Some? {
      Regroup(seen, [item], rest.value);
    }
  }

  class Parser {
    var schema: seq<Def>
    var buf: Bytes
    var starts: seq<nat>
    var spans: seq<nat>
    var poss: seq<nat>
    ghost var items: seq<Item>
    ghost var nexts: seq<nat>

    ghost predicate Valid()
      reads this
    {
      && SchemaOk(schema) && |starts| == |schema|
      && Items(schema, buf) == Some(items)
      && AllPositioned(items, |buf|, starts, spans, poss, nexts)
    }

    lemma At(e: nat)
      requires Valid() && e < |schema|
      ensures Positioned(items, |buf|, e, starts[e], spans[e], poss[e], nexts[e])
    {
      assert PositionedAt(items, |buf|, starts, spans, poss, nexts, e);
    }

    /** The occurrences of entry e that were not read yet. */
    ghost function Left(e: nat): seq<Bytes>
      requires Valid() && e < |schema|
      reads this
    {
      At(e);
      Occurrences(items[nexts[e]..], e)
    }

    /** Parser_Init: whether the buffer is a message of this description. */
    method Init(schema: seq<Def>, buf: Bytes) returns (ok: bool)
      requires SchemaOk(schema)
      modifies this
      ensures ok <==> Accepts(schema, buf)
      ensures ok ==> Valid() && this.schema == schema && this.buf == buf && items == Items(schema, buf).value
      ensures ok ==> forall e :: 0 <= e < |schema| ==> Left(e) == Occurrences(items, e)
    {
      this.schema, this.buf := schema, buf;
      var counts;
      ok, counts := Scan();
      if !ok { return; }
      ghost var found := Items(schema, buf).value;
      items, nexts := found, seq(|schema|, e requires 0 <= e => FirstOf(found, e));
      AllItems(schema, buf, found);
      AllStart(found, |buf|, starts, spans, counts, poss, nexts);
      ok := CheckCounts(counts);
    }

    /** Reads all entries and remembers where the first and the last of each kind are. */
    method Scan() returns (ok: bool, counts: seq<nat>)
      requires SchemaOk(schema)
      modifies `starts, `spans, `poss
      ensures ok <==> Items(schema, buf).Some?
      ensures ok ==> && |starts| == |schema| && poss == seq(|schema|, _ => 0)
                     && AllTracked(Items(schema, buf).value, |buf|, starts, spans, counts)
    {
      counts := Clear();
      StartSoFar(schema, buf);
      var pos: nat := 0;
      ghost var seen: seq<Item> := [];
      ghost var cleared := poss;
      while pos < |buf|
        invariant poss == cleared && Scanned(pos, seen, counts)
      {
        var size;
        size, counts, seen := ScanEntry(pos, counts, seen);
        if size == 0 {
          return false, counts;
        }
        pos := pos + size;
      }
      AllRead(schema, buf, pos, seen);
      return true, counts;
    }

    ghost predicate Scanned(pos: nat, seen: seq<Item>, counts: seq<nat>)
      reads this
    {
      |starts| == |schema| && ReadSoFar(schema, buf, pos, seen) && AllTracked(seen, |buf|, starts, spans, counts)
    }

    /** Reads and remembers the entry at pos; its size is 0 if it is not a good one. */
    method ScanEntry(pos: nat, counts: seq<nat>, ghost seen: seq<Item>)
        returns (size: nat, newCounts: seq<nat>, ghost newSeen: seq<Item>)
      requires pos < |buf| && Scanned(pos, seen, counts)
      modifies `starts, `spans
      ensures if size == 0 then Items(schema, buf).None?
              else size <= |buf| - pos && Scanned(pos + size, newSeen, newCounts)
    {
      var item := ReadItem(pos, seen);
      if item.None? {
        return 0, counts, seen;
      }
      newCounts := Note(item.value, pos, counts, seen);
      return item.value.size, newCounts, seen + [item.value];
    }

    /** Nothing is found yet. */
    method Clear() returns (counts: seq<nat>)
      modifies `starts, `spans, `poss
      ensures |starts| == |schema| && poss == seq(|schema|, _ => 0)
      ensures AllTracked([], |buf|, starts, spans, counts)
    {
      var bufLen := |buf|;
      starts, spans := seq(|schema|, _ => bufLen), seq(|schema|, _ => 0);
      poss, counts := seq(|schema|, _ => 0), seq(|schema|, _ => 0);
      NothingTracked(|buf|, starts, spans, counts);
    }

    /** Reads the entry at pos. */
    method ReadItem(pos: nat, ghost seen: seq<Item>) returns (item: Option<Item>)
      requires pos < |buf| && ReadSoFar(schema, buf, pos, seen)
      ensures if item.None? then Items(schema, buf).None?
              else
                && item.value.entry < |schema| && 0 < item.value.size <= |buf| - pos
                && ReadSoFar(schema, buf, pos + item.value.size, seen + [item.value])
    {
      item := FirstItem(schema, buf[pos..]);
      if item.Some? {
        ReadNext(schema, buf, pos, seen, item.value);
      }
    }

    /** Remembers an entry that was found at pos. */
    method Note(item: Item, pos: nat, counts: seq<nat>, ghost seen: seq<Item>) returns (newCounts: seq<nat>)
      requires AllTracked(seen, |buf|, starts, spans, counts) && item.entry < |starts|
      requires pos == Size(seen) && pos + item.size <= |buf| && item.size > 0
      modifies `starts, `spans
      ensures AllTracked(seen + [item], |buf|, starts, spans, newCounts) && |starts| == old(|starts|)
    {
      var e := item.entry;
      ghost var newStart, newSpan := TrackedUpdate(seen, |buf|, starts, spans, counts, item);
      if starts[e] == |buf| {
        starts := starts[e := pos];
      }
      assert starts == old(starts)[e := newStart];
      spans := spans[e := pos + item.size - starts[e]];
      newCounts := counts[e := counts[e] + 1];
    }

    method CheckCounts(counts: seq<nat>) returns (ok: bool)
      requires |counts| == |schema|
      ensures ok <==> forall e :: 0 <= e < |schema| ==> CardOk(schema[e].card, counts[e])
    {
      var e := 0;
      while e < |schema|
        invariant 0 <= e <= |schema|
        invariant forall x :: 0 <= x < e ==> CardOk(schema[x].card, counts[x])
      {
        if !CardOk(schema[e].card, counts[e]) { return false; }
        e := e + 1;
      }
      return true;
    }

    /** The next value of entry e. */
    method Get(e: nat) returns (r: Option<Value>)
      requires Valid() && e < |schema|
      modifies `poss, `nexts
      ensures Valid()
      ensures r == if old(Left(e)) == [] then None else Some(ValueOf(schema[e].typ, old(Left(e))[0]))
      ensures Left(e) == if old(Left(e)) == [] then [] else old(Left(e))[1..]
      ensures forall x :: 0 <= x < |schema| && x != e ==> Left(x) == old(Left(x))
    {
      var payload := NextPayload(e);
      r := if payload.None? then None else Some(ValueOf(schema[e].typ, payload.value));
    }

    method NextPayload(e: nat) returns (r: Option<Bytes>)
      requires Valid() && e < |schema|
      modifies `poss, `nexts
      ensures Valid()
      ensures r == if old(Left(e)) == [] then None else Some(old(Left(e))[0])
      ensures Left(e) == if old(Left(e)) == [] then [] else old(Left(e))[1..]
      ensures forall x :: 0 <= x < |schema| && x != e ==> Left(x) == old(Left(x))
    {
      var pos;
      ghost var next;
      r, pos, next := Search(e);
      MoveTo(e, pos, next);
    }

    /** The loop of a getter: it skips other entries, and each of its asserts holds. */
    method Search(e: nat) returns (r: Option<Bytes>, pos: nat, ghost next: nat)
      requires Valid() && e < |schema|
      ensures Positioned(items, |buf|, e, starts[e], spans[e], pos, next)
      ensures r.None? ==> Left(e) == [] && Occurrences(items[next..], e) == []
      ensures r.Some? ==> Left(e) == [r.value] + Occurrences(items[next..], e)
    {
      At(e);
      pos, next := poss[e], nexts[e];
      ghost var all := Left(e);
      while pos < spans[e]
        invariant Positioned(items, |buf|, e, starts[e], spans[e], pos, next)
        invariant Occurrences(items[next..], e) == all
        decreases spans[e] - pos
      {
        var own, size, payload := ReadRaw(e, pos, next);
        pos := pos + size;
        next := next + 1;
        if own {
          return Some(payload), pos, next;
        }
      }
      NoneLeft(e, pos, next);
      r := None;
    }

    /** At the end of the span there is no more occurrence. */
    lemma NoneLeft(e: nat, pos: nat, next: nat)
      requires Valid() && e < |schema| && Positioned(items, |buf|, e, starts[e], spans[e], pos, next) && pos >= spans[e]
      ensures Occurrences(items[next..], e) == []
    {
      ItemsHaveHeaders(schema, buf, items);
      AtEndIff(items, |buf|, e, starts[e], spans[e], pos, next);
    }

    /** Reads the entry at pos, which lies within the span; whether it is an occurrence of entry e. */
    method ReadRaw(e: nat, pos: nat, ghost next: nat) returns (own: bool, size: nat, payload: Bytes)
      requires Valid() && e < |schema| && Positioned(items, |buf|, e, starts[e], spans[e], pos, next) && pos < spans[e]
      ensures 0 < size <= spans[e] - pos && Positioned(items, |buf|, e, starts[e], spans[e], pos + size, next + 1)
      ensures var after := Occurrences(items[next + 1..], e);
              Occurrences(items[next..], e) == if own then [payload] + after else after
    {
      ItemsHaveHeaders(schema, buf, items);
      StepPositioned(items, |buf|, e, starts[e], spans[e], pos, next);
      OccurrencesFrom(items, e, next);
      FoundAt(schema, buf, items, next, e);
      var raw := FirstRaw(buf[starts[e] + pos..]).value;
      own, size, payload := schema[e].id == raw.id && TypeCode(schema[e].typ) == raw.code, raw.size, raw.payload;
    }

    method MoveTo(e: nat, pos: nat, ghost next: nat)
      requires Valid() && e < |schema| && Positioned(items, |buf|, e, starts[e], spans[e], pos, next)
      modifies `poss, `nexts
      ensures Valid() && Left(e) == Occurrences(items[next..], e)
      ensures forall x :: 0 <= x < |schema| && x != e ==> Left(x) == old(Left(x))
    {
      OneMoved(items, |buf|, starts, spans, poss, nexts, e, pos, next);
      poss := poss[e := pos];
      nexts := nexts[e := next];
    }

    /** Entry e can be read again from its first occurrence. */
    method Reset(e: nat)
      requires Valid() && e < |schema|
      modifies `poss, `nexts
      ensures Valid() && Left(e) == Occurrences(items, e)
      ensures forall x :: 0 <= x < |schema| && x != e ==> Left(x) == old(Left(x))
    {
      At(e);
      AllItems(schema, buf, items);
      StartPositioned(items, |buf|, e, starts[e], spans[e]);
      MoveTo(e, 0, FirstOf(items, e));
    }

    /** The rest of entry e is skipped. */
    method Forward(e: nat)
      requires Valid() && e < |schema|
      modifies `poss, `nexts
      ensures Valid() && Left(e) == []
      ensures forall x :: 0 <= x < |schema| && x != e ==> Left(x) == old(Left(x))
    {
      At(e);
      ItemsHaveHeaders(schema, buf, items);
      ghost var next := if Occurrences(items, e) == [] then nexts[e] else EndOf(items, e);
      AtEndIff(items, |buf|, e, starts[e], spans[e], spans[e], next);
      MoveTo(e, spans[e], next);
    }

    /** Whether every occurrence of every entry was read or skipped. */
    method GotEverything() returns (all: bool)
      requires Valid()
      ensures all <==> forall e :: 0 <= e < |schema| ==> Left(e) == []
    {
      ItemsHaveHeaders(schema, buf, items);
      all := AllAtEnd();
      forall e | 0 <= e < |schema|
        ensures poss[e] == spans[e] <==> Left(e) == []
      {
        At(e);
        AtEndIff(items, |buf|, e, starts[e], spans[e], poss[e], nexts[e]);
      }
    }

    method AllAtEnd() returns (all: bool)
      requires |poss| == |spans| == |schema|
      ensures all <==> forall e :: 0 <= e < |schema| ==> poss[e] == spans[e]
    {
      var e := 0;
      while e < |schema|
        invariant 0 <= e <= |schema|
        invariant forall x :: 0 <= x < e ==> poss[x] == spans[x]
      {
        if poss[e] != spans[e] { return false; }
        e := e + 1;
      }
      return true;
    }
  }

  /** What a getter finds at item k, and how it tells whether that is its own entry. */
  lemma FoundAt(schema: seq<Def>, buf: Bytes, items: seq<Item>, k: nat, e: nat)
    requires SchemaOk(schema) && Items(schema, buf) == Some(items) && k < |items| && e < |schema|
    ensures Offset(items, k) <= |buf|
    ensures var raw := FirstRaw(buf[Offset(items, k)..]);
            && raw.Some? && raw.value.size == items[k].size && raw.value.payload == items[k].payload
            && (schema[e].id == raw.value.id && TypeCode(schema[e].typ) == raw.value.code <==> items[k].entry == e)
  {
    ItemsAt(schema, buf, items, k);
    FirstOfItems(schema, buf[Offset(items, k)..], items[k..]);
    var raw := FirstRaw(buf[Offset(items, k)..]).value;
    if schema[e].id == raw.id && TypeCode(schema[e].typ) == raw.code {
      FindOwn(schema, e, raw);
    }
  }

  lemma NothingTracked(bufLen: nat, starts: seq<nat>, spans: seq<nat>, counts: seq<nat>)
    requires |starts| == |spans| == |counts|
    requires forall e :: 0 <= e < |starts| ==> starts[e] == bufLen && spans[e] == 0 && counts[e] == 0
    ensures AllTracked([], bufLen, starts, spans, counts)
  {}

  lemma AllRead(schema: seq<Def>, buf: Bytes, pos: nat, seen: seq<Item>)
    requires ReadSoFar(schema, buf, pos, seen) && pos == |buf|
    ensures Items(schema, buf) == Some(seen)
  {
    assert seen + [] == seen;
  }

  lemma StartSoFar(schema: seq<Def>, buf: Bytes)
    ensures ReadSoFar(schema, buf, 0, [])
  {
    assert buf[0..] == buf;
    var rest := Items(schema, buf);
    assert rest.Some? ==> [] + rest.value == rest.value;
  }
}
