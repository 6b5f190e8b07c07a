/** Where the entries of a buffer are: what start, span and pos of a generated parser mean. */
module BProtoPositions {
  import opened Common
  import opened BProto

  /** The bytes that the items take. */
  function Size(items: seq<Item>): nat {
    if items == [] then 0 else Size(items[..|items| - 1]) + items[|items| - 1].size
  }

  lemma SizeAppend(items: seq<Item>, item: Item)
    ensures Size(items + [item]) == Size(items) + item.size
  {
    assert (items + [item])[..|items|] == items;
  }

  /** Where item k starts, or where the items end. */
  function Offset(items: seq<Item>, k: nat): nat
    requires k <= |items|
  {
    Size(items[..k])
  }

  lemma OffsetNext(items: seq<Item>, k: nat)
    requires k < |items|
    ensures Offset(items, k + 1) == Offset(items, k) + items[k].size
  {
    assert items[..k + 1] == items[..k] + [items[k]];
    SizeAppend(items[..k], items[k]);
  }

  lemma {:induction false} OffsetMonotonic(items: seq<Item>, j: nat, k: nat)
    requires j <= k <= |items|
    ensures Offset(items, j) <= Offset(items, k)
    decreases k
  {
    if j < k {
      OffsetMonotonic(items, j, k - 1);
      OffsetNext(items, k - 1);
    }
  }

  lemma FirstOfItems(schema: seq<Def>, b: Bytes, items: seq<Item>)
    requires Items(schema, b) == Some(items)
    ensures items == [] <==> b == []
    ensures items != [] ==>
              && FirstItem(schema, b) == Some(items[0])
              && Items(schema, b[items[0].size..]) == Some(items[1..])
  {}

  /** The item at k is what the parser finds in the buffer at its offset. */
  lemma {:induction false} ItemsAt(schema: seq<Def>, buf: Bytes, items: seq<Item>, k: nat)
    requires Items(schema, buf) == Some(items) && k <= |items|
    ensures Offset(items, k) <= |buf| && Items(schema, buf[Offset(items, k)..]) == Some(items[k..])
    decreases k
  {
    if k == 0 {
      assert buf[0..] == buf && items[0..] == items;
    } else {
      ItemsAt(schema, buf, items, k - 1);
      OffsetNext(items, k - 1);
      var b := buf[Offset(items, k - 1)..];
      FirstOfItems(schema, b, items[k - 1..]);
      assert items[k - 1..][1..] == items[k..];
      assert b[items[k - 1].size..] == buf[Offset(items, k)..];
    }
  }

  lemma AllItems(schema: seq<Def>, buf: Bytes, items: seq<Item>)
    requires Items(schema, buf) == Some(items)
    ensures Size(items) == |buf|
  {
    ItemsAt(schema, buf, items, |items|);
    assert items[..|items|] == items && items[|items|..] == [];
    FirstOfItems(schema, buf[Size(items)..], []);
  }

  // ----- first and last occurrence

  function FirstOf(items: seq<Item>, e: nat): (k: nat)
    ensures k <= |items|
    ensures k < |items| ==> items[k].entry == e
  {
    if items == [] then 0 else if items[0].entry == e then 0 else 1 + FirstOf(items[1..], e)
  }

  /** Behind the last occurrence. */
  function EndOf(items: seq<Item>, e: nat): (k: nat)
    ensures k <= |items|
    ensures k > 0 ==> items[k - 1].entry == e
  {
    if items == [] then 0 else if items[|items| - 1].entry == e then |items| else EndOf(items[..|items| - 1], e)
  }

  lemma {:induction false} OccurrencesConcat(a: seq<Item>, b: seq<Item>, e: nat)
    ensures Occurrences(a + b, e) == Occurrences(a, e) + Occurrences(b, e)
  {
    if a == [] {
      assert a + b == b;
    } else {
      assert (a + b)[0] == a[0] && (a + b)[1..] == a[1..] + b;
      OccurrencesConcat(a[1..], b, e);
    }
  }

  lemma {:induction false} FirstOfAppend(items: seq<Item>, item: Item, e: nat)
    ensures FirstOf(items + [item], e)
         == if FirstOf(items, e) < |items| then FirstOf(items, e) else if item.entry == e then |items| else |items| + 1
    ensures FirstOf(items, e) < |items| <==> Occurrences(items, e) != []
  {
    if items == [] {
      assert items + [item] == [item];
      assert [item][1..] == [];
    } else {
      assert (items + [item])[0] == items[0] && (items + [item])[1..] == items[1..] + [item];
      FirstOfAppend(items[1..], item, e);
    }
  }

  lemma EndOfAppend(items: seq<Item>, item: Item, e: nat)
    ensures EndOf(items + [item], e) == if item.entry == e then |items| + 1 else EndOf(items, e)
  {
    assert (items + [item])[..|items|] == items;
  }

  lemma {:induction false} NoneAfterEnd(items: seq<Item>, e: nat)
    ensures Occurrences(items[EndOf(items, e)..], e) == []
    ensures EndOf(items, e) == 0 <==> Occurrences(items, e) == []
  {
    if items == [] {
    } else {
      var n := |items| - 1;
      assert items == items[..n] + [items[n]];
      OccurrencesConcat(items[..n], [items[n]], e);
      assert Occurrences([items[n]][1..], e) == [];
      if items[n].entry == e {
        assert items[|items|..] == [];
      } else {
        NoneAfterEnd(items[..n], e);
        var k := EndOf(items[..n], e);
        assert items[k..] == items[..n][k..] + [items[n]];
        OccurrencesConcat(items[..n][k..], [items[n]], e);
      }
    }
  }

  /** Before its end there is an occurrence of the entry still to come. */
  lemma {:induction false} SomeBeforeEnd(items: seq<Item>, e: nat, k: nat)
    requires k < EndOf(items, e)
    ensures Occurrences(items[k..], e) != []
  {
    var n := EndOf(items, e) - 1;
    assert items[k..] == items[k..n] + items[n..];
    OccurrencesConcat(items[k..n], items[n..], e);
    assert items[n..][0].entry == e;
  }

  // ----- the fields of a parser

  /** What start, span and the count of entry e are after the items `seen`, of a buffer of this length. */
  ghost predicate Tracked(seen: seq<Item>, bufLen: nat, e: nat, start: nat, span: nat, count: nat) {
    && count == |Occurrences(seen, e)|
    && if count == 0 then start == bufLen && span == 0
       else start == Offset(seen, FirstOf(seen, e)) && start + span == Offset(seen, EndOf(seen, e))
  }

  lemma TrackedNext(seen: seq<Item>, bufLen: nat, e: nat, start: nat, span: nat, count: nat, item: Item)
    requires Tracked(seen, bufLen, e, start, span, count) && Size(seen) + item.size <= bufLen && item.size > 0
    ensures var seen', pos := seen + [item], Size(seen);
            if item.entry == e then
              && (start == bufLen <==> count == 0)
              && (count > 0 ==> start <= pos)
              && var start' := if start == bufLen then pos else start;
                 Tracked(seen', bufLen, e, start', pos + item.size - start', count + 1)
            else Tracked(seen', bufLen, e, start, span, count)
  {
    var seen' := seen + [item];
    OccurrencesConcat(seen, [item], e);
    assert Occurrences([item][1..], e) == [];
    FirstOfAppend(seen, item, e);
    EndOfAppend(seen, item, e);
    SizeAppend(seen, item);
    assert seen[..|seen|] == seen && seen'[..|seen'|] == seen' && seen'[..|seen|] == seen;
    if count > 0 {
      var k, m := FirstOf(seen, e), EndOf(seen, e);
      assert seen'[..k] == seen[..k] && seen'[..m] == seen[..m];
      OffsetMonotonic(seen, k, |seen|);
    }
  }

  ghost predicate HasHeader(item: Item) {
    item.size >= HEADER
  }

  lemma {:induction false} ItemsHaveHeaders(schema: seq<Def>, b: Bytes, items: seq<Item>)
    requires Items(schema, b) == Some(items)
    ensures forall k :: 0 <= k < |items| ==> HasHeader(items[k])
    decreases |b|
  {
    if b == [] {
    } else {
      FirstOfItems(schema, b, items);
      ItemsHaveHeaders(schema, b[items[0].size..], items[1..]);
      assert forall k :: 0 < k < |items| ==> items[k] == items[1..][k - 1];
    }
  }

  lemma OffsetIncreases(items: seq<Item>, j: nat, k: nat)
    requires j < k <= |items| && HasHeader(items[j])
    ensures Offset(items, j) + items[j].size <= Offset(items, k)
  {
    OffsetNext(items, j);
    OffsetMonotonic(items, j + 1, k);
  }

  /** pos stands at item `next`, which is not behind the last occurrence of e. */
  ghost predicate Positioned(items: seq<Item>, bufLen: nat, e: nat, start: nat, span: nat, pos: nat, next: nat) {
    && Tracked(items, bufLen, e, start, span, |Occurrences(items, e)|)
    && next <= |items| && pos <= span && start + pos == Offset(items, next)
    && (Occurrences(items, e) != [] ==> next <= EndOf(items, e))
  }

  /** A parser that has not read anything of entry e stands at its first occurrence. */
  lemma StartPositioned(items: seq<Item>, bufLen: nat, e: nat, start: nat, span: nat)
    requires Tracked(items, bufLen, e, start, span, |Occurrences(items, e)|) && Size(items) == bufLen
    ensures Positioned(items, bufLen, e, start, span, 0, FirstOf(items, e))
    ensures Occurrences(items[FirstOf(items, e)..], e) == Occurrences(items, e)
  {
    FirstOfAppend(items, Item(e, [], 0), e);
    NoneBeforeFirst(items, e);
    var k := FirstOf(items, e);
    assert items == items[..k] + items[k..];
    OccurrencesConcat(items[..k], items[k..], e);
    assert items[..|items|] == items;
    if k < |items| {
      NoneAfterEnd(items, e);
      BeforeEnd(items, e, k);
    }
  }

  lemma {:induction false} NoneBeforeFirst(items: seq<Item>, e: nat)
    ensures Occurrences(items[..FirstOf(items, e)], e) == []
  {
    if items != [] && items[0].entry != e {
      NoneBeforeFirst(items[1..], e);
      var k := FirstOf(items, e);
      assert items[..k][0] == items[0] && items[..k][1..] == items[1..][..k - 1];
    }
  }

  lemma {:induction false} BeforeEnd(items: seq<Item>, e: nat, k: nat)
    requires k < |items| && items[k].entry == e
    ensures k < EndOf(items, e)
  {
    if items[|items| - 1].entry != e {
      BeforeEnd(items[..|items| - 1], e, k);
    }
  }

  /** pos is at the end of the span exactly if no occurrence of the entry is left. */
  lemma AtEndIff(items: seq<Item>, bufLen: nat, e: nat, start: nat, span: nat, pos: nat, next: nat)
    requires Positioned(items, bufLen, e, start, span, pos, next)
    requires forall k :: 0 <= k < |items| ==> HasHeader(items[k])
    ensures pos == span <==> Occurrences(items[next..], e) == []
  {
    assert items == items[..next] + items[next..];
    OccurrencesConcat(items[..next], items[next..], e);
    NoneAfterEnd(items, e);
    if Occurrences(items, e) != [] && next < EndOf(items, e) {
      SomeBeforeEnd(items, e, next);
      OffsetIncreases(items, next, EndOf(items, e));
    }
  }

  lemma OccurrencesFrom(items: seq<Item>, e: nat, k: nat)
    requires k < |items|
    ensures Occurrences(items[k..], e)
         == if items[k].entry == e then [items[k].payload] + Occurrences(items[k + 1..], e)
           else Occurrences(items[k + 1..], e)
  {
    assert items[k..][0] == items[k] && items[k..][1..] == items[k + 1..];
  }

  /** Before the end of its span, a getter finds a whole entry within the span, and it stays positioned behind it. */
  lemma StepPositioned(items: seq<Item>, bufLen: nat, e: nat, start: nat, span: nat, pos: nat, next: nat)
    requires Positioned(items, bufLen, e, start, span, pos, next) && pos < span
    requires forall k :: 0 <= k < |items| ==> HasHeader(items[k])
    ensures next < |items| && items[next].size <= span - pos
    ensures Positioned(items, bufLen, e, start, span, pos + items[next].size, next + 1)
  {
    AtEndIff(items, bufLen, e, start, span, pos, next);
    NoneAfterEnd(items, e);
    assert next < EndOf(items, e);
    OffsetIncreases(items, next, EndOf(items, e));
    OffsetNext(items, next);
  }
}
