/** Linked lists of distinct objects, as sequences. */
module Lists {
  import opened Common

  ghost predicate NoDup<T>(s: seq<T>) {
    s == [] || (s[0] !in s[1..] && NoDup(s[1..]))
  }

  function Without<T(==)>(s: seq<T>, x: T): (r: seq<T>)
    ensures forall y :: y in r ==> y in s && y != x
    ensures forall y :: y in s && y != x ==> y in r
    ensures |r| <= |s|
  {
    if s == [] then [] else if s[0] == x then Without(s[1..], x) else [s[0]] + Without(s[1..], x)
  }

  lemma {:induction false} WithoutNoDup<T>(s: seq<T>, x: T)
    requires NoDup(s)
    ensures NoDup(Without(s, x))
  {
    if s == [] {
    } else {
      WithoutNoDup(s[1..], x);
      var w := Without(s[1..], x);
      assert ([s[0]] + w)[1..] == w;
    }
  }

  lemma {:induction false} WithoutConcat<T>(s: seq<T>, t: seq<T>, x: T)
    ensures Without(s + t, x) == Without(s, x) + Without(t, x)
  {
    if s == [] {
      assert s + t == t;
    } else {
      assert (s + t)[0] == s[0] && (s + t)[1..] == s[1..] + t;
      WithoutConcat(s[1..], t, x);
    }
  }

  lemma {:induction false} WithoutAbsent<T>(s: seq<T>, x: T)
    requires x !in s
    ensures Without(s, x) == s
  {
    if s == [] {
    } else {
      WithoutAbsent(s[1..], x);
    }
  }

  lemma {:induction false} AppendNoDup<T>(s: seq<T>, x: T)
    requires NoDup(s) && x !in s
    ensures NoDup(s + [x])
  {
    if s == [] {
      assert (s + [x])[1..] == [];
    } else {
      AppendNoDup(s[1..], x);
      assert (s + [x])[1..] == s[1..] + [x];
    }
  }

  lemma {:induction false} WithoutShorter<T>(s: seq<T>, x: T)
    requires x in s
    ensures |Without(s, x)| < |s|
  {
    if s[0] == x {
    } else {
      WithoutShorter(s[1..], x);
    }
  }

  /** The list with x as its newest member; the oldest goes if there is no room. */
  function Newest<T>(max: nat, s: seq<T>, x: T): seq<T> {
    (if s != [] && |s| == max then s[1..] else s) + [x]
  }

  function InsertAfter<T(==)>(s: seq<T>, at: T, x: T): (r: seq<T>)
    ensures forall y :: y in s ==> y in r
    ensures forall y :: y in r ==> y in s || y == x
    ensures at in s ==> x in r
  {
    if s == [] then [] else if s[0] == at then [at, x] + s[1..] else [s[0]] + InsertAfter(s[1..], at, x)
  }

  lemma {:induction false} InsertAfterNoDup<T>(s: seq<T>, at: T, x: T)
    requires NoDup(s) && x !in s
    ensures NoDup(InsertAfter(s, at, x))
  {
    if s == [] {
    } else if s[0] == at {
      var r := [at, x] + s[1..];
      assert r[1..] == [x] + s[1..] && ([x] + s[1..])[1..] == s[1..];
    } else {
      InsertAfterNoDup(s[1..], at, x);
      var r := InsertAfter(s[1..], at, x);
      assert ([s[0]] + r)[1..] == r;
    }
  }

  /** The member after x in the list, or the one before it if it is the last. */
  function NextOrPrev<T(==)>(s: seq<T>, x: T): T
    requires |s| >= 2
  {
    if s[0] == x then s[1] else if |s| == 2 then s[0] else NextOrPrev(s[1..], x)
  }

  lemma {:induction false} NextOrPrevIsOther<T>(s: seq<T>, x: T)
    requires |s| >= 2 && x in s && NoDup(s)
    ensures NextOrPrev(s, x) in s && NextOrPrev(s, x) != x
  {
    if s[0] == x || |s| == 2 {
    } else {
      NextOrPrevIsOther(s[1..], x);
    }
  }

  // ----- walking through a list that changes

  function Head<T>(s: seq<T>): Option<T> {
    if s == [] then None else Some(s[0])
  }

  function NextOf<T(==)>(s: seq<T>, x: T): Option<T> {
    if s == [] then None else if s[0] == x then Head(s[1..]) else NextOf(s[1..], x)
  }

  function From<T(==)>(s: seq<T>, x: T): (r: seq<T>)
    ensures forall y :: y in r ==> y in s
  {
    if s == [] then [] else if s[0] == x then s else From(s[1..], x)
  }

  /** What is still to come of list s, if the walk stands at `at`. */
  function Rest<T(==)>(s: seq<T>, at: Option<T>): (r: seq<T>)
    ensures forall y :: y in r ==> y in s
  {
    if at.None? then [] else From(s, at.value)
  }

  /** Where the walk stands after x is taken out of the list. */
  function Jump<T(==)>(s: seq<T>, at: Option<T>, x: T): Option<T> {
    if at == Some(x) then NextOf(s, x) else at
  }

  lemma {:induction false} RestNext<T>(s: seq<T>, x: T)
    requires NoDup(s) && x in s
    ensures NextOf(s, x).Some? ==> NextOf(s, x).value in s && NextOf(s, x).value != x
    ensures Rest(s, Some(x)) == [x] + Rest(s, NextOf(s, x))
  {
    if s[0] == x {
      assert s == [x] + s[1..];
      if |s| == 1 {
        assert s[1..] == [];
      } else {
        assert s[1] in s[1..] && From(s[1..], s[1]) == s[1..];
      }
    } else {
      RestNext(s[1..], x);
    }
  }

  /** A walk goes on without what was taken out of the list, wherever that was. */
  lemma {:induction false} RestWithout<T>(s: seq<T>, at: Option<T>, x: T)
    requires NoDup(s) && (at.Some? ==> at.value in s)
    ensures var at' := Jump(s, at, x);
            (at'.Some? ==> at'.value in Without(s, x)) && Rest(Without(s, x), at') == Without(Rest(s, at), x)
  {
    if at.None? {
    } else if s[0] == at.value {
      if at.value == x {
        WithoutAbsent(s[1..], x);
      }
    } else {
      RestWithout(s[1..], at, x);
    }
  }

  /** A walk that is not at its end comes to what is appended. */
  lemma {:induction false} RestAppend<T>(s: seq<T>, at: Option<T>, x: T)
    requires at.Some? ==> at.value in s
    ensures Rest(s + [x], at) == Rest(s, at) + if at.None? then [] else [x]
  {
    if at.None? {
    } else if s[0] == at.value {
      assert (s + [x])[0] == s[0];
    } else {
      assert (s + [x])[0] == s[0] && (s + [x])[1..] == s[1..] + [x];
      RestAppend(s[1..], at, x);
    }
  }

  /** A walk comes to what is inserted behind m exactly if it has m before it. */
  lemma {:induction false} RestInsert<T>(s: seq<T>, at: Option<T>, m: T, x: T)
    requires NoDup(s) && x !in s && m in s && (at.Some? ==> at.value in s)
    ensures var rest := Rest(s, at);
            Rest(InsertAfter(s, m, x), at) == if m in rest then InsertAfter(rest, m, x) else rest
  {
    if at.None? {
    } else if s[0] == at.value {
      assert InsertAfter(s, m, x)[0] == s[0];
    } else if s[0] == m {
      var r := [x] + s[1..];
      assert InsertAfter(s, m, x)[1..] == r && r[1..] == s[1..];
      assert From(r, at.value) == From(s[1..], at.value);
    } else {
      RestInsert(s[1..], at, m, x);
      var r := InsertAfter(s[1..], m, x);
      assert ([s[0]] + r)[1..] == r;
    }
  }
}
