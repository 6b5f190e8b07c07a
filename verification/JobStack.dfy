/**
  The pending-job list of base/BPending.c: a list without repetitions, last set first run. A handler
  that runs may set and unset jobs before the next one is taken.
*/
module JobStack {
  import opened Lists

  function Push<T(==)>(s: seq<T>, x: T): seq<T> {
    [x] + Without(s, x)
  }

  lemma PushNoDup<T>(s: seq<T>, x: T)
    requires NoDup(s)
    ensures NoDup(Push(s, x))
  {
    WithoutNoDup(s, x);
    assert Push(s, x)[1..] == Without(s, x);
  }

  /** The members that are kept of the first i + 1 are those kept of the first i and, unless it is j, the next. */
  lemma WithoutNext<T>(kept: seq<T>, jobs: seq<T>, i: nat, j: T)
    requires i < |jobs|
    ensures kept + Without(jobs[i..], j)
            == (if jobs[i] != j then kept + [jobs[i]] else kept) + Without(jobs[i + 1..], j)
  {
    var rest := Without(jobs[i + 1..], j);
    assert jobs[i..][0] == jobs[i] && jobs[i..][1..] == jobs[i + 1..];
    assert kept + ([jobs[i]] + rest) == kept + [jobs[i]] + rest;
  }

  class BPendingGroup<T(==)> {
    var jobs: seq<T>

    ghost predicate Valid()
      reads this
    {
      NoDup(jobs)
    }

    constructor ()
      ensures Valid() && jobs == []
    {
      jobs := [];
    }

    method Remove(j: T)
      requires Valid()
      modifies this
      ensures Valid() && jobs == Without(old(jobs), j)
    {
      WithoutNoDup(jobs, j);
      var i, kept := 0, [];
      while i < |jobs|
        invariant 0 <= i <= |jobs|
        invariant jobs == old(jobs)
        invariant kept + Without(jobs[i..], j) == Without(jobs, j)
      {
        WithoutNext(kept, jobs, i, j);
        if jobs[i] != j { kept := kept + [jobs[i]]; }
        i := i + 1;
      }
      assert kept == Without(jobs, j);
      jobs := kept;
    }

    method Set(j: T)
      requires Valid()
      modifies this
      ensures Valid() && jobs == Push(old(jobs), j)
    {
      PushNoDup(jobs, j);
      if j in jobs {
        Remove(j);
      } else {
        WithoutAbsent(jobs, j);
      }
      jobs := [j] + jobs;
    }

    method Unset(j: T)
      requires Valid()
      modifies this
      ensures Valid() && jobs == Without(old(jobs), j)
    {
      if j in jobs {
        Remove(j);
      } else {
        WithoutAbsent(jobs, j);
      }
    }

    /** The part of ExecuteJob before the handler is called. */
    method TakeJob() returns (j: T)
      requires Valid() && jobs != []
      modifies this
      ensures Valid() && [j] + jobs == old(jobs)
      ensures j !in jobs
    {
      j := jobs[0];
      jobs := jobs[1..];
    }
  }

  // ----- the order in which jobs run

  datatype Action<T> = Set(job: T) | Unset(job: T) | Execute

  ghost predicate Run<T>(s: seq<T>, acts: seq<Action<T>>)
    decreases |acts|
  {
    acts != [] ==> (acts[0].Execute? ==> s != []) && Run(Act(s, acts[0]), acts[1..])
  }

  function Act<T(==)>(s: seq<T>, a: Action<T>): seq<T> {
    match a
    case Set(j) => Push(s, j)
    case Unset(j) => Without(s, j)
    case Execute => if s == [] then [] else s[1..]
  }

  function After<T(==)>(s: seq<T>, acts: seq<Action<T>>): seq<T>
    decreases |acts|
  {
    if acts == [] then s else After(Act(s, acts[0]), acts[1..])
  }

  /** Job x is neither set again, nor unset, nor run. */
  ghost predicate Rests<T>(s: seq<T>, acts: seq<Action<T>>, x: T)
    decreases |acts|
  {
    acts != [] ==>
      && acts[0] != Set(x) && acts[0] != Unset(x)
      && (acts[0].Execute? ==> s != [] && s[0] != x)
      && Rests(Act(s, acts[0]), acts[1..], x)
  }

  lemma Splits<T>(above: seq<T>, x: T, below: seq<T>, j: T)
    requires j != x
    ensures Without(above + [x] + below, j) == Without(above, j) + [x] + Without(below, j)
  {
    WithoutConcat(above + [x], below, j);
    WithoutConcat(above, [x], j);
    WithoutAbsent([x], j);
  }

  lemma UnsetAround<T>(above: seq<T>, x: T, below: seq<T>, j: T)
    requires NoDup(above + [x] + below) && j != x
    ensures var above', below' := Without(above, j), Without(below, j);
            Without(above + [x] + below, j) == above' + [x] + below' && NoDup(above' + [x] + below')
  {
    Splits(above, x, below, j);
    WithoutNoDup(above + [x] + below, j);
  }

  lemma SetAround<T>(above: seq<T>, x: T, below: seq<T>, j: T)
    requires NoDup(above + [x] + below) && j != x
    ensures var above', below' := [j] + Without(above, j), Without(below, j);
            Push(above + [x] + below, j) == above' + [x] + below' && NoDup(above' + [x] + below')
  {
    var s, rest := above + [x] + below, Without(above, j) + [x] + Without(below, j);
    UnsetAround(above, x, below, j);
    PushNoDup(s, j);
    assert [j] + rest == [j] + Without(above, j) + [x] + Without(below, j);
  }

  lemma TakeAround<T>(above: seq<T>, x: T, below: seq<T>)
    requires NoDup(above + [x] + below) && above != []
    ensures (above + [x] + below)[1..] == above[1..] + [x] + below && NoDup(above[1..] + [x] + below)
  {}

  /** One action, seen from a resting job x with `above` on top of it. */
  lemma ActAround<T>(above: seq<T>, x: T, below: seq<T>, act: Action<T>) returns (above': seq<T>, below': seq<T>)
    requires NoDup(above + [x] + below) && Rests(above + [x] + below, [act], x)
    ensures Act(above + [x] + below, act) == above' + [x] + below'
    ensures NoDup(above' + [x] + below')
    ensures forall y :: y in below' ==> y in below
    ensures act.Set? ==> act.job !in below'
  {
    match act
    case Execute =>
      TakeAround(above, x, below);
      above', below' := above[1..], below;
    case Unset(j) =>
      UnsetAround(above, x, below, j);
      above', below' := Without(above, j), Without(below, j);
    case Set(j) =>
      SetAround(above, x, below, j);
      above', below' := [j] + Without(above, j), Without(below, j);
  }

  lemma {:induction false} StaysBelow<T>(above: seq<T>, x: T, below: seq<T>, acts: seq<Action<T>>)
    returns (above': seq<T>, below': seq<T>)
    requires NoDup(above + [x] + below)
    requires Run(above + [x] + below, acts) && Rests(above + [x] + below, acts, x)
    ensures After(above + [x] + below, acts) == above' + [x] + below'
    ensures NoDup(above' + [x] + below')
    ensures forall y :: y in below' ==> y in below
    ensures forall a :: a in acts && a.Set? ==> a.job !in below'
    decreases |acts|
  {
    if acts == [] {
      above', below' := above, below;
    } else {
      var a, b := ActAround(above, x, below, acts[0]);
      above', below' := StaysBelow(a, x, b, acts[1..]);
    }
  }

  /**
    When a job x that was just set comes to run, everything set after it, by whatever job, has run or
    was unset, and what is left was already pending beneath it.
  */
  lemma LastSetRunsFirst<T>(below: seq<T>, x: T, acts: seq<Action<T>>)
    requires NoDup([x] + below)
    requires Run([x] + below, acts) && Rests([x] + below, acts, x)
    requires var s := After([x] + below, acts); s != [] && s[0] == x
    ensures var s := After([x] + below, acts);
            && (forall a :: a in acts && a.Set? ==> a.job !in s)
            && (forall y :: y in s[1..] ==> y in below)
  {
    assert [] + [x] + below == [x] + below;
    var above', below' := StaysBelow([], x, below, acts);
    var s := After([x] + below, acts);
    assert s[0] == (above' + [x])[0] && s[|above'|] == x;
    assert s == [x] + below';
    forall a | a in acts && a.Set?
      ensures a.job != x
    {
      RestsNotSet([x] + below, acts, x, a);
    }
  }

  lemma {:induction false} RestsNotSet<T>(s: seq<T>, acts: seq<Action<T>>, x: T, a: Action<T>)
    requires Rests(s, acts, x) && a in acts
    ensures a != Set(x)
    decreases |acts|
  {
    if a != acts[0] {
      RestsNotSet(Act(s, acts[0]), acts[1..], x, a);
    }
  }
}
