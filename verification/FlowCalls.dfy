/** The calls that the client makes to create, attach, detach and free the flows and sinks of client/DataProto.c. */
module FlowCalls {
  import opened Common
  import opened Lists

  /** The DataProto flows of the client: the local one to a peer, and that of a relay flow. */
  datatype Key = Local(p: nat) | Relay(s: nat, d: nat)

  datatype Call =
    | SinkInit(s: nat) | SinkFree(s: nat)
    | FlowInit(k: Key) | FlowFree(k: Key)
    | Attach(k: Key, s: nat) | Detach(k: Key)

  /** The flow is attached to a sink, or detached if there is none. */
  function SetFlow(k: Key, to: Option<nat>): Call {
    if to.Some? then Attach(k, to.value) else Detach(k)
  }

  // ----- calls that were made

  /** After `was`, the calls `calls` were made. */
  ghost predicate Made(was: seq<Call>, calls: seq<Call>, now: seq<Call>) {
    now == was + calls
  }

  lemma MadeMore(a: seq<Call>, xs: seq<Call>, b: seq<Call>, ys: seq<Call>, c: seq<Call>)
    requires Made(a, xs, b) && Made(b, ys, c)
    ensures Made(a, xs + ys, c)
  {
    Regroup(a, xs, ys);
  }

  lemma MadeNone(a: seq<Call>)
    ensures Made(a, [], a)
  {}

  /** Of `calls`, which are being made after `was`, those in `rest` are left. */
  ghost predicate Left(was: seq<Call>, calls: seq<Call>, now: seq<Call>, rest: seq<Call>) {
    now + rest == was + calls
  }

  lemma LeftAll(was: seq<Call>, calls: seq<Call>)
    ensures Left(was, calls, was, calls)
  {}

  lemma LeftLess(was: seq<Call>, calls: seq<Call>, now: seq<Call>, next: seq<Call>, now': seq<Call>, rest: seq<Call>)
    requires Left(was, calls, now, next + rest) && Made(now, next, now')
    ensures Left(was, calls, now', rest)
  {
    Regroup(now, next, rest);
  }

  lemma NoneLeft(was: seq<Call>, calls: seq<Call>, now: seq<Call>)
    requires Left(was, calls, now, [])
    ensures Made(was, calls, now)
  {
    assert now + [] == now;
  }

  // ----- what the calls do, and what they demand

  /** The flows with the sinks that they want, and the sinks. */
  datatype View = View(wants: map<Key, Option<nat>>, sinks: set<nat>)

  /** What DataProto asserts of its callers. */
  predicate Can(v: View, call: Call) {
    match call
    case SinkInit(s) => s !in v.sinks
    case SinkFree(s) => s in v.sinks && forall k :: k in v.wants ==> v.wants[k] != Some(s)
    case FlowInit(k) => k !in v.wants
    case FlowFree(k) => k in v.wants && v.wants[k].None?
    case Attach(k, s) => k in v.wants && v.wants[k].None? && s in v.sinks
    case Detach(k) => k in v.wants && v.wants[k].Some?
  }

  function Do(v: View, call: Call): View {
    match call
    case SinkInit(s) => v.(sinks := v.sinks + {s})
    case SinkFree(s) => v.(sinks := v.sinks - {s})
    case FlowInit(k) => v.(wants := v.wants[k := None])
    case FlowFree(k) => v.(wants := v.wants - {k})
    case Attach(k, s) => v.(wants := v.wants[k := Some(s)])
    case Detach(k) => v.(wants := v.wants[k := None])
  }

  /** These calls, in this order, are all allowed when they are made, and lead from v to v'. */
  ghost predicate Leads(v: View, calls: seq<Call>, v': View)
    decreases |calls|
  {
    if calls == [] then v == v' else Can(v, calls[0]) && Leads(Do(v, calls[0]), calls[1..], v')
  }

  lemma LeadsOne(v: View, call: Call, v': View)
    requires Can(v, call) && Do(v, call) == v'
    ensures Leads(v, [call], v')
  {
    assert [call][1..] == [];
  }

  lemma {:induction false} LeadsOn(a: View, xs: seq<Call>, b: View, ys: seq<Call>, c: View)
    requires Leads(a, xs, b) && Leads(b, ys, c)
    ensures Leads(a, xs + ys, c)
    decreases |xs|
  {
    if xs == [] {
      assert xs + ys == ys;
    } else {
      LeadsOn(Do(a, xs[0]), xs[1..], b, ys, c);
      assert (xs + ys)[1..] == xs[1..] + ys;
    }
  }

  /** The calls can be taken apart again: what happens after xs is decided by xs. */
  lemma {:induction false} LeadsApart(a: View, xs: seq<Call>, ys: seq<Call>, c: View) returns (b: View)
    requires Leads(a, xs + ys, c)
    ensures Leads(a, xs, b) && Leads(b, ys, c)
    decreases |xs|
  {
    if xs == [] {
      assert xs + ys == ys;
      b := a;
    } else {
      assert (xs + ys)[1..] == xs[1..] + ys;
      b := LeadsApart(Do(a, xs[0]), xs[1..], ys, c);
    }
  }

  /** So each call is allowed in what the calls before it have led to. */
  lemma EachAllowed(v: View, calls: seq<Call>, v': View, i: nat) returns (at: View)
    requires Leads(v, calls, v') && i < |calls|
    ensures Leads(v, calls[..i], at) && Can(at, calls[i])
  {
    assert calls == calls[..i] + calls[i..];
    at := LeadsApart(v, calls[..i], calls[i..], v');
  }

  // ----- all relay flows of a sink

  /** The relay flows from these sources to d are set, one after the other. */
  function SetFlows(flows: seq<nat>, d: nat, to: Option<nat>): (calls: seq<Call>)
    ensures |calls| == |flows|
  {
    if flows == [] then [] else [SetFlow(Relay(flows[0], d), to)] + SetFlows(flows[1..], d, to)
  }

  lemma {:induction false} SetFlowsNext(flows: seq<nat>, s: nat, d: nat, to: Option<nat>)
    ensures SetFlows(flows + [s], d, to) == SetFlows(flows, d, to) + [SetFlow(Relay(s, d), to)]
  {
    if flows == [] {
      assert flows + [s] == [s] && SetFlows([s][1..], d, to) == [];
    } else {
      assert (flows + [s])[1..] == flows[1..] + [s];
      SetFlowsNext(flows[1..], s, d, to);
      Regroup([SetFlow(Relay(flows[0], d), to)], SetFlows(flows[1..], d, to), [SetFlow(Relay(s, d), to)]);
    }
  }

  /** One more flow of the list is set. */
  lemma SetFlowMade(was: seq<Call>, now: seq<Call>, flows: seq<nat>, i: nat, d: nat, to: Option<nat>)
    requires i < |flows| && Made(was, SetFlows(flows[..i], d, to), now)
    ensures Made(was, SetFlows(flows[..i + 1], d, to), now + [SetFlow(Relay(flows[i], d), to)])
  {
    assert flows[..i + 1] == flows[..i] + [flows[i]];
    SetFlowsNext(flows[..i], flows[i], d, to);
    MadeMore(was, SetFlows(flows[..i], d, to), now, [SetFlow(Relay(flows[i], d), to)],
             now + [SetFlow(Relay(flows[i], d), to)]);
  }

  function SetTo(v: View, flows: seq<nat>, d: nat, to: Option<nat>): View {
    v.(wants := map k | k in v.wants :: if k.Relay? && k.d == d && k.s in flows then to else v.wants[k])
  }

  lemma {:induction false} SetFlowsLeads(v: View, flows: seq<nat>, d: nat, to: Option<nat>)
    requires NoDup(flows) && forall s :: s in flows ==> Relay(s, d) in v.wants && v.wants[Relay(s, d)].Some? == to.None?
    requires to.Some? ==> to.value in v.sinks
    ensures Leads(v, SetFlows(flows, d, to), SetTo(v, flows, d, to))
    decreases |flows|
  {
    if flows == [] {
      assert SetTo(v, flows, d, to) == v;
    } else {
      var call := SetFlow(Relay(flows[0], d), to);
      var v1, calls := Do(v, call), SetFlows(flows, d, to);
      SetFlowsLeads(v1, flows[1..], d, to);
      assert SetTo(v1, flows[1..], d, to).wants == SetTo(v, flows, d, to).wants;
      assert calls[0] == call && calls[1..] == SetFlows(flows[1..], d, to);
    }
  }
}
