/**
  The relay flows of client/DPRelay.c, on values: one flow at most from each source to each sink, in
  the list of both, wanting the DataProto sink that its relay sink is attached to.
*/
module RelayFlows {
  import opened Common
  import opened Lists
  import C = FlowCalls

  type Id = nat

  /**
    A source has the sinks its flows go to. A sink has the sources of its flows, and the DataProto sink they
    are to use.
  */
  datatype Sink = Sink(dpSink: Option<Id>, flows: seq<Id>)

  datatype State = State(sources: map<Id, seq<Id>>, sinks: map<Id, Sink>, desired: map<(Id, Id), Option<Id>>,
                         current: Option<(Id, Id)>)

  const EMPTY := State(map[], map[], map[], None)

  predicate Has(st: State, s: Id, d: Id) {
    s in st.sources && d in st.sinks
  }

  function CreateFlow(st: State, s: Id, d: Id): State
    requires Has(st, s, d)
  {
    var sink := st.sinks[d];
    st.(sources := st.sources[s := st.sources[s] + [d]],
        sinks := st.sinks[d := sink.(flows := sink.flows + [s])],
        desired := st.desired[(s, d) := sink.dpSink])
  }

  function FreeFlow(st: State, s: Id, d: Id): State
    requires Has(st, s, d)
  {
    st.(sources := st.sources[s := Without(st.sources[s], d)],
        sinks := st.sinks[d := st.sinks[d].(flows := Without(st.sinks[d].flows, s))],
        desired := st.desired - {(s, d)},
        current := if st.current == Some((s, d)) then None else st.current)
  }

  // ----- the invariant

  /** A flow is in both lists and wants what its sink is attached to. */
  ghost predicate FlowOk(st: State, s: Id, d: Id) {
    (s, d) in st.desired ==>
      && Has(st, s, d) && d in st.sources[s] && s in st.sinks[d].flows
      && st.desired[(s, d)] == st.sinks[d].dpSink
  }

  ghost predicate SourceOk(st: State, s: Id) {
    s in st.sources ==> NoDup(st.sources[s]) && forall d :: d in st.sources[s] ==> (s, d) in st.desired
  }

  ghost predicate SinkOk(st: State, d: Id) {
    d in st.sinks ==> NoDup(st.sinks[d].flows) && forall s :: s in st.sinks[d].flows ==> (s, d) in st.desired
  }

  ghost predicate Inv(st: State) {
    && (forall s, d :: FlowOk(st, s, d))
    && (forall s :: SourceOk(st, s))
    && (forall d :: SinkOk(st, d))
    && (st.current.Some? ==> st.current.value in st.desired)
  }

  lemma CreateFlowInv(st: State, s: Id, d: Id)
    requires Inv(st) && Has(st, s, d) && (s, d) !in st.desired
    ensures Inv(CreateFlow(st, s, d))
  {
    var st' := CreateFlow(st, s, d);
    assert SourceOk(st, s) && SinkOk(st, d);
    AppendNoDup(st.sources[s], d);
    AppendNoDup(st.sinks[d].flows, s);
    forall a, b ensures FlowOk(st', a, b) { assert FlowOk(st, a, b); }
    forall a ensures SourceOk(st', a) { assert SourceOk(st, a); }
    forall b ensures SinkOk(st', b) { assert SinkOk(st, b); }
  }

  lemma FreeFlowInv(st: State, s: Id, d: Id)
    requires Inv(st) && Has(st, s, d)
    ensures Inv(FreeFlow(st, s, d))
  {
    var st' := FreeFlow(st, s, d);
    assert SourceOk(st, s) && SinkOk(st, d);
    WithoutNoDup(st.sources[s], d);
    WithoutNoDup(st.sinks[d].flows, s);
    forall a, b ensures FlowOk(st', a, b) { assert FlowOk(st, a, b); }
    forall a ensures SourceOk(st', a) { assert SourceOk(st, a); }
    forall b ensures SinkOk(st', b) { assert SinkOk(st, b); }
  }

  // ----- operations

  function SourceInit(st: State, s: Id): State {
    st.(sources := st.sources[s := []])
  }

  function SinkInit(st: State, d: Id): State {
    st.(sinks := st.sinks[d := Sink(None, [])])
  }

  /** The frames of a relaying peer are passed to the flow, which is made if there is none. */
  function SubmitFrame(st: State, s: Id, d: Id): State
    requires Has(st, s, d)
  {
    var st1 := if d in st.sources[s] then st else CreateFlow(st, s, d);
    st1.(current := Some((s, d)))
  }

  /** Frees the flows of source s, one after the other. */
  function FreeSourceFlows(st: State, s: Id): (r: State)
    requires Inv(st) && s in st.sources
    ensures Inv(r) && r.sources.Keys == st.sources.Keys && r.sinks.Keys == st.sinks.Keys && r.sources[s] == []
    ensures forall d :: d in r.sinks ==> r.sinks[d].dpSink == st.sinks[d].dpSink
    ensures forall k :: k in r.desired <==> k in st.desired && k.0 != s
    decreases |st.sources[s]|
  {
    assert SourceOk(st, s);
    if st.sources[s] == [] then
      assert forall k :: k in st.desired ==> FlowOk(st, k.0, k.1);
      st
    else
      var d := st.sources[s][0];
      assert FlowOk(st, s, d);
      FreeFlowInv(st, s, d);
      WithoutFirst(st.sources[s]);
      FreeSourceFlows(FreeFlow(st, s, d), s)
  }

  /** Frees the flows of sink d, one after the other. */
  function FreeSinkFlows(st: State, d: Id): (r: State)
    requires Inv(st) && d in st.sinks
    ensures Inv(r) && r.sources.Keys == st.sources.Keys && r.sinks.Keys == st.sinks.Keys && r.sinks[d].flows == []
    ensures forall e :: e in r.sinks ==> r.sinks[e].dpSink == st.sinks[e].dpSink
    ensures forall k :: k in r.desired <==> k in st.desired && k.1 != d
    decreases |st.sinks[d].flows|
  {
    assert SinkOk(st, d);
    if st.sinks[d].flows == [] then
      assert forall k :: k in st.desired ==> FlowOk(st, k.0, k.1);
      st
    else
      var s := st.sinks[d].flows[0];
      assert FlowOk(st, s, d);
      FreeFlowInv(st, s, d);
      WithoutFirst(st.sinks[d].flows);
      FreeSinkFlows(FreeFlow(st, s, d), d)
  }

  lemma WithoutFirst<T>(s: seq<T>)
    requires NoDup(s) && s != []
    ensures Without(s, s[0]) == s[1..]
  {
    WithoutAbsent(s[1..], s[0]);
  }

  function SourceFree(st: State, s: Id): State
    requires Inv(st) && s in st.sources
  {
    var st1 := FreeSourceFlows(st, s);
    st1.(sources := st1.sources - {s})
  }

  function SinkFree(st: State, d: Id): State
    requires Inv(st) && d in st.sinks
  {
    var st1 := FreeSinkFlows(st, d);
    st1.(sinks := st1.sinks - {d})
  }

  /** All flows of sink d now want `dpSink`. */
  function SetSink(st: State, d: Id, dpSink: Option<Id>): State
    requires d in st.sinks
  {
    st.(sinks := st.sinks[d := st.sinks[d].(dpSink := dpSink)],
        desired := map k | k in st.desired :: if k.1 == d then dpSink else st.desired[k])
  }

  lemma SetSinkInv(st: State, d: Id, dpSink: Option<Id>)
    requires Inv(st) && d in st.sinks
    ensures Inv(SetSink(st, d, dpSink))
  {
    var st' := SetSink(st, d, dpSink);
    forall a, b ensures FlowOk(st', a, b) { assert FlowOk(st, a, b); }
    forall a ensures SourceOk(st', a) { assert SourceOk(st, a); }
    forall b ensures SinkOk(st', b) { assert SinkOk(st, b); }
  }

  lemma InitInv(st: State, i: Id)
    requires Inv(st)
    ensures i !in st.sources ==> Inv(SourceInit(st, i))
    ensures i !in st.sinks ==> Inv(SinkInit(st, i))
  {
    if i !in st.sources {
      var st' := SourceInit(st, i);
      forall a, b ensures FlowOk(st', a, b) { assert FlowOk(st, a, b); }
      forall a ensures SourceOk(st', a) { assert SourceOk(st, a); }
      forall b ensures SinkOk(st', b) { assert SinkOk(st, b); }
    }
    if i !in st.sinks {
      var st' := SinkInit(st, i);
      forall a, b ensures FlowOk(st', a, b) { assert FlowOk(st, a, b); }
      forall a ensures SourceOk(st', a) { assert SourceOk(st, a); }
      forall b ensures SinkOk(st', b) { assert SinkOk(st, b); }
    }
  }

  lemma NoCurrentInv(st: State)
    requires Inv(st)
    ensures Inv(st.(current := None))
  {
    var st' := st.(current := None);
    forall a, b ensures FlowOk(st', a, b) { assert FlowOk(st, a, b); }
    forall a ensures SourceOk(st', a) { assert SourceOk(st, a); }
    forall b ensures SinkOk(st', b) { assert SinkOk(st, b); }
  }

  lemma SubmitFrameInv(st: State, s: Id, d: Id)
    requires Inv(st) && Has(st, s, d)
    ensures Inv(SubmitFrame(st, s, d))
  {
    assert SourceOk(st, s) && FlowOk(st, s, d);
    if d !in st.sources[s] {
      CreateFlowInv(st, s, d);
    }
    var st1 := if d in st.sources[s] then st else CreateFlow(st, s, d);
    var st' := SubmitFrame(st, s, d);
    forall a, b ensures FlowOk(st', a, b) { assert FlowOk(st1, a, b); }
    forall a ensures SourceOk(st', a) { assert SourceOk(st1, a); }
    forall b ensures SinkOk(st', b) { assert SinkOk(st1, b); }
  }

  lemma FreeInv(st: State, i: Id)
    requires Inv(st)
    ensures i in st.sources ==> Inv(SourceFree(st, i))
    ensures i in st.sinks ==> Inv(SinkFree(st, i))
  {
    if i in st.sources {
      var st1, st' := FreeSourceFlows(st, i), SourceFree(st, i);
      forall a, b ensures FlowOk(st', a, b) { assert FlowOk(st1, a, b); }
      forall a ensures SourceOk(st', a) { assert SourceOk(st1, a); }
      forall b ensures SinkOk(st', b) { assert SinkOk(st1, b); }
    }
    if i in st.sinks {
      var st1, st' := FreeSinkFlows(st, i), SinkFree(st, i);
      forall a, b ensures FlowOk(st', a, b) { assert FlowOk(st1, a, b); }
      forall a ensures SourceOk(st', a) { assert SourceOk(st1, a); }
      forall b ensures SinkOk(st', b) { assert SinkOk(st1, b); }
    }
  }

  /** A DataProto sink is wanted by a relay flow only if the flow's relay sink is attached to it. */
  lemma WantedOnlyThroughSink(st: State, s: Id, d: Id)
    requires Inv(st) && (s, d) in st.desired
    ensures d in st.sinks && st.desired[(s, d)] == st.sinks[d].dpSink
  {
    assert FlowOk(st, s, d);
  }

  // ----- the calls to DataProto, in the order in which the code makes them

  function CreateFlowCalls(st: State, s: Id, d: Id): seq<C.Call>
    requires Has(st, s, d)
  {
    var k, to := C.Relay(s, d), st.sinks[d].dpSink;
    if to.Some? then [C.FlowInit(k), C.Attach(k, to.value)] else [C.FlowInit(k)]
  }

  /** free_flow */
  function FreeFlowCalls(st: State, s: Id, d: Id): seq<C.Call>
    requires Has(st, s, d)
  {
    var k := C.Relay(s, d);
    if st.sinks[d].dpSink.Some? then [C.Detach(k), C.FlowFree(k)] else [C.FlowFree(k)]
  }

  function SubmitFrameCalls(st: State, s: Id, d: Id): seq<C.Call>
    requires Has(st, s, d)
  {
    if d in st.sources[s] then [] else CreateFlowCalls(st, s, d)
  }

  function SetSinkCalls(st: State, d: Id, dpSink: Option<Id>): seq<C.Call>
    requires d in st.sinks
  {
    C.SetFlows(st.sinks[d].flows, d, dpSink)
  }

  function SourceFreeCalls(st: State, s: Id): seq<C.Call>
    requires Inv(st) && s in st.sources
    decreases |st.sources[s]|
  {
    assert SourceOk(st, s);
    if st.sources[s] == [] then []
    else
      var d := st.sources[s][0];
      assert FlowOk(st, s, d);
      FreeFlowInv(st, s, d);
      WithoutFirst(st.sources[s]);
      FreeFlowCalls(st, s, d) + SourceFreeCalls(FreeFlow(st, s, d), s)
  }

  function SinkFreeCalls(st: State, d: Id): seq<C.Call>
    requires Inv(st) && d in st.sinks
    decreases |st.sinks[d].flows|
  {
    assert SinkOk(st, d);
    if st.sinks[d].flows == [] then []
    else
      var s := st.sinks[d].flows[0];
      assert FlowOk(st, s, d);
      FreeFlowInv(st, s, d);
      WithoutFirst(st.sinks[d].flows);
      FreeFlowCalls(st, s, d) + SinkFreeCalls(FreeFlow(st, s, d), d)
  }
}
