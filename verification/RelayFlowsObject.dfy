/** The relay router of client/DPRelay.c, with its loops over the flow lists of sources and sinks. */
module RelayFlowsObject {
  import opened Common
  import opened Lists
  import C = FlowCalls
  import F = RelayFlows

  type Id = F.Id

  /** What the first i flows of sink d want was set to `dpSink`. */
  ghost predicate Switched(was: map<(Id, Id), Option<Id>>, now: map<(Id, Id), Option<Id>>, flows: seq<Id>, i: nat,
                           d: Id, dpSink: Option<Id>)
  {
    && i <= |flows| && now.Keys == was.Keys
    && forall k :: k in was ==> now[k] == if k.1 == d && k.0 in flows[..i] then dpSink else was[k]
  }

  lemma SwitchedNext(was: map<(Id, Id), Option<Id>>, now: map<(Id, Id), Option<Id>>, flows: seq<Id>, i: nat, d: Id,
                     dpSink: Option<Id>)
    requires Switched(was, now, flows, i, d, dpSink) && i < |flows| && (flows[i], d) in was
    ensures Switched(was, now[(flows[i], d) := dpSink], flows, i + 1, d, dpSink)
  {
    assert flows[..i + 1] == flows[..i] + [flows[i]];
  }

  lemma SwitchedAll(st: F.State, now: map<(Id, Id), Option<Id>>, d: Id, dpSink: Option<Id>)
    requires F.Inv(st) && d in st.sinks && Switched(st.desired, now, st.sinks[d].flows, |st.sinks[d].flows|, d, dpSink)
    ensures now == F.SetSink(st, d, dpSink).desired
  {
    var flows := st.sinks[d].flows;
    assert flows[..|flows|] == flows;
    forall k | k in st.desired
      ensures k.1 == d ==> k.0 in flows
    {
      assert F.FlowOk(st, k.0, k.1);
    }
  }

  class DPRelayRouter {
    var sources: map<Id, seq<Id>>
    var sinks: map<Id, F.Sink>
    var desired: map<(Id, Id), Option<Id>>
    var currentFlow: Option<(Id, Id)>
    ghost var calls: seq<C.Call>  // what DataProto was called for so far

    ghost function Now(): F.State
      reads `sources, `sinks, `desired, `currentFlow
    {
      F.State(sources, sinks, desired, currentFlow)
    }

    ghost predicate Valid()
      reads `sources, `sinks, `desired, `currentFlow
    {
      F.Inv(Now())
    }

    constructor ()
      ensures Valid() && Now() == F.EMPTY && calls == []
    {
      sources, sinks, desired, currentFlow := map[], map[], map[], None;
      calls := [];
    }

    method CreateFlow(s: Id, d: Id)
      requires Valid() && F.Has(Now(), s, d) && (s, d) !in desired
      modifies this
      ensures Valid() && Now() == F.CreateFlow(old(Now()), s, d)
      ensures C.Made(old(calls), F.CreateFlowCalls(old(Now()), s, d), calls)
    {
      F.CreateFlowInv(Now(), s, d);
      calls := calls + [C.FlowInit(C.Relay(s, d))];
      desired := desired[(s, d) := None];
      sources := sources[s := sources[s] + [d]];
      sinks := sinks[d := sinks[d].(flows := sinks[d].flows + [s])];
      if sinks[d].dpSink.Some? {
        calls := calls + [C.Attach(C.Relay(s, d), sinks[d].dpSink.value)];
        desired := desired[(s, d) := sinks[d].dpSink];
      }
      assert desired == F.CreateFlow(old(Now()), s, d).desired;
    }

    method FreeFlow(s: Id, d: Id)
      requires Valid() && F.Has(Now(), s, d)
      modifies this
      ensures Valid() && Now() == F.FreeFlow(old(Now()), s, d)
      ensures C.Made(old(calls), F.FreeFlowCalls(old(Now()), s, d), calls)
    {
      F.FreeFlowInv(Now(), s, d);
      if sinks[d].dpSink.Some? {
        calls := calls + [C.Detach(C.Relay(s, d))];
      }
      if currentFlow == Some((s, d)) {
        currentFlow := None;
      }
      sinks := sinks[d := sinks[d].(flows := Without(sinks[d].flows, s))];
      sources := sources[s := Without(sources[s], d)];
      calls := calls + [C.FlowFree(C.Relay(s, d))];
      desired := desired - {(s, d)};
    }

    method SourceFindFlow(s: Id, d: Id) returns (found: bool)
      requires s in sources
      ensures found <==> d in sources[s]
    {
      var i := 0;
      while i < |sources[s]|
        invariant 0 <= i <= |sources[s]|
        invariant d !in sources[s][..i]
      {
        if sources[s][i] == d { return true; }
        assert sources[s][..i + 1] == sources[s][..i] + [sources[s][i]];
        i := i + 1;
      }
      assert sources[s][..i] == sources[s];
      return false;
    }

    /** The frame is remembered by the flow it goes to; the frame before it must have been routed. */
    method SubmitFrame(s: Id, d: Id)
      requires Valid() && F.Has(Now(), s, d) && currentFlow.None?
      modifies this
      ensures Valid() && Now() == F.SubmitFrame(old(Now()), s, d)
      ensures C.Made(old(calls), F.SubmitFrameCalls(old(Now()), s, d), calls)
    {
      F.SubmitFrameInv(Now(), s, d);
      assert F.FlowOk(Now(), s, d);
      var found := SourceFindFlow(s, d);
      if !found {
        CreateFlow(s, d);
      }
      currentFlow := Some((s, d));
    }

    /**
      The frame is routed to its flow, which exists, unless that was freed meanwhile; another frame can be
      submitted.
    */
    method RouterDpSourceHandler() returns (to: Option<(Id, Id)>)
      requires Valid()
      modifies `currentFlow
      ensures Valid() && to == old(currentFlow) && Now() == old(Now()).(current := None)
      ensures to.Some? ==>
              to.value in desired && F.Has(Now(), to.value.0, to.value.1) && to.value.1 in sources[to.value.0]
    {
      F.NoCurrentInv(Now());
      assert currentFlow.Some? ==> F.FlowOk(Now(), currentFlow.value.0, currentFlow.value.1);
      to := currentFlow;
      currentFlow := None;
    }

    method SetFlows(d: Id, dpSink: Option<Id>)
      requires Valid() && d in sinks
      modifies `desired, `calls
      ensures desired == F.SetSink(old(Now()), d, dpSink).desired
      ensures C.Made(old(calls), F.SetSinkCalls(old(Now()), d, dpSink), calls)
    {
      ghost var st, was := Now(), calls;
      assert F.SinkOk(st, d);
      var flows, i := sinks[d].flows, 0;
      while i < |flows|
        invariant 0 <= i <= |flows|
        invariant Switched(st.desired, desired, flows, i, d, dpSink)
        invariant C.Made(was, C.SetFlows(flows[..i], d, dpSink), calls)
      {
        assert flows[i] in flows;
        SwitchedNext(st.desired, desired, flows, i, d, dpSink);
        C.SetFlowMade(was, calls, flows, i, d, dpSink);
        calls := calls + [C.SetFlow(C.Relay(flows[i], d), dpSink)];
        desired := desired[(flows[i], d) := dpSink];
        i := i + 1;
      }
      assert flows[..i] == flows;
      SwitchedAll(st, desired, d, dpSink);
    }

    /** DPRelaySink_Attach, or DPRelaySink_Detach if there is no dpSink. */
    method SetSink(d: Id, dpSink: Option<Id>)
      requires Valid() && d in sinks
      modifies `desired, `sinks, `calls
      ensures Valid() && Now() == F.SetSink(old(Now()), d, dpSink)
      ensures C.Made(old(calls), F.SetSinkCalls(old(Now()), d, dpSink), calls)
    {
      F.SetSinkInv(Now(), d, dpSink);
      SetFlows(d, dpSink);
      sinks := sinks[d := sinks[d].(dpSink := dpSink)];
    }

    /** Frees the first flow of source s. */
    method FreeSourceFlow(s: Id, ghost was: seq<C.Call>, ghost all: seq<C.Call>)
      requires Valid() && s in sources && sources[s] != [] && C.Left(was, all, calls, F.SourceFreeCalls(Now(), s))
      modifies this
      ensures Valid() && s in sources && |sources[s]| < |old(sources[s])|
      ensures F.FreeSourceFlows(Now(), s) == F.FreeSourceFlows(old(Now()), s)
      ensures C.Left(was, all, calls, F.SourceFreeCalls(Now(), s))
    {
      var d := sources[s][0];
      assert F.SourceOk(Now(), s) && F.FlowOk(Now(), s, d);
      F.WithoutFirst(sources[s]);
      FreeFlow(s, d);
      C.LeftLess(was, all, old(calls), F.FreeFlowCalls(old(Now()), s, d), calls, F.SourceFreeCalls(Now(), s));
    }

    method SourceFree(s: Id)
      requires Valid() && s in sources
      modifies this
      ensures Valid() && Now() == F.SourceFree(old(Now()), s)
      ensures C.Made(old(calls), F.SourceFreeCalls(old(Now()), s), calls)
    {
      F.FreeInv(Now(), s);
      ghost var st, was, all := Now(), calls, F.SourceFreeCalls(Now(), s);
      C.LeftAll(was, all);
      while sources[s] != []
        invariant Valid() && s in sources && F.FreeSourceFlows(Now(), s) == F.FreeSourceFlows(st, s)
        invariant C.Left(was, all, calls, F.SourceFreeCalls(Now(), s))
        decreases |sources[s]|
      {
        FreeSourceFlow(s, was, all);
      }
      C.NoneLeft(was, all, calls);
      sources := sources - {s};
    }

    /** Frees the first flow of sink d. */
    method FreeSinkFlow(d: Id, ghost was: seq<C.Call>, ghost all: seq<C.Call>)
      requires Valid() && d in sinks && sinks[d].flows != [] && C.Left(was, all, calls, F.SinkFreeCalls(Now(), d))
      modifies this
      ensures Valid() && d in sinks && |sinks[d].flows| < |old(sinks[d].flows)|
      ensures F.FreeSinkFlows(Now(), d) == F.FreeSinkFlows(old(Now()), d)
      ensures C.Left(was, all, calls, F.SinkFreeCalls(Now(), d))
    {
      var s := sinks[d].flows[0];
      assert F.SinkOk(Now(), d) && F.FlowOk(Now(), s, d);
      F.WithoutFirst(sinks[d].flows);
      FreeFlow(s, d);
      C.LeftLess(was, all, old(calls), F.FreeFlowCalls(old(Now()), s, d), calls, F.SinkFreeCalls(Now(), d));
    }

    method SinkFree(d: Id)
      requires Valid() && d in sinks
      modifies this
      ensures Valid() && Now() == F.SinkFree(old(Now()), d)
      ensures C.Made(old(calls), F.SinkFreeCalls(old(Now()), d), calls)
    {
      F.FreeInv(Now(), d);
      ghost var st, was, all := Now(), calls, F.SinkFreeCalls(Now(), d);
      C.LeftAll(was, all);
      while sinks[d].flows != []
        invariant Valid() && d in sinks && F.FreeSinkFlows(Now(), d) == F.FreeSinkFlows(st, d)
        invariant C.Left(was, all, calls, F.SinkFreeCalls(Now(), d))
        decreases |sinks[d].flows|
      {
        FreeSinkFlow(d, was, all);
      }
      C.NoneLeft(was, all, calls);
      sinks := sinks - {d};
    }

    method PeerInit(p: Id)
      requires Valid() && p !in sources && p !in sinks
      modifies this
      ensures Valid() && Now() == F.SinkInit(F.SourceInit(old(Now()), p), p) && calls == old(calls)
    {
      F.InitInv(Now(), p);
      F.InitInv(F.SourceInit(Now(), p), p);
      sources := sources[p := []];
      sinks := sinks[p := F.Sink(None, [])];
    }
  }
}
