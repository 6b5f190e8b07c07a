/**
  How client/DataProto.c attaches flows to sinks and detaches them, on values. A flow's buffer cannot
  leave a sink while the sink's queue is sending its packet; then the detach is put off until the
  queue is done with it, and the flow may want another sink, or be gone, by then.
*/
module FlowAttachment {
  import opened Common

  type Id = nat

  /**
    Where the packet of a buffer is: nowhere, on its way to or in the queue, being sent, or finished with the
    done job pending.
  */
  datatype Phase = Idle | Waiting | Sending | DonePending

  /**
    A DataProtoFlow_buffer and its connector: the flow it belongs to, the sink it is attached to, the packet it
    holds.
  */
  datatype Buffer = Buffer(flow: Option<Id>, sink: Option<Id>, packet: Option<Id>, phase: Phase)

  datatype Flow = Flow(buffer: Id, desired: Option<Id>)

  /** The buffer whose packet the queue is sending, and the buffer that is to be detached after that. */
  datatype Sink = Sink(sending: Option<Id>, detaching: Option<Id>)

  /** `delivered` are the packets that some sink sent; `taken` has the flow that each packet was passed to. */
  datatype State = State(flows: map<Id, Flow>, buffers: map<Id, Buffer>, sinks: map<Id, Sink>,
                         delivered: set<Id>, taken: map<Id, Id>)

  const EMPTY := State(map[], map[], map[], {}, map[])

  // ----- buffers

  function BufferAttach(st: State, b: Id, s: Id): State
    requires b in st.buffers
  {
    var buf := st.buffers[b];
    st.(buffers := st.buffers[b := buf.(sink := Some(s), phase := if buf.packet.Some? then Waiting else Idle)])
  }

  /** flow_buffer_detach; the queue flow goes, and with it all its pending jobs. */
  function BufferDetach(st: State, b: Id): State
    requires b in st.buffers && st.buffers[b].sink.Some? && st.buffers[b].sink.value in st.sinks
  {
    var s := st.buffers[b].sink.value;
    var sink := st.sinks[s];
    st.(buffers := st.buffers[b := st.buffers[b].(sink := None, phase := Idle)],
        sinks := st.sinks[s := Sink(if sink.sending == Some(b) then None else sink.sending,
                                    if sink.detaching == Some(b) then None else sink.detaching)])
  }

  /** What flow_buffer_schedule_detach asserts: the buffer is being sent, and no other one is detaching. */
  predicate CanSchedule(st: State, b: Id) {
    && b in st.buffers && st.buffers[b].sink.Some? && st.buffers[b].sink.value in st.sinks
    && var sink := st.sinks[st.buffers[b].sink.value];
       sink.sending == Some(b) && (sink.detaching.None? || sink.detaching == Some(b))
  }

  function ScheduleDetach(st: State, b: Id): State
    requires CanSchedule(st, b)
  {
    var s := st.buffers[b].sink.value;
    st.(sinks := st.sinks[s := st.sinks[s].(detaching := Some(b))])
  }

  /** What flow_buffer_finish_detach asserts: the buffer is the detaching one of its sink. */
  predicate CanFinish(st: State, b: Id) {
    && b in st.buffers && st.buffers[b].sink.Some? && st.buffers[b].sink.value in st.sinks
    && st.sinks[st.buffers[b].sink.value].detaching == Some(b)
  }

  function FinishDetach(st: State, b: Id): State
    requires CanFinish(st, b)
  {
    var st1 := BufferDetach(st, b);
    var flow := st.buffers[b].flow;
    if flow.None? then st1.(buffers := st1.buffers - {b})
    else if flow.value in st.flows && st.flows[flow.value].desired.Some?
    then BufferAttach(st1, b, st.flows[flow.value].desired.value)
    else st1
  }

  predicate Busy(st: State, b: Id)
    requires b in st.buffers && st.buffers[b].sink.Some? && st.buffers[b].sink.value in st.sinks
  {
    st.sinks[st.buffers[b].sink.value].sending == Some(b)
  }

  // ----- operations

  datatype Event =
    | SinkInit(s: Id) | SinkFree(s: Id)
    | FlowInit(f: Id, b: Id) | FlowFree(f: Id)
    | Attach(f: Id, s: Id) | Detach(f: Id)
    | PacketIn(f: Id, p: Id)                // the route buffer passes a packet to the connector of flow f
    | QueueStart(b: Id)                     // the queue of b's sink picks b's packet
    | QueueDone(s: Id, sent: bool)          // the queue of s is done with its packet, which was sent or cancelled
    | DoneJob(b: Id)                        // the connector of b is told that its packet is done

  /** The buffer of flow f can be looked at. */
  ghost predicate Known(st: State, f: Id) {
    && f in st.flows && st.flows[f].buffer in st.buffers
    && var buf := st.buffers[st.flows[f].buffer]; buf.sink.Some? ==> buf.sink.value in st.sinks
  }

  /** If the packet of flow f is being sent, its detach can be put off. */
  ghost predicate CanPutOff(st: State, f: Id)
    requires Known(st, f)
  {
    var b := st.flows[f].buffer;
    st.buffers[b].sink.Some? && Busy(st, b) ==> CanSchedule(st, b)
  }

  /** What the callers must respect; a packet can only be finished unsent if its cancel was requested. */
  ghost predicate Enabled(st: State, ev: Event) {
    match ev
    case SinkInit(s) => s !in st.sinks
    case SinkFree(s) =>
      && s in st.sinks && (forall f :: f in st.flows ==> st.flows[f].desired != Some(s))
      && (st.sinks[s].detaching.Some? ==>
            var b := st.sinks[s].detaching.value;
            && b in st.buffers && st.buffers[b].sink == Some(s)
            && (st.buffers[b].flow.Some? ==>
                  var f := st.buffers[b].flow.value; f in st.flows && st.flows[f].desired != Some(s)))
    case FlowInit(f, b) => f !in st.flows && b !in st.buffers
    case FlowFree(f) => Known(st, f) && CanPutOff(st, f) && st.flows[f].desired.None?
    case Attach(f, s) => Known(st, f) && CanPutOff(st, f) && st.flows[f].desired.None? && s in st.sinks
    case Detach(f) =>
      Known(st, f) && CanPutOff(st, f) && st.flows[f].desired.Some? && st.buffers[st.flows[f].buffer].sink.Some?
    case PacketIn(f, p) => Known(st, f) && st.buffers[st.flows[f].buffer].packet.None? && p !in st.taken
    case QueueStart(b) =>
      && b in st.buffers && st.buffers[b].phase == Waiting && st.buffers[b].sink.Some?
      && st.buffers[b].sink.value in st.sinks && st.sinks[st.buffers[b].sink.value].sending.None?
    case QueueDone(s, sent) =>
      && s in st.sinks && st.sinks[s].sending.Some?
      && (var b := st.sinks[s].sending.value;
        b in st.buffers && st.buffers[b].sink == Some(s) && st.buffers[b].packet.Some?)
      && (sent || st.sinks[s].detaching.Some?)
      && (st.sinks[s].detaching.None? || st.sinks[s].detaching == st.sinks[s].sending)
    case DoneJob(b) => b in st.buffers && st.buffers[b].phase == DonePending
  }

  function SinkFreed(st: State, s: Id): State
    requires Enabled(st, SinkFree(s))
  {
    var st1 := if st.sinks[s].detaching.Some? then FinishDetach(st, st.sinks[s].detaching.value) else st;
    st1.(sinks := st1.sinks - {s})
  }

  function FlowFreed(st: State, f: Id): State
    requires Enabled(st, FlowFree(f))
  {
    var b := st.flows[f].buffer;
    var st1 :=
      if st.buffers[b].sink.Some? then
        if Busy(st, b)
        then var st2 := ScheduleDetach(st, b); st2.(buffers := st2.buffers[b := st2.buffers[b].(flow := None)])
        else var st2 := BufferDetach(st, b); st2.(buffers := st2.buffers - {b})
      else st.(buffers := st.buffers - {b});
    st1.(flows := st1.flows - {f}, taken := map p | p in st.taken && st.taken[p] != f :: st.taken[p])
  }

  function Attached(st: State, f: Id, s: Id): State
    requires Enabled(st, Attach(f, s))
  {
    var b := st.flows[f].buffer;
    var st1 :=
      if st.buffers[b].sink.Some? then
        if Busy(st, b) then ScheduleDetach(st, b)
        else BufferAttach(BufferDetach(st, b), b, s)
      else BufferAttach(st, b, s);
    st1.(flows := st1.flows[f := st1.flows[f].(desired := Some(s))])
  }

  function Detached(st: State, f: Id): State
    requires Enabled(st, Detach(f))
  {
    var b := st.flows[f].buffer;
    var st1 := if Busy(st, b) then ScheduleDetach(st, b) else BufferDetach(st, b);
    st1.(flows := st1.flows[f := st1.flows[f].(desired := None)])
  }

  function Finished(st: State, s: Id, sent: bool): State
    requires Enabled(st, QueueDone(s, sent))
  {
    var b := st.sinks[s].sending.value;
    var st1 := st.(sinks := st.sinks[s := st.sinks[s].(sending := None)],
                   buffers := st.buffers[b := st.buffers[b].(phase := DonePending)],
                   delivered := if sent then st.delivered + {st.buffers[b].packet.value} else st.delivered);
    if st.sinks[s].detaching == Some(b) then FinishDetach(st1, b) else st1
  }

  function Step(st: State, ev: Event): State
    requires Enabled(st, ev)
  {
    match ev
    case SinkInit(s) => st.(sinks := st.sinks[s := Sink(None, None)])
    case SinkFree(s) => SinkFreed(st, s)
    case FlowInit(f, b) =>
      st.(flows := st.flows[f := Flow(b, None)], buffers := st.buffers[b := Buffer(Some(f), None, None, Idle)])
    case FlowFree(f) => FlowFreed(st, f)
    case Attach(f, s) => Attached(st, f, s)
    case Detach(f) => Detached(st, f)
    case PacketIn(f, p) =>
      var b := st.flows[f].buffer;
      var buf := st.buffers[b];
      st.(buffers := st.buffers[b := buf.(packet := Some(p), phase := if buf.sink.Some? then Waiting else Idle)],
          taken := st.taken[p := f])
    case QueueStart(b) =>
      var s := st.buffers[b].sink.value;
      st.(buffers := st.buffers[b := st.buffers[b].(phase := Sending)],
          sinks := st.sinks[s := st.sinks[s].(sending := Some(b))])
    case QueueDone(s, sent) => Finished(st, s, sent)
    case DoneJob(b) => st.(buffers := st.buffers[b := st.buffers[b].(packet := None, phase := Idle)])
  }

  // ----- the invariant

  /** A flow and its buffer belong together, and a flow that desires a sink is attached to one. */
  ghost predicate FlowOk(st: State, f: Id) {
    f in st.flows ==>
      var flow := st.flows[f];
      && flow.buffer in st.buffers && st.buffers[flow.buffer].flow == Some(f)
      && (flow.desired.Some? ==> flow.desired.value in st.sinks && st.buffers[flow.buffer].sink.Some?)
  }

  /** The flow of buffer b desires sink s. */
  predicate Desires(st: State, b: Id, s: Id)
    requires b in st.buffers
  {
    var flow := st.buffers[b].flow;
    flow.Some? && flow.value in st.flows && st.flows[flow.value].desired == Some(s)
  }

  /**
    A buffer's sink is the one its flow desires, or the buffer is the sink's detaching buffer. A packet
    held by an attached buffer is on its way, and one held by a detached buffer stays.
  */
  ghost predicate BufferOk(st: State, b: Id) {
    b in st.buffers ==>
      var buf := st.buffers[b];
      && (buf.flow.Some? ==> buf.flow.value in st.flows && st.flows[buf.flow.value].buffer == b)
      && (buf.flow.None? ==> buf.sink.Some?)
      && (buf.sink.None? ==> buf.phase == Idle)
      && (buf.sink.Some? ==>
            var s := buf.sink.value;
            && s in st.sinks
            && (Desires(st, b, s) || st.sinks[s].detaching == Some(b))
            && (buf.packet.Some? <==> buf.phase != Idle)
            && (buf.phase == Sending <==> st.sinks[s].sending == Some(b)))
      && (buf.phase == DonePending ==> buf.packet.Some? && buf.packet.value in st.delivered)
  }

  /** The detaching buffer of a sink is the one being sent, so there is at most one. */
  ghost predicate SinkOk(st: State, s: Id) {
    s in st.sinks ==>
      var sink := st.sinks[s];
      && (sink.sending.Some? ==> sink.sending.value in st.buffers && st.buffers[sink.sending.value].sink == Some(s))
      && (sink.detaching.Some? ==> sink.sending == sink.detaching)
  }

  /** A packet that was passed to a flow was delivered or is still held for that flow. */
  ghost predicate PacketOk(st: State, p: Id) {
    p in st.taken ==>
      && st.taken[p] in st.flows
      && (p in st.delivered ||
          var b := st.flows[st.taken[p]].buffer; b in st.buffers && st.buffers[b].packet == Some(p))
  }

  ghost predicate Inv(st: State) {
    && (forall f :: FlowOk(st, f))
    && (forall b :: BufferOk(st, b))
    && (forall s :: SinkOk(st, s))
    && (forall p :: PacketOk(st, p))
  }

  lemma AttachInv(st: State, f: Id, s: Id)
    requires Inv(st) && Enabled(st, Attach(f, s))
    ensures Inv(Step(st, Attach(f, s)))
  {
    var st' := Step(st, Attach(f, s));
    assert FlowOk(st, f) && BufferOk(st, st.flows[f].buffer) && SinkOk(st, s);
    forall g ensures FlowOk(st', g) { assert FlowOk(st, g); }
    forall c ensures BufferOk(st', c) { assert BufferOk(st, c); }
    forall t ensures SinkOk(st', t) { assert SinkOk(st, t); }
    forall p ensures PacketOk(st', p) { assert PacketOk(st, p); }
  }

  lemma DetachInv(st: State, f: Id)
    requires Inv(st) && Enabled(st, Detach(f))
    ensures Inv(Step(st, Detach(f)))
  {
    var st' := Step(st, Detach(f));
    var b := st.flows[f].buffer;
    assert FlowOk(st, f) && BufferOk(st, b) && SinkOk(st, st.buffers[b].sink.value);
    forall g ensures FlowOk(st', g) { assert FlowOk(st, g); }
    forall c ensures BufferOk(st', c) { assert BufferOk(st, c); }
    forall t ensures SinkOk(st', t) { assert SinkOk(st, t); }
    forall p ensures PacketOk(st', p) { assert PacketOk(st, p); }
  }

  lemma FlowFreeInv(st: State, f: Id)
    requires Inv(st) && Enabled(st, FlowFree(f))
    ensures Inv(Step(st, FlowFree(f)))
  {
    var st' := Step(st, FlowFree(f));
    var b := st.flows[f].buffer;
    assert FlowOk(st, f) && BufferOk(st, b);
    assert st.buffers[b].sink.Some? ==> SinkOk(st, st.buffers[b].sink.value);
    forall g ensures FlowOk(st', g) { assert FlowOk(st, g); }
    forall c ensures BufferOk(st', c) { assert BufferOk(st, c); }
    forall t ensures SinkOk(st', t) { assert SinkOk(st, t); }
    forall p ensures PacketOk(st', p) { assert PacketOk(st, p); assert p in st.taken ==> FlowOk(st, st.taken[p]); }
  }

  /**
    The detaching buffer b leaves its sink s for the sink its flow desires by now, if any; s may be freed after
    that.
  */
  lemma FinishDetachInv(st: State, s: Id, sent: bool)
    requires Inv(st) && Enabled(st, QueueDone(s, sent))
    ensures Inv(Step(st, QueueDone(s, sent)))
  {
    var st' := Step(st, QueueDone(s, sent));
    var b := st.sinks[s].sending.value;
    assert BufferOk(st, b) && SinkOk(st, s);
    var flow := st.buffers[b].flow;
    assert flow.Some? ==> FlowOk(st, flow.value);
    assert flow.Some? && st.flows[flow.value].desired.Some? ==> SinkOk(st, st.flows[flow.value].desired.value);
    forall t ensures SinkOk(st', t) { assert SinkOk(st, t); }
    forall g ensures FlowOk(st', g) { assert FlowOk(st, g); }
    forall c ensures BufferOk(st', c) { assert BufferOk(st, c); }
    forall p ensures PacketOk(st', p) { assert PacketOk(st, p); assert p in st.taken ==> FlowOk(st, st.taken[p]); }
  }

  lemma SinkFreeInv(st: State, s: Id)
    requires Inv(st) && Enabled(st, SinkFree(s))
    ensures Inv(Step(st, SinkFree(s)))
  {
    var st' := Step(st, SinkFree(s));
    assert SinkOk(st, s);
    if st.sinks[s].detaching.Some? {
      var b := st.sinks[s].detaching.value;
      assert BufferOk(st, b);
      var flow := st.buffers[b].flow;
      assert flow.Some? ==> FlowOk(st, flow.value);
      assert flow.Some? && st.flows[flow.value].desired.Some? ==> SinkOk(st, st.flows[flow.value].desired.value);
    }
    forall t ensures SinkOk(st', t) { assert SinkOk(st, t); }
    forall g ensures FlowOk(st', g) { assert FlowOk(st, g); }
    forall c ensures BufferOk(st', c) { assert BufferOk(st, c); }
    forall p ensures PacketOk(st', p) { assert PacketOk(st, p); assert p in st.taken ==> FlowOk(st, st.taken[p]); }
  }

  lemma OtherInv(st: State, ev: Event)
    requires Inv(st) && Enabled(st, ev)
    requires ev.SinkInit? || ev.FlowInit? || ev.PacketIn? || ev.QueueStart? || ev.DoneJob?
    ensures Inv(Step(st, ev))
  {
    var st' := Step(st, ev);
    forall g ensures FlowOk(st', g) { assert FlowOk(st, g); }
    forall c
      ensures BufferOk(st', c)
    {
      assert BufferOk(st, c);
      assert ev.SinkInit? ==> SinkOk(st, ev.s);
      assert c in st.buffers && st.buffers[c].sink.Some? ==> SinkOk(st, st.buffers[c].sink.value);
    }
    forall t ensures SinkOk(st', t) { assert SinkOk(st, t); }
    forall p
      ensures PacketOk(st', p)
    {
      assert PacketOk(st, p);
      assert p in st.taken ==> FlowOk(st, st.taken[p]) && BufferOk(st, st.flows[st.taken[p]].buffer);
    }
  }

  /** Every operation keeps the invariant. */
  lemma StepInv(st: State, ev: Event)
    requires Inv(st) && Enabled(st, ev)
    ensures Inv(Step(st, ev))
  {
    match ev
    case SinkFree(s) => SinkFreeInv(st, s);
    case FlowFree(f) => FlowFreeInv(st, f);
    case Attach(f, s) => AttachInv(st, f, s);
    case Detach(f) => DetachInv(st, f);
    case QueueDone(s, sent) => FinishDetachInv(st, s, sent);
    case _ => OtherInv(st, ev);
  }

  // ----- whole runs

  /** What the callers promise, and what the queues and connectors do. */
  ghost predicate May(st: State, ev: Event) {
    match ev
    case SinkInit(s) => s !in st.sinks
    case SinkFree(s) => s in st.sinks && (forall f :: f in st.flows ==> st.flows[f].desired != Some(s))
    case FlowInit(f, b) => f !in st.flows && b !in st.buffers
    case FlowFree(f) => f in st.flows && st.flows[f].desired.None?
    case Attach(f, s) => f in st.flows && st.flows[f].desired.None? && s in st.sinks
    case Detach(f) => f in st.flows && st.flows[f].desired.Some?
    case PacketIn(f, p) =>
      && f in st.flows && p !in st.taken
      && forall b :: b in st.buffers && st.buffers[b].flow == Some(f) ==> st.buffers[b].packet.None?
    case QueueStart(b) =>
      && b in st.buffers && st.buffers[b].phase == Waiting
      && forall s :: s in st.sinks && st.buffers[b].sink == Some(s) ==> st.sinks[s].sending.None?
    case QueueDone(s, sent) => s in st.sinks && st.sinks[s].sending.Some? && (sent || st.sinks[s].detaching.Some?)
    case DoneJob(b) => b in st.buffers && st.buffers[b].phase == DonePending
  }

  lemma KnownOk(st: State, f: Id)
    requires Inv(st) && f in st.flows
    ensures Known(st, f) && CanPutOff(st, f)
    ensures st.flows[f].desired.Some? ==> st.buffers[st.flows[f].buffer].sink.Some?
  {
    assert FlowOk(st, f) && BufferOk(st, st.flows[f].buffer);
    var sink := st.buffers[st.flows[f].buffer].sink;
    assert sink.Some? ==> SinkOk(st, sink.value);
  }

  /** Nothing else needs to be promised: no assertion of these functions can fail. */
  lemma MayEnabled(st: State, ev: Event)
    requires Inv(st) && May(st, ev)
    ensures Enabled(st, ev)
  {
    match ev
    case SinkFree(s) =>
      assert SinkOk(st, s);
      assert st.sinks[s].detaching.Some? ==> BufferOk(st, st.sinks[s].detaching.value);
    case FlowFree(f) => KnownOk(st, f);
    case Attach(f, s) => KnownOk(st, f);
    case Detach(f) => KnownOk(st, f);
    case PacketIn(f, p) => assert FlowOk(st, f) && BufferOk(st, st.flows[f].buffer);
    case QueueStart(b) => assert BufferOk(st, b);
    case QueueDone(s, sent) => assert SinkOk(st, s) && BufferOk(st, st.sinks[s].sending.value);
    case _ =>
  }

  /** The state after a run in which every event was one that may happen. */
  ghost function Run(evs: seq<Event>): (st: Option<State>)
    ensures st.Some? ==> Inv(st.value)
  {
    if evs == [] then Some(EMPTY)
    else
      var st, ev := Run(evs[..|evs| - 1]), evs[|evs| - 1];
      if st.None? || !May(st.value, ev) then None
      else
        MayEnabled(st.value, ev);
        StepInv(st.value, ev);
        Some(Step(st.value, ev))
  }

  lemma {:induction false} RunNext(evs: seq<Event>, k: nat)
    requires Run(evs).Some? && k < |evs|
    ensures var st := Run(evs[..k]);
            && st.Some? && May(st.value, evs[k]) && Enabled(st.value, evs[k])
            && Run(evs[..k + 1]) == Some(Step(st.value, evs[k]))
  {
    var before := evs[..|evs| - 1];
    if k == |evs| - 1 {
      assert evs[..k + 1] == evs;
      MayEnabled(Run(before).value, evs[k]);
    } else {
      RunNext(before, k);
      assert before[..k] == evs[..k] && before[..k + 1] == evs[..k + 1];
    }
  }

  /**
    In every reachable state, a buffer's sink is the one its flow desires, or the buffer is the only
    detaching one of that sink and its packet is being sent; a flow that desires a sink is attached; and a
    packet passed to a flow was delivered, or is held and, if the flow is attached, on its way.
  */
  lemma EveryRun(evs: seq<Event>)
    requires Run(evs).Some?
    ensures var st := Run(evs).value;
            && (forall b, s :: b in st.buffers && st.buffers[b].sink == Some(s) && !Desires(st, b, s) ==>
                  s in st.sinks && st.sinks[s].detaching == st.sinks[s].sending == Some(b)
                    && st.buffers[b].phase == Sending)
            && (forall f :: f in st.flows && st.flows[f].desired.Some? ==>
                  st.flows[f].buffer in st.buffers && st.buffers[st.flows[f].buffer].sink.Some?)
            && (forall p :: p in st.taken && p !in st.delivered ==>
                  && st.taken[p] in st.flows && st.flows[st.taken[p]].buffer in st.buffers
                  && var buf := st.buffers[st.flows[st.taken[p]].buffer];
                     buf.packet == Some(p) && (buf.sink.Some? ==> buf.phase == Waiting || buf.phase == Sending))
  {
    var st := Run(evs).value;
    forall b, s | b in st.buffers && st.buffers[b].sink == Some(s) && !Desires(st, b, s)
      ensures s in st.sinks && st.sinks[s].detaching == st.sinks[s].sending == Some(b) && st.buffers[b].phase == Sending
    {
      assert BufferOk(st, b) && SinkOk(st, s);
    }
    forall f | f in st.flows && st.flows[f].desired.Some?
      ensures st.flows[f].buffer in st.buffers && st.buffers[st.flows[f].buffer].sink.Some?
    {
      assert FlowOk(st, f);
    }
    forall p | p in st.taken && p !in st.delivered
      ensures st.taken[p] in st.flows && st.flows[st.taken[p]].buffer in st.buffers
      ensures var buf := st.buffers[st.flows[st.taken[p]].buffer];
              buf.packet == Some(p) && (buf.sink.Some? ==> buf.phase == Waiting || buf.phase == Sending)
    {
      assert PacketOk(st, p) && FlowOk(st, st.taken[p]) && BufferOk(st, st.flows[st.taken[p]].buffer);
    }
  }

  /** A flow that is attached to a sink it no longer desires only ever gets its new sink after the queue is done. */
  lemma AttachIsPutOff(st: State, f: Id, s: Id)
    requires Inv(st) && Enabled(st, Attach(f, s)) && st.buffers[st.flows[f].buffer].sink.Some?
    ensures Busy(st, st.flows[f].buffer)
    ensures Step(st, Attach(f, s)).buffers == st.buffers
  {
    var b := st.flows[f].buffer;
    assert FlowOk(st, f) && BufferOk(st, b) && SinkOk(st, st.buffers[b].sink.value);
  }

  /**
    When the queue is done with the packet of a detaching buffer, sent or not, the buffer moves to the
    sink its flow desires by then, still holding the packet, which is sent again.
  */
  lemma HeldPacketIsSentAgain(st: State, s: Id, sent: bool)
    requires Inv(st) && Enabled(st, QueueDone(s, sent)) && st.sinks[s].detaching.Some?
    ensures var b := st.sinks[s].detaching.value;
            b in st.buffers && st.buffers[b].packet.Some?
    ensures var b, st' := st.sinks[s].detaching.value, Step(st, QueueDone(s, sent));
            var flow := st.buffers[b].flow;
            if flow.None? then b !in st'.buffers
            else
              && flow.value in st.flows && b in st'.buffers
              && st'.buffers[b].flow == flow && st'.buffers[b].packet == st.buffers[b].packet
              && st'.buffers[b].sink == st.flows[flow.value].desired
              && st'.buffers[b].phase == (if st'.buffers[b].sink.Some? then Waiting else Idle)
  {
    assert SinkOk(st, s) && BufferOk(st, st.sinks[s].sending.value);
  }

  /** A freed sink has no buffer left. */
  lemma SinkFreeDetachesAll(st: State, s: Id)
    requires Inv(st) && Enabled(st, SinkFree(s))
    ensures var st' := Step(st, SinkFree(s));
            s !in st'.sinks && forall b :: b in st'.buffers ==> st'.buffers[b].sink != Some(s)
  {
    var st' := Step(st, SinkFree(s));
    SinkFreeInv(st, s);
    forall b | b in st'.buffers
      ensures st'.buffers[b].sink != Some(s)
    {
      assert BufferOk(st', b);
    }
  }
}
