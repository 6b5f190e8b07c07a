/**
  The functions of client/DataProto.c and flow/PacketPassConnector.c that move buffers between sinks, as
  updates of the flow, buffer and sink structures. The structures are kept in maps by an id each, which
  stands for the address of the structure.
*/
module FlowAttachmentObject {
  import opened Common
  import opened FlowAttachment

  class DataProto {
    var flows: map<Id, Flow>
    var buffers: map<Id, Buffer>
    var sinks: map<Id, Sink>
    ghost var delivered: set<Id>
    ghost var taken: map<Id, Id>

    ghost function Now(): State
      reads this
    {
      State(flows, buffers, sinks, delivered, taken)
    }

    ghost predicate Valid()
      reads this
    {
      Inv(Now())
    }

    constructor ()
      ensures Valid() && Now() == EMPTY
    {
      flows, buffers, sinks := map[], map[], map[];
      delivered, taken := {}, map[];
    }

    // ----- the connector of a buffer

    method ConnectOutput(b: Id)
      requires b in buffers
      modifies `buffers
      ensures buffers
              == old(buffers)[b := old(buffers)[b].(phase := if old(buffers)[b].packet.Some? then Waiting else Idle)]
    {
      var buf := buffers[b];
      if buf.packet.Some? {
        buffers := buffers[b := buf.(phase := Waiting)];
      } else {
        buffers := buffers[b := buf.(phase := Idle)];
      }
    }

    /** The buffer of flow f holds packet p for it, and p is on its way if and only if the buffer is attached. */
    ghost predicate Holds(f: Id, p: Id)
      reads this
    {
      && f in flows && flows[f].buffer in buffers && p in taken && taken[p] == f
      && var buf := buffers[flows[f].buffer];
         buf.flow == Some(f) && buf.packet == Some(p) && (buf.phase == Waiting <==> buf.sink.Some?)
    }

    /** input_handler_send of the connector of flow f's buffer. */
    method ConnectorInputSend(f: Id, p: Id)
      requires Valid() && May(Now(), PacketIn(f, p))
      modifies this
      ensures Valid() && Holds(f, p) && delivered == old(delivered)
      ensures Enabled(old(Now()), PacketIn(f, p)) && Now() == Step(old(Now()), PacketIn(f, p))
    {
      MayEnabled(Now(), PacketIn(f, p));
      StepInv(Now(), PacketIn(f, p));
      assert FlowOk(Now(), f);
      ghost var next := Step(Now(), PacketIn(f, p));
      var b := flows[f].buffer;
      buffers := buffers[b := buffers[b].(packet := Some(p), phase := Idle)];
      if buffers[b].sink.Some? {
        buffers := buffers[b := buffers[b].(phase := Waiting)];
      }
      taken := taken[p := f];
      assert Now() == next;
    }

    /** output_handler_done of the connector of b, which lets go of a packet that some sink has sent. */
    method ConnectorOutputDone(b: Id)
      requires Valid() && May(Now(), DoneJob(b))
      modifies this
      ensures Valid() && Now() == Step(old(Now()), DoneJob(b)) && delivered == old(delivered)
      ensures old(buffers)[b].packet.Some? && old(buffers)[b].packet.value in delivered && buffers[b].packet.None?
    {
      StepInv(Now(), DoneJob(b));
      assert BufferOk(Now(), b);
      buffers := buffers[b := buffers[b].(packet := None, phase := Idle)];
    }

    // ----- buffers

    method FlowBufferAttach(b: Id, s: Id)
      requires b in buffers
      modifies this
      ensures Now() == BufferAttach(old(Now()), b, s)
    {
      ConnectOutput(b);
      buffers := buffers[b := buffers[b].(sink := Some(s))];
    }

    method FlowBufferDetach(b: Id)
      requires b in buffers && buffers[b].sink.Some? && buffers[b].sink.value in sinks
      modifies this
      ensures Now() == BufferDetach(old(Now()), b)
    {
      var s := buffers[b].sink.value;
      if sinks[s].sending == Some(b) {
        sinks := sinks[s := sinks[s].(sending := None)];
      }
      if sinks[s].detaching == Some(b) {
        sinks := sinks[s := sinks[s].(detaching := None)];
      }
      buffers := buffers[b := buffers[b].(sink := None, phase := Idle)];
      assert sinks == BufferDetach(old(Now()), b).sinks;
    }

    method FlowBufferScheduleDetach(b: Id)
      requires CanSchedule(Now(), b)
      modifies this
      ensures Now() == ScheduleDetach(old(Now()), b)
    {
      var s := buffers[b].sink.value;
      if sinks[s].detaching == Some(b) {
        assert sinks == sinks[s := sinks[s]];
        return;
      }
      sinks := sinks[s := sinks[s].(detaching := Some(b))];
    }

    method FlowBufferFinishDetach(b: Id)
      requires CanFinish(Now(), b)
      requires buffers[b].flow.Some? ==> buffers[b].flow.value in flows
      modifies this
      ensures Now() == FinishDetach(old(Now()), b)
    {
      var flow := buffers[b].flow;
      FlowBufferDetach(b);
      if flow.None? {
        buffers := buffers - {b};
      } else if flows[flow.value].desired.Some? {
        FlowBufferAttach(b, flows[flow.value].desired.value);
      }
    }

    // ----- sinks

    method DataProtoSinkInit(s: Id)
      requires Valid() && May(Now(), SinkInit(s))
      modifies this
      ensures Valid() && Now() == Step(old(Now()), SinkInit(s))
    {
      StepInv(Now(), SinkInit(s));
      sinks := sinks[s := Sink(None, None)];
    }

    method DataProtoSinkFree(s: Id)
      requires Valid() && May(Now(), SinkFree(s))
      modifies this
      ensures Valid() && Enabled(old(Now()), SinkFree(s)) && Now() == Step(old(Now()), SinkFree(s))
    {
      MayEnabled(Now(), SinkFree(s));
      StepInv(Now(), SinkFree(s));
      if sinks[s].detaching.Some? {
        assert BufferOk(Now(), sinks[s].detaching.value);
        FlowBufferFinishDetach(sinks[s].detaching.value);
      }
      sinks := sinks - {s};
    }

    /** The queue of s is done with the packet it was sending. */
    method QueueOutputDone(s: Id, sent: bool)
      requires Valid() && May(Now(), QueueDone(s, sent))
      modifies this
      ensures Valid() && Enabled(old(Now()), QueueDone(s, sent)) && Now() == Step(old(Now()), QueueDone(s, sent))
      ensures old(sinks)[s].detaching.None? ==> May(Now(), DoneJob(old(sinks)[s].sending.value))
    {
      MayEnabled(Now(), QueueDone(s, sent));
      StepInv(Now(), QueueDone(s, sent));
      var b := sinks[s].sending.value;
      assert BufferOk(Now(), b);
      if sent {
        delivered := delivered + {buffers[b].packet.value};
      }
      sinks := sinks[s := sinks[s].(sending := None)];
      buffers := buffers[b := buffers[b].(phase := DonePending)];
      if sinks[s].detaching == Some(b) {
        FlowBufferFinishDetach(b);
      }
    }

    // ----- flows

    method DataProtoFlowInit(f: Id, b: Id)
      requires Valid() && May(Now(), FlowInit(f, b))
      modifies this
      ensures Valid() && Enabled(old(Now()), FlowInit(f, b)) && Now() == Step(old(Now()), FlowInit(f, b))
    {
      StepInv(Now(), FlowInit(f, b));
      flows := flows[f := Flow(b, None)];
      buffers := buffers[b := Buffer(Some(f), None, None, Idle)];
    }

    method DataProtoFlowFree(f: Id)
      requires Valid() && May(Now(), FlowFree(f))
      modifies this
      ensures Valid() && Enabled(old(Now()), FlowFree(f)) && Now() == Step(old(Now()), FlowFree(f))
    {
      MayEnabled(Now(), FlowFree(f));
      StepInv(Now(), FlowFree(f));
      var b := flows[f].buffer;
      if buffers[b].sink.Some? {
        if sinks[buffers[b].sink.value].sending == Some(b) {
          FlowBufferScheduleDetach(b);
          buffers := buffers[b := buffers[b].(flow := None)];
        } else {
          FlowBufferDetach(b);
          buffers := buffers - {b};
        }
      } else {
        buffers := buffers - {b};
      }
      flows := flows - {f};
      taken := map p | p in taken && taken[p] != f :: taken[p];
    }

    method DataProtoFlowAttach(f: Id, s: Id)
      requires Valid() && May(Now(), Attach(f, s))
      modifies this
      ensures Valid() && Enabled(old(Now()), Attach(f, s)) && Now() == Step(old(Now()), Attach(f, s))
    {
      MayEnabled(Now(), Attach(f, s));
      StepInv(Now(), Attach(f, s));
      var b := flows[f].buffer;
      if buffers[b].sink.Some? {
        if sinks[buffers[b].sink.value].sending == Some(b) {
          FlowBufferScheduleDetach(b);
        } else {
          FlowBufferDetach(b);
          FlowBufferAttach(b, s);
        }
      } else {
        FlowBufferAttach(b, s);
      }
      flows := flows[f := flows[f].(desired := Some(s))];
    }

    method DataProtoFlowDetach(f: Id)
      requires Valid() && May(Now(), Detach(f))
      modifies this
      ensures Valid() && Enabled(old(Now()), Detach(f)) && Now() == Step(old(Now()), Detach(f))
    {
      MayEnabled(Now(), Detach(f));
      StepInv(Now(), Detach(f));
      var b := flows[f].buffer;
      if sinks[buffers[b].sink.value].sending == Some(b) {
        FlowBufferScheduleDetach(b);
      } else {
        FlowBufferDetach(b);
      }
      flows := flows[f := flows[f].(desired := None)];
    }

    // ----- any event

    /** The sink sends the packet of b and of no other buffer. */
    ghost predicate SendsOnly(s: Id, b: Id)
      reads this
    {
      && s in sinks && sinks[s].sending == Some(b) && b in buffers && buffers[b].sink == Some(s)
        && buffers[b].packet.Some?
      && forall c :: c in buffers && buffers[c].sink == Some(s) ==> (buffers[c].phase == Sending <==> c == b)
    }

    /** The queue of b's sink starts to send b's packet. */
    method QueueOutputStart(b: Id)
      requires Valid() && May(Now(), QueueStart(b))
      modifies this
      ensures Valid() && b in buffers && buffers[b].sink.Some? && SendsOnly(buffers[b].sink.value, b)
      ensures Enabled(old(Now()), QueueStart(b)) && Now() == Step(old(Now()), QueueStart(b))
    {
      MayEnabled(Now(), QueueStart(b));
      StepInv(Now(), QueueStart(b));
      assert BufferOk(Now(), b);
      var s := buffers[b].sink.value;
      sinks := sinks[s := sinks[s].(sending := Some(b))];
      buffers := buffers[b := buffers[b].(phase := Sending)];
      assert forall c :: c in buffers ==> BufferOk(Now(), c);
    }

    method Handle(ev: Event)
      requires Valid() && May(Now(), ev)
      modifies this
      ensures Valid() && Enabled(old(Now()), ev) && Now() == Step(old(Now()), ev)
    {
      MayEnabled(Now(), ev);
      StepInv(Now(), ev);
      match ev
      case SinkInit(s) => DataProtoSinkInit(s);
      case SinkFree(s) => DataProtoSinkFree(s);
      case FlowInit(f, b) => DataProtoFlowInit(f, b);
      case FlowFree(f) => DataProtoFlowFree(f);
      case Attach(f, s) => DataProtoFlowAttach(f, s);
      case Detach(f) => DataProtoFlowDetach(f);
      case PacketIn(f, p) => ConnectorInputSend(f, p);
      case QueueStart(b) => QueueOutputStart(b);
      case QueueDone(s, sent) => QueueOutputDone(s, sent);
      case DoneJob(b) => ConnectorOutputDone(b);
    }

    /** Every run of the model is a run of these structures. */
    method HandleAll(evs: seq<Event>)
      requires Now() == EMPTY && Run(evs).Some?
      modifies this
      ensures Run(evs) == Some(Now())
    {
      var i := 0;
      while i < |evs|
        invariant 0 <= i <= |evs| && Run(evs[..i]) == Some(Now())
      {
        RunNext(evs, i);
        Handle(evs[i]);
        i := i + 1;
      }
      assert evs[..i] == evs;
    }
  }
}
