/**
  What becomes of a packet that was passed to a flow, over whole runs of client/DataProto.c: when it counts as
  sent, and how often it is.
*/
module FlowDelivery {
  import opened Common
  import opened FlowAttachment

  // ----- a packet that was sent is done with

  /**
    When the queue has sent the packet of a buffer that is not detaching, the connector can be told, and then the flow
    can take any new packet.
  */
  lemma SentIsDone(st: State, s: Id, p': Id)
    requires Inv(st) && May(st, QueueDone(s, true)) && st.sinks[s].detaching.None? && p' !in st.taken
    ensures Enabled(st, QueueDone(s, true))
    ensures var b := st.sinks[s].sending.value;
            var st1 := Step(st, QueueDone(s, true));
            && b in st.buffers && st.buffers[b].flow.Some?
            && May(st1, DoneJob(b)) && Enabled(st1, DoneJob(b))
            && var st2 := Step(st1, DoneJob(b));
               st2.buffers[b] == st.buffers[b].(packet := None, phase := Idle)
                 && May(st2, PacketIn(st.buffers[b].flow.value, p'))
  {
    var b := st.sinks[s].sending.value;
    MayEnabled(st, QueueDone(s, true));
    assert SinkOk(st, s) && BufferOk(st, b);
    var f := st.buffers[b].flow.value;
    var st2 := Step(Step(st, QueueDone(s, true)), DoneJob(b));
    forall c | c in st2.buffers && st2.buffers[c].flow == Some(f)
      ensures st2.buffers[c].packet.None?
    {
      assert BufferOk(st, c);
    }
  }

  // ----- how often a packet is sent

  /** The buffer is detached from its sink, though it may be attached to the same or another one at once. */
  predicate Detaches(st: State, ev: Event, b: Id)
    requires Enabled(st, ev)
  {
    match ev
    case SinkFree(s) => st.sinks[s].detaching == Some(b)
    case FlowFree(f) => Leaves(st, f, b)
    case Attach(f, _) => Leaves(st, f, b)
    case Detach(f) => Leaves(st, f, b)
    case QueueDone(s, _) => st.sinks[s].detaching == Some(b)
    case _ => false
  }

  /** The buffer of flow f can leave its sink at once. */
  predicate Leaves(st: State, f: Id, b: Id)
    requires Known(st, f)
  {
    st.flows[f].buffer == b && st.buffers[b].sink.Some? && !Busy(st, b)
  }

  /**
    Since buffer b last got a packet: how often its queue started to send it, and how often the buffer was
    detached.
  */
  datatype Tally = Tally(starts: nat, moves: nat)

  ghost function TallyOf(evs: seq<Event>, b: Id): Tally
    requires Run(evs).Some?
  {
    if evs == [] then Tally(0, 0)
    else
      var before, ev := evs[..|evs| - 1], evs[|evs| - 1];
      var st, t := Run(before).value, TallyOf(before, b);
      MayEnabled(st, ev);
      if ev.PacketIn? && st.flows[ev.f].buffer == b then Tally(0, 0)
      else Tally(if ev == QueueStart(b) then t.starts + 1 else t.starts,
                 if Detaches(st, ev, b) then t.moves + 1 else t.moves)
  }

  /** b holds a packet that is not being sent and was not. */
  predicate HoldsUnsent(st: State, b: Id) {
    && b in st.buffers && st.buffers[b].packet.Some?
    && (st.buffers[b].phase == Waiting || st.buffers[b].phase == Idle)
  }

  /**
    The packet that b holds, if any, was started once for each time it was detached, and once more if it is
    being sent or was.
  */
  ghost predicate TallyOk(st: State, b: Id, t: Tally) {
    && t.starts <= t.moves + 1
    && (HoldsUnsent(st, b) ==> t.starts <= t.moves)
  }

  lemma TallyStep(st: State, ev: Event, b: Id, t: Tally, t': Tally)
    requires Inv(st) && May(st, ev) && Enabled(st, ev) && TallyOk(st, b, t)
    requires t' == if ev.PacketIn? && st.flows[ev.f].buffer == b then Tally(0, 0)
                   else Tally(if ev == QueueStart(b) then t.starts + 1 else t.starts,
                              if Detaches(st, ev, b) then t.moves + 1 else t.moves)
    ensures TallyOk(Step(st, ev), b, t')
  {
    assert BufferOk(st, b);
    match ev
    case SinkFree(s) => assert SinkOk(st, s);
    case FlowFree(f) => assert FlowOk(st, f);
    case Attach(f, s) => assert FlowOk(st, f);
    case Detach(f) => assert FlowOk(st, f);
    case PacketIn(f, p) => assert FlowOk(st, f);
    case QueueDone(s, sent) => assert SinkOk(st, s);
    case _ =>
  }

  /**
    In every run, a queue starts to send a packet at most once more than the buffer that holds it was detached since it
    got the packet: a packet whose buffer stays where it is, is sent once.
  */
  lemma {:induction false} SentOncePerStay(evs: seq<Event>, b: Id)
    requires Run(evs).Some?
    ensures TallyOk(Run(evs).value, b, TallyOf(evs, b))
  {
    if evs == [] {
    } else {
      var before, ev := evs[..|evs| - 1], evs[|evs| - 1];
      var st := Run(before).value;
      MayEnabled(st, ev);
      SentOncePerStay(before, b);
      TallyStep(st, ev, b, TallyOf(before, b), TallyOf(evs, b));
    }
  }

  // ----- what was delivered

  /** With this event, some queue has sent packet p. */
  predicate Sends(st: State, ev: Event, p: Id)
    requires Enabled(st, ev)
  {
    ev.QueueDone? && ev.sent && st.buffers[st.sinks[ev.s].sending.value].packet == Some(p)
  }

  ghost predicate SentAt(evs: seq<Event>, p: Id, k: nat)
    requires Run(evs).Some? && k < |evs|
  {
    RunNext(evs, k);
    Sends(Run(evs[..k]).value, evs[k], p)
  }

  lemma DeliveredStep(st: State, ev: Event, p: Id)
    requires Enabled(st, ev)
    ensures p in Step(st, ev).delivered <==> p in st.delivered || Sends(st, ev, p)
  {}

  lemma SentBefore(evs: seq<Event>, p: Id, k: nat)
    requires Run(evs).Some? && evs != [] && k < |evs| - 1
    ensures Run(evs[..|evs| - 1]).Some? && (SentAt(evs, p, k) <==> SentAt(evs[..|evs| - 1], p, k))
  {
    RunNext(evs, |evs| - 1);
    RunNext(evs, k);
    assert evs[..|evs| - 1][..k] == evs[..k];
  }

  /** In every run, a packet counts as delivered if and only if some queue was done with it and had sent it. */
  lemma {:induction false} DeliveredIffSent(evs: seq<Event>, p: Id)
    requires Run(evs).Some?
    ensures p in Run(evs).value.delivered <==> exists k :: 0 <= k < |evs| && SentAt(evs, p, k)
  {
    if evs == [] {
    } else {
      var n := |evs| - 1;
      var before := evs[..n];
      RunNext(evs, n);
      assert evs[..n + 1] == evs;
      DeliveredIffSent(before, p);
      DeliveredStep(Run(before).value, evs[n], p);
      forall k | 0 <= k < n
        ensures SentAt(evs, p, k) <==> SentAt(before, p, k)
      {
        SentBefore(evs, p, k);
      }
      assert SentAt(evs, p, n) <==> Sends(Run(before).value, evs[n], p);
    }
  }
}
