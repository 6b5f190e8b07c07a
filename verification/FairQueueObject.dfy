/** The fair queue as the C code runs it: fields updated in place by the handlers. */
module FairQueueObject {
  import opened Common
  import opened FairQueue
  import T = FairQueueTheorems
  import Times = FairQueueTimes

  class PacketPassFairQueue {
    const cfg: Config
    var flowsList: seq<FlowId>
    var times: map<FlowId, int>
    var queuedTree: map<FlowId, nat>
    var sendingFlow: Option<FlowId>
    var sendingLen: nat
    var previousFlow: Option<FlowId>
    var scheduleJob: bool

    ghost function State(): Queue
      reads this
    {
      Queue(times, queuedTree, sendingFlow, sendingLen, previousFlow, scheduleJob)
    }

    /** The flows list holds every flow once. */
    ghost predicate Listed()
      reads this
    {
      && (forall f :: f in flowsList <==> f in times)
      && (forall i, j :: 0 <= i < j < |flowsList| ==> flowsList[i] != flowsList[j])
    }

    ghost predicate Valid()
      reads this
    {
      FairQueue.Valid(cfg, State()) && Listed()
    }

    constructor (cfg: Config)
      requires cfg.Valid()
      ensures Valid() && this.cfg == cfg && State() == EMPTY
    {
      this.cfg := cfg;
      flowsList, times, queuedTree := [], map[], map[];
      sendingFlow, sendingLen, previousFlow, scheduleJob := None, 0, None, false;
    }

    /** PacketPassFairQueue_Init fails when the output MTU is too large for the clock. */
    static method Create(weight: nat, mtu: nat, maxTime: nat) returns (m: PacketPassFairQueue?)
      requires 0 < weight && maxTime < TWO64
      ensures m == null <==> maxTime < mtu + weight
      ensures m != null ==> fresh(m) && m.Valid() && m.cfg == Config(weight, mtu, maxTime) && m.State() == EMPTY
    {
      if mtu <= maxTime && weight <= maxTime - mtu {
        m := new PacketPassFairQueue(Config(weight, mtu, maxTime));
      } else {
        m := null;
      }
    }

    /** The leftmost entry of the queued tree. */
    method TreeFirst() returns (f: FlowId)
      requires queuedTree.Keys <= times.Keys && queuedTree != map[]
      ensures f == First(times, queuedTree.Keys)
    {
      ghost var least := First(times, queuedTree.Keys);
      var left := queuedTree.Keys;
      f :| f in left;
      left := left - {f};
      while left != {}
        invariant left <= queuedTree.Keys && f in queuedTree
        invariant forall g :: g in queuedTree && g !in left ==> Before(times, f, g)
        decreases left
      {
        var g :| g in left;
        if Before(times, g, f) { f := g; }
        left := left - {g};
      }
      assert Before(times, f, least) && Before(times, least, f);
    }

    method GetCurrentTime() returns (time: int)
      requires WellFormed(State())
      ensures time == CurrentTime(State())
      ensures FairQueue.Valid(cfg, State()) && !T.Idle(State()) ==> Times.LeastLive(State(), time)
    {
      if FairQueue.Valid(cfg, State()) && !T.Idle(State()) {
        Times.CurrentIsLeast(cfg, State());
      }
      if sendingFlow.Some? {
        return times[sendingFlow.value];
      }
      time := 0;
      var have := false;
      if queuedTree != map[] {
        var first := TreeFirst();
        time, have := times[first], true;
      }
      if previousFlow.Some? {
        if !have || times[previousFlow.value] < time {
          time, have := times[previousFlow.value], true;
        }
      }
      return if have then time else 0;
    }

    method SubtractFromAll(flow: FlowId, subtract: int)
      requires Listed()
      modifies `times
      ensures times == Rebased(old(times), flow, subtract)
    {
      ghost var rebased := Rebased(times, flow, subtract);
      var i := 0;
      while i < |flowsList|
        invariant 0 <= i <= |flowsList|
        invariant times.Keys == old(times).Keys
        invariant forall k :: 0 <= k < i ==> times[flowsList[k]] == rebased[flowsList[k]]
        invariant forall k :: i <= k < |flowsList| ==> times[flowsList[k]] == old(times)[flowsList[k]]
      {
        var someflow := flowsList[i];
        if subtract > times[someflow] && someflow != flow {
          times := times[someflow := 0];
        } else {
          times := times[someflow := Wrap(times[someflow] - subtract)];
        }
        i := i + 1;
      }
    }

    method IncrementSentFlow(flow: FlowId, amount: nat)
      requires Listed() && queuedTree.Keys <= times.Keys && flow in times
      modifies `times
      ensures times == Increment(Bounded, cfg, old(times), queuedTree.Keys, flow, amount)
    {
      if amount > cfg.maxTime - times[flow] {
        var subtract := times[flow];
        if queuedTree != map[] {
          var first := TreeFirst();
          subtract := times[first];
        }
        SubtractFromAll(flow, subtract);
      }
      times := times[flow := Wrap(times[flow] + amount)];
    }

    method Schedule()
      requires WellFormed(State()) && queuedTree != map[]
      modifies `queuedTree, `sendingFlow, `sendingLen
      ensures State() == FairQueue.Schedule(old(State()))
    {
      var qflow := TreeFirst();
      sendingLen := queuedTree[qflow];
      queuedTree := queuedTree - {qflow};
      sendingFlow := Some(qflow);
    }

    method ScheduleJobHandler()
      requires Valid() && Enabled(cfg, State(), Job)
      modifies this
      ensures Valid() && State() == Step(Bounded, cfg, old(State()), Job)
    {
      StepValid(cfg, State(), Job);
      scheduleJob := false;
      previousFlow := None;
      if queuedTree != map[] {
        Schedule();
      }
    }

    method InputHandlerSend(flow: FlowId, dataLen: nat)
      requires Valid() && Enabled(cfg, State(), Send(flow, dataLen))
      modifies this
      ensures Valid() && State() == Step(Bounded, cfg, old(State()), Send(flow, dataLen))
    {
      StepValid(cfg, State(), Send(flow, dataLen));
      if previousFlow == Some(flow) {
        previousFlow := None;
      } else {
        var now := GetCurrentTime();
        times := times[flow := if times[flow] < now then now else times[flow]];
      }
      queuedTree := queuedTree[flow := dataLen];
      if sendingFlow.None? && !scheduleJob {
        Schedule();
      }
    }

    method OutputHandlerDone()
      requires Valid() && Enabled(cfg, State(), Done)
      modifies this
      ensures Valid() && State() == Step(Bounded, cfg, old(State()), Done)
    {
      StepValid(cfg, State(), Done);
      var flow := sendingFlow.value;
      sendingFlow := None;
      previousFlow := Some(flow);
      IncrementSentFlow(flow, cfg.weight + sendingLen);
      scheduleJob := true;
    }

    method FlowInit(flow: FlowId)
      requires Valid() && Enabled(cfg, State(), Init(flow))
      modifies this
      ensures Valid() && State() == Step(Bounded, cfg, old(State()), Init(flow))
    {
      times := times[flow := 0];
      flowsList := flowsList + [flow];
    }

    method FlowFree(flow: FlowId)
      requires Valid() && Enabled(cfg, State(), Free(flow))
      modifies this
      ensures Valid() && State() == Step(Bounded, cfg, old(State()), Free(flow))
    {
      StepValid(cfg, State(), Free(flow));
      Forget(flow);
      Unlist(flow);
    }

    method Forget(flow: FlowId)
      requires WellFormed(State()) && Enabled(cfg, State(), Free(flow))
      modifies `previousFlow, `queuedTree, `times
      ensures State() == Step(Bounded, cfg, old(State()), Free(flow)) && times == old(times) - {flow}
    {
      if previousFlow == Some(flow) {
        previousFlow := None;
      }
      if flow in queuedTree {
        queuedTree := queuedTree - {flow};
      }
      times := times - {flow};
      assert queuedTree == old(queuedTree) - {flow};
    }

    method Unlist(flow: FlowId)
      requires flow in flowsList && flow !in times
      requires forall f :: f in flowsList <==> f in times || f == flow
      requires forall i, j :: 0 <= i < j < |flowsList| ==> flowsList[i] != flowsList[j]
      modifies `flowsList
      ensures Listed()
    {
      var i :| 0 <= i < |flowsList| && flowsList[i] == flow;
      flowsList := flowsList[..i] + flowsList[i + 1..];
      forall f | f in times
        ensures f in flowsList
      {
        var k :| 0 <= k < |old(flowsList)| && old(flowsList)[k] == f;
        assert flowsList[if k < i then k else k - 1] == f;
      }
    }

    method Handle(ev: Event)
      requires Valid() && Enabled(cfg, State(), ev)
      modifies this
      ensures Valid() && State() == Step(Bounded, cfg, old(State()), ev)
    {
      match ev
      case Init(f) => FlowInit(f);
      case Free(f) => FlowFree(f);
      case Send(f, len) => InputHandlerSend(f, len);
      case Done => OutputHandlerDone();
      case Job => ScheduleJobHandler();
    }

    /** Every run of the model is a run of the queue. */
    method HandleAll(evs: seq<Event>)
      requires Valid() && T.Run(Bounded, cfg, State(), evs)
      modifies this
      ensures Valid() && State() == T.Last(Bounded, cfg, old(State()), evs)
    {
      var i := 0;
      assert evs[0..] == evs;
      while i < |evs|
        invariant 0 <= i <= |evs| && Valid() && T.Run(Bounded, cfg, State(), evs[i..])
        invariant T.Last(Bounded, cfg, State(), evs[i..]) == T.Last(Bounded, cfg, old(State()), evs)
      {
        assert evs[i..][1..] == evs[i + 1..];
        Handle(evs[i]);
        i := i + 1;
      }
    }
  }
}
