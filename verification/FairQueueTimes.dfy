/** What the times of the fair queue mean: where flows join, what a send costs, and what a rebase takes away. */
module FairQueueTimes {
  import opened Common
  import opened FairQueue
  import opened FairQueueTheorems

  // ----- the current time

  /** t is the least time of the flows that wait, are being sent, or were just sent. */
  ghost predicate LeastLive(q: Queue, t: int) {
    && (exists f :: f in q.times && Live(q, f) && q.times[f] == t)
    && forall f :: f in q.times && Live(q, f) ==> t <= q.times[f]
  }

  /** The current time of a queue that is not idle is the least time of these flows. */
  lemma CurrentIsLeast(cfg: Config, q: Queue)
    requires Valid(cfg, q) && !Idle(q)
    ensures LeastLive(q, CurrentTime(q))
  {
    if q.sending.Some? {
      assert Live(q, q.sending.value);
    } else {
      if q.queued != map[] {
        var f := First(q.times, q.queued.Keys);
        assert Live(q, f) && forall g :: g in q.queued ==> Before(q.times, f, g);
      }
      assert q.previous.Some? ==> Live(q, q.previous.value);
    }
  }

  /**
    A flow that gets a packet has, if it was the one sent last, the time it had; otherwise the larger of that and the
    least time of the live flows, and in an idle queue the time it had. No other time changes.
  */
  lemma JoinTime(clock: Clock, cfg: Config, q: Queue, f: FlowId, len: nat, least: int)
    requires Valid(cfg, q) && Enabled(cfg, q, Send(f, len)) && (!Idle(q) ==> LeastLive(q, least))
    ensures var t := if q.previous == Some(f) || Idle(q) then q.times[f] else Max(q.times[f], least);
            Step(clock, cfg, q, Send(f, len)).times == q.times[f := t]
  {
    if Idle(q) {
      assert q.times[f := q.times[f]] == q.times;
    } else {
      CurrentIsLeast(cfg, q);
    }
    assert q.previous == Some(f) ==> q.times[f := q.times[f]] == q.times;
  }

  // ----- what a completed send does to the times

  /** t is the least time of the waiting flows. */
  ghost predicate LeastQueued(q: Queue, t: int) {
    && (exists f :: f in q.queued && f in q.times && q.times[f] == t)
    && forall f :: f in q.queued && f in q.times ==> t <= q.times[f]
  }

  /**
    The flow that was sent is charged the weight and the length of its packet, and no other time changes, unless its
    time would be over the largest one. Then all times are lowered by the least of the waiting flows, or by the time
    of the flow that was sent if none waits, and those that were smaller become 0.
  */
  lemma DoneMeans(cfg: Config, q: Queue, least: int, g: FlowId)
    requires Valid(cfg, q) && Enabled(cfg, q, Done) && g in q.times
    requires if q.queued == map[] then least == q.times[q.sending.value] else LeastQueued(q, least)
    ensures var f, amount := q.sending.value, cfg.weight + q.sendingLen;
            var sub := if q.times[f] + amount <= cfg.maxTime then 0 else least;
            var q' := Step(Bounded, cfg, q, Done);
            && g in q'.times
            && q'.times[g] == (if g == f then q.times[f] + amount - sub else Max(0, q.times[g] - sub))
            && q'.previous == Some(f) && q'.sending.None? && q'.job && q'.queued == q.queued
  {
    if q.queued != map[] {
      var first := First(q.times, q.queued.Keys);
      assert forall h :: h in q.queued ==> Before(q.times, first, h);
    }
    assert q.queued == map[] <==> q.queued.Keys == {};
  }

  // ----- a flow that has not sent before

  /** Neither the flow's packets nor its end are among the events. */
  predicate Quiet(evs: seq<Event>, f: FlowId) {
    forall k :: 0 <= k < |evs| ==> !(evs[k].Send? && evs[k].f == f) && evs[k] != Free(f)
  }

  lemma {:induction false} StaysAtZero(cfg: Config, q: Queue, f: FlowId, evs: seq<Event>)
    requires Valid(cfg, q) && f in q.times && q.times[f] == 0 && !Live(q, f) && Run(Bounded, cfg, q, evs)
    requires Quiet(evs, f)
    ensures var last := Last(Bounded, cfg, q, evs);
            Valid(cfg, last) && f in last.times && last.times[f] == 0 && !Live(last, f)
    decreases |evs|
  {
    if evs == [] {
    } else {
      var q' := Step(Bounded, cfg, q, evs[0]);
      StepValid(cfg, q, evs[0]);
      if evs[0].Done? {
        var _, _ := BoundedDone(cfg, q);
      }
      assert forall k :: 0 <= k < |evs[1..]| ==> evs[1..][k] == evs[k + 1];
      StaysAtZero(cfg, q', f, evs[1..]);
    }
  }

  /**
    However long ago a flow was made, if it has not sent before and the queue is not idle, its first packet is queued
    at exactly the least time of the live flows: it is neither owed for its silence nor behind any of them.
  */
  lemma FirstPacketJoins(cfg: Config, q: Queue, f: FlowId, evs: seq<Event>, len: nat, least: int)
    requires Valid(cfg, q) && Enabled(cfg, q, Init(f)) && Quiet(evs, f)
    requires Run(Bounded, cfg, Step(Bounded, cfg, q, Init(f)), evs)
    requires var last := Last(Bounded, cfg, Step(Bounded, cfg, q, Init(f)), evs);
             Enabled(cfg, last, Send(f, len)) && !Idle(last) && LeastLive(last, least)
    ensures var last := Last(Bounded, cfg, Step(Bounded, cfg, q, Init(f)), evs);
            Step(Bounded, cfg, last, Send(f, len)).times == last.times[f := least]
  {
    var q' := Step(Bounded, cfg, q, Init(f));
    StepValid(cfg, q, Init(f));
    StaysAtZero(cfg, q', f, evs);
    JoinTime(Bounded, cfg, Last(Bounded, cfg, q', evs), f, len, least);
  }

  // ----- what a flow is charged for

  /** The length of the last packet that each flow got, after these events. */
  function Lengths(was: map<FlowId, nat>, evs: seq<Event>): map<FlowId, nat>
    decreases |evs|
  {
    if evs == [] then was
    else Lengths(if evs[0].Send? then was[evs[0].f := evs[0].len] else was, evs[1..])
  }

  /** The packets that wait or are being sent have these lengths. */
  ghost predicate HasLengths(q: Queue, lens: map<FlowId, nat>) {
    && (forall f :: f in q.queued ==> f in lens && lens[f] == q.queued[f])
    && (q.sending.Some? ==> q.sending.value in lens && lens[q.sending.value] == q.sendingLen)
  }

  lemma {:induction false} ChargedForPacket(clock: Clock, cfg: Config, q: Queue, lens: map<FlowId, nat>,
                                            evs: seq<Event>)
    requires Run(clock, cfg, q, evs) && HasLengths(q, lens)
    ensures HasLengths(Last(clock, cfg, q, evs), Lengths(lens, evs))
    decreases |evs|
  {
    if evs == [] {
    } else {
      var lens' := if evs[0].Send? then lens[evs[0].f := evs[0].len] else lens;
      ChargedForPacket(clock, cfg, Step(clock, cfg, q, evs[0]), lens', evs[1..]);
    }
  }

  /** In every run, what is charged for a packet is the weight and the length that the packet was sent with. */
  lemma ChargedInEveryRun(cfg: Config, evs: seq<Event>)
    requires cfg.Valid() && Run(Bounded, cfg, EMPTY, evs)
    ensures HasLengths(Last(Bounded, cfg, EMPTY, evs), Lengths(map[], evs))
  {
    ChargedForPacket(Bounded, cfg, EMPTY, map[], evs);
  }
}
