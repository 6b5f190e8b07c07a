/** What the fair queue guarantees over whole runs of its handlers. */
module FairQueueTheorems {
  import opened Common
  import opened FairQueue

  // ----- runs

  ghost predicate Run(clock: Clock, cfg: Config, q: Queue, evs: seq<Event>)
    decreases |evs|
  {
    evs == [] || (Enabled(cfg, q, evs[0]) && Run(clock, cfg, Step(clock, cfg, q, evs[0]), evs[1..]))
  }

  ghost function Last(clock: Clock, cfg: Config, q: Queue, evs: seq<Event>): Queue
    requires Run(clock, cfg, q, evs)
    decreases |evs|
  {
    if evs == [] then q else Last(clock, cfg, Step(clock, cfg, q, evs[0]), evs[1..])
  }

  /** The flows handed to the output, in order. */
  ghost function Picks(clock: Clock, cfg: Config, q: Queue, evs: seq<Event>): seq<FlowId>
    requires Run(clock, cfg, q, evs)
    decreases |evs|
  {
    if evs == [] then [] else
      var q' := Step(clock, cfg, q, evs[0]);
      var rest := Picks(clock, cfg, q', evs[1..]);
      if q.sending.None? && q'.sending.Some? then [q'.sending.value] + rest else rest
  }

  lemma {:induction false} RunValid(cfg: Config, q: Queue, evs: seq<Event>)
    requires Valid(cfg, q) && Run(Bounded, cfg, q, evs)
    ensures Valid(cfg, Last(Bounded, cfg, q, evs))
    decreases |evs|
  {
    if evs == [] {
    } else {
      StepValid(cfg, q, evs[0]);
      RunValid(cfg, Step(Bounded, cfg, q, evs[0]), evs[1..]);
    }
  }

  // ----- the bounded queue refines the unbounded one

  ghost predicate Idle(q: Queue) {
    q.sending.None? && q.queued == map[] && q.previous.None?
  }

  /** No flow whose time a rebase may have clamped wakes up a queue that is fully idle. */
  ghost predicate Steady(clock: Clock, cfg: Config, q: Queue, evs: seq<Event>)
    requires Run(clock, cfg, q, evs)
    decreases |evs|
  {
    evs != [] ==>
      && (evs[0].Send? && Idle(q) ==> q.times[evs[0].f] > 0)
      && Steady(clock, cfg, Step(clock, cfg, q, evs[0]), evs[1..])
  }

  /** The real times are the ideal ones less `base`, clamped at zero for flows that nobody waits for. */
  ghost predicate Sim(c: Queue, i: Queue, base: nat) {
    && c == i.(times := c.times)
    && c.times.Keys == i.times.Keys
    && (forall f :: f in c.times ==> c.times[f] == if i.times[f] < base then 0 else i.times[f] - base)
    && (forall f :: f in c.times && Live(c, f) ==> base <= i.times[f])
  }

  lemma FirstUnique(times: map<FlowId, int>, queued: set<FlowId>, f: FlowId)
    requires queued <= times.Keys && queued != {} && IsFirst(times, queued, f)
    ensures f == First(times, queued)
  {
    assert Before(times, f, First(times, queued)) && Before(times, First(times, queued), f);
  }

  lemma SimFirst(c: Queue, i: Queue, base: nat)
    requires WellFormed(c) && WellFormed(i) && Sim(c, i, base) && c.queued != map[]
    ensures First(c.times, c.queued.Keys) == First(i.times, i.queued.Keys)
  {
    var f := First(c.times, c.queued.Keys);
    forall g | g in i.queued
      ensures Before(i.times, f, g)
    {
      assert Before(c.times, f, g) && Live(c, f) && Live(c, g);
    }
    FirstUnique(i.times, i.queued.Keys, f);
  }

  lemma SimEnabled(cfg: Config, c: Queue, i: Queue, base: nat, ev: Event)
    requires Enabled(cfg, c, ev) && Sim(c, i, base)
    ensures Enabled(cfg, i, ev)
  {}

  lemma RefineSchedule(c: Queue, i: Queue, base: nat)
    requires WellFormed(c) && WellFormed(i) && Sim(c, i, base) && c.queued != map[]
    ensures Sim(Schedule(c), Schedule(i), base)
  {
    SimFirst(c, i, base);
    assert forall f :: f in c.times && Live(Schedule(c), f) ==> Live(c, f) || f in c.queued;
  }

  lemma RefineCurrentTime(c: Queue, i: Queue, base: nat)
    requires WellFormed(c) && WellFormed(i) && Sim(c, i, base) && !Idle(c)
    ensures CurrentTime(i) == CurrentTime(c) + base
  {
    if c.queued != map[] {
      SimFirst(c, i, base);
      assert Live(c, First(c.times, c.queued.Keys));
    }
    assert c.sending.Some? ==> Live(c, c.sending.value);
    assert c.previous.Some? ==> Live(c, c.previous.value);
  }

  lemma RefineSend(cfg: Config, c: Queue, i: Queue, base: nat, f: FlowId, len: nat)
    requires Valid(cfg, c) && Sim(c, i, base)
    requires Enabled(cfg, c, Send(f, len)) && Enabled(cfg, i, Send(f, len))
    requires Idle(c) ==> c.times[f] > 0
    ensures Sim(Step(Bounded, cfg, c, Send(f, len)), Step(Unbounded, cfg, i, Send(f, len)), base)
  {
    var c1, i1 := Enqueue(c, f, len), Enqueue(i, f, len);
    if c.previous != Some(f) && !Idle(c) {
      RefineCurrentTime(c, i, base);
    }
    assert Sim(c1, i1, base) by {
      assert forall g :: Live(c1, g) ==> Live(c, g) || g == f;
    }
    if c.sending.None? && !c.job {
      RefineSchedule(c1, i1, base);
    }
  }

  lemma RefineTimes(c: Queue, i: Queue, base: nat, f: FlowId, amount: nat, sub: nat, times: map<FlowId, int>)
    requires WellFormed(c) && Sim(c, i, base) && c.sending == Some(f)
    requires times.Keys == c.times.Keys && times[f] == c.times[f] - sub + amount > 0
    requires forall g :: g in c.times && g != f ==> times[g] == if sub > c.times[g] then 0 else c.times[g] - sub
    requires forall g :: g in c.queued ==> sub <= c.times[g]
    ensures Sim(Finish(c, f, times), Finish(i, f, i.times[f := i.times[f] + amount]), base + sub)
  {
    assert Live(c, f);
    assert forall g :: g in c.queued ==> Live(c, g);
  }

  lemma UnboundedDone(cfg: Config, q: Queue)
    requires Enabled(cfg, q, Done)
    ensures var f := q.sending.value;
            Step(Unbounded, cfg, q, Done) == Finish(q, f, q.times[f := q.times[f] + cfg.weight + q.sendingLen])
  {}

  lemma RefineDone(cfg: Config, c: Queue, i: Queue, base: nat) returns (base': nat)
    requires Valid(cfg, c) && Sim(c, i, base)
    requires Enabled(cfg, c, Done) && Enabled(cfg, i, Done)
    ensures Sim(Step(Bounded, cfg, c, Done), Step(Unbounded, cfg, i, Done), base')
  {
    var sub, times := BoundedDone(cfg, c);
    UnboundedDone(cfg, i);
    RefineTimes(c, i, base, c.sending.value, cfg.weight + c.sendingLen, sub, times);
    base' := base + sub;
  }

  /** One handler call: the same effect on both queues, up to a possibly larger base. */
  lemma RefineStep(cfg: Config, c: Queue, i: Queue, base: nat, ev: Event) returns (base': nat)
    requires Valid(cfg, c) && Sim(c, i, base)
    requires Enabled(cfg, c, ev) && Enabled(cfg, i, ev)
    requires ev.Send? && Idle(c) ==> c.times[ev.f] > 0
    ensures Sim(Step(Bounded, cfg, c, ev), Step(Unbounded, cfg, i, ev), base')
  {
    base' := base;
    match ev
    case Init(f) =>
    case Free(f) =>
    case Send(f, len) =>
      RefineSend(cfg, c, i, base, f, len);
    case Done =>
      base' := RefineDone(cfg, c, i, base);
    case Job =>
      var c1, i1 := c.(previous := None, job := false), i.(previous := None, job := false);
      assert forall f :: Live(c1, f) ==> Live(c, f);
      if c.queued != map[] {
        RefineSchedule(c1, i1, base);
      }
  }

  lemma {:induction false} RefineRun(cfg: Config, c: Queue, i: Queue, base: nat, evs: seq<Event>)
    requires Valid(cfg, c) && Sim(c, i, base)
    requires Run(Bounded, cfg, c, evs) && Steady(Bounded, cfg, c, evs)
    ensures Run(Unbounded, cfg, i, evs)
    ensures Picks(Unbounded, cfg, i, evs) == Picks(Bounded, cfg, c, evs)
    decreases |evs|
  {
    if evs == [] {
    } else {
      SimEnabled(cfg, c, i, base, evs[0]);
      var base' := RefineStep(cfg, c, i, base, evs[0]);
      StepValid(cfg, c, evs[0]);
      RefineRun(cfg, Step(Bounded, cfg, c, evs[0]), Step(Unbounded, cfg, i, evs[0]), base', evs[1..]);
    }
  }

  /**
    From any valid state the queue with 64-bit times, clamping and wrap-around rebase picks exactly
    the flows that the queue with unbounded times started from the same state picks, for as long as
    the queue stays busy, and beyond if it is only woken up by flows whose time is not zero.
  */
  lemma SamePicksAsUnbounded(cfg: Config, q: Queue, evs: seq<Event>)
    requires Valid(cfg, q)
    requires Run(Bounded, cfg, q, evs) && Steady(Bounded, cfg, q, evs)
    ensures Run(Unbounded, cfg, q, evs)
    ensures Picks(Unbounded, cfg, q, evs) == Picks(Bounded, cfg, q, evs)
  {
    RefineRun(cfg, q, q, 0, evs);
  }

  // ----- fairness between two backlogged flows

  /** The weighted service that one event completes for flow f. */
  ghost function Served(cfg: Config, q: Queue, ev: Event, f: FlowId): nat {
    if ev.Done? && q.sending == Some(f) then cfg.weight + q.sendingLen else 0
  }

  ghost function Service(cfg: Config, q: Queue, evs: seq<Event>, f: FlowId): nat
    requires Run(Bounded, cfg, q, evs)
    decreases |evs|
  {
    if evs == [] then 0 else
      Served(cfg, q, evs[0], f) + Service(cfg, Step(Bounded, cfg, q, evs[0]), evs[1..], f)
  }

  /** Flow f has a packet waiting or being sent, or was just sent and may still come back, in every state. */
  ghost predicate Backlogged(cfg: Config, q: Queue, evs: seq<Event>, f: FlowId)
    requires Run(Bounded, cfg, q, evs)
    decreases |evs|
  {
    && Live(q, f)
    && (evs != [] ==> Backlogged(cfg, Step(Bounded, cfg, q, evs[0]), evs[1..], f))
  }

  function Max(a: int, b: int): int { if a < b then b else a }

  lemma GapStep(cfg: Config, q: Queue, ev: Event, f: FlowId, g: FlowId)
    requires Valid(cfg, q) && Enabled(cfg, q, ev) && f != g
    requires Live(q, f) && Live(q, g)
    requires var q' := Step(Bounded, cfg, q, ev); Live(q', f) && Live(q', g)
    ensures var q' := Step(Bounded, cfg, q, ev);
            && f in q'.times && g in q'.times
            && q'.times[f] - q'.times[g] == q.times[f] - q.times[g] + Served(cfg, q, ev, f) - Served(cfg, q, ev, g)
            && q'.times[f] - q'.times[g] <= Max(q.times[f] - q.times[g], cfg.weight + cfg.mtu)
  {
    if ev.Done? {
      var _, _ := BoundedDone(cfg, q);
    }
  }

  /**
    While two flows both stay backlogged, the gap between their times is at most the larger of its
    starting value and packet_weight + MTU, and the weighted service they got differs by exactly the
    change of that gap, whatever rebases happen on the way.
  */
  lemma {:induction false} FairShares(cfg: Config, q: Queue, evs: seq<Event>, f: FlowId, g: FlowId)
    requires Valid(cfg, q) && Run(Bounded, cfg, q, evs) && f != g
    requires Backlogged(cfg, q, evs, f) && Backlogged(cfg, q, evs, g)
    ensures var last := Last(Bounded, cfg, q, evs);
            && f in last.times && g in last.times
            && last.times[f] - last.times[g] <= Max(q.times[f] - q.times[g], cfg.weight + cfg.mtu)
            && Service(cfg, q, evs, f) - Service(cfg, q, evs, g)
               == (last.times[f] - last.times[g]) - (q.times[f] - q.times[g])
    decreases |evs|
  {
    if evs == [] {
    } else {
      GapStep(cfg, q, evs[0], f, g);
      StepValid(cfg, q, evs[0]);
      FairShares(cfg, Step(Bounded, cfg, q, evs[0]), evs[1..], f, g);
    }
  }

  // ----- no flow starves

  /** How much the flows in `order` may still be served before f: what a waiting flow f has to sit out. */
  ghost function Deficit(times: map<FlowId, int>, f: FlowId, order: seq<FlowId>): nat
    requires f in times && forall g :: g in order ==> g in times
  {
    if order == [] then 0 else
      (if order[0] == f then 0 else Max(0, times[f] - times[order[0]] + 1) as nat)
      + Deficit(times, f, order[1..])
  }

  /** If no flow falls further behind f, the deficit of f does not grow; if s catches up with f, it shrinks. */
  lemma {:induction false} DeficitMonotone(times: map<FlowId, int>, times': map<FlowId, int>, f: FlowId,
                                           order: seq<FlowId>, s: Option<FlowId>)
    requires f in times && f in times'
    requires forall g :: g in order ==> g in times && g in times'
    requires forall g :: g in order && g != f ==> times'[f] - times'[g] <= times[f] - times[g]
    requires s.Some? ==> s.value in times && s.value in times' && s.value != f
    requires s.Some? ==> times[s.value] <= times[f] && times'[f] - times'[s.value] < times[f] - times[s.value]
    ensures Deficit(times', f, order) <= Deficit(times, f, order)
    ensures s.Some? && s.value in order ==> Deficit(times', f, order) < Deficit(times, f, order)
  {
    if order == [] {
    } else {
      assert forall g :: g in order[1..] ==> g in order;
      DeficitMonotone(times, times', f, order[1..], s);
    }
  }

  lemma DeficitStep(cfg: Config, q: Queue, ev: Event, f: FlowId, order: seq<FlowId>)
    requires Valid(cfg, q) && Enabled(cfg, q, ev) && !ev.Init? && !ev.Free?
    requires f in q.queued
    requires forall g :: g in order <==> g in q.times
    ensures var q' := Step(Bounded, cfg, q, ev);
            && q'.times.Keys == q.times.Keys
            && Deficit(q'.times, f, order) + (if ev.Done? then 1 else 0) <= Deficit(q.times, f, order)
  {
    var q' := Step(Bounded, cfg, q, ev);
    if ev.Done? {
      var _, _ := BoundedDone(cfg, q);
      DeficitMonotone(q.times, q'.times, f, order, q.sending);
    } else {
      DeficitMonotone(q.times, q'.times, f, order, None);
    }
  }

  ghost function Completed(evs: seq<Event>): nat {
    if evs == [] then 0 else (if evs[0].Done? then 1 else 0) + Completed(evs[1..])
  }

  /** Flow f waits in every state of the run, and the set of flows does not change. */
  ghost predicate Waits(cfg: Config, q: Queue, evs: seq<Event>, f: FlowId)
    requires Run(Bounded, cfg, q, evs)
    decreases |evs|
  {
    && f in q.queued
    && (evs != [] ==> !evs[0].Init? && !evs[0].Free? && Waits(cfg, Step(Bounded, cfg, q, evs[0]), evs[1..], f))
  }

  /**
    A waiting flow sits out at most Deficit completed sends, whatever arrives meanwhile, and as long
    as it waits the queue can go on: a send is in progress or the schedule job is set.
  */
  lemma {:induction false} NoStarvation(cfg: Config, q: Queue, evs: seq<Event>, f: FlowId, order: seq<FlowId>)
    requires Valid(cfg, q) && Run(Bounded, cfg, q, evs) && Waits(cfg, q, evs, f)
    requires forall g :: g in order <==> g in q.times
    ensures Completed(evs) <= Deficit(q.times, f, order)
    ensures var last := Last(Bounded, cfg, q, evs); Enabled(cfg, last, Done) || Enabled(cfg, last, Job)
    decreases |evs|
  {
    if evs == [] {
    } else {
      DeficitStep(cfg, q, evs[0], f, order);
      StepValid(cfg, q, evs[0]);
      NoStarvation(cfg, Step(Bounded, cfg, q, evs[0]), evs[1..], f, order);
    }
  }
}
