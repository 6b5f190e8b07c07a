/**
  The virtual-time fair queue of flow/PacketPassFairQueue.c.

  A flow is named by its address, which also breaks ties in the queued tree. `Queue` is a snapshot
  of the C structure and the step functions say what each handler does to it. They are shared by the
  real queue (`Bounded`: 64-bit times, clamping, wrap-around rebase) and by the queue one would like
  to have (`Unbounded`: the same handlers over plain integers, never rebased).
*/
module FairQueue {
  import opened Common

  type FlowId = nat

  const TWO64: int := 0x1_0000_0000_0000_0000

  /** weight is packet_weight; maxTime is FAIRQUEUE_MAX_TIME. */
  datatype Config = Config(weight: nat, mtu: nat, maxTime: nat) {
    ghost predicate Valid() {
      0 < weight && weight + mtu <= maxTime < TWO64
    }
  }

  datatype Clock = Bounded | Unbounded

  datatype Queue = Queue(
    times: map<FlowId, int>,      // every flow, with its virtual time
    queued: map<FlowId, nat>,     // the queued tree: waiting flows with their packet lengths
    sending: Option<FlowId>,
    sendingLen: nat,
    previous: Option<FlowId>,
    job: bool                     // is the schedule job set?
  )

  datatype Event =
    | Init(f: FlowId)
    | Free(f: FlowId)
    | Send(f: FlowId, len: nat)   // input_handler_send
    | Done                        // output_handler_done
    | Job                         // schedule_job_handler

  // ----- the queued tree

  /** Order of the queued tree: by time, then by address. */
  predicate Before(times: map<FlowId, int>, f: FlowId, g: FlowId)
    requires f in times && g in times
  {
    times[f] < times[g] || (times[f] == times[g] && f <= g)
  }

  ghost predicate IsFirst(times: map<FlowId, int>, queued: set<FlowId>, f: FlowId)
    requires queued <= times.Keys
  {
    f in queued && forall g :: g in queued ==> Before(times, f, g)
  }

  lemma {:induction false} FirstExists(times: map<FlowId, int>, queued: set<FlowId>)
    requires queued <= times.Keys && queued != {}
    ensures exists f :: IsFirst(times, queued, f)
    decreases queued
  {
    var f :| f in queued;
    if queued == {f} {
      assert IsFirst(times, queued, f);
    } else {
      FirstExists(times, queued - {f});
      var g :| IsFirst(times, queued - {f}, g);
      var first := if Before(times, f, g) then f else g;
      assert forall h :: h in queued ==> h == f || h in queued - {f};
      assert IsFirst(times, queued, first);
    }
  }

  ghost function First(times: map<FlowId, int>, queued: set<FlowId>): (f: FlowId)
    requires queued <= times.Keys && queued != {}
    ensures IsFirst(times, queued, f)
  {
    FirstExists(times, queued);
    var f :| IsFirst(times, queued, f);
    f
  }

  // ----- what the handlers do

  ghost predicate WellFormed(q: Queue) {
    && q.queued.Keys <= q.times.Keys
    && (q.sending.Some? ==> q.sending.value in q.times && q.sending.value !in q.queued)
    && (q.previous.Some? ==> q.previous.value in q.times && q.previous.value !in q.queued)
  }

  ghost predicate Enabled(cfg: Config, q: Queue, ev: Event) {
    && WellFormed(q)
    && match ev
       case Init(f) => f !in q.times
       case Free(f) => f in q.times && q.sending != Some(f)
       case Send(f, len) => f in q.times && f !in q.queued && q.sending != Some(f) && len <= cfg.mtu
       case Done => q.sending.Some? && q.previous.None? && !q.job
       case Job => q.sending.None? && q.job
  }

  ghost function CurrentTime(q: Queue): int
    requires WellFormed(q)
  {
    if q.sending.Some? then q.times[q.sending.value]
    else if q.queued == map[] then
      if q.previous.Some? then q.times[q.previous.value] else 0
    else
      var t := q.times[First(q.times, q.queued.Keys)];
      if q.previous.Some? && q.times[q.previous.value] < t then q.times[q.previous.value] else t
  }

  /** The time that a rebase takes away, when flow f has just finished sending. */
  ghost function Subtract(times: map<FlowId, int>, queued: set<FlowId>, f: FlowId): int
    requires queued <= times.Keys && f in times
  {
    if queued == {} then times[f] else times[First(times, queued)]
  }

  /** A uint64_t sum or difference: a result outside the type wraps around once. */
  function Wrap(x: int): int {
    if x < 0 then x + TWO64 else if x >= TWO64 then x - TWO64 else x
  }

  /** Every flow loses `sub`, clamped at zero, except f, which may wrap around below zero. */
  function Rebased(times: map<FlowId, int>, f: FlowId, sub: int): map<FlowId, int> {
    map g | g in times :: if sub > times[g] && g != f then 0 else Wrap(times[g] - sub)
  }

  ghost function Increment(clock: Clock, cfg: Config, times: map<FlowId, int>, queued: set<FlowId>, f: FlowId,
                           amount: nat)
    : map<FlowId, int>
    requires queued <= times.Keys && f in times
  {
    match clock
    case Unbounded => times[f := times[f] + amount]
    case Bounded =>
      var base := if amount > cfg.maxTime - times[f] then Rebased(times, f, Subtract(times, queued, f)) else times;
      base[f := Wrap(base[f] + amount)]
  }

  function Finish(q: Queue, f: FlowId, times: map<FlowId, int>): Queue {
    q.(sending := None, previous := Some(f), job := true, times := times)
  }

  ghost function Schedule(q: Queue): Queue
    requires WellFormed(q) && q.queued != map[]
  {
    var f := First(q.times, q.queued.Keys);
    q.(queued := q.queued - {f}, sending := Some(f), sendingLen := q.queued[f])
  }

  /** Flow f joins the tree: the previous flow with its time kept, any other flow not behind the current time. */
  ghost function Enqueue(q: Queue, f: FlowId, len: nat): (r: Queue)
    requires WellFormed(q) && f in q.times && f !in q.queued && q.sending != Some(f)
    ensures WellFormed(r) && f in r.queued
  {
    var raised :=
      if q.previous == Some(f) then q.(previous := None)
      else q.(times := q.times[f := if q.times[f] < CurrentTime(q) then CurrentTime(q) else q.times[f]]);
    raised.(queued := q.queued[f := len])
  }

  ghost function Step(clock: Clock, cfg: Config, q: Queue, ev: Event): Queue
    requires Enabled(cfg, q, ev)
  {
    match ev
    case Init(f) => q.(times := q.times[f := 0])
    case Free(f) =>
      q.(times := q.times - {f}, queued := q.queued - {f},
         previous := if q.previous == Some(f) then None else q.previous)
    case Send(f, len) =>
      if q.sending.None? && !q.job then Schedule(Enqueue(q, f, len)) else Enqueue(q, f, len)
    case Done =>
      var f := q.sending.value;
      Finish(q, f, Increment(clock, cfg, q.times, q.queued.Keys, f, cfg.weight + q.sendingLen))
    case Job =>
      var cleared := q.(previous := None, job := false);
      if q.queued == map[] then cleared else Schedule(cleared)
  }

  // ----- the invariant

  ghost predicate Live(q: Queue, f: FlowId) {
    f in q.queued || q.sending == Some(f) || q.previous == Some(f)
  }

  /**
    What holds between handlers. The third line from the end is the heart of it: the flow being sent
    is never ahead of a waiting one.
  */
  ghost predicate Valid(cfg: Config, q: Queue) {
    && cfg.Valid()
    && WellFormed(q)
    && (forall f :: f in q.times ==> 0 <= q.times[f] <= cfg.maxTime)
    && (q.sending.Some? ==> q.sendingLen <= cfg.mtu)
    && (forall f :: f in q.queued ==> q.queued[f] <= cfg.mtu)
    && (q.sending.Some? ==> forall f :: f in q.queued ==> q.times[q.sending.value] <= q.times[f])
    && (q.sending.Some? ==> q.previous.None? && !q.job)
    && (q.sending.None? && !q.job ==> q.queued == map[] && q.previous.None?)
  }

  const EMPTY := Queue(map[], map[], None, 0, None, false)

  lemma EmptyValid(cfg: Config)
    requires cfg.Valid()
    ensures Valid(cfg, EMPTY)
  {}

  /**
    The effect of a completed send. Although the subtraction may wrap below zero for the finished
    flow, adding the amount brings it back to its true value, which a rebase leaves in (0, amount].
    No waiting flow is clamped.
  */
  lemma BoundedDone(cfg: Config, q: Queue) returns (sub: nat, times: map<FlowId, int>)
    requires Valid(cfg, q) && Enabled(cfg, q, Done)
    ensures var f, amount := q.sending.value, cfg.weight + q.sendingLen;
            && Step(Bounded, cfg, q, Done) == Finish(q, f, times)
            && times.Keys == q.times.Keys
            && times[f] == q.times[f] - sub + amount
            && 0 < times[f] <= cfg.maxTime
            && (sub > 0 ==> times[f] <= amount)
            && (forall g :: g in q.times && g != f ==> times[g] == if sub > q.times[g] then 0 else q.times[g] - sub)
            && (forall g :: g in q.queued ==> sub <= q.times[g])
  {
    var f, amount := q.sending.value, cfg.weight + q.sendingLen;
    sub := if amount > cfg.maxTime - q.times[f] then Subtract(q.times, q.queued.Keys, f) else 0;
    times := Increment(Bounded, cfg, q.times, q.queued.Keys, f, amount);
  }

  /** Every handler keeps the invariant. */
  lemma StepValid(cfg: Config, q: Queue, ev: Event)
    requires Valid(cfg, q) && Enabled(cfg, q, ev)
    ensures Valid(cfg, Step(Bounded, cfg, q, ev))
  {
    if ev.Done? {
      var _, _ := BoundedDone(cfg, q);
    }
  }
}
