/**
  The fair queue together with the job list and the interfaces around it: a state machine whose steps
  are the executed jobs and the calls that other code may make in between. It shows what the order
  of jobs is good for: a flow that sends again when its packet is done keeps its place.

  The state of an interface is read off its jobs, as PacketInterface proves it can be: operation
  pending and done pending are its jobs in the list, busy is a packet held by the receiver.
*/
module QueueJobs {
  import opened Common
  import opened FairQueue
  import opened JobStack
  import opened Lists

  datatype Job =
    | ScheduleJob
    | FlowOperation(f: FlowId) | FlowDone(f: FlowId)   // of the input interface of flow f
    | OutOperation | OutDone                           // of the output interface
    | Other(n: nat)                                    // any other job in the program

  /** lens has the length of the packet that the input of a flow was last given. */
  datatype System = System(q: Queue, jobs: seq<Job>, lens: map<FlowId, nat>, outBusy: bool)

  datatype Action =
    | RunFirst                          // run the first job
    | UserSend(f: FlowId, len: nat)     // the user of flow f passes it a packet
    | OutputDone                        // the receiver of the output finishes the packet
    | SetOther(n: nat)
    | UnsetOther(n: nat)
    | FlowInit(f: FlowId)
    | FlowFree(f: FlowId)

  /** The flows whose packet the queue holds. */
  ghost function BusyFlows(q: Queue): set<FlowId> {
    q.queued.Keys + if q.sending.Some? then {q.sending.value} else {}
  }

  /** The input of flow f is idle, so its user may send. */
  ghost predicate InputIdle(s: System, f: FlowId) {
    f in s.q.times && f !in BusyFlows(s.q) && FlowOperation(f) !in s.jobs && FlowDone(f) !in s.jobs
  }

  ghost predicate Can(cfg: Config, s: System, a: Action) {
    match a
    case RunFirst => s.jobs != []
    case UserSend(f, len) => InputIdle(s, f) && len <= cfg.mtu
    case OutputDone => s.outBusy
    case SetOther(_) => true
    case UnsetOther(_) => true
    case FlowInit(f) => Enabled(cfg, s.q, Init(f))
    case FlowFree(f) => Enabled(cfg, s.q, Free(f))
  }

  /** The handler of the queue that an action calls, if any. */
  ghost function QueueEvent(s: System, a: Action): Option<Event>
    requires a.RunFirst? ==> s.jobs != []
  {
    match a
    case RunFirst =>
      (match s.jobs[0]
       case ScheduleJob => Some(Event.Job)
       case FlowOperation(f) => if f in s.lens then Some(Send(f, s.lens[f])) else None
       case OutDone => Some(Done)
       case _ => None)
    case FlowInit(f) => Some(Init(f))
    case FlowFree(f) => Some(Free(f))
    case _ => None
  }

  /**
    The step of everything around the queue; q is the queue after its handler. A newly picked packet goes to
    the output.
  */
  ghost function Around(s: System, a: Action, q: Queue): System
    requires a.RunFirst? ==> s.jobs != []
  {
    match a
    case RunFirst =>
      var rest := s.jobs[1..];
      (match s.jobs[0]
       case ScheduleJob => s.(q := q, jobs := if q.sending.Some? then Push(rest, OutOperation) else rest)
       case FlowOperation(f) =>
         s.(q := q, jobs := if s.q.sending.None? && q.sending.Some? then Push(rest, OutOperation) else rest)
       case OutOperation => s.(jobs := rest, outBusy := true)
       case OutDone =>
         if s.q.sending.None? then s
         else s.(q := q, jobs := Push(Push(rest, ScheduleJob), FlowDone(s.q.sending.value)))
       case _ => s.(jobs := rest))
    case UserSend(f, len) => s.(jobs := Push(s.jobs, FlowOperation(f)), lens := s.lens[f := len])
    case OutputDone => s.(jobs := Push(s.jobs, OutDone), outBusy := false)
    case SetOther(n) => s.(jobs := Push(s.jobs, Other(n)))
    case UnsetOther(n) => s.(jobs := Without(s.jobs, Other(n)))
    case FlowInit(f) => s.(q := q)
    case FlowFree(f) => s.(q := q, jobs := Without(Without(s.jobs, FlowOperation(f)), FlowDone(f)))
  }

  // ----- the invariant

  /** Job a runs before job b, if nothing else happens to them. */
  ghost predicate Above(jobs: seq<Job>, a: Job, b: Job) {
    jobs != [] && if jobs[0] == a then b in jobs[1..] else Above(jobs[1..], a, b)
  }

  /** A flow has at most one of: a pending operation, a pending done, a packet in the queue. */
  ghost predicate FlowsFit(mtu: nat, flows: set<FlowId>, busy: set<FlowId>, jobs: seq<Job>, lens: map<FlowId, nat>) {
    && (forall f :: FlowOperation(f) in jobs ==>
      f in flows && f !in busy && FlowDone(f) !in jobs && f in lens && lens[f] <= mtu)
    && (forall f :: FlowDone(f) in jobs ==> f in flows && f !in busy)
  }

  /** While the queue sends, its packet is in exactly one state of the output; otherwise the output is idle. */
  ghost predicate OutFits(sending: bool, jobs: seq<Job>, outBusy: bool) {
    && (sending <==> outBusy || OutOperation in jobs || OutDone in jobs)
    && (OutOperation in jobs ==> !outBusy && OutDone !in jobs)
    && (OutDone in jobs ==> !outBusy)
  }

  /** The previous flow's own jobs come before the schedule job. */
  ghost predicate OrderFits(previous: Option<FlowId>, job: bool, jobs: seq<Job>) {
    && NoDup(jobs)
    && (ScheduleJob in jobs <==> job)
    && (previous.Some? ==>
          && job
          && (FlowDone(previous.value) in jobs ==> Above(jobs, FlowDone(previous.value), ScheduleJob))
          && (FlowOperation(previous.value) in jobs ==> Above(jobs, FlowOperation(previous.value), ScheduleJob)))
  }

  ghost predicate Fit(mtu: nat, s: System) {
    && FlowsFit(mtu, s.q.times.Keys, BusyFlows(s.q), s.jobs, s.lens)
    && OutFits(s.q.sending.Some?, s.jobs, s.outBusy)
    && OrderFits(s.q.previous, s.q.job, s.jobs)
  }

  ghost predicate Inv(cfg: Config, s: System) {
    FairQueue.Valid(cfg, s.q) && Fit(cfg.mtu, s)
  }

  /** The handlers are only called when they may be. */
  lemma EventEnabled(cfg: Config, s: System, a: Action)
    requires Inv(cfg, s) && Can(cfg, s, a)
    ensures var ev := QueueEvent(s, a); ev.Some? ==> Enabled(cfg, s.q, ev.value)
  {
    if a.RunFirst? {
      assert s.jobs[0] in s.jobs;
    }
  }

  ghost function Next(cfg: Config, s: System, a: Action): System
    requires Inv(cfg, s) && Can(cfg, s, a)
  {
    EventEnabled(cfg, s, a);
    var ev := QueueEvent(s, a);
    Around(s, a, if ev.Some? then Step(Bounded, cfg, s.q, ev.value) else s.q)
  }

  // ----- the invariant is kept

  lemma {:induction false} AboveWithout(jobs: seq<Job>, a: Job, b: Job, x: Job)
    requires Above(jobs, a, b) && x != a && x != b
    ensures Above(Without(jobs, x), a, b)
  {
    if jobs[0] != a {
      AboveWithout(jobs[1..], a, b, x);
    }
    var w := Without(jobs[1..], x);
    assert ([jobs[0]] + w)[1..] == w;
  }

  lemma AbovePush(jobs: seq<Job>, a: Job, b: Job, x: Job)
    requires Above(jobs, a, b) && x != a && x != b
    ensures Above(Push(jobs, x), a, b)
  {
    AboveWithout(jobs, a, b, x);
    assert Push(jobs, x)[1..] == Without(jobs, x);
  }

  lemma PushAbove(jobs: seq<Job>, a: Job, b: Job)
    requires b in jobs && a != b
    ensures Above(Push(jobs, a), a, b)
  {
    assert Push(jobs, a)[1..] == Without(jobs, a);
  }

  /** Pushing a job other than the schedule job keeps the order, wherever the job was before. */
  lemma PushOrder(previous: Option<FlowId>, job: bool, jobs: seq<Job>, x: Job)
    requires OrderFits(previous, job, jobs) && x != ScheduleJob
    ensures OrderFits(previous, job, Push(jobs, x))
  {
    PushNoDup(jobs, x);
    if previous.Some? {
      var done, op := FlowDone(previous.value), FlowOperation(previous.value);
      if x == done || x == op { PushAbove(jobs, x, ScheduleJob); }
      if x != done && done in jobs { AbovePush(jobs, done, ScheduleJob, x); }
      if x != op && op in jobs { AbovePush(jobs, op, ScheduleJob, x); }
    }
  }

  lemma RemoveOrder(previous: Option<FlowId>, job: bool, jobs: seq<Job>, x: Job)
    requires OrderFits(previous, job, jobs) && x != ScheduleJob
    ensures OrderFits(previous, job, Without(jobs, x))
  {
    WithoutNoDup(jobs, x);
    if previous.Some? {
      var done, op := FlowDone(previous.value), FlowOperation(previous.value);
      if x != done && done in jobs { AboveWithout(jobs, done, ScheduleJob, x); }
      if x != op && op in jobs { AboveWithout(jobs, op, ScheduleJob, x); }
    }
  }

  /** Running the first job: no job of the previous flow can be pending beneath a schedule job that runs. */
  lemma TakeOrder(previous: Option<FlowId>, job: bool, jobs: seq<Job>)
    requires OrderFits(previous, job, jobs) && jobs != []
    ensures jobs[0] !in jobs[1..]
    ensures jobs[0] != ScheduleJob ==> OrderFits(previous, job, jobs[1..])
    ensures jobs[0] == ScheduleJob ==> OrderFits(None, false, jobs[1..])
    ensures jobs[0] == ScheduleJob && previous.Some? ==>
              FlowDone(previous.value) !in jobs && FlowOperation(previous.value) !in jobs
  {
    assert forall j :: j in jobs[1..] <==> j in jobs && j != jobs[0];
    if jobs[0] == ScheduleJob && previous.Some? {
      NotAbove(jobs[1..], FlowDone(previous.value), ScheduleJob);
      NotAbove(jobs[1..], FlowOperation(previous.value), ScheduleJob);
    }
  }

  lemma {:induction false} NotAbove(jobs: seq<Job>, a: Job, b: Job)
    requires b !in jobs
    ensures !Above(jobs, a, b)
  {
    if jobs == [] {
    } else {
      NotAbove(jobs[1..], a, b);
    }
  }

  /** What a handler of the queue does, as far as jobs and interfaces can tell. */
  ghost predicate Effect(q: Queue, ev: Event, q': Queue) {
    && q'.times.Keys
      == (match ev case Init(f) => q.times.Keys + {f} case Free(f) => q.times.Keys - {f} case _ => q.times.Keys)
    && BusyFlows(q') == (match ev
                         case Send(f, _) => BusyFlows(q) + {f}
                         case Done => BusyFlows(q) - (if q.sending.Some? then {q.sending.value} else {})
                         case Free(f) => BusyFlows(q) - {f}
                         case _ => BusyFlows(q))
    && q'.previous == (match ev
                       case Init(_) => q.previous
                       case Free(f) => if q.previous == Some(f) then None else q.previous
                       case Send(f, _) => if q.previous == Some(f) then None else q.previous
                       case Done => q.sending
                       case Job => None)
    && q'.job == (match ev case Done => true case Job => false case _ => q.job)
    && (q'.sending.Some? <==> match ev
                              case Send(_, _) => q.sending.Some? || !q.job
                              case Done => false
                              case Job => q.queued != map[]
                              case _ => q.sending.Some?)
  }

  lemma QueueStep(cfg: Config, q: Queue, ev: Event) returns (q': Queue)
    requires FairQueue.Valid(cfg, q) && Enabled(cfg, q, ev)
    ensures q' == Step(Bounded, cfg, q, ev)
    ensures FairQueue.Valid(cfg, q') && Effect(q, ev, q')
  {
    q' := Step(Bounded, cfg, q, ev);
    StepValid(cfg, q, ev);
  }

  lemma CallsKeepFit(cfg: Config, s: System, a: Action)
    requires Fit(cfg.mtu, s) && Can(cfg, s, a) && QueueEvent(s, a).None? && !a.RunFirst?
    ensures Fit(cfg.mtu, Around(s, a, s.q))
  {
    var x := match a
      case UserSend(f, _) => FlowOperation(f)
      case OutputDone => OutDone
      case SetOther(n) => Other(n)
      case UnsetOther(n) => Other(n);
    PushOrder(s.q.previous, s.q.job, s.jobs, x);
    RemoveOrder(s.q.previous, s.q.job, s.jobs, x);
  }

  lemma FlowsKeepFit(mtu: nat, s: System, a: Action, q': Queue)
    requires Fit(mtu, s) && (a.FlowInit? || a.FlowFree?)
    requires a.FlowInit? ==> Effect(s.q, Init(a.f), q')
    requires a.FlowFree? ==> Effect(s.q, Free(a.f), q')
    ensures Fit(mtu, Around(s, a, q'))
  {
    if a.FlowFree? {
      RemoveOrder(s.q.previous, s.q.job, s.jobs, FlowOperation(a.f));
      RemoveOrder(s.q.previous, s.q.job, Without(s.jobs, FlowOperation(a.f)), FlowDone(a.f));
    }
  }

  lemma ScheduleKeepsFit(mtu: nat, s: System, q': Queue)
    requires Fit(mtu, s) && s.jobs != [] && s.jobs[0].ScheduleJob? && s.q.sending.None?
    requires Effect(s.q, Event.Job, q')
    ensures Fit(mtu, Around(s, RunFirst, q'))
  {
    TakeOrder(s.q.previous, s.q.job, s.jobs);
    PushOrder(None, false, s.jobs[1..], OutOperation);
  }

  lemma OperationKeepsFit(mtu: nat, s: System, q': Queue)
    requires Fit(mtu, s) && s.jobs != [] && s.jobs[0].FlowOperation?
    requires s.jobs[0].f in s.lens && Effect(s.q, Send(s.jobs[0].f, s.lens[s.jobs[0].f]), q')
    ensures Fit(mtu, Around(s, RunFirst, q'))
  {
    assert s.jobs[0] in s.jobs;
    TakeOrder(s.q.previous, s.q.job, s.jobs);
    PushOrder(q'.previous, q'.job, s.jobs[1..], OutOperation);
  }

  lemma OutDoneKeepsFit(mtu: nat, s: System, q': Queue)
    requires Fit(mtu, s) && s.jobs != [] && s.jobs[0].OutDone? && s.q.sending.Some? && s.q.previous.None? && !s.q.job
    requires s.q.sending.value in s.q.times && Effect(s.q, Done, q')
    ensures Fit(mtu, s.(q := q', jobs := Push(Push(s.jobs[1..], ScheduleJob), FlowDone(s.q.sending.value))))
  {
    var f, rest := s.q.sending.value, s.jobs[1..];
    assert s.jobs[0] in s.jobs;
    TakeOrder(s.q.previous, s.q.job, s.jobs);
    FinishOrder(rest, f);
    FinishFits(mtu, s, q', Push(Push(rest, ScheduleJob), FlowDone(f)));
  }

  lemma FinishOrder(rest: seq<Job>, f: FlowId)
    requires NoDup(rest) && FlowOperation(f) !in rest
    ensures var jobs := Push(Push(rest, ScheduleJob), FlowDone(f));
            && OrderFits(Some(f), true, jobs)
            && forall j :: j in jobs ==> j in rest || j == ScheduleJob || j == FlowDone(f)
  {
    PushNoDup(rest, ScheduleJob);
    PushNoDup(Push(rest, ScheduleJob), FlowDone(f));
    PushAbove(Push(rest, ScheduleJob), FlowDone(f), ScheduleJob);
  }

  lemma FinishFits(mtu: nat, s: System, q': Queue, jobs: seq<Job>)
    requires FlowsFit(mtu, s.q.times.Keys, BusyFlows(s.q), s.jobs, s.lens) && !s.outBusy
    requires s.q.sending.Some? && s.q.sending.value in s.q.times && Effect(s.q, Done, q')
    requires OrderFits(s.q.sending, true, jobs)
    requires OutOperation !in jobs && OutDone !in jobs
    requires forall j :: j in jobs ==> j in s.jobs || j == ScheduleJob || j == FlowDone(s.q.sending.value)
    ensures Fit(mtu, s.(q := q', jobs := jobs))
  {}

  lemma OthersKeepFit(mtu: nat, s: System)
    requires Fit(mtu, s) && s.jobs != [] && QueueEvent(s, RunFirst).None?
    ensures Fit(mtu, Around(s, RunFirst, s.q))
  {
    assert s.jobs[0] in s.jobs;
    TakeOrder(s.q.previous, s.q.job, s.jobs);
  }

  /** Every step keeps the invariant: the jobs and interfaces always fit the queue. */
  lemma NextKeepsInv(cfg: Config, s: System, a: Action)
    requires Inv(cfg, s) && Can(cfg, s, a)
    ensures Inv(cfg, Next(cfg, s, a))
  {
    EventEnabled(cfg, s, a);
    var ev := QueueEvent(s, a);
    if ev.None? {
      if a.RunFirst? { OthersKeepFit(cfg.mtu, s); } else { CallsKeepFit(cfg, s, a); }
    } else {
      var q' := QueueStep(cfg, s.q, ev.value);
      match ev.value
      case Init(_) => FlowsKeepFit(cfg.mtu, s, a, q');
      case Free(_) => FlowsKeepFit(cfg.mtu, s, a, q');
      case Job => ScheduleKeepsFit(cfg.mtu, s, q');
      case Send(_, _) => OperationKeepsFit(cfg.mtu, s, q');
      case Done => OutDoneKeepsFit(cfg.mtu, s, q');
    }
  }

  // ----- a flow that sends again keeps its place

  ghost predicate Run(cfg: Config, s: System, acts: seq<Action>)
    requires Inv(cfg, s)
    decreases |acts|
  {
    acts != [] ==>
      && Can(cfg, s, acts[0])
      && (NextKeepsInv(cfg, s, acts[0]); Run(cfg, Next(cfg, s, acts[0]), acts[1..]))
  }

  ghost function Last(cfg: Config, s: System, acts: seq<Action>): (r: System)
    requires Inv(cfg, s) && Run(cfg, s, acts)
    ensures Inv(cfg, r)
    decreases |acts|
  {
    if acts == [] then s else
      NextKeepsInv(cfg, s, acts[0]);
      Last(cfg, Next(cfg, s, acts[0]), acts[1..])
  }

  /** The schedule job does not run, and flow f is not freed. */
  ghost predicate BeforePick(cfg: Config, s: System, acts: seq<Action>, f: FlowId)
    requires Inv(cfg, s) && Run(cfg, s, acts)
    decreases |acts|
  {
    acts != [] ==>
      && (acts[0].RunFirst? ==> s.jobs[0] != ScheduleJob)
      && acts[0] != FlowFree(f)
      && (NextKeepsInv(cfg, s, acts[0]); BeforePick(cfg, Next(cfg, s, acts[0]), acts[1..], f))
  }

  /** Flow f finished a packet with time t: it is the previous flow, or it sent again and waits with that time. */
  ghost predicate Keeps(s: System, f: FlowId, t: int) {
    && s.q.job
    && f in s.q.times && s.q.times[f] == t
    && (s.q.previous == Some(f) || f in s.q.queued)
  }

  lemma KeepsStep(cfg: Config, s: System, a: Action, f: FlowId, t: int)
    requires Inv(cfg, s) && Can(cfg, s, a) && Keeps(s, f, t)
    requires a != FlowFree(f) && (a.RunFirst? ==> s.jobs[0] != ScheduleJob)
    ensures Keeps(Next(cfg, s, a), f, t)
    ensures InputIdle(Next(cfg, s, a), f) ==> InputIdle(s, f) || a.RunFirst?
  {
    if a.RunFirst? {
      assert s.jobs[0] in s.jobs;
    }
  }

  /** Flow f has been given another packet. */
  ghost predicate Sent(s: System, f: FlowId) {
    FlowOperation(f) in s.jobs || f in s.q.queued
  }

  lemma SentStep(cfg: Config, s: System, a: Action, f: FlowId)
    requires Inv(cfg, s) && Can(cfg, s, a) && s.q.job && f in s.q.times
    requires a != FlowFree(f) && (a.RunFirst? ==> s.jobs[0] != ScheduleJob)
    ensures Sent(s, f) || (a.UserSend? && a.f == f) ==> Sent(Next(cfg, s, a), f)
  {
    if a.RunFirst? {
      assert s.jobs[0] in s.jobs;
    }
  }

  lemma {:induction false} KeepsRun(cfg: Config, s: System, acts: seq<Action>, f: FlowId, t: int)
    requires Inv(cfg, s) && Run(cfg, s, acts) && BeforePick(cfg, s, acts, f) && Keeps(s, f, t)
    ensures Keeps(Last(cfg, s, acts), f, t)
    ensures Sent(s, f) || (exists a :: a in acts && a.UserSend? && a.f == f) ==> Sent(Last(cfg, s, acts), f)
    decreases |acts|
  {
    if acts == [] {
    } else {
      NextKeepsInv(cfg, s, acts[0]);
      KeepsStep(cfg, s, acts[0], f, t);
      SentStep(cfg, s, acts[0], f);
      KeepsRun(cfg, Next(cfg, s, acts[0]), acts[1..], f, t);
    }
  }

  /**
    A flow whose packet is done and that is given another one before the schedule job runs, from
    whatever job, waits in the queue with its time kept when the next flow is picked.
  */
  lemma ResentKeepsPlace(cfg: Config, s: System, acts: seq<Action>, f: FlowId)
    requires Inv(cfg, s) && s.q.previous == Some(f)
    requires Run(cfg, s, acts) && BeforePick(cfg, s, acts, f)
    requires exists a :: a in acts && a.UserSend? && a.f == f
    requires var jobs := Last(cfg, s, acts).jobs; jobs != [] && jobs[0] == ScheduleJob
    ensures var q := Last(cfg, s, acts).q; f in q.queued && q.times[f] == s.q.times[f]
  {
    var last := Last(cfg, s, acts);
    KeepsRun(cfg, s, acts, f, s.q.times[f]);
    TakeOrder(last.q.previous, last.q.job, last.jobs);
  }
}
