/**
  The sender-receiver interface of flow/PacketPassInterface.h and .c: four states and three jobs in
  the shared job list.
*/
module PacketInterface {
  import opened JobStack
  import opened Lists

  datatype State = None | OperationPending | Busy | DonePending

  datatype Kind = Operation | RequestCancel | Done

  /** The jobs of all interfaces share one list; `owner` tells the interfaces apart. */
  datatype Job = Job(owner: nat, kind: Kind)

  /** What the two sides call, and the jobs that call back: RunX runs job X and calls its handler. */
  datatype Call = Send | CallDone | CallRequestCancel | RunOperation | RunRequestCancel | RunDone

  datatype Iface = Iface(state: State, cancelRequested: bool, cancelJob: bool)

  const IDLE := Iface(None, false, false)

  /** RequestCancel needs a handler for it; the model covers interfaces with cancel enabled. */
  predicate Enabled(s: Iface, call: Call) {
    match call
    case Send => s.state == None
    case CallDone => s.state == Busy
    case CallRequestCancel => s.state != None
    case RunOperation => s.state == OperationPending
    case RunRequestCancel => s.cancelJob
    case RunDone => s.state == DonePending
  }

  function Step(s: Iface, call: Call): Iface
    requires Enabled(s, call)
  {
    match call
    case Send => s.(state := OperationPending, cancelRequested := false)
    case CallDone => s.(state := DonePending, cancelJob := false)
    case CallRequestCancel =>
      if s.cancelRequested then s
      else if s.state == OperationPending then s.(state := DonePending, cancelRequested := true)
      else if s.state == Busy then s.(cancelRequested := true, cancelJob := true)
      else s.(cancelRequested := true)
    case RunOperation => s.(state := Busy)
    case RunRequestCancel => s.(cancelJob := false)
    case RunDone => s.(state := None)
  }

  class PacketPassInterface {
    const id: nat
    const group: BPendingGroup<Job>
    var state: State
    var cancelRequested: bool

    ghost function Local(): Iface
      reads this, group
    {
      Iface(state, cancelRequested, Job(id, RequestCancel) in group.jobs)
    }

    /** Each job is set exactly in its matching state. */
    ghost predicate Valid()
      reads this, group
    {
      && group.Valid()
      && (Job(id, Operation) in group.jobs <==> state == OperationPending)
      && (Job(id, Done) in group.jobs <==> state == DonePending)
      && (Job(id, RequestCancel) in group.jobs ==> state == Busy && cancelRequested)
    }

    constructor (id: nat, group: BPendingGroup<Job>)
      requires group.Valid() && forall k :: Job(id, k) !in group.jobs
      ensures Valid() && this.id == id && this.group == group && Local() == IDLE
    {
      this.id, this.group := id, group;
      state, cancelRequested := None, false;
    }

    method SenderSend()
      requires Valid() && Enabled(Local(), Send)
      modifies this, group
      ensures Valid() && Local() == Step(old(Local()), Send)
      ensures group.jobs == Push(old(group.jobs), Job(id, Operation))
    {
      group.Set(Job(id, Operation));
      state := OperationPending;
      cancelRequested := false;
    }

    method ReceiverDone()
      requires Valid() && Enabled(Local(), CallDone)
      modifies this, group
      ensures Valid() && Local() == Step(old(Local()), CallDone)
      ensures group.jobs == Push(Without(old(group.jobs), Job(id, RequestCancel)), Job(id, Done))
    {
      group.Unset(Job(id, RequestCancel));
      group.Set(Job(id, Done));
      state := DonePending;
    }

    method SenderRequestCancel()
      requires Valid() && Enabled(Local(), CallRequestCancel)
      modifies this, group
      ensures Valid() && Local() == Step(old(Local()), CallRequestCancel)
      ensures group.jobs ==
        if old(cancelRequested) || old(state) == DonePending then old(group.jobs)
        else if old(state) == OperationPending then Push(Without(old(group.jobs), Job(id, Operation)), Job(id, Done))
        else Push(old(group.jobs), Job(id, RequestCancel))
    {
      if cancelRequested {
        return;
      }
      cancelRequested := true;
      if state == OperationPending {
        group.Unset(Job(id, Operation));
        group.Set(Job(id, Done));
        state := DonePending;
      } else if state == Busy {
        group.Set(Job(id, RequestCancel));
      }
    }

    /** Takes the first job of the list, which is one of this interface's, and says which handler it calls. */
    method ExecuteJob() returns (call: Call)
      requires Valid() && group.jobs != [] && group.jobs[0].owner == id
      modifies this, group
      ensures call == match old(group.jobs)[0].kind
                      case Operation => RunOperation
                      case RequestCancel => RunRequestCancel
                      case Done => RunDone
      ensures old(Enabled(Local(), call))
      ensures Valid() && Local() == Step(old(Local()), call)
      ensures group.jobs == old(group.jobs)[1..]
    {
      var job := group.TakeJob();
      assert forall j :: j in old(group.jobs) <==> j == job || j in group.jobs;
      match job.kind
      case Operation =>
        state := Busy;
        call := RunOperation;
      case RequestCancel =>
        call := RunRequestCancel;
      case Done =>
        state := None;
        call := RunDone;
    }
  }

  // ----- what one accepted Send leads to

  ghost predicate Run(s: Iface, calls: seq<Call>)
    decreases |calls|
  {
    calls != [] ==> Enabled(s, calls[0]) && Run(Step(s, calls[0]), calls[1..])
  }

  function Last(s: Iface, calls: seq<Call>): Iface
    requires Run(s, calls)
    decreases |calls|
  {
    if calls == [] then s else Last(Step(s, calls[0]), calls[1..])
  }

  function Count(calls: seq<Call>, c: Call): nat {
    if calls == [] then 0 else (if calls[0] == c then 1 else 0) + Count(calls[1..], c)
  }

  /** How many of each callback are still to come at most, from a state between a Send and the next one. */
  function Left(s: Iface, c: Call): nat {
    match c
    case RunOperation => if s.state == OperationPending then 1 else 0
    case RunDone => if s.state == None then 0 else 1
    case RunRequestCancel => if s.cancelJob || (s.state != None && !s.cancelRequested) then 1 else 0
    case _ => 0
  }

  lemma {:induction false} CallbacksLeft(s: Iface, calls: seq<Call>)
    requires s.cancelJob ==> s.state == Busy && s.cancelRequested
    requires Run(s, calls) && Send !in calls
    ensures Count(calls, RunOperation) <= Left(s, RunOperation)
    ensures Count(calls, RunRequestCancel) <= Left(s, RunRequestCancel)
    ensures Count(calls, RunDone) + Left(Last(s, calls), RunDone) == Left(s, RunDone)
    ensures CallRequestCancel !in calls && Last(s, calls).state in {Busy, DonePending, None} ==>
              Count(calls, RunOperation) == Left(s, RunOperation)
    decreases |calls|
  {
    if calls == [] {
    } else {
      assert forall c :: c in calls[1..] ==> c in calls;
      CallbacksLeft(Step(s, calls[0]), calls[1..]);
    }
  }

  /**
    Between one accepted Send and the next the operation handler and the cancel handler are called at
    most once and the done handler is called exactly when the interface is idle again; unless the
    sender cancels, the packet was handed over exactly once by then. After the done handler nothing
    happens until the next Send.
  */
  lemma OneOperationOneDone(s: Iface, calls: seq<Call>)
    requires s.state == None && !s.cancelJob
    requires Run(Step(s, Send), calls) && Send !in calls
    ensures var last := Last(Step(s, Send), calls);
            && Count(calls, RunOperation) <= 1
            && Count(calls, RunRequestCancel) <= 1
            && Count(calls, RunDone) == (if last.state == None then 1 else 0)
            && (last.state == None && CallRequestCancel !in calls ==> Count(calls, RunOperation) == 1)
            && (last.state == None ==> forall c :: Enabled(last, c) ==> c == Send)
  {
    CallbacksLeft(Step(s, Send), calls);
    CancelJobOnlyBusy(Step(s, Send), calls);
  }

  lemma {:induction false} CancelJobOnlyBusy(s: Iface, calls: seq<Call>)
    requires s.cancelJob ==> s.state == Busy && s.cancelRequested
    requires Run(s, calls)
    ensures Last(s, calls).cancelJob ==> Last(s, calls).state == Busy
    decreases |calls|
  {
    if calls == [] {
    } else {
      CancelJobOnlyBusy(Step(s, calls[0]), calls[1..]);
    }
  }

  // ----- the state, told from the calls since the Send

  /**
    The calls alone, in whatever order they came, say where the packet is: an operation that was cancelled before it
    started is not started any more; one that was started is over when the receiver says so.
  */
  function StateOf(calls: set<Call>): State {
    if RunDone in calls then None
    else if CallDone in calls || (CallRequestCancel in calls && RunOperation !in calls) then DonePending
    else if RunOperation in calls then Busy
    else OperationPending
  }

  /** The receiver is yet to be told of the cancel: it has the packet, and was not told before. */
  predicate ToTell(calls: set<Call>) {
    StateOf(calls) == Busy && CallRequestCancel in calls && RunRequestCancel !in calls
  }

  ghost predicate AsCalled(s: Iface, calls: set<Call>) {
    && s == Iface(StateOf(calls), CallRequestCancel in calls, ToTell(calls))
    && (CallDone in calls ==> RunOperation in calls) && (RunRequestCancel in calls ==> CallRequestCancel in calls)
  }

  lemma AsCalledStep(s: Iface, was: set<Call>, c: Call)
    requires AsCalled(s, was) && Enabled(s, c) && c != Send
    ensures AsCalled(Step(s, c), was + {c})
  {
    assert forall x :: x in was + {c} <==> x in was || x == c;
  }

  lemma {:induction false} AsCalledRun(s: Iface, was: set<Call>, calls: seq<Call>)
    requires AsCalled(s, was) && Run(s, calls) && Send !in calls
    ensures AsCalled(Last(s, calls), was + set c | c in calls)
    decreases |calls|
  {
    if calls == [] {
      assert was + (set c | c in calls) == was;
    } else {
      assert forall c :: c in calls <==> c == calls[0] || c in calls[1..];
      AsCalledStep(s, was, calls[0]);
      AsCalledRun(Step(s, calls[0]), was + {calls[0]}, calls[1..]);
      assert was + (set c | c in calls) == was + {calls[0]} + set c | c in calls[1..];
    }
  }

  /** Between two Sends, the state of the interface is what the calls since the first say. */
  lemma StateIsAsCalled(s: Iface, calls: seq<Call>)
    requires s.state == None && !s.cancelJob
    requires Run(Step(s, Send), calls) && Send !in calls
    ensures AsCalled(Last(Step(s, Send), calls), set c | c in calls)
  {
    AsCalledRun(Step(s, Send), {}, calls);
    assert {} + (set c | c in calls) == set c | c in calls;
  }
}
