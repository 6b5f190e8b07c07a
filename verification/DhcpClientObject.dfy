/** The DHCP client as the C code runs it, with its fields and timers changed by the handlers. */
module DhcpClientObject {
  import opened Common
  import opened DhcpClient

  class BDHCPClientCore {
    var phase: Phase
    var resetTimer: Option<int>
    var requestTimer: Option<int>
    var renewTimer: Option<int>
    var renewRequestTimer: Option<int>
    var leaseTimer: Option<int>
    var xid: nat
    var xidReuseCounter: nat
    var requestCount: nat
    var offeredAddr: nat
    var offeredServer: nat
    var ackedLease: nat
    var sending: bool
    ghost var xids: nat
    ghost var acked: int
    ghost var now: int
    ghost var log: seq<Log>

    ghost function Now(): State
      reads this
    {
      State(phase, Timers(resetTimer, requestTimer, renewTimer, renewRequestTimer, leaseTimer), xid, xids,
            xidReuseCounter, requestCount, offeredAddr, offeredServer, ackedLease, acked, sending, now, log)
    }

    constructor (xid: nat, time: int)
      ensures Now() == Start(xid, time)
    {
      phase := Resetting;
      resetTimer, requestTimer, renewTimer, renewRequestTimer, leaseTimer := None, None, None, None, None;
      this.xid, xidReuseCounter, requestCount := 0, 0, 0;
      offeredAddr, offeredServer, ackedLease, sending := 0, 0, 0, false;
      xids, acked, now, log := 0, time, time, [];
      new;
      StartProcess(true, xid, time);
    }

    method SendDiscoverMessage()
      modifies `sending, `log
      ensures sending && log == SendMessage(old(sending), old(log), Discover(xids))
    {
      if sending { return; }
      sending := true;
      log := Snoc(log, Discover(xids));
    }

    method SendRequestMessage(server: Option<nat>)
      modifies `sending, `log
      ensures sending && log == SendRequest(old(Now()), server)
    {
      if sending { return; }
      sending := true;
      log := Snoc(log, Request(xids, offeredAddr, server));
    }

    /** `time` is the time at which the handler runs. */
    method StartProcess(forceNewXid: bool, newXid: nat, time: int)
      requires time == now
      modifies this
      ensures Now() == DhcpClient.StartProcess(old(Now()), forceNewXid, newXid)
    {
      TakeXid(forceNewXid, newXid);
      SendDiscoverMessage();
      resetTimer, phase := Some(time + RESET_TIMEOUT), SentDiscover;
    }

    /** The xid for another discover. */
    method TakeXid(forceNewXid: bool, newXid: nat)
      modifies `xid, `xids, `xidReuseCounter
      ensures if forceNewXid || old(xidReuseCounter) == XID_REUSE_MAX
              then xid == newXid && xids == old(xids) + 1 && xidReuseCounter == 1
              else xid == old(xid) && xids == old(xids) && xidReuseCounter == old(xidReuseCounter) + 1
    {
      if forceNewXid || xidReuseCounter == XID_REUSE_MAX {
        xid := newXid;
        xids := xids + 1;
        xidReuseCounter := 0;
      }
      xidReuseCounter := xidReuseCounter + 1;
    }

    method RecvHandlerDone(msg: Msg, time: int, ghost late: nat)
      requires time == now && Inv(Now(), late)
      modifies this
      ensures Inv(Now(), late) && Now() == Step(old(Now()), Receive(msg))
    {
      StepInv(Now(), Receive(msg), late);
      if phase == Resetting { return; }
      if msg.xid != xid { return; }
      if msg.kind == Nak {
        HandleNak(msg, time);
        return;
      }
      if msg.addr == 0 { return; }
      if msg.lease.None? { return; }
      if msg.mask.None? { return; }
      if msg.kind == Offer {
        HandleOffer(msg, time);
      } else {
        HandleAck(msg, msg.lease.value, time);
      }
    }

    method HandleNak(msg: Msg, time: int)
      requires time == now
      modifies this
      ensures Now() == ReceiveNak(old(Now()), msg)
    {
      if phase != SentRequest && phase != Finished && phase != Renewing { return; }
      if msg.server != offeredServer { return; }
      if phase == SentRequest {
        requestTimer := None;
      } else if phase == Finished {
        renewTimer := None;
        log := Snoc(log, Down);
      } else {
        renewRequestTimer := None;
        leaseTimer := None;
        log := Snoc(log, Down);
      }
      resetTimer := Some(time + RESET_TIMEOUT);
      phase := Resetting;
    }

    method HandleOffer(msg: Msg, time: int)
      requires time == now
      modifies this
      ensures Now() == ReceiveOffer(old(Now()), msg)
    {
      if phase == SentDiscover {
        offeredAddr, offeredServer := msg.addr, msg.server;
        RequestOffered(time);
      }
    }

    method RequestOffered(time: int)
      modifies `sending, `log, `resetTimer, `requestTimer, `phase, `requestCount
      ensures sending && log == SendRequest(old(Now()), Some(offeredServer))
      ensures resetTimer == None && requestTimer == Some(time + REQUEST_TIMEOUT)
      ensures phase == SentRequest && requestCount == 1
    {
      SendRequestMessage(Some(offeredServer));
      resetTimer, requestTimer := None, Some(time + REQUEST_TIMEOUT);
      phase, requestCount := SentRequest, 1;
    }

    method HandleAck(msg: Msg, lease: nat, time: int)
      requires time == now
      modifies this
      ensures Now() == ReceiveAck(old(Now()), msg, lease)
    {
      if phase == SentRequest {
        if msg.addr != offeredAddr { return; }
        if msg.server != offeredServer { return; }
        requestTimer := None;
        TakeLease(lease, time);
        log := Snoc(log, Up(offeredAddr));
      } else if phase == Renewing {
        if msg.addr != offeredAddr { return; }
        if msg.server != offeredServer { return; }
        renewRequestTimer := None;
        leaseTimer := None;
        TakeLease(lease, time);
      }
    }

    method TakeLease(lease: nat, time: int)
      modifies `ackedLease, `acked, `renewTimer, `phase
      ensures ackedLease == lease && acked == now && renewTimer == Some(time + RenewTimeout(lease)) && phase == Finished
    {
      ackedLease, acked := lease, now;
      renewTimer := Some(time + RenewTimeout(lease));
      phase := Finished;
    }

    /** Another message can be sent. */
    method SendHandlerDone(ghost late: nat)
      requires Inv(Now(), late) && sending
      modifies this
      ensures Inv(Now(), late) && !sending && Now() == Step(old(Now()), SendDone)
    {
      sending := false;
    }

    method ResetTimerHandler(newXid: nat, time: int)
      requires time == now && TimersOk(Now()) && resetTimer.Some?
      modifies this
      ensures Now() == Step(old(Now()), ResetTimer(newXid))
    {
      assert phase == Resetting || phase == SentDiscover;
      resetTimer := None;
      StartProcess(phase == Resetting, newXid, time);
    }

    method RequestTimerHandler(newXid: nat, time: int)
      requires time == now && TimersOk(Now()) && requestTimer.Some? && 1 <= requestCount <= MAX_REQUESTS
      modifies this
      ensures Now() == Step(old(Now()), RequestTimer(newXid))
    {
      assert phase == SentRequest;
      requestTimer := None;
      if requestCount == MAX_REQUESTS {
        StartProcess(false, newXid, time);
        return;
      }
      SendRequestMessage(Some(offeredServer));
      requestTimer := Some(time + REQUEST_TIMEOUT);
      requestCount := requestCount + 1;
    }

    method RenewTimerHandler(time: int)
      requires time == now && TimersOk(Now()) && renewTimer.Some?
      modifies this
      ensures Now() == Step(old(Now()), RenewTimer)
    {
      assert phase == Finished;
      renewTimer := None;
      SendRequestMessage(None);
      renewRequestTimer := Some(time + RENEW_REQUEST_TIMEOUT);
      leaseTimer := Some(time + LeaseTimeout(ackedLease));
      phase := Renewing;
    }

    method RenewRequestTimerHandler(time: int)
      requires time == now && TimersOk(Now()) && renewRequestTimer.Some?
      modifies this
      ensures Now() == Step(old(Now()), RenewRequestTimer)
    {
      assert phase == Renewing;
      SendRequestMessage(None);
      renewRequestTimer := Some(time + RENEW_REQUEST_TIMEOUT);
    }

    method LeaseTimerHandler(newXid: nat, time: int)
      requires time == now && TimersOk(Now()) && leaseTimer.Some?
      modifies this
      ensures Now() == Step(old(Now()), LeaseTimer(newXid))
    {
      assert phase == Renewing;
      leaseTimer := None;
      renewRequestTimer := None;
      StartProcess(true, newXid, time);
      log := Snoc(log, Down);
    }

    /** The address that the user was told. */
    method GetClientIP(ghost late: nat) returns (ip: nat)
      requires Inv(Now(), late) && IsUp(Now())
      ensures UpAddr(log) == Some(ip)
    {
      ip := offeredAddr;
    }

    /** Any event at time `time`; the result is the time after it. */
    method Handle(ev: Event, time: int, ghost late: nat) returns (newTime: int)
      requires time == now && Inv(Now(), late) && May(Now(), ev, late)
      modifies this
      ensures Inv(Now(), late) && Now() == Step(old(Now()), ev) && newTime == now
    {
      newTime := time;
      match ev
      case Receive(msg) => RecvHandlerDone(msg, time, late);
      case SendDone => SendHandlerDone(late);
      case Pass(t) =>
        StepInv(Now(), ev, late);
        Wait(t, time);
        newTime := time + t;
      case _ => HandleTimer(ev, time, late);
    }

    /** Any timer that fires. */
    method HandleTimer(ev: Event, time: int, ghost late: nat)
      requires time == now && Inv(Now(), late) && May(Now(), ev, late)
      requires !ev.Receive? && !ev.SendDone? && !ev.Pass?
      modifies this
      ensures Inv(Now(), late) && Now() == Step(old(Now()), ev)
    {
      StepInv(Now(), ev, late);
      match ev
      case ResetTimer(newXid) => ResetTimerHandler(newXid, time);
      case RequestTimer(newXid) => RequestTimerHandler(newXid, time);
      case RenewTimer => RenewTimerHandler(time);
      case RenewRequestTimer => RenewRequestTimerHandler(time);
      case LeaseTimer(newXid) => LeaseTimerHandler(newXid, time);
    }

    /** Time passes without an event. */
    method Wait(t: nat, time: int)
      requires time == now
      modifies `now
      ensures now == time + t
    {
      now := time + t;
    }

    /** Every run of the model is a run of the client. */
    method HandleAll(evs: seq<Event>, start: int, ghost xid: nat, ghost late: nat)
      requires Now() == Start(xid, start) && Run(xid, start, evs, late).Some?
      modifies this
      ensures Run(xid, start, evs, late) == Some(Now())
    {
      var i, time := 0, start;
      while i < |evs|
        invariant 0 <= i <= |evs| && time == now && Run(xid, start, evs[..i], late) == Some(Now())
      {
        RunNext(xid, start, evs, late, i);
        time := Handle(evs[i], time, late);
        i := i + 1;
      }
      assert evs[..i] == evs;
    }
  }
}
