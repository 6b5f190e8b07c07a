/**
  The DHCP client of dhcpclient/BDHCPClientCore.c, on values: a state machine with five timers. Received
  messages are what is left of them after the header and the options were checked.
*/
module DhcpClient {
  import opened Common

  const RESET_TIMEOUT := 4000
  const REQUEST_TIMEOUT := 3000
  const RENEW_REQUEST_TIMEOUT := 20000
  const MAX_REQUESTS := 4
  const XID_REUSE_MAX := 8

  function RenewTimeout(lease: nat): nat { 500 * lease }

  function LeaseTimeout(lease: nat): nat { 1000 * lease - RenewTimeout(lease) }

  datatype Phase = Resetting | SentDiscover | SentRequest | Finished | Renewing

  /** When the timers fire, those that are running. */
  datatype Timers = Timers(reset: Option<int>, request: Option<int>, renew: Option<int>, renewRequest: Option<int>,
                           lease: Option<int>)

  const NO_TIMERS := Timers(None, None, None, None, None)

  /**
    What happened: a discover, or a request for an address, from a server if there was only an offer of it so far, was
    sent with the n-th xid; or the user was told.
  */
  datatype Log = Discover(n: nat) | Request(n: nat, addr: nat, server: Option<nat>) | Up(addr: nat) | Down

  /**
    `xids` is the number of xids made so far, `xidUses` of those the uses of the current one. `acked` is when
    the last ACK was accepted, `lease` its lease time.
  */
  datatype State = State(
    phase: Phase, timers: Timers, xid: nat, xids: nat, xidUses: nat, requests: nat,
    addr: nat, server: nat, lease: nat, acked: int, sending: bool, now: int, log: seq<Log>)

  datatype Kind = Offer | Ack | Nak

  /** A message whose header and options are as they should be; lease and mask are options it may have. */
  datatype Msg = Msg(xid: nat, kind: Kind, addr: nat, server: nat, lease: Option<nat>, mask: Option<nat>)

  datatype Event =
    | Receive(msg: Msg)
    | SendDone
    | ResetTimer(newXid: nat) | RequestTimer(newXid: nat) | RenewTimer | RenewRequestTimer | LeaseTimer(newXid: nat)
    | Pass(time: nat)

  // ----- the handlers

  /** send_message drops a message if one is being sent. */
  function SendMessage(sending: bool, log: seq<Log>, message: Log): seq<Log> {
    if sending then log else Snoc(log, message)
  }

  /** A request for the address that was offered. */
  function SendRequest(s: State, server: Option<nat>): seq<Log> {
    SendMessage(s.sending, s.log, Request(s.xids, s.addr, server))
  }

  /** start_process; newXid is what the random numbers give if a new xid is made. */
  function StartProcess(s: State, force: bool, newXid: nat): State {
    var makeNew := force || s.xidUses == XID_REUSE_MAX;
    var xids := if makeNew then s.xids + 1 else s.xids;
    s.(xid := if makeNew then newXid else s.xid, xids := xids, xidUses := if makeNew then 1 else s.xidUses + 1,
       sending := true, log := SendMessage(s.sending, s.log, Discover(xids)),
       phase := SentDiscover, timers := s.timers.(reset := Some(s.now + RESET_TIMEOUT)))
  }

  function Start(xid: nat, now: int): State {
    StartProcess(State(Resetting, NO_TIMERS, 0, 0, 0, 0, 0, 0, 0, now, false, now, []), true, xid)
  }

  function ReceiveNak(s: State, msg: Msg): State {
    if (s.phase != SentRequest && s.phase != Finished && s.phase != Renewing) || msg.server != s.server then s
    else
      var reset := Some(s.now + RESET_TIMEOUT);
      if s.phase == SentRequest then s.(phase := Resetting, timers := s.timers.(request := None, reset := reset))
      else if s.phase == Finished
      then s.(phase := Resetting, timers := s.timers.(renew := None, reset := reset), log := Snoc(s.log, Down))
      else
        s.(phase := Resetting, timers := s.timers.(renewRequest := None, lease := None, reset := reset),
          log := Snoc(s.log, Down))
  }

  function ReceiveOffer(s: State, msg: Msg): State {
    if s.phase != SentDiscover then s
    else
      var s1 := s.(addr := msg.addr, server := msg.server);
      s1.(sending := true, log := SendRequest(s1, Some(s1.server)), phase := SentRequest, requests := 1,
          timers := s.timers.(reset := None, request := Some(s.now + REQUEST_TIMEOUT)))
  }

  function ReceiveAck(s: State, msg: Msg, lease: nat): State {
    if (s.phase != SentRequest && s.phase != Renewing) || msg.addr != s.addr || msg.server != s.server then s
    else
      var renew := Some(s.now + RenewTimeout(lease));
      if s.phase == SentRequest
      then s.(lease := lease, acked := s.now, phase := Finished,
              timers := s.timers.(request := None, renew := renew), log := Snoc(s.log, Up(s.addr)))
      else s.(lease := lease, acked := s.now, phase := Finished,
              timers := s.timers.(renewRequest := None, lease := None, renew := renew))
  }

  function ReceiveMsg(s: State, msg: Msg): State {
    if s.phase == Resetting || msg.xid != s.xid then s
    else if msg.kind == Nak then ReceiveNak(s, msg)
    else if msg.addr == 0 || msg.lease.None? || msg.mask.None? then s
    else if msg.kind == Offer then ReceiveOffer(s, msg)
    else ReceiveAck(s, msg, msg.lease.value)
  }

  /** A timer that fires is no longer running. */
  function Step(s: State, ev: Event): State {
    match ev
    case Receive(msg) => ReceiveMsg(s, msg)
    case SendDone => s.(sending := false)
    case ResetTimer(newXid) => StartProcess(s.(timers := s.timers.(reset := None)), s.phase == Resetting, newXid)
    case RequestTimer(newXid) =>
      if s.requests == MAX_REQUESTS then StartProcess(s.(timers := s.timers.(request := None)), false, newXid)
      else
        s.(sending := true, log := SendRequest(s, Some(s.server)),
           timers := s.timers.(request := Some(s.now + REQUEST_TIMEOUT)), requests := s.requests + 1)
    case RenewTimer =>
      s.(sending := true, log := SendRequest(s, None), phase := Renewing,
         timers := s.timers.(renew := None, renewRequest := Some(s.now + RENEW_REQUEST_TIMEOUT),
                             lease := Some(s.now + LeaseTimeout(s.lease))))
    case RenewRequestTimer =>
      s.(sending := true, log := SendRequest(s, None),
         timers := s.timers.(renewRequest := Some(s.now + RENEW_REQUEST_TIMEOUT)))
    case LeaseTimer(newXid) =>
      var s1 := StartProcess(s.(timers := s.timers.(renewRequest := None, lease := None)), true, newXid);
      s1.(log := Snoc(s1.log, Down))
    case Pass(time) => s.(now := s.now + time)
  }

  /** The timer is running, and its time has come. */
  predicate Due(timer: Option<int>, now: int) {
    timer.Some? && timer.value <= now
  }

  /** The timer, if it is running, is at most `late` past its time. */
  predicate InTime(timer: Option<int>, now: int, late: nat) {
    timer.Some? ==> now <= timer.value + late
  }

  ghost predicate AllInTime(t: Timers, now: int, late: nat) {
    && InTime(t.reset, now, late) && InTime(t.request, now, late) && InTime(t.renew, now, late)
    && InTime(t.renewRequest, now, late) && InTime(t.lease, now, late)
  }

  /** A timer fires when its time has come, and no timer is more than `late` late. */
  ghost predicate May(s: State, ev: Event, late: nat) {
    match ev
    case Receive(_) => true
    case SendDone => s.sending
    case ResetTimer(_) => Due(s.timers.reset, s.now)
    case RequestTimer(_) => Due(s.timers.request, s.now)
    case RenewTimer => Due(s.timers.renew, s.now)
    case RenewRequestTimer => Due(s.timers.renewRequest, s.now)
    case LeaseTimer(_) => Due(s.timers.lease, s.now)
    case Pass(time) => AllInTime(s.timers, s.now + time, late)
  }

  // ----- the invariant

  /** Which timers run is determined by the phase. */
  ghost predicate TimersOk(s: State) {
    && (s.timers.reset.Some? <==> s.phase == Resetting || s.phase == SentDiscover)
    && (s.timers.request.Some? <==> s.phase == SentRequest)
    && (s.timers.renew.Some? <==> s.phase == Finished)
    && (s.timers.renewRequest.Some? <==> s.phase == Renewing)
    && (s.timers.lease.Some? <==> s.phase == Renewing)
  }

  predicate IsUp(s: State) {
    s.phase == Finished || s.phase == Renewing
  }

  /** The address the user was told, if the last thing it was told is that the client is up. */
  function UpAddr(log: seq<Log>): Option<nat> {
    if log == [] then None
    else
      match log[|log| - 1]
      case Up(addr) => Some(addr)
      case Down => None
      case _ => UpAddr(log[..|log| - 1])
  }

  /** The user is told up and down in turns, up first. */
  ghost predicate Alternates(log: seq<Log>) {
    log == [] ||
    var before := log[..|log| - 1];
    && Alternates(before)
    && match log[|log| - 1]
       case Up(_) => UpAddr(before).None?
       case Down => UpAddr(before).Some?
       case _ => true
  }

  /** The discovers sent with the n-th xid. */
  function Discovers(log: seq<Log>, n: nat): nat {
    if log == [] then 0 else Discovers(log[..|log| - 1], n) + if log[|log| - 1] == Discover(n) then 1 else 0
  }

  ghost predicate XidsOk(log: seq<Log>, xids: nat, uses: nat) {
    && 1 <= uses <= XID_REUSE_MAX && Discovers(log, xids) <= uses
    && forall n: nat :: Discovers(log, n) <= XID_REUSE_MAX && (n > xids ==> Discovers(log, n) == 0)
  }

  /** While up, the lease runs out in time. */
  ghost predicate LeaseOk(s: State, late: nat) {
    && (s.phase == Finished ==> s.timers.renew == Some(s.acked + RenewTimeout(s.lease)))
    && (s.phase == Renewing ==>
          s.timers.lease.Some?
          && s.acked + 1000 * s.lease <= s.timers.lease.value <= s.acked + 1000 * s.lease + late)
  }

  ghost predicate Inv(s: State, late: nat) {
    && TimersOk(s) && AllInTime(s.timers, s.now, late)
    && (s.phase == SentRequest ==> 1 <= s.requests <= MAX_REQUESTS)
    && XidsOk(s.log, s.xids, s.xidUses)
    && Alternates(s.log) && UpAddr(s.log) == (if IsUp(s) then Some(s.addr) else None)
    && LeaseOk(s, late)
  }

  lemma LogNext(log: seq<Log>, l: Log)
    ensures UpAddr(Snoc(log, l))
         == match l
            case Up(addr) => Some(addr)
            case Down => None
            case _ => UpAddr(log)
    ensures Alternates(Snoc(log, l))
        <==> Alternates(log) &&
             match l
             case Up(_) => UpAddr(log).None?
             case Down => UpAddr(log).Some?
             case _ => true
    ensures forall n: nat :: Discovers(Snoc(log, l), n) == Discovers(log, n) + if l == Discover(n) then 1 else 0
  {
    assert Snoc(log, l)[..|log|] == log;
  }

  /** Telling the user does not change how often an xid was used. */
  lemma Told(s: State, l: Log)
    requires XidsOk(s.log, s.xids, s.xidUses) && Alternates(s.log)
    requires match l case Up(_) => UpAddr(s.log).None? case Down => UpAddr(s.log).Some? case _ => false
    ensures XidsOk(Snoc(s.log, l), s.xids, s.xidUses) && Alternates(Snoc(s.log, l))
    ensures UpAddr(Snoc(s.log, l)) == if l.Up? then Some(l.addr) else None
  {
    LogNext(s.log, l);
  }

  /** An xid is used again, or for the first time. */
  lemma XidUsed(log: seq<Log>, xids: nat, uses: nat, n: nat)
    requires 0 <= uses < XID_REUSE_MAX && Discovers(log, n) <= uses && xids <= n
    requires forall m: nat :: Discovers(log, m) <= XID_REUSE_MAX && (m > xids ==> Discovers(log, m) == 0)
    ensures XidsOk(log, n, uses + 1) && XidsOk(Snoc(log, Discover(n)), n, uses + 1)
  {
    LogNext(log, Discover(n));
  }

  lemma StartProcessOk(s: State, force: bool, newXid: nat)
    requires (force && s.xids == 0 && s.log == []) || XidsOk(s.log, s.xids, s.xidUses)
    requires Alternates(s.log)
    ensures var s' := StartProcess(s, force, newXid);
            && XidsOk(s'.log, s'.xids, s'.xidUses) && Alternates(s'.log) && UpAddr(s'.log) == UpAddr(s.log)
            && s'.phase == SentDiscover && s'.timers == s.timers.(reset := Some(s.now + RESET_TIMEOUT))
              && s'.now == s.now
  {
    var makeNew := force || s.xidUses == XID_REUSE_MAX;
    var xids, uses := (if makeNew then s.xids + 1 else s.xids), if makeNew then 0 else s.xidUses;
    XidUsed(s.log, s.xids, uses, xids);
    LogNext(s.log, Discover(xids));
  }

  lemma StartInv(xid: nat, now: int, late: nat)
    ensures Inv(Start(xid, now), late)
  {
    StartProcessOk(State(Resetting, NO_TIMERS, 0, 0, 0, 0, 0, 0, 0, now, false, now, []), true, xid);
  }

  lemma NakInv(s: State, msg: Msg, late: nat)
    requires Inv(s, late)
    ensures Inv(ReceiveNak(s, msg), late)
  {
    if IsUp(s) {
      Told(s, Down);
    }
  }

  lemma AckInv(s: State, msg: Msg, lease: nat, late: nat)
    requires Inv(s, late)
    ensures Inv(ReceiveAck(s, msg, lease), late)
  {
    if !IsUp(s) {
      Told(s, Up(s.addr));
    }
  }

  lemma RequestSent(s: State, server: Option<nat>)
    requires XidsOk(s.log, s.xids, s.xidUses) && Alternates(s.log)
    ensures var log := SendRequest(s, server);
            XidsOk(log, s.xids, s.xidUses) && Alternates(log) && UpAddr(log) == UpAddr(s.log)
  {
    LogNext(s.log, Request(s.xids, s.addr, server));
  }

  lemma OfferInv(s: State, msg: Msg, late: nat)
    requires Inv(s, late)
    ensures Inv(ReceiveOffer(s, msg), late)
  {
    RequestSent(s.(addr := msg.addr, server := msg.server), Some(msg.server));
  }

  lemma ReceiveInv(s: State, msg: Msg, late: nat)
    requires Inv(s, late)
    ensures Inv(ReceiveMsg(s, msg), late)
  {
    if msg.kind == Nak {
      NakInv(s, msg, late);
    } else if msg.kind == Offer {
      OfferInv(s, msg, late);
    } else if msg.lease.Some? {
      AckInv(s, msg, msg.lease.value, late);
    }
  }

  /** A NAK of the server chosen, when one may come. */
  predicate NakCounts(s: State, msg: Msg) {
    (s.phase == SentRequest || s.phase == Finished || s.phase == Renewing) && msg.server == s.server
  }

  /** The user of a client that was up is told that it is down; the user of one that was not is told nothing. */
  lemma NakMeans(s: State, msg: Msg, late: nat)
    requires Inv(s, late)
    ensures var s' := ReceiveNak(s, msg);
            && Inv(s', late) && (s' != s <==> NakCounts(s, msg))
            && (NakCounts(s, msg) ==>
                  UpAddr(s'.log).None? && s'.log == if UpAddr(s.log).Some? then Snoc(s.log, Down) else s.log)
  {
    NakInv(s, msg, late);
  }

  /**
    The first offer after a discover is the one that is asked for, by a request unless a message is being sent. The
    user is told nothing, and what it was told stays true.
  */
  lemma OfferMeans(s: State, msg: Msg, late: nat)
    requires Inv(s, late)
    ensures var s' := ReceiveOffer(s, msg);
            && Inv(s', late) && (s' != s <==> s.phase == SentDiscover)
            && UpAddr(s'.log) == UpAddr(s.log) && (UpAddr(s.log).Some? ==> s' == s)
            && (s.phase == SentDiscover ==>
                  && s'.addr == msg.addr && s'.server == msg.server && s'.xid == s.xid
                  && s'.log == if s.sending then s.log else Snoc(s.log, Request(s.xids, msg.addr, Some(msg.server))))
  {
    OfferInv(s, msg, late);
  }

  /** An ACK of the address and the server chosen, when one may come. */
  predicate AckCounts(s: State, msg: Msg) {
    (s.phase == SentRequest || s.phase == Renewing) && msg.addr == s.addr && msg.server == s.server
  }

  /** The client is up with the acknowledged address from now on; the user is told unless it has been. */
  lemma AckMeans(s: State, msg: Msg, lease: nat, late: nat)
    requires Inv(s, late)
    ensures var s' := ReceiveAck(s, msg, lease);
            && Inv(s', late) && (s' != s <==> AckCounts(s, msg))
            && (AckCounts(s, msg) ==>
                  && UpAddr(s'.log) == Some(msg.addr) && s'.acked == s.now && s'.lease == lease
                  && s'.log == if UpAddr(s.log).Some? then s.log else Snoc(s.log, Up(msg.addr)))
  {
    AckInv(s, msg, lease, late);
  }

  lemma LeaseTimerInv(s: State, newXid: nat, late: nat)
    requires Inv(s, late) && May(s, LeaseTimer(newXid), late)
    ensures Inv(Step(s, LeaseTimer(newXid)), late)
  {
    var s0 := s.(timers := s.timers.(renewRequest := None, lease := None));
    StartProcessOk(s0, true, newXid);
    Told(StartProcess(s0, true, newXid), Down);
  }

  lemma RequestTimerInv(s: State, newXid: nat, late: nat)
    requires Inv(s, late) && May(s, RequestTimer(newXid), late)
    ensures Inv(Step(s, RequestTimer(newXid)), late)
  {
    StartProcessOk(s.(timers := s.timers.(request := None)), false, newXid);
    RequestSent(s, Some(s.server));
  }

  lemma ResetTimerInv(s: State, newXid: nat, late: nat)
    requires Inv(s, late) && May(s, ResetTimer(newXid), late)
    ensures Inv(Step(s, ResetTimer(newXid)), late)
  {
    StartProcessOk(s.(timers := s.timers.(reset := None)), s.phase == Resetting, newXid);
  }

  /** Every handler keeps the invariant; in particular each timer handler finds the phase it asserts. */
  lemma StepInv(s: State, ev: Event, late: nat)
    requires Inv(s, late) && May(s, ev, late)
    ensures Inv(Step(s, ev), late)
  {
    match ev
    case Receive(msg) => ReceiveInv(s, msg, late);
    case ResetTimer(newXid) => ResetTimerInv(s, newXid, late);
    case RequestTimer(newXid) => RequestTimerInv(s, newXid, late);
    case LeaseTimer(newXid) => LeaseTimerInv(s, newXid, late);
    case RenewTimer => RequestSent(s, None);
    case RenewRequestTimer => RequestSent(s, None);
    case _ =>
  }

  // ----- whole runs

  /** The state after a run in which no timer was more than `late` late. */
  ghost function Run(xid: nat, now: int, evs: seq<Event>, late: nat): (s: Option<State>)
    ensures s.Some? ==> Inv(s.value, late)
  {
    if evs == [] then
      StartInv(xid, now, late);
      Some(Start(xid, now))
    else
      var s, ev := Run(xid, now, evs[..|evs| - 1], late), evs[|evs| - 1];
      if s.None? || !May(s.value, ev, late) then None
      else
        StepInv(s.value, ev, late);
        Some(Step(s.value, ev))
  }

  lemma {:induction false} RunNext(xid: nat, now: int, evs: seq<Event>, late: nat, k: nat)
    requires Run(xid, now, evs, late).Some? && k < |evs|
    ensures var s := Run(xid, now, evs[..k], late);
            s.Some? && May(s.value, evs[k], late) && Run(xid, now, evs[..k + 1], late) == Some(Step(s.value, evs[k]))
  {
    var before := evs[..|evs| - 1];
    if k == |evs| - 1 {
      assert evs[..k + 1] == evs;
    } else {
      RunNext(xid, now, before, late, k);
      assert before[..k] == evs[..k] && before[..k + 1] == evs[..k + 1];
    }
  }

  /**
    In every run, the timers that run are those of the phase; the user is told up and down in turns, up first,
    and while it is up the address is the one it was told; no xid serves for more than 8 discovers; and with
    timers that fire on time the client is not up for longer than the lease after the last ACK.
  */
  lemma EveryRun(xid: nat, now: int, evs: seq<Event>, late: nat)
    requires Run(xid, now, evs, late).Some?
    ensures var s := Run(xid, now, evs, late).value;
            && TimersOk(s)
            && Alternates(s.log) && UpAddr(s.log) == (if IsUp(s) then Some(s.addr) else None)
            && (forall n: nat :: Discovers(s.log, n) <= XID_REUSE_MAX)
            && (IsUp(s) ==> s.now <= s.acked + 1000 * s.lease + 2 * late)
  {}
}
