/** What the DHCP client of dhcpclient/BDHCPClientCore.c does, told by what happened to it. */
module DhcpHistory {
  import opened Common
  import opened DhcpClient

  // ----- events that count

  predicate Complete(msg: Msg) {
    msg.addr != 0 && msg.lease.Some? && msg.mask.Some?
  }

  /** The client waits for the message. */
  predicate MsgCounts(s: State, msg: Msg) {
    && msg.xid == s.xid
    && match msg.kind
       case Offer => Complete(msg) && s.phase == SentDiscover
       case Ack => Complete(msg) && AckCounts(s, msg)
       case Nak => NakCounts(s, msg)
  }

  /** Timers count, and messages that the client waits for. */
  predicate Counts(s: State, ev: Event) {
    match ev
    case Receive(msg) => MsgCounts(s, msg)
    case SendDone => false
    case Pass(_) => false
    case _ => true
  }

  /** A message that the client does not wait for does nothing, and any other does something. */
  lemma OthersIgnored(s: State, msg: Msg, late: nat)
    requires Inv(s, late)
    ensures Step(s, Receive(msg)) != s <==> MsgCounts(s, msg)
  {
    match msg.kind
    case Nak => NakMeans(s, msg, late);
    case Offer => OfferMeans(s, msg, late);
    case Ack =>
      if msg.lease.Some? {
        AckMeans(s, msg, msg.lease.value, late);
      }
  }

  // ----- what set the timers

  /** The last event that counted, if there was one, and when it was; or when the client was made. */
  datatype Last = Last(ev: Option<Event>, at: int)

  function LastAfter(s: State, ev: Event, last: Last): Last {
    if Counts(s, ev) then Last(Some(ev), s.now) else last
  }

  ghost function LastOf(xid: nat, now: int, evs: seq<Event>, late: nat): Last
    requires Run(xid, now, evs, late).Some?
  {
    if evs == [] then Last(None, now)
    else
      var before := evs[..|evs| - 1];
      LastAfter(Run(xid, now, before, late).value, evs[|evs| - 1], LastOf(xid, now, before, late))
  }

  predicate OfferCounts(s: State, ev: Event) {
    ev.Receive? && ev.msg.kind == Offer && MsgCounts(s, ev.msg)
  }

  function RequestsAfter(s: State, ev: Event, requests: nat): nat {
    if OfferCounts(s, ev) then 1 else if ev.RequestTimer? then requests + 1 else requests
  }

  /** How often the last offer that counted was requested, or would have been if that was not too often. */
  ghost function Requests(xid: nat, now: int, evs: seq<Event>, late: nat): nat
    requires Run(xid, now, evs, late).Some?
  {
    if evs == [] then 0
    else
      var before := evs[..|evs| - 1];
      RequestsAfter(Run(xid, now, before, late).value, evs[|evs| - 1], Requests(xid, now, before, late))
  }

  ghost predicate Discovering(s: State, at: int) {
    s.phase == SentDiscover && s.timers.reset == Some(at + 4000)
  }

  ghost predicate Requesting(s: State, at: int) {
    s.phase == SentRequest && s.timers.request == Some(at + 3000)
  }

  ghost predicate AskingAgain(s: State, at: int) {
    s.phase == Renewing && s.timers.renewRequest == Some(at + 20000)
  }

  /** The phase and its timer are those that the last event that counted gives. */
  ghost predicate SetBy(s: State, last: Last, requests: nat) {
    match last.ev
    case None => Discovering(s, last.at)
    case Some(Receive(msg)) =>
      (match msg.kind
       case Offer => Requesting(s, last.at)
       case Ack =>
         && s.phase == Finished && msg.lease.Some? && s.acked == last.at && s.lease == msg.lease.value
         && s.timers.renew == Some(last.at + 500 * msg.lease.value)
       case Nak => s.phase == Resetting && s.timers.reset == Some(last.at + 4000))
    case Some(RequestTimer(_)) => if requests <= 4 then Requesting(s, last.at) else Discovering(s, last.at)
    case Some(RenewTimer) => AskingAgain(s, last.at) && s.timers.lease == Some(last.at + 500 * s.lease)
    case Some(RenewRequestTimer) => AskingAgain(s, last.at)
    case Some(_) => Discovering(s, last.at)
  }

  ghost predicate HistoryOk(s: State, last: Last, requests: nat) {
    SetBy(s, last, requests) && (s.phase == SentRequest ==> s.requests == requests)
  }

  lemma CountedSets(s: State, ev: Event, late: nat, last: Last, requests: nat)
    requires Inv(s, late) && May(s, ev, late) && Counts(s, ev) && HistoryOk(s, last, requests)
    ensures HistoryOk(Step(s, ev), LastAfter(s, ev, last), RequestsAfter(s, ev, requests))
  {}

  lemma OthersKeep(s: State, ev: Event, late: nat, last: Last, requests: nat)
    requires Inv(s, late) && May(s, ev, late) && !Counts(s, ev) && HistoryOk(s, last, requests)
    ensures HistoryOk(Step(s, ev), LastAfter(s, ev, last), RequestsAfter(s, ev, requests))
  {
    if ev.Receive? {
      OthersIgnored(s, ev.msg, late);
    }
  }

  /** In every run, the phase and its timer are those that the last event that counted gives. */
  lemma {:induction false} LastSets(xid: nat, now: int, evs: seq<Event>, late: nat)
    requires Run(xid, now, evs, late).Some?
    ensures HistoryOk(Run(xid, now, evs, late).value, LastOf(xid, now, evs, late), Requests(xid, now, evs, late))
  {
    if evs == [] {
    } else {
      var before, ev := evs[..|evs| - 1], evs[|evs| - 1];
      var s := Run(xid, now, before, late).value;
      var last, requests := LastOf(xid, now, before, late), Requests(xid, now, before, late);
      LastSets(xid, now, before, late);
      if Counts(s, ev) {
        CountedSets(s, ev, late, last, requests);
      } else {
        OthersKeep(s, ev, late, last, requests);
      }
    }
  }

  // ----- the offer

  /** The event starts a new discover. */
  predicate Restarts(s: State, ev: Event) {
    ev.ResetTimer? || ev.LeaseTimer? || (ev.RequestTimer? && s.requests == MAX_REQUESTS)
  }

  /** The last offer that counted since the last discover. */
  ghost function LastOffer(xid: nat, now: int, evs: seq<Event>, late: nat): Option<Msg>
    requires Run(xid, now, evs, late).Some?
  {
    if evs == [] then None
    else
      var before, ev := evs[..|evs| - 1], evs[|evs| - 1];
      var s := Run(xid, now, before, late).value;
      if Restarts(s, ev) then None
      else if OfferCounts(s, ev) then Some(ev.msg)
      else LastOffer(xid, now, before, late)
  }

  ghost predicate AsOffered(s: State, offer: Option<Msg>) {
    if s.phase == SentDiscover then offer == None
    else offer.Some? && s.addr == offer.value.addr && s.server == offer.value.server
  }

  lemma OfferStep(s: State, ev: Event, late: nat, offer: Option<Msg>)
    requires Inv(s, late) && May(s, ev, late) && AsOffered(s, offer)
    ensures AsOffered(Step(s, ev), if Restarts(s, ev) then None
                                   else if OfferCounts(s, ev) then Some(ev.msg)
                                   else offer)
  {
    if ev.Receive? {
      OthersIgnored(s, ev.msg, late);
    }
  }

  /**
    In every run, while a request is out or the client is up, address and server are those of the last offer that
    counted since the last discover.
  */
  lemma {:induction false} LastOfferKept(xid: nat, now: int, evs: seq<Event>, late: nat)
    requires Run(xid, now, evs, late).Some?
    ensures AsOffered(Run(xid, now, evs, late).value, LastOffer(xid, now, evs, late))
  {
    if evs == [] {
    } else {
      var before, ev := evs[..|evs| - 1], evs[|evs| - 1];
      LastOfferKept(xid, now, before, late);
      OfferStep(Run(xid, now, before, late).value, ev, late, LastOffer(xid, now, before, late));
    }
  }

  // ----- an offer and its ACK

  /** The request timers between two events. */
  function RequestTimers(evs: seq<Event>, i: nat, j: nat): nat
    requires i < j <= |evs|
  {
    if j == i + 1 then 0 else RequestTimers(evs, i, j - 1) + if evs[j - 1].RequestTimer? then 1 else 0
  }

  /** The event is not a NAK of the offer, and the lease does not run out. */
  predicate LetsBe(ev: Event, offer: Msg) {
    && !ev.LeaseTimer?
    && !(ev.Receive? && ev.msg.kind == Nak && ev.msg.xid == offer.xid && ev.msg.server == offer.server)
  }

  /** The offer was requested, `again` times more than once, or the client is up with it. */
  ghost predicate Asked(s: State, offer: Msg, again: nat) {
    && s.addr == offer.addr && s.server == offer.server && s.xid == offer.xid
    && (IsUp(s) || (s.phase == SentRequest && s.requests == 1 + again))
  }

  lemma FirstAsked(s: State, offer: Msg)
    requires offer.kind == Offer && MsgCounts(s, offer)
    ensures Asked(Step(s, Receive(offer)), offer, 0)
  {}

  lemma StillAsked(s: State, ev: Event, late: nat, offer: Msg, again: nat)
    requires Inv(s, late) && May(s, ev, late) && Asked(s, offer, again) && LetsBe(ev, offer)
    requires ev.RequestTimer? ==> again < 3
    ensures Asked(Step(s, ev), offer, again + if ev.RequestTimer? then 1 else 0)
  {
    if ev.Receive? {
      OthersIgnored(s, ev.msg, late);
    }
  }

  lemma {:induction false} AskedSince(xid: nat, now: int, evs: seq<Event>, late: nat, i: nat, j: nat, offer: Msg)
    requires Run(xid, now, evs, late).Some? && i < j <= |evs| && evs[i] == Receive(offer) && offer.kind == Offer
    requires Run(xid, now, evs[..i], late).Some? && MsgCounts(Run(xid, now, evs[..i], late).value, offer)
    requires (forall m :: i < m < j ==> LetsBe(evs[m], offer)) && RequestTimers(evs, i, j) <= 3
    ensures Run(xid, now, evs[..j], late).Some?
    ensures Asked(Run(xid, now, evs[..j], late).value, offer, RequestTimers(evs, i, j))
    decreases j
  {
    RunNext(xid, now, evs, late, j - 1);
    if j == i + 1 {
      FirstAsked(Run(xid, now, evs[..i], late).value, offer);
    } else {
      AskedSince(xid, now, evs, late, i, j - 1, offer);
      StillAsked(Run(xid, now, evs[..j - 1], late).value, evs[j - 1], late, offer, RequestTimers(evs, i, j - 1));
    }
  }

  /** The ACK of an offer. */
  predicate AckOf(ack: Msg, offer: Msg) {
    ack.kind == Ack && ack.xid == offer.xid && ack.addr == offer.addr && ack.server == offer.server && Complete(ack)
  }

  /**
    An offer that counts and then its ACK bring the client up with the address offered, whatever happens between them,
    unless it is the NAK of the offer, the fourth request timer or the end of a lease.
  */
  lemma OfferThenAck(xid: nat, now: int, evs: seq<Event>, late: nat, i: nat, j: nat, offer: Msg, ack: Msg)
    requires Run(xid, now, evs, late).Some? && i < j < |evs| && evs[i] == Receive(offer) && evs[j] == Receive(ack)
    requires Run(xid, now, evs[..i], late).Some? && MsgCounts(Run(xid, now, evs[..i], late).value, offer)
    requires offer.kind == Offer && AckOf(ack, offer)
    requires (forall m :: i < m < j ==> LetsBe(evs[m], offer)) && RequestTimers(evs, i, j) <= 3
    ensures var s := Run(xid, now, evs[..j + 1], late); s.Some? && UpAddr(s.value.log) == Some(offer.addr)
  {
    AskedSince(xid, now, evs, late, i, j, offer);
    RunNext(xid, now, evs, late, j);
    StillAsked(Run(xid, now, evs[..j], late).value, evs[j], late, offer, RequestTimers(evs, i, j));
  }

  // ----- up and down

  /** The client goes up with an ACK that counts, and in no other way. */
  lemma UpByAck(s: State, ev: Event, late: nat)
    requires Inv(s, late) && May(s, ev, late) && UpAddr(s.log) == None
    ensures UpAddr(Step(s, ev).log).Some? <==> ev.Receive? && ev.msg.kind == Ack && MsgCounts(s, ev.msg)
  {
    StepInv(s, ev, late);
  }

  /** It goes down with a NAK that counts and when the lease has run out, and in no other way. */
  lemma DownByNakOrTime(s: State, ev: Event, late: nat)
    requires Inv(s, late) && May(s, ev, late) && UpAddr(s.log).Some?
    ensures UpAddr(Step(s, ev).log) == None
        <==> ev.LeaseTimer? || (ev.Receive? && ev.msg.kind == Nak && MsgCounts(s, ev.msg))
    ensures ev.LeaseTimer? ==> s.now >= s.acked + 1000 * s.lease
    ensures UpAddr(Step(s, ev).log).Some? ==> UpAddr(Step(s, ev).log) == UpAddr(s.log)
  {
    StepInv(s, ev, late);
  }

  // ----- what is sent

  function Messages(log: seq<Log>): seq<Log> {
    if log == [] then []
    else
      var before, l := Messages(log[..|log| - 1]), log[|log| - 1];
      if l.Discover? || l.Request? then Snoc(before, l) else before
  }

  lemma MessagesNext(log: seq<Log>, l: Log)
    ensures Messages(Snoc(log, l)) == if l.Discover? || l.Request? then Snoc(Messages(log), l) else Messages(log)
  {
    assert Snoc(log, l)[..|log|] == log;
  }

  /** Timers and offers that count have something to send. */
  predicate HasToSend(s: State, ev: Event) {
    Counts(s, ev) && (ev.Receive? ==> ev.msg.kind == Offer)
  }

  /** A discover if there is no offer; a request for the offer, and to its server before it was acknowledged. */
  function Message(s: State, offer: Option<Msg>): Log {
    if offer.None? then Discover(s.xids)
    else Request(s.xids, offer.value.addr, if IsUp(s) then None else Some(offer.value.server))
  }

  lemma SendStep(s: State, ev: Event, late: nat, offer: Option<Msg>)
    requires Inv(s, late) && May(s, ev, late) && AsOffered(Step(s, ev), offer)
    ensures var s' := Step(s, ev);
            && (s'.sending <==> HasToSend(s, ev) || (s.sending && ev != SendDone))
            && Messages(s'.log) == if HasToSend(s, ev) && !s.sending then Snoc(Messages(s.log), Message(s', offer))
                                   else Messages(s.log)
  {
    var s' := Step(s, ev);
    if HasToSend(s, ev) && !s.sending {
      MessagesNext(s.log, Message(s', offer));
      if ev.LeaseTimer? {
        MessagesNext(Snoc(s.log, Message(s', offer)), Down);
      }
    } else if |s'.log| > |s.log| {
      MessagesNext(s.log, s'.log[|s.log|]);
    }
  }

  /**
    In every run, a timer or an offer that counts sends one message, unless one is being sent, and nothing else sends
    any: a discover if no offer counted since the last one, and otherwise a request for the address offered.
  */
  lemma SendsOffered(xid: nat, now: int, evs: seq<Event>, late: nat)
    requires Run(xid, now, evs, late).Some? && evs != []
    ensures Run(xid, now, evs[..|evs| - 1], late).Some?
    ensures var s, s' := Run(xid, now, evs[..|evs| - 1], late).value, Run(xid, now, evs, late).value;
            var ev, offer := evs[|evs| - 1], LastOffer(xid, now, evs, late);
            && (s'.sending <==> HasToSend(s, ev) || (s.sending && ev != SendDone))
            && Messages(s'.log) == if HasToSend(s, ev) && !s.sending then Snoc(Messages(s.log), Message(s', offer))
                                   else Messages(s.log)
  {
    LastOfferKept(xid, now, evs, late);
    SendStep(Run(xid, now, evs[..|evs| - 1], late).value, evs[|evs| - 1], late, LastOffer(xid, now, evs, late));
  }

  // ----- transaction ids

  /** An xid and how many discovers it was taken for. */
  datatype Taken = Taken(xid: nat, uses: nat)

  function TakenNext(t: Taken, must: bool, newXid: nat): Taken {
    if must || t.uses == 8 then Taken(newXid, 1) else Taken(t.xid, t.uses + 1)
  }

  predicate IsNak(ev: Option<Event>) {
    ev.Some? && ev.value.Receive? && ev.value.msg.kind == Nak
  }

  /** A new xid is made after a NAK, after a lease and after eight discovers with one. */
  ghost function TakenOf(xid: nat, now: int, evs: seq<Event>, late: nat): Taken
    requires Run(xid, now, evs, late).Some?
  {
    if evs == [] then Taken(xid, 1)
    else
      var before, ev := evs[..|evs| - 1], evs[|evs| - 1];
      var t := TakenOf(xid, now, before, late);
      match ev
      case ResetTimer(newXid) => TakenNext(t, IsNak(LastOf(xid, now, before, late).ev), newXid)
      case LeaseTimer(newXid) => TakenNext(t, true, newXid)
      case RequestTimer(newXid) => if Requests(xid, now, evs, late) <= 4 then t else TakenNext(t, false, newXid)
      case _ => t
  }

  /** In every run, the xid is the one that the history gives. */
  lemma {:induction false} XidOfRun(xid: nat, now: int, evs: seq<Event>, late: nat)
    requires Run(xid, now, evs, late).Some?
    ensures var s := Run(xid, now, evs, late).value; Taken(s.xid, s.xidUses) == TakenOf(xid, now, evs, late)
  {
    if evs == [] {
    } else {
      var before, ev := evs[..|evs| - 1], evs[|evs| - 1];
      XidOfRun(xid, now, before, late);
      LastSets(xid, now, before, late);
      XidStep(Run(xid, now, before, late).value, ev, late, LastOf(xid, now, before, late),
              Requests(xid, now, before, late));
    }
  }

  lemma XidStep(s: State, ev: Event, late: nat, last: Last, requests: nat)
    requires Inv(s, late) && May(s, ev, late) && HistoryOk(s, last, requests)
    ensures var s', t := Step(s, ev), Taken(s.xid, s.xidUses);
            Taken(s'.xid, s'.xidUses) == match ev
                                         case ResetTimer(newXid) => TakenNext(t, IsNak(last.ev), newXid)
                                         case LeaseTimer(newXid) => TakenNext(t, true, newXid)
                                         case RequestTimer(newXid) =>
                                           if requests < 4 then t else TakenNext(t, false, newXid)
                                         case _ => t
  {}
}
