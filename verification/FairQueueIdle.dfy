/** When the bounded queue still picks what the unbounded one would after it was idle. */
module FairQueueIdle {
  import opened Common
  import opened FairQueue
  import opened FairQueueTheorems

  // ----- continuations

  /** The queues pick different flows in this run. */
  ghost predicate Diverge(cfg: Config, c: Queue, i: Queue, evs: seq<Event>) {
    && Run(Bounded, cfg, c, evs) && Steady(Bounded, cfg, c, evs) && Run(Unbounded, cfg, i, evs)
    && Picks(Bounded, cfg, c, evs) != Picks(Unbounded, cfg, i, evs)
  }

  lemma PicksCons(clock: Clock, cfg: Config, q: Queue, ev: Event, rest: seq<Event>, q': Queue)
    requires Enabled(cfg, q, ev) && Step(clock, cfg, q, ev) == q' && Run(clock, cfg, q', rest)
    ensures Run(clock, cfg, q, [ev] + rest)
    ensures var picks := Picks(clock, cfg, q', rest);
            Picks(clock, cfg, q, [ev] + rest)
            == if q.sending.None? && q'.sending.Some? then [q'.sending.value] + picks else picks
  {
    assert ([ev] + rest)[1..] == rest;
  }

  /** They do after an event with the same effect on both. */
  lemma DivergeLater(cfg: Config, c: Queue, i: Queue, ev: Event, c': Queue, i': Queue, rest: seq<Event>)
    requires Enabled(cfg, c, ev) && Step(Bounded, cfg, c, ev) == c' && Enabled(cfg, i, ev)
    requires Step(Unbounded, cfg, i, ev) == i'
    requires c.sending == i.sending && c'.sending == i'.sending && !Idle(c) && Diverge(cfg, c', i', rest)
    ensures Diverge(cfg, c, i, [ev] + rest)
  {
    PicksCons(Bounded, cfg, c, ev, rest, c');
    PicksCons(Unbounded, cfg, i, ev, rest, i');
    assert ([ev] + rest)[1..] == rest;
    var a, b := Picks(Bounded, cfg, c', rest), Picks(Unbounded, cfg, i', rest);
    if c.sending.None? && c'.sending.Some? {
      assert ([c'.sending.value] + a)[1..] == a && ([c'.sending.value] + b)[1..] == b;
    }
  }

  /** They do at once. */
  lemma DivergeNow(cfg: Config, c: Queue, i: Queue, ev: Event, c': Queue, i': Queue)
    requires Enabled(cfg, c, ev) && Step(Bounded, cfg, c, ev) == c' && Enabled(cfg, i, ev)
    requires Step(Unbounded, cfg, i, ev) == i'
    requires c.sending.None? && i.sending.None? && c'.sending.Some? && i'.sending.Some? && c'.sending != i'.sending
    requires !Idle(c)
    ensures Diverge(cfg, c, i, [ev] + [])
  {
    PicksCons(Bounded, cfg, c, ev, [], c');
    PicksCons(Unbounded, cfg, i, ev, [], i');
    assert ([ev] + [])[1..] == [];
    assert Picks(Bounded, cfg, c, [ev] + [])[0] != Picks(Unbounded, cfg, i, [ev] + [])[0];
  }

  // ----- two flows take turns

  /** Which of two waiting flows is first. */
  lemma TwoWaiting(times: map<FlowId, int>, a: FlowId, b: FlowId)
    requires a in times && b in times
    ensures First(times, {a, b}) == if Before(times, a, b) then a else b
  {
    FirstUnique(times, {a, b}, if Before(times, a, b) then a else b);
  }

  function Gap(q: Queue, f: FlowId, g: FlowId): int
    requires f in q.times && g in q.times
  {
    q.times[f] - q.times[g]
  }

  /** Both queues send a packet of x while y waits; y is further ahead of x, or less behind it, in the unbounded one. */
  ghost predicate Duel(cfg: Config, c: Queue, i: Queue, f: FlowId, g: FlowId, x: FlowId, y: FlowId) {
    && Valid(cfg, c) && f != g && {x, y} == {f, g} && f in c.times && g in c.times
    && c == i.(times := c.times) && c.times.Keys == i.times.Keys
    && c.sending == Some(x) && c.queued.Keys == {y}
    && Gap(i, f, g) < Gap(c, f, g)
  }

  /** Flow x is done and comes back with another packet: both flows wait. */
  ghost predicate BothWait(cfg: Config, q: Queue, c: Queue, x: FlowId, y: FlowId, len: nat) {
    && WellFormed(q) && x in q.times && y in q.times && q.times.Keys == c.times.Keys
    && q.sending.None? && q.previous.None? && q.job && q.sendingLen == c.sendingLen
    && y in c.queued && q.queued == map[x := len, y := c.queued[y]]
  }

  lemma BackAgain(clock: Clock, cfg: Config, q: Queue, x: FlowId, y: FlowId, len: nat, q1: Queue) returns (q2: Queue)
    requires WellFormed(q) && x != y && y in q.times && q.sending == Some(x) && q.queued.Keys == {y} && len <= cfg.mtu
    requires q1 == Finish(q, x, q1.times) && q1.times.Keys == q.times.Keys
    ensures Enabled(cfg, q1, Send(x, len)) && q2 == Step(clock, cfg, q1, Send(x, len))
    ensures q2.times == q1.times && BothWait(cfg, q2, q, x, y, len)
  {
    q2 := Step(clock, cfg, q1, Send(x, len));
    assert q2.queued == map[x := len, y := q.queued[y]];
  }

  ghost function Turns(f: FlowId, x: FlowId, amount: nat): int { if x == f then amount as int else -(amount as int) }

  lemma BoundedBack(cfg: Config, c: Queue, f: FlowId, g: FlowId, x: FlowId, y: FlowId, len: nat)
      returns (c1: Queue, c2: Queue)
    requires Valid(cfg, c) && f != g && {x, y} == {f, g} && f in c.times && g in c.times
    requires c.sending == Some(x) && c.queued.Keys == {y} && len <= cfg.mtu
    ensures Enabled(cfg, c, Done) && c1 == Step(Bounded, cfg, c, Done) && c1 == Finish(c, x, c1.times)
    ensures Enabled(cfg, c1, Send(x, len)) && c2 == Step(Bounded, cfg, c1, Send(x, len))
    ensures Valid(cfg, c2) && BothWait(cfg, c2, c, x, y, len)
    ensures Gap(c2, f, g) == Gap(c, f, g) + Turns(f, x, cfg.weight + c.sendingLen)
  {
    c1 := Step(Bounded, cfg, c, Done);
    StepValid(cfg, c, Done);
    var sub, times := BoundedDone(cfg, c);
    assert y in c.queued;
    c2 := BackAgain(Bounded, cfg, c, x, y, len, c1);
    StepValid(cfg, c1, Send(x, len));
  }

  lemma UnboundedBack(cfg: Config, i: Queue, f: FlowId, g: FlowId, x: FlowId, y: FlowId, len: nat)
      returns (i1: Queue, i2: Queue)
    requires WellFormed(i) && i.previous.None? && !i.job && f != g && {x, y} == {f, g} && f in i.times && g in i.times
    requires i.sending == Some(x) && i.queued.Keys == {y} && len <= cfg.mtu
    ensures Enabled(cfg, i, Done) && i1 == Step(Unbounded, cfg, i, Done) && i1 == Finish(i, x, i1.times)
    ensures Enabled(cfg, i1, Send(x, len)) && i2 == Step(Unbounded, cfg, i1, Send(x, len))
    ensures BothWait(cfg, i2, i, x, y, len)
    ensures Gap(i2, f, g) == Gap(i, f, g) + Turns(f, x, cfg.weight + i.sendingLen)
  {
    i1 := Step(Unbounded, cfg, i, Done);
    i2 := BackAgain(Unbounded, cfg, i, x, y, len, i1);
  }

  /** The flow that comes first is sent and the other goes on waiting. */
  lemma Next(clock: Clock, cfg: Config, q: Queue, c: Queue, f: FlowId, g: FlowId, x: FlowId, y: FlowId, len: nat)
      returns (q': Queue)
    requires BothWait(cfg, q, c, x, y, len) && f != g && {x, y} == {f, g}
    ensures Enabled(cfg, q, Job) && q' == Step(clock, cfg, q, Job)
    ensures var a := if Before(q.times, f, g) then f else g;
            var b := if a == f then g else f;
            q' == Queue(q.times, map[b := q.queued[b]], Some(a), q.queued[a], None, false)
  {
    q' := Step(clock, cfg, q, Job);
    assert q.queued.Keys == {x, y} == {f, g};
    TwoWaiting(q.times, f, g);
    assert q.queued - {f} == map[g := q.queued[g]] && q.queued - {g} == map[f := q.queued[f]];
  }

  /** One turn: x is done and comes back, and the next packet is picked. */
  ghost predicate Turn(clock: Clock, cfg: Config, q: Queue, x: FlowId, len: nat, q1: Queue, q2: Queue, q': Queue) {
    && Enabled(cfg, q, Done) && Step(clock, cfg, q, Done) == q1
    && Enabled(cfg, q1, Send(x, len)) && Step(clock, cfg, q1, Send(x, len)) == q2
    && Enabled(cfg, q2, Job) && Step(clock, cfg, q2, Job) == q'
    && q.sending.Some? && q1.sending.None? && q2.sending.None? && q'.sending.Some? && q1.previous.Some?
      && q2.queued != map[]
  }

  ghost function TurnEvents(x: FlowId, len: nat, rest: seq<Event>): seq<Event> {
    [Done] + ([Send(x, len)] + ([Job] + rest))
  }

  lemma TurnDiverges(cfg: Config, c: Queue, c1: Queue, c2: Queue, c': Queue, i: Queue, i1: Queue, i2: Queue, i': Queue,
                     x: FlowId, len: nat, rest: seq<Event>)
    requires Turn(Bounded, cfg, c, x, len, c1, c2, c') && Turn(Unbounded, cfg, i, x, len, i1, i2, i')
    requires c.sending == i.sending
    requires if c'.sending == i'.sending then Diverge(cfg, c', i', rest) else rest == []
    ensures Diverge(cfg, c, i, TurnEvents(x, len, rest))
  {
    if c'.sending == i'.sending {
      DivergeLater(cfg, c2, i2, Job, c', i', rest);
    } else {
      DivergeNow(cfg, c2, i2, Job, c', i');
    }
    DivergeLater(cfg, c1, i1, Send(x, len), c2, i2, [Job] + rest);
    DivergeLater(cfg, c, i, Done, c1, i1, [Send(x, len)] + ([Job] + rest));
  }

  /** What the queue is after a turn: the flow that comes first is sent, and the other one waits. */
  ghost predicate Turned(cfg: Config, q: Queue, f: FlowId, g: FlowId, x: FlowId, y: FlowId, len: nat, q': Queue) {
    && x in q.times && y in q.times && f in q.times && g in q.times && y in q.queued && q'.times.Keys == q.times.Keys
    && Gap(q', f, g) == Gap(q, f, g) + Turns(f, x, cfg.weight + q.sendingLen)
    && var lens := map[x := len, y := q.queued[y]];
       var a := if Before(q'.times, f, g) then f else g;
       var b := if a == f then g else f;
       a in lens && b in lens && q' == Queue(q'.times, map[b := lens[b]], Some(a), lens[a], None, false)
  }

  lemma BoundedTurn(cfg: Config, c: Queue, f: FlowId, g: FlowId, x: FlowId, y: FlowId, len: nat)
      returns (c1: Queue, c2: Queue, c': Queue)
    requires Valid(cfg, c) && f != g && {x, y} == {f, g} && f in c.times && g in c.times
    requires c.sending == Some(x) && c.queued.Keys == {y} && len <= cfg.mtu
    ensures Turn(Bounded, cfg, c, x, len, c1, c2, c') && Turned(cfg, c, f, g, x, y, len, c') && Valid(cfg, c')
  {
    c1, c2 := BoundedBack(cfg, c, f, g, x, y, len);
    c' := Next(Bounded, cfg, c2, c, f, g, x, y, len);
    StepValid(cfg, c2, Job);
  }

  lemma UnboundedTurn(cfg: Config, i: Queue, f: FlowId, g: FlowId, x: FlowId, y: FlowId, len: nat)
      returns (i1: Queue, i2: Queue, i': Queue)
    requires WellFormed(i) && i.previous.None? && !i.job && f != g && {x, y} == {f, g} && f in i.times && g in i.times
    requires i.sending == Some(x) && i.queued.Keys == {y} && len <= cfg.mtu
    ensures Turn(Unbounded, cfg, i, x, len, i1, i2, i') && Turned(cfg, i, f, g, x, y, len, i')
  {
    i1, i2 := UnboundedBack(cfg, i, f, g, x, y, len);
    i' := Next(Unbounded, cfg, i2, i, f, g, x, y, len);
  }

  // ----- until their gap falls between the two orders

  /** The packets of f have no bytes, those of g one. */
  function LengthOf(f: FlowId, x: FlowId): nat { if x == f then 0 else 1 }

  /** Flow f comes before g if and only if the gap is below this. */
  function Edge(f: FlowId, g: FlowId): int { if f < g then 1 else 0 }

  ghost predicate Armed(c: Queue, i: Queue, f: FlowId, g: FlowId, x: FlowId, y: FlowId)
    requires f in c.times && g in c.times && f in i.times && g in i.times
  {
    && c.sendingLen == LengthOf(f, x) && y in c.queued && c.queued[y] == LengthOf(f, y)
    && if x == f then Before(c.times, f, g) else !Before(i.times, f, g)
  }

  /** How far the duel is from the gap at which the two queues disagree. */
  function Rank(weight: int, first: bool, over: int): nat
    requires weight > 0 && if first then over < 0 else over >= 0
  {
    if !first then 2 * over else if over >= -weight then 2 * (over + weight) + 1 else 2 * weight + 2 - over
  }

  lemma RankFalls(weight: int, first: bool, over: int, lead: int)
    requires 0 < weight && 0 < lead && if first then over < 0 else over >= lead
    ensures var next := if first then over + weight else over - (weight + 1);
            && (next < 0 ==> Rank(weight, true, next) < Rank(weight, first, over))
            && (next >= lead ==> Rank(weight, false, next) < Rank(weight, first, over))
  {}

  lemma DuelGoesOn(cfg: Config, c: Queue, i: Queue, f: FlowId, g: FlowId, x: FlowId, y: FlowId, c': Queue, i': Queue)
    requires Duel(cfg, c, i, f, g, x, y) && c.queued[y] == LengthOf(f, y)
    requires Turned(cfg, c, f, g, x, y, LengthOf(f, x), c') && Turned(cfg, i, f, g, x, y, LengthOf(f, x), i')
    requires Valid(cfg, c') && c'.sending == i'.sending
    ensures var x' := c'.sending.value;
            var y' := if x' == f then g else f;
            Duel(cfg, c', i', f, g, x', y') && Armed(c', i', f, g, x', y')
  {}

  /** Two flows that take turns bring the queues to pick different flows. */
  lemma {:induction false} Fight(cfg: Config, c: Queue, i: Queue, f: FlowId, g: FlowId, x: FlowId, y: FlowId)
      returns (evs: seq<Event>)
    requires cfg.mtu >= 1 && Duel(cfg, c, i, f, g, x, y) && Armed(c, i, f, g, x, y)
    ensures Diverge(cfg, c, i, evs)
    decreases Rank(cfg.weight, x == f, Gap(c, f, g) - Edge(f, g))
  {
    var len := LengthOf(f, x);
    var c1, c2, c' := BoundedTurn(cfg, c, f, g, x, y, len);
    var i1, i2, i' := UnboundedTurn(cfg, i, f, g, x, y, len);
    var rest := [];
    if c'.sending == i'.sending {
      DuelGoesOn(cfg, c, i, f, g, x, y, c', i');
      RankFalls(cfg.weight, x == f, Gap(c, f, g) - Edge(f, g), Gap(c, f, g) - Gap(i, f, g));
      rest := Fight(cfg, c', i', f, g, c'.sending.value, if c'.sending.value == f then g else f);
    }
    TurnDiverges(cfg, c, c1, c2, c', i, i1, i2, i', x, len, rest);
    evs := TurnEvents(x, len, rest);
  }

  /** The same from a packet of f of any length. */
  lemma FirstTurn(cfg: Config, c: Queue, i: Queue, f: FlowId, g: FlowId) returns (evs: seq<Event>)
    requires cfg.mtu >= 1 && Duel(cfg, c, i, f, g, f, g) && c.queued[g] == LengthOf(f, g)
    ensures Diverge(cfg, c, i, evs)
  {
    var c1, c2, c' := BoundedTurn(cfg, c, f, g, f, g, 0);
    var i1, i2, i' := UnboundedTurn(cfg, i, f, g, f, g, 0);
    var rest := [];
    if c'.sending == i'.sending {
      DuelGoesOn(cfg, c, i, f, g, f, g, c', i');
      rest := Fight(cfg, c', i', f, g, c'.sending.value, if c'.sending.value == f then g else f);
    }
    TurnDiverges(cfg, c, c1, c2, c', i, i1, i2, i', f, 0, rest);
    evs := TurnEvents(f, 0, rest);
  }

  // ----- a flow wakes up the idle queue

  /** The times say nothing of a flow before zero. */
  ghost predicate NonNegative(q: Queue) {
    forall g :: g in q.times ==> 0 <= q.times[g]
  }

  /** Flow f is sent, if need be by the job that was still set. */
  lemma Woken(clock: Clock, cfg: Config, q: Queue, f: FlowId, len: nat) returns (q': Queue, q'': Queue)
    requires Enabled(cfg, q, Send(f, len)) && Idle(q) && NonNegative(q)
    ensures q' == Step(clock, cfg, q, Send(f, len)) && q'' == Queue(q.times, map[], Some(f), len, None, false)
    ensures if q.job
            then q'.sending.None? && f in q'.queued && Enabled(cfg, q', Job) && q'' == Step(clock, cfg, q', Job)
            else q' == q''
  {
    q' := Step(clock, cfg, q, Send(f, len));
    q'' := Queue(q.times, map[], Some(f), len, None, false);
    var w := Enqueue(q, f, len);
    assert w.times == q.times && w.queued.Keys == {f} && w.queued - {f} == map[];
    assert First(w.times, {f}) == f;
  }

  /** Then another flow comes that is not behind. */
  lemma Joined(clock: Clock, cfg: Config, q: Queue, f: FlowId, g: FlowId, len: nat) returns (q': Queue)
    requires q == Queue(q.times, map[], Some(f), len, None, false) && f in q.times && g in q.times && f != g
    requires q.times[f] <= q.times[g] && cfg.mtu >= 1
    ensures Enabled(cfg, q, Send(g, 1)) && q' == Step(clock, cfg, q, Send(g, 1))
    ensures q' == Queue(q.times, map[g := 1], Some(f), len, None, false)
  {
    q' := Step(clock, cfg, q, Send(g, 1));
    assert q.times[g := q.times[g]] == q.times;
  }

  /** The queues disagree after f was woken up, if g is further ahead of it in the unbounded one. */
  lemma WokenDiverges(cfg: Config, c: Queue, i: Queue, f: FlowId, g: FlowId, len: nat) returns (evs: seq<Event>)
    requires Valid(cfg, c) && cfg.mtu >= 1 && c.times.Keys == i.times.Keys && f in c.times && g in c.times
    requires c == Queue(c.times, map[], Some(f), len, None, false)
    requires i == Queue(i.times, map[], Some(f), len, None, false)
    requires c.times[f] <= c.times[g] && i.times[f] < i.times[g] && c.times[g] - c.times[f] < i.times[g] - i.times[f]
    ensures Diverge(cfg, c, i, evs)
  {
    var c' := Joined(Bounded, cfg, c, f, g, len);
    var i' := Joined(Unbounded, cfg, i, f, g, len);
    StepValid(cfg, c, Send(g, 1));
    var rest := FirstTurn(cfg, c', i', f, g);
    DivergeLater(cfg, c, i, Send(g, 1), c', i', rest);
    evs := [Send(g, 1)] + rest;
  }

  /** Runs that begin with ev and go on without another flow whose time may have been clamped waking up the queue. */
  ghost predicate GoesOn(cfg: Config, q: Queue, ev: Event, evs: seq<Event>) {
    && Run(Bounded, cfg, q, [ev] + evs) && Enabled(cfg, q, ev)
    && Run(Bounded, cfg, Step(Bounded, cfg, q, ev), evs) && Steady(Bounded, cfg, Step(Bounded, cfg, q, ev), evs)
  }

  ghost predicate SamePicks(cfg: Config, c: Queue, i: Queue, ev: Event) {
    forall evs :: GoesOn(cfg, c, ev, evs) ==>
      Run(Unbounded, cfg, i, [ev] + evs) && Picks(Bounded, cfg, c, [ev] + evs) == Picks(Unbounded, cfg, i, [ev] + evs)
  }

  /** The ideal time of f was not clamped away, or no flow is ahead of it. */
  ghost predicate InStep(i: Queue, base: nat, f: FlowId)
    requires f in i.times
  {
    base <= i.times[f] || forall g :: g in i.times ==> i.times[g] <= i.times[f]
  }

  /** If it is so, the bounded queue still is the unbounded one less a base. */
  lemma StaysInStep(cfg: Config, c: Queue, i: Queue, base: nat, f: FlowId, len: nat) returns (base': nat)
    requires Valid(cfg, c) && Sim(c, i, base) && Idle(c) && NonNegative(i) && Enabled(cfg, c, Send(f, len))
    requires InStep(i, base, f)
    ensures Enabled(cfg, i, Send(f, len))
    ensures Sim(Step(Bounded, cfg, c, Send(f, len)), Step(Unbounded, cfg, i, Send(f, len)), base')
  {
    var c', c'' := Woken(Bounded, cfg, c, f, len);
    var i', i'' := Woken(Unbounded, cfg, i, f, len);
    base' := if base <= i.times[f] then base else i.times[f];
    assert c'.times == c.times && i'.times == i.times;
  }

  lemma SameFrom(cfg: Config, c: Queue, i: Queue, base: nat, f: FlowId, len: nat)
    requires Valid(cfg, c) && Sim(c, i, base) && Idle(c) && NonNegative(i) && Enabled(cfg, c, Send(f, len))
    requires InStep(i, base, f)
    ensures SamePicks(cfg, c, i, Send(f, len))
  {
    var ev := Send(f, len);
    var base' := StaysInStep(cfg, c, i, base, f, len);
    var c', i' := Step(Bounded, cfg, c, ev), Step(Unbounded, cfg, i, ev);
    StepValid(cfg, c, ev);
    forall evs | GoesOn(cfg, c, ev, evs)
      ensures Run(Unbounded, cfg, i, [ev] + evs)
      ensures Picks(Bounded, cfg, c, [ev] + evs) == Picks(Unbounded, cfg, i, [ev] + evs)
    {
      RefineRun(cfg, c', i', base', evs);
      PicksCons(Bounded, cfg, c, ev, evs, c');
      PicksCons(Unbounded, cfg, i, ev, evs, i');
    }
  }

  /**
    A busy period that begins with equal times, where nothing was clamped: whichever flow begins it, also one with
    time 0, the bounded queue picks what the unbounded one does.
  */
  lemma NewBusyPeriod(cfg: Config, q: Queue, f: FlowId, len: nat, evs: seq<Event>)
    requires Valid(cfg, q) && Idle(q) && GoesOn(cfg, q, Send(f, len), evs)
    ensures Run(Unbounded, cfg, q, [Send(f, len)] + evs)
    ensures Picks(Bounded, cfg, q, [Send(f, len)] + evs) == Picks(Unbounded, cfg, q, [Send(f, len)] + evs)
  {
    SameFrom(cfg, q, q, 0, f, len);
  }

  lemma DifferFrom(cfg: Config, c: Queue, i: Queue, base: nat, f: FlowId, len: nat)
    requires Valid(cfg, c) && Sim(c, i, base) && Idle(c) && NonNegative(i) && Enabled(cfg, c, Send(f, len))
    requires !InStep(i, base, f)
    requires cfg.mtu >= 1
    ensures !SamePicks(cfg, c, i, Send(f, len))
  {
    var ev, g :| ev == Send(f, len) && g in i.times && i.times[g] > i.times[f];
    var c', c'' := Woken(Bounded, cfg, c, f, len);
    var i', i'' := Woken(Unbounded, cfg, i, f, len);
    StepValid(cfg, c, ev);
    if c.job {
      StepValid(cfg, c', Job);
    }
    var evs := WokenDiverges(cfg, c'', i'', f, g, len);
    if c.job {
      DivergeLater(cfg, c', i', Job, c'', i'', evs);
      evs := [Job] + evs;
    }
    PicksCons(Bounded, cfg, c, ev, evs, c');
    PicksCons(Unbounded, cfg, i, ev, evs, i');
    assert GoesOn(cfg, c, ev, evs);
    var a, b := Picks(Bounded, cfg, c', evs), Picks(Unbounded, cfg, i', evs);
    assert ([f] + a)[1..] == a && ([f] + b)[1..] == b;
  }

  /**
    Exactly when the bounded queue goes on picking what the unbounded one does, whatever comes next, although a
    flow wakes it up when it is idle: the time of that flow was not clamped away, or no flow is ahead of it.
  */
  lemma IdleWakeUp(cfg: Config, c: Queue, i: Queue, base: nat, f: FlowId, len: nat)
    requires Valid(cfg, c) && Sim(c, i, base) && Idle(c) && NonNegative(i) && Enabled(cfg, c, Send(f, len))
    requires cfg.mtu >= 1
    ensures SamePicks(cfg, c, i, Send(f, len)) <==> InStep(i, base, f)
  {
    if InStep(i, base, f) {
      SameFrom(cfg, c, i, base, f, len);
    } else {
      DifferFrom(cfg, c, i, base, f, len);
    }
  }

  // ----- a run in which it goes wrong

  /** 64-bit times, as the C code has them. */
  const FULL := Config(1, 5, TWO64 - 1)

  ghost predicate Differ(c: Queue, i: Queue, evs: seq<Event>) {
    Run(Bounded, FULL, c, evs) && Run(Unbounded, FULL, i, evs)
      && Picks(Bounded, FULL, c, evs) != Picks(Unbounded, FULL, i, evs)
  }

  lemma DifferLater(c: Queue, i: Queue, ev: Event, c': Queue, i': Queue, rest: seq<Event>)
    requires Enabled(FULL, c, ev) && Step(Bounded, FULL, c, ev) == c' && Enabled(FULL, i, ev)
    requires Step(Unbounded, FULL, i, ev) == i'
    requires c.sending == i.sending && c'.sending == i'.sending && Differ(c', i', rest)
    ensures Differ(c, i, [ev] + rest)
  {
    PicksCons(Bounded, FULL, c, ev, rest, c');
    PicksCons(Unbounded, FULL, i, ev, rest, i');
    var a, b := Picks(Bounded, FULL, c', rest), Picks(Unbounded, FULL, i', rest);
    if c.sending.None? && c'.sending.Some? {
      assert ([c'.sending.value] + a)[1..] == a && ([c'.sending.value] + b)[1..] == b;
    }
  }

  /** Flow 0 has time t, flow 1 has never sent. */
  function Alone(t: int, len: nat): Queue { Queue(map[0 := t, 1 := 0], map[], None, len, None, false) }

  function Lap(rest: seq<Event>): seq<Event> { [Send(0, 5)] + ([Done] + ([Job] + rest)) }

  function Sending(t: int): Queue { Queue(map[0 := t, 1 := 0], map[], Some(0), 5, None, false) }

  /** Flow 0 sends a packet alone; a rebase takes all its time away. */
  lemma LapStates(clock: Clock, t: nat, len: nat) returns (t': nat)
    requires clock.Bounded? ==> t <= FULL.maxTime
    ensures t' == if clock.Bounded? && t + 6 > FULL.maxTime then 6 else t + 6
    ensures Enabled(FULL, Alone(t, len), Send(0, 5)) && Step(clock, FULL, Alone(t, len), Send(0, 5)) == Sending(t)
    ensures Enabled(FULL, Sending(t), Done)
    ensures var q := Step(clock, FULL, Sending(t), Done);
            q == Finish(Sending(t), 0, map[0 := t', 1 := 0]) && Enabled(FULL, q, Job)
              && Step(clock, FULL, q, Job) == Alone(t', 5)
  {
    t' := if clock.Bounded? && t + 6 > FULL.maxTime then 6 else t + 6;
    var w := Enqueue(Alone(t, len), 0, 5);
    assert w.times == map[0 := t, 1 := 0] && w.queued.Keys == {0} && w.queued - {0} == map[];
    assert First(w.times, {0}) == 0;
    assert Increment(clock, FULL, map[0 := t, 1 := 0], {}, 0, 6) == map[0 := t', 1 := 0];
  }

  lemma DifferLap(t: nat, u: nat, len: nat, t': nat, rest: seq<Event>)
    requires t <= FULL.maxTime && t' == (if t + 6 > FULL.maxTime then 6 else t + 6)
    requires Differ(Alone(t', 5), Alone(u + 6, 5), rest)
    ensures Differ(Alone(t, len), Alone(u, len), Lap(rest))
  {
    var _ := LapStates(Bounded, t, len);
    var u' := LapStates(Unbounded, u, len);
    var c, i := Step(Bounded, FULL, Sending(t), Done), Step(Unbounded, FULL, Sending(u), Done);
    DifferLater(c, i, Job, Alone(t', 5), Alone(u', 5), rest);
    DifferLater(Sending(t), Sending(u), Done, c, i, [Job] + rest);
    DifferLater(Alone(t, len), Alone(u, len), Send(0, 5), Sending(t), Sending(u), [Done] + ([Job] + rest));
  }

  lemma {:induction false} DifferLaps(t: nat, n: nat, end: nat, rest: seq<Event>) returns (evs: seq<Event>)
    requires t + 6 * n == end <= FULL.maxTime && Differ(Alone(end, 5), Alone(end, 5), rest)
    ensures Differ(Alone(t, 5), Alone(t, 5), evs)
    decreases n
  {
    if n == 0 {
      evs := rest;
    } else {
      evs := DifferLaps(t + 6, n - 1, end, rest);
      DifferLap(t, t, 5, t + 6, evs);
      evs := Lap(evs);
    }
  }

  /** The states that flows 0 and 1, with times t and 0, go through after the idle gap. */
  function GapState(t: int, n: nat): Queue
    requires n <= 5
  {
    var times := map[0 := t, 1 := if n < 3 then 0 else 6];
    var f: FlowId := if t == 6 then 0 else 1;
    if n == 0 then Alone(t, 5)
    else if n == 1 then Queue(times, map[], Some(1), 5, None, false)
    else if n == 2 then Queue(times, map[0 := 0], Some(1), 5, None, false)
    else if n == 3 then Queue(times, map[0 := 0], None, 5, Some(1), true)
    else if n == 4 then Queue(times, map[0 := 0, 1 := 0], None, 5, None, true)
    else Queue(times, map[1 - f := 0], Some(f), 0, None, false)
  }

  lemma GapArrivals(clock: Clock, t: int)
    requires t >= 6
    ensures var ev := Send(1, 5);
            Enabled(FULL, GapState(t, 0), ev) && Step(clock, FULL, GapState(t, 0), ev) == GapState(t, 1)
    ensures var ev := Send(0, 0);
            Enabled(FULL, GapState(t, 1), ev) && Step(clock, FULL, GapState(t, 1), ev) == GapState(t, 2)
  {
    var w := Enqueue(GapState(t, 0), 1, 5);
    assert w.queued.Keys == {1} && w.queued - {1} == map[];
    assert Enqueue(GapState(t, 1), 0, 0) == GapState(t, 2);
  }

  lemma GapDone(clock: Clock, t: int)
    requires t >= 6
    ensures var ev := Done; Enabled(FULL, GapState(t, 2), ev) && Step(clock, FULL, GapState(t, 2), ev) == GapState(t, 3)
    ensures var ev := Send(1, 0);
            Enabled(FULL, GapState(t, 3), ev) && Step(clock, FULL, GapState(t, 3), ev) == GapState(t, 4)
  {
    assert Increment(clock, FULL, GapState(t, 2).times, {0}, 1, 6) == map[0 := t, 1 := 6];
    assert Enqueue(GapState(t, 3), 1, 0) == GapState(t, 4);
  }

  lemma GapJob(clock: Clock, t: int)
    requires t >= 6
    ensures Enabled(FULL, GapState(t, 4), Job) && Step(clock, FULL, GapState(t, 4), Job) == GapState(t, 5)
  {
    var f: FlowId := if t == 6 then 0 else 1;
    assert GapState(t, 4).queued.Keys == {0, 1} == {f, 1 - f};
    TwoWaiting(GapState(t, 4).times, 0, 1);
    assert GapState(t, 4).queued - {f} == map[1 - f := 0];
  }

  lemma DifferAtGap(u: int) returns (evs: seq<Event>)
    requires u > 6
    ensures Differ(Alone(6, 5), Alone(u, 5), evs)
  {
    GapArrivals(Bounded, 6);
    GapArrivals(Unbounded, u);
    GapDone(Bounded, 6);
    GapDone(Unbounded, u);
    evs := DifferAtJob(u);
    DifferLater(GapState(6, 3), GapState(u, 3), Send(1, 0), GapState(6, 4), GapState(u, 4), evs);
    evs := [Send(1, 0)] + evs;
    DifferLater(GapState(6, 2), GapState(u, 2), Done, GapState(6, 3), GapState(u, 3), evs);
    evs := [Done] + evs;
    DifferLater(GapState(6, 1), GapState(u, 1), Send(0, 0), GapState(6, 2), GapState(u, 2), evs);
    evs := [Send(0, 0)] + evs;
    DifferLater(GapState(6, 0), GapState(u, 0), Send(1, 5), GapState(6, 1), GapState(u, 1), evs);
    evs := [Send(1, 5)] + evs;
  }

  lemma DifferAtJob(u: int) returns (evs: seq<Event>)
    requires u > 6
    ensures Differ(GapState(6, 4), GapState(u, 4), evs)
  {
    GapJob(Bounded, 6);
    GapJob(Unbounded, u);
    evs := [Job] + [];
    PicksCons(Bounded, FULL, GapState(6, 4), Job, [], GapState(6, 5));
    PicksCons(Unbounded, FULL, GapState(u, 4), Job, [], GapState(u, 5));
    assert Picks(Bounded, FULL, GapState(6, 4), evs)[0] != Picks(Unbounded, FULL, GapState(u, 4), evs)[0];
  }

  /** Flow 0 goes on alone until its time no longer fits. */
  lemma DifferInTheEnd(t: nat, n: nat) returns (evs: seq<Event>)
    requires t + 6 * n <= FULL.maxTime < t + 6 * n + 6
    ensures Differ(Alone(t, 5), Alone(t, 5), evs)
  {
    var end := t + 6 * n;
    var gap := DifferAtGap(end + 6);
    DifferLap(end, end, 5, 6, gap);
    evs := DifferLaps(t, n, end, Lap(gap));
  }

  lemma DifferFromEmpty(rest: seq<Event>) returns (evs: seq<Event>)
    requires Differ(Alone(6, 5), Alone(6, 5), rest)
    ensures Differ(EMPTY, EMPTY, evs)
  {
    var one := Queue(map[0 := 0], map[], None, 0, None, false);
    DifferLap(0, 0, 0, 6, rest);
    DifferLater(one, one, Init(1), Alone(0, 0), Alone(0, 0), Lap(rest));
    DifferLater(EMPTY, EMPTY, Init(0), one, one, [Init(1)] + Lap(rest));
    evs := [Init(0)] + ([Init(1)] + Lap(rest));
  }

  /**
    A run from the empty queue, with the times of the C code, in which the bounded queue does not pick what the
    unbounded one does. Flow 0 sends alone until its time no longer fits, and is rebased to 6. Then flow 1, which
    has never sent, wakes up the idle queue, and after its first packet the bounded queue takes flow 0 next, the
    unbounded one flow 1 again.
  */
  lemma IdleGapDiverges() returns (evs: seq<Event>)
    ensures FULL.Valid() && Differ(EMPTY, EMPTY, evs)
  {
    var rest := DifferInTheEnd(6, (FULL.maxTime - 6) / 6);
    evs := DifferFromEmpty(rest);
  }
}
