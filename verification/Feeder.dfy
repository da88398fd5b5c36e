/**
 * The feeder's client handlers as interleaved steps. They share the permit counter and the
 * pool; every await is a point at which another handler or a step of the system may run, and it
 * is the system's sweeps that make the pool what it is.
 */
module Feeder {
  import opened Prelude
  import opened Sorting
  import opened Pressure
  import PoolStates
  import Selection
  import Sweeps

  datatype Config = Config(system: Sweeps.Config, policy: PressurePolicy, maxFailover: int) {
    /** How many members one request may try. */
    function Tries(): (n: int)
      ensures n >= 1 && n >= maxFailover && (n == 1 || n == maxFailover)
    {
      Max(1, maxFailover)
    }
  }

  datatype Phase =
    | Refusing   // no permit: answering 503
    | Reading    // reading the request head
    | Opening    // connecting to the member dialled last
    | Waiting    // connected, waiting for its answer
    | Relaying   // it answered; the connection stays with it
    | Replying   // answering 400 or 502
    | Closing    // permit returned, closing the client
    | Gone

  /** What a pool offers at a moment: `healthy_ranked`, the members whose flag is up, and the preferred one. */
  datatype Offer = Offer(ranked: seq<string>, healthy: set<string>, preferred: Option<string>) {
    /** The list is a list of the healthy members that starts with the preferred one. */
    ghost predicate Fair() {
      && NoDuplicates(ranked) && (forall id :: id in ranked <==> id in healthy)
      && (ranked == [] <==> preferred.None?)
      && (ranked != [] ==> preferred == Some(ranked[0]))
    }
  }

  const NO_OFFER := Offer([], {}, None)

  function OfferOf(p: PoolStates.PoolState): Offer
    requires p.Valid()
  {
    Offer(PoolStates.HealthyRanked(p), (set id | id in p.members && p.members[id].health.healthy), p.choice.preferred)
  }

  /** A connection attempt, and whether its member was healthy when it was made. */
  datatype Dial = Dial(id: string, healthy: bool)

  datatype Handler = Handler(
    phase: Phase,
    acquires: nat,
    releases: nat,
    parsed: bool,
    snapshot: Offer,
    candidates: seq<string>,
    dials: seq<Dial>,
    opens: nat,
    closes: nat,
    answered: Option<nat>,
    reply: Option<int>,
    cancelled: bool,
    faulted: bool)

  datatype Server = Server(active: nat, system: Sweeps.System, handlers: map<nat, Handler>) {
    /** What the pool offers at the moment. */
    function Now(): Offer {
      OfferOf(system.pool)
    }
  }

  datatype Event =
    | System(step: Sweeps.Step)
    | Connect(h: nat, rssBytes: int)
    | HeadBad(h: nat)
    | HeadRead(h: nat, targetOk: bool)
    | OpenFailed(h: nat)
    | Opened(h: nat)
    | Rejected(h: nat)
    | Answered(h: nat)
    | ClientFault(h: nat)
    | RelayEnded(h: nat)
    | Replied(h: nat)
    | Closed(h: nat)
    | Cancelled(h: nat)

  function Start(c: Config): Server
    requires NoDuplicates(c.system.ids)
  {
    Server(0, Sweeps.Start(c.system), map[])
  }

  /** A handler between its acquire and its release. */
  predicate Holding(x: Handler) {
    x.phase.Reading? || x.phase.Opening? || x.phase.Waiting? || x.phase.Relaying? || x.phase.Replying?
  }

  /** The awaits at which an event can find a handler. */
  predicate CanMove(x: Handler, e: Event) {
    match e
    case HeadBad(_) => x.phase.Reading?
    case HeadRead(_, _) => x.phase.Reading?
    case OpenFailed(_) => x.phase.Opening?
    case Opened(_) => x.phase.Opening?
    case Rejected(_) => x.phase.Waiting?
    case Answered(_) => x.phase.Waiting?
    case ClientFault(_) => x.phase.Relaying?
    case RelayEnded(_) => x.phase.Relaying?
    case Replied(_) => x.phase.Replying?
    case Closed(_) => x.phase.Closing? || x.phase.Refusing?
    case Cancelled(_) => !x.phase.Gone?
    case _ => false
  }

  predicate Enabled(c: Config, s: Server, e: Event) {
    match e
    case System(step) => Sweeps.Enabled(c.system, s.system, step)
    case Connect(h, _) => h !in s.handlers
    case _ => e.h in s.handlers && CanMove(s.handlers[e.h], e)
  }

  /** Dial the next candidate, or give up with 502 when there is none left. */
  function TryNext(now: Offer, x: Handler): Handler {
    if |x.dials| < |x.candidates| then
      var id := x.candidates[|x.dials|];
      x.(phase := Opening, dials := x.dials + [Dial(id, id in now.healthy)])
    else
      x.(phase := Replying, reply := Some(502))
  }

  /** The request line is parsed and the pool's list read; only then is a CONNECT target parsed. */
  function Snapshot(c: Config, now: Offer, x: Handler): Handler {
    x.(parsed := true, snapshot := now, candidates := Take(now.ranked, c.Tries()))
  }

  /** An attempt is over and its connection closed. */
  function Shut(x: Handler): Handler {
    x.(closes := x.closes + 1)
  }

  /** The handler reaches the `finally` that returns its permit. */
  predicate ReturnsPermit(x: Handler, e: Event) {
    e.RelayEnded? || e.Replied? || (e.Cancelled? && Holding(x))
  }

  function Move(c: Config, now: Offer, x: Handler, e: Event): Handler
    requires CanMove(x, e)
  {
    match e
    case HeadBad(_) => x.(phase := Replying, reply := Some(400))
    case HeadRead(_, targetOk) =>
      var y := Snapshot(c, now, x);
      if y.candidates != [] && !targetOk then y.(phase := Replying, reply := Some(400)) else TryNext(now, y)
    case OpenFailed(_) => TryNext(now, x)
    case Opened(_) => x.(phase := Waiting, opens := x.opens + 1)
    case Rejected(_) => TryNext(now, Shut(x))
    case Answered(_) => x.(phase := Relaying, answered := if x.dials == [] then None else Some(|x.dials| - 1))
    case ClientFault(_) => TryNext(now, Shut(x).(faulted := true))
    case RelayEnded(_) => Shut(x).(phase := Closing, releases := x.releases + 1)
    case Replied(_) => x.(phase := Closing, releases := x.releases + 1)
    case Closed(_) => x.(phase := Gone)
    case Cancelled(_) =>
      x.(phase := Gone, cancelled := true, releases := x.releases + (if Holding(x) then 1 else 0))
  }

  function NewHandler(admitted: bool): Handler {
    Handler(if admitted then Reading else Refusing, if admitted then 1 else 0, 0, false, NO_OFFER, [], [], 0, 0, None,
            if admitted then None else Some(503), false, false)
  }

  function Next(c: Config, s: Server, e: Event): Server
    requires Enabled(c, s, e)
  {
    match e
    case System(step) => s.(system := Sweeps.Next(c.system, s.system, step))
    case Connect(h, rssBytes) =>
      var admitted := c.policy.Admits(s.active, rssBytes);
      Server(s.active + (if admitted then 1 else 0), s.system, s.handlers[h := NewHandler(admitted)])
    case _ =>
      var x := s.handlers[e.h];
      Server(if ReturnsPermit(x, e) then Released(s.active) else s.active, s.system,
             s.handlers[e.h := Move(c, s.Now(), x, e)])
  }

  predicate Possible(c: Config, events: seq<Event>)
    requires NoDuplicates(c.system.ids)
    decreases |events|, 0
  {
    events == []
    || (Possible(c, events[..|events| - 1]) && Enabled(c, After(c, events[..|events| - 1]), events[|events| - 1]))
  }

  function After(c: Config, events: seq<Event>): Server
    requires NoDuplicates(c.system.ids) && Possible(c, events)
    decreases |events|, 1
  {
    if events == [] then Start(c)
    else Next(c, After(c, events[..|events| - 1]), events[|events| - 1])
  }

  // ---- Permits.

  ghost function Holders(s: Server): set<nat> {
    set h | h in s.handlers && Holding(s.handlers[h])
  }

  /** The counter is the number of handlers that hold a permit, each of which acquired once. */
  ghost predicate PermitsConserved(c: Config, s: Server) {
    && s.active == |Holders(s)|
    && s.active <= Max(0, c.policy.maxConnections)
    && forall h | h in s.handlers :: PermitOf(s.handlers[h])
  }

  lemma HoldersAfter(s: Server, h: nat, x: Handler, t: Server)
    requires t.handlers == s.handlers[h := x]
    ensures Holders(t) == if Holding(x) then Holders(s) + {h} else Holders(s) - {h}
    ensures h in Holders(s) <==> h in s.handlers && Holding(s.handlers[h])
  {
  }

  lemma MoveHolds(c: Config, now: Offer, x: Handler, e: Event)
    requires CanMove(x, e)
    ensures var y := Move(c, now, x, e);
            && (Holding(y) <==> Holding(x) && !ReturnsPermit(x, e))
            && (ReturnsPermit(x, e) ==> Holding(x))
            && y.acquires == x.acquires && y.releases == x.releases + (if ReturnsPermit(x, e) then 1 else 0)
  {
  }

  lemma HoldersCount(s: Server, h: nat, x: Handler, t: Server)
    requires t.handlers == s.handlers[h := x]
    ensures var held := h in s.handlers && Holding(s.handlers[h]);
            && |Holders(t)| == |Holders(s)| + (if Holding(x) then 1 else 0) - (if held then 1 else 0)
            && (held ==> |Holders(s)| > 0)
  {
    HoldersAfter(s, h, x, t);
    assert Holders(s) + {h} == (Holders(s) - {h}) + {h};
  }

  /** One handler's share of the permits. */
  ghost predicate PermitOf(x: Handler) {
    x.acquires <= 1 && x.releases + (if Holding(x) then 1 else 0) == x.acquires
  }

  lemma PermitsConnect(c: Config, s: Server, h: nat, rssBytes: int)
    requires PermitsConserved(c, s) && Enabled(c, s, Connect(h, rssBytes))
    ensures PermitsConserved(c, Next(c, s, Connect(h, rssBytes)))
  {
    var t := Next(c, s, Connect(h, rssBytes));
    HoldersCount(s, h, t.handlers[h], t);
    assert PermitOf(t.handlers[h]);
  }

  lemma PermitsMove(c: Config, s: Server, e: Event)
    requires PermitsConserved(c, s) && Enabled(c, s, e) && !e.System? && !e.Connect?
    ensures PermitsConserved(c, Next(c, s, e))
    ensures ReturnsPermit(s.handlers[e.h], e) ==> s.active > 0
  {
    var x, t := s.handlers[e.h], Next(c, s, e);
    MoveHolds(c, s.Now(), x, e);
    assert PermitOf(x);
    var y := Move(c, s.Now(), x, e);
    assert t.handlers == s.handlers[e.h := y] && PermitOf(y);
    HoldersCount(s, e.h, y, t);
  }

  lemma PermitsStep(c: Config, s: Server, e: Event)
    requires PermitsConserved(c, s) && Enabled(c, s, e)
    ensures PermitsConserved(c, Next(c, s, e))
    ensures !e.System? && !e.Connect? && ReturnsPermit(s.handlers[e.h], e) ==> s.active > 0
  {
    match e
    case System(_) => assert Holders(Next(c, s, e)) == Holders(s);
    case Connect(h, rssBytes) => PermitsConnect(c, s, h, rssBytes);
    case _ => PermitsMove(c, s, e);
  }

  /**
   * Permit conservation, in every interleaving of handlers, sweeps, failures and cancellations:
   * the counter equals the number of handlers between acquire and release, never leaves
   * 0..max_connections, every acquire is released once the handler lets go and never twice, and
   * no release ever finds the counter at zero.
   */
  lemma {:induction false} PermitConservation(c: Config, events: seq<Event>)
    requires NoDuplicates(c.system.ids) && Possible(c, events)
    ensures PermitsConserved(c, After(c, events))
    ensures events != [] ==>
              var s, e := After(c, events[..|events| - 1]), events[|events| - 1];
              !e.System? && !e.Connect? && ReturnsPermit(s.handlers[e.h], e) ==> s.active > 0
  {
    if events != [] {
      PermitConservation(c, events[..|events| - 1]);
      PermitsStep(c, After(c, events[..|events| - 1]), events[|events| - 1]);
    }
  }

  // ---- What the pool offers.

  /** A pool whose choice fits offers its healthy members, the preferred one first. */
  lemma OfferIsFair(p: PoolStates.PoolState)
    requires p.Valid() && PoolStates.ChoiceFits(p)
    ensures OfferOf(p).Fair() && |OfferOf(p).ranked| <= |p.ids|
  {
    var rows := PoolStates.Ranked(p.ids, p.members);
    PoolStates.RankedDistinct(p.ids, p.members);
    Selection.OrdersFit(rows, p.choice.preferred);
    Selection.HealthyOrderPermutes(rows, p.choice.preferred);
    forall id ensures id in OfferOf(p).ranked <==> id in OfferOf(p).healthy {
      PoolStates.RankedFlag(p.ids, p.members, id);
    }
  }

  /** The pool of a running system: the members of its inventory, with a choice that fits. */
  ghost predicate InOrder(c: Config, s: Server) {
    s.system.pool.ids == c.system.ids && PoolStates.ChoiceFits(s.system.pool)
  }

  lemma SystemInOrder(c: Config, s: Server, step: Sweeps.Step)
    requires InOrder(c, s) && Sweeps.Enabled(c.system, s.system, step)
    ensures InOrder(c, s.(system := Sweeps.Next(c.system, s.system, step)))
  {
    if step.SweepApply? {
      PoolStates.SweepFits(s.system.pool, Sweeps.InputOf(c.system, s.system, step.seconds), c.system.policies);
    } else {
      assert Sweeps.Next(c.system, s.system, step).pool == s.system.pool;
    }
  }

  lemma {:induction false} RunsInOrder(c: Config, events: seq<Event>)
    requires NoDuplicates(c.system.ids) && Possible(c, events)
    ensures InOrder(c, After(c, events))
  {
    if events == [] {
      PoolStates.NewPoolFits(c.system.ids);
    } else {
      var before, e := events[..|events| - 1], events[|events| - 1];
      RunsInOrder(c, before);
      if e.System? {
        SystemInOrder(c, After(c, before), e.step);
      }
    }
  }

  lemma OneMoreEvent(c: Config, events: seq<Event>, e: Event)
    requires NoDuplicates(c.system.ids) && Possible(c, events) && Enabled(c, After(c, events), e)
    ensures Possible(c, events + [e]) && After(c, events + [e]) == Next(c, After(c, events), e)
  {
    assert (events + [e])[..|events|] == events;
  }

  /** The steps of the system among the events. */
  function StepsOf(events: seq<Event>): seq<Sweeps.Step> {
    if events == [] then []
    else
      var last := events[|events| - 1];
      StepsOf(events[..|events| - 1]) + (if last.System? then [last.step] else [])
  }

  /** Clients cannot be noticed by the system: it runs as its own steps make it run. */
  lemma {:induction false} ClientsUnseen(c: Config, events: seq<Event>)
    requires NoDuplicates(c.system.ids) && Possible(c, events)
    ensures Sweeps.Possible(c.system, StepsOf(events))
    ensures Sweeps.AfterSteps(c.system, StepsOf(events)) == After(c, events).system
  {
    if events != [] {
      var before, last := events[..|events| - 1], events[|events| - 1];
      ClientsUnseen(c, before);
      if last.System? {
        Sweeps.OneMoreStep(c.system, StepsOf(before), last.step);
      } else {
        assert StepsOf(events) == StepsOf(before);
      }
    }
  }

  // ---- The failover walk.

  function DialledIds(dials: seq<Dial>): (ids: seq<string>)
    ensures |ids| == |dials|
    ensures forall i | 0 <= i < |dials| :: ids[i] == dials[i].id
  {
    seq(|dials|, i requires 0 <= i < |dials| => dials[i].id)
  }

  /** The members dialled are, in order and without repeats, first in the list the pool offered at the snapshot. */
  ghost predicate Walks(c: Config, x: Handler) {
    && x.snapshot.Fair() && |x.snapshot.ranked| <= |c.system.ids|
    && x.candidates == Take(x.snapshot.ranked, c.Tries())
    && |x.dials| <= |x.candidates|
    && DialledIds(x.dials) == x.candidates[..|x.dials|]
    && (x.dials != [] ==> x.dials[0].healthy)
    && (!x.parsed ==> x.candidates == [])
  }

  /** What each phase says about the attempts made so far. */
  ghost predicate Accounted(x: Handler) {
    && (x.phase.Refusing? ==> x.reply == Some(503))
    && (x.reply == Some(503) ==> x.acquires == 0 && !x.parsed)
    && (x.acquires == 0 ==> x.reply == Some(503))
    && (x.phase.Reading? ==> !x.parsed && x.reply.None? && x.answered.None? && x.opens == 0)
    && (x.phase.Opening? || x.phase.Waiting? || x.phase.Relaying? ==> x.parsed && x.reply.None? && x.dials != [])
    && (x.phase.Replying? ==> x.reply == Some(400) || x.reply == Some(502))
    && (!x.cancelled ==> x.opens == x.closes + (if x.phase.Waiting? || x.phase.Relaying? then 1 else 0))
    && (!x.faulted ==> (x.answered.Some? ==> |x.dials| > 0 && x.answered == Some(|x.dials| - 1) && x.reply.None?))
    && (!x.faulted && (x.phase.Opening? || x.phase.Waiting?) ==> x.answered.None?)
    && (x.phase.Relaying? ==> x.answered.Some?)
    && (x.reply == Some(502) ==> x.parsed && |x.dials| == |x.candidates|)
    && (x.reply == Some(400) ==> x.dials == [] && (x.parsed ==> x.candidates != []))
    && (x.reply.Some? ==> x.reply == Some(400) || x.reply == Some(502) || x.reply == Some(503))
    && (x.phase.Closing? || (x.phase.Gone? && !x.cancelled) ==> x.reply.Some? || x.answered.Some?)
  }

  ghost predicate AllWalk(c: Config, s: Server) {
    InOrder(c, s) && forall h | h in s.handlers :: Walks(c, s.handlers[h]) && Accounted(s.handlers[h])
  }

  lemma TryNextWalks(c: Config, now: Offer, x: Handler)
    requires Walks(c, x) && x.parsed && (x.dials == [] ==> now == x.snapshot)
    ensures Walks(c, TryNext(now, x))
  {
    if |x.dials| < |x.candidates| {
      assert x.candidates[..|x.dials| + 1] == x.candidates[..|x.dials|] + [x.candidates[|x.dials|]];
      assert x.candidates[|x.dials|] == x.snapshot.ranked[|x.dials|];
    }
  }

  lemma MoveWalks(c: Config, now: Offer, x: Handler, e: Event)
    requires now.Fair() && |now.ranked| <= |c.system.ids| && Walks(c, x) && Accounted(x) && CanMove(x, e)
    ensures Walks(c, Move(c, now, x, e))
  {
    match e
    case HeadRead(_, _) =>
      assert x.dials == [];
      TryNextWalks(c, now, Snapshot(c, now, x));
    case OpenFailed(_) => TryNextWalks(c, now, x);
    case Rejected(_) => TryNextWalks(c, now, Shut(x));
    case ClientFault(_) => TryNextWalks(c, now, Shut(x).(faulted := true));
    case _ =>
  }

  /** Going on to the next candidate, or giving up, from a handler that has no connection open. */
  lemma TryNextAccounted(c: Config, now: Offer, x: Handler)
    requires x.parsed && x.acquires > 0 && x.reply.None? && |x.dials| <= |x.candidates|
    requires (!x.cancelled ==> x.opens == x.closes) && (!x.faulted ==> x.answered.None?)
    ensures Accounted(TryNext(now, x))
  {
  }

  lemma HeadReadAccounted(c: Config, now: Offer, x: Handler, e: Event)
    requires Walks(c, x) && Accounted(x) && CanMove(x, e) && e.HeadRead?
    ensures Accounted(Move(c, now, x, e))
  {
    assert x.dials == [];
    TryNextAccounted(c, now, Snapshot(c, now, x));
  }

  /** An event after which the handler lets go of its client. */
  predicate LetsGo(e: Event) {
    e.RelayEnded? || e.Replied? || e.Closed? || e.Cancelled?
  }

  lemma LettingGoAccounted(c: Config, now: Offer, x: Handler, e: Event)
    requires Accounted(x) && CanMove(x, e) && LetsGo(e)
    ensures Accounted(Move(c, now, x, e))
  {
  }

  lemma GoingOnAccounted(c: Config, now: Offer, x: Handler, e: Event)
    requires Walks(c, x) && Accounted(x) && CanMove(x, e) && (e.HeadBad? || e.Opened? || e.Answered?)
    ensures Accounted(Move(c, now, x, e))
  {
  }

  lemma MoveAccounted(c: Config, now: Offer, x: Handler, e: Event)
    requires Walks(c, x) && Accounted(x) && CanMove(x, e)
    ensures Accounted(Move(c, now, x, e))
  {
    match e
    case HeadRead(_, _) => HeadReadAccounted(c, now, x, e);
    case OpenFailed(_) => TryNextAccounted(c, now, x);
    case Rejected(_) => TryNextAccounted(c, now, Shut(x));
    case ClientFault(_) => TryNextAccounted(c, now, Shut(x).(faulted := true));
    case _ =>
      if LetsGo(e) {
        LettingGoAccounted(c, now, x, e);
      } else {
        GoingOnAccounted(c, now, x, e);
      }
  }

  lemma HandlerWalks(c: Config, s: Server, e: Event)
    requires AllWalk(c, s) && Enabled(c, s, e) && !e.System? && !e.Connect?
    ensures var y := Move(c, s.Now(), s.handlers[e.h], e); Walks(c, y) && Accounted(y)
  {
    OfferIsFair(s.system.pool);
    assert Walks(c, s.handlers[e.h]) && Accounted(s.handlers[e.h]);
    MoveWalks(c, s.Now(), s.handlers[e.h], e);
    MoveAccounted(c, s.Now(), s.handlers[e.h], e);
  }

  lemma NewHandlerWalks(c: Config, admitted: bool)
    ensures Walks(c, NewHandler(admitted)) && Accounted(NewHandler(admitted))
  {
  }

  /** One handler changes, and the others still walk. */
  lemma OthersWalk(c: Config, s: Server, t: Server, h: nat, y: Handler)
    requires AllWalk(c, s) && t.system == s.system && t.handlers == s.handlers[h := y]
    requires Walks(c, y) && Accounted(y)
    ensures AllWalk(c, t)
  {
  }

  lemma SystemWalks(c: Config, s: Server, e: Event)
    requires AllWalk(c, s) && Enabled(c, s, e) && e.System?
    ensures AllWalk(c, Next(c, s, e))
  {
    SystemInOrder(c, s, e.step);
  }

  lemma ConnectWalks(c: Config, s: Server, e: Event)
    requires AllWalk(c, s) && Enabled(c, s, e) && e.Connect?
    ensures AllWalk(c, Next(c, s, e))
  {
    var admitted := c.policy.Admits(s.active, e.rssBytes);
    NewHandlerWalks(c, admitted);
    OthersWalk(c, s, Next(c, s, e), e.h, NewHandler(admitted));
  }

  lemma MovedWalks(c: Config, s: Server, e: Event)
    requires AllWalk(c, s) && Enabled(c, s, e) && !e.System? && !e.Connect?
    ensures AllWalk(c, Next(c, s, e))
  {
    HandlerWalks(c, s, e);
    OthersWalk(c, s, Next(c, s, e), e.h, Move(c, s.Now(), s.handlers[e.h], e));
  }

  lemma WalkStep(c: Config, s: Server, e: Event)
    requires AllWalk(c, s) && Enabled(c, s, e)
    ensures AllWalk(c, Next(c, s, e))
  {
    if e.System? {
      SystemWalks(c, s, e);
    } else if e.Connect? {
      ConnectWalks(c, s, e);
    } else {
      MovedWalks(c, s, e);
    }
  }

  lemma {:induction false} HandlersWalk(c: Config, events: seq<Event>)
    requires NoDuplicates(c.system.ids) && Possible(c, events)
    ensures AllWalk(c, After(c, events))
  {
    if events == [] {
      RunsInOrder(c, []);
    } else {
      HandlersWalk(c, events[..|events| - 1]);
      WalkStep(c, After(c, events[..|events| - 1]), events[|events| - 1]);
    }
  }

  /** The snapshot of h was taken as its head was read, after the first k events. */
  ghost predicate TakenAt(c: Config, events: seq<Event>, h: nat, snapshot: Offer, k: nat)
    requires NoDuplicates(c.system.ids) && Possible(c, events)
  {
    && k < |events| && events[k].HeadRead? && events[k].h == h
    && Possible(c, events[..k]) && snapshot == After(c, events[..k]).Now()
  }

  lemma TakenLater(c: Config, events: seq<Event>, h: nat, snapshot: Offer, k: nat)
    requires NoDuplicates(c.system.ids) && Possible(c, events) && events != []
    requires TakenAt(c, events[..|events| - 1], h, snapshot, k)
    ensures TakenAt(c, events, h, snapshot, k)
  {
    assert events[..|events| - 1][..k] == events[..k];
  }

  lemma SnapshotKept(c: Config, now: Offer, x: Handler, e: Event)
    requires CanMove(x, e)
    ensures Move(c, now, x, e).parsed <==> x.parsed || e.HeadRead?
    ensures Move(c, now, x, e).snapshot == if e.HeadRead? then now else x.snapshot
  {
  }

  /** Every snapshot is what the pool offered at the moment the request was read, in the same run. */
  lemma {:induction false} SnapshotOfThePool(c: Config, events: seq<Event>, h: nat) returns (k: nat)
    requires NoDuplicates(c.system.ids) && Possible(c, events)
    requires h in After(c, events).handlers && After(c, events).handlers[h].parsed
    ensures TakenAt(c, events, h, After(c, events).handlers[h].snapshot, k)
  {
    var before, e := events[..|events| - 1], events[|events| - 1];
    var s := After(c, before);
    if e.HeadRead? && e.h == h {
      k := |before|;
      SnapshotKept(c, s.Now(), s.handlers[h], e);
    } else {
      if !e.System? && !e.Connect? && e.h == h {
        SnapshotKept(c, s.Now(), s.handlers[h], e);
      }
      k := SnapshotOfThePool(c, before, h);
      TakenLater(c, events, h, s.handlers[h].snapshot, k);
    }
  }

  /**
   * The failover walk, for every request and whatever the system does meanwhile. The snapshot is
   * what the pool offered when the request was read. The members dialled are a prefix, in order
   * and without repeats, of the first max(1, max_failover) of it; all were healthy at the
   * snapshot, and the first was the preferred one. A request that ran to its end without a
   * client-side fault ended in exactly one of four ways, with every upstream closed again.
   */
  lemma FailoverWalk(c: Config, events: seq<Event>, h: nat)
    requires NoDuplicates(c.system.ids) && Possible(c, events) && h in After(c, events).handlers
    ensures var x := After(c, events).handlers[h];
            var dialled := DialledIds(x.dials);
            && (x.parsed ==> exists k :: TakenAt(c, events, h, x.snapshot, k))
            && x.candidates == Take(x.snapshot.ranked, c.Tries())
            && dialled <= x.candidates && NoDuplicates(dialled)
            && (forall id | id in dialled :: id in x.snapshot.healthy)
            && (dialled != [] ==> x.parsed && x.snapshot.preferred == Some(dialled[0]) && x.dials[0].healthy)
            && Ended(x)
  {
    HandlersWalk(c, events);
    PermitConservation(c, events);
    var x := After(c, events).handlers[h];
    assert Walks(c, x) && Accounted(x) && PermitOf(x);
    if x.parsed {
      var k := SnapshotOfThePool(c, events, h);
    }
    DialsFollowSnapshot(c, x);
    EndsInOneWay(c, x);
  }

  lemma DialsFollowSnapshot(c: Config, x: Handler)
    requires Walks(c, x)
    ensures var dialled := DialledIds(x.dials);
            && dialled <= x.candidates && NoDuplicates(dialled)
            && (forall id | id in dialled :: id in x.snapshot.healthy)
            && (dialled != [] ==> x.parsed && x.snapshot.preferred == Some(dialled[0]) && x.dials[0].healthy)
  {
    assert forall i | 0 <= i < |x.dials| :: DialledIds(x.dials)[i] == x.candidates[..|x.dials|][i] == x.snapshot.ranked[i];
  }

  lemma EndsInOneWay(c: Config, x: Handler)
    requires Walks(c, x) && Accounted(x) && PermitOf(x)
    ensures Ended(x)
  {
  }

  /**
   * What follows the request head: an unreadable one is answered 400; with nobody on offer the
   * answer is 502; else a malformed target is answered 400, and a good one dials the first member.
   */
  lemma HeadAnswered(c: Config, now: Offer, x: Handler, h: nat, targetOk: bool)
    requires Walks(c, x) && Accounted(x) && x.phase.Reading?
    ensures var y := Move(c, now, x, HeadBad(h)); y.phase.Replying? && y.reply == Some(400) && y.dials == []
    ensures var y := Move(c, now, x, HeadRead(h, targetOk));
            if now.ranked == [] then y.phase.Replying? && y.reply == Some(502) && y.dials == []
            else if !targetOk then y.phase.Replying? && y.reply == Some(400) && y.dials == []
            else y.phase.Opening? && |y.dials| == 1 && y.dials[0].id == now.ranked[0]
  {
    assert x.dials == [];
  }

  /**
   * How far the walk may go: a request tries as many members as it was offered, up to
   * max_failover and at least one, and one that ends with 502 has dialled all of them in vain.
   */
  lemma TriesAllOffered(c: Config, events: seq<Event>, h: nat)
    requires NoDuplicates(c.system.ids) && Possible(c, events) && h in After(c, events).handlers
    ensures var x := After(c, events).handlers[h];
            var most := if c.maxFailover < 1 then 1 else c.maxFailover;
            var tries := if |x.snapshot.ranked| < most then |x.snapshot.ranked| else most;
            && |x.candidates| == tries && |x.dials| <= tries
            && (x.phase.Gone? && !x.cancelled && !x.faulted && x.reply == Some(502) ==> |x.dials| == tries && x.answered.None?)
  {
    HandlersWalk(c, events);
    assert Walks(c, After(c, events).handlers[h]) && Accounted(After(c, events).handlers[h]);
  }

  /**
   * Admission: a client gets a permit exactly if fewer than max_connections handlers hold one and
   * the memory reading is below the cap, or there is no cap; otherwise it is answered 503.
   */
  lemma AdmittedIff(c: Config, events: seq<Event>, h: nat, rssBytes: int)
    requires NoDuplicates(c.system.ids) && Possible(c, events) && h !in After(c, events).handlers
    ensures var s := After(c, events);
            var x := Next(c, s, Connect(h, rssBytes)).handlers[h];
            && (x.acquires == 1 <==> |Holders(s)| < c.policy.maxConnections
                                     && !(c.policy.maxRssMb > 0 && rssBytes >= c.policy.maxRssMb * 1048576))
            && (x.acquires != 1 <==> x.reply == Some(503)) && (x.acquires != 1 <==> x.acquires == 0)
            && x.dials == [] && x.releases == 0
  {
    PermitConservation(c, events);
  }

  /** How a request ends that was neither cancelled nor disturbed by its client. */
  ghost predicate Ended(x: Handler) {
    x.phase.Gone? && !x.cancelled && !x.faulted ==>
      && x.opens == x.closes
      && (x.reply == Some(503) <==> x.acquires == 0)
      && (x.reply == Some(502) <==> x.acquires == 1 && x.parsed && x.answered.None? && |x.dials| == |x.candidates|)
      && (x.reply == Some(400) <==> x.acquires == 1 && x.answered.None?
                                    && (!x.parsed || (x.dials == [] && x.candidates != [])))
      && (x.reply.None? <==> x.answered.Some?)
      && (x.answered.Some? ==> x.dials != [] && x.answered.value == |x.dials| - 1)
      && (x.reply == Some(503) || x.reply == Some(400) ==> x.dials == [])
  }

  // ---- "Currently healthy".

  /** Every member was healthy at the moment it was dialled. */
  ghost predicate DialsHealthyOnly(s: Server) {
    forall h | h in s.handlers :: HealthyDials(s.handlers[h])
  }

  ghost predicate NeverDialsUnhealthy(c: Config)
    requires NoDuplicates(c.system.ids)
  {
    forall events: seq<Event> | Possible(c, events) :: DialsHealthyOnly(After(c, events))
  }

  ghost predicate HealthyDials(x: Handler) {
    forall i | 0 <= i < |x.dials| :: x.dials[i].healthy
  }

  /** No request can dial a second member. */
  predicate OneDial(c: Config) {
    c.maxFailover <= 1 || c.policy.maxConnections <= 0 || |c.system.ids| <= 1
  }

  /** With one candidate at most, the only dial is made as the pool's list is read. */
  lemma {:induction false} OneDialIsHealthy(c: Config, events: seq<Event>)
    requires NoDuplicates(c.system.ids) && Possible(c, events) && OneDial(c)
    ensures DialsHealthyOnly(After(c, events))
  {
    HandlersWalk(c, events);
    if c.policy.maxConnections <= 0 {
      NobodyAdmitted(c, events);
    }
    var s := After(c, events);
    forall h | h in s.handlers ensures HealthyDials(s.handlers[h]) {
      assert c.policy.maxConnections <= 0 ==> Refused(s.handlers[h]);
      if c.policy.maxConnections > 0 {
        SingleDialIsHealthy(c, s.handlers[h]);
      }
    }
  }

  lemma SingleDialIsHealthy(c: Config, x: Handler)
    requires Walks(c, x) && (c.maxFailover <= 1 || |c.system.ids| <= 1)
    ensures HealthyDials(x)
  {
    assert |x.candidates| <= 1;
  }

  /** A handler without a permit, which dials nobody. */
  ghost predicate Refused(x: Handler) {
    x.dials == [] && (x.phase.Refusing? || x.phase.Gone?)
  }

  lemma RefusedMove(c: Config, now: Offer, x: Handler, e: Event)
    requires Refused(x) && CanMove(x, e)
    ensures Refused(Move(c, now, x, e))
  {
  }

  lemma RefusedStep(c: Config, s: Server, e: Event)
    requires c.policy.maxConnections <= 0 && Enabled(c, s, e) && forall h | h in s.handlers :: Refused(s.handlers[h])
    ensures forall h | h in Next(c, s, e).handlers :: Refused(Next(c, s, e).handlers[h])
  {
    if e.System? {
      assert Next(c, s, e).handlers == s.handlers;
    } else if !e.Connect? {
      RefusedMove(c, s.Now(), s.handlers[e.h], e);
    }
  }

  /** Without connections nobody acquires a permit, and without a permit nobody is dialled. */
  lemma {:induction false} NobodyAdmitted(c: Config, events: seq<Event>)
    requires NoDuplicates(c.system.ids) && Possible(c, events) && c.policy.maxConnections <= 0
    ensures forall h | h in After(c, events).handlers :: Refused(After(c, events).handlers[h])
  {
    if events != [] {
      NobodyAdmitted(c, events[..|events| - 1]);
      RefusedStep(c, After(c, events[..|events| - 1]), events[|events| - 1]);
    }
  }
}
