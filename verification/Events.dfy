/** What `RunOnce` makes of the events reported to it: every one of them takes effect, in one
    turn of the main loop. */
module Events {
  import opened Options
  import opened Machine
  import opened Invariant
  import opened Passes
  import opened Outcome
  import opened Runs
  import opened Coroutines
  import opened Liveness

  ghost predicate AtEvents(s: Sys) {
    Inv(s) && s.active == 0 && s.cpu == Main(Serving)
  }

  /** A wake-up makes a live coroutine ready and takes its timer away; it touches nobody else,
      and nothing at all if there is no such coroutine. */
  lemma WakeupWakes(s: Sys, id: Id)
    requires AtEvents(s)
    ensures var t := Do(s, Wakeup(id));
            && AtEvents(t)
            && (id in s.nodes && id != 0 ==> Pending(t, id) && id !in t.expiry)
            && (id in s.nodes ==>
                  && t.nodes == s.nodes[id := s.nodes[id].(state := Ready)] && t.expiry == s.expiry - {id}
                  && t.created == s.created && t.disarmed == s.disarmed)
            && (id !in s.nodes ==> t == s)
  {
    DoKeepsInv(s, Wakeup(id));
    hide IdsConserved, Reaped;
  }

  lemma RequestCreates(s: Sys, body: Body)
    requires AtEvents(s) && s.created < WIDTH
    ensures var t := Do(s, Request(body)); var id := s.created;
            && AtEvents(t) && id !in s.nodes && t.nodes == s.nodes[id := Node(Ready, id, body, Fresh)]
            && t.expiry == s.expiry && t.created == s.created + 1 && t.disarmed == s.disarmed
  {
    DoKeepsInv(s, Request(body));
    CreateConservesIds(s);
    hide CursorSafe, TimersPending, IdsConserved, Reaped;
  }

  lemma CloseDisarms(s: Sys, fd: Id)
    requires AtEvents(s)
    ensures var t := Do(s, Close(fd));
            && AtEvents(t) && t.nodes == s.nodes && t.created == s.created
            && t.expiry == s.expiry - {fd} && t.disarmed == s.disarmed + {fd}
  {
    DoKeepsInv(s, Close(fd));
    hide CursorSafe, TimersPending, IdsConserved, Reaped;
  }

  // ---------- all events ----------

  /** The callbacks of the new requests, in order. */
  function Bodies(events: seq<ServerEvent>): seq<Body> {
    if events == [] then []
    else (if events[0].NewRequest? then [events[0].body] else []) + Bodies(events[1..])
  }

  ghost predicate Calls(events: seq<ServerEvent>, j: Id) {
    Notify(j) in events || Connected(j) in events
  }

  /** Everybody called is ready, and nobody else who was there is changed. */
  ghost predicate TableHappened(s: Sys, t: Sys, events: seq<ServerEvent>) {
    && (forall j :: j in s.nodes ==>
          j in t.nodes && t.nodes[j] == s.nodes[j].(state := if Calls(events, j) then Ready else s.nodes[j].state))
    && (forall j :: j in t.nodes && j !in s.nodes ==> s.created <= j < t.created)
  }

  /** There is one new coroutine for every request, in order, with its callback. */
  ghost predicate RequestsHappened(s: Sys, t: Sys, events: seq<ServerEvent>) {
    && t.created == s.created + |Bodies(events)|
    && forall n :: 0 <= n < |Bodies(events)| ==> IsNew(t, s.created + n, Bodies(events)[n])
  }

  /** No timer is taken but of those called and under the numbers of closed connections. */
  ghost predicate TimersHappened(s: Sys, t: Sys, events: seq<ServerEvent>) {
    && (forall j: Id :: j in t.expiry <==> j in s.expiry && !Calls(events, j) && Closed(j) !in events)
    && (forall j :: j in t.expiry ==> j in s.expiry && t.expiry[j] == s.expiry[j])
    && (forall j: Id :: j in t.disarmed <==> j in s.disarmed || Closed(j) in events)
  }

  /** What is there after the events, compared with what was there before. */
  ghost predicate Happened(s: Sys, t: Sys, events: seq<ServerEvent>) {
    TableHappened(s, t, events) && RequestsHappened(s, t, events) && TimersHappened(s, t, events)
  }

  ghost predicate IsNew(t: Sys, id: nat, body: Body) {
    id < WIDTH && id in t.nodes && t.nodes[id] == Node(Ready, id, body, Fresh)
  }

  lemma NothingHappened(s: Sys)
    ensures Happened(s, s, [])
  {
  }

  lemma SingleEvent(e: ServerEvent)
    ensures forall x :: x in [e] <==> x == e
    ensures Bodies([e]) == if e.NewRequest? then [e.body] else []
  {
    assert [e][1..] == [];
  }

  lemma RequestHappened(s: Sys, t: Sys, body: Body)
    requires s.created < WIDTH && s.created !in s.nodes
    requires t.nodes == s.nodes[s.created := Node(Ready, s.created, body, Fresh)] && t.created == s.created + 1
    requires t.expiry == s.expiry && t.disarmed == s.disarmed
    ensures Happened(s, t, [NewRequest(body)])
  {
    SingleEvent(NewRequest(body));
    hide Bodies;
    assert IsNew(t, s.created, body);
  }

  lemma CallHappened(s: Sys, t: Sys, e: ServerEvent, id: Id)
    requires e == Notify(id) || e == Connected(id)
    requires id !in s.nodes ==> t == s && id !in s.expiry
    requires id in s.nodes ==>
               && t.nodes == s.nodes[id := s.nodes[id].(state := Ready)] && t.expiry == s.expiry - {id}
               && t.created == s.created && t.disarmed == s.disarmed
    ensures Happened(s, t, [e])
  {
    SingleEvent(e);
    hide Bodies;
  }

  lemma CloseHappened(s: Sys, t: Sys, fd: Id)
    requires t.nodes == s.nodes && t.created == s.created
    requires t.expiry == s.expiry - {fd} && t.disarmed == s.disarmed + {fd}
    ensures Happened(s, t, [Closed(fd)])
  {
    SingleEvent(Closed(fd));
    hide Bodies;
  }

  lemma TimersOfLive(s: Sys)
    requires Inv(s)
    ensures forall j :: j in s.expiry ==> j in s.nodes
  {
  }

  lemma OneHappened(s: Sys, e: ServerEvent)
    requires AtEvents(s) && s.created + |Bodies([e])| <= WIDTH
    ensures AtEvents(Do(s, LabelOf(e))) && Happened(s, Do(s, LabelOf(e)), [e])
  {
    SingleEvent(e);
    TimersOfLive(s) by { EventsNeedInv(s); }
    hide Inv, Do, AtEvents, Happened, Bodies;
    match e {
      case NewRequest(body) => RequestCreates(s, body); RequestHappened(s, Do(s, LabelOf(e)), body);
      case Notify(id) => WakeupWakes(s, id); CallHappened(s, Do(s, LabelOf(e)), e, id);
      case Connected(id) => WakeupWakes(s, id); CallHappened(s, Do(s, LabelOf(e)), e, id);
      case Closed(fd) => CloseDisarms(s, fd); CloseHappened(s, Do(s, LabelOf(e)), fd);
    }
  }

  lemma EventsNeedInv(s: Sys)
    requires AtEvents(s)
    ensures Inv(s)
  {
  }

  lemma EventsThen(e: ServerEvent, rest: seq<ServerEvent>)
    ensures forall x :: x in [e] + rest <==> x in [e] || x in rest
    ensures Bodies([e] + rest) == Bodies([e]) + Bodies(rest)
  {
    SingleEvent(e);
    assert ([e] + rest)[1..] == rest;
  }

  lemma TimersThen(s: Sys, u: Sys, t: Sys, e: ServerEvent, rest: seq<ServerEvent>)
    requires TimersHappened(s, u, [e]) && TimersHappened(u, t, rest)
    ensures TimersHappened(s, t, [e] + rest)
  {
    EventsThen(e, rest);
    hide Bodies;
  }

  lemma TableThen(s: Sys, u: Sys, t: Sys, e: ServerEvent, rest: seq<ServerEvent>)
    requires TableHappened(s, u, [e]) && TableHappened(u, t, rest) && s.created <= u.created <= t.created
    ensures TableHappened(s, t, [e] + rest)
  {
    EventsThen(e, rest);
    hide Bodies;
    forall j | j in s.nodes
      ensures j in t.nodes
      ensures t.nodes[j] == s.nodes[j].(state := if Calls([e] + rest, j) then Ready else s.nodes[j].state)
    {
      assert Calls([e] + rest, j) <==> Calls([e], j) || Calls(rest, j);
      hide Calls;
      assert u.nodes[j] == s.nodes[j].(state := if Calls([e], j) then Ready else s.nodes[j].state);
    }
  }

  lemma NewStays(u: Sys, t: Sys, rest: seq<ServerEvent>, id: nat, body: Body)
    requires TableHappened(u, t, rest) && IsNew(u, id, body)
    ensures IsNew(t, id, body)
  {
    hide Calls;
  }

  lemma RequestsThen(s: Sys, u: Sys, t: Sys, e: ServerEvent, rest: seq<ServerEvent>)
    requires RequestsHappened(s, u, [e]) && RequestsHappened(u, t, rest) && TableHappened(u, t, rest)
    ensures RequestsHappened(s, t, [e] + rest)
  {
    EventsThen(e, rest);
    hide Bodies, IsNew, TableHappened;
    var first, later := Bodies([e]), Bodies(rest);
    forall n | 0 <= n < |first + later|
      ensures IsNew(t, s.created + n, (first + later)[n])
    {
      if n < |first| {
        NewStays(u, t, rest, s.created + n, first[n]);
      } else {
        assert IsNew(t, u.created + (n - |first|), later[n - |first|]);
      }
    }
  }

  lemma HappenedThen(s: Sys, u: Sys, t: Sys, e: ServerEvent, rest: seq<ServerEvent>)
    requires Happened(s, u, [e]) && Happened(u, t, rest)
    ensures Happened(s, t, [e] + rest)
  {
    hide TableHappened, TimersHappened, Bodies, IsNew;
    TimersThen(s, u, t, e, rest);
    TableThen(s, u, t, e, rest);
    RequestsThen(s, u, t, e, rest);
  }

  lemma {:induction false} AllHappened(s: Sys, events: seq<ServerEvent>)
    requires AtEvents(s) && s.created + |Bodies(events)| <= WIDTH
    ensures Happened(s, Served(s, events), events)
    decreases |events|
  {
    if events == [] {
      NothingHappened(s);
    } else {
      var e, rest := events[0], events[1..];
      assert [e] + rest == events && [e][1..] == [];
      var u := Do(s, LabelOf(e));
      hide Inv, Do, Happened;
      OneHappened(s, e);
      CreatedThen(s, e);
      AllHappened(u, rest);
      HappenedThen(s, u, Served(s, events), e, rest);
    }
  }

  lemma CreatedThen(s: Sys, e: ServerEvent)
    requires AtEvents(s) && Happened(s, Do(s, LabelOf(e)), [e])
    ensures Do(s, LabelOf(e)).created == s.created + |Bodies([e])|
  {
  }

  // ---------- a turn of the main loop ----------

  lemma {:induction false} RoundsThen(s: Sys, rounds: seq<Round>, r: Round)
    requires AtPoll(s)
    ensures Rounds(s, rounds + [r]) == Turned(Rounds(s, rounds), r)
    decreases |rounds|
  {
    hide Inv, Pass, Polled;
    if rounds == [] {
      assert rounds + [r] == [r] && [r][1..] == [];
    } else {
      RoundsThen(Turned(s, rounds[0]), rounds[1..], r);
      assert (rounds + [r])[0] == rounds[0] && (rounds + [r])[1..] == rounds[1..] + [r];
    }
  }

  lemma IdlePollServes(s: Sys, r: Round)
    requires AtPoll(s) && ToFire(s.expiry, r.now).None?
    ensures AtEvents(MoveTo(s, Serving))
    ensures Polled(s, r.now, r.events) == Served(MoveTo(s, Serving), r.events)
  {
    DoKeepsInv(s, Poll(r.now));
    assert Do(s, Poll(r.now)) == MoveTo(s, Serving);
  }

  lemma HappenedAlike(s: Sys, u: Sys, t: Sys, events: seq<ServerEvent>)
    requires Happened(s, t, events)
    requires u.nodes == s.nodes && u.expiry == s.expiry && u.created == s.created && u.disarmed == s.disarmed
    ensures Happened(u, t, events)
  {
    hide Calls, IsNew, Bodies;
  }

  lemma IdleTurnHappens(u: Sys, r: Round)
    requires AtPoll(u) && ToFire(u.expiry, r.now).None? && u.created + |Bodies(r.events)| <= WIDTH
    ensures Happened(u, Polled(u, r.now, r.events), r.events)
  {
    IdlePollServes(u, r);
    hide Inv, AtPoll, Happened, Polled, Served;
    AllHappened(MoveTo(u, Serving), r.events);
    HappenedAlike(MoveTo(u, Serving), u, Polled(u, r.now, r.events), r.events);
  }

  lemma NewIsReady(s: Sys, t: Sys, events: seq<ServerEvent>, j: Id)
    requires Happened(s, t, events) && s.created <= j < t.created
    ensures j in t.nodes && t.nodes[j].state == Ready
  {
    var n := j - s.created;
    assert IsNew(t, s.created + n, Bodies(events)[n]);
  }

  lemma CalledIsReady(s: Sys, t: Sys, events: seq<ServerEvent>, j: Id)
    requires Happened(s, t, events) && j in s.nodes && Calls(events, j)
    ensures j in t.nodes && t.nodes[j].state == Ready
  {
  }

  lemma CreatedOne(u: Sys)
    requires AtPoll(u)
    ensures u.created >= 1
  {
  }

  /** While no timer is due, every event reported in a turn takes effect in that turn: every
      request gets a coroutine of its own with its callback, in order, and everybody who is
      called is ready; and all of these are dispatched before the next turn. */
  lemma TurnServesEvents(s: Sys, rounds: seq<Round>, r: Round, j: Id)
    requires AtPoll(s) && ToFire(Rounds(s, rounds).expiry, r.now).None?
    requires Rounds(s, rounds).created + |Bodies(r.events)| <= WIDTH
    requires Rounds(s, rounds + [r]).created <= WIDTH
    ensures var u := Rounds(s, rounds); var t := Rounds(s, rounds + [r]);
            var served := Polled(u, r.now, r.events);
            && Happened(u, served, r.events) && t == Pass(served)
            && (u.created <= j < u.created + |Bodies(r.events)| ==> Switched(j) in Since(served, t))
            && (j in u.nodes && j != 0 && Calls(r.events, j) ==> Switched(j) in Since(served, t))
  {
    var u := Rounds(s, rounds);
    var served := Polled(u, r.now, r.events);
    RoundsThen(s, rounds, r);
    assert Turned(u, r) == Pass(served);
    IdleTurnHappens(u, r);
    assert served.created == u.created + |Bodies(r.events)|;
    CreatedOne(u);
    hide Inv, Happened, Polled, Pass, Turned, Rounds, Since, Calls, Bodies;
    PassDispatchesReadyAndNew(served);
    if u.created <= j < u.created + |Bodies(r.events)| {
      NewIsReady(u, served, r.events, j);
    }
    if j in u.nodes && j != 0 && Calls(r.events, j) {
      CalledIsReady(u, served, r.events, j);
    }
  }

  lemma EarliestFires(u: Sys, now: nat, id: Id)
    requires AtPoll(u) && ToFire(u.expiry, now) == Some(id)
    ensures id in u.expiry && u.expiry[id] <= now
    ensures forall k :: k in u.expiry ==> u.expiry[id] < u.expiry[k] || (u.expiry[id] == u.expiry[k] && id <= k)
    ensures Inv(Do(u, Poll(now))) && Do(u, Poll(now)).log == u.log + [Woken(0, id), Switched(id)]
  {
    FireKeepsInv(u, now, id);
    hide Inv, Do;
  }

  lemma FiredTurnExtends(u: Sys, r: Round)
    requires AtPoll(u) && ToFire(u.expiry, r.now).Some?
    ensures Inv(Do(u, Poll(r.now))) && Do(u, Poll(r.now)).log <= Turned(u, r).log
    ensures Turned(u, r) == Turned(u, Round(r.now, []))
  {
    hide Inv, Do, Run, Pass, Turned, BeforePass, Exec;
    FiredTurn(u, r);
    FiredTurn(u, Round(r.now, []));
    var ls := FiredTurnIsOwn(Do(u, Poll(r.now)));
    ExecExtendsLog(Do(u, Poll(r.now)), ls);
  }

  /** While a timer is due, the turn begins with the coroutine of the earliest expiry, of these
      the one with the smallest id, and looks at no event. */
  lemma TurnFiresEarliest(s: Sys, rounds: seq<Round>, r: Round, j: Id) returns (id: Id)
    requires AtPoll(s) && j in Rounds(s, rounds).expiry && Rounds(s, rounds).expiry[j] <= r.now
    ensures var u := Rounds(s, rounds); var t := Rounds(s, rounds + [r]);
            && id in u.expiry && u.expiry[id] <= r.now
            && (forall k :: k in u.expiry ==> u.expiry[id] < u.expiry[k] || (u.expiry[id] == u.expiry[k] && id <= k))
            && u.log + [Woken(0, id), Switched(id)] <= t.log
            && t == Rounds(s, rounds + [Round(r.now, [])])
  {
    hide *;
    var u := Rounds(s, rounds);
    SomebodyFires(u, r.now, j);
    id := ToFire(u.expiry, r.now).value;
    EarliestFires(u, r.now, id);
    FiredTurnExtends(u, r);
    RoundsThen(s, rounds, r);
    RoundsThen(s, rounds, Round(r.now, []));
  }
}
