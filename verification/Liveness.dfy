/** A timer that is due is served.  `RunOnce` runs one expired coroutine per turn and takes no
    events meanwhile, so that the work left in the system only shrinks until it is served. */
module Liveness {
  import opened Options
  import opened OrderedSets
  import opened Machine
  import opened Invariant
  import opened Passes
  import opened Outcome
  import opened Life
  import opened Runs
  import opened Coroutines

  // ---------- the work left in the system ----------

  /** How many steps a body takes, with the bodies it creates. */
  function BodyWeight(body: Body): nat
    decreases body
  {
    if body == [] then 0 else ActionWeight(body[0]) + BodyWeight(body[1..])
  }

  function ActionWeight(a: Action): nat
    decreases a
  {
    match a
    case Spawn(body) => BodyWeight(body) + 3
    case _ => 1
  }

  function ContWeight(cont: Cont, callback: Body): nat {
    match cont
    case Fresh => BodyWeight(callback) + 2
    case Suspended(rest) => BodyWeight(rest) + 1
    case _ => 0
  }

  function Weights(s: Sys): map<nat, nat> {
    map id: Id | id in s.nodes :: ContWeight(Control(s, id), s.nodes[id].callback)
  }

  function Total(m: map<nat, nat>): nat
    decreases |m|
  {
    if m == map[] then 0
    else
      var k := Min(m.Keys);
      assert |m - {k}| < |m| by { Smaller(m, k); }
      m[k] + Total(m - {k})
  }

  lemma Smaller(m: map<nat, nat>, k: nat)
    requires k in m
    ensures |m - {k}| < |m|
  {
    assert (m - {k}).Keys == m.Keys - {k};
    assert |m.Keys| == |m| && |(m - {k}).Keys| == |m - {k}|;
  }

  /** The sum may be taken in any order. */
  lemma {:induction false} TotalRemoves(m: map<nat, nat>, k: nat)
    requires k in m
    ensures Total(m) == m[k] + Total(m - {k})
    decreases |m|
  {
    var first := Min(m.Keys);
    if k != first {
      Smaller(m, first);
      TotalRemoves(m - {first}, k);
      assert m - {first} - {k} == m - {k} - {first};
      assert first in (m - {k}).Keys && Min((m - {k}).Keys) in m.Keys;
    }
  }

  lemma TotalUpdates(m: map<nat, nat>, k: nat, v: nat)
    ensures Total(m[k := v]) == Total(m - {k}) + v
    ensures Total(m[k := v]) == Total(m) + v - if k in m then m[k] else 0
  {
    TotalRemoves(m[k := v], k);
    assert m[k := v] - {k} == m - {k};
    if k in m { TotalRemoves(m, k); } else { assert m - {k} == m; }
  }

  /** What is left to execute by everybody, and by everybody they will create. */
  function Load(s: Sys): nat {
    Total(Weights(s))
  }

  lemma SameLoad(s: Sys, t: Sys)
    requires t.nodes.Keys == s.nodes.Keys
    requires forall id :: id in s.nodes ==>
               ContWeight(Control(t, id), t.nodes[id].callback) == ContWeight(Control(s, id), s.nodes[id].callback)
    ensures Load(t) == Load(s)
  {
    assert Weights(t) == Weights(s);
  }

  /** Only i has less to do. */
  lemma LowerLoad(s: Sys, t: Sys, i: Id)
    requires t.nodes.Keys == s.nodes.Keys && i in s.nodes
    requires forall id :: id in s.nodes && id != i ==>
               ContWeight(Control(t, id), t.nodes[id].callback) == ContWeight(Control(s, id), s.nodes[id].callback)
    requires ContWeight(Control(t, i), t.nodes[i].callback) < ContWeight(Control(s, i), s.nodes[i].callback)
    ensures Load(t) < Load(s)
  {
    var w := ContWeight(Control(t, i), t.nodes[i].callback);
    assert Weights(t) == Weights(s)[i := w];
    TotalUpdates(Weights(s), i, w);
  }

  lemma SpawnLoad(s: Sys, body: Body)
    requires Table(s) && Contexts(s) && s.active != 0
    ensures Load(NewCoroutine(s, body)) <= Load(s) + BodyWeight(body) + 2
  {
    var t := NewCoroutine(s, body);
    var added := NextId(s.staticid);
    var w := ContWeight(Control(t, added), t.nodes[added].callback);
    hide BodyWeight;
    assert Weights(t) == Weights(s)[added := w];
    TotalUpdates(Weights(s), added, w);
  }

  lemma ActedPays(s: Sys)
    requires Table(s) && Contexts(s) && s.active != 0 && s.cpu.Suspended? && s.cpu.rest != []
    ensures Load(Acted(s)) + ActionWeight(s.cpu.rest[0]) == Load(s)
  {
    assert BodyWeight(s.cpu.rest) == ActionWeight(s.cpu.rest[0]) + BodyWeight(s.cpu.rest[1..]);
    hide BodyWeight, ActionWeight;
    var i := s.active;
    var w := BodyWeight(s.cpu.rest[1..]) + 1;
    assert Weights(Acted(s)) == Weights(s)[i := w];
    assert Weights(s)[i] == BodyWeight(s.cpu.rest) + 1;
    TotalUpdates(Weights(s), i, w);
  }

  lemma WaitKeepsLoad(s: Sys, now: nat, ms: nat)
    requires Table(s) && Contexts(s) && s.active != 0 && s.cpu.Suspended?
    ensures Load(WaitAndSchedule(s, now, ms, s.cpu)) == Load(s)
  {
    hide BodyWeight;
    SameLoad(s, WaitAndSchedule(s, now, ms, s.cpu));
  }

  lemma YieldKeepsLoad(s: Sys)
    requires Table(s) && Contexts(s) && s.active != 0 && s.cpu.Suspended?
    ensures Load(Schedule(s, 0, s.cpu)) == Load(s)
  {
    hide BodyWeight;
    SameLoad(s, Schedule(s, 0, s.cpu));
  }

  lemma WakeKeepsLoad(s: Sys, waker: Id, target: Id)
    requires s.active in s.nodes
    ensures Load(TryWake(s, waker, target)) == Load(s)
  {
    hide ContWeight;
    SameLoad(s, TryWake(s, waker, target));
  }

  lemma ActedIsSound(s: Sys)
    requires Inv(s) && s.active != 0 && s.cpu.Suspended? && s.cpu.rest != []
    ensures Table(Acted(s)) && Contexts(Acted(s)) && Acted(s).active != 0 && Acted(s).cpu.Suspended?
    ensures Acted(s).active in Acted(s).nodes
  {
    hide CursorSafe, TimersPending, IdsConserved, Reaped;
  }

  lemma ActionThenRest(s: Sys)
    requires Inv(s) && s.active != 0 && s.cpu.Suspended? && s.cpu.rest != []
    requires Table(Acted(s)) && Contexts(Acted(s))
    ensures var a := Acted(s);
            match s.cpu.rest[0]
            case Sleep(now, ms) => Step(s) == WaitAndSchedule(a, now, ms, a.cpu)
            case Yield => Step(s) == Schedule(a, 0, a.cpu)
            case Spawn(body) => Step(s) == NewCoroutine(a, body)
            case Wake(target) => Step(s) == TryWake(a, a.active, target)
  {
    hide CursorSafe, TimersPending, IdsConserved, Reaped;
  }

  lemma ActionLowersLoad(s: Sys)
    requires Inv(s) && s.active != 0 && s.cpu.Suspended? && s.cpu.rest != []
    ensures Load(Step(s)) < Load(s)
  {
    assert Table(s) && Contexts(s);
    ActedIsSound(s);
    ActedPays(s);
    ActionThenRest(s);
    var a := Acted(s);
    assert ActionWeight(s.cpu.rest[0]) >= 1;
    assert s.cpu.rest[0].Spawn? ==> ActionWeight(s.cpu.rest[0]) == BodyWeight(s.cpu.rest[0].body) + 3;
    hide *;
    match s.cpu.rest[0] {
      case Sleep(now, ms) => WaitKeepsLoad(a, now, ms);
      case Yield => YieldKeepsLoad(a);
      case Spawn(body) => SpawnLoad(a, body);
      case Wake(target) => WakeKeepsLoad(a, a.active, target);
    }
  }

  /** Entering a callback, and leaving it, is a step less to do. */
  lemma StepLowersLoad(s: Sys)
    requires Inv(s) && s.active != 0
    ensures Load(Step(s)) < Load(s)
  {
    if s.cpu.Suspended? && s.cpu.rest != [] {
      ActionLowersLoad(s);
    } else {
      EntryLowersLoad(s);
    }
  }

  lemma EntryLowersLoad(s: Sys)
    requires Inv(s) && s.active != 0 && (s.cpu.Fresh? || s.cpu == Suspended([]))
    ensures Load(Step(s)) < Load(s)
  {
    hide BodyWeight, CursorSafe, TimersPending, IdsConserved, Reaped;
    LowerLoad(s, Step(s), s.active);
  }

  lemma PassStepKeepsLoad(s: Sys)
    requires Inv(s) && s.active == 0 && s.cpu.at.InPass?
    ensures Load(PassStep(s)) <= Load(s)
  {
    var cursor := s.cpu.at.cursor;
    if cursor.Some? && cursor.value != 0 && s.nodes[cursor.value].state == Ended {
      var i := cursor.value;
      assert Weights(PassStep(s)) == Weights(s) - {i};
      TotalRemoves(Weights(s), i);
    } else {
      SameLoad(s, PassStep(s));
    }
  }

  lemma FireKeepsLoad(s: Sys, now: nat, id: Id)
    requires AtPoll(s) && ToFire(s.expiry, now) == Some(id)
    ensures Load(Do(s, Poll(now))) == Load(s)
  {
    FireKeepsInv(s, now, id);
    SameLoad(s, Do(s, Poll(now)));
  }

  // ---------- the program's own steps ----------

  predicate Own(l: Label) {
    l.Go? || l.BeginPass?
  }

  lemma OwnKeepsLoad(s: Sys, l: Label)
    requires Inv(s) && Own(l)
    ensures Load(Do(s, l)) <= Load(s)
  {
    if s.active != 0 {
      if l.Go? { StepLowersLoad(s); }
    } else if s.cpu.at.InPass? {
      if l.Go? { PassStepKeepsLoad(s); }
    } else {
      MoveKeepsLoad(s, Do(s, l));
    }
  }

  lemma MoveKeepsLoad(s: Sys, t: Sys)
    requires s.active == 0 && s.cpu.Main? && t.cpu.Main? && t == s.(cpu := t.cpu)
    ensures Load(t) == Load(s)
  {
    SameLoad(s, t);
  }

  lemma {:induction false} ExecKeepsLoad(s: Sys, ls: seq<Label>)
    requires Inv(s) && forall l :: l in ls ==> Own(l)
    ensures Load(Exec(s, ls)) <= Load(s)
    decreases |ls|
  {
    hide Load, Do;
    if ls != [] {
      DoKeepsInv(s, ls[0]);
      assert ls[0] in ls;
      OwnKeepsLoad(s, ls[0]);
      ExecKeepsLoad(Do(s, ls[0]), ls[1..]);
    }
  }

  lemma {:induction false} RunLowersLoad(s: Sys)
    requires Inv(s)
    ensures Load(Run(s)) <= Load(s)
    ensures s.active != 0 ==> Load(Run(s)) < Load(s)
    decreases Running(s)
  {
    hide Load, Step;
    if s.active != 0 {
      StepProgress(s);
      StepLowersLoad(s);
      if Step(s).active != 0 { RunLowersLoad(Step(s)); }
    }
  }

  /** j has a timer for that time. */
  ghost predicate Armed(s: Sys, j: Id, time: nat) {
    j in s.expiry && s.expiry[j] == time
  }

  lemma ArmedWaits(s: Sys, j: Id)
    requires Inv(s) && j in s.expiry
    ensures j in s.nodes && j != 0 && j != s.active && s.nodes[j].state == Waiting && Load(s) >= 1
  {
    assert Weights(s)[j] >= 1;
    TotalRemoves(Weights(s), j);
  }

  lemma ArmedCoroutineStep(s: Sys, j: Id, time: nat)
    requires Inv(s) && s.active != 0 && Inv(Step(s)) && Armed(s, j, time)
    ensures Armed(Step(s), j, time) || Pending(Step(s), j)
  {
    assert j in s.nodes && j != 0 && j != s.active by { ArmedWaits(s, j); }
    hide CursorSafe, IdsConserved, Reaped;
    if s.cpu.Suspended? && s.cpu.rest != [] {
      match s.cpu.rest[0]
      case Sleep(_, _) =>
      case Yield =>
      case Spawn(_) =>
      case Wake(_) =>
    }
  }

  lemma ArmedMainStep(s: Sys, l: Label, j: Id, time: nat)
    requires Inv(s) && s.active == 0 && Own(l) && Armed(s, j, time)
    ensures Armed(Do(s, l), j, time)
  {
  }

  ghost predicate Expected(s: Sys, j: Id, time: nat)
    requires Inv(s)
  {
    Armed(s, j, time) || Pending(s, j)
  }

  lemma ExpectedStep(s: Sys, l: Label, j: Id, time: nat)
    requires Inv(s) && Inv(Do(s, l)) && Own(l) && Expected(s, j, time)
    ensures Switched(j) in Since(s, Do(s, l)) || Expected(Do(s, l), j, time)
  {
    if Pending(s, j) {
      PendingStep(s, l, j);
    } else if s.active == 0 {
      ArmedMainStep(s, l, j, time);
    } else if l.Go? {
      ArmedCoroutineStep(s, j, time);
    }
  }

  lemma {:induction false} ExpectedExec(s: Sys, ls: seq<Label>, j: Id, time: nat)
    requires Inv(s) && Expected(s, j, time) && forall l :: l in ls ==> Own(l)
    ensures Switched(j) in Since(s, Exec(s, ls)) || Expected(Exec(s, ls), j, time)
    decreases |ls|
  {
    hide Do, Inv, Expected, Since;
    if ls != [] {
      DoKeepsInv(s, ls[0]);
      assert ls[0] in ls;
      var u := Do(s, ls[0]);
      ExpectedStep(s, ls[0], j, time);
      DoExtendsLog(s, ls[0]);
      ExecExtendsLog(u, ls[1..]);
      SinceSplits(s, u, Exec(s, ls));
      if Expected(u, j, time) {
        ExpectedExec(u, ls[1..], j, time);
      }
    }
  }

  // ---------- one turn of the main loop ----------

  /** RunOnce and ScheduleAll of one turn. */
  ghost function Turned(s: Sys, r: Round): (t: Sys)
    requires AtPoll(s)
    ensures AtPoll(t)
  {
    Pass(Polled(s, r.now, r.events))
  }

  lemma SomebodyFires(s: Sys, now: nat, j: Id)
    requires j in s.expiry && s.expiry[j] <= now
    ensures ToFire(s.expiry, now).Some?
  {
    var times: set<nat> := set k | k in s.expiry :: s.expiry[k];
    assert s.expiry[j] in times;
    var first := Min(times);
    var ids: set<nat> := set k | k in s.expiry && s.expiry[k] == first;
    var k :| k in s.expiry && s.expiry[k] == first;
    assert k in ids;
    var id := Min(ids);
    forall j | j in s.expiry
      ensures first < s.expiry[j] || (first == s.expiry[j] && id <= j)
    {
      assert s.expiry[j] in times;
      if s.expiry[j] == first { assert j in ids; }
    }
    assert FiresFirst(s.expiry, now, id);
  }

  /** From a timer that fires to the end of the turn, the program is on its own. */
  lemma FiredTurnIsOwn(u: Sys) returns (ls: seq<Label>)
    requires Inv(u) && BeforePass(Run(u))
    ensures forall l :: l in ls ==> Own(l)
    ensures Exec(u, ls) == Pass(Run(u))
  {
    var n := RunIsSteps(u);
    var m := PassTerminates(Run(u));
    ls := Steps(n) + ([BeginPass] + Steps(m));
    hide Exec, Run, Pass;
    ExecSplits(u, Steps(n), [BeginPass] + Steps(m));
  }

  lemma FireStarts(s: Sys, now: nat, id: Id, j: Id, time: nat)
    requires AtPoll(s) && ToFire(s.expiry, now) == Some(id) && Armed(s, j, time)
    ensures var u := Do(s, Poll(now));
            && Inv(u) && u.active == id != 0 && s.log <= u.log && Switched(id) in Since(s, u)
            && (id != j ==> Armed(u, j, time))
  {
    FireKeepsInv(s, now, id);
    assert Do(s, Poll(now)).log == s.log + [Woken(0, id), Switched(id)];
    assert Since(s, Do(s, Poll(now))) == [Woken(0, id), Switched(id)];
  }

  /** What the coroutine that fired does, and the pass behind it. */
  lemma RestOfTurn(u: Sys, j: Id, time: nat)
    requires Inv(u) && u.active != 0 && Armed(u, j, time) && BeforePass(Run(u))
    ensures var t := Pass(Run(u));
            && u.log <= t.log && Load(t) < Load(u)
            && (Switched(j) in Since(u, t) || Expected(t, j, time))
  {
    hide Inv, Pass, Run, Load, Exec, Since, BeforePass;
    var ls := FiredTurnIsOwn(u);
    ExecExtendsLog(u, ls);
    ExpectedExec(u, ls, j, time);
    RunLowersLoad(u);
    var m := PassTerminates(Run(u));
    ExecKeepsLoad(Run(u), [BeginPass] + Steps(m));
  }

  lemma FiredTurn(s: Sys, r: Round)
    requires AtPoll(s) && ToFire(s.expiry, r.now).Some?
    ensures Inv(Do(s, Poll(r.now))) && BeforePass(Run(Do(s, Poll(r.now))))
    ensures Turned(s, r) == Pass(Run(Do(s, Poll(r.now))))
  {
    DoKeepsInv(s, Poll(r.now));
    assert Polled(s, r.now, r.events) == Run(Do(s, Poll(r.now)));
    hide Do, Inv, Run, Pass, BeforePass;
  }

  /** While j's timer is due, a turn serves it, or wakes it, or leaves less to do. */
  lemma DueTurn(s: Sys, r: Round, j: Id, time: nat)
    requires AtPoll(s) && Armed(s, j, time) && time <= r.now
    ensures var t := Turned(s, r);
            && s.log <= t.log
            && (Switched(j) in Since(s, t) || (Expected(t, j, time) && Load(t) < Load(s)))
  {
    SomebodyFires(s, r.now, j);
    var id := ToFire(s.expiry, r.now).value;
    hide *;
    FireStarts(s, r.now, id, j, time);
    var u := Do(s, Poll(r.now));
    FireKeepsLoad(s, r.now, id);
    FiredTurn(s, r);
    var t := Turned(s, r);
    if id == j {
      var ls := FiredTurnIsOwn(u);
      ExecExtendsLog(u, ls);
    } else {
      RestOfTurn(u, j, time);
    }
    SinceSplits(s, u, t);
  }

  /** A ready coroutine is dispatched in the next turn, whatever that turn serves. */
  lemma PendingTurn(s: Sys, r: Round, j: Id)
    requires AtPoll(s) && Pending(s, j) && Turned(s, r).created <= WIDTH
    ensures s.log <= Turned(s, r).log && Switched(j) in Since(s, Turned(s, r))
  {
    hide Inv, Polled, Pass, Exec, Since;
    var u := Polled(s, r.now, r.events);
    var ls := PolledIsRun(s, r.now, r.events);
    NoStarvation(s, ls, j);
    ExecExtendsLog(s, ls);
    var n := PassTerminates(u);
    ExecExtendsLog(u, [BeginPass] + Steps(n));
  }

  lemma RoundsExtendLog(s: Sys, rounds: seq<Round>)
    requires AtPoll(s)
    ensures s.log <= Rounds(s, rounds).log && s.created <= Rounds(s, rounds).created
  {
    var ls := RoundsAreRun(s, rounds);
    ExecExtendsLog(s, ls);
  }

  lemma {:induction false} ExpectedIsServed(s: Sys, rounds: seq<Round>, j: Id, time: nat)
    requires AtPoll(s) && Expected(s, j, time) && Rounds(s, rounds).created <= WIDTH
    requires forall r :: r in rounds ==> time <= r.now
    requires |rounds| > if Pending(s, j) then 0 else Load(s)
    ensures Switched(j) in Since(s, Rounds(s, rounds))
    decreases |rounds|
  {
    var r, t := rounds[0], Turned(s, rounds[0]);
    assert r in rounds && Rounds(s, rounds) == Rounds(t, rounds[1..]);
    RoundsExtendLog(t, rounds[1..]);
    hide Inv, Turned, Rounds, Since, Load;
    if Pending(s, j) {
      PendingTurn(s, r, j);
    } else {
      DueTurn(s, r, j, time);
      ArmedWaits(s, j);
      if Switched(j) !in Since(s, t) {
        ExpectedIsServed(t, rounds[1..], j, time);
      }
    }
    SinceSplits(s, t, Rounds(s, rounds));
  }

  /** A timer that is due is served: from the head of the main loop on, as long as the clock has
      passed the expiry of j, its coroutine is dispatched within as many turns as there are
      steps left in the system, and one more, whatever requests, wake-ups and closed
      connections are reported. */
  lemma DueTimerIsServed(s: Sys, rounds: seq<Round>, j: Id)
    requires AtPoll(s) && j in s.expiry && Rounds(s, rounds).created <= WIDTH
    requires forall r :: r in rounds ==> s.expiry[j] <= r.now
    requires |rounds| > Load(s)
    ensures Switched(j) in Since(s, Rounds(s, rounds))
  {
    ArmedWaits(s, j);
    ExpectedIsServed(s, rounds, j, s.expiry[j]);
  }
}
