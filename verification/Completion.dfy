/** What is left when nothing comes from outside any more: everybody ends and is reclaimed,
    but those who wait without a timer. */
module Completion {
  import opened Options
  import opened OrderedSets
  import opened Machine
  import opened Invariant
  import opened Passes
  import opened Outcome
  import opened Runs
  import opened Timers
  import opened Coroutines
  import opened Liveness

  // ---------- who waits without a timer ----------

  lemma StrandedCoroutineIff(s: Sys, j: Id)
    requires Inv(s) && s.active != 0
    ensures Stranded(Step(s), j) <==> Stranded(s, j) && !WokenIn(Since(s, Step(s)), j)
  {
    hide CursorSafe, IdsConserved, Reaped;
    var i := s.active;
    if s.cpu.Fresh? {
      assert Since(s, Step(s)) == [Entered(i, s.nodes[i].callback)];
    } else if s.cpu.rest == [] {
      assert Since(s, Step(s)) == [Exited(i), Switched(0)];
    } else {
      StrandedActionIff(s, j);
    }
  }

  lemma StrandedActionIff(s: Sys, j: Id)
    requires Inv(s) && s.active != 0 && s.cpu.Suspended? && s.cpu.rest != []
    ensures Stranded(Step(s), j) <==> Stranded(s, j) && !WokenIn(Since(s, Step(s)), j)
  {
    hide CursorSafe, IdsConserved, Reaped;
    var i, a := s.active, s.cpu.rest[0];
    match a {
      case Sleep(_, _) =>
        assert Since(s, Step(s)) == [Ran(i, a), Switched(0)];
      case Yield =>
        assert Since(s, Step(s)) == [Ran(i, a), Switched(0)];
      case Spawn(body) =>
        var added := NextId(s.staticid);
        assert Since(s, Step(s)) == [Ran(i, a), Created(added), Assigned(added, body)];
      case Wake(target) =>
        assert Since(s, Step(s)) == [Ran(i, a)] + if CanWake(s, target) then [Woken(i, target)] else [];
        if CanWake(s, target) && target == j {
          assert Woken(i, j) in Since(s, Step(s));
        }
    }
  }

  lemma StrandedMainIff(s: Sys, l: Label, j: Id)
    requires Inv(s) && s.active == 0 && (Own(l) || l.Poll?)
    ensures Stranded(Do(s, l), j) <==> Stranded(s, j) && !WokenIn(Since(s, Do(s, l)), j)
  {
    if s.cpu == Main(Polling) && l.Poll? && ToFire(s.expiry, l.now).Some? {
      var id := ToFire(s.expiry, l.now).value;
      assert Do(s, l) == Schedule(SetReady(s, 0, id), id, Main(Returning));
      assert Since(s, Do(s, l)) == [Woken(0, id), Switched(id)];
    } else if s.cpu.at.InPass? && l.Go? {
      StrandedPassIff(s, j);
    } else {
      assert Since(s, Do(s, l)) == [];
    }
  }

  lemma StrandedPassIff(s: Sys, j: Id)
    requires Inv(s) && s.active == 0 && s.cpu.at.InPass?
    ensures Stranded(PassStep(s), j) <==> Stranded(s, j) && !WokenIn(Since(s, PassStep(s)), j)
  {
    hide IdsConserved, Reaped;
    var es := PassDelta(s);
    assert Since(s, PassStep(s)) == es;
    PassWakesNobody(s, j);
  }

  lemma PassWakesNobody(s: Sys, j: Id)
    requires Inv(s) && s.active == 0 && s.cpu.at.InPass?
    ensures !WokenIn(Since(s, PassStep(s)), j)
  {
    var c := s.cpu.at.cursor;
    if c.Some? && c.value != 0 && s.nodes[c.value].state == Ready {
      assert Since(s, PassStep(s)) == [Switched(c.value)];
    } else if c.Some? && c.value != 0 && s.nodes[c.value].state == Ended {
      assert Since(s, PassStep(s)) == [Destroyed(c.value)];
    } else {
      assert Since(s, PassStep(s)) == [];
    }
  }

  lemma WokenInSplits(a: seq<Event>, b: seq<Event>, j: Id)
    ensures WokenIn(a + b, j) <==> WokenIn(a, j) || WokenIn(b, j)
  {
    assert forall e :: e in a + b <==> e in a || e in b;
  }

  lemma StrandedDoIff(s: Sys, l: Label, j: Id)
    requires Inv(s) && (Own(l) || l.Poll?)
    ensures Stranded(Do(s, l), j) <==> Stranded(s, j) && !WokenIn(Since(s, Do(s, l)), j)
  {
    if s.active == 0 {
      StrandedMainIff(s, l, j);
    } else if l.Go? {
      StrandedCoroutineIff(s, j);
    } else {
      assert Since(s, s) == [];
    }
  }

  /** As long as no connection is closed, those without a timer are those that had none and have
      not been woken. */
  lemma {:induction false} StrandedIff(s: Sys, ls: seq<Label>, j: Id)
    requires Inv(s) && forall l :: l in ls ==> Own(l) || l.Poll?
    ensures Stranded(Exec(s, ls), j) <==> Stranded(s, j) && !WokenIn(Since(s, Exec(s, ls)), j)
    decreases |ls|
  {
    hide Do, Inv, Stranded, WokenIn;
    if ls == [] {
      assert Since(s, s) == [];
      WokenInSplits([], [], j);
      NobodyWoken(j);
    } else {
      DoKeepsInv(s, ls[0]);
      assert ls[0] in ls;
      var u := Do(s, ls[0]);
      StrandedDoIff(s, ls[0], j);
      DoExtendsLog(s, ls[0]);
      ExecExtendsLog(u, ls[1..]);
      SinceSplits(s, u, Exec(s, ls));
      WokenInSplits(Since(s, u), Since(u, Exec(s, ls)), j);
      StrandedIff(u, ls[1..], j);
    }
  }

  lemma NobodyWoken(j: Id)
    ensures !WokenIn([], j)
  {
  }

  lemma PassFromKeepsLoad(s: Sys)
    requires InLoop(s)
    ensures Load(PassFrom(s)) <= Load(s)
  {
    hide Inv, Exec, Load, PassFrom;
    var n := PassFromIsSteps(s);
    ExecKeepsLoad(s, Steps(n));
  }

  lemma DispatchLowersLoad(s: Sys, i: Id)
    requires InLoop(s) && s.cpu == Main(InPass(Some(i))) && i != 0 && s.nodes[i].state == Ready
    ensures Load(Dispatch(s, i, InPass(Some(i)))) < Load(s)
  {
    DispatchKeepsInv(s, i, InPass(Some(i)));
    PassStepKeepsLoad(s);
    var u := Schedule(s, i, s.cpu);
    assert PassStep(s) == u && u.active == i;
    assert Dispatch(s, i, InPass(Some(i))) == Run(u);
    hide *;
    RunLowersLoad(u);
  }

  lemma StepLeavesReady(s: Sys, i: Id, j: Id)
    requires InLoop(s) && s.cpu == Main(InPass(Some(i))) && (i == 0 || s.nodes[i].state != Ready)
    requires j != 0 && j in s.nodes && s.nodes[j].state == Ready && i <= j && InLoop(PassStep(s))
    ensures j in PassStep(s).nodes && PassStep(s).nodes[j].state == Ready && Position(PassStep(s)) <= j
  {
    hide IdsConserved, TimersPending;
  }

  /** A pass that still reaches a ready coroutine leaves less to do. */
  lemma {:induction false} PassFromLowersLoad(s: Sys, j: Id)
    requires InLoop(s) && j != 0 && j in s.nodes && s.nodes[j].state == Ready && Position(s) <= j
    ensures Load(PassFrom(s)) < Load(s)
    decreases Remaining(s.cpu.at.cursor)
  {
    CursorIsLive(s);
    var i := s.cpu.at.cursor.value;
    hide Inv, Load, Dispatch, PassStep, PassFrom;
    if i != 0 && s.nodes[i].state == Ready {
      DispatchContinuesPass(s, i);
      DispatchLowersLoad(s, i);
      PassFromKeepsLoad(Dispatch(s, i, InPass(Some(i))));
    } else {
      StepContinuesPass(s, i);
      PassStepKeepsLoad(s);
      StepLeavesReady(s, i, j);
      PassFromLowersLoad(PassStep(s), j);
    }
  }

  /** Nothing can run any more. */
  ghost predicate Resting(s: Sys) {
    s.active == 0 && s.expiry == map[] && forall j :: j in s.nodes && j != 0 ==> s.nodes[j].state == Waiting
  }

  lemma IdlePoll(s: Sys, r: Round)
    requires AtPoll(s) && s.expiry == map[] && r.events == []
    ensures Do(s, Poll(r.now)) == MoveTo(s, Serving) && Polled(s, r.now, r.events) == MoveTo(s, Serving)
    ensures BeforePass(MoveTo(s, Serving)) && Turned(s, r) == Pass(MoveTo(s, Serving))
  {
    DoKeepsInv(s, Poll(r.now));
  }

  lemma IdleTurnLowersLoad(s: Sys, r: Round, j: Id)
    requires AtPoll(s) && s.expiry == map[] && r.events == []
    requires j != 0 && j in s.nodes && s.nodes[j].state == Ready
    ensures Load(Turned(s, r)) < Load(s)
  {
    IdlePoll(s, r);
    var u := MoveTo(s, Serving);
    PassStartsAtMain(u);
    MoveKeepsLoad(s, EnterPass(u));
    hide Inv, Load, PassFrom, Pass, Turned, InLoop, Position;
    PassFromLowersLoad(EnterPass(u), j);
  }

  lemma FiredTurnLowersLoad(s: Sys, r: Round)
    requires AtPoll(s) && ToFire(s.expiry, r.now).Some?
    ensures Load(Turned(s, r)) < Load(s)
  {
    var id := ToFire(s.expiry, r.now).value;
    FiredTurn(s, r);
    FireKeepsLoad(s, r.now, id);
    assert Armed(s, id, s.expiry[id]);
    hide Do, Inv, Run, Pass, Turned, Load, BeforePass, Exec, AtPoll;
    FireStarts(s, r.now, id, id, s.expiry[id]);
    var u := Do(s, Poll(r.now));
    RunLowersLoad(u);
    PassKeepsLoad(Run(u));
  }

  lemma PassKeepsLoad(s: Sys)
    requires BeforePass(s)
    ensures Load(Pass(s)) <= Load(s)
  {
    hide Inv, Exec, Pass, Load;
    var m := PassTerminates(s);
    ExecKeepsLoad(s, [BeginPass] + Steps(m));
  }

  lemma SomebodyIsReady(s: Sys)
    requires AtPoll(s) && s.expiry == map[] && !Resting(s)
    ensures exists j :: j in s.nodes && j != 0 && s.nodes[j].state == Ready
  {
    hide IdsConserved, TimersPending;
  }

  /** With no events and the clock past every expiry, a turn leaves less to do unless nothing
      can run. */
  lemma TurnLowersLoad(s: Sys, r: Round)
    requires AtPoll(s) && r.events == [] && !Resting(s)
    requires forall j :: j in s.expiry ==> s.expiry[j] <= r.now
    ensures Load(Turned(s, r)) < Load(s)
  {
    if s.expiry != map[] {
      var j :| j in s.expiry;
      SomebodyFires(s, r.now, j);
      FiredTurnLowersLoad(s, r);
    } else {
      SomebodyIsReady(s);
      var j :| j in s.nodes && j != 0 && s.nodes[j].state == Ready;
      IdleTurnLowersLoad(s, r, j);
    }
  }

  lemma RestingStep(s: Sys, l: Label)
    requires Inv(s) && Resting(s) && (Own(l) || l.Poll?)
    ensures Resting(Do(s, l))
  {
    hide IdsConserved;
  }

  lemma {:induction false} RestingExec(s: Sys, ls: seq<Label>)
    requires Inv(s) && Resting(s) && forall l :: l in ls ==> Own(l) || l.Poll?
    ensures Resting(Exec(s, ls))
    decreases |ls|
  {
    hide Do, Inv, Resting;
    if ls != [] {
      DoKeepsInv(s, ls[0]);
      assert ls[0] in ls;
      RestingStep(s, ls[0]);
      RestingExec(Do(s, ls[0]), ls[1..]);
    }
  }

  // ---------- turns without events ----------

  lemma IdleTurnIsRun(s: Sys, r: Round) returns (ls: seq<Label>)
    requires AtPoll(s) && r.events == []
    ensures forall l :: l in ls ==> Own(l) || l.Poll?
    ensures Exec(s, ls) == Turned(s, r)
  {
    DoKeepsInv(s, Poll(r.now));
    var u := Do(s, Poll(r.now));
    var rest;
    if ToFire(s.expiry, r.now).Some? {
      FiredTurn(s, r);
      rest := FiredTurnIsOwn(u);
    } else {
      assert Polled(s, r.now, r.events) == u;
      hide Do, Inv, Exec, Pass;
      var m := PassTerminates(u);
      rest := [BeginPass] + Steps(m);
    }
    hide Do, Inv, Exec, Pass, Run;
    ls := [Poll(r.now)] + rest;
    ExecFirst(s, Poll(r.now), rest);
  }

  lemma {:induction false} IdleRoundsAreRun(s: Sys, rounds: seq<Round>) returns (ls: seq<Label>)
    requires AtPoll(s) && forall r :: r in rounds ==> r.events == []
    ensures forall l :: l in ls ==> Own(l) || l.Poll?
    ensures Exec(s, ls) == Rounds(s, rounds)
    decreases |rounds|
  {
    ls := [];
    if rounds != [] {
      assert rounds[0] in rounds && Rounds(s, rounds) == Rounds(Turned(s, rounds[0]), rounds[1..]);
      hide Inv, Exec, Rounds, Turned;
      var first := IdleTurnIsRun(s, rounds[0]);
      var rest := IdleRoundsAreRun(Turned(s, rounds[0]), rounds[1..]);
      ExecSplits(s, first, rest);
      ls := first + rest;
    }
  }

  /** In every turn the clock has passed every expiry there is. */
  ghost predicate ClockPast(s: Sys, rounds: seq<Round>)
    requires AtPoll(s)
    decreases |rounds|
  {
    rounds == [] ||
    ((forall j :: j in s.expiry ==> s.expiry[j] <= rounds[0].now) && ClockPast(Turned(s, rounds[0]), rounds[1..]))
  }

  lemma {:induction false} ComesToRest(s: Sys, rounds: seq<Round>)
    requires AtPoll(s) && (forall r :: r in rounds ==> r.events == []) && ClockPast(s, rounds)
    requires |rounds| >= Load(s)
    ensures Resting(Rounds(s, rounds))
    decreases |rounds|
  {
    if Resting(s) {
      var ls := IdleRoundsAreRun(s, rounds);
      RestingExec(s, ls);
    } else if rounds == [] {
      NoLoadRests(s);
    } else {
      var r := rounds[0];
      assert r in rounds && Rounds(s, rounds) == Rounds(Turned(s, r), rounds[1..]);
      hide Inv, Load, Turned, Rounds, Resting;
      TurnLowersLoad(s, r);
      ComesToRest(Turned(s, r), rounds[1..]);
    }
  }

  lemma NoLoadRests(s: Sys)
    requires AtPoll(s) && Load(s) == 0
    ensures Resting(s)
  {
    if s.expiry != map[] {
      var j :| j in s.expiry;
      ArmedWaits(s, j);
      assert false;
    }
    if !Resting(s) {
      SomebodyIsReady(s);
      var j :| j in s.nodes && j != 0 && s.nodes[j].state == Ready;
      ReadyHasWork(s, j);
      assert false;
    }
  }

  lemma ReadyHasWork(s: Sys, j: Id)
    requires AtPoll(s) && j in s.nodes && j != 0 && s.nodes[j].state == Ready
    ensures Load(s) >= 1
  {
    assert Weights(s)[j] >= 1;
    TotalRemoves(Weights(s), j);
  }

  ghost predicate Forgotten(s: Sys, t: Sys, j: Id) {
    Stranded(s, j) && !WokenIn(Since(s, t), j)
  }

  lemma RestingLeavesStranded(t: Sys, j: Id)
    requires Resting(t) && j != 0
    ensures j in t.nodes <==> Stranded(t, j)
  {
  }

  /** Everybody finishes: when no requests, wake-ups or closed connections are reported and the
      clock is past every expiry, then after as many turns as there are steps left no timer is
      pending, and the only coroutines still there are those that waited without a timer from
      the start and that nobody woke; every other one ever created has been reclaimed. */
  lemma EverybodyFinishes(s: Sys, rounds: seq<Round>, j: Id)
    requires AtPoll(s) && (forall r :: r in rounds ==> r.events == []) && ClockPast(s, rounds)
    requires |rounds| >= Load(s) && j != 0
    ensures var t := Rounds(s, rounds);
            && t.expiry == map[]
            && (j in t.nodes <==> Forgotten(s, t, j))
            && (t.created <= WIDTH && j < t.created ==> (j in t.dead <==> !Forgotten(s, t, j)))
  {
    var t := Rounds(s, rounds);
    ComesToRest(s, rounds);
    var ls := IdleRoundsAreRun(s, rounds);
    StrandedIff(s, ls, j);
    RestingLeavesStranded(t, j);
    assert t.expiry == map[];
    assert t.created <= WIDTH && j < t.created ==> (j in t.dead <==> j !in t.nodes) by { DeadOrLive(t, j); }
  }

  lemma DeadOrLive(t: Sys, j: Id)
    requires Inv(t)
    ensures t.created <= WIDTH && j < t.created ==> (j in t.dead <==> j !in t.nodes)
  {
  }
}
