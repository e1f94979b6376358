/** Whole runs: any sequence of labels, from a successful `Init` on. */
module Runs {
  import opened Options
  import opened Machine
  import opened Invariant
  import opened Passes
  import opened Outcome
  import opened Life

  ghost function Exec(s: Sys, ls: seq<Label>): (t: Sys)
    requires Inv(s)
    ensures Inv(t)
    decreases |ls|
  {
    if ls == [] then s
    else
      DoKeepsInv(s, ls[0]);
      Exec(Do(s, ls[0]), ls[1..])
  }

  lemma {:induction false} ExecSplits(s: Sys, a: seq<Label>, b: seq<Label>)
    requires Inv(s)
    ensures Exec(s, a + b) == Exec(Exec(s, a), b)
    decreases |a|
  {
    hide Do;
    if a == [] {
      assert a + b == b;
    } else {
      DoKeepsInv(s, a[0]);
      ExecSplits(Do(s, a[0]), a[1..], b);
      assert (a + b)[1..] == a[1..] + b;
    }
  }

  ghost function Start(): (s: Sys)
    ensures Inv(s) && AllLiveOwnLives(s)
    ensures s.cpu == Main(Polling)
  {
    var s := Init(BOOT);
    assert Story([Created(0)], 0) == [] by { StoryAppends([], Created(0), 0); }
    assert AllLiveOwnLives(s) by {
      forall id: Id | id != 0
        ensures LivesOwnLife(s, id)
      {
        StoryAppends([], Created(0), id);
      }
    }
    s
  }

  /** The code's own steps, with no help from the environment. */
  ghost function Steps(n: nat): (ls: seq<Label>)
    ensures |ls| == n && forall k :: 0 <= k < n ==> ls[k] == Go
  {
    seq(n, _ => Go)
  }

  lemma StepsSplit(s: Sys, a: nat, b: nat)
    requires Inv(s)
    ensures Exec(s, Steps(a + b)) == Exec(Exec(s, Steps(a)), Steps(b))
  {
    assert Steps(a + b) == Steps(a) + Steps(b);
    ExecSplits(s, Steps(a), Steps(b));
  }

  lemma OneStep(s: Sys)
    requires Inv(s)
    ensures Inv(Do(s, Go)) && Exec(s, Steps(1)) == Do(s, Go)
  {
    DoKeepsInv(s, Go);
    assert Steps(1)[1..] == [];
  }

  lemma {:induction false} RunIsSteps(s: Sys) returns (n: nat)
    requires Inv(s)
    ensures Exec(s, Steps(n)) == Run(s)
    decreases if s.active == 0 then 0 else Running(s) + 1
  {
    if s.active == 0 {
      n := 0;
    } else {
      StepProgress(s);
      OneStep(s);
      var m := RunIsSteps(Step(s));
      StepsSplit(s, 1, m);
      n := 1 + m;
    }
  }

  lemma DispatchIsSteps(s: Sys, i: Id) returns (n: nat)
    requires InLoop(s) && s.cpu == Main(InPass(Some(i)))
    requires i != 0 && s.nodes[i].state == Ready
    ensures Exec(s, Steps(n)) == Dispatch(s, i, InPass(Some(i)))
  {
    OneStep(s);
    DispatchKeepsInv(s, i, InPass(Some(i)));
    assert Do(s, Go) == Schedule(s, i, s.cpu);
    assert Dispatch(s, i, InPass(Some(i))) == Run(Schedule(s, i, s.cpu));
    hide *;
    n := RunIsSteps(Schedule(s, i, s.cpu));
    StepsSplit(s, 1, n);
    n := 1 + n;
  }

  lemma GoInLoop(s: Sys)
    requires InLoop(s)
    ensures Do(s, Go) == PassStep(s)
  {
  }

  lemma VisitIsStep(s: Sys, i: Id)
    requires InLoop(s) && s.cpu == Main(InPass(Some(i)))
    requires i == 0 || s.nodes[i].state != Ready
    ensures Exec(s, Steps(1)) == Visit(s, i)
  {
    GoInLoop(s);
    hide Inv, Do, PassStep, Visit, Exec, Steps;
    OneStep(s);
    StepIsVisit(s, i);
  }

  lemma EndIsStep(s: Sys)
    requires InLoop(s) && s.cpu == Main(InPass(None))
    ensures Exec(s, Steps(1)) == PassFrom(s)
  {
    OneStep(s);
    PassFromEnd(s);
  }

  lemma CursorIsLive(s: Sys)
    requires InLoop(s)
    ensures s.cpu == Main(InPass(s.cpu.at.cursor))
    ensures s.cpu.at.cursor.Some? ==> s.cpu.at.cursor.value in s.nodes
  {
  }

  lemma VisitAdvances(s: Sys, i: Id)
    requires InLoop(s) && s.cpu == Main(InPass(Some(i)))
    ensures PassFrom(s) == PassFrom(Visit(s, i))
    ensures InLoop(Visit(s, i)) && Remaining(Visit(s, i).cpu.at.cursor) < Remaining(Some(i))
  {
  }

  lemma {:induction false} PassFromIsSteps(s: Sys) returns (n: nat)
    requires InLoop(s)
    ensures Exec(s, Steps(n)) == PassFrom(s)
    decreases Remaining(s.cpu.at.cursor), if s.cpu.at.cursor.Some? then NodeWork(s.nodes[s.cpu.at.cursor.value]) else 0
  {
    CursorIsLive(s);
    hide Do, Inv, Visit, Dispatch, PassStep, Exec, Steps, PassFrom, Remaining, NodeWork;
    if s.cpu.at.cursor.None? {
      EndIsStep(s);
      n := 1;
    } else {
      var i := s.cpu.at.cursor.value;
      var t;
      if i != 0 && s.nodes[i].state == Ready {
        DispatchContinuesPass(s, i);
        t := Dispatch(s, i, InPass(Some(i)));
        n := DispatchIsSteps(s, i);
      } else {
        VisitAdvances(s, i);
        VisitIsStep(s, i);
        t := Visit(s, i);
        n := 1;
      }
      var m := PassFromIsSteps(t);
      StepsSplit(s, n, m);
      n := n + m;
    }
  }

  lemma ExecFirst(s: Sys, l: Label, ls: seq<Label>)
    requires Inv(s)
    ensures Inv(Do(s, l)) && Exec(s, [l] + ls) == Exec(Do(s, l), ls)
  {
    DoKeepsInv(s, l);
    hide Do, Inv;
    assert ([l] + ls)[1..] == ls;
  }

  lemma BeginsPass(s: Sys)
    requires BeforePass(s)
    ensures Do(s, BeginPass) == EnterPass(s) && InLoop(EnterPass(s))
  {
  }

  /** From any point where main may call `ScheduleAll`, finitely many steps of the code
      lead to the state the specification computes, with main at the start of `RunOnce`. */
  lemma PassTerminates(s: Sys) returns (n: nat)
    requires BeforePass(s)
    ensures Exec(s, [BeginPass] + Steps(n)) == Pass(s)
  {
    BeginsPass(s);
    hide Do, Inv, Exec, EnterPass, PassFrom, InLoop;
    n := PassFromIsSteps(EnterPass(s));
    ExecFirst(s, BeginPass, Steps(n));
  }

  // ---------- every run ----------

  lemma {:induction false} ExecLives(s: Sys, ls: seq<Label>)
    requires Inv(s) && AllLiveOwnLives(s)
    ensures AllLiveOwnLives(Exec(s, ls))
    decreases |ls|
  {
    if ls != [] {
      DoKeepsInv(s, ls[0]);
      DoLives(s, ls[0]);
      ExecLives(Do(s, ls[0]), ls[1..]);
    }
  }

  /** In every run, before the id counter has gone round, everything that ever happened to
      a coroutine is an initial part of the life of the one body it was created with; it is
      the whole life exactly when the coroutine has been reclaimed, and a suspended
      coroutine still has to do exactly what is missing. */
  lemma EveryRunPreservesPrograms(ls: seq<Label>, id: Id) returns (body: Body)
    requires Exec(Start(), ls).created <= WIDTH
    requires 0 < id < Exec(Start(), ls).created
    ensures var s := Exec(Start(), ls); var story := Story(s.log, id);
            && story <= FullLife(id, body)
            && (id in s.dead <==> story == FullLife(id, body))
            && (id in s.nodes && s.nodes[id].state == Ended <==> |story| == |body| + 3)
            && (id in s.nodes && Control(s, id).Suspended? ==>
                  2 <= |story| <= |body| + 2 && Control(s, id).rest == body[|story| - 2..])
            && (id in s.nodes && Control(s, id).Fresh? ==> story == [Assigned(id, body)])
  {
    ExecLives(Start(), ls);
    var s := Exec(Start(), ls);
    assert LivesOwnLife(s, id);
    body := Story(s.log, id)[0].body;
  }

  lemma StepExtendsLog(s: Sys)
    requires Inv(s) && s.active != 0
    ensures s.log <= Step(s).log && s.created <= Step(s).created
  {
    if s.cpu.Suspended? && s.cpu.rest != [] {
      match s.cpu.rest[0]
      case Sleep(_, _) =>
      case Yield =>
      case Spawn(_) =>
      case Wake(_) =>
    }
  }

  lemma DoExtendsLog(s: Sys, l: Label)
    requires Inv(s)
    ensures s.log <= Do(s, l).log && s.created <= Do(s, l).created
  {
    if s.active != 0 {
      StepExtendsLog(s);
    } else if s.cpu.at.InPass? {
      PassStepExtendsLog(s);
    }
  }

  lemma PassStepExtendsLog(s: Sys)
    requires Inv(s) && s.active == 0 && s.cpu.at.InPass?
    ensures s.log <= PassStep(s).log && s.created <= PassStep(s).created
  {
  }

  lemma {:induction false} ExecExtendsLog(s: Sys, ls: seq<Label>)
    requires Inv(s)
    ensures s.log <= Exec(s, ls).log && s.created <= Exec(s, ls).created
    decreases |ls|
  {
    if ls != [] {
      DoKeepsInv(s, ls[0]);
      DoExtendsLog(s, ls[0]);
      ExecExtendsLog(Do(s, ls[0]), ls[1..]);
    }
  }

  // ---------- no starvation ----------

  ghost predicate Pending(s: Sys, j: Id)
    requires Inv(s)
  {
    j != 0 && j in s.nodes && s.nodes[j].state == Ready && j != s.active
  }

  lemma PendingCoroutineStep(s: Sys, j: Id)
    requires Inv(s) && s.active != 0 && Inv(Step(s)) && Pending(s, j)
    ensures Pending(Step(s), j)
  {
    if s.cpu.Suspended? && s.cpu.rest != [] {
      match s.cpu.rest[0]
      case Sleep(_, _) =>
      case Yield =>
      case Spawn(_) =>
      case Wake(_) =>
    }
  }

  lemma PendingMainStep(s: Sys, l: Label, j: Id)
    requires Inv(s) && s.active == 0 && Inv(Do(s, l)) && Pending(s, j)
    ensures Switched(j) in Since(s, Do(s, l)) || Pending(Do(s, l), j)
  {
    if s.cpu == Main(Polling) && l.Poll? && ToFire(s.expiry, l.now).Some? {
      var id := ToFire(s.expiry, l.now).value;
      assert id != j;
      assert Do(s, l) == Schedule(SetReady(s, 0, id), id, Main(Returning));
    } else if s.cpu.at.InPass? && l.Go? {
      PendingPassStep(s, j);
    }
  }

  lemma PendingPassStep(s: Sys, j: Id)
    requires Inv(s) && s.active == 0 && s.cpu.at.InPass? && Inv(PassStep(s)) && Pending(s, j)
    ensures Switched(j) in Since(s, PassStep(s)) || Pending(PassStep(s), j)
  {
  }

  /** A ready coroutine stays live and ready until it is dispatched. */
  lemma PendingStep(s: Sys, l: Label, j: Id)
    requires Inv(s) && Inv(Do(s, l)) && Pending(s, j)
    ensures Switched(j) in Since(s, Do(s, l)) || Pending(Do(s, l), j)
  {
    if s.active == 0 {
      PendingMainStep(s, l, j);
    } else if l.Go? {
      PendingCoroutineStep(s, j);
    }
  }

  lemma {:induction false} PendingExec(s: Sys, ls: seq<Label>, j: Id)
    requires Inv(s) && Pending(s, j)
    ensures Switched(j) in Since(s, Exec(s, ls)) || Pending(Exec(s, ls), j)
    decreases |ls|
  {
    if ls != [] {
      DoKeepsInv(s, ls[0]);
      var u := Do(s, ls[0]);
      PendingStep(s, ls[0], j);
      DoExtendsLog(s, ls[0]);
      ExecExtendsLog(u, ls[1..]);
      SinceSplits(s, u, Exec(s, ls));
      if Switched(j) !in Since(s, u) {
        PendingExec(u, ls[1..], j);
      }
    }
  }

  /** A pass, from any point where main may call `ScheduleAll`. */
  lemma PassSettles(s: Sys)
    requires BeforePass(s) && Pass(s).created <= WIDTH
    ensures Settles(s, Pass(s), 0)
  {
    PassStartsAtMain(s);
    hide Settles, InLoop, Position, PassFrom, Pass, EnterPass, BeforePass;
    PassFromSettles(EnterPass(s));
    SettlesAlike(EnterPass(s), s, Pass(s), 0);
  }

  lemma PassStartsAtMain(s: Sys)
    requires BeforePass(s)
    ensures InLoop(EnterPass(s)) && Position(EnterPass(s)) == 0
    ensures Pass(s) == PassFrom(EnterPass(s))
    ensures EnterPass(s).nodes == s.nodes && EnterPass(s).log == s.log && EnterPass(s).created == s.created
  {
    assert 0 in s.nodes;
  }

  lemma SettlesAlike(e: Sys, s: Sys, t: Sys, k: nat)
    requires Settles(e, t, k)
    requires e.nodes == s.nodes && e.log == s.log && e.created == s.created
    ensures Settles(s, t, k)
  {
    assert Since(e, t) == Since(s, t);
  }

  /** After a pass no ended coroutine is left, and what is left ready was woken, after the
      cursor had passed it, by a coroutine with a larger id; everything else waits. */
  lemma PassLeavesReadyIffWokenAbove(s: Sys)
    requires BeforePass(s) && Pass(s).created <= WIDTH
    ensures forall j :: j in Pass(s).nodes && j != 0 ==>
              && Pass(s).nodes[j].state != Ended
              && (Pass(s).nodes[j].state == Ready <==> WokenAbove(Since(s, Pass(s)), j))
  {
    PassSettles(s);
  }

  /** If nobody wakes another during the pass, everybody left waits. */
  lemma PassWithoutWakesLeavesAllWaiting(s: Sys)
    requires BeforePass(s) && Pass(s).created <= WIDTH
    requires forall e :: e in Since(s, Pass(s)) ==> !e.Woken?
    ensures forall j :: j in Pass(s).nodes && j != 0 ==> Pass(s).nodes[j].state == Waiting
  {
    PassSettles(s);
    var l := Since(s, Pass(s));
    assert forall p :: 0 <= p < |l| ==> l[p] in l;
    assert forall j :: j in Pass(s).nodes ==> !WokenAbove(l, j);
    hide Inv, WokenAbove, Pass, Since;
  }

  /** A pass dispatches every coroutine ready at its start and every one created during it. */
  lemma PassDispatchesReadyAndNew(s: Sys)
    requires BeforePass(s) && Pass(s).created <= WIDTH
    ensures forall j :: j in s.nodes && j != 0 && s.nodes[j].state == Ready ==> Switched(j) in Since(s, Pass(s))
    ensures forall j: Id :: s.created <= j < Pass(s).created ==> Switched(j) in Since(s, Pass(s))
  {
    PassSettles(s);
  }

  /** No starvation: a coroutine that is ready (new, or woken) at any moment of a run is
      dispatched at the latest by the next `ScheduleAll` that starts, whatever happens
      until then. */
  lemma NoStarvation(s: Sys, ls: seq<Label>, j: Id)
    requires Inv(s) && Pending(s, j)
    requires BeforePass(Exec(s, ls)) && Pass(Exec(s, ls)).created <= WIDTH
    ensures Switched(j) in Since(s, Pass(Exec(s, ls)))
  {
    var t := Exec(s, ls);
    PendingExec(s, ls, j);
    ExecExtendsLog(s, ls);
    PassSettles(t);
    SinceSplits(s, t, Pass(t));
    if Switched(j) !in Since(s, t) {
      PassDispatchesReadyAndNew(t);
    }
  }

  // ---------- a coroutine that has gone to sleep ----------

  ghost predicate Asleep(s: Sys, j: Id, rest: Body) {
    j != 0 && j != s.active && j in s.nodes && s.nodes[j].cont == Suspended(rest)
  }

  lemma AsleepCoroutineStep(s: Sys, j: Id, rest: Body)
    requires Inv(s) && s.active != 0 && Asleep(s, j, rest)
    ensures Asleep(Step(s), j, rest)
  {
    hide CursorSafe, TimersPending, IdsConserved, Reaped;
    if s.cpu.Suspended? && s.cpu.rest != [] {
      match s.cpu.rest[0]
      case Sleep(_, _) =>
      case Yield =>
      case Spawn(_) =>
      case Wake(_) =>
    }
  }

  lemma AsleepPassStep(s: Sys, j: Id, rest: Body)
    requires Inv(s) && s.active == 0 && s.cpu.at.InPass? && Asleep(s, j, rest)
    ensures Switched(j) in Since(s, PassStep(s)) || Asleep(PassStep(s), j, rest)
  {
  }

  lemma AsleepMainStep(s: Sys, l: Label, j: Id, rest: Body)
    requires Inv(s) && s.active == 0 && Asleep(s, j, rest)
    ensures Switched(j) in Since(s, Do(s, l)) || Asleep(Do(s, l), j, rest)
  {
    if s.cpu == Main(Polling) && l.Poll? && ToFire(s.expiry, l.now).Some? {
      var id := ToFire(s.expiry, l.now).value;
      assert Do(s, l) == Schedule(SetReady(s, 0, id), id, Main(Returning));
      assert Since(s, Do(s, l)) == [Woken(0, id), Switched(id)];
    } else if s.cpu.at.InPass? && l.Go? {
      AsleepPassStep(s, j, rest);
    }
  }

  lemma {:induction false} AsleepExec(s: Sys, ls: seq<Label>, j: Id, rest: Body)
    requires Inv(s) && Asleep(s, j, rest)
    ensures Switched(j) in Since(s, Exec(s, ls)) || Asleep(Exec(s, ls), j, rest)
    decreases |ls|
  {
    hide Inv, Do, Asleep, Since;
    if ls != [] {
      DoKeepsInv(s, ls[0]);
      var u := Do(s, ls[0]);
      AsleepDo(s, ls[0], j, rest);
      DoExtendsLog(s, ls[0]);
      ExecExtendsLog(u, ls[1..]);
      SinceSplits(s, u, Exec(s, ls));
      if Asleep(u, j, rest) {
        AsleepExec(u, ls[1..], j, rest);
      }
    }
  }

  lemma AsleepDo(s: Sys, l: Label, j: Id, rest: Body)
    requires Inv(s) && Asleep(s, j, rest)
    ensures Switched(j) in Since(s, Do(s, l)) || Asleep(Do(s, l), j, rest)
  {
    if s.active == 0 {
      AsleepMainStep(s, l, j, rest);
    } else if l.Go? {
      AsleepCoroutineStep(s, j, rest);
    }
  }

  lemma AsleepIsSafe(s: Sys, j: Id, rest: Body)
    requires Inv(s) && Asleep(s, j, rest)
    ensures s.nodes[j].state != Ended && Inv(SetReady(s, 0, j)) && Notified(s, j) == SetReady(s, 0, j)
  {
    SetReadySafeIff(s, 0, j);
  }

  lemma SleepStarts(s: Sys)
    requires Inv(s) && s.active != 0 && s.cpu.Suspended? && s.cpu.rest != [] && s.cpu.rest[0].Sleep?
    ensures Inv(Step(s)) && Asleep(Step(s), s.active, s.cpu.rest[1..])
  {
    StepKeepsInv(s);
    hide CursorSafe, TimersPending, IdsConserved, Reaped;
  }

  /** The id a coroutine leaves in a descriptor while it waits for its connection: from the time
      it went to sleep until it is switched to again, whatever happens, the id names a live
      coroutine that is still inside that wait, so that waking it without looking is safe. */
  lemma ConnectNamesWaiter(s: Sys, ls: seq<Label>)
    requires Inv(s) && s.active != 0 && s.cpu.Suspended? && s.cpu.rest != [] && s.cpu.rest[0].Sleep? && Inv(Step(s))
    requires Switched(s.active) !in Since(Step(s), Exec(Step(s), ls))
    ensures var t := Exec(Step(s), ls);
            && s.active in t.nodes && t.nodes[s.active].state != Ended
            && t.nodes[s.active].cont == Suspended(s.cpu.rest[1..])
            && Notified(t, s.active) == SetReady(t, 0, s.active) && Inv(SetReady(t, 0, s.active))
  {
    hide Inv, Step, Exec, Since, Notified, SetReady;
    var j, rest := s.active, s.cpu.rest[1..];
    SleepStarts(s);
    AsleepExec(Step(s), ls, j, rest);
    AsleepIsSafe(Exec(Step(s), ls), j, rest);
  }

  // ---------- the end of a coroutine ----------

  lemma {:induction false} StoryContains(log: seq<Event>, e: Event, id: Id)
    requires e in log && About(e, id)
    ensures e in Story(log, id)
    decreases |log|
  {
    if e != log[|log| - 1] {
      assert e in log[..|log| - 1];
      StoryContains(log[..|log| - 1], e, id);
    }
  }

  /** The story of a coroutine that has ended, and may have been reclaimed. */
  ghost predicate Over(story: seq<Event>, id: Id) {
    && story != [] && story[0].Assigned?
    && story <= FullLife(id, story[0].body)
    && |story| >= |story[0].body| + 3
  }

  lemma OverIsFinal(a: seq<Event>, b: seq<Event>, id: Id)
    requires a <= b && Over(a, id) && Over(b, id)
    ensures b == a || b == a + [Destroyed(id)]
    ensures Destroyed(id) in b <==> b == FullLife(id, b[0].body)
  {
    var life := FullLife(id, b[0].body);
    assert b <= life && b == life[..|b|];
    if |b| == |a| {
      assert a == b;
    }
    if Destroyed(id) in b {
      var k :| 0 <= k < |b| && b[k] == Destroyed(id);
      assert life[k] == Destroyed(id);
    } else {
      assert life[|life| - 1] == Destroyed(id);
    }
  }

  /** `Ended` is absorbing: once `Entry` has recorded the end of a coroutine, it never has
      the processor again, and the only thing that still happens to it is being reclaimed,
      once. */
  lemma EndedNeverRunsAgain(ls: seq<Label>, later: seq<Label>, id: Id)
    requires Exec(Exec(Start(), ls), later).created <= WIDTH
    requires id != 0 && Exited(id) in Exec(Start(), ls).log
    ensures var s := Exec(Start(), ls); var t := Exec(s, later);
            && t.active != id
            && (id in t.nodes ==> t.nodes[id].state == Ended)
            && (id in t.dead <==> Destroyed(id) in t.log)
            && (Story(t.log, id) == Story(s.log, id) || Story(t.log, id) == Story(s.log, id) + [Destroyed(id)])
  {
    var s := Exec(Start(), ls);
    var t := Exec(s, later);
    hide Exec, Start, Inv, AllLiveOwnLives, Over;
    ExecLives(Start(), ls);
    ExecLives(s, later);
    ExecExtendsLog(s, later);
    EndedStory(s, id);
    EndedStory(t, id);
    StoryPrefix(s.log, t.log, id);
    OverIsFinal(Story(s.log, id), Story(t.log, id), id);
    if Destroyed(id) in t.log {
      StoryContains(t.log, Destroyed(id), id);
    }
    StoryWithin(t.log, id);
  }

  lemma {:induction false} StoryWithin(log: seq<Event>, id: Id)
    ensures forall e :: e in Story(log, id) ==> e in log
    decreases |log|
  {
    if log != [] {
      StoryWithin(log[..|log| - 1], id);
      assert forall e :: e in log[..|log| - 1] ==> e in log;
      assert log[|log| - 1] in log;
    }
  }

  lemma {:induction false} StoryPrefix(a: seq<Event>, b: seq<Event>, id: Id)
    requires a <= b
    ensures Story(a, id) <= Story(b, id)
    decreases |b|
  {
    if |a| < |b| {
      assert a <= b[..|b| - 1];
      StoryPrefix(a, b[..|b| - 1], id);
    } else {
      assert a == b;
    }
  }

  lemma EndedStory(s: Sys, id: Id)
    requires Inv(s) && AllLiveOwnLives(s) && s.created <= WIDTH
    requires id != 0 && Exited(id) in s.log
    ensures Over(Story(s.log, id), id)
    ensures id in s.dead <==> Story(s.log, id) == FullLife(id, Story(s.log, id)[0].body)
    ensures s.active != id
    ensures id in s.nodes <==> id !in s.dead
    ensures id in s.nodes ==> s.nodes[id].state == Ended
  {
    StoryContains(s.log, Exited(id), id);
    assert LivesOwnLife(s, id);
    var story := Story(s.log, id);
    var k :| 0 <= k < |story| && story[k] == Exited(id);
    var body := story[0].body;
    assert FullLife(id, body)[k] == Exited(id);
    assert k == |body| + 2;
  }

  /** Whatever ended before or during a pass is reclaimed by the end of that pass. */
  lemma PassReclaimsEnded(ls: seq<Label>, id: Id)
    requires BeforePass(Exec(Start(), ls)) && Pass(Exec(Start(), ls)).created <= WIDTH
    requires id != 0 && Exited(id) in Pass(Exec(Start(), ls)).log
    ensures id in Pass(Exec(Start(), ls)).dead
  {
    var s := Exec(Start(), ls);
    var t := Pass(s);
    var n := PassTerminates(s);
    ExecLives(Start(), ls);
    ExecLives(s, [BeginPass] + Steps(n));
    EndedStory(t, id);
    PassSettles(s);
  }

  // ---------- timers and ids ----------

  /** A timer that fires names a live waiting coroutine: the unchecked `Get(id)` of
      `SetReady` finds it, and `Schedule(id)` switches to it. */
  lemma FiringTimerNamesWaiter(ls: seq<Label>, now: nat)
    requires ToFire(Exec(Start(), ls).expiry, now).Some?
    ensures var s := Exec(Start(), ls); var id := ToFire(s.expiry, now).value;
            id in s.nodes && id != 0 && s.nodes[id].state == Waiting && s.nodes[id].cont.Suspended?
  {
  }

  /** No coroutine is woken by its timer before its time: when a timer fires at `now`, the
      last thing its coroutine did was to ask to sleep until then or earlier. */
  lemma NoEarlyTimer(ls: seq<Label>, now: nat)
    requires Exec(Start(), ls).created <= WIDTH
    requires ToFire(Exec(Start(), ls).expiry, now).Some?
    ensures var s := Exec(Start(), ls); var story := Story(s.log, ToFire(s.expiry, now).value);
            && story != []
            && var last := story[|story| - 1];
               last.Ran? && last.action.Sleep? && last.action.now + last.action.ms <= now
  {
    ExecLives(Start(), ls);
    FiringTimerNamesWaiter(ls, now);
    var s := Exec(Start(), ls);
    assert LivesOwnLife(s, ToFire(s.expiry, now).value);
  }

  /** Whatever leaves the table is the ended entry the loop stands on: never main, never the
      running coroutine; and the cursor has moved on to the next live id. */
  lemma OnlyInspectedIsErased(s: Sys, l: Label, j: Id)
    requires Inv(s) && j in s.nodes && j !in Do(s, l).nodes
    ensures s.active == 0 && s.cpu == Main(InPass(Some(j))) && s.nodes[j].state == Ended
    ensures j != 0 && j != s.active
    ensures Do(s, l).cpu == Main(InPass(NextKey(s.nodes, j as nat + 1)))
  {
    if s.active != 0 {
      StepKeepsNodes(s, j);
    }
  }

  lemma StepKeepsNodes(s: Sys, j: Id)
    requires Inv(s) && s.active != 0 && j in s.nodes
    ensures j in Step(s).nodes
  {
    if s.cpu.Suspended? && s.cpu.rest != [] {
      match s.cpu.rest[0]
      case Sleep(_, _) =>
      case Yield =>
      case Spawn(_) =>
      case Wake(_) =>
    }
  }

  /** The id handed out by `Create` is one never used before exactly until 2^32 ids have
      been created; the next one is 0, main's.  An id that is still live is given out again
      with everything that is stored under it. */
  lemma CreateGivesNewIdIff(s: Sys)
    requires Inv(s)
    ensures var id := Create(s).staticid;
            (id !in s.nodes && id !in s.dead) <==> s.created < 0x1_0000_0000
    ensures s.created == WIDTH ==> Create(s).staticid == 0 && Create(s).nodes == s.nodes
    ensures Create(s).staticid in s.nodes ==> Create(s).nodes == s.nodes
  {
    CreateKeepsInv(s);
    if s.created == WIDTH {
      assert NextId(s.staticid) == 0;
    }
  }
}
