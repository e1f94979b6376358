/** What one call of `ScheduleAll` computes, twice.

    `Run` and `PassStep` follow the code: main dispatches, the processor executes the
    coroutine until it switches back, the loop looks at the same entry again.  `Pass`
    is the specification: it visits the live non-zero ids in ascending order, executes
    each ready body as an ordinary call with no context switch at all until it blocks,
    and removes it if it ended.  The two agree. */
module Passes {
  import opened Options
  import opened Machine
  import opened Invariant

  // ---------- executing a coroutine until it switches back ----------

  /** How much is left to execute before a context can only be finished. */
  function Work(cont: Cont, callback: Body): nat {
    match cont
    case Fresh => |callback| + 2
    case Suspended(rest) => |rest| + 1
    case _ => 0
  }

  function NodeWork(n: Node): nat {
    Work(n.cont, n.callback)
  }

  ghost function Running(s: Sys): nat
    requires s.active in s.nodes
  {
    Work(s.cpu, s.nodes[s.active].callback)
  }

  /** A step either leaves the same coroutine running, with less to do, or gives control
      back to main exactly where main left it. */
  lemma StepProgress(s: Sys)
    requires Inv(s) && s.active != 0
    ensures Inv(Step(s))
    ensures s.active in Step(s).nodes && Step(s).active in {0, s.active}
    ensures Step(s).active != 0 ==>
              Running(Step(s)) < Running(s) && Step(s).nodes[0].cont == s.nodes[0].cont && Step(s).cpu.Suspended?
    ensures Step(s).active == 0 ==>
              Step(s).cpu == s.nodes[0].cont && NodeWork(Step(s).nodes[s.active]) < Running(s)
  {
    StepKeepsInv(s);
    hide CursorSafe, TimersPending, IdsConserved;
  }

  ghost function Run(s: Sys): (t: Sys)
    requires Inv(s)
    ensures Inv(t) && t.active == 0
    ensures s.active in t.nodes
    ensures s.active != 0 ==>
              t.cpu == s.nodes[0].cont && NodeWork(t.nodes[s.active]) < Running(s)
    decreases Running(s)
  {
    if s.active == 0 then s
    else
      StepProgress(s);
      Run(Step(s))
  }

  /** Main calls `Schedule(node)` and control comes back. */
  ghost function Dispatch(s: Sys, i: Id, at: MainPoint): (t: Sys)
    requires Inv(s) && s.active == 0
    requires i in s.nodes && i != 0 && s.nodes[i].state == Ready
    requires at == Returning || (at == InPass(Some(i)) && s.cpu == Main(at))
    ensures Inv(t) && t.active == 0 && t.cpu == Main(at)
    ensures i in t.nodes && NodeWork(t.nodes[i]) < NodeWork(s.nodes[i])
  {
    DispatchKeepsInv(s, i, at);
    Run(Schedule(s, i, Main(at)))
  }

  // ---------- the specification ----------

  /** The rest of a body, executed as a call.  A bare `Schedule()` only leaves its two
      switches in the history: main's loop comes straight back. */
  function Straight(s: Sys, i: Id, rest: Body): Sys
    requires i in s.nodes
    decreases |rest|
  {
    if rest == [] then
      Emit(Emit(Put(s, i, s.nodes[i].(state := Ended, cont := Finished)), Exited(i)), Switched(0))
    else
      var t := Emit(s, Ran(i, rest[0]));
      match rest[0]
      case Sleep(now, ms) =>
        var blocked := s.nodes[i].(state := Waiting, cont := Suspended(rest[1..]));
        Emit(Put(t, i, blocked).(expiry := t.expiry[i := now + ms], disarmed := t.disarmed - {i}), Switched(0))
      case Yield => Straight(Emit(Emit(t, Switched(0)), Switched(i)), i, rest[1..])
      case Spawn(body) => Straight(NewCoroutine(t, body), i, rest[1..])
      case Wake(target) => Straight(TryWake(t, i, target), i, rest[1..])
  }

  /** The turn of one ready coroutine, up to where it waits or ends. */
  function Call(s: Sys, i: Id): Sys
    requires i in s.nodes
  {
    var n := s.nodes[i];
    var t := Emit(Put(s, i, n.(cont := OnCpu)), Switched(i));
    match n.cont
    case Fresh => Straight(Emit(t, Entered(i, n.callback)), i, n.callback)
    case Suspended(rest) => Straight(t, i, rest)
    case _ => t
  }

  // ---------- the code agrees with the specification ----------

  /** A running system seen from main, the running context marked as such. */
  ghost function FromMain(s: Sys): Sys
    requires 0 in s.nodes
  {
    s.(active := 0, cpu := s.nodes[0].cont, nodes := s.nodes[0 := s.nodes[0].(cont := OnCpu)])
  }

  ghost function TurnFrom(t: Sys, i: Id): Sys
    requires i in t.nodes
  {
    if t.nodes[i].state == Ready then Call(t, i) else t
  }

  lemma YieldIsStraight(s: Sys, rest: Body)
    requires Inv(s) && s.active != 0 && s.cpu == Suspended(rest) && rest != [] && rest[0] == Yield
    ensures Straight(FromMain(s), s.active, rest) == TurnFrom(Run(s), s.active)
  {
    StepProgress(s);
    var i := s.active;
    assert Run(s) == Step(s);
    var again := Emit(Emit(Emit(FromMain(s), Ran(i, Yield)), Switched(0)), Switched(i));
    var called := Emit(Put(Step(s), i, Step(s).nodes[i].(cont := OnCpu)), Switched(i));
    assert again.nodes == called.nodes;
    assert again == called;
  }

  /** Ending is the same step whoever is on the processor. */
  lemma ExitFromMain(s: Sys, i: Id)
    requires 0 in s.nodes && i in s.nodes && i != 0 && s.active == i
    ensures Schedule(Emit(Put(s, i, s.nodes[i].(state := Ended)), Exited(i)), 0, Finished) == Straight(FromMain(s), i, [])
  {
    var t := Schedule(Emit(Put(s, i, s.nodes[i].(state := Ended)), Exited(i)), 0, Finished);
    assert t.nodes == Straight(FromMain(s), i, []).nodes;
  }

  lemma ExitIsStraight(s: Sys)
    requires Inv(s) && s.active != 0 && s.cpu == Suspended([])
    ensures Straight(FromMain(s), s.active, []) == TurnFrom(Run(s), s.active)
  {
    StepProgress(s);
    ExitFromMain(s, s.active);
    assert Run(s) == Step(s);
  }

  /** Waiting is the same step whoever is on the processor. */
  lemma SleepFromMain(s: Sys, i: Id, now: nat, ms: nat, rest: Body)
    requires 0 in s.nodes && i in s.nodes && i != 0 && s.active == i && s.nodes[i].reqId == i
    ensures WaitAndSchedule(Emit(s, Ran(i, Sleep(now, ms))), now, ms, Suspended(rest)) ==
            Straight(FromMain(s), i, [Sleep(now, ms)] + rest)
  {
    var body := [Sleep(now, ms)] + rest;
    assert body[0] == Sleep(now, ms) && body[1..] == rest;
    var t := WaitAndSchedule(Emit(s, Ran(i, Sleep(now, ms))), now, ms, Suspended(rest));
    assert t.nodes == Straight(FromMain(s), i, body).nodes;
  }

  lemma RunEnds(s: Sys)
    requires Inv(s) && s.active != 0 && Inv(Step(s)) && Step(s).active == 0
    ensures Run(s) == Step(s)
  {
    hide Inv, Step;
  }

  lemma SleepStep(s: Sys, now: nat, ms: nat, rest: Body)
    requires Inv(s) && s.active != 0 && s.cpu == Suspended([Sleep(now, ms)] + rest)
    ensures Step(s) == WaitAndSchedule(Emit(s, Ran(s.active, Sleep(now, ms))), now, ms, Suspended(rest))
    ensures s.active in s.nodes && 0 in s.nodes && s.nodes[s.active].reqId == s.active
    ensures Step(s).active == 0 && s.active in Step(s).nodes && Step(s).nodes[s.active].state == Waiting
  {
    assert ([Sleep(now, ms)] + rest)[1..] == rest;
    hide CursorSafe, TimersPending, IdsConserved, Reaped;
  }

  lemma SleepIsStraight(s: Sys, rest: Body)
    requires Inv(s) && s.active != 0 && s.cpu == Suspended(rest) && rest != [] && rest[0].Sleep?
    ensures s.active in Run(s).nodes && 0 in s.nodes && s.active in s.nodes
    ensures Straight(FromMain(s), s.active, rest) == TurnFrom(Run(s), s.active)
  {
    StepProgress(s);
    assert rest == [Sleep(rest[0].now, rest[0].ms)] + rest[1..];
    hide Inv, Step, WaitAndSchedule, Straight, FromMain;
    SleepStep(s, rest[0].now, rest[0].ms, rest[1..]);
    RunEnds(s);
    SleepFromMain(s, s.active, rest[0].now, rest[0].ms, rest[1..]);
  }

  /** Creating and waking are the same steps whoever is on the processor. */
  lemma SpawnFromMain(s: Sys, body: Body, rest: Body)
    requires Inv(s) && s.active != 0
    ensures FromMain(NewCoroutine(s, body).(cpu := Suspended(rest))) == NewCoroutine(FromMain(s), body)
  {
    assert FromMain(NewCoroutine(s, body).(cpu := Suspended(rest))).nodes == NewCoroutine(FromMain(s), body).nodes;
  }

  lemma WakeFromMain(s: Sys, waker: Id, target: Id, rest: Body)
    requires Inv(s) && s.active != 0
    ensures FromMain(TryWake(s, waker, target).(cpu := Suspended(rest))) == TryWake(FromMain(s), waker, target)
  {
    assert FromMain(TryWake(s, waker, target).(cpu := Suspended(rest))).nodes == TryWake(FromMain(s), waker, target).nodes;
  }

  lemma EmitKeepsInv(s: Sys, e: Event)
    requires Inv(s)
    ensures Inv(Emit(s, e))
  {
  }

  lemma {:induction false} RunIsStraight(s: Sys, rest: Body)
    requires Inv(s) && s.active != 0 && s.cpu == Suspended(rest)
    ensures Straight(FromMain(s), s.active, rest) == TurnFrom(Run(s), s.active)
    decreases |rest|
  {
    StepProgress(s);
    assert s.active in s.nodes && 0 in s.nodes;
    hide Inv, TurnFrom;
    if rest == [] {
      ExitIsStraight(s);
    } else if rest[0].Sleep? {
      SleepIsStraight(s, rest);
    } else if rest[0].Yield? {
      YieldIsStraight(s, rest);
    } else {
      var t := Emit(s, Ran(s.active, rest[0]));
      assert Inv(t) by { EmitKeepsInv(s, Ran(s.active, rest[0])); }
      RunIsStraight(Step(s), rest[1..]);
      match rest[0] {
        case Spawn(body) => SpawnFromMain(t, body, rest[1..]);
        case Wake(target) => WakeFromMain(t, s.active, target, rest[1..]);
      }
    }
  }

  /** The coroutine just dispatched, seen from main, is where its call starts. */
  lemma DispatchedFromMain(s: Sys, i: Id)
    requires Inv(s) && s.active == 0 && s.cpu == Main(InPass(Some(i)))
    requires i != 0 && s.nodes[i].state == Ready
    ensures FromMain(Schedule(s, i, s.cpu)) == Emit(Put(s, i, s.nodes[i].(cont := OnCpu)), Switched(i))
  {
    var m := Emit(Put(s, i, s.nodes[i].(cont := OnCpu)), Switched(i));
    assert FromMain(Schedule(s, i, s.cpu)).nodes == m.nodes;
  }

  lemma EntryFromMain(r: Sys)
    requires Inv(r) && r.active != 0 && r.cpu.Fresh?
    ensures var callback := r.nodes[r.active].callback;
            && Step(r).cpu == Suspended(callback) && Step(r).active == r.active
            && FromMain(Step(r)) == Emit(FromMain(r), Entered(r.active, callback))
  {
  }

  /** One dispatch, then whatever the loop does next with the same entry, is one call. */
  lemma DispatchIsCall(s: Sys, i: Id)
    requires Inv(s) && s.active == 0 && s.cpu == Main(InPass(Some(i)))
    requires i != 0 && s.nodes[i].state == Ready
    ensures Call(s, i) == TurnFrom(Dispatch(s, i, InPass(Some(i))), i)
  {
    DispatchKeepsInv(s, i, InPass(Some(i)));
    DispatchedFromMain(s, i);
    var r := Schedule(s, i, s.cpu);
    StepProgress(r);
    var callback := s.nodes[i].callback;
    assert r.active == i && r.cpu == s.nodes[i].cont && r.nodes[i].callback == callback;
    assert r.cpu.Fresh? || r.cpu.Suspended?;
    hide Inv, Straight, Step, FromMain, TurnFrom, Schedule;
    if r.cpu.Fresh? {
      EntryFromMain(r);
      RunIsStraight(Step(r), callback);
    } else {
      RunIsStraight(r, r.cpu.rest);
    }
  }

  lemma {:induction false} CallSettles(s: Sys, i: Id)
    requires Inv(s) && s.active == 0 && s.cpu == Main(InPass(Some(i)))
    requires i != 0 && s.nodes[i].state == Ready
    ensures Inv(Call(s, i)) && Call(s, i).active == 0 && Call(s, i).cpu == s.cpu
    ensures i in Call(s, i).nodes && Call(s, i).nodes[i].state != Ready
    decreases NodeWork(s.nodes[i])
  {
    DispatchIsCall(s, i);
    var t := Dispatch(s, i, InPass(Some(i)));
    if t.nodes[i].state == Ready {
      CallSettles(t, i);
    }
  }

  // ---------- a whole pass ----------

  ghost predicate InLoop(s: Sys) {
    Inv(s) && s.active == 0 && s.cpu.at.InPass?
  }

  function Reap(s: Sys, i: Id): Sys
    requires i in s.nodes
  {
    if s.nodes[i].state == Ended then Destroy(Advance(s, i), i) else Advance(s, i)
  }

  lemma ReapKeepsLoop(s: Sys, i: Id)
    requires InLoop(s) && s.cpu == Main(InPass(Some(i)))
    requires i != 0 ==> s.nodes[i].state != Ready
    ensures InLoop(Reap(s, i)) && Reap(s, i).cpu == Main(InPass(NextKey(Reap(s, i).nodes, i + 1)))
  {
    var t := Reap(s, i);
    if s.nodes[i].state == Ended {
      assert forall j :: i + 1 <= j ==> (j in t.nodes <==> j in s.nodes);
    }
  }

  /** What the loop does with the entry it stands on, up to standing on the next. */
  ghost function Visit(s: Sys, i: Id): (t: Sys)
    requires InLoop(s) && s.cpu == Main(InPass(Some(i)))
    ensures InLoop(t)
    ensures t.cpu == Main(InPass(NextKey(t.nodes, i + 1)))
  {
    if i != 0 && s.nodes[i].state == Ready then
      CallSettles(s, i);
      ReapKeepsLoop(Call(s, i), i);
      Reap(Call(s, i), i)
    else
      ReapKeepsLoop(s, i);
      Reap(s, i)
  }

  ghost function Remaining(cursor: Option<Id>): nat {
    if cursor.None? then 0 else WIDTH - cursor.value
  }

  ghost function PassFrom(s: Sys): (t: Sys)
    requires InLoop(s)
    ensures Inv(t) && t.active == 0 && t.cpu == Main(Polling)
    decreases Remaining(s.cpu.at.cursor)
  {
    match s.cpu.at.cursor
    case None => MoveTo(s, Polling)
    case Some(i) => PassFrom(Visit(s, i))
  }

  ghost predicate BeforePass(s: Sys) {
    Inv(s) && s.active == 0 && s.cpu in {Main(Serving), Main(Returning)}
  }

  /** `ScheduleAll`. */
  ghost function Pass(s: Sys): (t: Sys)
    requires BeforePass(s)
    ensures Inv(t) && t.active == 0 && t.cpu == Main(Polling)
  {
    PassFrom(EnterPass(s))
  }

  /** `continue` without moving the cursor: after one dispatch the loop stands on the same
      entry and the rest of the pass is the same. */
  lemma DispatchContinuesPass(s: Sys, i: Id)
    requires InLoop(s) && s.cpu == Main(InPass(Some(i)))
    requires i != 0 && s.nodes[i].state == Ready
    ensures PassFrom(Dispatch(s, i, InPass(Some(i)))) == PassFrom(s)
  {
    DispatchIsCall(s, i);
    var t := Dispatch(s, i, InPass(Some(i)));
    assert Visit(t, i) == Visit(s, i);
  }

  /** An entry that is not dispatched takes one turn of the loop. */
  lemma StepIsVisit(s: Sys, i: Id)
    requires InLoop(s) && s.cpu == Main(InPass(Some(i)))
    requires i == 0 || s.nodes[i].state != Ready
    ensures PassStep(s) == Visit(s, i)
  {
  }

  lemma StepContinuesPass(s: Sys, i: Id)
    requires InLoop(s) && s.cpu == Main(InPass(Some(i)))
    requires i == 0 || s.nodes[i].state != Ready
    ensures InLoop(PassStep(s)) && PassFrom(PassStep(s)) == PassFrom(s)
    ensures Remaining(PassStep(s).cpu.at.cursor) < Remaining(Some(i))
  {
    StepIsVisit(s, i);
  }

  lemma PassFromEnd(s: Sys)
    requires InLoop(s) && s.cpu == Main(InPass(None))
    ensures PassFrom(s) == MoveTo(s, Polling)
  {
  }
}
