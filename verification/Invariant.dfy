/** Every step of the system keeps the invariant. */
module Invariant {
  import opened Options
  import opened Machine

  lemma IdsAlike(s: Sys, v: Sys)
    requires IdsConserved(s) && v.nodes.Keys == s.nodes.Keys
    requires v.created == s.created && v.staticid == s.staticid && v.dead == s.dead
    ensures IdsConserved(v)
  {
  }

  lemma NextIdCounts(staticid: Id, created: nat)
    requires created >= 1 && staticid == (created - 1) % WIDTH
    ensures NextId(staticid) == created % WIDTH
  {
  }

  lemma CreateConservesIds(s: Sys)
    requires IdsConserved(s)
    ensures IdsConserved(Create(s))
    ensures s.created < WIDTH ==> NextId(s.staticid) == s.created && s.created !in s.nodes && s.created !in s.dead
  {
    NextIdCounts(s.staticid, s.created);
  }

  lemma CreateKeepsInv(s: Sys)
    requires Inv(s)
    ensures Inv(Create(s))
    ensures s.created < WIDTH ==> NextId(s.staticid) == s.created && s.created !in s.nodes && s.created !in s.dead
  {
    CreateConservesIds(s);
    CreateKeepsTimers(s);
    hide IdsConserved, TimersPending;
  }

  lemma CreateKeepsTimers(s: Sys)
    requires TimersPending(s)
    ensures TimersPending(Create(s))
  {
  }

  lemma AssignKeepsInv(s: Sys, id: Id, body: Body)
    requires Inv(s) && id in s.nodes
    ensures Inv(Assign(s, id, body))
  {
    IdsAlike(s, Assign(s, id, body));
    hide IdsConserved;
  }

  lemma NewCoroutineKeepsInv(s: Sys, body: Body)
    requires Inv(s)
    ensures Inv(NewCoroutine(s, body))
  {
    CreateKeepsInv(s);
    hide Inv;
    AssignKeepsInv(Create(s), NextId(s.staticid), body);
  }

  lemma SetReadyBreaksEnded(s: Sys, waker: Id, id: Id)
    requires Inv(s) && id in s.nodes && s.nodes[id].state == Ended
    ensures !Inv(SetReady(s, waker, id))
  {
    var t := SetReady(s, waker, id);
    assert t.nodes[id].cont.Finished? && t.nodes[id].state == Ready;
  }

  lemma SetReadyKeepsInv(s: Sys, waker: Id, id: Id)
    requires Inv(s) && id in s.nodes && s.nodes[id].state != Ended
    ensures Inv(SetReady(s, waker, id))
  {
    IdsAlike(s, SetReady(s, waker, id));
    SetReadyTimers(s, waker, id);
    hide IdsConserved, TimersPending;
  }

  lemma SetReadyTimers(s: Sys, waker: Id, id: Id)
    requires id in s.nodes && TimersPending(s)
    ensures TimersPending(SetReady(s, waker, id))
  {
  }

  /** `SetReady` on a live id is safe exactly when that coroutine has not ended. */
  lemma SetReadySafeIff(s: Sys, waker: Id, id: Id)
    requires Inv(s) && id in s.nodes
    ensures Inv(SetReady(s, waker, id)) <==> s.nodes[id].state != Ended
  {
    hide Inv, SetReady;
    if s.nodes[id].state == Ended {
      SetReadyBreaksEnded(s, waker, id);
    } else {
      SetReadyKeepsInv(s, waker, id);
    }
  }

  /** When main handles an event nothing in the table has ended, so that waking without looking
      at the state is safe: it is the wake-up that does look. */
  lemma NothingEndedAtServing(s: Sys, id: Id)
    requires Inv(s) && s.cpu == Main(Serving)
    ensures id in s.nodes ==> s.nodes[id].state != Ended
    ensures Notified(s, id) == TryWake(s, 0, id)
  {
  }

  lemma CloseKeepsInv(s: Sys, fd: Id)
    requires Inv(s) && s.active == 0
    ensures Inv(CloseConnection(s, fd))
  {
    hide IdsConserved;
    IdsAlike(s, CloseConnection(s, fd));
  }

  lemma DispatchKeepsInv(s: Sys, i: Id, at: MainPoint)
    requires Inv(s) && s.active == 0
    requires i in s.nodes && i != 0 && s.nodes[i].state == Ready
    requires at == Returning || (at == InPass(Some(i)) && s.cpu == Main(at))
    ensures Inv(Schedule(s, i, Main(at)))
  {
    hide IdsConserved;
    IdsAlike(s, Schedule(s, i, Main(at)));
  }

  lemma ExitKeepsInv(s: Sys)
    requires Inv(s) && s.active != 0 && s.cpu == Suspended([])
    ensures Inv(Step(s))
  {
    hide IdsConserved;
    IdsAlike(s, Step(s));
  }

  lemma SleepKeepsInv(s: Sys, now: nat, ms: nat, save: Body)
    requires Inv(s) && s.active != 0
    ensures Inv(WaitAndSchedule(s, now, ms, Suspended(save)))
  {
    hide IdsConserved;
    IdsAlike(s, WaitAndSchedule(s, now, ms, Suspended(save)));
  }

  lemma YieldKeepsInv(s: Sys, save: Body)
    requires Inv(s) && s.active != 0
    ensures Inv(Schedule(s, 0, Suspended(save)))
  {
    hide IdsConserved;
    IdsAlike(s, Schedule(s, 0, Suspended(save)));
  }

  lemma StepKeepsInv(s: Sys)
    requires Inv(s) && s.active != 0
    ensures Inv(Step(s))
  {
    if s.cpu == Suspended([]) {
      ExitKeepsInv(s);
    } else if s.cpu.Suspended? {
      ActionKeepsInv(s);
    }
  }

  lemma ActionKeepsInv(s: Sys)
    requires Inv(s) && s.active != 0 && s.cpu.Suspended? && s.cpu.rest != []
    ensures Inv(Step(s))
  {
    var t := Emit(s, Ran(s.active, s.cpu.rest[0]));
    var rest := s.cpu.rest[1..];
    assert Inv(t);
    match s.cpu.rest[0] {
      case Sleep(now, ms) => SleepKeepsInv(t, now, ms, rest);
      case Yield => YieldKeepsInv(t, rest);
      case Spawn(body) => NewCoroutineKeepsInv(t, body); MoveOnKeepsInv(NewCoroutine(t, body), rest);
      case Wake(target) =>
        if CanWake(t, target) { SetReadySafeIff(t, t.active, target); }
        MoveOnKeepsInv(TryWake(t, t.active, target), rest);
    }
  }

  lemma MoveOnKeepsInv(s: Sys, rest: Body)
    requires Inv(s) && s.active != 0
    ensures Inv(s.(cpu := Suspended(rest)))
  {
  }

  lemma ErasingKeepsInv(s: Sys, i: Id)
    requires Inv(s) && s.active == 0 && s.cpu == Main(InPass(Some(i))) && i != 0 && s.nodes[i].state == Ended
    ensures Inv(PassStep(s))
  {
  }

  lemma AdvancingKeepsInv(s: Sys)
    requires Inv(s) && s.active == 0 && s.cpu.at.InPass?
    requires var cursor := s.cpu.at.cursor; cursor.Some? ==> cursor.value == 0 || s.nodes[cursor.value].state == Waiting
    ensures Inv(PassStep(s))
  {
    hide IdsConserved;
    IdsAlike(s, PassStep(s));
  }

  lemma PassStepKeepsInv(s: Sys)
    requires Inv(s) && s.active == 0 && s.cpu.at.InPass?
    ensures Inv(PassStep(s))
  {
    var cursor := s.cpu.at.cursor;
    if cursor.None? || cursor.value == 0 || s.nodes[cursor.value].state == Waiting {
      AdvancingKeepsInv(s);
    } else if s.nodes[cursor.value].state == Ready {
      DispatchKeepsInv(s, cursor.value, s.cpu.at);
    } else {
      ErasingKeepsInv(s, cursor.value);
    }
  }

  lemma DoKeepsInv(s: Sys, l: Label)
    requires Inv(s)
    ensures Inv(Do(s, l))
  {
    if s.active != 0 {
      if l.Go? { StepKeepsInv(s); }
    } else {
      match s.cpu.at
      case Booting =>
      case Polling =>
        if l.Poll? {
          var due := ToFire(s.expiry, l.now);
          if due.Some? {
            SetReadySafeIff(s, 0, due.value);
            DispatchKeepsInv(SetReady(s, 0, due.value), due.value, Returning);
          }
        }
      case Serving =>
        match l {
          case Request(body) => NewCoroutineKeepsInv(s, body);
          case Wakeup(id) => if id in s.nodes { SetReadySafeIff(s, 0, id); }
          case Close(fd) => CloseKeepsInv(s, fd);
          case _ =>
        }
      case Returning =>
      case InPass(_) =>
        if l.Go? { PassStepKeepsInv(s); }
    }
  }
}
