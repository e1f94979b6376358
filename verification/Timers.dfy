/** Which waiting coroutine has a timer.  The timers are keyed by coroutine ids, but closing a
    connection removes the one keyed by the number of its descriptor; so a waiting coroutine
    keeps its timer exactly as long as no descriptor with its number is closed. */
module Timers {
  import opened Options
  import opened Machine
  import opened Invariant
  import opened Passes
  import opened Outcome
  import opened Runs

  /** Every waiting coroutine, and nobody else, has a timer. */
  ghost predicate TimersAgree(s: Sys) {
    forall k: Id :: k in s.expiry <==> k in s.nodes && s.nodes[k].state == Waiting
  }

  /** If the timers agree with the states, they still do after a connection is closed exactly
      when its descriptor is not the id of a waiting coroutine. */
  lemma CloseKeepsTimersIff(s: Sys, fd: Id)
    requires Inv(s) && s.cpu == Main(Serving) && TimersAgree(s)
    ensures TimersAgree(Do(s, Close(fd))) <==> !(fd in s.nodes && s.nodes[fd].state == Waiting)
  {
    var t := Do(s, Close(fd));
    assert t == CloseConnection(s, fd);
    assert fd !in t.expiry && t.nodes == s.nodes;
  }

  // ---------- over a run ----------

  /** Since j last went to sleep, a connection with number j was closed. */
  ghost predicate ClosedSinceSleep(log: seq<Event>, j: Id) {
    if log == [] then false
    else
      var e := log[|log| - 1];
      if e == Disconnected(j) then true
      else if e.Ran? && e.id == j && e.action.Sleep? then false
      else ClosedSinceSleep(log[..|log| - 1], j)
  }

  ghost predicate Recorded(s: Sys) {
    forall j: Id :: j in s.disarmed <==> ClosedSinceSleep(s.log, j)
  }

  predicate Neutral(e: Event) {
    !e.Disconnected? && !(e.Ran? && e.action.Sleep?)
  }

  lemma LogAppends(log: seq<Event>, e: Event, j: Id)
    ensures ClosedSinceSleep(log + [e], j) ==
            if e == Disconnected(j) then true
            else if e.Ran? && e.id == j && e.action.Sleep? then false
            else ClosedSinceSleep(log, j)
  {
    assert (log + [e])[..|log|] == log;
  }

  lemma {:induction false} NeutralAppends(log: seq<Event>, es: seq<Event>, j: Id)
    requires forall e :: e in es ==> Neutral(e)
    ensures ClosedSinceSleep(log + es, j) == ClosedSinceSleep(log, j)
    decreases |es|
  {
    if es == [] {
      assert log + es == log;
    } else {
      var last := es[|es| - 1];
      assert last in es;
      NeutralAppends(log, es[..|es| - 1], j);
      LogAppends(log + es[..|es| - 1], last, j);
      assert log + es == log + es[..|es| - 1] + [last];
    }
  }

  lemma NeutralRecords(s: Sys, t: Sys, es: seq<Event>)
    requires Recorded(s) && t.log == s.log + es && t.disarmed == s.disarmed
    requires forall e :: e in es ==> Neutral(e)
    ensures Recorded(t)
  {
    forall j: Id
      ensures j in t.disarmed <==> ClosedSinceSleep(t.log, j)
    {
      NeutralAppends(s.log, es, j);
    }
  }

  lemma SleepRecords(s: Sys, now: nat, ms: nat)
    requires Inv(s) && s.active != 0 && s.cpu.Suspended? && s.cpu.rest != [] && s.cpu.rest[0] == Sleep(now, ms)
    requires Recorded(s)
    ensures Recorded(Step(s))
  {
    var t := Step(s);
    var e := Ran(s.active, Sleep(now, ms));
    assert t.log == s.log + [e] + [Switched(0)] && t.disarmed == s.disarmed - {s.active};
    hide Inv;
    forall j: Id
      ensures j in t.disarmed <==> ClosedSinceSleep(t.log, j)
    {
      LogAppends(s.log, e, j);
      LogAppends(s.log + [e], Switched(0), j);
    }
  }

  lemma StepRecords(s: Sys)
    requires Inv(s) && s.active != 0 && Recorded(s)
    ensures Recorded(Step(s))
  {
    var i := s.active;
    if s.cpu.Fresh? {
      NeutralRecords(s, Step(s), [Entered(i, s.nodes[i].callback)]);
    } else if s.cpu.rest == [] {
      NeutralRecords(s, Step(s), [Exited(i), Switched(0)]);
    } else {
      var a := s.cpu.rest[0];
      match a {
        case Sleep(now, ms) => SleepRecords(s, now, ms);
        case Yield => NeutralRecords(s, Step(s), [Ran(i, a), Switched(0)]);
        case Spawn(body) =>
          var added := NextId(s.staticid);
          NeutralRecords(s, Step(s), [Ran(i, a), Created(added), Assigned(added, body)]);
        case Wake(target) =>
          NeutralRecords(s, Step(s), [Ran(i, a)] + if CanWake(s, target) then [Woken(i, target)] else []);
      }
    }
  }

  lemma CloseRecords(s: Sys, fd: Id)
    requires Recorded(s)
    ensures Recorded(CloseConnection(s, fd))
  {
    forall j: Id
      ensures j in CloseConnection(s, fd).disarmed <==> ClosedSinceSleep(CloseConnection(s, fd).log, j)
    {
      LogAppends(s.log, Disconnected(fd), j);
    }
  }

  /** Main appends only neutral events, but for the closing of a connection. */
  lemma MainDelta(s: Sys, l: Label) returns (es: seq<Event>)
    requires Inv(s) && s.active == 0 && !(s.cpu == Main(Serving) && l.Close?)
    ensures Do(s, l).log == s.log + es && Do(s, l).disarmed == s.disarmed
    ensures forall e :: e in es ==> Neutral(e)
  {
    es := Do(s, l).log[|s.log|..];
    if s.cpu == Main(Polling) && l.Poll? && ToFire(s.expiry, l.now).Some? {
      var id := ToFire(s.expiry, l.now).value;
      assert Do(s, l).log == s.log + [Woken(0, id), Switched(id)];
    } else if s.cpu == Main(Serving) && l.Request? {
      var added := NextId(s.staticid);
      assert Do(s, l).log == s.log + [Created(added), Assigned(added, l.body)];
    } else if s.cpu == Main(Serving) && l.Wakeup? {
      assert Do(s, l).log == s.log + if l.id in s.nodes then [Woken(0, l.id)] else [];
    } else if s.cpu.at.InPass? && l.Go? {
      es := PassDelta(s);
    } else {
      assert Do(s, l).log == s.log + [];
    }
  }

  lemma PassDelta(s: Sys) returns (es: seq<Event>)
    requires Inv(s) && s.active == 0 && s.cpu.at.InPass?
    ensures PassStep(s).log == s.log + es && PassStep(s).disarmed == s.disarmed
    ensures forall e :: e in es ==> Neutral(e)
  {
    var c := s.cpu.at.cursor;
    if c.Some? && c.value != 0 && s.nodes[c.value].state == Ready {
      es := [Switched(c.value)];
    } else if c.Some? && c.value != 0 && s.nodes[c.value].state == Ended {
      es := [Destroyed(c.value)];
    } else {
      es := [];
    }
  }

  lemma DoRecords(s: Sys, l: Label)
    requires Inv(s) && Recorded(s)
    ensures Recorded(Do(s, l))
  {
    if s.active != 0 {
      if l.Go? { StepRecords(s); }
    } else if s.cpu == Main(Serving) && l.Close? {
      CloseRecords(s, l.fd);
    } else {
      var es := MainDelta(s, l);
      NeutralRecords(s, Do(s, l), es);
    }
  }

  lemma {:induction false} ExecRecords(s: Sys, ls: seq<Label>)
    requires Inv(s) && Recorded(s)
    ensures Recorded(Exec(s, ls))
    decreases |ls|
  {
    if ls != [] {
      DoKeepsInv(s, ls[0]);
      DoRecords(s, ls[0]);
      ExecRecords(Do(s, ls[0]), ls[1..]);
    }
  }

  lemma StartRecords()
    ensures Recorded(Start())
  {
    assert Start().log == [Created(0)] && Start().disarmed == {};
    forall j: Id
      ensures !ClosedSinceSleep([Created(0)], j)
    {
      LogAppends([], Created(0), j);
      assert [] + [Created(0)] == [Created(0)];
    }
  }

  /** In every run: a waiting coroutine has its timer if and only if no connection with its
      number has been closed since it went to sleep. */
  lemma TimerIffNotClosed(ls: seq<Label>, j: Id)
    requires j in Exec(Start(), ls).nodes && Exec(Start(), ls).nodes[j].state == Waiting
    ensures j in Exec(Start(), ls).expiry <==> !ClosedSinceSleep(Exec(Start(), ls).log, j)
  {
    StartRecords();
    ExecRecords(Start(), ls);
  }

  /** After a pass in which nobody woke another, everybody left waits, with the timer set unless
      a connection with that number has been closed since. */
  lemma QuietPassLeavesAllWaiting(ls: seq<Label>, j: Id)
    requires BeforePass(Exec(Start(), ls)) && Pass(Exec(Start(), ls)).created <= WIDTH
    requires forall e :: e in Since(Exec(Start(), ls), Pass(Exec(Start(), ls))) ==> !e.Woken?
    requires j != 0 && j in Pass(Exec(Start(), ls)).nodes
    ensures var t := Pass(Exec(Start(), ls));
            t.nodes[j].state == Waiting && (j in t.expiry <==> !ClosedSinceSleep(t.log, j))
  {
    var s := Exec(Start(), ls);
    PassWithoutWakesLeavesAllWaiting(s);
    var n := PassTerminates(s);
    var pass := [BeginPass] + Steps(n);
    ExecSplits(Start(), ls, pass);
    hide Exec, Pass, Inv, Start;
    TimerIffNotClosed(ls + pass, j);
  }

  // ---------- what happens to a coroutine without a timer ----------

  ghost predicate WokenIn(l: seq<Event>, j: Id) {
    exists e :: e in l && e.Woken? && e.target == j
  }

  ghost predicate Stranded(s: Sys, j: Id) {
    j != 0 && j in s.nodes && s.nodes[j].state == Waiting && j !in s.expiry
  }

  lemma StrandedCoroutineStep(s: Sys, j: Id)
    requires Inv(s) && s.active != 0 && Stranded(s, j)
    ensures Stranded(Step(s), j) || Woken(s.active, j) in Since(s, Step(s))
  {
    if s.cpu.Suspended? && s.cpu.rest != [] {
      match s.cpu.rest[0]
      case Sleep(_, _) =>
      case Yield =>
      case Spawn(_) =>
      case Wake(target) =>
        if CanWake(s, target) {
          assert Step(s).log == s.log + [Ran(s.active, s.cpu.rest[0]), Woken(s.active, target)];
          assert Since(s, Step(s)) == [Ran(s.active, s.cpu.rest[0]), Woken(s.active, target)];
        }
    }
  }

  lemma StrandedMainStep(s: Sys, l: Label, j: Id)
    requires Inv(s) && s.active == 0 && Stranded(s, j)
    ensures Stranded(Do(s, l), j) || (s.cpu == Main(Serving) && l == Wakeup(j) && Woken(0, j) in Since(s, Do(s, l)))
  {
    if s.cpu == Main(Serving) && l == Wakeup(j) {
      assert Since(s, Do(s, l)) == [Woken(0, j)];
    } else if s.cpu.at.InPass? && l.Go? {
      StrandedPassStep(s, j);
    } else if s.cpu == Main(Polling) && l.Poll? && ToFire(s.expiry, l.now).Some? {
      var id := ToFire(s.expiry, l.now).value;
      assert id != j && id in s.nodes;
      assert Do(s, l) == Schedule(SetReady(s, 0, id), id, Main(Returning));
    }
  }

  lemma StrandedPassStep(s: Sys, j: Id)
    requires Inv(s) && s.active == 0 && s.cpu.at.InPass? && Stranded(s, j)
    ensures Stranded(PassStep(s), j)
  {
  }

  /** A coroutine waiting without a timer waits, without a timer, until somebody wakes it. */
  lemma {:induction false} StrandedUntilWoken(s: Sys, ls: seq<Label>, j: Id)
    requires Inv(s) && Stranded(s, j)
    ensures Stranded(Exec(s, ls), j) || WokenIn(Since(s, Exec(s, ls)), j)
    decreases |ls|
  {
    if ls != [] {
      DoKeepsInv(s, ls[0]);
      var u := Do(s, ls[0]);
      DoExtendsLog(s, ls[0]);
      ExecExtendsLog(u, ls[1..]);
      SinceSplits(s, u, Exec(s, ls));
      if s.active == 0 {
        StrandedMainStep(s, ls[0], j);
      } else if ls[0].Go? {
        StrandedCoroutineStep(s, j);
      }
      if Stranded(u, j) {
        StrandedUntilWoken(u, ls[1..], j);
      } else {
        var waker := s.active;
        assert Woken(waker, j) in Since(s, Exec(s, ls));
      }
    }
  }

  // ---------- such a coroutine is reachable ----------

  /** The handler of test2/main2.cpp, up to its wait of ten seconds. */
  const SLEEPER: Body := [Sleep(0, 10 * 1000)]

  ghost predicate Numbered(s: Sys, n: Id) {
    s.created == n + 1 && forall k: Id :: k in s.nodes <==> k <= n
  }

  /** n requests have arrived and none has been looked at. */
  ghost predicate Arrived(s: Sys, n: Id) {
    && Inv(s) && s.active == 0 && s.cpu == Main(Serving) && Numbered(s, n) && s.expiry == map[]
    && forall k: Id :: k in s.nodes && k != 0 ==> s.nodes[k] == Node(Ready, k, SLEEPER, Fresh)
  }

  ghost function Requests(n: nat): (ls: seq<Label>)
    ensures |ls| == n
  {
    seq(n, _ => Request(SLEEPER))
  }

  lemma {:induction false} RequestsArrive(s: Sys, n: Id)
    requires Arrived(s, 0)
    ensures Arrived(Exec(s, Requests(n)), n)
    decreases n
  {
    if n > 0 {
      RequestsArrive(s, n - 1);
      var u := Exec(s, Requests(n - 1));
      OneMoreArrives(u, n - 1);
      assert Requests(n) == Requests(n - 1) + [Request(SLEEPER)];
      hide Do, Exec, Requests, Numbered;
      ExecSplits(s, Requests(n - 1), [Request(SLEEPER)]);
      ExecFirst(u, Request(SLEEPER), []);
      assert [Request(SLEEPER)] + [] == [Request(SLEEPER)];
    }
  }

  lemma OneMoreArrives(s: Sys, n: Id)
    requires Arrived(s, n) && n + 1 < WIDTH
    ensures Arrived(Do(s, Request(SLEEPER)), n + 1)
  {
    DoKeepsInv(s, Request(SLEEPER));
    CreateKeepsInv(s);
    assert Do(s, Request(SLEEPER)) == NewCoroutine(s, SLEEPER);
  }

  /** In the pass that follows, everything before the cursor has gone to sleep. */
  ghost predicate FallingAsleep(s: Sys, n: Id) {
    && InLoop(s) && (forall k: Id :: k in s.nodes <==> k <= n)
    && (forall k: Id :: k in s.expiry ==> s.expiry[k] == 10 * 1000)
    && (forall k: Id :: k in s.nodes && k != 0 && k < Position(s) ==> s.nodes[k].state == Waiting && k in s.expiry)
    && (forall k: Id :: k in s.nodes && k != 0 && Position(s) <= k ==> s.nodes[k] == Node(Ready, k, SLEEPER, Fresh))
  }

  lemma SleeperSleeps(s: Sys, i: Id)
    requires InLoop(s) && s.cpu == Main(InPass(Some(i))) && i != 0
    requires s.nodes[i] == Node(Ready, i, SLEEPER, Fresh)
    ensures var asleep := Node(Waiting, i, SLEEPER, Suspended([]));
            && Call(s, i).nodes == s.nodes[i := asleep]
            && Call(s, i).expiry == s.expiry[i := 10 * 1000]
            && Call(s, i).cpu == s.cpu
  {
    assert SLEEPER[0] == Sleep(0, 10 * 1000) && SLEEPER[1..] == [];
    var v := Emit(Started(s, i), Entered(i, SLEEPER));
    assert Call(s, i) == Straight(v, i, SLEEPER);
    assert Straight(v, i, SLEEPER).nodes == s.nodes[i := Node(Waiting, i, SLEEPER, Suspended([]))];
  }

  lemma AdvanceSleeps(s: Sys, t: Sys, i: Id, n: Id)
    requires FallingAsleep(s, n) && s.cpu == Main(InPass(Some(i))) && i in s.nodes
    requires InLoop(t) && t.cpu == Main(InPass(NextKey(t.nodes, i + 1)))
    requires if i == 0 then t.nodes == s.nodes && t.expiry == s.expiry
             else t.nodes == s.nodes[i := Node(Waiting, i, SLEEPER, Suspended([]))] && t.expiry == s.expiry[i := 10 * 1000]
    ensures FallingAsleep(t, n)
  {
    hide Inv;
    assert forall k: Id :: k in t.nodes && i < k ==> Position(t) <= k;
  }

  lemma VisitSleeps(s: Sys, i: Id, n: Id)
    requires FallingAsleep(s, n) && s.cpu == Main(InPass(Some(i)))
    ensures FallingAsleep(Visit(s, i), n)
  {
    assert i in s.nodes && Position(s) == i;
    if i != 0 {
      CallSettles(s, i);
      SleeperSleeps(s, i);
      assert Visit(s, i) == Advance(Call(s, i), i);
    } else {
      assert Visit(s, i) == Advance(s, 0);
    }
    hide Inv, FallingAsleep, Call;
    AdvanceSleeps(s, Visit(s, i), i, n);
  }

  lemma {:induction false} PassSleeps(s: Sys, n: Id)
    requires FallingAsleep(s, n)
    ensures forall k: Id :: k in s.nodes && k != 0 ==> k in PassFrom(s).expiry
    ensures forall k: Id :: k in PassFrom(s).expiry ==> PassFrom(s).expiry[k] == 10 * 1000
    decreases Remaining(s.cpu.at.cursor)
  {
    match s.cpu.at.cursor
    case None =>
    case Some(i) =>
      VisitSleeps(s, i, n);
      VisitAdvances(s, i);
      PassSleeps(Visit(s, i), n);
      assert forall k: Id :: k in s.nodes ==> k in Visit(s, i).nodes;
  }

  lemma ArrivedFallAsleep(s: Sys, n: Id)
    requires Arrived(s, n)
    ensures BeforePass(s) && FallingAsleep(EnterPass(s), n)
  {
    PassStartsAtMain(s);
  }

  lemma FirstPoll()
    ensures Arrived(Exec(Start(), [Poll(0)]), 0)
  {
    var s := Start();
    ExecFirst(s, Poll(0), []);
    assert [Poll(0)] + [] == [Poll(0)];
    assert s.expiry == map[];
    assert Do(s, Poll(0)) == MoveTo(s, Serving);
  }

  /** Every descriptor number of at least 1 can strand a coroutine: after that many requests
      the coroutine of that number sleeps, and closing the connection of that number takes
      its timer away. */
  lemma ClosingStrandsSleeper(fd: Id) returns (ls: seq<Label>)
    requires fd >= 1
    ensures Stranded(Exec(Start(), ls), fd)
  {
    FirstPoll();
    var s0 := Exec(Start(), [Poll(0)]);
    RequestsArrive(s0, fd);
    var s1 := Exec(s0, Requests(fd));
    ArrivedFallAsleep(s1, fd);
    PassSleeps(EnterPass(s1), fd);
    assert fd in s1.nodes;
    var n := PassTerminates(s1);
    var s2 := Pass(s1);
    PollThenClose(s2, fd);
    var pass, late := [BeginPass] + Steps(n), [Poll(0)] + [Close(fd)];
    ls := [Poll(0)] + Requests(fd) + pass + late;
    hide Inv, Exec, Pass, PassFrom, Start, Do;
    ExecSplits(Start(), [Poll(0)], Requests(fd));
    ExecSplits(Start(), [Poll(0)] + Requests(fd), pass);
    ExecSplits(Start(), [Poll(0)] + Requests(fd) + pass, late);
  }

  lemma PollThenClose(s: Sys, fd: Id)
    requires Inv(s) && s.active == 0 && s.cpu == Main(Polling) && fd in s.expiry && fd != 0
    requires forall k :: k in s.expiry ==> s.expiry[k] > 0
    ensures Stranded(Exec(s, [Poll(0)] + [Close(fd)]), fd)
  {
    ExecFirst(s, Poll(0), [Close(fd)]);
    var u := Do(s, Poll(0));
    assert u == MoveTo(s, Serving);
    ExecFirst(u, Close(fd), []);
    assert [Close(fd)] + [] == [Close(fd)];
    assert Do(u, Close(fd)) == CloseConnection(u, fd);
  }
}
