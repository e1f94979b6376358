/** The order of dispatches within one `ScheduleAll`. */
module Order {
  import opened Options
  import opened Machine
  import opened Passes
  import opened Outcome

  ghost predicate IsDispatch(e: Event) {
    e.Switched? && e.to != 0
  }

  /** The dispatch at q resumes a coroutine that had just switched back while ready. */
  ghost predicate AfterYield(l: seq<Event>, q: nat)
    requires q < |l| && IsDispatch(l[q])
  {
    q >= 2 && l[q - 1] == Switched(0) && l[q - 2] == Ran(l[q].to, Yield)
  }

  /** Dispatched ids never decrease, and an id comes again only right after its own bare
      `Schedule()`. */
  ghost predicate InOrder(l: seq<Event>) {
    forall p, q :: 0 <= p < q < |l| && IsDispatch(l[p]) && IsDispatch(l[q]) ==>
      l[p].to <= l[q].to && (l[p].to == l[q].to ==> AfterYield(l, q))
  }

  ghost predicate OnlyDispatches(l: seq<Event>, i: Id, first: nat) {
    forall q :: 0 <= q < |l| && IsDispatch(l[q]) ==> l[q].to == i && (q < first || AfterYield(l, q))
  }

  lemma DispatchesAppend(a: seq<Event>, b: seq<Event>, i: Id, first: nat)
    requires OnlyDispatches(a, i, first) && OnlyDispatches(b, i, 0)
    ensures OnlyDispatches(a + b, i, first)
  {
    var l := a + b;
    forall q | 0 <= q < |l| && IsDispatch(l[q])
      ensures l[q].to == i && (q < first || AfterYield(l, q))
    {
      if q >= |a| {
        assert AfterYield(b, q - |a|);
        assert l[q - 1] == b[q - |a| - 1] && l[q - 2] == b[q - |a| - 2];
      }
    }
  }

  lemma YieldDispatches(s: Sys, i: Id)
    requires i != 0
    ensures var v := Emit(Emit(Emit(s, Ran(i, Yield)), Switched(0)), Switched(i));
            s.log <= v.log && OnlyDispatches(Since(s, v), i, 0)
  {
    var v := Emit(Emit(Emit(s, Ran(i, Yield)), Switched(0)), Switched(i));
    assert v.log == s.log + [Ran(i, Yield), Switched(0), Switched(i)];
    assert Since(s, v) == [Ran(i, Yield), Switched(0), Switched(i)];
  }

  lemma SpawnDispatches(s: Sys, i: Id, a: Action, body: Body)
    ensures var v := NewCoroutine(Emit(s, Ran(i, a)), body);
            s.log <= v.log && OnlyDispatches(Since(s, v), i, 0)
  {
    var v := NewCoroutine(Emit(s, Ran(i, a)), body);
    assert v.log == s.log + [Ran(i, a), Created(v.staticid), Assigned(v.staticid, body)];
    assert Since(s, v) == [Ran(i, a), Created(v.staticid), Assigned(v.staticid, body)];
  }

  lemma WakeDispatches(s: Sys, i: Id, a: Action, target: Id)
    ensures var v := TryWake(Emit(s, Ran(i, a)), i, target);
            s.log <= v.log && OnlyDispatches(Since(s, v), i, 0)
  {
    var v := TryWake(Emit(s, Ran(i, a)), i, target);
    var woken := if CanWake(s, target) then [Woken(i, target)] else [];
    assert v.log == s.log + ([Ran(i, a)] + woken);
    assert Since(s, v) == [Ran(i, a)] + woken;
  }

  /** A step of a body that does not give the turn up. */
  lemma StepDispatches(s: Sys, i: Id, rest: Body) returns (v: Sys)
    requires i in s.nodes && i != 0 && rest != [] && !rest[0].Sleep?
    ensures s.log <= v.log && i in v.nodes && Straight(s, i, rest) == Straight(v, i, rest[1..])
    ensures OnlyDispatches(Since(s, v), i, 0)
  {
    hide OnlyDispatches, Since;
    var u := Emit(s, Ran(i, rest[0]));
    match rest[0] {
      case Yield =>
        v := Emit(Emit(u, Switched(0)), Switched(i));
        YieldDispatches(s, i);
      case Spawn(body) =>
        v := NewCoroutine(u, body);
        SpawnDispatches(s, i, rest[0], body);
      case Wake(target) =>
        v := TryWake(u, i, target);
        WakeDispatches(s, i, rest[0], target);
    }
  }

  lemma {:induction false} StraightDispatches(s: Sys, i: Id, rest: Body)
    requires i in s.nodes && i != 0
    ensures s.log <= Straight(s, i, rest).log
    ensures OnlyDispatches(Since(s, Straight(s, i, rest)), i, 0)
    decreases |rest|
  {
    var t := Straight(s, i, rest);
    if rest == [] {
      assert Since(s, t) == [Exited(i), Switched(0)];
    } else if rest[0].Sleep? {
      assert Since(s, t) == [Ran(i, rest[0]), Switched(0)];
    } else {
      var v := StepDispatches(s, i, rest);
      hide Straight;
      StraightDispatches(v, i, rest[1..]);
      SinceSplits(s, v, t);
      DispatchesAppend(Since(s, v), Since(v, t), i, 0);
    }
  }

  lemma CallDispatches(s: Sys, i: Id)
    requires Table(s) && Contexts(s) && i in s.nodes && s.nodes[i].state == Ready && i != 0 && s.active == 0
    ensures s.log <= Call(s, i).log
    ensures OnlyDispatches(Since(s, Call(s, i)), i, 1)
  {
    var v, rest := CallIsStraight(s, i);
    StraightDispatches(v, i, rest);
    SinceSplits(s, v, Call(s, i));
    DispatchesAppend(Since(s, v), Since(v, Call(s, i)), i, 1);
  }

  lemma VisitDispatches(s: Sys, i: Id)
    requires InLoop(s) && s.cpu == Main(InPass(Some(i)))
    ensures s.log <= Visit(s, i).log
    ensures OnlyDispatches(Since(s, Visit(s, i)), i, 1)
  {
    if i != 0 && s.nodes[i].state == Ready {
      CallSettles(s, i);
      CallDispatches(s, i);
      ReapDispatches(s, Call(s, i), i);
    } else {
      assert Since(s, s) == [];
      ReapDispatches(s, s, i);
    }
  }

  lemma ReapDispatches(s: Sys, c: Sys, i: Id)
    requires i in c.nodes && s.log <= c.log && OnlyDispatches(Since(s, c), i, 1)
    ensures s.log <= Reap(c, i).log && OnlyDispatches(Since(s, Reap(c, i)), i, 1)
  {
    var reaped := if c.nodes[i].state == Ended then [Destroyed(i)] else [];
    assert Since(s, Reap(c, i)) == Since(s, c) + reaped;
    DispatchesAppend(Since(s, c), reaped, i, 1);
  }

  lemma OrderAppends(a: seq<Event>, b: seq<Event>, i: Id)
    requires OnlyDispatches(a, i, 1) && InOrder(b)
    requires forall q :: 0 <= q < |b| && IsDispatch(b[q]) ==> i < b[q].to
    ensures InOrder(a + b)
  {
    var l := a + b;
    forall p, q | 0 <= p < q < |l| && IsDispatch(l[p]) && IsDispatch(l[q])
      ensures l[p].to <= l[q].to && (l[p].to == l[q].to ==> AfterYield(l, q))
    {
      if q < |a| {
        assert AfterYield(a, q);
      } else if p >= |a| {
        assert b[p - |a|].to <= b[q - |a|].to;
        if l[p].to == l[q].to { assert AfterYield(b, q - |a|); }
      }
    }
  }

  lemma {:induction false} PassFromInOrder(s: Sys)
    requires InLoop(s)
    ensures InOrder(Since(s, PassFrom(s)))
    ensures forall q :: 0 <= q < |Since(s, PassFrom(s))| && IsDispatch(Since(s, PassFrom(s))[q]) ==>
              Position(s) <= Since(s, PassFrom(s))[q].to
    decreases Remaining(s.cpu.at.cursor)
  {
    match s.cpu.at.cursor
    case None =>
      assert Since(s, PassFrom(s)) == [];
    case Some(i) =>
      var u := Visit(s, i);
      VisitDispatches(s, i);
      PassFromCreates(u);
      PassFromInOrder(u);
      SinceSplits(s, u, PassFrom(s));
      OrderAppends(Since(s, u), Since(u, PassFrom(s)), i);
  }

  lemma PassInOrder(s: Sys)
    requires BeforePass(s)
    ensures InOrder(Since(s, Pass(s)))
  {
    PassFromInOrder(EnterPass(s));
  }
}
