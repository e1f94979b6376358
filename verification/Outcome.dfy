/** What a whole `ScheduleAll` guarantees: who is left in which state, who was
    dispatched, and in which order. */
module Outcome {
  import opened Options
  import opened Machine
  import opened Invariant
  import opened Passes

  /** The events from s to a later t. */
  function Since(s: Sys, t: Sys): seq<Event> {
    if |s.log| <= |t.log| then t.log[|s.log|..] else []
  }

  lemma SinceSplits(s: Sys, u: Sys, t: Sys)
    requires s.log <= u.log <= t.log
    ensures Since(s, t) == Since(s, u) + Since(u, t)
  {
  }

  // ---------- what one turn does to everybody else ----------

  /** t is reachable from s by things coroutine i does while main is at the same place:
      it wakes others, creates others, and touches no one else. */
  ghost predicate Effects(s: Sys, t: Sys, i: Id) {
    && 0 in s.nodes && i in s.nodes
    && s.log <= t.log && s.created <= t.created && t.dead == s.dead
    && (forall j :: j in s.nodes ==> j in t.nodes)
    && (forall j :: j in t.nodes && j !in s.nodes ==>
          s.created <= j < t.created && t.nodes[j].state == Ready)
    && (forall j: Id :: s.created <= j < t.created ==> j in t.nodes && j !in s.nodes)
    && (forall j :: j in s.nodes && j != 0 && j != i ==>
          && t.nodes[j].cont == s.nodes[j].cont
          && t.nodes[j].state == if Woken(i, j) in Since(s, t) then Ready else s.nodes[j].state)
    && (forall e :: e in Since(s, t) ==> (e.Woken? ==> e.waker == i) && (e.Switched? ==> e.to in {0, i}))
  }

  lemma EffectsCompose(s: Sys, u: Sys, t: Sys, i: Id)
    requires Effects(s, u, i) && Effects(u, t, i)
    ensures Effects(s, t, i)
  {
    SinceSplits(s, u, t);
    forall j: Id | s.created <= j < t.created
      ensures j in t.nodes && j !in s.nodes
    {
      if j < u.created { assert j in u.nodes; }
    }
    forall j | j in t.nodes && j !in s.nodes
      ensures s.created <= j < t.created && t.nodes[j].state == Ready
    {
      if j in u.nodes && j != i && j != 0 {
        assert t.nodes[j].state == if Woken(i, j) in Since(u, t) then Ready else u.nodes[j].state;
      }
    }
  }

  lemma EmitEffects(s: Sys, e: Event, i: Id)
    requires 0 in s.nodes && i in s.nodes
    requires !e.Woken? && (e.Switched? ==> e.to in {0, i})
    ensures Effects(s, Emit(s, e), i)
  {
    assert Since(s, Emit(s, e)) == [e];
  }

  lemma PutEffects(s: Sys, i: Id, n: Node, expiry: map<Id, nat>, disarmed: set<Id>)
    requires 0 in s.nodes && i in s.nodes
    ensures Effects(s, Put(s, i, n).(expiry := expiry, disarmed := disarmed), i)
  {
    assert Since(s, Put(s, i, n).(expiry := expiry, disarmed := disarmed)) == [];
  }

  lemma WakeEffects(s: Sys, i: Id, target: Id)
    requires 0 in s.nodes && i in s.nodes
    ensures Effects(s, TryWake(s, i, target), i)
  {
    var t := TryWake(s, i, target);
    if CanWake(s, target) {
      assert Since(s, t) == [Woken(i, target)];
    } else {
      assert Since(s, t) == [];
    }
  }

  lemma SpawnEffects(s: Sys, i: Id, body: Body)
    requires 0 in s.nodes && i in s.nodes
    requires IdsConserved(s) && s.created < WIDTH
    ensures Effects(s, NewCoroutine(s, body), i) && IdsConserved(NewCoroutine(s, body))
  {
    var t := NewCoroutine(s, body);
    CreateConservesIds(s);
    assert IdsConserved(t) by {
      assert t.nodes.Keys == Create(s).nodes.Keys;
    }
    hide IdsConserved;
    assert Since(s, t) == [Created(s.created), Assigned(s.created, body)];
  }

  lemma ExitEffects(s: Sys, i: Id)
    requires 0 in s.nodes && i in s.nodes
    ensures Effects(s, Straight(s, i, []), i)
  {
    var n := s.nodes[i].(state := Ended, cont := Finished);
    var u := Put(s, i, n).(expiry := s.expiry, disarmed := s.disarmed);
    PutEffects(s, i, n, s.expiry, s.disarmed);
    EmitEffects(u, Exited(i), i);
    EmitEffects(Emit(u, Exited(i)), Switched(0), i);
    EffectsCompose(s, u, Emit(u, Exited(i)), i);
    EffectsCompose(s, Emit(u, Exited(i)), Emit(Emit(u, Exited(i)), Switched(0)), i);
  }

  lemma SleepEffects(s: Sys, i: Id, n: Node, expiry: map<Id, nat>, disarmed: set<Id>)
    requires 0 in s.nodes && i in s.nodes
    ensures Effects(s, Emit(Put(s, i, n).(expiry := expiry, disarmed := disarmed), Switched(0)), i)
  {
    var u := Put(s, i, n).(expiry := expiry, disarmed := disarmed);
    PutEffects(s, i, n, expiry, disarmed);
    EmitEffects(u, Switched(0), i);
    EffectsCompose(s, u, Emit(u, Switched(0)), i);
  }

  lemma YieldEffects(s: Sys, i: Id)
    requires 0 in s.nodes && i in s.nodes
    ensures Effects(s, Emit(Emit(s, Switched(0)), Switched(i)), i)
  {
    EmitEffects(s, Switched(0), i);
    EmitEffects(Emit(s, Switched(0)), Switched(i), i);
    EffectsCompose(s, Emit(s, Switched(0)), Emit(Emit(s, Switched(0)), Switched(i)), i);
  }

  lemma WakeKeepsKeys(s: Sys, waker: Id, target: Id)
    ensures TryWake(s, waker, target).nodes.Keys == s.nodes.Keys
  {
  }

  lemma StepStraight(s: Sys, i: Id, rest: Body) returns (u: Sys)
    requires 0 in s.nodes && i in s.nodes && rest != [] && !rest[0].Sleep?
    requires IdsConserved(s) && Straight(s, i, rest).created <= WIDTH
    ensures Effects(s, u, i) && IdsConserved(u) && Straight(s, i, rest) == Straight(u, i, rest[1..])
  {
    var t := Emit(s, Ran(i, rest[0]));
    EmitEffects(s, Ran(i, rest[0]), i);
    IdsAlike(s, t);
    hide Effects, IdsConserved;
    match rest[0] {
      case Yield =>
        u := Emit(Emit(t, Switched(0)), Switched(i));
        YieldEffects(t, i);
        IdsAlike(s, u);
      case Spawn(body) =>
        u := NewCoroutine(t, body);
        StraightCreates(u, i, rest[1..]);
        SpawnEffects(t, i, body);
      case Wake(target) =>
        u := TryWake(t, i, target);
        WakeEffects(t, i, target);
        WakeKeepsKeys(t, i, target);
        IdsAlike(t, u);
    }
    EffectsCompose(s, t, u, i);
  }

  lemma {:induction false} StraightEffects(s: Sys, i: Id, rest: Body)
    requires 0 in s.nodes && i in s.nodes
    requires IdsConserved(s) && Straight(s, i, rest).created <= WIDTH
    ensures Effects(s, Straight(s, i, rest), i) && IdsConserved(Straight(s, i, rest))
    decreases |rest|
  {
    if rest == [] {
      ExitEffects(s, i);
    } else if rest[0].Sleep? {
      var t := Emit(s, Ran(i, rest[0]));
      EmitEffects(s, Ran(i, rest[0]), i);
      SleepEffects(t, i, t.nodes[i].(state := Waiting, cont := Suspended(rest[1..])), t.expiry[i := rest[0].now + rest[0].ms], t.disarmed - {i});
      EffectsCompose(s, t, Straight(s, i, rest), i);
    } else {
      var u := StepStraight(s, i, rest);
      StraightEffects(u, i, rest[1..]);
      EffectsCompose(s, u, Straight(s, i, rest), i);
    }
  }

  lemma StraightCreates(s: Sys, i: Id, rest: Body)
    requires i in s.nodes
    ensures s.log <= Straight(s, i, rest).log && s.created <= Straight(s, i, rest).created
    decreases |rest|
  {
  }

  ghost function Started(s: Sys, i: Id): Sys
    requires i in s.nodes
  {
    Emit(Put(s, i, s.nodes[i].(cont := OnCpu)), Switched(i))
  }

  lemma StartedEffects(s: Sys, i: Id)
    requires 0 in s.nodes && i in s.nodes
    ensures Effects(s, Started(s, i), i) && Since(s, Started(s, i)) == [Switched(i)]
  {
    var n := s.nodes[i].(cont := OnCpu);
    var u := Put(s, i, n).(expiry := s.expiry, disarmed := s.disarmed);
    PutEffects(s, i, n, s.expiry, s.disarmed);
    EmitEffects(u, Switched(i), i);
    EffectsCompose(s, u, Emit(u, Switched(i)), i);
  }

  /** A turn is a start followed by the rest of the body. */
  lemma CallIsStraight(s: Sys, i: Id) returns (v: Sys, rest: Body)
    requires Table(s) && Contexts(s) && i in s.nodes && s.nodes[i].state == Ready && i != 0 && s.active == 0
    ensures Effects(s, v, i) && v.created == s.created && v.staticid == s.staticid
    ensures v.nodes.Keys == s.nodes.Keys && s.log <= v.log
    ensures Since(s, v) == [Switched(i)] + if s.nodes[i].cont.Fresh? then [Entered(i, s.nodes[i].callback)] else []
    ensures Call(s, i) == Straight(v, i, rest)
  {
    var n := s.nodes[i];
    StartedEffects(s, i);
    if n.cont.Fresh? {
      v, rest := Emit(Started(s, i), Entered(i, n.callback)), n.callback;
      EmitEffects(Started(s, i), Entered(i, n.callback), i);
      EffectsCompose(s, Started(s, i), v, i);
    } else {
      v, rest := Started(s, i), n.cont.rest;
    }
  }

  lemma CallEffects(s: Sys, i: Id)
    requires Inv(s) && i in s.nodes && s.nodes[i].state == Ready && i != 0 && s.active == 0
    requires Call(s, i).created <= WIDTH
    ensures Effects(s, Call(s, i), i) && Switched(i) in Since(s, Call(s, i))
  {
    var v, rest := CallIsStraight(s, i);
    StraightCreates(v, i, rest);
    IdsAlike(s, v);
    assert v.log[|s.log|] == Switched(i) by {
      assert v.log[|s.log|] == Since(s, v)[0];
    }
    assert 0 in v.nodes && i in v.nodes;
    hide Inv, Effects, IdsConserved, Straight, Call;
    StraightEffects(v, i, rest);
    EffectsCompose(s, v, Call(s, i), i);
    assert Call(s, i).log[|s.log|] == Switched(i);
  }

  // ---------- where a pass leaves everybody ----------

  /** Some coroutine with a larger id woke j. */
  ghost predicate WokenAbove(l: seq<Event>, j: Id) {
    exists p :: 0 <= p < |l| && l[p].Woken? && l[p].target == j && l[p].waker > j
  }

  ghost function Position(s: Sys): nat
    requires InLoop(s)
  {
    if s.cpu.at.cursor.None? then WIDTH else s.cpu.at.cursor.value
  }

  /** Entries the cursor has passed keep everything but their state, and that changes
      exactly when a coroutine further on wakes them. */
  ghost predicate PassedOnlyWoken(s: Sys, t: Sys, k: nat) {
    forall j :: j in s.nodes && j != 0 && j < k ==>
      && j in t.nodes
      && t.nodes[j].cont == s.nodes[j].cont
      && t.nodes[j].state == if WokenAbove(Since(s, t), j) then Ready else s.nodes[j].state
  }

  /** Entries the cursor still reaches, and new ones, are left waiting, or ready because a
      coroutine with a larger id woke them. */
  ghost predicate ReachedSettled(s: Sys, t: Sys, k: nat) {
    forall j :: j in t.nodes && j != 0 && (j !in s.nodes || k <= j) ==>
      && t.nodes[j].state != Ended
      && (t.nodes[j].state == Ready <==> WokenAbove(Since(s, t), j))
  }

  ghost predicate AllDispatched(s: Sys, t: Sys, k: nat) {
    && (forall j :: j in s.nodes && j != 0 && k <= j && s.nodes[j].state == Ready ==> Switched(j) in Since(s, t))
    && (forall j: Id :: s.created <= j < t.created ==> Switched(j) in Since(s, t))
  }

  ghost predicate OnlyFrom(l: seq<Event>, k: nat) {
    forall e :: e in l ==> (e.Woken? ==> k <= e.waker) && (e.Switched? ==> e.to == 0 || k <= e.to)
  }

  ghost predicate Settles(s: Sys, t: Sys, k: nat) {
    && s.log <= t.log && s.created <= t.created
    && (forall j :: j in t.nodes && j !in s.nodes ==> s.created <= j)
    && PassedOnlyWoken(s, t, k) && ReachedSettled(s, t, k)
    && AllDispatched(s, t, k) && OnlyFrom(Since(s, t), k)
  }

  /** The part of a turn the rest of the pass depends on. */
  ghost predicate Turn(s: Sys, u: Sys, i: Id) {
    && s.log <= u.log && s.created <= u.created && 0 in s.nodes && i in s.nodes
    && (forall j :: j in s.nodes && j != i ==> j in u.nodes)
    && (forall j :: j in u.nodes && j !in s.nodes ==> s.created <= j)
    && (forall j: Id :: s.created <= j < u.created ==> j in u.nodes && u.nodes[j].state == Ready)
    && (forall j :: j in s.nodes && j != 0 && j != i ==>
          && u.nodes[j].cont == s.nodes[j].cont
          && u.nodes[j].state == if Woken(i, j) in Since(s, u) then Ready else s.nodes[j].state)
    && (forall e :: e in Since(s, u) ==> (e.Woken? ==> e.waker == i) && (e.Switched? ==> e.to in {0, i}))
    && (i in u.nodes && i != 0 ==> u.nodes[i].state == Waiting)
    && (i != 0 && s.nodes[i].state == Ready ==> Switched(i) in Since(s, u))
  }

  lemma VisitIsTurn(s: Sys, i: Id)
    requires InLoop(s) && s.cpu == Main(InPass(Some(i)))
    requires Visit(s, i).created <= WIDTH
    ensures Turn(s, Visit(s, i), i)
  {
    if i != 0 && s.nodes[i].state == Ready {
      CallSettles(s, i);
      var c := Call(s, i);
      CallEffects(s, i);
      ReapIsTurn(s, c, i);
    } else {
      assert Since(s, s) == [];
      assert Effects(s, s, i);
      ReapIsTurn(s, s, i);
    }
  }

  lemma KeptIsTurn(s: Sys, c: Sys, u: Sys, i: Id)
    requires Effects(s, c, i) && u.nodes == c.nodes && u.log == c.log && u.created == c.created
    requires i != 0 ==> c.nodes[i].state == Waiting
    requires i != 0 && s.nodes[i].state == Ready ==> Switched(i) in Since(s, c)
    requires 0 in s.nodes && c.nodes[0].state == Ready
    ensures Turn(s, u, i)
  {
    assert Since(s, u) == Since(s, c);
  }

  lemma ErasedIsTurn(s: Sys, c: Sys, u: Sys, i: Id)
    requires Effects(s, c, i) && i != 0 && i < s.created
    requires u.nodes == c.nodes - {i} && u.log == c.log + [Destroyed(i)] && u.created == c.created
    requires s.nodes[i].state == Ready ==> Switched(i) in Since(s, c)
    requires 0 in s.nodes && c.nodes[0].state == Ready
    ensures Turn(s, u, i)
  {
    assert Since(s, u) == Since(s, c) + [Destroyed(i)];
  }

  lemma ReapIsTurn(s: Sys, c: Sys, i: Id)
    requires Inv(s) && i in s.nodes
    requires Effects(s, c, i) && c.created <= WIDTH && c.nodes[0].state == Ready
    requires i != 0 ==> c.nodes[i].state != Ready
    requires i != 0 && s.nodes[i].state == Ready ==> Switched(i) in Since(s, c)
    ensures Turn(s, Reap(c, i), i)
  {
    assert i < s.created && 0 in s.nodes;
    hide Inv, Effects, Turn;
    if c.nodes[i].state == Ended {
      ErasedIsTurn(s, c, Reap(c, i), i);
    } else {
      KeptIsTurn(s, c, Reap(c, i), i);
    }
  }

  lemma WokenAboveSplits(a: seq<Event>, b: seq<Event>, j: Id)
    ensures WokenAbove(a + b, j) <==> WokenAbove(a, j) || WokenAbove(b, j)
  {
    var l := a + b;
    if WokenAbove(a, j) {
      var p :| 0 <= p < |a| && a[p].Woken? && a[p].target == j && a[p].waker > j;
      assert l[p] == a[p];
    }
    if WokenAbove(b, j) {
      var p :| 0 <= p < |b| && b[p].Woken? && b[p].target == j && b[p].waker > j;
      assert l[|a| + p] == b[p];
    }
  }

  /** Inside coroutine i's own turn, j is woken from above exactly when i woke it. */
  lemma WokenInTurn(l: seq<Event>, i: Id, j: Id)
    requires forall e :: e in l && e.Woken? ==> e.waker == i
    ensures WokenAbove(l, j) <==> i > j && Woken(i, j) in l
  {
    if i > j && Woken(i, j) in l {
      var p :| 0 <= p < |l| && l[p] == Woken(i, j);
      assert l[p].Woken? && l[p].target == j && l[p].waker > j;
    }
    if WokenAbove(l, j) {
      var p :| 0 <= p < |l| && l[p].Woken? && l[p].target == j && l[p].waker > j;
      assert l[p] in l && l[p] == Woken(i, j);
    }
  }

  lemma WokenAboveRest(s: Sys, u: Sys, t: Sys, i: Id, j: Id)
    requires Turn(s, u, i) && u.log <= t.log
    ensures WokenAbove(Since(s, t), j) <==> (i > j && Woken(i, j) in Since(s, u)) || WokenAbove(Since(u, t), j)
  {
    SinceSplits(s, u, t);
    WokenAboveSplits(Since(s, u), Since(u, t), j);
    WokenInTurn(Since(s, u), i, j);
  }

  ghost predicate NextStop(s: Sys, u: Sys, i: Id, k: nat) {
    i < k && (forall j :: j in u.nodes && i < j ==> k <= j) && (forall j :: j in s.nodes ==> j < s.created)
  }

  lemma PassedAfterTurn(s: Sys, u: Sys, t: Sys, i: Id, k: nat)
    requires Turn(s, u, i) && Settles(u, t, k) && NextStop(s, u, i, k)
    ensures PassedOnlyWoken(s, t, i)
  {
    forall j | j in s.nodes && j != 0 && j < i
      ensures j in t.nodes && t.nodes[j].cont == s.nodes[j].cont
      ensures t.nodes[j].state == if WokenAbove(Since(s, t), j) then Ready else s.nodes[j].state
    {
      WokenAboveRest(s, u, t, i, j);
    }
  }

  lemma ReachedAfterTurn(s: Sys, u: Sys, t: Sys, i: Id, k: nat)
    requires Turn(s, u, i) && Settles(u, t, k) && NextStop(s, u, i, k)
    ensures ReachedSettled(s, t, i)
  {
    forall j | j in t.nodes && j != 0 && (j !in s.nodes || i <= j)
      ensures t.nodes[j].state != Ended
      ensures t.nodes[j].state == Ready <==> WokenAbove(Since(s, t), j)
    {
      WokenAboveRest(s, u, t, i, j);
    }
  }

  lemma DispatchedAfterTurn(s: Sys, u: Sys, t: Sys, i: Id, k: nat)
    requires Turn(s, u, i) && Settles(u, t, k) && NextStop(s, u, i, k)
    ensures AllDispatched(s, t, i)
  {
    SinceSplits(s, u, t);
    forall j: Id | s.created <= j < t.created
      ensures Switched(j) in Since(s, t)
    {
      if j < u.created {
        assert j in u.nodes && k <= j;
      }
      assert Switched(j) in Since(u, t);
    }
  }

  lemma TurnThenRest(s: Sys, u: Sys, t: Sys, i: Id, k: nat)
    requires Turn(s, u, i) && Settles(u, t, k) && NextStop(s, u, i, k)
    ensures Settles(s, t, i)
  {
    SinceSplits(s, u, t);
    PassedAfterTurn(s, u, t, i, k);
    ReachedAfterTurn(s, u, t, i, k);
    DispatchedAfterTurn(s, u, t, i, k);
  }

  lemma {:induction false} PassFromSettles(s: Sys)
    requires InLoop(s) && PassFrom(s).created <= WIDTH
    ensures Settles(s, PassFrom(s), Position(s))
    decreases Remaining(s.cpu.at.cursor)
  {
    match s.cpu.at.cursor
    case None =>
      assert Since(s, PassFrom(s)) == [];
    case Some(i) =>
      var u := Visit(s, i);
      PassFromCreates(u);
      VisitIsTurn(s, i);
      PassFromSettles(u);
      assert NextStop(s, u, i, Position(u));
      TurnThenRest(s, u, PassFrom(s), i, Position(u));
  }

  lemma VisitCreates(s: Sys, i: Id)
    requires InLoop(s) && s.cpu == Main(InPass(Some(i)))
    ensures s.log <= Visit(s, i).log && s.created <= Visit(s, i).created
  {
    if i != 0 && s.nodes[i].state == Ready {
      var n := s.nodes[i];
      var t := Emit(Put(s, i, n.(cont := OnCpu)), Switched(i));
      match n.cont {
        case Fresh => StraightCreates(Emit(t, Entered(i, n.callback)), i, n.callback);
        case Suspended(rest) => StraightCreates(t, i, rest);
      }
    }
  }

  lemma {:induction false} PassFromCreates(s: Sys)
    requires InLoop(s)
    ensures s.log <= PassFrom(s).log && s.created <= PassFrom(s).created
    decreases Remaining(s.cpu.at.cursor)
  {
    if s.cpu.at.cursor.Some? {
      VisitCreates(s, s.cpu.at.cursor.value);
      PassFromCreates(Visit(s, s.cpu.at.cursor.value));
    }
  }
}
