/** Interleaving preserves every coroutine's own program: whatever else happens in
    between, the events about one id are an initial part of one fixed life. */
module Life {
  import opened Options
  import opened Machine
  import opened Invariant

  predicate About(e: Event, id: Id) {
    match e
    case Assigned(i, _) => i == id
    case Entered(i, _) => i == id
    case Ran(i, _) => i == id
    case Exited(i) => i == id
    case Destroyed(i) => i == id
    case _ => false
  }

  /** The history projected onto one id. */
  ghost function Story(log: seq<Event>, id: Id): seq<Event> {
    if log == [] then []
    else
      var e := log[|log| - 1];
      Story(log[..|log| - 1], id) + if About(e, id) then [e] else []
  }

  lemma StoryAppends(log: seq<Event>, e: Event, id: Id)
    ensures Story(log + [e], id) == Story(log, id) + if About(e, id) then [e] else []
  {
    assert (log + [e])[..|log|] == log;
  }

  /** The whole life of a coroutine: its callback is stored, entered once, runs the actions
      of the body in order, ends once and is reclaimed once. */
  ghost function FullLife(id: Id, body: Body): (l: seq<Event>)
    ensures |l| == |body| + 4
    ensures l[0] == Assigned(id, body) && l[1] == Entered(id, body)
    ensures forall k :: 2 <= k < |body| + 2 ==> l[k] == Ran(id, body[k - 2])
    ensures l[|body| + 2] == Exited(id) && l[|body| + 3] == Destroyed(id)
  {
    [Assigned(id, body), Entered(id, body)] + seq(|body|, k requires 0 <= k < |body| => Ran(id, body[k])) +
    [Exited(id), Destroyed(id)]
  }

  /** What an id would execute if it were given the processor now, or is executing. */
  function Control(s: Sys, id: Id): Cont
    requires id in s.nodes
  {
    if id == s.active then s.cpu else s.nodes[id].cont
  }

  /** How far along its life an id is, by the state of the table. */
  ghost predicate AtPoint(s: Sys, id: Id, body: Body, lived: nat) {
    if id !in s.nodes then lived == |body| + 4
    else
      match Control(s, id)
      case Fresh => lived == 1 && s.nodes[id].callback == body
      case Suspended(rest) => 2 <= lived <= |body| + 2 && rest == body[lived - 2..]
      case Finished => lived == |body| + 3
      case _ => false
  }

  /** A pending expiry of an id is the time asked for by the last thing it did. */
  ghost predicate SleepsAsAsked(expiry: map<Id, nat>, id: Id, story: seq<Event>) {
    id in expiry ==>
      && story != []
      && var last := story[|story| - 1];
      last.Ran? && last.action.Sleep? && expiry[id] == last.action.now + last.action.ms
  }

  ghost predicate LivesOwnLife(s: Sys, id: Id) {
    var story := Story(s.log, id);
    if id < s.created then
      && story != [] && story[0].Assigned?
      && story <= FullLife(id, story[0].body)
      && AtPoint(s, id, story[0].body, |story|)
      && SleepsAsAsked(s.expiry, id, story)
    else story == []
  }

  ghost predicate AllLiveOwnLives(s: Sys) {
    s.created <= WIDTH ==> forall id: Id :: id != 0 ==> LivesOwnLife(s, id)
  }

  lemma ActiveWasCreated(s: Sys)
    requires Inv(s) && s.created <= WIDTH
    ensures s.active < s.created && s.active !in s.expiry
  {
  }

  // ---------- one id at a time ----------

  lemma Unaffected(s: Sys, t: Sys, id: Id)
    requires LivesOwnLife(s, id)
    requires Story(t.log, id) == Story(s.log, id)
    requires id < s.created <==> id < t.created
    requires id in s.nodes <==> id in t.nodes
    requires id in s.nodes ==> Control(t, id) == Control(s, id)
    requires id in s.nodes ==> t.nodes[id].callback == s.nodes[id].callback
    requires id in t.expiry ==> id in s.expiry && t.expiry[id] == s.expiry[id]
    ensures LivesOwnLife(t, id)
  {
  }

  lemma PrefixGrows(story: seq<Event>, life: seq<Event>, e: Event)
    requires story <= life && |story| < |life| && life[|story|] == e
    ensures story + [e] <= life
  {
    assert story + [e] == life[..|story| + 1];
  }

  lemma NoSleepPending(expiry: map<Id, nat>, id: Id, story: seq<Event>)
    requires id !in expiry
    ensures SleepsAsAsked(expiry, id, story)
  {
  }

  /** The next event of the life happens. */
  lemma LivesOn(s: Sys, t: Sys, id: Id, e: Event)
    requires LivesOwnLife(s, id) && id < s.created && id < t.created
    requires Story(t.log, id) == Story(s.log, id) + [e]
    requires var body := Story(s.log, id)[0].body; var lived := |Story(s.log, id)|;
             lived < |body| + 4 && FullLife(id, body)[lived] == e && AtPoint(t, id, body, lived + 1)
    requires id !in t.expiry
    ensures LivesOwnLife(t, id)
  {
    var story := Story(s.log, id);
    var body := story[0].body;
    hide Story, FullLife, AtPoint, SleepsAsAsked;
    PrefixGrows(story, FullLife(id, body), e);
    var longer := story + [e];
    assert longer[0].body == body && |longer| == |story| + 1;
    assert SleepsAsAsked(t.expiry, id, longer) by { NoSleepPending(t.expiry, id, longer); }
  }

  lemma SpawnStory(s: Sys, body: Body, id: Id)
    ensures var added := NextId(s.staticid);
            Story(NewCoroutine(s, body).log, id) == Story(s.log, id) + if id == added then [Assigned(added, body)] else []
  {
    var added := NextId(s.staticid);
    StoryAppends(s.log, Created(added), id);
    StoryAppends(s.log + [Created(added)], Assigned(added, body), id);
  }

  lemma AddedLives(s: Sys, body: Body, added: Id)
    requires LivesOwnLife(s, added) && added == NextId(s.staticid) == s.created && s.created < WIDTH
    requires added !in s.nodes && added != s.active && added !in s.expiry
    ensures LivesOwnLife(NewCoroutine(s, body), added)
  {
    SpawnStory(s, body, added);
    var t := NewCoroutine(s, body);
    hide Story;
    assert Story(t.log, added) == [Assigned(added, body)];
    assert [Assigned(added, body)] <= FullLife(added, body);
    assert Control(t, added) == Fresh && t.nodes[added].callback == body;
  }

  lemma SpawnLives(s: Sys, body: Body)
    requires Inv(s) && AllLiveOwnLives(s)
    ensures AllLiveOwnLives(NewCoroutine(s, body))
  {
    var t := NewCoroutine(s, body);
    if t.created <= WIDTH {
      var added := NextId(s.staticid);
      CreateKeepsInv(s);
      assert added !in s.nodes && added !in s.expiry && added == s.created && s.active != added;
      hide Inv, LivesOwnLife;
      forall id: Id | id != 0
        ensures LivesOwnLife(t, id)
      {
        assert LivesOwnLife(s, id);
        if id == added {
          AddedLives(s, body, added);
        } else {
          SpawnStory(s, body, id);
          Unaffected(s, t, id);
        }
      }
    }
  }

  lemma WakeLives(s: Sys, waker: Id, target: Id)
    requires Inv(s) && AllLiveOwnLives(s)
    ensures AllLiveOwnLives(TryWake(s, waker, target))
  {
    var t := TryWake(s, waker, target);
    if t.created <= WIDTH && CanWake(s, target) {
      forall id: Id | id != 0
        ensures LivesOwnLife(t, id)
      {
        StoryAppends(s.log, Woken(waker, target), id);
        Unaffected(s, t, id);
      }
    }
  }

  lemma CloseLives(s: Sys, fd: Id)
    requires Inv(s) && AllLiveOwnLives(s)
    ensures AllLiveOwnLives(CloseConnection(s, fd))
  {
    var t := CloseConnection(s, fd);
    if t.created <= WIDTH {
      forall id: Id | id != 0
        ensures LivesOwnLife(t, id)
      {
        StoryAppends(s.log, Disconnected(fd), id);
        Unaffected(s, t, id);
      }
    }
  }

  lemma DispatchLives(s: Sys, i: Id, at: MainPoint)
    requires Inv(s) && s.active == 0 && AllLiveOwnLives(s)
    requires i in s.nodes && i != 0 && s.nodes[i].state == Ready
    requires at == Returning || (at == InPass(Some(i)) && s.cpu == Main(at))
    ensures AllLiveOwnLives(Schedule(s, i, Main(at)))
  {
    hide CursorSafe, TimersPending;
    var t := Schedule(s, i, Main(at));
    if t.created <= WIDTH {
      forall id: Id | id != 0
        ensures LivesOwnLife(t, id)
      {
        StoryAppends(s.log, Switched(i), id);
        Unaffected(s, t, id);
      }
    }
  }

  lemma DestroyLives(s: Sys, i: Id)
    requires Inv(s) && AllLiveOwnLives(s)
    requires i in s.nodes && i != 0 && s.nodes[i].state == Ended && i != s.active
    ensures AllLiveOwnLives(Destroy(s, i))
  {
    hide CursorSafe, TimersPending;
    var t := Destroy(s, i);
    if t.created <= WIDTH {
      forall id: Id | id != 0
        ensures LivesOwnLife(t, id)
      {
        StoryAppends(s.log, Destroyed(i), id);
        if id == i {
          LivesOn(s, t, id, Destroyed(i));
        } else {
          Unaffected(s, t, id);
        }
      }
    }
  }

  lemma EnterLives(s: Sys)
    requires Inv(s) && s.active != 0 && s.cpu.Fresh? && AllLiveOwnLives(s)
    ensures AllLiveOwnLives(Step(s))
  {
    hide CursorSafe, TimersPending;
    var t := Step(s);
    if t.created <= WIDTH {
      forall id: Id | id != 0
        ensures LivesOwnLife(t, id)
      {
        var e := Entered(s.active, s.nodes[s.active].callback);
        StoryAppends(s.log, e, id);
        if id == s.active {
          LivesOn(s, t, id, e);
        } else {
          Unaffected(s, t, id);
        }
      }
    }
  }

  lemma ExitStory(log: seq<Event>, i: Id, id: Id)
    ensures Story(log + [Exited(i)] + [Switched(0)], id) == Story(log, id) + if i == id then [Exited(i)] else []
  {
    StoryAppends(log, Exited(i), id);
    StoryAppends(log + [Exited(i)], Switched(0), id);
  }

  lemma ExitedLives(s: Sys, i: Id)
    requires Inv(s) && s.active == i != 0 && s.cpu == Suspended([]) && s.created <= WIDTH && LivesOwnLife(s, i)
    ensures LivesOwnLife(Step(s), i)
  {
    ActiveWasCreated(s);
    ExitStory(s.log, i, i);
    var t := Step(s);
    assert t.log == s.log + [Exited(i)] + [Switched(0)];
    hide CursorSafe, TimersPending, IdsConserved, Story, FullLife;
    LivesOn(s, t, i, Exited(i));
  }

  lemma ExitLives(s: Sys)
    requires Inv(s) && s.active != 0 && s.cpu == Suspended([]) && AllLiveOwnLives(s)
    ensures AllLiveOwnLives(Step(s))
  {
    hide CursorSafe, TimersPending, IdsConserved, LivesOwnLife, FullLife;
    var t := Step(s);
    var i := s.active;
    if t.created <= WIDTH {
      forall id: Id | id != 0
        ensures LivesOwnLife(t, id)
      {
        if id == i {
          ExitedLives(s, i);
        } else {
          ExitStory(s.log, i, id);
          Unaffected(s, t, id);
        }
      }
    }
  }

  /** The running coroutine records its next action and moves past it. */
  ghost function Acted(s: Sys): Sys
    requires s.cpu.Suspended? && s.cpu.rest != []
  {
    Emit(s, Ran(s.active, s.cpu.rest[0])).(cpu := Suspended(s.cpu.rest[1..]))
  }

  lemma ActedLives(s: Sys)
    requires Inv(s) && s.active != 0 && s.cpu.Suspended? && s.cpu.rest != [] && AllLiveOwnLives(s)
    ensures Inv(Acted(s)) && AllLiveOwnLives(Acted(s))
  {
    var t := Acted(s);
    assert Inv(t);
    hide CursorSafe, TimersPending, IdsConserved;
    var i := s.active;
    if t.created <= WIDTH {
      forall id: Id | id != 0
        ensures LivesOwnLife(t, id)
      {
        StoryAppends(s.log, Ran(i, s.cpu.rest[0]), id);
        if id == i {
          LivesOn(s, t, id, Ran(i, s.cpu.rest[0]));
        } else {
          Unaffected(s, t, id);
        }
      }
    }
  }

  lemma YieldLives(s: Sys)
    requires Inv(s) && s.active != 0 && s.cpu.Suspended? && AllLiveOwnLives(s)
    ensures AllLiveOwnLives(Schedule(s, 0, s.cpu))
  {
    hide CursorSafe, TimersPending, IdsConserved;
    var u := Schedule(s, 0, s.cpu);
    if u.created <= WIDTH {
      forall id: Id | id != 0
        ensures LivesOwnLife(u, id)
      {
        StoryAppends(s.log, Switched(0), id);
        Unaffected(s, u, id);
      }
    }
  }

  lemma AsleepLives(s: Sys, u: Sys, id: Id, now: nat, ms: nat)
    requires LivesOwnLife(s, id) && id < s.created == u.created
    requires id in s.nodes && id in u.nodes && Control(u, id) == Control(s, id) && Control(s, id).Suspended?
    requires Story(u.log, id) == Story(s.log, id)
    requires var story := Story(s.log, id); story != [] && story[|story| - 1] == Ran(id, Sleep(now, ms))
    requires id in u.expiry && u.expiry[id] == now + ms
    ensures LivesOwnLife(u, id)
  {
    hide Story, FullLife, Control;
  }

  lemma StoryOfSleeper(log: seq<Event>, id: Id, now: nat, ms: nat)
    requires log != [] && log[|log| - 1] == Ran(id, Sleep(now, ms))
    ensures Story(log + [Switched(0)], id) == Story(log, id) != []
    ensures Story(log, id)[|Story(log, id)| - 1] == Ran(id, Sleep(now, ms))
  {
    StoryAppends(log, Switched(0), id);
    assert log == log[..|log| - 1] + [Ran(id, Sleep(now, ms))];
    StoryAppends(log[..|log| - 1], Ran(id, Sleep(now, ms)), id);
  }

  lemma SleeperLives(s: Sys, now: nat, ms: nat)
    requires Inv(s) && s.active != 0 && s.cpu.Suspended? && LivesOwnLife(s, s.active) && s.active < s.created
    requires s.log != [] && s.log[|s.log| - 1] == Ran(s.active, Sleep(now, ms))
    ensures LivesOwnLife(WaitAndSchedule(s, now, ms, s.cpu), s.active)
  {
    hide CursorSafe, TimersPending, IdsConserved, Reaped, Story, FullLife, LivesOwnLife;
    StoryOfSleeper(s.log, s.active, now, ms);
    AsleepLives(s, WaitAndSchedule(s, now, ms, s.cpu), s.active, now, ms);
  }

  lemma SleepLives(s: Sys, now: nat, ms: nat)
    requires Inv(s) && s.active != 0 && s.cpu.Suspended? && AllLiveOwnLives(s)
    requires s.log != [] && s.log[|s.log| - 1] == Ran(s.active, Sleep(now, ms))
    ensures AllLiveOwnLives(WaitAndSchedule(s, now, ms, s.cpu))
  {
    var u := WaitAndSchedule(s, now, ms, s.cpu);
    if u.created <= WIDTH {
      assert s.active < s.created by { ActiveWasCreated(s); }
      hide CursorSafe, TimersPending, IdsConserved;
      forall id: Id | id != 0
        ensures LivesOwnLife(u, id)
      {
        if id == s.active {
          SleeperLives(s, now, ms);
        } else {
          StoryAppends(s.log, Switched(0), id);
          Unaffected(s, u, id);
        }
      }
    }
  }

  lemma ActionLives(s: Sys)
    requires Inv(s) && s.active != 0 && s.cpu.Suspended? && s.cpu.rest != [] && AllLiveOwnLives(s)
    ensures AllLiveOwnLives(Step(s))
  {
    var a := Acted(s);
    ActedLives(s);
    match s.cpu.rest[0] {
      case Sleep(now, ms) =>
        assert Step(s) == WaitAndSchedule(a, now, ms, a.cpu);
        SleepLives(a, now, ms);
      case Yield =>
        assert Step(s) == Schedule(a, 0, a.cpu);
        YieldLives(a);
      case Spawn(body) =>
        assert Step(s) == NewCoroutine(a, body);
        SpawnLives(a, body);
      case Wake(target) =>
        assert Step(s) == TryWake(a, a.active, target);
        WakeLives(a, a.active, target);
    }
  }

  lemma MoveLives(s: Sys, at: MainPoint)
    requires s.active == 0 && AllLiveOwnLives(s)
    ensures AllLiveOwnLives(MoveTo(s, at))
  {
    var t := MoveTo(s, at);
    if t.created <= WIDTH {
      forall id: Id | id != 0
        ensures LivesOwnLife(t, id)
      {
        Unaffected(s, t, id);
      }
    }
  }

  lemma PassStepLives(s: Sys)
    requires Inv(s) && s.active == 0 && s.cpu.at.InPass? && AllLiveOwnLives(s)
    ensures AllLiveOwnLives(PassStep(s))
  {
    var cursor := s.cpu.at.cursor;
    if cursor.Some? && cursor.value != 0 && s.nodes[cursor.value].state == Ready {
      DispatchLives(s, cursor.value, s.cpu.at);
    } else if cursor.Some? && cursor.value != 0 && s.nodes[cursor.value].state == Ended {
      var i := cursor.value;
      DestroyLives(s, i);
      MoveLives(Destroy(s, i), Advance(s, i).cpu.at);
      assert PassStep(s) == MoveTo(Destroy(s, i), Advance(s, i).cpu.at);
    } else {
      MoveLives(s, PassStep(s).cpu.at);
    }
  }

  lemma DoLives(s: Sys, l: Label)
    requires Inv(s) && AllLiveOwnLives(s)
    ensures AllLiveOwnLives(Do(s, l))
  {
    if s.active != 0 {
      if l.Go? {
        if s.cpu.Fresh? { EnterLives(s); }
        else if s.cpu.rest == [] { ExitLives(s); }
        else { ActionLives(s); }
      }
    } else {
      match s.cpu.at
      case Booting =>
      case Polling =>
        if l.Poll? {
          var due := ToFire(s.expiry, l.now);
          if due.Some? {
            var r := SetReady(s, 0, due.value);
            SetReadySafeIff(s, 0, due.value);
            WakeLives(s, 0, due.value);
            DispatchLives(r, due.value, Returning);
          } else {
            MoveLives(s, Serving);
          }
        }
      case Serving =>
        match l {
          case Request(body) => SpawnLives(s, body);
          case Wakeup(id) => NothingEndedAtServing(s, id); WakeLives(s, 0, id);
          case Close(fd) => CloseLives(s, fd);
          case BeginPass => MoveLives(s, EnterPass(s).cpu.at);
          case _ =>
        }
      case Returning =>
        if l.BeginPass? { MoveLives(s, EnterPass(s).cpu.at); }
      case InPass(_) =>
        if l.Go? { PassStepLives(s); }
    }
  }
}
