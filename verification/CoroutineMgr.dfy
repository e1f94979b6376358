/** lib/eventmgr/CoroutineMgr.h and `Entry`, in place.  Every method is proved to do to the
    fields what the function of the same name does to the value `View()`. */
module Coroutines {
  import opened Options
  import opened Machine
  import opened Invariant
  import opened Passes
  import opened Expiry
  import opened Life
  import opened Runs
  import opened Timers

  datatype IoResult = IoOk | IoErr

  /** What `epoll_wait` reports, as far as coroutines are concerned: a request from a client,
      data for a coroutine, the end of an attempt to connect that a coroutine waits for, or a
      connection the other side has closed. */
  datatype ServerEvent = NewRequest(body: Body) | Notify(id: Id) | Connected(id: Id) | Closed(fd: Id)

  function LabelOf(e: ServerEvent): Label {
    match e
    case NewRequest(body) => Request(body)
    case Notify(id) => Wakeup(id)
    case Connected(id) => Wakeup(id)
    case Closed(fd) => Close(fd)
  }

  /** The events of one `RunOnce`, in order. */
  ghost function Served(s: Sys, events: seq<ServerEvent>): (t: Sys)
    requires Inv(s) && s.active == 0 && s.cpu == Main(Serving)
    ensures BeforePass(t) && t.cpu == Main(Serving)
    decreases |events|
  {
    if events == [] then s
    else
      DoKeepsInv(s, LabelOf(events[0]));
      Served(Do(s, LabelOf(events[0])), events[1..])
  }

  ghost predicate AtPoll(s: Sys) {
    Inv(s) && s.active == 0 && s.cpu == Main(Polling)
  }

  /** `CMonitorEpoll::RunOnce`: one expired timer is served by running its coroutine at
      once; only when none has expired are events looked at. */
  ghost function Polled(s: Sys, now: nat, events: seq<ServerEvent>): (t: Sys)
    requires AtPoll(s)
    ensures BeforePass(t)
  {
    DoKeepsInv(s, Poll(now));
    match ToFire(s.expiry, now)
    case Some(id) => Run(Do(s, Poll(now)))
    case None => Served(Do(s, Poll(now)), events)
  }

  lemma FireKeepsInv(s: Sys, now: nat, id: Id)
    requires AtPoll(s) && ToFire(s.expiry, now) == Some(id)
    ensures Inv(SetReady(s, 0, id)) && Inv(Do(s, Poll(now)))
    ensures Do(s, Poll(now)) == Schedule(SetReady(s, 0, id), id, Main(Returning))
  {
    SetReadySafeIff(s, 0, id);
    DoKeepsInv(s, Poll(now));
  }

  /** Either a timer fires, of a live coroutine that is not main, or events are looked at. */
  lemma PollFires(s: Sys, now: nat)
    requires AtPoll(s)
    ensures ToFire(s.expiry, now).Some? ==> ToFire(s.expiry, now) != Some(0)
    ensures Inv(Do(s, Poll(now)))
    ensures ToFire(s.expiry, now).None? ==> Do(s, Poll(now)) == s.(cpu := Main(Serving))
  {
    DoKeepsInv(s, Poll(now));
  }

  datatype Round = Round(now: nat, events: seq<ServerEvent>)

  /** The main loop: `RunOnce`, then `ScheduleAll`, for ever. */
  ghost function Rounds(s: Sys, rounds: seq<Round>): (t: Sys)
    requires AtPoll(s)
    ensures AtPoll(t)
    decreases |rounds|
  {
    if rounds == [] then s
    else Rounds(Pass(Polled(s, rounds[0].now, rounds[0].events)), rounds[1..])
  }

  /** Whoever waits for a connection is in the table. */
  ghost predicate WaitersLive(s: Sys, events: seq<ServerEvent>) {
    forall e :: e in events && e.Connected? ==> e.id in s.nodes
  }

  /** In every turn that looks at events. */
  ghost predicate AllWaitersLive(s: Sys, rounds: seq<Round>)
    requires AtPoll(s)
    decreases |rounds|
  {
    rounds == [] ||
    (var r := rounds[0];
     && (ToFire(s.expiry, r.now).None? ==> WaitersLive(s, r.events))
     && AllWaitersLive(Pass(Polled(s, r.now, r.events)), rounds[1..]))
  }

  lemma EventKeepsNodes(s: Sys, e: ServerEvent)
    requires Inv(s) && s.active == 0 && s.cpu == Main(Serving)
    ensures s.nodes.Keys <= Do(s, LabelOf(e)).nodes.Keys
  {
  }

  // ---------- the main loop only takes steps of the system ----------

  lemma {:induction false} ServedIsRun(s: Sys, events: seq<ServerEvent>) returns (ls: seq<Label>)
    requires Inv(s) && s.active == 0 && s.cpu == Main(Serving)
    ensures Exec(s, ls) == Served(s, events)
    decreases |events|
  {
    ls := [];
    if events != [] {
      var l := LabelOf(events[0]);
      DoKeepsInv(s, l);
      var rest := ServedIsRun(Do(s, l), events[1..]);
      ls := [l] + rest;
      assert ls[1..] == rest;
    }
  }

  lemma PolledIsRun(s: Sys, now: nat, events: seq<ServerEvent>) returns (ls: seq<Label>)
    requires AtPoll(s)
    ensures Exec(s, ls) == Polled(s, now, events)
  {
    DoKeepsInv(s, Poll(now));
    var t := Do(s, Poll(now));
    var rest;
    if ToFire(s.expiry, now).Some? {
      var n := RunIsSteps(t);
      rest := Steps(n);
    } else {
      rest := ServedIsRun(t, events);
    }
    ls := [Poll(now)] + rest;
    assert ls[1..] == rest;
  }

  /** Any number of turns of the main loop is a run, so that whatever holds of every run
      holds at the head of the main loop. */
  lemma {:induction false} RoundsAreRun(s: Sys, rounds: seq<Round>) returns (ls: seq<Label>)
    requires AtPoll(s)
    ensures Exec(s, ls) == Rounds(s, rounds)
    decreases |rounds|
  {
    ls := [];
    if rounds != [] {
      var u := Polled(s, rounds[0].now, rounds[0].events);
      var poll := PolledIsRun(s, rounds[0].now, rounds[0].events);
      var n := PassTerminates(u);
      var rest := RoundsAreRun(Pass(u), rounds[1..]);
      var pass := [BeginPass] + Steps(n);
      ExecSplits(s, poll, pass);
      ExecSplits(s, poll + pass, rest);
      ls := poll + pass + rest;
    }
  }

  class CoroutineMgr {
    var nodes: map<Id, Node>
    var active: Id
    var staticid: Id
    var cpu: Cont
    const timers: ExpireMgr
    ghost var log: seq<Event>
    ghost var created: nat
    ghost var dead: set<Id>
    ghost var disarmed: set<Id>

    ghost function View(): Sys
      reads this, timers
    {
      Sys(nodes, active, staticid, timers.idToExpire, cpu, log, created, dead, disarmed)
    }

    ghost predicate Valid()
      reads this, timers
    {
      timers.Valid()
    }

    constructor ()
      ensures Valid() && fresh(timers) && View() == BOOT
    {
      nodes := map[];
      active := 0;
      staticid := WIDTH - 1;
      cpu := Main(Booting);
      timers := new ExpireMgr();
      log := [];
      created := 0;
      dead := {};
      disarmed := {};
    }

    function Get(id: Id): Option<Node>
      reads this
    {
      if id in nodes then Some(nodes[id]) else None
    }

    method Create() returns (id: Id)
      modifies this
      ensures View() == Machine.Create(old(View())) && id == staticid && id in nodes
    {
      staticid := if staticid + 1 == WIDTH then 0 else staticid + 1;
      if staticid !in nodes {
        nodes := nodes[staticid := Node(Ready, 0, [], Fresh)];
      }
      nodes := nodes[staticid := nodes[staticid].(reqId := staticid)];
      id := staticid;
      log := log + [Created(id)];
      created := created + 1;
    }

    /** `cc.GetReq().m_cb = body` */
    method SetCallback(id: Id, body: Body)
      requires id in nodes
      modifies this
      ensures View() == Assign(old(View()), id, body)
    {
      nodes := nodes[id := nodes[id].(callback := body)];
      log := log + [Assigned(id, body)];
    }

    /** `__SwitchCoroutine__(cur, next)`, called where the continuation is `save`. */
    method SwitchCoroutine(cur: Id, next: Id, save: Cont)
      requires cur in nodes && next in nodes
      modifies this
      ensures View() == SwitchContexts(old(View()), cur, next, save)
    {
      nodes := nodes[cur := nodes[cur].(cont := save)];
      cpu := nodes[next].cont;
      nodes := nodes[next := nodes[next].(cont := OnCpu)];
    }

    /** `Schedule(CoroutineContext&)` */
    method ScheduleNode(next: Id, save: Cont)
      requires active in nodes && next in nodes
      modifies this
      ensures View() == Machine.Schedule(old(View()), next, save)
    {
      log := log + [Switched(next)];
      var c := active;
      active := next;
      SwitchCoroutine(c, next, save);
    }

    /** `Schedule(uint32_t)`: an unknown id is only logged. */
    method Schedule(id: Id, save: Cont)
      requires active in nodes
      modifies this
      ensures View() == if id in old(nodes) then Machine.Schedule(old(View()), id, save) else old(View())
    {
      if id !in nodes {
        return;
      }
      ScheduleNode(id, save);
    }

    method WaitAndSchedule(now: nat, ms: nat, save: Cont)
      requires Valid() && active in nodes && 0 in nodes
      modifies this, timers
      ensures Valid() && View() == Machine.WaitAndSchedule(old(View()), now, ms, save)
    {
      timers.Set(now, ms, nodes[active].reqId);
      disarmed := disarmed - {nodes[active].reqId};
      nodes := nodes[active := nodes[active].(state := Waiting)];
      Schedule(0, save);
    }

    /** `Get(id)` is not checked: the id has to be live. */
    method SetReady(id: Id)
      requires Valid() && id in nodes
      modifies this, timers
      ensures Valid() && View() == Machine.SetReady(old(View()), active, id)
    {
      nodes := nodes[id := nodes[id].(state := Ready)];
      timers.Del(id);
      log := log + [Woken(active, id)];
    }

    method Destroy(id: Id) returns (r: IoResult)
      modifies this
      ensures View() == Machine.Destroy(old(View()), id)
      ensures r == IoOk <==> id in old(nodes)
    {
      if id !in nodes {
        return IoErr;
      }
      nodes := nodes - {id};
      log := log + [Destroyed(id)];
      dead := dead + {id};
      r := IoOk;
    }

    /** Succeeds exactly on an empty table whose next id is 0.  The self-switch stores main's
        own continuation in the context just created. */
    method Init() returns (r: IoResult)
      modifies this
      ensures r == IoOk <==> old(nodes) == map[] && old(staticid) == WIDTH - 1
      ensures r == IoOk ==> View() == Machine.Init(old(View()))
      ensures r == IoErr ==> View() == if old(nodes) != map[] then old(View()) else Machine.Create(old(View()))
    {
      if nodes != map[] {
        return IoErr;
      }
      var cc := Create();
      if nodes[cc].reqId != 0 {
        return IoErr;
      }
      SwitchCoroutine(cc, cc, Main(Polling));
      active := cc;
      r := IoOk;
    }

    /** The processor executes the running coroutine up to its next effect: `Entry` before
        the callback, one action of the callback, or `Entry` after it. */
    method StepCoroutine()
      requires Valid() && Inv(View()) && active != 0
      modifies this, timers
      ensures Valid() && View() == Step(old(View()))
    {
      match cpu {
        case Fresh =>
          var rd := nodes[active];
          log := log + [Entered(rd.reqId, rd.callback)];
          active := rd.reqId;
          cpu := Suspended(rd.callback);
        case Suspended(rest) =>
          if rest == [] {
            nodes := nodes[active := nodes[active].(state := Ended)];
            log := log + [Exited(active)];
            Schedule(0, Finished);
          } else {
            log := log + [Ran(active, rest[0])];
            match rest[0] {
              case Sleep(now, ms) =>
                WaitAndSchedule(now, ms, Suspended(rest[1..]));
              case Yield =>
                Schedule(0, Suspended(rest[1..]));
              case Spawn(body) =>
                var id := Create();
                SetCallback(id, body);
                cpu := Suspended(rest[1..]);
              case Wake(target) =>
                if Get(target).Some? && nodes[target].state != Ended {
                  SetReady(target);
                }
                cpu := Suspended(rest[1..]);
            }
          }
      }
    }

    /** Until control is back in main. */
    method Resume()
      requires Valid() && Inv(View())
      modifies this, timers
      ensures Valid() && View() == Run(old(View()))
    {
      while active != 0
        invariant Valid() && Inv(View())
        invariant Run(View()) == Run(old(View()))
        decreases Running(View())
      {
        StepProgress(View());
        StepCoroutine();
      }
    }

    /** Main dispatches a node from where it is, and goes on when control is back. */
    method RunNode(i: Id, at: MainPoint)
      requires Valid() && Inv(View()) && active == 0
      requires i in nodes && i != 0 && nodes[i].state == Ready
      requires at == Returning || (at == InPass(Some(i)) && cpu == Main(at))
      modifies this, timers
      ensures Valid() && View() == Dispatch(old(View()), i, at)
    {
      DispatchKeepsInv(View(), i, at);
      ScheduleNode(i, Main(at));
      Resume();
    }

    /** The turns of the loop that move the cursor: `++iter`, and after it, for a coroutine
        that ended, `Destroy`. */
    method MovePast(i: Id) returns (iter: Option<Id>)
      requires Valid() && InLoop(View()) && cpu == Main(InPass(Some(i)))
      requires i == 0 || nodes[i].state != Ready
      modifies this, timers
      ensures Valid() && View() == PassStep(old(View())) && cpu == Main(InPass(iter))
      ensures iter.Some? ==> iter.value in nodes
    {
      iter := NextKey(nodes, i + 1);
      if i != 0 && nodes[i].state == Ended {
        var r := Destroy(nodes[i].reqId);
      }
      cpu := Main(InPass(iter));
    }

    /** The cursor loop.  A dispatched coroutine may insert entries, change states and end
        before control comes back; the cursor stays on its entry after a dispatch and moves
        on before an entry is erased. */
    method ScheduleAll()
      requires Valid() && BeforePass(View())
      modifies this, timers
      ensures Valid() && View() == Pass(old(View()))
    {
      var iter := NextKey(nodes, 0);
      cpu := Main(InPass(iter));
      assert InLoop(View()) && View() == EnterPass(old(View()));
      hide Inv, PassFrom, Dispatch, PassStep;
      while iter.Some?
        invariant Valid() && InLoop(View()) && cpu == Main(InPass(iter))
        invariant iter.Some? ==> iter.value in nodes
        invariant PassFrom(View()) == Pass(old(View()))
        decreases Remaining(iter), if iter.Some? then NodeWork(nodes[iter.value]) else 0
      {
        var i := iter.value;
        ghost var s := View();
        if i != 0 && nodes[i].state == Ready {
          DispatchContinuesPass(s, i);
          RunNode(i, InPass(iter));
          continue;
        }
        StepContinuesPass(s, i);
        iter := MovePast(i);
      }
      PassFromEnd(View());
      cpu := Main(Polling);
    }

    /** One event of `RunOnce`. */
    method HandleEvent(e: ServerEvent)
      requires Valid() && Inv(View()) && active == 0 && cpu == Main(Serving)
      requires e.Connected? ==> e.id in nodes
      modifies this, timers
      ensures Valid() && View() == Do(old(View()), LabelOf(e))
    {
      match e {
        case NewRequest(body) =>
          var cc := Create();
          SetCallback(cc, body);
        case Notify(target) =>
          if Get(target).Some? {
            SetReady(target);
          }
        case Connected(context) =>
          SetReady(context);
        case Closed(fd) =>
          timers.Del(fd);
          log := log + [Disconnected(fd)];
          disarmed := disarmed + {fd};
      }
    }

    method HandleEvents(events: seq<ServerEvent>)
      requires Valid() && Inv(View()) && active == 0 && cpu == Main(Serving)
      requires WaitersLive(View(), events)
      modifies this, timers
      ensures Valid() && View() == Served(old(View()), events)
    {
      ghost var start := View();
      hide Inv;
      var k := 0;
      while k < |events|
        invariant 0 <= k <= |events|
        invariant Valid() && Inv(View()) && active == 0 && cpu == Main(Serving)
        invariant start.nodes.Keys <= nodes.Keys
        invariant Served(View(), events[k..]) == Served(start, events)
      {
        DoKeepsInv(View(), LabelOf(events[k]));
        EventKeepsNodes(View(), events[k]);
        HandleEvent(events[k]);
        assert events[k..][1..] == events[k + 1..];
        k := k + 1;
      }
    }

    /** The coroutine of an expired timer runs at once. */
    method RunExpired(now: nat, id: Id)
      requires Valid() && AtPoll(View()) && ToFire(View().expiry, now) == Some(id)
      modifies this, timers
      ensures Valid() && Inv(Do(old(View()), Poll(now))) && View() == Run(Do(old(View()), Poll(now)))
    {
      FireKeepsInv(View(), now, id);
      hide Inv, Do, Run;
      SetReady(id);
      Schedule(id, Main(Returning));
      Resume();
    }

    method RunOnce(now: nat, events: seq<ServerEvent>)
      requires Valid() && AtPoll(View())
      requires ToFire(View().expiry, now).None? ==> WaitersLive(View(), events)
      modifies this, timers
      ensures Valid() && View() == Polled(old(View()), now, events)
    {
      var ms, id := timers.NextWaitTime(now);
      PollFires(View(), now);
      hide Inv, Do, Run, Served;
      if id != 0 {
        RunExpired(now, id);
      } else {
        cpu := Main(Serving);
        HandleEvents(events);
      }
    }

    /** Any number of turns of the main loop. */
    method Serve(rounds: seq<Round>)
      requires Valid() && AtPoll(View()) && AllWaitersLive(View(), rounds)
      modifies this, timers
      ensures Valid() && View() == Rounds(old(View()), rounds)
    {
      var k := 0;
      while k < |rounds|
        invariant 0 <= k <= |rounds|
        invariant Valid() && AtPoll(View()) && AllWaitersLive(View(), rounds[k..])
        invariant Rounds(View(), rounds[k..]) == Rounds(old(View()), rounds)
      {
        RunOnce(rounds[k].now, rounds[k].events);
        ScheduleAll();
        assert rounds[k..][1..] == rounds[k + 1..];
        k := k + 1;
      }
    }
  }

  /** main of test2/main2.cpp from `Init` on: on a new manager `Init` succeeds, and the loop
      then computes `Rounds`. */
  method ServerMain(rounds: seq<Round>) returns (mgr: CoroutineMgr)
    requires AllWaitersLive(Start(), rounds)
    ensures mgr.Valid() && mgr.View() == Rounds(Start(), rounds)
  {
    mgr := new CoroutineMgr();
    var ret := mgr.Init();
    assert ret == IoOk;
    mgr.Serve(rounds);
  }

  /** At the head of the main loop, after any number of turns: every coroutine has followed
      its own program, nothing that ended is left, and every coroutine that is not ready waits,
      with its timer set if and only if no connection with its number has been closed since. */
  lemma MainLoopKeepsOrder(rounds: seq<Round>)
    ensures var s := Rounds(Start(), rounds);
            && AllLiveOwnLives(s)
            && forall j :: j in s.nodes && j != 0 ==>
                 && s.nodes[j].state != Ended
                 && (s.nodes[j].state == Waiting ==> (j in s.expiry <==> !ClosedSinceSleep(s.log, j)))
  {
    var ls := RoundsAreRun(Start(), rounds);
    ExecLives(Start(), ls);
    var s := Rounds(Start(), rounds);
    forall j | j in s.nodes && s.nodes[j].state == Waiting
      ensures j in s.expiry <==> !ClosedSinceSleep(s.log, j)
    {
      TimerIffNotClosed(ls, j);
    }
  }
}
