/** The coroutine system as a value: the table of coroutines, the registers (what
    the processor is executing), the timers and a history of what happened.
    Every operation of lib/eventmgr/CoroutineMgr.{h,cpp} is a function on that
    value; class CoroutineMgr performs the same operations in place.

    `__SwitchCoroutine__(cur, next)` is modelled by its effect on continuations:
    the caller's continuation is saved in `cur` and the one stored in `next` is
    resumed. */
module Machine {
  import opened Options
  import opened OrderedSets

  const WIDTH: nat := 0x1_0000_0000

  /** uint32_t */
  type Id = i: nat | i < WIDTH

  /** What a coroutine body does, one action at a time.  `Sleep` carries the clock
      reading that `WaitAndSchedule` will take, so that a script fixes nothing
      about real time.  `Wake` is a body that looks its target up and calls
      `SetReady` when the target is live and not ended. */
  datatype Action =
    | Sleep(now: nat, ms: nat)
    | Yield
    | Spawn(body: seq<Action>)
    | Wake(target: Id)

  type Body = seq<Action>

  datatype NodeState = Ready | Waiting | Ended

  /** Where the main program is when it is suspended or running: at the start of
      `RunOnce`, serving its events, returning from it, or at the loop head of
      `ScheduleAll` with the iterator `cursor` (`None` is `end()`). */
  datatype MainPoint =
    | Booting
    | Polling
    | Serving
    | Returning
    | InPass(cursor: Option<Id>)

  /** A continuation.  `Fresh` is a context whose registers still point at `Entry`;
      `Suspended(rest)` is inside the callback with `rest` to do; `Finished` is
      behind the last `Schedule()` of `Entry`; `OnCpu` marks the context whose
      saved registers are stale because it is the one running. */
  datatype Cont =
    | Fresh
    | Suspended(rest: Body)
    | Finished
    | Main(at: MainPoint)
    | OnCpu

  datatype Node = Node(state: NodeState, reqId: Id, callback: Body, cont: Cont)

  datatype Event =
    | Created(id: Id)
    | Assigned(id: Id, body: Body)
    | Switched(to: Id)
    | Entered(id: Id, body: Body)
    | Ran(id: Id, action: Action)
    | Woken(waker: Id, target: Id)
    | Exited(id: Id)
    | Destroyed(id: Id)
    | Disconnected(fd: Id)

  /** `log`, `created` (number of calls of `Create`), `dead` (destroyed ids) and `disarmed`
      (ids equal to a descriptor closed since that coroutine last went to sleep) are history:
      no operation reads them. */
  datatype Sys = Sys(
    nodes: map<Id, Node>,
    active: Id,
    staticid: Id,
    expiry: map<Id, nat>,
    cpu: Cont,
    log: seq<Event>,
    created: nat,
    dead: set<Id>,
    disarmed: set<Id>)

  function Emit(s: Sys, e: Event): Sys {
    s.(log := s.log + [e])
  }

  function Put(s: Sys, id: Id, n: Node): Sys {
    s.(nodes := s.nodes[id := n])
  }

  // ---------- ordered traversal of the table ----------

  /** `lower_bound(k)` of the ordered map: `begin()` is `NextKey(nodes, 0)` and
      `++iter` from key i is `NextKey(nodes, i + 1)`. */
  function NextKey(nodes: map<Id, Node>, k: nat): (r: Option<Id>)
    ensures r.None? <==> forall j :: j in nodes ==> j < k
    ensures r.Some? ==> r.value in nodes && k <= r.value
    ensures r.Some? ==> forall j :: j in nodes && k <= j ==> r.value <= j
  {
    var ahead := set j | j in nodes && k <= j;
    if ahead == {} then
      assert forall j :: j in nodes ==> j in ahead || j < k;
      None
    else
      assert forall j :: j in nodes && k <= j ==> j in ahead;
      Some(Min(ahead))
  }

  // ---------- the operations ----------

  function NextId(staticid: Id): Id {
    if staticid + 1 == WIDTH then 0 else staticid + 1
  }

  /** `m_idtonode[++staticid]`: a default-constructed context, or the context
      already stored under that id. */
  function Create(s: Sys): Sys {
    var id := NextId(s.staticid);
    var node := if id in s.nodes then s.nodes[id] else Node(Ready, 0, [], Fresh);
    Emit(Put(s, id, node.(reqId := id)), Created(id))
      .(staticid := id, created := s.created + 1)
  }

  /** The caller of `Create` stores the callback in the new request. */
  function Assign(s: Sys, id: Id, body: Body): Sys
    requires id in s.nodes
  {
    Emit(Put(s, id, s.nodes[id].(callback := body)), Assigned(id, body))
  }

  function NewCoroutine(s: Sys, body: Body): Sys {
    Assign(Create(s), NextId(s.staticid), body)
  }

  /** `__SwitchCoroutine__(cur, next)` called where the continuation is `save`. */
  function SwitchContexts(s: Sys, cur: Id, next: Id, save: Cont): Sys
    requires cur in s.nodes && next in s.nodes
  {
    var saved := s.nodes[cur := s.nodes[cur].(cont := save)];
    s.(nodes := saved[next := saved[next].(cont := OnCpu)], cpu := saved[next].cont)
  }

  function Schedule(s: Sys, next: Id, save: Cont): Sys
    requires s.active in s.nodes && next in s.nodes
  {
    SwitchContexts(Emit(s, Switched(next)).(active := next), s.active, next, save)
  }

  function SetReady(s: Sys, waker: Id, id: Id): Sys
    requires id in s.nodes
  {
    Emit(Put(s, id, s.nodes[id].(state := Ready)), Woken(waker, id)).(expiry := s.expiry - {id})
  }

  predicate CanWake(s: Sys, id: Id) {
    id in s.nodes && s.nodes[id].state != Ended
  }

  function TryWake(s: Sys, waker: Id, id: Id): Sys {
    if CanWake(s, id) then SetReady(s, waker, id) else s
  }

  /** Main wakes whoever is in the table; `Get` is checked for null, the state is not. */
  function Notified(s: Sys, id: Id): Sys {
    if id in s.nodes then SetReady(s, 0, id) else s
  }

  /** `DelFd(fd)` for a connection the other side closed: it removes the expiry registered
      under the number of the descriptor, a table keyed by coroutine ids. */
  function CloseConnection(s: Sys, fd: Id): Sys {
    Emit(s, Disconnected(fd)).(expiry := s.expiry - {fd}, disarmed := s.disarmed + {fd})
  }

  function WaitAndSchedule(s: Sys, now: nat, ms: nat, save: Cont): Sys
    requires s.active in s.nodes && 0 in s.nodes
  {
    var n := s.nodes[s.active];
    Schedule(
      Put(s, s.active, n.(state := Waiting))
        .(expiry := s.expiry[n.reqId := now + ms], disarmed := s.disarmed - {n.reqId}), 0, save)
  }

  function Destroy(s: Sys, id: Id): Sys {
    if id !in s.nodes then s
    else Emit(s, Destroyed(id)).(nodes := s.nodes - {id}, dead := s.dead + {id})
  }

  // ---------- what must hold between any two steps ----------

  ghost predicate Table(s: Sys) {
    && 0 in s.nodes
    && s.active in s.nodes
    && forall k :: k in s.nodes ==> s.nodes[k].reqId == k
  }

  /** Exactly one context is running; every other one holds a continuation, of the
      kind its state calls for. */
  ghost predicate Contexts(s: Sys)
    requires Table(s)
  {
    && (forall k :: k in s.nodes ==> (s.nodes[k].cont.OnCpu? <==> k == s.active))
    && (s.active == 0 <==> s.cpu.Main?)
    && (s.cpu.Main? || s.cpu.Fresh? || s.cpu.Suspended?)
    && (s.active != 0 ==> s.nodes[0].cont.Main?)
    && s.nodes[0].state == Ready
    && s.nodes[s.active].state == Ready
    && (forall k :: k in s.nodes && k != 0 ==>
          && !s.nodes[k].cont.Main?
          && (s.nodes[k].cont.Finished? <==> s.nodes[k].state == Ended)
          && (s.nodes[k].cont.Fresh? ==> s.nodes[k].state == Ready))
  }

  /** Where main is, running or suspended. */
  ghost function MainAt(s: Sys): MainPoint
    requires Table(s) && Contexts(s)
  {
    if s.active == 0 then s.cpu.at else s.nodes[0].cont.at
  }

  /** The iterator of `ScheduleAll` is `end()` or a live key, and a coroutine runs only
      because main dispatched exactly it, from `ScheduleAll` or from `RunOnce`. */
  ghost predicate CursorSafe(s: Sys)
    requires Table(s) && Contexts(s)
  {
    var at := MainAt(s);
    && !at.Booting?
    && (at.InPass? && at.cursor.Some? ==> at.cursor.value in s.nodes)
    && (s.active != 0 ==> at == Returning || at == InPass(Some(s.active)))
  }

  /** An id has a pending expiry exactly when it is live and waiting and no connection with
      its number has been closed since it went to sleep. */
  ghost predicate TimersPending(s: Sys) {
    forall k: Id :: k in s.expiry <==> k in s.nodes && s.nodes[k].state == Waiting && k !in s.disarmed
  }

  /** `ScheduleAll` leaves nothing ended behind its cursor, so that main, outside of it and
      unless it has just run a coroutine, never sees an ended one. */
  ghost predicate Reaped(s: Sys)
    requires Table(s) && Contexts(s)
  {
    var at := MainAt(s);
    forall k :: k in s.nodes && s.nodes[k].state == Ended ==>
      at == Returning || (at.InPass? && at.cursor.Some? && at.cursor.value <= k)
  }

  /** Until the counter has gone round, live and destroyed ids are disjoint and
      together are exactly the ids handed out; from then on every id is one of them. */
  ghost predicate IdsConserved(s: Sys) {
    && (s.created > WIDTH ==> forall k: Id :: k in s.nodes || k in s.dead)
    && s.created >= 1
    && s.staticid == (s.created - 1) % WIDTH
    && (s.created <= WIDTH ==> forall k: Id :: !(k in s.nodes && k in s.dead))
    && (s.created <= WIDTH ==> forall k: Id :: (k in s.nodes || k in s.dead) <==> k < s.created)
  }

  ghost predicate Inv(s: Sys) {
    Table(s) && Contexts(s) && CursorSafe(s) && Reaped(s) && TimersPending(s) && IdsConserved(s)
  }

  // ---------- one step of the running coroutine ----------

  /** `Entry` and the body, up to the next point where the machine state changes. */
  function Step(s: Sys): Sys
    requires Inv(s) && s.active != 0
  {
    var id := s.active;
    match s.cpu
    case Fresh =>
      // Entry: SetActive(*Get(rd->id)), then call rd->m_cb
      var rd := s.nodes[id];
      Emit(s, Entered(rd.reqId, rd.callback)).(active := rd.reqId, cpu := Suspended(rd.callback))
    case Suspended(rest) =>
      if rest == [] then
        // Entry, behind the callback: SetState(E_END), then Schedule()
        Schedule(Emit(Put(s, id, s.nodes[id].(state := Ended)), Exited(id)), 0, Finished)
      else
        var t := Emit(s, Ran(id, rest[0]));
        match rest[0] {
          case Sleep(now, ms) => WaitAndSchedule(t, now, ms, Suspended(rest[1..]))
          case Yield => Schedule(t, 0, Suspended(rest[1..]))
          case Spawn(body) => NewCoroutine(t, body).(cpu := Suspended(rest[1..]))
          case Wake(target) => TryWake(t, id, target).(cpu := Suspended(rest[1..]))
        }
  }

  // ---------- main ----------

  /** The id `CExpireMgr::NextWaitTime` reports: the smallest id of the earliest expiry,
      if that expiry is not in the future. */
  predicate FiresFirst(expiry: map<Id, nat>, now: nat, id: Id) {
    && id in expiry
    && expiry[id] <= now
    && forall j :: j in expiry ==> expiry[id] < expiry[j] || (expiry[id] == expiry[j] && id <= j)
  }

  function ToFire(expiry: map<Id, nat>, now: nat): (r: Option<Id>)
    ensures r.Some? ==> FiresFirst(expiry, now, r.value)
    ensures r.None? ==> forall id :: id in expiry ==> !FiresFirst(expiry, now, id)
  {
    if exists id :: id in expiry && FiresFirst(expiry, now, id) then
      var id :| id in expiry && FiresFirst(expiry, now, id);
      Some(id)
    else None
  }

  function MoveTo(s: Sys, at: MainPoint): Sys {
    s.(cpu := Main(at))
  }

  function Advance(s: Sys, i: Id): Sys {
    MoveTo(s, InPass(NextKey(s.nodes, i + 1)))
  }

  function EnterPass(s: Sys): Sys {
    MoveTo(s, InPass(NextKey(s.nodes, 0)))
  }

  /** One turn of the `ScheduleAll` loop. */
  function PassStep(s: Sys): Sys
    requires Inv(s) && s.active == 0 && s.cpu.at.InPass?
  {
    match s.cpu.at.cursor
    case None => MoveTo(s, Polling)
    case Some(i) =>
      if i == 0 then Advance(s, i)
      else match s.nodes[i].state {
        case Ready => Schedule(s, i, s.cpu)
        case Ended => Destroy(Advance(s, i), s.nodes[i].reqId)
        case Waiting => Advance(s, i)
      }
  }

  /** One step of the whole system.  The environment chooses the label; a label that
      does not apply where the system is changes nothing. */
  datatype Label =
    | Poll(now: nat)
    | Request(body: Body)
    | Wakeup(id: Id)
    | Close(fd: Id)
    | BeginPass
    | Go

  function Do(s: Sys, l: Label): Sys
    requires Inv(s)
  {
    if s.active != 0 then (if l.Go? then Step(s) else s)
    else
      match s.cpu.at
      case Booting => s
      case Polling =>
        if l.Poll? then
          match ToFire(s.expiry, l.now) {
            case None => MoveTo(s, Serving)
            case Some(id) => Schedule(SetReady(s, 0, id), id, Main(Returning))
          }
        else s
      case Serving =>
        (match l
         case Request(body) => NewCoroutine(s, body)
         case Wakeup(id) => Notified(s, id)
         case Close(fd) => CloseConnection(s, fd)
         case BeginPass => EnterPass(s)
         case _ => s)
      case Returning => if l.BeginPass? then EnterPass(s) else s
      case InPass(_) => if l.Go? then PassStep(s) else s
  }

  /** The process at the start of main, and after a successful `Init`. */
  const BOOT: Sys := Sys(map[], 0, WIDTH - 1, map[], Main(Booting), [], 0, {}, {})

  function Init(s: Sys): Sys {
    SwitchContexts(Create(s), NextId(s.staticid), NextId(s.staticid), Main(Polling)).(active := NextId(s.staticid))
  }
}
