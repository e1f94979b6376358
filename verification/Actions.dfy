/** What each action of a coroutine does, and that whoever is created or woken runs. */
module Actions {
  import opened Options
  import opened Machine
  import opened Invariant
  import opened Passes
  import opened Outcome
  import opened Runs

  ghost predicate Doing(s: Sys, a: Action) {
    Inv(s) && s.active != 0 && s.cpu.Suspended? && s.cpu.rest != [] && s.cpu.rest[0] == a
  }

  /** Nobody but i and 0, whose contexts are exchanged, is touched. */
  ghost predicate OthersSame(s: Sys, t: Sys, i: Id) {
    t.nodes.Keys == s.nodes.Keys && forall j :: j in s.nodes && j != i && j != 0 ==> t.nodes[j] == s.nodes[j]
  }

  lemma SleepWaits(s: Sys, now: nat, ms: nat)
    requires Doing(s, Sleep(now, ms))
    ensures var t := Step(s); var i := s.active;
            && t.active == 0 && t.cpu == s.nodes[0].cont && OthersSame(s, t, i)
            && t.nodes[i] == s.nodes[i].(state := Waiting, cont := Suspended(s.cpu.rest[1..]))
            && t.expiry == s.expiry[i := now + ms] && t.created == s.created
  {
    hide CursorSafe, TimersPending, IdsConserved, Reaped;
  }

  lemma YieldReturns(s: Sys)
    requires Doing(s, Yield)
    ensures var t := Step(s); var i := s.active;
            && t.active == 0 && t.cpu == s.nodes[0].cont && OthersSame(s, t, i)
            && t.nodes[i] == s.nodes[i].(cont := Suspended(s.cpu.rest[1..])) && t.nodes[i].state == Ready
            && t.expiry == s.expiry && t.created == s.created
  {
    hide CursorSafe, TimersPending, IdsConserved, Reaped;
  }

  lemma SpawnCreates(s: Sys, body: Body)
    requires Doing(s, Spawn(body)) && s.created < WIDTH
    ensures var t := Step(s); var id := s.created;
            && id !in s.nodes && t.nodes == s.nodes[id := Node(Ready, id, body, Fresh)]
            && t.active == s.active && t.cpu == Suspended(s.cpu.rest[1..])
            && t.expiry == s.expiry && t.created == s.created + 1
  {
    CreateConservesIds(s);
    hide CursorSafe, TimersPending, IdsConserved, Reaped;
  }

  lemma WakeWakes(s: Sys, target: Id)
    requires Doing(s, Wake(target))
    ensures var t := Step(s);
            && t.active == s.active && t.cpu == Suspended(s.cpu.rest[1..]) && t.created == s.created
            && (if target in s.nodes && s.nodes[target].state != Ended then
                  && t.nodes == s.nodes[target := s.nodes[target].(state := Ready)]
                  && t.expiry == s.expiry - {target}
                else t.nodes == s.nodes && t.expiry == s.expiry)
  {
    hide CursorSafe, TimersPending, IdsConserved, Reaped;
  }

  /** Whoever a coroutine creates gets the body given, and is dispatched at the latest by the
      next pass that starts, whatever happens until then. */
  lemma SpawnedRuns(s: Sys, body: Body, ls: seq<Label>)
    requires Doing(s, Spawn(body)) && s.created < WIDTH && Inv(Step(s))
    requires BeforePass(Exec(Step(s), ls)) && Pass(Exec(Step(s), ls)).created <= WIDTH
    ensures var id := s.created;
            && id in Step(s).nodes && Step(s).nodes[id] == Node(Ready, id, body, Fresh)
            && Switched(id) in Since(Step(s), Pass(Exec(Step(s), ls)))
  {
    SpawnCreates(s, body);
    assert 0 in s.nodes && s.active in s.nodes;
    hide Inv, Step, Exec, Pass, Since, BeforePass;
    NoStarvation(Step(s), ls, s.created);
  }

  /** And so is whoever it wakes, unless it wakes itself. */
  lemma WokenRuns(s: Sys, target: Id, ls: seq<Label>)
    requires Doing(s, Wake(target)) && Inv(Step(s))
    requires target in s.nodes && s.nodes[target].state != Ended && target != 0 && target != s.active
    requires BeforePass(Exec(Step(s), ls)) && Pass(Exec(Step(s), ls)).created <= WIDTH
    ensures Switched(target) in Since(Step(s), Pass(Exec(Step(s), ls)))
  {
    WakeWakes(s, target);
    hide Inv, Step, Exec, Pass, Since, BeforePass;
    NoStarvation(Step(s), ls, target);
  }
}
