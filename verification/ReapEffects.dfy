/** What the steps of a task's end do: who becomes whose child, what a wait adds, what a release takes out; and
    that no process is ever left without a parent who can wait for it. */
module ReapEffects {
  import opened Reap
  import opened ReapProof

  /** A new thread is in the caller's group; a new process is its own leader, with the parent it was given. */
  lemma NewTasks(s: State, step: Step)
    requires Enabled(s, step) && (step.CloneThread? || step.Fork?)
    ensures var s', c := Apply(s, step), step.child;
      && c !in s.tasks && s'.tasks.Keys == s.tasks.Keys + {c} && c in s'.work
      && (forall t :: t in s.tasks ==> s'.tasks[t] == s.tasks[t])
      && s'.tasks[c] == Task(if step.Fork? then c else s.tasks[step.a].leader, Running, true) && s'.work[c] == Idle
      && (step.Fork? ==>
            && s'.parent == s.parent[c := step.parent] && c in s'.sum && s'.sum[c] == {}
            && c in s'.csum && s'.csum[c] == {})
      && (step.CloneThread? ==> s'.parent == s.parent && s'.sum == s.sum && s'.csum == s.csum)
      && s'.folded == s.folded
  {
    hide GroupEmpty, MayReap, MayInherit, NoReaders;
  }

  /** exit_notify: every child of a has the reaper as its parent and no other parent changes; a is a zombie, or
      dead if it is on the list, as are the others on it; nobody else is touched. The reaper is a thread of a's
      group as long as one runs, and then none of the children is declared dead. */
  lemma ExitReparents(s: State, a: Tid, reaper: Tid, dead: seq<Tid>)
    requires Enabled(s, ExitNotify(a, reaper, dead))
    ensures var s' := Apply(s, ExitNotify(a, reaper, dead));
      && (forall u :: SameGroup(s.tasks, a, u) && s.tasks[u].life == Running ==> SameGroup(s.tasks, a, reaper))
      && (forall p :: p in dead && p != a ==> p in s.parent && s.parent[p] == a && !SameGroup(s.tasks, a, reaper))
      && s'.parent.Keys == s.parent.Keys
      && (forall p :: p in s.parent ==> s'.parent[p] == if s.parent[p] == a then reaper else s.parent[p])
      && s'.tasks.Keys == s.tasks.Keys
      && (forall t :: t in s.tasks ==>
            s'.tasks[t] == s.tasks[t].(life := if t in dead then Dead else if t == a then Zombie else s.tasks[t].life))
      && a in s'.work && s'.work[a].Pending() == dead
      && (forall t :: t in s.work && t != a ==> t in s'.work && s'.work[t] == s.work[t])
      && s'.sum == s.sum && s'.csum == s.csum && s'.folded == s.folded
  {
    hide GroupEmpty, NoReaders;
  }

  /** Only a running thread of the parent's group looks at a child, and only at a zombie without threads. */
  lemma ParentLooks(s: State, a: Tid, p: Tid)
    requires Enabled(s, See(a, p))
    ensures p in s.parent && SameGroup(s.tasks, a, s.parent[p]) && s.tasks[a].life == Running
    ensures s.tasks[p].leader == p && s.tasks[p].life == Zombie
    ensures forall u :: u in s.tasks && s.tasks[u].leader == p && s.tasks[u].linked ==> u == p
    ensures Apply(s, See(a, p)) == s.(work := s.work[a := Looking(p)])
  {
  }

  /** A task that begins its exit only changes that. */
  lemma BeginsExit(s: State, a: Tid)
    requires Enabled(s, BeginExit(a))
    ensures Apply(s, BeginExit(a)) == s.(tasks := s.tasks[a := s.tasks[a].(life := Exiting)])
  {
  }

  /** Of the waiters that have seen a zombie the first to claim it makes it dead and has it to reap; whoever
      comes later goes away with nothing. */
  lemma Claims(s: State, a: Tid)
    requires Inv(s) && Enabled(s, Claim(a))
    ensures s.work[a].p in s.tasks
    ensures var s', p := Apply(s, Claim(a)), s.work[a].p;
      && a in s'.work && p in s'.tasks && s'.tasks[p].life == Dead
      && s'.work[a] == (if s.tasks[p].life == Zombie then Claimed(p) else Idle)
      && (forall t :: t in s.tasks && t != p ==> t in s'.tasks && s'.tasks[t] == s.tasks[t])
      && s'.parent == s.parent && s'.sum == s.sum && s'.csum == s.csum && s'.folded == s.folded
  {
    hide GroupEmpty, PendingOk, PendingOnce, NoneForgotten, SumsOk, FoldsOk, TasksOk, ClaimsOk, Shape, MayReap,
         MayInherit, NoReaders;
    LookedAt(s, a);
  }

  /** A wait adds to its caller's group every thread of the child's group and what that group had been given,
      and to no other. */
  lemma FoldAdds(s: State, a: Tid)
    requires Inv(s) && a in s.tasks && a in s.work && s.work[a].Claimed?
    ensures var s', p, q := Apply(s, Fold(a)), s.work[a].p, s.tasks[a].leader;
      && p in s.csum && q in s.csum && q in s'.csum
      && (forall w :: w in s'.csum[q] <==>
            w in s.csum[q] || w in s.csum[p] || (w in s.tasks && s.tasks[w].leader == p))
      && (forall g :: g in s.csum && g != q ==> g in s'.csum && s'.csum[g] == s.csum[g])
      && s'.tasks == s.tasks && s'.parent == s.parent && s'.sum == s.sum && s'.folded == s.folded + {p}
  {
    hide GroupEmpty, PendingOk, PendingOnce, NoneForgotten, WaitersOk, SumsOk, FoldsOk, TasksOk, ClaimsOk, Shape;
    ShareIs(s, a);
  }

  /** The last thread to go takes on a zombie leader for which nobody waits. */
  ghost predicate TakesLeader(s: State, p: Tid, notify: bool) {
    && p in s.tasks && notify && s.tasks[p].leader != p
    && s.tasks[p].leader in s.tasks && s.tasks[s.tasks[p].leader].life == Zombie
    && forall u :: u in s.tasks && s.tasks[u].leader == s.tasks[p].leader && s.tasks[u].linked ==>
         u == s.tasks[p].leader || u == p
  }

  lemma ZapIs(s: State, p: Tid, notify: bool)
    requires p in s.tasks
    ensures Zap(Unlink(s.tasks, p), p, notify) <==> TakesLeader(s, p, notify)
  {
    var now := Unlink(s.tasks, p);
    assert now[p].leader == s.tasks[p].leader;
    forall u | u in s.tasks
      ensures u in now && now[u].leader == s.tasks[u].leader && now[u].linked == (s.tasks[u].linked && u != p)
    {
    }
    if Zap(now, p, notify) {
      var l := s.tasks[p].leader;
      forall u | u in s.tasks && s.tasks[u].leader == l && s.tasks[u].linked ensures u == l || u == p {
        assert u != p ==> now[u].linked;
      }
    }
  }

  /** A turn of release_task takes the first task of the list out of its group and adds its counters to the
      group's. */
  lemma ReleaseTakesOut(s: State, a: Tid, notify: bool)
    requires Inv(s) && a in s.tasks && a in s.work && s.work[a].Releasing? && s.work[a].list != []
    ensures s.work[a].list[0] in s.tasks && s.tasks[s.work[a].list[0]].life == Dead
    ensures var s', p, rest := Apply(s, Release(a, notify)), s.work[a].list[0], s.work[a].list[1..];
      var l, zap := s.tasks[p].leader, TakesLeader(s, p, notify);
      && s'.tasks.Keys == s.tasks.Keys && l in s'.sum && p in s'.sum[l]
      && s'.tasks[p] == s.tasks[p].(linked := false)
      && (forall t :: t in s.tasks && t != p ==>
            s'.tasks[t] == if zap && t == l then s.tasks[t].(life := Dead) else s.tasks[t])
      && a in s'.work && s'.work[a].Pending() == (if zap then [l] + rest else rest)
      && s'.parent == s.parent && s'.csum == s.csum && s'.folded == s.folded
  {
    hide TasksOk, PendingOnce, NoneForgotten, WaitersOk, SumsOk, FoldsOk, ClaimsOk, Shape, TakesLeader, Zap;
    FirstIsPending(s, a);
    ZapIs(s, s.work[a].list[0], notify);
  }

  // ---- Nobody is left without a parent ----

  lemma LivesKeepParents(before: Tasks, now: Tasks, parent: map<Tid, Tid>)
    requires ParentsOk(before, parent) && before.Keys == now.Keys
    requires forall t :: t in before ==> now[t].leader == before[t].leader
    requires forall t :: t in before && before[t].life == Dead ==> now[t].life == Dead
    requires forall t :: t in before && before[t].life in {Running, Exiting} ==> now[t].life in {Running, Exiting}
    ensures ParentsOk(now, parent)
  {
    forall l | l in now && now[l].leader == l && now[l].life != Dead ensures HasParent(now, parent, l) {
      assert HasParent(before, parent, l);
    }
  }

  lemma NewTaskKeepsParents(s: State, step: Step)
    requires Inv(s) && ParentsOk(s.tasks, s.parent) && Enabled(s, step) && (step.CloneThread? || step.Fork?)
    ensures ParentsOk(Apply(s, step).tasks, Apply(s, step).parent)
  {
    hide PendingOk, PendingOnce, NoneForgotten, WaitersOk, SumsOk, FoldsOk, ClaimsOk, GroupEmpty, MayReap,
         MayInherit, NoReaders;
    var s', a := Apply(s, step), step.a;
    NewTasks(s, step);
    CloneTasks(s.tasks, a, step.child);
    assert HasParent(s.tasks, s.parent, s.tasks[a].leader);
    hide Apply, Enabled, TasksOk;
    forall l | l in s'.tasks && s'.tasks[l].leader == l && s'.tasks[l].life != Dead
      ensures HasParent(s'.tasks, s'.parent, l)
    {
      assert l != step.child ==> HasParent(s.tasks, s.parent, l);
    }
  }

  lemma ExitKeepsParents(s: State, a: Tid, reaper: Tid, dead: seq<Tid>)
    requires ParentsOk(s.tasks, s.parent) && Enabled(s, ExitNotify(a, reaper, dead))
    ensures var s' := Apply(s, ExitNotify(a, reaper, dead)); ParentsOk(s'.tasks, s'.parent)
  {
    hide GroupEmpty, NoReaders;
    var s' := Apply(s, ExitNotify(a, reaper, dead));
    ExitReparents(s, a, reaper, dead);
    assert reaper != a && reaper !in dead;
    assert forall p :: p in dead && p != a ==> s.tasks[p].life == Zombie;
    hide Apply, Enabled;
    forall l | l in s'.tasks && s'.tasks[l].leader == l && s'.tasks[l].life != Dead
      ensures HasParent(s'.tasks, s'.parent, l)
    {
      assert HasParent(s.tasks, s.parent, l);
    }
  }

  lemma BeginExitKeepsParents(s: State, a: Tid)
    requires ParentsOk(s.tasks, s.parent) && Enabled(s, BeginExit(a))
    ensures ParentsOk(Apply(s, BeginExit(a)).tasks, Apply(s, BeginExit(a)).parent)
  {
    hide ParentsOk;
    LivesKeepParents(s.tasks, Apply(s, BeginExit(a)).tasks, s.parent);
  }

  lemma ClaimKeepsParents(s: State, a: Tid)
    requires Inv(s) && ParentsOk(s.tasks, s.parent) && Enabled(s, Claim(a))
    ensures ParentsOk(Apply(s, Claim(a)).tasks, Apply(s, Claim(a)).parent)
  {
    hide Inv, ParentsOk, GroupEmpty, MayReap, MayInherit, NoReaders;
    Claims(s, a);
    LookedAt(s, a);
    LivesKeepParents(s.tasks, Apply(s, Claim(a)).tasks, s.parent);
  }

  lemma ReleaseKeepsParents(s: State, a: Tid, notify: bool)
    requires Inv(s) && ParentsOk(s.tasks, s.parent) && Enabled(s, Release(a, notify))
    ensures ParentsOk(Apply(s, Release(a, notify)).tasks, Apply(s, Release(a, notify)).parent)
  {
    hide Inv, ParentsOk, GroupEmpty, MayReap, MayInherit, NoReaders, Apply;
    ReleaseTakesOut(s, a, notify);
    LivesKeepParents(s.tasks, Apply(s, Release(a, notify)).tasks, s.parent);
  }

  lemma SameTasks(s: State, step: Step)
    requires Enabled(s, step) && (step.See? || step.Fold?)
    ensures Apply(s, step).tasks == s.tasks && Apply(s, step).parent == s.parent
  {
    hide GroupEmpty;
  }

  lemma StepKeepsParents(s: State, step: Step)
    requires Inv(s) && ParentsOk(s.tasks, s.parent) && Enabled(s, step)
    ensures ParentsOk(Apply(s, step).tasks, Apply(s, step).parent)
  {
    hide Inv, Apply, Enabled, ParentsOk;
    match step
    case CloneThread(_, _) => NewTaskKeepsParents(s, step);
    case Fork(_, _, _) => NewTaskKeepsParents(s, step);
    case ExitNotify(a, reaper, dead) => ExitKeepsParents(s, a, reaper, dead);
    case BeginExit(a) => BeginExitKeepsParents(s, a);
    case See(_, _) => SameTasks(s, step);
    case Fold(_) => SameTasks(s, step);
    case Claim(a) => ClaimKeepsParents(s, a);
    case Release(a, notify) => ReleaseKeepsParents(s, a, notify);
  }

  lemma {:induction false} RunKeepsParents(states: seq<State>, steps: seq<Step>, n: nat)
    requires Run(states, steps) && Initial(states[0]) && n <= |steps|
    ensures ParentsOk(states[n].tasks, states[n].parent)
  {
    hide Inv, Apply, Enabled, ParentsOk, Shape;
    if n > 0 {
      RunKeepsParents(states, steps, n - 1);
      RunKeepsInv(states, steps, n - 1);
      assert Next(states[n - 1], steps[n - 1], states[n]);
      StepKeepsParents(states[n - 1], steps[n - 1]);
    }
  }

  /** At every point of every run a zombie process without threads has a parent that is not at the end of its
      exit. If that is not exiting it may reap the zombie as soon as it is free to wait; if it is, its own
      exit_notify hands the zombie on to one that is. */
  lemma ZombieCanBeReaped(states: seq<State>, steps: seq<Step>, n: nat, p: Tid)
    requires Run(states, steps) && Initial(states[0]) && n <= |steps|
    requires p in states[n].tasks && states[n].tasks[p].leader == p && states[n].tasks[p].life == Zombie
    requires GroupEmpty(states[n].tasks, p)
    ensures var s := states[n];
      && p in s.parent && s.parent[p] in s.tasks && s.parent[p] in s.work
      && (s.tasks[s.parent[p]].life == Running || s.tasks[s.parent[p]].life == Exiting)
      && (forall a :: SameGroup(s.tasks, a, s.parent[p]) && a in s.work ==>
            s.tasks[a].life == Running && s.work[a] == Idle ==> Enabled(s, See(a, p)))
      && (forall reaper, dead :: Enabled(s, ExitNotify(s.parent[p], reaper, dead)) && p !in dead ==>
            var s' := Apply(s, ExitNotify(s.parent[p], reaper, dead));
            p in s'.parent && s'.parent[p] == reaper && p in s'.tasks && s'.tasks[p] == s.tasks[p])
  {
    hide Inv, Initial, GroupEmpty, MayReap, MayInherit, NoReaders;
    RunKeepsParents(states, steps, n);
    RunKeepsInv(states, steps, n);
    var s := states[n];
    assert HasParent(s.tasks, s.parent, p);
    WorkHasAll(s);
    forall reaper, dead | Enabled(s, ExitNotify(s.parent[p], reaper, dead)) && p !in dead
      ensures var s' := Apply(s, ExitNotify(s.parent[p], reaper, dead));
        p in s'.parent && s'.parent[p] == reaper && p in s'.tasks && s'.tasks[p] == s.tasks[p]
    {
      ExitReparents(s, s.parent[p], reaper, dead);
    }
  }

  lemma WorkHasAll(s: State)
    requires Inv(s)
    ensures s.work.Keys == s.tasks.Keys
  {
  }

  /** Nothing but a waiter in the middle of its search holds up a task: it may begin to exit, go through with it,
      clone and fork; a waiter claims what it has seen, folds what it has claimed, and releases it. */
  lemma TasksCanGoOn(s: State, a: Tid, reaper: Tid, child: Tid, notify: bool)
    requires a in s.tasks && a in s.work && child !in s.tasks
    ensures var life, work := s.tasks[a].life, s.work[a];
      && (life == Running && work == Idle ==> Enabled(s, BeginExit(a)))
      && (work.Looking? ==> Enabled(s, Claim(a))) && (work.Claimed? ==> Enabled(s, Fold(a)))
      && (NoReaders(s.work) ==>
            && (life == Running && work == Idle ==> Enabled(s, CloneThread(a, child)) && Enabled(s, Fork(a, child, a)))
            && (work.Releasing? && work.list != [] ==> Enabled(s, Release(a, notify)))
            && (life == Exiting && work == Idle && MayInherit(s, a, reaper) ==>
                  Enabled(s, ExitNotify(a, reaper, if s.tasks[a].leader == a then [] else [a]))))
  {
    hide NoReaders, MayInherit, GroupEmpty;
  }
}
