/** Every step of every task keeps the invariant of Reap, and what follows for whole runs. */
module ReapProof {
  import opened Reap

  // ---- Tasks ----

  lemma SetLifeTasks(tasks: Tasks, t: Tid, life: Life)
    requires TasksOk(tasks) && t in tasks && tasks[t].life != Dead && life != Dead
    ensures TasksOk(SetLife(tasks, t, life))
    ensures forall l :: GroupEmpty(SetLife(tasks, t, life), l) == GroupEmpty(tasks, l)
  {
    SameGroups(tasks, SetLife(tasks, t, life));
  }

  /** Who is in which group does not depend on anybody's exit state. */
  lemma SameGroups(before: Tasks, now: Tasks)
    requires before.Keys == now.Keys
    requires forall t :: t in before ==> now[t].leader == before[t].leader && now[t].linked == before[t].linked
    ensures forall l :: GroupEmpty(now, l) == GroupEmpty(before, l)
  {
  }

  lemma KillGroups(tasks: Tasks, dead: set<Tid>)
    ensures forall l :: GroupEmpty(Kill(tasks, dead), l) == GroupEmpty(tasks, l)
  {
    SameGroups(tasks, Kill(tasks, dead));
  }

  lemma KillTasks(tasks: Tasks, dead: set<Tid>)
    requires TasksOk(tasks)
    requires forall p :: p in dead && p in tasks ==> tasks[p].linked && (tasks[p].leader == p ==> GroupEmpty(tasks, p))
    ensures TasksOk(Kill(tasks, dead))
  {
    hide GroupEmpty;
    KillGroups(tasks, dead);
  }

  lemma UnlinkTasks(tasks: Tasks, p: Tid)
    requires TasksOk(tasks) && p in tasks && tasks[p].life == Dead
    ensures TasksOk(Unlink(tasks, p))
    ensures forall l :: GroupEmpty(tasks, l) ==> GroupEmpty(Unlink(tasks, p), l)
  {
  }

  lemma CloneTasks(tasks: Tasks, a: Tid, child: Tid)
    requires TasksOk(tasks) && a in tasks && tasks[a].life == Running && child !in tasks
    ensures TasksOk(tasks[child := Task(tasks[a].leader, Running, true)])
    ensures tasks[a].leader in tasks && tasks[tasks[a].leader].life != Dead
  {
    var l := tasks[a].leader;
    assert tasks[a].linked;
    assert tasks[l].life != Dead;
  }

  lemma ForkTasks(tasks: Tasks, child: Tid)
    requires TasksOk(tasks) && child !in tasks
    ensures TasksOk(tasks[child := Task(child, Running, true)])
  {
  }

  // ---- Pending releases ----

  /** Dead tasks stay dead; only the one being released is unlinked. */
  lemma PendingAfter(before: Tasks, now: Tasks, work: map<Tid, Work>)
    requires PendingOk(before, work)
    requires forall p :: IsPending(before, p) ==> IsPending(now, p)
    ensures PendingOk(now, work)
  {
    hide IsPending;
  }

  lemma PendingSet(tasks: Tasks, work: map<Tid, Work>, a: Tid, w: Work)
    requires PendingOk(tasks, work) && forall i :: 0 <= i < |w.Pending()| ==> IsPending(tasks, w.Pending()[i])
    ensures PendingOk(tasks, work[a := w])
  {
    hide IsPending;
  }

  lemma OnceSet(work: map<Tid, Work>, a: Tid, w: Work)
    requires PendingOnce(work) && NoDuplicates(w.Pending())
    requires forall b, p :: b in work && b != a && p in w.Pending() ==> p !in work[b].Pending()
    ensures PendingOnce(work[a := w])
  {
    hide NoDuplicates;
  }

  lemma OnceSame(work: map<Tid, Work>, a: Tid, w: Work)
    requires PendingOnce(work) && a in work && w.Pending() == work[a].Pending()
    ensures PendingOnce(work[a := w])
  {
    hide NoDuplicates, Work.Pending;
  }

  lemma ForgottenSet(before: Tasks, now: Tasks, work: map<Tid, Work>, a: Tid, w: Work)
    requires NoneForgotten(before, work)
    requires forall p :: IsPending(now, p) && !IsPending(before, p) ==> p in w.Pending()
    requires forall p :: a in work && p in work[a].Pending() && IsPending(now, p) ==> p in w.Pending()
    ensures NoneForgotten(now, work[a := w])
  {
    hide IsPending;
    var work' := work[a := w];
    forall p | IsPending(now, p) ensures Covered(work', p) {
      if p in w.Pending() {
        assert a in work' && p in work'[a].Pending();
      } else {
        assert IsPending(before, p) && Covered(work, p);
        var b :| b in work && p in work[b].Pending();
        assert b in work' && p in work'[b].Pending();
      }
    }
  }

  // ---- Waiters ----

  lemma WaitersSet(tasks: Tasks, work: map<Tid, Work>, a: Tid, w: Work)
    requires WaitersOk(tasks, work) && ((w.Looking? || w.Claimed?) ==> WaiterOk(tasks, a, w.p))
    ensures WaitersOk(tasks, work[a := w])
  {
    hide WaiterOk;
  }

  // ---- Steps that change only lives ----

  /** Only exit states have changed, and no dead task has come back. */
  ghost predicate Ages(before: Tasks, now: Tasks) {
    && before.Keys == now.Keys
    && forall t :: t in before ==>
         && now[t].leader == before[t].leader && now[t].linked == before[t].linked
         && (before[t].life == Dead ==> now[t].life == Dead)
  }

  lemma AgesBooks(before: Tasks, now: Tasks, sum: map<Tid, set<Tid>>, csum: map<Tid, set<Tid>>, folded: set<Tid>)
    requires Ages(before, now) && SumsOk(before, sum) && FoldsOk(before, csum, folded)
    ensures SumsOk(now, sum) && FoldsOk(now, csum, folded)
  {
  }

  lemma AgesShape(s: State, now: Tasks, parent: map<Tid, Tid>, work: map<Tid, Work>)
    requires Ages(s.tasks, now) && Shape(s) && parent.Keys == s.parent.Keys && work.Keys == s.work.Keys
    ensures Shape(s.(tasks := now, parent := parent, work := work))
  {
  }

  lemma AgesPending(before: Tasks, now: Tasks, work: map<Tid, Work>)
    requires Ages(before, now) && PendingOk(before, work)
    ensures PendingOk(now, work)
  {
    PendingAfter(before, now, work);
  }

  /** A state that differs only in its tasks and its work. */
  lemma LivesKeep(s: State, now: Tasks, work: map<Tid, Work>)
    requires Inv(s) && Ages(s.tasks, now) && work.Keys == s.work.Keys
    requires TasksOk(now) && PendingOk(now, work) && PendingOnce(work)
    requires NoneForgotten(now, work) && WaitersOk(now, work)
    requires ClaimsOk(work, s.folded)
    ensures Inv(s.(tasks := now, work := work))
  {
    hide TasksOk, PendingOk, PendingOnce, NoneForgotten, WaitersOk, ClaimsOk, Ages, Shape, SumsOk, FoldsOk;
    AgesBooks(s.tasks, now, s.sum, s.csum, s.folded);
    AgesShape(s, now, s.parent, work);
  }

  lemma SetLifeWaiters(tasks: Tasks, work: map<Tid, Work>, a: Tid, life: Life)
    requires WaitersOk(tasks, work) && a in tasks && a in work && work[a] == Idle && tasks[a].life in {Running, Exiting}
    ensures WaitersOk(SetLife(tasks, a, life), work)
  {
    SameGroups(tasks, SetLife(tasks, a, life));
    hide GroupEmpty;
  }

  lemma BeginExitKeeps(s: State, a: Tid)
    requires Inv(s) && a in s.tasks && a in s.work && s.tasks[a].life == Running && s.work[a] == Idle
    ensures Inv(s.(tasks := SetLife(s.tasks, a, Exiting)))
  {
    hide GroupEmpty, TasksOk, PendingOk, PendingOnce, NoneForgotten, WaitersOk, ClaimsOk, SumsOk, FoldsOk, Shape;
    var tasks := SetLife(s.tasks, a, Exiting);
    SetLifeTasks(s.tasks, a, Exiting);
    AgesPending(s.tasks, tasks, s.work);
    ForgottenSet(s.tasks, tasks, s.work, a, s.work[a]);
    assert s.work[a := s.work[a]] == s.work;
    SetLifeWaiters(s.tasks, s.work, a, Exiting);
    LivesKeep(s, tasks, s.work);
  }

  /** A new task has nothing to release. */
  lemma NewTaskWork(before: Tasks, work: map<Tid, Work>, l: Tid, child: Tid)
    requires PendingOk(before, work) && PendingOnce(work)
    requires NoneForgotten(before, work) && child !in work && child !in before
    ensures var now, work' := before[child := Task(l, Running, true)], work[child := Idle];
      PendingOk(now, work') && PendingOnce(work') && NoneForgotten(now, work')
  {
    hide PendingOk, PendingOnce, NoneForgotten;
    var now := before[child := Task(l, Running, true)];
    assert forall p :: IsPending(now, p) <==> IsPending(before, p);
    PendingAfter(before, now, work);
    PendingSet(now, work, child, Idle);
    OnceSet(work, child, Idle);
    ForgottenSet(before, now, work, child, Idle);
  }

  lemma CloneKeeps(s: State, a: Tid, child: Tid)
    requires Inv(s) && a in s.tasks && s.tasks[a].life == Running && child !in s.tasks && NoReaders(s.work)
    ensures Inv(CloneNow(s, s.tasks[a].leader, child))
  {
    hide IsPending, Work.Pending, GroupEmpty, TasksOk, PendingOk, PendingOnce, NoneForgotten, WaitersOk, SumsOk,
         FoldsOk, ClaimsOk, NoReaders, Shape;
    var l := s.tasks[a].leader;
    var tasks := s.tasks[child := Task(l, Running, true)];
    CloneTasks(s.tasks, a, child);
    CloneShape(s, a, child);
    NewTaskWork(s.tasks, s.work, l, child);
    ClonePendingWaiters(s, l, child);
    WaitersSet(tasks, s.work, child, Idle);
    CloneBooks(s, l, child);
    NoClaim(s.work, s.folded, child, Idle);
  }

  lemma CloneShape(s: State, a: Tid, child: Tid)
    requires Shape(s) && a in s.tasks && child !in s.tasks
    ensures child !in s.work && Shape(CloneNow(s, s.tasks[a].leader, child))
  {
  }

  lemma ForkShape(s: State, child: Tid, parent: Tid)
    requires Shape(s) && child !in s.tasks
    ensures child !in s.work && Shape(ForkNow(s, child, parent))
  {
  }

  lemma CloneBooks(s: State, l: Tid, child: Tid)
    requires SumsOk(s.tasks, s.sum) && FoldsOk(s.tasks, s.csum, s.folded) && child !in s.tasks
    ensures SumsOk(s.tasks[child := Task(l, Running, true)], s.sum)
    ensures FoldsOk(s.tasks[child := Task(l, Running, true)], s.csum, s.folded)
  {
  }

  lemma ClonePendingWaiters(s: State, l: Tid, child: Tid)
    requires PendingOk(s.tasks, s.work) && WaitersOk(s.tasks, s.work) && NoReaders(s.work)
    requires child !in s.tasks && l in s.tasks && s.tasks[l].life != Dead
    ensures WaitersOk(s.tasks[child := Task(l, Running, true)], s.work)
  {
    forall b | b in s.work && s.work[b].Claimed? ensures s.work[b].p != l {
      assert IsPending(s.tasks, s.work[b].Pending()[0]);
    }
  }

  lemma ForkKeeps(s: State, child: Tid, parent: Tid)
    requires Inv(s) && child !in s.tasks
    ensures Inv(ForkNow(s, child, parent))
  {
    hide IsPending, Work.Pending, GroupEmpty, TasksOk, PendingOk, PendingOnce, NoneForgotten, WaitersOk, SumsOk,
         FoldsOk, ClaimsOk, Shape;
    var tasks := s.tasks[child := Task(child, Running, true)];
    ForkTasks(s.tasks, child);
    ForkShape(s, child, parent);
    NewTaskWork(s.tasks, s.work, child, child);
    ForkWaiters(s.tasks, s.work, child);
    WaitersSet(tasks, s.work, child, Idle);
    ForkBooks(s, child);
    NoClaim(s.work, s.folded, child, Idle);
  }

  lemma ForkWaiters(tasks: Tasks, work: map<Tid, Work>, child: Tid)
    requires WaitersOk(tasks, work) && child !in tasks
    ensures WaitersOk(tasks[child := Task(child, Running, true)], work)
  {
  }

  lemma ForkBooks(s: State, child: Tid)
    requires Shape(s) && TasksOk(s.tasks) && SumsOk(s.tasks, s.sum)
    requires FoldsOk(s.tasks, s.csum, s.folded) && child !in s.tasks
    ensures SumsOk(s.tasks[child := Task(child, Running, true)], s.sum[child := {}])
    ensures FoldsOk(s.tasks[child := Task(child, Running, true)], s.csum[child := {}], s.folded)
  {
  }

  lemma SeeKeeps(s: State, a: Tid, p: Tid)
    requires Inv(s) && a in s.work && s.work[a] == Idle && WaiterOk(s.tasks, a, p)
    ensures Inv(s.(work := s.work[a := Looking(p)]))
  {
    hide IsPending, GroupEmpty, TasksOk, PendingOk, PendingOnce, NoneForgotten, WaitersOk, SumsOk, FoldsOk, ClaimsOk,
         WaiterOk, Shape;
    PendingSet(s.tasks, s.work, a, Looking(p));
    OnceSet(s.work, a, Looking(p));
    ForgottenSet(s.tasks, s.tasks, s.work, a, Looking(p));
    WaitersSet(s.tasks, s.work, a, Looking(p));
    NoClaim(s.work, s.folded, a, Looking(p));
    AgesShape(s, s.tasks, s.parent, s.work[a := Looking(p)]);
  }

  // ---- Exits, claims and releases ----

  lemma KillWaiters(tasks: Tasks, work: map<Tid, Work>, dead: set<Tid>)
    requires WaitersOk(tasks, work)
    requires forall p :: p in dead && p in tasks ==> tasks[p].life == Zombie
    ensures WaitersOk(Kill(tasks, dead), work)
  {
    KillGroups(tasks, dead);
    hide GroupEmpty;
  }

  lemma KillAges(tasks: Tasks, dead: set<Tid>)
    ensures Ages(tasks, Kill(tasks, dead))
  {
  }

  lemma ClaimKeeps(s: State, a: Tid)
    requires Inv(s) && a in s.work && s.work[a].Looking?
    ensures Inv(ClaimNow(s, a))
  {
    hide GroupEmpty, PendingOk, PendingOnce, NoneForgotten, WaitersOk, SumsOk, FoldsOk, TasksOk, ClaimsOk, Shape;
    var p := s.work[a].p;
    LookedAt(s, a);
    if s.tasks[p].life == Zombie {
      var tasks := Kill(s.tasks, {p});
      KillTasks(s.tasks, {p});
      KillAges(s.tasks, {p});
      KillWaiters(s.tasks, s.work, {p});
      KillGroups(s.tasks, {p});
      WaitersSet(tasks, s.work, a, Claimed(p));
      AgesPending(s.tasks, tasks, s.work);
      PendingSet(tasks, s.work, a, Claimed(p));
      NotPendingYet(s, p);
      OnceSet(s.work, a, Claimed(p));
      ForgottenSet(s.tasks, tasks, s.work, a, Claimed(p));
      ClaimIsFirst(s, a, p);
      LivesKeep(s, tasks, s.work[a := Claimed(p)]);
    } else {
      IdleKeeps(s, a);
    }
  }

  lemma IdleKeeps(s: State, a: Tid)
    requires Inv(s) && a in s.work && s.work[a].Looking?
    ensures Inv(s.(work := s.work[a := Idle]))
  {
    hide GroupEmpty, TasksOk, PendingOk, PendingOnce, NoneForgotten, WaitersOk, SumsOk, FoldsOk, IsPending;
    PendingSet(s.tasks, s.work, a, Idle);
    OnceSet(s.work, a, Idle);
    ForgottenSet(s.tasks, s.tasks, s.work, a, Idle);
    WaitersSet(s.tasks, s.work, a, Idle);
  }

  lemma LookedAt(s: State, a: Tid)
    requires Inv(s) && a in s.work && (s.work[a].Looking? || s.work[a].Claimed?)
    ensures WaiterOk(s.tasks, a, s.work[a].p)
    ensures s.tasks[s.work[a].p].life == Zombie ==> s.tasks[s.work[a].p].linked
  {
  }

  /** A task that is not dead is on nobody's list. */
  lemma NotPendingYet(s: State, p: Tid)
    requires PendingOk(s.tasks, s.work) && p in s.tasks && s.tasks[p].life != Dead
    ensures forall b :: b in s.work ==> p !in s.work[b].Pending()
  {
  }

  lemma ClaimIsFirst(s: State, a: Tid, p: Tid)
    requires ClaimsOk(s.work, s.folded) && FoldsOk(s.tasks, s.csum, s.folded) && p in s.tasks && s.tasks[p].life != Dead
    ensures ClaimsOk(s.work[a := Claimed(p)], s.folded)
  {
  }

  lemma ExitKeeps(s: State, a: Tid, reaper: Tid, dead: seq<Tid>)
    requires Inv(s) && a in s.tasks && a in s.work && s.tasks[a].life == Exiting && s.work[a] == Idle
    requires MayReap(s, a, reaper, dead)
    ensures Inv(ExitNow(s, a, reaper, dead))
  {
    hide GroupEmpty, PendingOk, PendingOnce, NoneForgotten, WaitersOk, SumsOk, FoldsOk, TasksOk, ClaimsOk, Shape,
         MayReap;
    var zombie := SetLife(s.tasks, a, Zombie);
    var tasks := Kill(zombie, SetOf(dead));
    var w := WorkOn(dead);
    SetLifeTasks(s.tasks, a, Zombie);
    DeadAreZombies(s, a, reaper, dead);
    KillTasks(zombie, SetOf(dead));
    KillAges(zombie, SetOf(dead));
    assert Ages(s.tasks, tasks);
    SetLifeWaiters(s.tasks, s.work, a, Zombie);
    KillWaiters(zombie, s.work, SetOf(dead));
    WaitersSet(tasks, s.work, a, w);
    ExitWork(s, a, reaper, dead);
    NoClaim(s.work, s.folded, a, w);
    LivesKeep(s, tasks, s.work[a := w]);
    var parent := map p | p in s.parent :: if s.parent[p] == a then reaper else s.parent[p];
    ParentsKeep(s.(tasks := tasks, work := s.work[a := w]), parent);
  }

  /** Who dies in exit_notify was on nobody's list and is now on the exiting task's. */
  lemma ExitWork(s: State, a: Tid, reaper: Tid, dead: seq<Tid>)
    requires TasksOk(s.tasks) && PendingOk(s.tasks, s.work) && PendingOnce(s.work) && NoneForgotten(s.tasks, s.work)
    requires a in s.tasks && a in s.work && s.tasks[a].life == Exiting
    requires s.work[a] == Idle && MayReap(s, a, reaper, dead)
    ensures var tasks, work := Kill(SetLife(s.tasks, a, Zombie), SetOf(dead)), s.work[a := WorkOn(dead)];
      PendingOk(tasks, work) && PendingOnce(work) && NoneForgotten(tasks, work)
  {
    hide GroupEmpty, PendingOk, PendingOnce, NoneForgotten, TasksOk;
    var tasks := Kill(SetLife(s.tasks, a, Zombie), SetOf(dead));
    var w := WorkOn(dead);
    assert w.Pending() == dead;
    DeadAreZombies(s, a, reaper, dead);
    AgesPending(s.tasks, tasks, s.work);
    PendingSet(tasks, s.work, a, w);
    NewlyDead(s, a, dead);
    OnceSet(s.work, a, w);
    ForgottenSet(s.tasks, tasks, s.work, a, w);
  }

  lemma NoClaim(work: map<Tid, Work>, folded: set<Tid>, a: Tid, w: Work)
    requires ClaimsOk(work, folded) && !w.Claimed?
    ensures ClaimsOk(work[a := w], folded)
  {
  }

  lemma ParentsKeep(s: State, parent: map<Tid, Tid>)
    requires Inv(s) && parent.Keys == s.parent.Keys
    ensures Inv(s.(parent := parent))
  {
    hide GroupEmpty, PendingOk, PendingOnce, NoneForgotten, WaitersOk, SumsOk, FoldsOk, TasksOk, ClaimsOk;
  }

  lemma DeadAreZombies(s: State, a: Tid, reaper: Tid, dead: seq<Tid>)
    requires TasksOk(s.tasks) && a in s.tasks && s.tasks[a].life == Exiting && MayReap(s, a, reaper, dead)
    ensures forall p :: p in SetOf(dead) ==>
      var zombie := SetLife(s.tasks, a, Zombie);
      && p in zombie && zombie[p].life == Zombie && zombie[p].linked
      && (zombie[p].leader == p ==> GroupEmpty(zombie, p))
  {
    SameGroups(s.tasks, SetLife(s.tasks, a, Zombie));
    hide GroupEmpty;
  }

  lemma NewlyDead(s: State, a: Tid, dead: seq<Tid>)
    requires PendingOk(s.tasks, s.work) && forall p :: p in dead ==> p in s.tasks && s.tasks[p].life != Dead
    ensures forall b, p :: b in s.work && p in dead ==> p !in s.work[b].Pending()
  {
    forall p | p in dead ensures forall b :: b in s.work ==> p !in s.work[b].Pending() {
      NotPendingYet(s, p);
    }
  }

  lemma FoldKeeps(s: State, a: Tid)
    requires Inv(s) && a in s.tasks && a in s.work && s.work[a].Claimed?
    ensures Inv(FoldNow(s, a))
  {
    hide GroupEmpty, PendingOk, PendingOnce, NoneForgotten, WaitersOk, SumsOk, FoldsOk, TasksOk, IsPending;
    var p := s.work[a].p;
    var w := Releasing([p]);
    ClaimedIs(s, a);
    assert w.Pending() == s.work[a].Pending();
    PendingSet(s.tasks, s.work, a, w);
    OnceSame(s.work, a, w);
    ForgottenSet(s.tasks, s.tasks, s.work, a, w);
    WaitersSet(s.tasks, s.work, a, w);
    FoldBooks(s, a);
    FoldClaims(s, a);
  }

  /** A claimed child is a dead leader, linked and alone in its group, and the one who claimed it is in
      another group, which is not folded. */
  lemma ClaimedIs(s: State, a: Tid)
    requires Inv(s) && a in s.work && s.work[a].Claimed?
    ensures a in s.tasks
    ensures var p := s.work[a].p;
      && IsPending(s.tasks, p) && s.tasks[p].leader == p && GroupEmpty(s.tasks, p) && p !in s.folded
      && a in s.tasks && s.tasks[a].life == Running && s.tasks[a].leader != p && s.tasks[a].leader !in s.folded
  {
    assert IsPending(s.tasks, s.work[a].Pending()[0]);
    var q := s.tasks[a].leader;
    assert s.tasks[a].linked;
    assert s.tasks[q].life == Dead ==> GroupEmpty(s.tasks, q);
  }

  lemma FoldBooks(s: State, a: Tid)
    requires Inv(s) && a in s.work && s.work[a].Claimed?
    ensures a in s.tasks && FoldsOk(s.tasks, FoldNow(s, a).csum, s.folded + {s.work[a].p})
  {
    hide PendingOk, PendingOnce, NoneForgotten, WaitersOk, TasksOk, ClaimsOk, GroupEmpty, SumsOk, FoldsOk;
    var p, q := s.work[a].p, s.tasks[a].leader;
    ClaimedIs(s, a);
    ShareIs(s, a);
    ShareAdded(s.tasks, s.csum, s.folded, p, q, {p} + s.sum[p]);
    assert Share(s, p) == {p} + s.sum[p] + s.csum[p];
  }

  lemma ShareAdded(tasks: Tasks, csum: map<Tid, set<Tid>>, folded: set<Tid>, p: Tid, q: Tid, own: set<Tid>)
    requires FoldsOk(tasks, csum, folded) && p in csum && q in csum && p != q && p !in folded && q !in folded
    requires p in tasks && tasks[p].leader == p && tasks[p].life == Dead
    requires forall w :: w in own ==> w in tasks && tasks[w].leader == p
    ensures FoldsOk(tasks, csum[q := csum[q] + (own + csum[p])], folded + {p})
  {
    var csum' := csum[q := csum[q] + (own + csum[p])];
    assert forall g, w :: g in csum && w in csum[g] ==> tasks[w].leader != p;
  }

  /** What is added is the whole child group, each thread once, and what its group had been given; none of it
      has been added before. */
  lemma ShareIs(s: State, a: Tid)
    requires Inv(s) && a in s.work && s.work[a].Claimed?
    ensures a in s.tasks
    ensures var p, q := s.work[a].p, s.tasks[a].leader;
      && p in s.sum && p in s.csum && q in s.csum && p !in s.sum[p] && p !in s.csum[p] && s.sum[p] !! s.csum[p]
      && Share(s, p) !! s.csum[q]
      && (forall w :: w in {p} + s.sum[p] <==> w in s.tasks && s.tasks[w].leader == p)
      && (forall w :: w in Share(s, p) ==> w in s.tasks && s.tasks[w].leader != q)
  {
    hide PendingOk, PendingOnce, NoneForgotten, WaitersOk, ClaimsOk, TasksOk, SumsOk, FoldsOk, GroupEmpty;
    ClaimedIs(s, a);
    var p, q := s.work[a].p, s.tasks[a].leader;
    assert s.tasks[p].leader == p && s.tasks[a].leader == q;
    WholeGroup(s.tasks, s.sum, p);
    SharesDiffer(s.tasks, s.csum, s.folded, p, q, {p} + s.sum[p]);
  }

  lemma WholeGroup(tasks: Tasks, sum: map<Tid, set<Tid>>, p: Tid)
    requires SumsOk(tasks, sum) && GroupEmpty(tasks, p)
    requires p in tasks && tasks[p].leader == p && tasks[p].linked && p in sum
    ensures p !in sum[p] && forall w :: w in {p} + sum[p] <==> w in tasks && tasks[w].leader == p
  {
  }

  lemma SharesDiffer(tasks: Tasks, csum: map<Tid, set<Tid>>, folded: set<Tid>, p: Tid, q: Tid, own: set<Tid>)
    requires FoldsOk(tasks, csum, folded) && p in csum && q in csum && p != q && p !in folded && q !in folded
    requires forall w :: w in own ==> w in tasks && tasks[w].leader == p
    ensures own !! csum[p] && own !! csum[q] && csum[p] !! csum[q]
    ensures forall w :: w in own + csum[p] ==> w in tasks && tasks[w].leader != q
  {
  }

  lemma FoldClaims(s: State, a: Tid)
    requires PendingOnce(s.work) && ClaimsOk(s.work, s.folded) && a in s.work && s.work[a].Claimed?
    ensures ClaimsOk(s.work[a := Releasing([s.work[a].p])], s.folded + {s.work[a].p})
  {
    var p := s.work[a].p;
    assert p in s.work[a].Pending();
    forall b | b in s.work && b != a && s.work[b].Claimed? ensures s.work[b].p != p {
      assert s.work[b].p in s.work[b].Pending();
    }
  }

  /** The first half of a turn of release_task: p leaves its group, and a's list. */
  ghost function Released(s: State, a: Tid): State
    requires Shape(s) && a in s.work && s.work[a].Releasing? && s.work[a].list != [] && s.work[a].list[0] in s.tasks
  {
    var p, l := s.work[a].list[0], s.tasks[s.work[a].list[0]].leader;
    s.(tasks := Unlink(s.tasks, p), sum := s.sum[l := s.sum[l] + {p}], work := s.work[a := WorkOn(s.work[a].list[1..])])
  }

  lemma UnlinkKeeps(s: State, a: Tid)
    requires Inv(s) && a in s.work && s.work[a].Releasing? && s.work[a].list != []
    ensures Shape(s) && IsPending(s.tasks, s.work[a].list[0]) && Inv(Released(s, a))
  {
    hide GroupEmpty, PendingOk, PendingOnce, NoneForgotten, WaitersOk, SumsOk, FoldsOk, TasksOk, ClaimsOk;
    var p, rest := s.work[a].list[0], s.work[a].list[1..];
    FirstIsPending(s, a);
    var l, tasks, work := s.tasks[p].leader, Unlink(s.tasks, p), s.work[a := WorkOn(rest)];
    UnlinkTasks(s.tasks, p);
    UnlinkPending(s, a);
    RestForgotten(s, a);
    UnlinkWaiters(s.tasks, s.work, p);
    WaitersSet(tasks, s.work, a, WorkOn(rest));
    UnlinkBooks(s, p);
    NoClaim(s.work, s.folded, a, WorkOn(rest));
  }

  lemma FirstIsPending(s: State, a: Tid)
    requires PendingOk(s.tasks, s.work) && a in s.work && s.work[a].Releasing? && s.work[a].list != []
    ensures IsPending(s.tasks, s.work[a].list[0])
  {
    assert IsPending(s.tasks, s.work[a].Pending()[0]);
  }

  lemma UnlinkPending(s: State, a: Tid)
    requires PendingOk(s.tasks, s.work) && PendingOnce(s.work)
    requires a in s.work && s.work[a].Releasing? && s.work[a].list != []
    requires s.work[a].list[0] in s.tasks
    ensures var work := s.work[a := WorkOn(s.work[a].list[1..])];
      PendingOk(Unlink(s.tasks, s.work[a].list[0]), work) && PendingOnce(work)
  {
    var list := s.work[a].list;
    var p, w := list[0], WorkOn(list[1..]);
    assert w.Pending() == list[1..] && s.work[a].Pending() == list;
    var work := s.work[a := w];
    forall b, i | b in work && 0 <= i < |work[b].Pending()|
      ensures IsPending(Unlink(s.tasks, p), work[b].Pending()[i])
    {
      var x := work[b].Pending()[i];
      if b == a {
        assert x == s.work[a].Pending()[i + 1] != p;
      } else {
        assert x in s.work[b].Pending() && p in s.work[a].Pending();
      }
      assert IsPending(s.tasks, x);
    }
    assert forall x :: x in w.Pending() ==> x in s.work[a].Pending();
    OnceSet(s.work, a, w);
  }

  lemma RestForgotten(s: State, a: Tid)
    requires NoneForgotten(s.tasks, s.work) && a in s.work && s.work[a].Releasing? && s.work[a].list != []
    requires s.work[a].list[0] in s.tasks
    ensures NoneForgotten(Unlink(s.tasks, s.work[a].list[0]), s.work[a := WorkOn(s.work[a].list[1..])])
  {
    var list := s.work[a].list;
    assert list == [list[0]] + list[1..];
    ForgottenSet(s.tasks, Unlink(s.tasks, list[0]), s.work, a, WorkOn(list[1..]));
  }

  lemma UnlinkWaiters(tasks: Tasks, work: map<Tid, Work>, p: Tid)
    requires TasksOk(tasks) && WaitersOk(tasks, work) && p in tasks && tasks[p].life == Dead
    ensures WaitersOk(Unlink(tasks, p), work)
  {
    UnlinkTasks(tasks, p);
    hide GroupEmpty;
  }

  lemma UnlinkBooks(s: State, p: Tid)
    requires Shape(s) && SumsOk(s.tasks, s.sum) && FoldsOk(s.tasks, s.csum, s.folded) && p in s.tasks
    ensures var l := s.tasks[p].leader;
      SumsOk(Unlink(s.tasks, p), s.sum[l := s.sum[l] + {p}]) && FoldsOk(Unlink(s.tasks, p), s.csum, s.folded)
  {
    hide SumsOk, FoldsOk;
    UnlinkSums(s.tasks, s.sum, p);
    UnlinkFolds(s.tasks, s.csum, s.folded, p);
  }

  lemma UnlinkSums(tasks: Tasks, sum: map<Tid, set<Tid>>, p: Tid)
    requires SumsOk(tasks, sum) && p in tasks && tasks[p].leader in sum
    ensures SumsOk(Unlink(tasks, p), sum[tasks[p].leader := sum[tasks[p].leader] + {p}])
  {
  }

  lemma UnlinkFolds(tasks: Tasks, csum: map<Tid, set<Tid>>, folded: set<Tid>, p: Tid)
    requires FoldsOk(tasks, csum, folded) && p in tasks
    ensures FoldsOk(Unlink(tasks, p), csum, folded)
  {
  }

  /** The other half: the last thread takes the leader over. */
  lemma ZapKeeps(s: State, a: Tid, l: Tid)
    requires Inv(s) && a in s.work && (s.work[a] == Idle || s.work[a].Releasing?)
    requires l in s.tasks && s.tasks[l].leader == l && s.tasks[l].life == Zombie && GroupEmpty(s.tasks, l)
    ensures Inv(s.(tasks := Kill(s.tasks, {l}), work := s.work[a := Releasing([l] + s.work[a].Pending())]))
  {
    hide GroupEmpty, PendingOk, PendingOnce, NoneForgotten, WaitersOk, SumsOk, FoldsOk, ClaimsOk, Shape;
    var tasks, w := Kill(s.tasks, {l}), Releasing([l] + s.work[a].Pending());
    assert s.tasks[l].linked;
    KillTasks(s.tasks, {l});
    KillAges(s.tasks, {l});
    KillWaiters(s.tasks, s.work, {l});
    WaitersSet(tasks, s.work, a, w);
    AgesPending(s.tasks, tasks, s.work);
    NotPendingYet(s, l);
    OneMorePending(tasks, s.work, a, l);
    ForgottenSet(s.tasks, tasks, s.work, a, w);
    NoClaim(s.work, s.folded, a, w);
    LivesKeep(s, tasks, s.work[a := w]);
  }

  lemma OneMorePending(tasks: Tasks, work: map<Tid, Work>, a: Tid, l: Tid)
    requires PendingOk(tasks, work) && PendingOnce(work) && a in work && IsPending(tasks, l)
    requires forall b :: b in work ==> l !in work[b].Pending()
    ensures var w := Releasing([l] + work[a].Pending()); PendingOk(tasks, work[a := w]) && PendingOnce(work[a := w])
  {
    hide IsPending, Work.Pending;
    var w := Releasing([l] + work[a].Pending());
    WhatIsPending(w.list);
    PendingSet(tasks, work, a, w);
    OnceSet(work, a, w);
  }

  lemma WhatIsPending(list: seq<Tid>)
    ensures Releasing(list).Pending() == list
  {
  }

  lemma ReleaseKeeps(s: State, a: Tid, notify: bool)
    requires Inv(s) && a in s.work && s.work[a].Releasing? && s.work[a].list != []
    ensures Inv(ReleaseNow(s, a, notify))
  {
    hide Inv, GroupEmpty;
    UnlinkKeeps(s, a);
    var s1 := Released(s, a);
    var p := s.work[a].list[0];
    var l := s.tasks[p].leader;
    if Zap(s1.tasks, p, notify) {
      LeaderLeads(s1, p);
      assert s1.work[a].Pending() == s.work[a].list[1..];
      ZapKeeps(s1, a, l);
      var w := Releasing([l] + s.work[a].list[1..]);
      assert s1.work[a := w] == s.work[a := w];
    }
  }

  lemma LeaderLeads(s: State, p: Tid)
    requires Inv(s) && p in s.tasks
    ensures s.tasks[p].leader in s.tasks && s.tasks[s.tasks[p].leader].leader == s.tasks[p].leader
  {
  }

  /** Every step of every task keeps the invariant. */
  lemma StepKeepsInv(s: State, step: Step)
    requires Inv(s) && Enabled(s, step)
    ensures Inv(Apply(s, step))
  {
    hide Inv, GroupEmpty, MayReap, MayInherit, NoReaders, CloneNow, ForkNow, ExitNow, FoldNow, ClaimNow, ReleaseNow;
    match step
    case CloneThread(a, child) => CloneKeeps(s, a, child);
    case Fork(a, child, parent) => ForkKeeps(s, child, parent);
    case BeginExit(a) => BeginExitKeeps(s, a);
    case ExitNotify(a, reaper, dead) => ExitKeeps(s, a, reaper, dead);
    case See(a, p) => SeeKeeps(s, a, p);
    case Claim(a) => ClaimKeeps(s, a);
    case Fold(a) => FoldKeeps(s, a);
    case Release(a, notify) => ReleaseKeeps(s, a, notify);
  }

  // ---- Whole runs ----

  ghost predicate Run(states: seq<State>, steps: seq<Step>) {
    && |states| == |steps| + 1
    && forall i :: 0 <= i < |steps| ==> Next(states[i], steps[i], states[i + 1])
  }

  ghost predicate Next(s: State, step: Step, s': State) {
    Enabled(s, step) && s' == Apply(s, step)
  }

  /** At the start every task runs and nothing has been released or counted. */
  ghost predicate Initial(s: State) {
    && Shape(s) && ParentsOk(s.tasks, s.parent)
    && (forall t :: t in s.tasks ==>
          && s.tasks[t].life == Running && s.tasks[t].linked && s.work[t] == Idle
          && s.tasks[s.tasks[t].leader].leader == s.tasks[t].leader)
    && (forall g :: g in s.sum ==> s.sum[g] == {})
    && (forall g :: g in s.csum ==> s.csum[g] == {})
    && s.folded == {}
  }

  lemma InitialInv(s: State)
    requires Initial(s)
    ensures Inv(s)
  {
    assert forall p :: !IsPending(s.tasks, p);
  }

  lemma {:induction false} RunKeepsInv(states: seq<State>, steps: seq<Step>, n: nat)
    requires Run(states, steps) && Initial(states[0]) && n <= |steps|
    ensures Inv(states[n])
  {
    hide Inv, Initial, Apply, Enabled, Shape;
    if n == 0 {
      InitialInv(states[0]);
    } else {
      RunKeepsInv(states, steps, n - 1);
      assert Next(states[n - 1], steps[n - 1], states[n]);
      StepKeepsInv(states[n - 1], steps[n - 1]);
    }
  }

  /** Nothing in a state goes back: no task leaves, no dead one comes back, no released one is linked again
      and no folded group is unfolded. */
  ghost predicate Forward(s: State, s': State) {
    TasksForward(s.tasks, s'.tasks) && s.folded <= s'.folded
  }

  ghost predicate TasksForward(tasks: Tasks, now: Tasks) {
    forall t :: t in tasks ==>
      && t in now && now[t].leader == tasks[t].leader
      && (tasks[t].life == Dead ==> now[t].life == Dead)
      && (!tasks[t].linked ==> !now[t].linked)
  }

  lemma SetLifeForward(tasks: Tasks, a: Tid, life: Life, dead: set<Tid>)
    requires a in tasks && tasks[a].life != Dead
    ensures TasksForward(tasks, SetLife(tasks, a, life)) && TasksForward(tasks, Kill(SetLife(tasks, a, life), dead))
  {
  }

  lemma UnlinkForward(tasks: Tasks, p: Tid, dead: set<Tid>)
    requires p in tasks
    ensures TasksForward(tasks, Unlink(tasks, p))
    ensures TasksForward(tasks, Kill(Unlink(tasks, p), dead)) && TasksForward(tasks, Kill(tasks, dead))
  {
  }

  lemma StepGoesForward(s: State, step: Step)
    requires Enabled(s, step)
    ensures Forward(s, Apply(s, step))
  {
    hide GroupEmpty, MayReap, MayInherit, NoReaders, Shape, Zap, SetLife, Kill, Unlink;
    match step
    case CloneThread(a, child) =>
    case Fork(a, child, parent) =>
    case BeginExit(a) => SetLifeForward(s.tasks, a, Exiting, {});
    case ExitNotify(a, reaper, dead) => SetLifeForward(s.tasks, a, Zombie, SetOf(dead));
    case See(a, p) =>
    case Claim(a) => UnlinkForward(s.tasks, a, {s.work[a].p});
    case Fold(a) =>
    case Release(a, notify) =>
      var p := s.work[a].list[0];
      if p in s.tasks {
        UnlinkForward(s.tasks, p, {s.tasks[p].leader});
      }
  }

  lemma {:induction false} RunGoesForward(states: seq<State>, steps: seq<Step>, i: nat, j: nat)
    requires Run(states, steps) && Initial(states[0]) && i <= j <= |steps|
    ensures Forward(states[i], states[j])
    decreases j
  {
    hide Inv, Initial, Apply, Enabled, Shape;
    if i < j {
      RunGoesForward(states, steps, i, j - 1);
      RunKeepsInv(states, steps, j - 1);
      assert Next(states[j - 1], steps[j - 1], states[j]);
      StepGoesForward(states[j - 1], steps[j - 1]);
    }
  }

  /** The step sets p's exit_state to EXIT_DEAD. */
  ghost predicate Kills(s: State, s': State, p: Tid) {
    p in s.tasks && p in s'.tasks && s.tasks[p].life != Dead && s'.tasks[p].life == Dead
  }

  /** The step is a call of release_task, or a repeat in it, for p. */
  ghost predicate Releases(s: State, step: Step, p: Tid) {
    && step.Release? && step.a in s.work && s.work[step.a].Releasing?
    && s.work[step.a].list != [] && s.work[step.a].list[0] == p
  }

  /** The step adds p's group to its caller's c* fields. */
  ghost predicate Folds(s: State, step: Step, p: Tid) {
    step.Fold? && step.a in s.work && s.work[step.a].Claimed? && s.work[step.a].p == p
  }

  lemma ReleaseUnlinks(s: State, step: Step, p: Tid)
    requires Inv(s) && Enabled(s, step) && Releases(s, step, p)
    ensures IsPending(s.tasks, p) && p in Apply(s, step).tasks && !Apply(s, step).tasks[p].linked
  {
    hide GroupEmpty, PendingOk, PendingOnce, NoneForgotten, WaitersOk, SumsOk, FoldsOk, TasksOk, ClaimsOk, Zap, Shape,
         NoReaders;
    FirstIsPending(s, step.a);
  }

  lemma FoldIsNew(s: State, step: Step, p: Tid)
    requires Inv(s) && Enabled(s, step) && Folds(s, step, p)
    ensures p !in s.folded && p in Apply(s, step).folded && p in s.tasks && s.tasks[p].life == Dead
  {
    hide PendingOnce, NoneForgotten, SumsOk, FoldsOk, TasksOk;
    ClaimedIs(s, step.a);
  }

  /** In every run, a task becomes EXIT_DEAD at most once and stays so, it is released at most once, and its
      counters are added to a parent's at most once. */
  lemma EachAtMostOnce(states: seq<State>, steps: seq<Step>, i: nat, j: nat, p: Tid)
    requires Run(states, steps) && Initial(states[0]) && i < j < |steps|
    ensures p in states[i].tasks && states[i].tasks[p].life == Dead ==>
      p in states[j].tasks && states[j].tasks[p].life == Dead
    ensures !(Kills(states[i], states[i + 1], p) && Kills(states[j], states[j + 1], p))
    ensures !(Releases(states[i], steps[i], p) && Releases(states[j], steps[j], p))
    ensures !(Folds(states[i], steps[i], p) && Folds(states[j], steps[j], p))
  {
    hide Inv, Initial, Apply, Enabled, Shape;
    RunKeepsInv(states, steps, i);
    RunKeepsInv(states, steps, j);
    assert Next(states[i], steps[i], states[i + 1]) && Next(states[j], steps[j], states[j + 1]);
    RunGoesForward(states, steps, i, j);
    RunGoesForward(states, steps, i + 1, j);
    if Releases(states[i], steps[i], p) {
      ReleaseUnlinks(states[i], steps[i], p);
      if Releases(states[j], steps[j], p) {
        ReleaseUnlinks(states[j], steps[j], p);
        assert false;
      }
    }
    if Folds(states[i], steps[i], p) {
      FoldIsNew(states[i], steps[i], p);
      if Folds(states[j], steps[j], p) {
        FoldIsNew(states[j], steps[j], p);
        assert false;
      }
    }
  }

  /** What a task has to release after a step it had before, or it killed in that step. */
  lemma PendingComesFrom(s: State, step: Step, a: Tid, p: Tid)
    requires Inv(s) && Enabled(s, step) && a in Apply(s, step).work && p in Apply(s, step).work[a].Pending()
    ensures (a in s.work && p in s.work[a].Pending()) || (step.a == a && Kills(s, Apply(s, step), p))
  {
    hide GroupEmpty, PendingOk, PendingOnce, NoneForgotten, SumsOk, FoldsOk, TasksOk, ClaimsOk, WaitersOk,
         MayInherit, MayReap, NoReaders, Shape, ReleaseNow;
    match step
    case ExitNotify(b, _, dead) =>
      if a == b {
        assert Apply(s, step).work[a].Pending() == dead;
        ExitPending(s, a, step.reaper, dead, p);
      }
    case Release(b, notify) =>
      if a == b {
        FirstIsPending(s, a);
        ReleasePending(s, a, notify, p);
      } else {
        OthersKeepTheirs(s, b, notify, a);
      }
    case Claim(b) =>
      if a == b {
        ClaimPending(s, a, p);
      }
    case _ =>
  }

  lemma OthersKeepTheirs(s: State, b: Tid, notify: bool, a: Tid)
    requires Shape(s) && b in s.work && a != b && a in ReleaseNow(s, b, notify).work
    ensures a in s.work && ReleaseNow(s, b, notify).work[a] == s.work[a]
  {
    hide GroupEmpty, Shape, Zap;
  }

  lemma ClaimPending(s: State, a: Tid, p: Tid)
    requires a in s.work && s.work[a].Looking? && p in ClaimNow(s, a).work[a].Pending()
    ensures Kills(s, ClaimNow(s, a), p)
  {
  }

  lemma ReleasePending(s: State, a: Tid, notify: bool, p: Tid)
    requires Shape(s) && a in s.work && s.work[a].Releasing? && s.work[a].list != [] && s.work[a].list[0] in s.tasks
    requires p in ReleaseNow(s, a, notify).work[a].Pending()
    ensures p in s.work[a].Pending() || Kills(s, ReleaseNow(s, a, notify), p)
  {
    hide GroupEmpty, Shape, Zap, Unlink, Kill;
    var list := s.work[a].list;
    assert list == [list[0]] + list[1..];
    ZapKills(s.tasks, list[0], notify);
  }

  lemma ZapKills(tasks: Tasks, p: Tid, notify: bool)
    requires p in tasks
    ensures p in Unlink(tasks, p)
    ensures var l := tasks[p].leader;
      Zap(Unlink(tasks, p), p, notify) ==>
        && l in tasks && tasks[l].life == Zombie
        && l in Kill(Unlink(tasks, p), {l}) && Kill(Unlink(tasks, p), {l})[l].life == Dead
  {
    hide GroupEmpty;
  }

  lemma ExitPending(s: State, a: Tid, reaper: Tid, dead: seq<Tid>, p: Tid)
    requires Shape(s) && a in s.tasks && a in s.work
    requires s.tasks[a].life == Exiting && MayReap(s, a, reaper, dead) && p in dead
    ensures Kills(s, Apply(s, ExitNotify(a, reaper, dead)), p)
  {
    hide GroupEmpty, Shape;
    assert p in SetOf(dead);
  }

  /** Whoever has p to release is the one who made it EXIT_DEAD. */
  lemma {:induction false} ReleasedByItsKiller(states: seq<State>, steps: seq<Step>, n: nat, a: Tid,
                                               p: Tid) returns (i: nat)
    requires Run(states, steps) && Initial(states[0]) && n <= |steps|
    requires a in states[n].work && p in states[n].work[a].Pending()
    ensures i < n && steps[i].a == a && Kills(states[i], states[i + 1], p)
  {
    hide Inv, Apply, Enabled, Kills;
    assert n > 0 by {
      if n == 0 {
        assert false;
      }
    }
    if n > 0 {
      RunKeepsInv(states, steps, n - 1);
      assert Next(states[n - 1], steps[n - 1], states[n]);
      PendingComesFrom(states[n - 1], steps[n - 1], a, p);
      if a in states[n - 1].work && p in states[n - 1].work[a].Pending() {
        i := ReleasedByItsKiller(states, steps, n - 1, a, p);
      } else {
        i := n - 1;
      }
    }
  }

  /** In every reachable state, a dead task that has not been released is on exactly one list; a leader is
      dead only when all its threads have been released. */
  lemma NoZombieIsLost(states: seq<State>, steps: seq<Step>, n: nat, p: Tid)
    requires Run(states, steps) && Initial(states[0]) && n <= |steps|
    requires p in states[n].tasks && states[n].tasks[p].life == Dead
    ensures var s := states[n];
      && (s.tasks[p].linked <==> Covered(s.work, p))
      && (forall a, b :: a in s.work && b in s.work && p in s.work[a].Pending() && p in s.work[b].Pending() ==> a == b)
      && (s.tasks[p].leader == p ==>
            forall u :: u in s.tasks && s.tasks[u].leader == p && u != p ==> !s.tasks[u].linked)
  {
    hide SumsOk, FoldsOk, ClaimsOk, WaitersOk;
    RunKeepsInv(states, steps, n);
    var s := states[n];
    assert s.tasks[p].linked ==> IsPending(s.tasks, p);
    if Covered(s.work, p) {
      var a :| a in s.work && p in s.work[a].Pending();
      var i :| 0 <= i < |s.work[a].Pending()| && s.work[a].Pending()[i] == p;
      assert IsPending(s.tasks, s.work[a].Pending()[i]);
    }
  }
}
