/** How a task ends (exit.c, without ptrace): exit_notify, reparenting, wait and release_task as steps of any
    number of tasks. A step is a section under tasklist_lock, or one atomic action outside it. */
module Reap {
  type Tid = nat

  /** Exiting is PF_EXITING with exit_state 0; Zombie and Dead are EXIT_ZOMBIE and EXIT_DEAD. */
  datatype Life = Running | Exiting | Zombie | Dead

  /** linked says that __exit_signal has not taken it out of its thread group. */
  datatype Task = Task(leader: Tid, life: Life, linked: bool)

  type Tasks = map<Tid, Task>

  /** What a task is doing: it holds tasklist_lock for reading and has found a zombie child, it has won the
      race for it, or it has tasks to pass to release_task, the first one next. */
  datatype Work = Idle | Looking(p: Tid) | Claimed(p: Tid) | Releasing(list: seq<Tid>) {
    function Pending(): seq<Tid> {
      if Claimed? then [p] else if Releasing? then list else []
    }
  }

  /** parent, sum and csum go by group leader. sum holds the threads whose counters are in the group's
      signal_struct, csum those whose counters are in its c* fields; folded are the groups that a wait has
      added to those of its caller. */
  datatype State = State(tasks: Tasks, parent: map<Tid, Tid>, work: map<Tid, Work>,
                         sum: map<Tid, set<Tid>>, csum: map<Tid, set<Tid>>, folded: set<Tid>)

  /** The steps of one task, a. dead lists those for which do_notify_parent says that nobody will wait, in
      the order in which exit_notify releases them; notify is its answer for a leader that is left alone. */
  datatype Step =
    | CloneThread(a: Tid, child: Tid)
    | Fork(a: Tid, child: Tid, parent: Tid)
    | BeginExit(a: Tid)
    | ExitNotify(a: Tid, reaper: Tid, dead: seq<Tid>)
    | See(a: Tid, p: Tid)
    | Claim(a: Tid)
    | Fold(a: Tid)
    | Release(a: Tid, notify: bool)

  /** thread_group_empty */
  predicate GroupEmpty(tasks: Tasks, l: Tid) {
    forall u :: u in tasks && tasks[u].leader == l && tasks[u].linked ==> u == l
  }

  predicate NoReaders(work: map<Tid, Work>) { forall b :: b in work ==> !work[b].Looking? }

  predicate NoDuplicates(s: seq<Tid>) { forall i, j :: 0 <= i < j < |s| ==> s[i] != s[j] }

  predicate SameGroup(tasks: Tasks, a: Tid, b: Tid) {
    a in tasks && b in tasks && tasks[a].leader == tasks[b].leader
  }

  /** Every leader has its entries. */
  ghost predicate Shape(s: State) {
    s.work.Keys == s.tasks.Keys && forall t :: t in s.tasks ==> HasEntries(s, s.tasks[t].leader)
  }

  predicate HasEntries(s: State, l: Tid) { l in s.tasks && l in s.parent && l in s.sum && l in s.csum }

  ghost predicate Enabled(s: State, step: Step) {
    && step.a in s.tasks && step.a in s.work
    && var life, work := s.tasks[step.a].life, s.work[step.a];
       match step
       case CloneThread(a, child) => life == Running && work == Idle && child !in s.tasks && NoReaders(s.work)
       // the child of a, or with CLONE_PARENT of a's own parent
       case Fork(a, child, parent) =>
         && life == Running && work == Idle && child !in s.tasks && NoReaders(s.work)
         && (parent == a || (s.tasks[a].leader in s.parent && parent == s.parent[s.tasks[a].leader]))
       case BeginExit(a) => life == Running && work == Idle
       case ExitNotify(a, reaper, dead) =>
         life == Exiting && work == Idle && NoReaders(s.work) && MayInherit(s, a, reaper) && MayReap(s, a, reaper, dead)
       case See(a, p) =>
         && life == Running && work == Idle
         && p in s.tasks && p in s.parent && SameGroup(s.tasks, a, s.parent[p])
         && s.tasks[p].leader == p && s.tasks[p].life == Zombie && GroupEmpty(s.tasks, p)
       case Claim(a) => work.Looking?
       case Fold(a) => work.Claimed?
       case Release(a, notify) => work.Releasing? && work.list != [] && NoReaders(s.work)
  }

  /** find_new_reaper: a thread of the group that is not exiting, if there is one; else somebody outside. */
  ghost predicate MayInherit(s: State, a: Tid, reaper: Tid) {
    && reaper in s.tasks && s.tasks[reaper].life in {Running, Exiting}
    && (SameGroup(s.tasks, a, reaper) ==> s.tasks[reaper].life == Running)
    && (!SameGroup(s.tasks, a, reaper) ==> forall u :: SameGroup(s.tasks, a, u) ==> s.tasks[u].life != Running)
  }

  /** Whom exit_notify may declare dead: the exiting one, always if it is no leader and if it is one
      only when it is alone; and zombie children without threads, when they go to another process. */
  ghost predicate MayReap(s: State, a: Tid, reaper: Tid, dead: seq<Tid>)
    requires a in s.tasks
  {
    && NoDuplicates(dead)
    && (s.tasks[a].leader != a ==> a in dead)
    && (a in dead ==> s.tasks[a].leader != a || GroupEmpty(s.tasks, a))
    && forall p :: p in dead && p != a ==>
         && p in s.tasks && p in s.parent && s.parent[p] == a && !SameGroup(s.tasks, a, reaper)
         && s.tasks[p].leader == p && s.tasks[p].life == Zombie && GroupEmpty(s.tasks, p)
  }

  function SetLife(tasks: Tasks, t: Tid, life: Life): Tasks
    requires t in tasks
  {
    tasks[t := tasks[t].(life := life)]
  }

  /** exit_state = EXIT_DEAD for all of these. */
  function Kill(tasks: Tasks, dead: set<Tid>): Tasks {
    map t | t in tasks :: if t in dead then tasks[t].(life := Dead) else tasks[t]
  }

  function Unlink(tasks: Tasks, p: Tid): Tasks
    requires p in tasks
  {
    tasks[p := tasks[p].(linked := false)]
  }

  function SetOf(s: seq<Tid>): set<Tid> { set x | x in s }

  function WorkOn(list: seq<Tid>): Work { if list == [] then Idle else Releasing(list) }

  ghost function Apply(s: State, step: Step): State
    requires step.a in s.tasks && step.a in s.work
  {
    match step
    case CloneThread(a, child) => CloneNow(s, s.tasks[a].leader, child)
    case Fork(a, child, parent) => ForkNow(s, child, parent)
    case BeginExit(a) => s.(tasks := SetLife(s.tasks, a, Exiting))
    case ExitNotify(a, reaper, dead) => ExitNow(s, a, reaper, dead)
    case See(a, p) => s.(work := s.work[a := Looking(p)])
    case Claim(a) => ClaimNow(s, a)
    case Fold(a) => FoldNow(s, a)
    case Release(a, notify) => ReleaseNow(s, a, notify)
  }

  /** A thread joins the group of leader l. */
  function CloneNow(s: State, l: Tid, child: Tid): State {
    s.(tasks := s.tasks[child := Task(l, Running, true)], work := s.work[child := Idle])
  }

  function ForkNow(s: State, child: Tid, parent: Tid): State {
    State(s.tasks[child := Task(child, Running, true)], s.parent[child := parent], s.work[child := Idle],
          s.sum[child := {}], s.csum[child := {}], s.folded)
  }

  /** exit_notify: children change parents, and a becomes a zombie or, with others, dead. */
  function ExitNow(s: State, a: Tid, reaper: Tid, dead: seq<Tid>): State
    requires a in s.tasks
  {
    s.(tasks := Kill(SetLife(s.tasks, a, Zombie), SetOf(dead)),
       parent := map p | p in s.parent :: if s.parent[p] == a then reaper else s.parent[p],
       work := s.work[a := WorkOn(dead)])
  }

  /** cmpxchg of exit_state; the loser goes on without the child. */
  ghost function ClaimNow(s: State, a: Tid): State
    requires a in s.work
  {
    if !s.work[a].Looking? then s
    else
      var p := s.work[a].p;
      if p in s.tasks && s.tasks[p].life == Zombie then
        s.(tasks := Kill(s.tasks, {p}), work := s.work[a := Claimed(p)])
      else s.(work := s.work[a := Idle])
  }

  /** What a wait adds to the c* fields: the child's own counters, its group's and its children's. */
  function Share(s: State, p: Tid): set<Tid> { {p} + Of(s.sum, p) + Of(s.csum, p) }

  function Of(counters: map<Tid, set<Tid>>, g: Tid): set<Tid> { if g in counters then counters[g] else {} }

  ghost function FoldNow(s: State, a: Tid): State
    requires a in s.tasks && a in s.work
  {
    if !s.work[a].Claimed? then s
    else
      var p, q := s.work[a].p, s.tasks[a].leader;
      s.(csum := s.csum[q := Of(s.csum, q) + Share(s, p)], folded := s.folded + {p},
         work := s.work[a := Releasing([p])])
  }

  /** One turn of release_task. The last thread releases a zombie leader too if nobody will wait for it. */
  ghost function ReleaseNow(s: State, a: Tid, notify: bool): State
    requires a in s.work
  {
    var list := s.work[a].Pending();
    if list == [] || list[0] !in s.tasks then s
    else
      var p, rest := list[0], list[1..];
      var l, tasks := s.tasks[p].leader, Unlink(s.tasks, p);
      var zap := Zap(tasks, p, notify);
      s.(tasks := if zap then Kill(tasks, {l}) else tasks,
         sum := s.sum[l := Of(s.sum, l) + {p}],
         work := s.work[a := WorkOn(if zap then [l] + rest else rest)])
  }

  predicate Zap(tasks: Tasks, p: Tid, notify: bool)
    requires p in tasks
  {
    var l := tasks[p].leader;
    l != p && l in tasks && GroupEmpty(tasks, l) && tasks[l].life == Zombie && notify
  }

  // ---- What holds in every reachable state ----

  ghost predicate TasksOk(tasks: Tasks) {
    && (forall t :: t in tasks ==> tasks[t].leader in tasks && tasks[tasks[t].leader].leader == tasks[t].leader)
    && (forall t :: t in tasks && !tasks[t].linked ==> tasks[t].life == Dead)
    && (forall t :: t in tasks && tasks[t].leader == t && tasks[t].life == Dead ==> GroupEmpty(tasks, t))
  }

  /** A process that is not dead has a parent that has not come to the end of its exit. */
  ghost predicate ParentsOk(tasks: Tasks, parent: map<Tid, Tid>) {
    forall l :: l in tasks && tasks[l].leader == l && tasks[l].life != Dead ==> HasParent(tasks, parent, l)
  }

  predicate HasParent(tasks: Tasks, parent: map<Tid, Tid>, l: Tid) {
    l in parent && parent[l] in tasks && tasks[parent[l]].life in {Running, Exiting}
  }

  /** A task with work to release is dead and still linked. */
  ghost predicate PendingOk(tasks: Tasks, work: map<Tid, Work>) {
    forall a, i :: a in work && 0 <= i < |work[a].Pending()| ==> IsPending(tasks, work[a].Pending()[i])
  }

  predicate IsPending(tasks: Tasks, p: Tid) { p in tasks && tasks[p].life == Dead && tasks[p].linked }

  /** Nobody has a task to release that somebody else has, or has it twice. */
  ghost predicate PendingOnce(work: map<Tid, Work>) {
    && (forall a :: a in work ==> NoDuplicates(work[a].Pending()))
    && (forall a, b, p :: a in work && b in work && p in work[a].Pending() && p in work[b].Pending() ==> a == b)
  }

  /** Somebody will release p. */
  ghost predicate Covered(work: map<Tid, Work>, p: Tid) {
    exists a :: a in work && p in work[a].Pending()
  }

  ghost predicate NoneForgotten(tasks: Tasks, work: map<Tid, Work>) {
    forall p :: IsPending(tasks, p) ==> Covered(work, p)
  }

  /** Who waits is running; who is looked at is a leader that is alone and stays so. */
  ghost predicate WaitersOk(tasks: Tasks, work: map<Tid, Work>) {
    forall a :: a in work && (work[a].Looking? || work[a].Claimed?) ==> WaiterOk(tasks, a, work[a].p)
  }

  ghost predicate WaiterOk(tasks: Tasks, a: Tid, p: Tid) {
    && a in tasks && tasks[a].life == Running
    && p in tasks && tasks[p].leader == p && tasks[p].life in {Zombie, Dead} && GroupEmpty(tasks, p)
  }

  /** sum holds exactly the released threads of each group. */
  ghost predicate SumsOk(tasks: Tasks, sum: map<Tid, set<Tid>>) {
    && (forall g, w :: g in sum && w in sum[g] ==> w in tasks && tasks[w].leader == g && !tasks[w].linked)
    && (forall w :: w in tasks && !tasks[w].linked ==> tasks[w].leader in sum && w in sum[tasks[w].leader])
  }

  /** Only threads of folded groups are in c* fields, and in those of one group that is not folded at most. */
  ghost predicate FoldsOk(tasks: Tasks, csum: map<Tid, set<Tid>>, folded: set<Tid>) {
    && (forall g :: g in folded ==> g in tasks && tasks[g].leader == g && tasks[g].life == Dead)
    && (forall g, w :: g in csum && w in csum[g] ==> w in tasks && tasks[w].leader in folded)
    && (forall g, h, w :: g in csum && h in csum && g !in folded && h !in folded && w in csum[g] && w in csum[h] ==>
          g == h)
  }

  ghost predicate ClaimsOk(work: map<Tid, Work>, folded: set<Tid>) {
    forall a :: a in work && work[a].Claimed? ==> work[a].p !in folded
  }

  ghost predicate Inv(s: State) {
    && Shape(s)
    && TasksOk(s.tasks)
    && PendingOk(s.tasks, s.work) && PendingOnce(s.work) && NoneForgotten(s.tasks, s.work)
    && WaitersOk(s.tasks, s.work)
    && SumsOk(s.tasks, s.sum)
    && FoldsOk(s.tasks, s.csum, s.folded) && ClaimsOk(s.work, s.folded)
  }
}
