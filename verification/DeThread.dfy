/** One thread group while a thread of it runs de_thread: exec kills the other threads, waits for
    them, waits for the leader to become a zombie and takes over its pid. Each region under siglock
    or tasklist_lock is one step. */
module DeThread {
  import opened Wrappers

  type Tid = nat
  type Pid = nat

  datatype ExitState = Alive | Zombie | Dead

  /** Where a thread is in de_thread; Run is anywhere else. */
  datatype Pc =
    | Run
    | Loop1               // in or about to leave schedule() of the first loop
    | Before2             // first loop left
    | Loop2               // in or about to leave schedule() of the second loop
    | Releasing(former: Tid)  // leader's identity taken, release_task of the old leader to come
    | Finish              // about to clear group_exit_task and return 0
    | Killed              // saw a fatal signal, about to clear group_exit_task and return -EAGAIN

  /** A thread group. tgid is fixed; asleep holds the threads that schedule() has put to sleep. */
  datatype State = State(
    tgid: Pid,
    members: set<Tid>,
    leader: Tid,
    pid: map<Tid, Pid>,
    exit: map<Tid, ExitState>,
    killed: set<Tid>,
    groupExit: bool,
    groupExitTask: Option<Tid>,
    notifyCount: int,
    pc: map<Tid, Pc>,
    asleep: set<Tid>)
  {
    predicate In(t: Tid) { t in members && t in pid && t in exit && t in pc }
    predicate Lives(t: Tid) { In(t) && exit[t] == Alive }
    /** The threads whose release de_thread counts: all but the exec'ing one and the leader. */
    function Others(x: Tid): set<Tid> { members - {x, leader} }
    function WakeExec(): State {
      if groupExitTask.Some? then this.(asleep := asleep - {groupExitTask.value}) else this
    }
  }

  datatype Step =
    | Fork(t: Tid, child: Tid, pid: Pid)
    | GroupKill
    | ExitNotify(t: Tid, reap: bool)
    | Release(t: Tid, zapLeader: bool)
    | ParentReaps
    | ExecAlone(t: Tid)
    | ExecStart(t: Tid)
    | Recheck(t: Tid)
    | Enter2(t: Tid)
    | SeeFatal(t: Tid)
    | GiveUp(t: Tid)
    | Return(t: Tid)
    | Awake(t: Tid)

  predicate Enabled(s: State, step: Step) {
    match step
    // the last section of copy_process: a fatal signal stops the clone
    case Fork(t, child, _) =>
      s.Lives(t) && s.pc[t].Run? && t !in s.killed && child !in s.members && child !in s.killed && child !in s.asleep
    case GroupKill => true
    case ExitNotify(t, reap) => s.Lives(t) && s.pc[t].Run?
    case Release(t, zapLeader) => s.In(t) && s.exit[t] == Dead && (zapLeader ==> LastBesideZombie(s, t))
    // wait_task_zombie: delay_group_leader keeps a leader with live threads
    case ParentReaps => s.In(s.leader) && s.exit[s.leader] == Zombie && s.members == {s.leader}
    case ExecAlone(t) => s.Lives(t) && s.pc[t].Run? && s.members == {t}
    case ExecStart(t) => s.Lives(t) && s.pc[t].Run? && s.members != {t} && !s.groupExit && s.groupExitTask.None?
    case Recheck(t) => s.In(t) && s.pc[t].Loop1? && t !in s.asleep && t !in s.killed
    case Enter2(t) =>
      s.In(t) && s.In(s.leader) && (s.pc[t].Before2? || (s.pc[t].Loop2? && t !in s.asleep && t !in s.killed))
    case SeeFatal(t) => s.In(t) && (s.pc[t].Loop1? || s.pc[t].Loop2?) && t !in s.asleep && t in s.killed
    case GiveUp(t) => s.In(t) && s.pc[t].Killed?
    case Return(t) => s.In(t) && s.pc[t].Finish?
    case Awake(t) => true
  }

  /** After t is gone only the leader is left, and it is a zombie. */
  predicate LastBesideZombie(s: State, t: Tid) {
    t != s.leader && s.members - {t} == {s.leader} && s.leader in s.exit && s.exit[s.leader] == Zombie
  }

  /** __exit_signal: leave the group, and for a non-leader count down for a waiting exec. */
  function Leave(s: State, t: Tid): State {
    var gone := s.(members := s.members - {t});
    if t == s.leader || s.notifyCount <= 0 then gone
    else if s.notifyCount == 1 then gone.(notifyCount := 0).WakeExec()
    else gone.(notifyCount := s.notifyCount - 1)
  }

  /** The check at the top of de_thread's first loop, under siglock. */
  function Check1(s: State, t: Tid): State
    requires t in s.pc
  {
    if s.notifyCount != 0 then s.(pc := s.pc[t := Loop1], asleep := s.asleep + {t})
    else s.(pc := s.pc[t := Before2])
  }

  function Apply(s: State, step: Step): State
    requires Enabled(s, step)
  {
    match step
    case Fork(t, child, pid) =>
      s.(members := s.members + {child}, pid := s.pid[child := pid],
         exit := s.exit[child := Alive], pc := s.pc[child := Run])
    case GroupKill => s.(groupExit := true, killed := s.killed + s.members, asleep := {})
    case ExitNotify(t, reap) =>
      var dead := t != s.leader || (s.members == {t} && reap);
      var s1 := s.(exit := s.exit[t := if dead then Dead else Zombie]);
      if s.notifyCount < 0 then s1.WakeExec() else s1
    case Release(t, zapLeader) =>
      var s1 := Leave(s, t);
      var s2 := if zapLeader then s1.(exit := s1.exit[s.leader := Dead]) else s1;
      // release_task(leader) returns to de_thread
      if s.groupExitTask.Some? && s.groupExitTask.value in s.pc && s.pc[s.groupExitTask.value] == Releasing(t)
      then s2.(pc := s2.pc[s.groupExitTask.value := Finish])
      else s2
    case ParentReaps => s.(exit := s.exit[s.leader := Dead])
    case ExecAlone(t) => s
    case ExecStart(t) =>
      // zap_other_threads counts the other threads and kills the live ones
      var count := |s.members - {t}| - if t == s.leader then 0 else 1;
      Check1(s.(groupExitTask := Some(t), notifyCount := count, killed := s.killed + (s.members - {t})), t)
    case Recheck(t) => Check1(s, t)
    case Enter2(t) =>
      if t == s.leader then s.(pc := s.pc[t := Finish])
      else if s.exit[s.leader] == Alive then
        s.(notifyCount := -1, pc := s.pc[t := Loop2], asleep := s.asleep + {t})
      else
        // exchange_tids, transfer_pid and the change of group_leader
        s.(notifyCount := -1, leader := t, pid := s.pid[t := s.pid[s.leader]][s.leader := s.pid[t]],
           exit := s.exit[s.leader := Dead], pc := s.pc[t := Releasing(s.leader)])
    case SeeFatal(t) => s.(pc := s.pc[t := Killed])
    case GiveUp(t) => s.(groupExitTask := None, notifyCount := 0, pc := s.pc[t := Run])
    case Return(t) => s.(groupExitTask := None, notifyCount := 0, pc := s.pc[t := Run])
    case Awake(t) => s.(asleep := s.asleep - {t})
  }

  // ---- What every step keeps ----

  ghost predicate Members(s: State) {
    && (forall t :: t in s.members ==> s.In(t))
    && (s.members != {} ==> s.leader in s.members && s.pid[s.leader] == s.tgid)
    // only a leader waits as a zombie, and it goes last
    && (forall t :: t in s.members && s.exit[t] == Zombie ==> t == s.leader)
    && (s.members != {} && s.exit[s.leader] == Dead ==> s.members == {s.leader})
  }

  /** Only the recorded thread is inside de_thread, and it is alive. */
  ghost predicate OneExec(s: State)
    requires Members(s)
  {
    && (forall t :: t in s.members && !s.pc[t].Run? ==> s.groupExitTask == Some(t))
    && (s.groupExitTask.None? ==> s.notifyCount == 0)
    && (s.groupExitTask.Some? ==> s.Lives(s.groupExitTask.value) && !s.pc[s.groupExitTask.value].Run?)
  }

  /** Where exec stands: how many it waits for, and that it sleeps only while there is something to wait for. */
  ghost predicate Waiting(s: State, x: Tid)
    requires Members(s) && s.In(x) && s.In(s.leader)
  {
    && (forall t :: t in s.members && t != x && s.exit[t] == Alive ==> t in s.killed)
    && match s.pc[x] {
      case Run => true
      case Loop1 => s.notifyCount == |s.Others(x)| && (x in s.asleep ==> s.notifyCount > 0)
      case Before2 => s.notifyCount == 0 && s.Others(x) == {}
      case Loop2 =>
        s.notifyCount == -1 && s.Others(x) == {} && x != s.leader && (x in s.asleep ==> s.exit[s.leader] == Alive)
      case Releasing(l) =>
        s.notifyCount == -1 && s.members == {x, l} && x == s.leader && l != x && l in s.exit && s.exit[l] == Dead
      case Finish => s.notifyCount <= 0 && s.members == {x} && x == s.leader
      case Killed => s.notifyCount > 0 ==> s.notifyCount == |s.Others(x)|
    }
  }

  ghost predicate Inv(s: State) {
    && Members(s) && OneExec(s)
    && (s.groupExitTask.Some? ==> s.In(s.leader) && Waiting(s, s.groupExitTask.value))
  }

  ghost predicate Init(s: State) {
    && s.In(s.leader) && s.members == {s.leader} && s.pid[s.leader] == s.tgid
    && s.exit[s.leader] == Alive && s.pc[s.leader].Run?
    && s.killed == {} && s.asleep == {} && !s.groupExit && s.groupExitTask.None? && s.notifyCount == 0
  }

  lemma ForkKeeps(s: State, t: Tid, child: Tid, pid: Pid)
    requires Inv(s) && Enabled(s, Fork(t, child, pid))
    ensures Inv(Apply(s, Fork(t, child, pid)))
    // once exec has killed the others nobody can join
    ensures s.groupExitTask.None?
  {
  }

  lemma ExitNotifyKeeps(s: State, t: Tid, reap: bool)
    requires Inv(s) && Enabled(s, ExitNotify(t, reap))
    ensures Inv(Apply(s, ExitNotify(t, reap)))
  {
  }

  /** Neither the leader nor the thread in de_thread is released while an exec is under way. */
  lemma ReleaseSparesExec(s: State, t: Tid, zapLeader: bool)
    requires Members(s) && OneExec(s) && Enabled(s, Release(t, zapLeader)) && s.groupExitTask.Some?
    ensures t != s.leader && t != s.groupExitTask.value && !zapLeader
  {
    var x := s.groupExitTask.value;
    assert x in s.members - {t};
  }

  lemma ReleaseKeepsMembers(s: State, t: Tid, zapLeader: bool)
    requires Members(s) && OneExec(s) && Enabled(s, Release(t, zapLeader))
    ensures Members(Apply(s, Release(t, zapLeader)))
  {
  }

  lemma ReleaseKeepsExec(s: State, t: Tid, zapLeader: bool)
    requires Members(s) && OneExec(s) && Enabled(s, Release(t, zapLeader)) && Members(Apply(s, Release(t, zapLeader)))
    ensures OneExec(Apply(s, Release(t, zapLeader)))
  {
    if s.groupExitTask.Some? {
      ReleaseSparesExec(s, t, zapLeader);
    }
  }

  lemma ReleaseKeeps(s: State, t: Tid, zapLeader: bool)
    requires Inv(s) && Enabled(s, Release(t, zapLeader))
    ensures Inv(Apply(s, Release(t, zapLeader)))
  {
    ReleaseKeepsMembers(s, t, zapLeader);
    ReleaseKeepsExec(s, t, zapLeader);
    if s.groupExitTask.Some? {
      ReleaseSparesExec(s, t, zapLeader);
      ReleaseCounts(s, t, s.groupExitTask.value);
    }
    hide Waiting, Members, OneExec;
  }

  lemma ReleaseFields(s: State, t: Tid, x: Tid)
    requires s.groupExitTask == Some(x) && s.In(x) && Enabled(s, Release(t, false)) && t != s.leader
    ensures var s' := Apply(s, Release(t, false));
      && s'.members == s.members - {t} && s'.leader == s.leader && s'.killed == s.killed
      && s'.exit == s.exit && x in s'.pc
      && s'.pc[x] == (if s.pc[x] == Releasing(t) then Finish else s.pc[x])
      && s'.notifyCount == (if s.notifyCount > 0 then s.notifyCount - 1 else s.notifyCount)
      && s'.asleep <= s.asleep && (s.notifyCount == 1 ==> x !in s'.asleep)
  {
  }

  /** A released thread is one of those exec counts, or the old leader whose place exec has taken. */
  lemma ReleaseCounts(s: State, t: Tid, x: Tid)
    requires Members(s) && s.groupExitTask == Some(x) && s.In(x) && s.In(s.leader) && Waiting(s, x)
    requires Enabled(s, Release(t, false)) && t != s.leader && t != x
    requires Members(Apply(s, Release(t, false)))
    ensures Apply(s, Release(t, false)).In(s.leader) && Waiting(Apply(s, Release(t, false)), x)
  {
    hide Apply;
    var s' := Apply(s, Release(t, false));
    ReleaseFields(s, t, x);
    assert s'.Others(x) == s.Others(x) - {t} && t in s.Others(x);
  }

  lemma ExecStartKeeps(s: State, t: Tid)
    requires Inv(s) && Enabled(s, ExecStart(t))
    ensures Inv(Apply(s, ExecStart(t)))
  {
    var s' := Apply(s, ExecStart(t));
    if t == s.leader {
      assert s.members - {t} == s'.Others(t);
    } else {
      assert s.members - {t} == s'.Others(t) + {s.leader};
    }
  }

  lemma Enter2Keeps(s: State, t: Tid)
    requires Inv(s) && Enabled(s, Enter2(t))
    ensures Inv(Apply(s, Enter2(t)))
    // BUG_ON(leader->exit_state != EXIT_ZOMBIE) does not fire
    ensures t != s.leader ==> s.exit[s.leader] != Dead
  {
    assert s.members == {t, s.leader};
  }

  lemma ExecStepKeeps(s: State, step: Step)
    requires Inv(s) && Enabled(s, step) && (step.Recheck? || step.SeeFatal? || step.GiveUp? || step.Return?)
    ensures Inv(Apply(s, step))
  {
  }

  lemma OtherStepKeeps(s: State, step: Step)
    requires Inv(s) && Enabled(s, step) && (step.GroupKill? || step.ParentReaps? || step.ExecAlone? || step.Awake?)
    ensures Inv(Apply(s, step))
  {
  }

  lemma SameGroup(s: State, step: Step)
    requires Enabled(s, step)
    ensures Apply(s, step).tgid == s.tgid
  {
  }

  lemma InitKeeps(s: State)
    requires Init(s)
    ensures Inv(s)
  {
  }

  lemma StepKeepsInv(s: State, step: Step)
    requires Inv(s) && Enabled(s, step)
    ensures Inv(Apply(s, step))
  {
    hide Inv, Apply;
    match step
    case Fork(t, child, pid) => ForkKeeps(s, t, child, pid);
    case ExitNotify(t, reap) => ExitNotifyKeeps(s, t, reap);
    case Release(t, zapLeader) => ReleaseKeeps(s, t, zapLeader);
    case ExecStart(t) => ExecStartKeeps(s, t);
    case Enter2(t) => Enter2Keeps(s, t);
    case GroupKill => OtherStepKeeps(s, step);
    case ParentReaps => OtherStepKeeps(s, step);
    case ExecAlone(_) => OtherStepKeeps(s, step);
    case Awake(_) => OtherStepKeeps(s, step);
    case _ => ExecStepKeeps(s, step);
  }

  // ---- Whole runs ----

  ghost predicate IsRun(states: seq<State>, steps: seq<Step>) {
    && |states| == |steps| + 1 && Init(states[0])
    && forall k :: 0 <= k < |steps| ==> Enabled(states[k], steps[k]) && states[k + 1] == Apply(states[k], steps[k])
  }

  lemma {:induction false} RunKeepsInv(states: seq<State>, steps: seq<Step>, k: nat)
    requires IsRun(states, steps) && k < |states|
    ensures Inv(states[k]) && states[k].tgid == states[0].tgid
  {
    hide Enabled, Apply, Inv, Init;
    if k == 0 {
      InitKeeps(states[0]);
    } else {
      RunKeepsInv(states, steps, k - 1);
      SameGroup(states[k - 1], steps[k - 1]);
      assert states[k - 1 + 1] == Apply(states[k - 1], steps[k - 1]);
      StepKeepsInv(states[k - 1], steps[k - 1]);
    }
  }

  /** When de_thread returns 0, by either way, the group is exactly the caller, alive, leader, and with
      the pid the group had from the start. */
  lemma ExecEndsAlone(states: seq<State>, steps: seq<Step>, k: nat, t: Tid)
    requires IsRun(states, steps) && k < |steps| && (steps[k] == Return(t) || steps[k] == ExecAlone(t))
    ensures states[k + 1].members == {t} && states[k + 1].leader == t && states[k + 1].Lives(t)
    ensures states[k + 1].pid[t] == states[0].tgid
    ensures states[k + 1].groupExitTask.None? && states[k + 1].notifyCount == 0
  {
    RunKeepsInv(states, steps, k);
  }

  /** While exec sleeps in its first loop, notify_count is the number of other non-leader threads, it is
      not zero, every live one of them has been killed, and none can be added. In its second loop it
      sleeps only while the leader has not exited. So no wake-up is lost. */
  lemma NoWakeUpIsLost(states: seq<State>, steps: seq<Step>, k: nat, x: Tid)
    requires IsRun(states, steps) && k < |states|
    requires x in states[k].members && x in states[k].asleep && x in states[k].pc
    ensures states[k].pc[x].Loop1? ==>
      && states[k].notifyCount == |states[k].Others(x)| > 0
      && (forall t :: t in states[k].members && t != x && states[k].Lives(t) ==> t in states[k].killed)
    ensures states[k].pc[x].Loop2? ==> states[k].members == {x, states[k].leader} && states[k].Lives(states[k].leader)
    ensures states[k].pc[x].Loop1? || states[k].pc[x].Loop2? ==> !(k < |steps| && steps[k].Fork?)
  {
    RunKeepsInv(states, steps, k);
    if k < |steps| && steps[k].Fork? {
      ForkKeeps(states[k], steps[k].t, steps[k].child, steps[k].pid);
    }
  }
}
