/** de_thread comes to an end: while an exec is under way some thread can take a step that brings it nearer, and
    what the steps that begin and disturb it do. */
module DeThreadProgress {
  import opened DeThread
  import opened Wrappers

  /** The live threads beside x. */
  function LiveOthers(s: State, x: Tid): set<Tid> {
    set t | t in s.members && t in s.exit && s.exit[t] == Alive && t != x
  }

  function Rank(s: State, x: Tid): nat {
    if x !in s.pc then 0
    else
      match s.pc[x]
      case Loop1 => if x in s.asleep then 8 else 9
      case Before2 => 7
      case Loop2 => if x in s.asleep then 5 else 6
      case Releasing(_) => 4
      case Finish => 3
      case Killed => 2
      case Run => 0
  }

  /** How far x is from the end of its exec. */
  function Distance(s: State, x: Tid): nat {
    10 * (|LiveOthers(s, x)| + |s.members|) + Rank(s, x)
  }

  lemma FewerThreads(s: State, s': State, x: Tid, t: Tid)
    requires t in s.members && s'.members == s.members - {t} && s'.exit == s.exit && Rank(s', x) <= 9
    ensures Distance(s', x) < Distance(s, x) + 10 && |s'.members| == |s.members| - 1
    ensures Rank(s', x) < Rank(s, x) + 10 ==> Distance(s', x) < Distance(s, x)
  {
    assert LiveOthers(s', x) <= LiveOthers(s, x);
    Smaller(LiveOthers(s', x), LiveOthers(s, x));
  }

  lemma {:induction false} Smaller(a: set<Tid>, b: set<Tid>)
    requires a <= b
    ensures |a| <= |b|
  {
    if a != {} {
      var x :| x in a;
      Smaller(a - {x}, b - {x});
    }
  }

  lemma FewerLive(s: State, s': State, x: Tid, t: Tid)
    requires t in LiveOthers(s, x) && s'.members == s.members && t in s'.exit && s'.exit[t] != Alive
    requires forall u :: u in s.members && u != t ==>
      (u in s'.exit <==> u in s.exit) && (u in s.exit ==> s'.exit[u] == s.exit[u])
    ensures Rank(s', x) < Rank(s, x) + 10 ==> Distance(s', x) < Distance(s, x)
  {
    assert LiveOthers(s', x) == LiveOthers(s, x) - {t};
  }

  /** While an exec is under way, some thread can take a step after which it is nearer to its end, or over. */
  lemma ExecGoesOn(s: State) returns (step: Step)
    requires Inv(s) && s.groupExitTask.Some?
    ensures Enabled(s, step) && !step.Awake?
    ensures var x, s' := s.groupExitTask.value, Apply(s, step);
      s'.groupExitTask.None? || (s'.groupExitTask == Some(x) && Distance(s', x) < Distance(s, x))
  {
    hide Apply, Waiting, Distance;
    var x := s.groupExitTask.value;
    if s.pc[x].Loop1? {
      step := InLoop1(s, x);
    } else if s.pc[x].Loop2? {
      step := InLoop2(s, x);
    } else if s.pc[x].Before2? || s.pc[x].Releasing? {
      step := InBetween(s, x);
    } else {
      step := AtTheEnd(s, x);
    }
  }

  lemma AtTheEnd(s: State, x: Tid) returns (step: Step)
    requires Inv(s) && s.groupExitTask == Some(x) && (s.pc[x].Finish? || s.pc[x].Killed?)
    ensures Enabled(s, step) && !step.Awake? && Apply(s, step).groupExitTask.None?
  {
    step := if s.pc[x].Finish? then Return(x) else GiveUp(x);
  }

  lemma InBetween(s: State, x: Tid) returns (step: Step)
    requires Inv(s) && s.groupExitTask == Some(x) && (s.pc[x].Before2? || s.pc[x].Releasing?)
    ensures Enabled(s, step) && !step.Awake?
    ensures var s' := Apply(s, step); s'.groupExitTask == Some(x) && Distance(s', x) < Distance(s, x)
  {
    if s.pc[x].Before2? {
      step := Enter2(x);
      Enter2Nearer(s, x);
    } else {
      step := Release(s.pc[x].former, false);
      FewerThreads(s, Apply(s, step), x, s.pc[x].former);
    }
  }

  lemma Enter2Nearer(s: State, x: Tid)
    requires Inv(s) && s.groupExitTask == Some(x)
    requires s.pc[x].Before2? || (s.pc[x].Loop2? && x !in s.asleep && x !in s.killed)
    ensures Enabled(s, Enter2(x))
    ensures var s' := Apply(s, Enter2(x)); s'.groupExitTask == Some(x) && Distance(s', x) < Distance(s, x)
  {
    var s' := Apply(s, Enter2(x));
    assert s'.members == s.members && Rank(s', x) < Rank(s, x);
    assert LiveOthers(s', x) <= LiveOthers(s, x);
    Smaller(LiveOthers(s', x), LiveOthers(s, x));
  }

  lemma RankOnly(s: State, s': State, x: Tid)
    requires s'.members == s.members && s'.exit == s.exit && Rank(s', x) < Rank(s, x)
    ensures Distance(s', x) < Distance(s, x)
  {
    assert LiveOthers(s', x) == LiveOthers(s, x);
  }

  lemma InLoop1(s: State, x: Tid) returns (step: Step)
    requires Inv(s) && s.groupExitTask == Some(x) && s.pc[x].Loop1?
    ensures Enabled(s, step) && !step.Awake?
    ensures var s' := Apply(s, step); s'.groupExitTask == Some(x) && Distance(s', x) < Distance(s, x)
  {
    hide Distance;
    if x !in s.asleep {
      hide Waiting;
      step := if x in s.killed then SeeFatal(x) else Recheck(x);
      RankOnly(s, Apply(s, step), x);
    } else {
      var t := SomeOther(s, x);
      step := OtherGoes(s, x, t);
    }
  }

  lemma SomeOther(s: State, x: Tid) returns (t: Tid)
    requires Inv(s) && s.groupExitTask == Some(x) && s.pc[x].Loop1? && x in s.asleep
    ensures t in s.members && t != x && t != s.leader
  {
    t :| t in s.Others(x);
  }

  /** A thread that exec waits for exits, or is released once it has. */
  lemma OtherGoes(s: State, x: Tid, t: Tid) returns (step: Step)
    requires Inv(s) && s.groupExitTask == Some(x) && t in s.members && t != x && t != s.leader
    requires s.pc[x].Loop1? && x in s.asleep
    ensures Enabled(s, step) && !step.Awake?
    ensures var s' := Apply(s, step); s'.groupExitTask == Some(x) && Distance(s', x) < Distance(s, x)
  {
    hide Distance, Waiting;
    if s.exit[t] == Alive {
      step := ExitNotify(t, false);
      FewerLive(s, Apply(s, step), x, t);
    } else {
      step := Release(t, false);
      FewerThreads(s, Apply(s, step), x, t);
    }
  }

  lemma InLoop2(s: State, x: Tid) returns (step: Step)
    requires Inv(s) && s.groupExitTask == Some(x) && s.pc[x].Loop2?
    ensures Enabled(s, step) && !step.Awake?
    ensures var s' := Apply(s, step); s'.groupExitTask == Some(x) && Distance(s', x) < Distance(s, x)
  {
    hide Distance;
    if x in s.asleep {
      step := ExitNotify(s.leader, false);
      FewerLive(s, Apply(s, step), x, s.leader);
    } else if x in s.killed {
      step := SeeFatal(x);
      RankOnly(s, Apply(s, step), x);
    } else {
      step := Enter2(x);
      Enter2Nearer(s, x);
    }
  }

  // ---- What begins and disturbs an exec ----

  /** A clone adds a live thread that runs. */
  lemma ForkJoins(s: State, t: Tid, child: Tid, pid: Pid)
    requires Enabled(s, Fork(t, child, pid))
    ensures var s' := Apply(s, Fork(t, child, pid));
      && s'.members == s.members + {child} && s'.Lives(child) && s'.pid[child] == pid && s'.pc[child] == Run
      && s'.leader == s.leader && s'.killed == s.killed && child !in s'.killed
      && (forall u :: u in s.members && s.In(u) ==>
            s'.In(u) && s'.pid[u] == s.pid[u] && s'.exit[u] == s.exit[u] && s'.pc[u] == s.pc[u])
  {
  }

  /** de_thread begins by killing every other thread, under its own name. */
  lemma ExecBegins(s: State, t: Tid)
    requires Enabled(s, ExecStart(t))
    ensures var s' := Apply(s, ExecStart(t));
      && !s.groupExit && s.groupExitTask.None? && s.members != {t}
      && s'.groupExitTask == Some(t) && s'.members == s.members && s'.exit == s.exit && s'.pid == s.pid
      && (forall u :: u in s.members && u != t ==> u in s'.killed) && (t in s'.killed <==> t in s.killed)
      && t in s'.pc && (s'.pc[t].Loop1? || s'.pc[t].Before2?) && s'.leader == s.leader
  {
  }

  /** A thread that exits is dead or, as leader, a zombie until it is reaped or left alone. */
  lemma ThreadExits(s: State, t: Tid, reap: bool)
    requires Enabled(s, ExitNotify(t, reap))
    ensures var s' := Apply(s, ExitNotify(t, reap));
      && s'.members == s.members && t in s'.exit
      && s'.exit[t] == (if t != s.leader || (s.members == {t} && reap) then Dead else Zombie)
      && (s.notifyCount < 0 && s.groupExitTask.Some? ==> s.groupExitTask.value !in s'.asleep)
  {
  }

  /** A group exit kills and wakes all of them. */
  lemma GroupIsKilled(s: State)
    ensures var s' := Apply(s, GroupKill);
      s'.groupExit && s.members <= s'.killed && s'.asleep == {} && s'.members == s.members && s'.exit == s.exit
  {
  }

  /** So at every point of every run an exec that is under way can go on. */
  lemma NoExecIsStuck(states: seq<State>, steps: seq<Step>, k: nat) returns (step: Step)
    requires IsRun(states, steps) && k < |states| && states[k].groupExitTask.Some?
    ensures Enabled(states[k], step) && !step.Awake?
    ensures var x, s' := states[k].groupExitTask.value, Apply(states[k], step);
      s'.groupExitTask.None? || (s'.groupExitTask == Some(x) && Distance(s', x) < Distance(states[k], x))
  {
    hide Apply, Enabled, Inv, Init, Distance;
    RunKeepsInv(states, steps, k);
    step := ExecGoesOn(states[k]);
  }
}
