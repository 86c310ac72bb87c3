/** walk_process_tree: a walk without a stack that climbs by real_parent, against the recursive walk. */
module ProcTree {
  type Task = nat

  /** Thread groups by leader, children by thread, and the two links that lead back up. */
  datatype Procs = Procs(threads: map<Task, seq<Task>>, children: map<Task, seq<Task>>,
                         groupLeader: map<Task, Task>, realParent: map<Task, Task>)

  /** The links agree with the lists, no list names a task twice, and the tree is finite: rank goes down from
      a process to its children. */
  ghost predicate Valid(p: Procs, rank: map<Task, nat>) {
    && (forall l, i :: l in p.threads && 0 <= i < |p.threads[l]| ==>
          InGroup(p, l, p.threads[l][i]))
    && (forall t, i :: t in p.children && 0 <= i < |p.children[t]| ==>
          IsChild(p, rank, t, p.children[t][i]))
    && (forall l, i, j :: l in p.threads && 0 <= i < j < |p.threads[l]| ==> p.threads[l][i] != p.threads[l][j])
    && (forall t, i, j :: t in p.children && 0 <= i < j < |p.children[t]| ==> p.children[t][i] != p.children[t][j])
  }

  predicate InGroup(p: Procs, l: Task, t: Task) {
    t in p.children && t in p.groupLeader && p.groupLeader[t] == l
  }

  ghost predicate IsChild(p: Procs, rank: map<Task, nat>, t: Task, c: Task) {
    && c in p.threads && c in p.realParent && p.realParent[c] == t
    && c in rank && t in p.groupLeader && p.groupLeader[t] in rank && rank[c] < rank[p.groupLeader[t]]
  }

  /** A visitor keeps its own data, so its answer may depend on all it has been shown before. */
  type Visitor = (seq<Task>, Task) -> int

  /** What has been visited so far, and whether the visitor has stopped the walk. */
  datatype Progress = Progress(seen: seq<Task>, stopped: bool)

  // ---- The recursive walk ----

  /** The processes below l, thread by thread. */
  ghost function Process(p: Procs, rank: map<Task, nat>, visit: Visitor, l: Task, seen: seq<Task>): (r: Progress)
    requires Valid(p, rank) && l in p.threads && l in rank
    ensures seen <= r.seen
    decreases rank[l], 2, 0
  {
    Threads(p, rank, visit, l, 0, seen)
  }

  /** The threads of l from number i on. */
  ghost function Threads(p: Procs, rank: map<Task, nat>, visit: Visitor, l: Task, i: nat,
                         seen: seq<Task>): (r: Progress)
    requires Valid(p, rank) && l in p.threads && l in rank && i <= |p.threads[l]|
    ensures seen <= r.seen
    decreases rank[l], 1, |p.threads[l]| - i
  {
    if i == |p.threads[l]| then Progress(seen, false)
    else
      var t := p.threads[l][i];
      assert InGroup(p, l, t);
      var r := Children(p, rank, visit, t, 0, seen);
      if r.stopped then r else Threads(p, rank, visit, l, i + 1, r.seen)
  }

  /** The children of thread t from number k on: visit each, and go below it if the answer is positive, past
      it on zero, and no further on a negative answer. */
  ghost function Children(p: Procs, rank: map<Task, nat>, visit: Visitor, t: Task, k: nat,
                          seen: seq<Task>): (r: Progress)
    requires Valid(p, rank) && t in p.children && k <= |p.children[t]|
    requires t in p.groupLeader && p.groupLeader[t] in rank
    ensures seen <= r.seen
    decreases rank[p.groupLeader[t]], 0, |p.children[t]| - k
  {
    if k == |p.children[t]| then Progress(seen, false)
    else
      var c := p.children[t][k];
      assert IsChild(p, rank, t, c);
      var res := visit(seen, c);
      if res < 0 then Progress(seen + [c], true)
      else
        var r := if res == 0 then Progress(seen + [c], false) else Process(p, rank, visit, c, seen + [c]);
        if r.stopped then r else Children(p, rank, visit, t, k + 1, r.seen)
  }

  // ---- What is left of the walk ----

  function IndexOf(s: seq<Task>, x: Task): (i: nat)
    ensures i <= |s| && (i < |s| ==> s[i] == x) && (i == |s| ==> x !in s)
  {
    if s == [] || s[0] == x then 0 else 1 + IndexOf(s[1..], x)
  }

  /** The chain of processes from the top to the one the walk is in. */
  ghost predicate Chain(p: Procs, rank: map<Task, nat>, path: seq<Task>) {
    && path != []
    && (forall j :: 0 <= j < |path| ==> path[j] in p.threads && path[j] in rank)
    && (forall j :: 0 < j < |path| ==> Descends(p, path[j - 1], path[j]))
  }

  /** c is a child of one of the threads of l. */
  predicate Descends(p: Procs, l: Task, c: Task) {
    && c in p.realParent && l in p.threads
    && var t := p.realParent[c];
    && t in p.groupLeader && p.groupLeader[t] == l && t in p.threads[l]
    && t in p.children && c in p.children[t]
  }

  /** A place in the two nested loops: thread i of l, its child k. */
  predicate At(p: Procs, l: Task, i: nat, k: nat) {
    && l in p.threads && i <= |p.threads[l]|
    && (if i == |p.threads[l]| then k == 0
        else p.threads[l][i] in p.children && k <= |p.children[p.threads[l][i]]|)
  }

  /** The rest of the two loops. */
  ghost function Here(p: Procs, rank: map<Task, nat>, visit: Visitor, l: Task, i: nat, k: nat,
                      seen: seq<Task>): (r: Progress)
    requires Valid(p, rank) && l in rank && At(p, l, i, k)
    ensures seen <= r.seen
  {
    if i == |p.threads[l]| then Progress(seen, false)
    else
      assert InGroup(p, l, p.threads[l][i]);
      var r := Children(p, rank, visit, p.threads[l][i], k, seen);
      if r.stopped then r else Threads(p, rank, visit, l, i + 1, r.seen)
  }

  /** The rest of the two loops, and then of those that the walk has come down from. */
  ghost function Rest(p: Procs, rank: map<Task, nat>, visit: Visitor, path: seq<Task>, i: nat, k: nat,
                      seen: seq<Task>): (r: Progress)
    requires Valid(p, rank) && Chain(p, rank, path) && At(p, path[|path| - 1], i, k)
    ensures seen <= r.seen
    decreases |path|
  {
    var n := |path| - 1;
    var r := Here(p, rank, visit, path[n], i, k, seen);
    if r.stopped || n == 0 then r
    else
      assert Descends(p, path[n - 1], path[n]);
      var t := p.realParent[path[n]];
      Rest(p, rank, visit, path[..n], IndexOf(p.threads[path[n - 1]], t), IndexOf(p.children[t], path[n]) + 1, r.seen)
  }

  lemma {:induction false} IndexOfDistinct(s: seq<Task>, i: nat)
    requires i < |s| && forall a, b :: 0 <= a < b < |s| ==> s[a] != s[b]
    ensures IndexOf(s, s[i]) == i
  {
  }

  /** The first visit at a place, and what it leaves to do. */
  lemma VisitStep(p: Procs, rank: map<Task, nat>, visit: Visitor, path: seq<Task>, i: nat, k: nat, seen: seq<Task>)
    requires Valid(p, rank) && Chain(p, rank, path)
    requires var l := path[|path| - 1]; At(p, l, i, k) && i < |p.threads[l]| && k < |p.children[p.threads[l][i]]|
    ensures var l := path[|path| - 1];
      var c := p.children[p.threads[l][i]][k];
      && At(p, l, i, k + 1) && At(p, c, 0, 0) && Chain(p, rank, path + [c])
      && Rest(p, rank, visit, path, i, k, seen)
         == if visit(seen, c) < 0 then Progress(seen + [c], true)
            else if visit(seen, c) == 0 then Rest(p, rank, visit, path, i, k + 1, seen + [c])
            else Rest(p, rank, visit, path + [c], 0, 0, seen + [c])
  {
    hide Process, Threads, IndexOf;
    var l := path[|path| - 1];
    var t := p.threads[l][i];
    var c := p.children[t][k];
    assert InGroup(p, l, t) && IsChild(p, rank, t, c) && Descends(p, l, c);
    if visit(seen, c) > 0 {
      DownStep(p, rank, visit, path, i, k, seen);
    }
  }

  /** Going below a child: the climb comes back to the place after that child. */
  lemma DownStep(p: Procs, rank: map<Task, nat>, visit: Visitor, path: seq<Task>, i: nat, k: nat, seen: seq<Task>)
    requires Valid(p, rank) && Chain(p, rank, path)
    requires var l := path[|path| - 1]; At(p, l, i, k) && i < |p.threads[l]| && k < |p.children[p.threads[l][i]]|
    ensures var l := path[|path| - 1];
      var c := p.children[p.threads[l][i]][k];
      && At(p, l, i, k + 1) && At(p, c, 0, 0) && Chain(p, rank, path + [c])
      && Rest(p, rank, visit, path + [c], 0, 0, seen + [c])
         == var r := Process(p, rank, visit, c, seen + [c]);
            if r.stopped then r else Rest(p, rank, visit, path, i, k + 1, r.seen)
  {
    hide IndexOf, Children;
    var l := path[|path| - 1];
    var t := p.threads[l][i];
    var c := p.children[t][k];
    assert InGroup(p, l, t) && IsChild(p, rank, t, c) && Descends(p, l, c);
    IndexOfDistinct(p.threads[l], i);
    IndexOfDistinct(p.children[t], k);
    var path' := path + [c];
    assert path'[..|path|] == path;
    assert p.threads[c] != [] ==> InGroup(p, c, p.threads[c][0]);
  }

  /** The iterative walk shows the visitor exactly what the recursive one does, and comes to an end. */
  method WalkProcessTree(p: Procs, ghost rank: map<Task, nat>, visit: Visitor, start: Task) returns (seen: seq<Task>)
    requires Valid(p, rank) && start in p.groupLeader
    requires p.groupLeader[start] in p.threads && p.groupLeader[start] in rank
    ensures seen == Process(p, rank, visit, p.groupLeader[start], []).seen
  {
    hide Process, Children, Threads, Here, Rest, IndexOf;
    var top := p.groupLeader[start];
    var leader := top;
    var i: nat, k: nat := 0, 0;
    seen := [];
    ghost var path := [top];
    ghost var goal := Process(p, rank, visit, top, []);
    Begin(p, rank, visit, top);
    while true
      invariant Chain(p, rank, path) && path[0] == top && path[|path| - 1] == leader && At(p, leader, i, k)
      invariant goal == Rest(p, rank, visit, path, i, k, seen)
      decreases |goal.seen| - |seen|, |path|, |p.threads[leader]| - i
    {
      if i < |p.threads[leader]| {
        var parent := p.threads[leader][i];
        if k < |p.children[parent]| {
          var child := p.children[parent][k];
          VisitStep(p, rank, visit, path, i, k, seen);
          var res := visit(seen, child);
          seen := seen + [child];
          if res < 0 {
            return;
          }
          if res > 0 {
            path := path + [child];
            leader, i, k := child, 0, 0;
          } else {
            k := k + 1;
          }
        } else {
          NextThread(p, rank, visit, path, i, seen);
          i, k := i + 1, 0;
        }
      } else if leader != top {
        Climb(p, rank, visit, path, i, seen);
        var child := leader;
        var parent := p.realParent[child];
        leader := p.groupLeader[parent];
        i, k := IndexOf(p.threads[leader], parent), IndexOf(p.children[parent], child) + 1;
        path := path[..|path| - 1];
      } else {
        Finish(p, rank, visit, path, i, seen);
        return;
      }
    }
  }

  lemma Begin(p: Procs, rank: map<Task, nat>, visit: Visitor, top: Task)
    requires Valid(p, rank) && top in p.threads && top in rank
    ensures Chain(p, rank, [top]) && At(p, top, 0, 0)
    ensures Rest(p, rank, visit, [top], 0, 0, []) == Process(p, rank, visit, top, [])
  {
    hide Children;
    assert p.threads[top] != [] ==> InGroup(p, top, p.threads[top][0]);
  }

  lemma NextThread(p: Procs, rank: map<Task, nat>, visit: Visitor, path: seq<Task>, i: nat, seen: seq<Task>)
    requires Valid(p, rank) && Chain(p, rank, path)
    requires var l := path[|path| - 1];
      i < |p.threads[l]| && p.threads[l][i] in p.children && At(p, l, i, |p.children[p.threads[l][i]]|)
    ensures var l := path[|path| - 1];
      && At(p, l, i + 1, 0)
      && Rest(p, rank, visit, path, i, |p.children[p.threads[l][i]]|, seen)
         == Rest(p, rank, visit, path, i + 1, 0, seen)
  {
    var l := path[|path| - 1];
    assert InGroup(p, l, p.threads[l][i]);
    assert i + 1 < |p.threads[l]| ==> InGroup(p, l, p.threads[l][i + 1]);
  }

  lemma Climb(p: Procs, rank: map<Task, nat>, visit: Visitor, path: seq<Task>, i: nat, seen: seq<Task>)
    requires Valid(p, rank) && Chain(p, rank, path)
    requires At(p, path[|path| - 1], i, 0) && i == |p.threads[path[|path| - 1]]|
    requires path[0] != path[|path| - 1]
    ensures var n := |path| - 1;
      && n > 0 && Descends(p, path[n - 1], path[n]) && Chain(p, rank, path[..n])
      && var t := p.realParent[path[n]];
      var i', k' := IndexOf(p.threads[path[n - 1]], t), IndexOf(p.children[t], path[n]) + 1;
      && At(p, path[n - 1], i', k')
      && Rest(p, rank, visit, path, i, 0, seen) == Rest(p, rank, visit, path[..n], i', k', seen)
  {
    hide IndexOf;
  }

  lemma Finish(p: Procs, rank: map<Task, nat>, visit: Visitor, path: seq<Task>, i: nat, seen: seq<Task>)
    requires Valid(p, rank) && Chain(p, rank, path)
    requires At(p, path[|path| - 1], i, 0) && i == |p.threads[path[|path| - 1]]|
    requires path[0] == path[|path| - 1]
    ensures Rest(p, rank, visit, path, i, 0, seen) == Progress(seen, false)
  {
    if |path| > 1 {
      RankFalls(p, rank, path, |path| - 1);
    }
  }

  lemma {:induction false} RankFalls(p: Procs, rank: map<Task, nat>, path: seq<Task>, j: nat)
    requires Valid(p, rank) && Chain(p, rank, path) && 0 < j < |path|
    ensures rank[path[j]] < rank[path[0]]
  {
    assert Descends(p, path[j - 1], path[j]);
    var t := p.realParent[path[j]];
    assert IsChild(p, rank, t, path[j]);
    if j > 1 {
      RankFalls(p, rank, path, j - 1);
    }
  }

  // ---- Whom the walk visits ----

  function Up(p: Procs, c: Task): Task {
    if c in p.realParent && p.realParent[c] in p.groupLeader then p.groupLeader[p.realParent[c]] else c
  }

  /** The visitor has asked to go below l, or l is where the walk began. */
  ghost predicate Opened(visit: Visitor, top: Task, seen: seq<Task>, l: Task) {
    l == top || exists j :: 0 <= j < |seen| && seen[j] == l && visit(seen[..j], seen[j]) > 0
  }

  /** No process is visited twice, nor the one at the top, and each only after the visitor has asked to go
      below its parent's process. */
  ghost predicate InOrder(p: Procs, visit: Visitor, top: Task, seen: seq<Task>) {
    && top !in seen
    && (forall i, j :: 0 <= i < j < |seen| ==> seen[i] != seen[j])
    && (forall j :: 0 <= j < |seen| ==> Opened(visit, top, seen[..j], Up(p, seen[j])))
  }

  /** All that has been visited since is below thread t. */
  ghost predicate BelowThread(p: Procs, seen: seq<Task>, now: seq<Task>, t: Task) {
    seen <= now && forall j :: |seen| <= j < |now| ==>
      (now[j] in p.realParent && p.realParent[now[j]] == t) || Up(p, now[j]) in now[|seen|..]
  }

  ghost predicate BelowProcess(p: Procs, seen: seq<Task>, now: seq<Task>, l: Task) {
    seen <= now && forall j :: |seen| <= j < |now| ==> Up(p, now[j]) == l || Up(p, now[j]) in now[|seen|..]
  }

  ghost predicate Unseen(p: Procs, t: Task, k: nat, seen: seq<Task>)
    requires t in p.children
  {
    forall b :: k <= b < |p.children[t]| ==> p.children[t][b] !in seen
  }

  lemma OpenedLater(visit: Visitor, top: Task, seen: seq<Task>, now: seq<Task>, l: Task)
    requires seen <= now && Opened(visit, top, seen, l)
    ensures Opened(visit, top, now, l)
  {
    if l != top {
      var j :| 0 <= j < |seen| && seen[j] == l && visit(seen[..j], seen[j]) > 0;
      assert now[j] == l && now[..j] == seen[..j];
    }
  }

  /** A process whose children are about to be visited for the first time has none of them among the visited. */
  lemma NoneOfItsChildren(p: Procs, rank: map<Task, nat>, visit: Visitor, top: Task, seen: seq<Task>, l: Task, t: Task)
    requires Valid(p, rank) && InOrder(p, visit, top, seen) && l != top && l !in seen
    requires InGroup(p, l, t)
    ensures Unseen(p, t, 0, seen + [l])
  {
    forall b | 0 <= b < |p.children[t]| ensures p.children[t][b] !in seen + [l] {
      var c := p.children[t][b];
      assert IsChild(p, rank, t, c);
      assert Up(p, c) == l && c != l;
    }
  }

  /** The top and everything opened is not visited again. */
  lemma NotAgain(p: Procs, visit: Visitor, top: Task, seen: seq<Task>, now: seq<Task>, l: Task)
    requires seen <= now && InOrder(p, visit, top, now) && Opened(visit, top, seen, l)
    ensures l !in now[|seen|..]
  {
  }

  /** Visiting one child. */
  lemma VisitInOrder(p: Procs, rank: map<Task, nat>, visit: Visitor, top: Task, t: Task, k: nat, seen: seq<Task>)
    requires Valid(p, rank) && t in p.children && k < |p.children[t]|
    requires t in p.groupLeader && p.groupLeader[t] in rank && top in rank && rank[p.groupLeader[t]] <= rank[top]
    requires InOrder(p, visit, top, seen) && Opened(visit, top, seen, p.groupLeader[t]) && Unseen(p, t, k, seen)
    ensures var c := p.children[t][k];
      var here := seen + [c];
      && IsChild(p, rank, t, c) && c != top && c !in seen
      && InOrder(p, visit, top, here) && BelowThread(p, seen, here, t) && Unseen(p, t, k + 1, here)
      && (visit(seen, c) > 0 ==> Opened(visit, top, here, c))
  {
    var c := p.children[t][k];
    assert IsChild(p, rank, t, c);
    var here := seen + [c];
    assert here[|seen|] == c && here[..|seen|] == seen;
    forall j | 0 <= j < |here| ensures Opened(visit, top, here[..j], Up(p, here[j])) {
      assert j < |seen| ==> here[..j] == seen[..j];
    }
    if visit(seen, c) > 0 {
      assert visit(here[..|seen|], here[|seen|]) > 0;
    }
  }

  /** Back from below that child. */
  lemma BackInOrder(p: Procs, rank: map<Task, nat>, visit: Visitor, top: Task, t: Task, k: nat, seen: seq<Task>,
                    now: seq<Task>)
    requires Valid(p, rank) && t in p.children && k < |p.children[t]|
    requires t in p.groupLeader && Opened(visit, top, seen, p.groupLeader[t])
    requires var here := seen + [p.children[t][k]];
      Unseen(p, t, k + 1, here) && InOrder(p, visit, top, now) && BelowProcess(p, here, now, p.children[t][k])
    ensures BelowThread(p, seen, now, t) && Unseen(p, t, k + 1, now)
  {
    hide InOrder, Opened;
    var c, l := p.children[t][k], p.groupLeader[t];
    assert IsChild(p, rank, t, c);
    var here := seen + [c];
    assert now[|seen|] == here[|seen|] == c;
    forall j | |seen| <= j < |now| && now[j] != c ensures Up(p, now[j]) in now[|seen|..] {
      assert j > |seen|;
      assert now[|here|..] == now[|seen|..][1..];
      assert now[|seen|..][0] == c;
    }
    NotAgain(p, visit, top, seen, now, l);
    forall b | k + 1 <= b < |p.children[t]| ensures p.children[t][b] !in now {
      var x := p.children[t][b];
      assert IsChild(p, rank, t, x) && Up(p, x) == l;
      assert x !in here;
    }
  }

  lemma ChainedSuffix(a: seq<Task>, b: seq<Task>, c: seq<Task>)
    requires a <= b <= c
    ensures forall x :: x in b[|a|..] || x in c[|b|..] ==> x in c[|a|..]
    ensures forall j :: |a| <= j < |b| ==> c[j] == b[j]
  {
    assert c[|a|..] == b[|a|..] + c[|b|..];
  }

  lemma BelowThreadTwice(p: Procs, a: seq<Task>, b: seq<Task>, c: seq<Task>, t: Task)
    requires BelowThread(p, a, b, t) && BelowThread(p, b, c, t)
    ensures BelowThread(p, a, c, t)
  {
    hide Up;
    ChainedSuffix(a, b, c);
    forall j | |a| <= j < |c|
      ensures (c[j] in p.realParent && p.realParent[c[j]] == t) || Up(p, c[j]) in c[|a|..]
    {
      assert j < |b| ==> c[j] == b[j];
    }
  }

  lemma BelowProcessTwice(p: Procs, a: seq<Task>, b: seq<Task>, c: seq<Task>, l: Task)
    requires BelowProcess(p, a, b, l) && BelowProcess(p, b, c, l)
    ensures BelowProcess(p, a, c, l)
  {
    hide Up;
    ChainedSuffix(a, b, c);
  }

  /** Below one thread there are no children of another thread of the group. */
  lemma OtherThread(p: Procs, rank: map<Task, nat>, visit: Visitor, top: Task, l: Task, t: Task, other: Task,
                    seen: seq<Task>, now: seq<Task>)
    requires Valid(p, rank) && InGroup(p, l, t) && InGroup(p, l, other) && t != other
    requires Opened(visit, top, seen, l) && InOrder(p, visit, top, now)
    requires BelowThread(p, seen, now, t) && Unseen(p, other, 0, seen)
    ensures Unseen(p, other, 0, now)
  {
    hide InOrder, Opened;
    NotAgain(p, visit, top, seen, now, l);
    forall b | 0 <= b < |p.children[other]| ensures p.children[other][b] !in now {
      var x := p.children[other][b];
      assert IsChild(p, rank, other, x) && Up(p, x) == l;
    }
  }

  lemma ThreadIsProcess(p: Procs, seen: seq<Task>, now: seq<Task>, l: Task, t: Task)
    requires InGroup(p, l, t) && BelowThread(p, seen, now, t)
    ensures BelowProcess(p, seen, now, l)
  {
  }

  lemma {:induction false} ChildrenInOrder(p: Procs, rank: map<Task, nat>, visit: Visitor, top: Task, t: Task,
                                           k: nat, seen: seq<Task>)
    requires Valid(p, rank) && t in p.children && k <= |p.children[t]|
    requires t in p.groupLeader && p.groupLeader[t] in rank && top in rank && rank[p.groupLeader[t]] <= rank[top]
    requires InOrder(p, visit, top, seen) && Opened(visit, top, seen, p.groupLeader[t]) && Unseen(p, t, k, seen)
    ensures var now := Children(p, rank, visit, t, k, seen).seen;
      InOrder(p, visit, top, now) && BelowThread(p, seen, now, t)
    decreases rank[p.groupLeader[t]], 0, |p.children[t]| - k
  {
    hide Threads, Unseen, InOrder, BelowProcess, Opened, Up;
    if k < |p.children[t]| {
      var c := p.children[t][k];
      var here := seen + [c];
      VisitInOrder(p, rank, visit, top, t, k, seen);
      if visit(seen, c) >= 0 {
        var now := here;
        if visit(seen, c) > 0 {
          assert here[..|seen|] == seen;
          forall a | 0 <= a < |p.threads[c]|
            ensures InGroup(p, c, p.threads[c][a]) && Unseen(p, p.threads[c][a], 0, here)
          {
            NoneOfItsChildren(p, rank, visit, top, seen, c, p.threads[c][a]);
          }
          ThreadsInOrder(p, rank, visit, top, c, 0, here);
          now := Process(p, rank, visit, c, here).seen;
          BackInOrder(p, rank, visit, top, t, k, seen, now);
        }
        if !(visit(seen, c) > 0 && Process(p, rank, visit, c, here).stopped) {
          OpenedLater(visit, top, seen, now, p.groupLeader[t]);
          ChildrenInOrder(p, rank, visit, top, t, k + 1, now);
          BelowThreadTwice(p, seen, now, Children(p, rank, visit, t, k + 1, now).seen, t);
        }
      }
    }
  }

  lemma {:induction false} ThreadsInOrder(p: Procs, rank: map<Task, nat>, visit: Visitor, top: Task, l: Task,
                                          i: nat, seen: seq<Task>)
    requires Valid(p, rank) && l in p.threads && l in rank && i <= |p.threads[l]|
    requires top in rank && rank[l] <= rank[top]
    requires InOrder(p, visit, top, seen) && Opened(visit, top, seen, l)
    requires forall a :: i <= a < |p.threads[l]| ==>
      InGroup(p, l, p.threads[l][a]) && Unseen(p, p.threads[l][a], 0, seen)
    ensures var now := Threads(p, rank, visit, l, i, seen).seen;
      InOrder(p, visit, top, now) && BelowProcess(p, seen, now, l)
    decreases rank[l], 1, |p.threads[l]| - i
  {
    hide Children, Unseen, InOrder, BelowThread, Opened, Up;
    if i < |p.threads[l]| {
      var t := p.threads[l][i];
      ChildrenInOrder(p, rank, visit, top, t, 0, seen);
      var r := Children(p, rank, visit, t, 0, seen);
      ThreadIsProcess(p, seen, r.seen, l, t);
      if !r.stopped {
        forall a | i + 1 <= a < |p.threads[l]| ensures Unseen(p, p.threads[l][a], 0, r.seen) {
          OtherThread(p, rank, visit, top, l, t, p.threads[l][a], seen, r.seen);
        }
        OpenedLater(visit, top, seen, r.seen, l);
        ThreadsInOrder(p, rank, visit, top, l, i + 1, r.seen);
        BelowProcessTwice(p, seen, r.seen, Threads(p, rank, visit, l, i + 1, r.seen).seen, l);
      }
    }
  }

  /** No visitor is shown a process twice, or before it has asked to go below that process's parent. */
  lemma VisitedOnceInOrder(p: Procs, rank: map<Task, nat>, visit: Visitor, top: Task)
    requires Valid(p, rank) && top in p.threads && top in rank
    ensures InOrder(p, visit, top, Process(p, rank, visit, top, []).seen)
  {
    forall a | 0 <= a < |p.threads[top]| ensures InGroup(p, top, p.threads[top][a]) {
    }
    ThreadsInOrder(p, rank, visit, top, top, 0, []);
  }

  // ---- Whom the walk does not miss ----

  /** Every child of every thread of l has been visited. */
  ghost predicate Covered(p: Procs, l: Task, seen: seq<Task>) {
    l in p.threads && forall i :: 0 <= i < |p.threads[l]| ==> AllSeen(p, p.threads[l][i], 0, seen)
  }

  ghost predicate AllSeen(p: Procs, t: Task, k: nat, seen: seq<Task>) {
    t in p.children && forall b :: k <= b < |p.children[t]| ==> p.children[t][b] in seen
  }

  /** Since then, every process that the visitor asked to go below has been covered. */
  ghost predicate OpenedCovered(p: Procs, visit: Visitor, seen: seq<Task>, now: seq<Task>) {
    forall j :: |seen| <= j < |now| && visit(now[..j], now[j]) > 0 ==> Covered(p, now[j], now)
  }

  lemma CoveredLater(p: Procs, visit: Visitor, a: seq<Task>, b: seq<Task>, c: seq<Task>)
    requires a <= b <= c && OpenedCovered(p, visit, a, b) && OpenedCovered(p, visit, b, c)
    ensures OpenedCovered(p, visit, a, c)
  {
    forall j | |a| <= j < |b| && visit(c[..j], c[j]) > 0 ensures Covered(p, c[j], c) {
      assert c[..j] == b[..j] && c[j] == b[j];
      assert Covered(p, b[j], b);
    }
  }

  lemma {:induction false} ChildrenCovered(p: Procs, rank: map<Task, nat>, visit: Visitor, t: Task, k: nat,
                                           seen: seq<Task>)
    requires Valid(p, rank) && t in p.children && k <= |p.children[t]|
    requires t in p.groupLeader && p.groupLeader[t] in rank
    ensures var r := Children(p, rank, visit, t, k, seen);
      !r.stopped ==> AllSeen(p, t, k, r.seen) && OpenedCovered(p, visit, seen, r.seen)
    decreases rank[p.groupLeader[t]], 0, |p.children[t]| - k
  {
    hide Threads, Covered, OpenedCovered;
    var r := Children(p, rank, visit, t, k, seen);
    if k == |p.children[t]| {
      NoneYet(p, visit, seen);
    } else if !r.stopped {
      var c := p.children[t][k];
      assert IsChild(p, rank, t, c);
      var here := seen + [c];
      var now := if visit(seen, c) == 0 then here else Process(p, rank, visit, c, here).seen;
      if visit(seen, c) > 0 {
        ThreadsCovered(p, rank, visit, c, 0, here);
      } else {
        NoneYet(p, visit, here);
      }
      OneCovered(p, visit, c, seen, now);
      ChildrenCovered(p, rank, visit, t, k + 1, now);
      CoveredLater(p, visit, seen, now, r.seen);
      assert c in r.seen by {
        assert here[|seen|] == c && r.seen[|seen|] == c;
      }
    }
  }

  lemma NoneYet(p: Procs, visit: Visitor, seen: seq<Task>)
    ensures OpenedCovered(p, visit, seen, seen)
  {
  }

  lemma OneCovered(p: Procs, visit: Visitor, c: Task, seen: seq<Task>, now: seq<Task>)
    requires seen + [c] <= now && OpenedCovered(p, visit, seen + [c], now)
    requires visit(seen, c) > 0 ==> Covered(p, c, now)
    ensures OpenedCovered(p, visit, seen, now)
  {
    var here := seen + [c];
    assert here[|seen|] == c && here[..|seen|] == seen;
    assert now[|seen|] == c && now[..|seen|] == seen;
  }

  lemma {:induction false} ThreadsCovered(p: Procs, rank: map<Task, nat>, visit: Visitor, l: Task, i: nat,
                                          seen: seq<Task>)
    requires Valid(p, rank) && l in p.threads && l in rank && i <= |p.threads[l]|
    ensures var r := Threads(p, rank, visit, l, i, seen);
      !r.stopped ==>
        && (forall a :: i <= a < |p.threads[l]| ==> AllSeen(p, p.threads[l][a], 0, r.seen))
        && OpenedCovered(p, visit, seen, r.seen)
    ensures i == 0 && !Threads(p, rank, visit, l, i, seen).stopped ==>
      Covered(p, l, Threads(p, rank, visit, l, i, seen).seen)
    decreases rank[l], 1, |p.threads[l]| - i
  {
    hide Children, OpenedCovered;
    var r := Threads(p, rank, visit, l, i, seen);
    if i == |p.threads[l]| {
      NoneYet(p, visit, seen);
    } else if !r.stopped {
      var t := p.threads[l][i];
      assert InGroup(p, l, t);
      ChildrenCovered(p, rank, visit, t, 0, seen);
      var now := Children(p, rank, visit, t, 0, seen).seen;
      ThreadsCovered(p, rank, visit, l, i + 1, now);
      CoveredLater(p, visit, seen, now, r.seen);
      assert AllSeen(p, t, 0, r.seen);
    }
  }

  /** Unless the visitor stops it, the walk visits every child of the top and of every process that the
      visitor asked to go below. */
  lemma NoneMissed(p: Procs, rank: map<Task, nat>, visit: Visitor, top: Task)
    requires Valid(p, rank) && top in p.threads && top in rank
    ensures var r := Process(p, rank, visit, top, []);
      !r.stopped ==> forall l :: Opened(visit, top, r.seen, l) ==> Covered(p, l, r.seen)
  {
    hide Threads;
    ThreadsCovered(p, rank, visit, top, 0, []);
  }
}
