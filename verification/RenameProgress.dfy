/** The lock order of rename: s_vfs_rename_mutex first, then directories downwards, then
    non-directories by address, with unrelated directories locked only under the mutex. No set of
    renaming threads can wait for each other in a circle. */
module RenameProgress {
  import opened DentryTree
  import opened Rename
  import opened Wrappers

  datatype Want = Nothing | Mutex | Inode(d: Dentry)

  /** The lock a thread needs for its next step. */
  function Wanted(ph: Phase): Want {
    match ph
    case Start(req) => if req.Cross() then Mutex else Inode(req.newDir)
    case LockFirst(_, _, first, _) => Inode(first)
    case LockSecond(_, _, _, second) => Inode(second)
    case LockKids(_, _, _, _, _, todo) => if todo == [] then Nothing else Inode(todo[0])
    case _ => Nothing
  }

  predicate Blocked(s: State, t: Tid)
    requires t in s.threads
  {
    match Wanted(s.threads[t])
    case Nothing => false
    case Mutex => s.mutex.Some?
    case Inode(d) => d in s.lock
  }

  /** The thread that holds what t waits for. */
  ghost function Holder(s: State, t: Tid): (h: Tid)
    requires LocksAgree(s) && MutexAgrees(s) && t in s.threads && Blocked(s, t)
    ensures h in s.threads && !s.threads[h].Idle?
  {
    match Wanted(s.threads[t])
    case Mutex => s.mutex.value
    case Inode(d) => s.lock[d]
  }

  /** Follow n waits from t, or stop at the first thread that waits for nobody. */
  ghost function Waits(s: State, t: Tid, n: nat): (u: Tid)
    requires LocksAgree(s) && MutexAgrees(s) && t in s.threads
    ensures u in s.threads
    decreases n
  {
    if n == 0 || !Blocked(s, t) then t else Waits(s, Holder(s, t), n - 1)
  }

  ghost predicate Unwinds(s: State, t: Tid)
    requires LocksAgree(s) && MutexAgrees(s) && t in s.threads
  {
    exists n: nat :: !Blocked(s, Waits(s, t, n))
  }

  lemma UnwindsVia(s: State, t: Tid)
    requires LocksAgree(s) && MutexAgrees(s) && t in s.threads
    requires Blocked(s, t) ==> Unwinds(s, Holder(s, t))
    ensures Unwinds(s, t)
  {
    hide LocksAgree, MutexAgrees;
    if Blocked(s, t) {
      var n: nat :| !Blocked(s, Waits(s, Holder(s, t), n));
      assert Waits(s, t, n + 1) == Waits(s, Holder(s, t), n);
    } else {
      assert Waits(s, t, 0) == t;
    }
  }

  ghost predicate MutexUnwinds(s: State)
    requires LocksAgree(s) && MutexAgrees(s)
  {
    s.mutex.Some? ==> Unwinds(s, s.mutex.value)
  }

  /** Whatever is locked is a directory or a non-directory, and a rename's own directories are directories. */
  lemma HeldKinds(s: State, t: Tid, d: Dentry)
    requires Inv(s) && t in s.threads && d in s.threads[t].Holds()
    ensures d in s.kind && s.kind[d] != Negative
    ensures s.kind[d] == NonDirectory ==> s.threads[t].LockKids? && d in s.threads[t].held
  {
    hide IsTree, LocksAgree, MutexAgrees, GoodTrap, IsTrap;
    var ph := s.threads[t];
    assert GoodPhase(s, ph);
    if ph.LockKids? && d in ph.held {
      assert d in ph.held + ph.todo;
    }
  }

  /** In one directory at most one child lock is held while another is wanted, and then both are
      non-directories in address order. */
  lemma SameDirectoryOrder(s: State, ph: Phase)
    requires IsTree(s.parent, s.root) && GoodPhase(s, ph) && ph.LockKids? && !ph.req.Cross() && ph.todo != []
    ensures ph.todo[0] in s.kind && s.kind[ph.todo[0]] != Negative
    ensures ph.todo[0] in s.parent && ph.todo[0] != s.root && s.parent[ph.todo[0]] == ph.req.newDir
    ensures forall d :: d in ph.held ==>
      && d in s.kind && s.kind[d] == NonDirectory && s.kind[ph.todo[0]] == NonDirectory && d < ph.todo[0]
  {
    hide IsTree;
    var locks := KidLocks(s.kind, ph.req, ph.src, ph.dst);
    assert ph.todo[0] == locks[|ph.held|];
    assert ph.held == locks[..|ph.held|];
  }

  ghost function Higher(kind: map<Dentry, Kind>, d: Dentry): set<Dentry> {
    set x | x in kind && x > d
  }

  lemma NonDirectoryChain(s: State, t: Tid, d: Dentry)
    requires Inv(s) && t in s.threads && d in s.threads[t].Holds() && d in s.kind && s.kind[d] == NonDirectory
    requires MutexUnwinds(s) ||
      (s.mutex.Some? ==>
         forall h :: h in s.threads[s.mutex.value].Holds() && h in s.kind && s.kind[h] == NonDirectory ==> h < d)
    ensures Unwinds(s, t)
    decreases Higher(s.kind, d)
  {
    hide IsTree, LocksAgree, GoodPhase;
    if Blocked(s, t) && s.mutex != Some(t) {
      OneDirectory(s, t, d);
      HeldKinds(s, t, d);
      var ph := s.threads[t];
      SameDirectoryOrder(s, ph);
      var w := ph.todo[0];
      LockedBy(s, w);
      assert w in Higher(s.kind, d) && w !in Higher(s.kind, w);
      NonDirectoryChain(s, s.lock[w], w);
    }
    if s.mutex != Some(t) || !Blocked(s, t) {
      UnwindsVia(s, t);
    }
  }

  /** A waiting thread with a lock but without the mutex is taking its child locks in one directory. */
  lemma OneDirectory(s: State, t: Tid, d: Dentry)
    requires Inv(s) && t in s.threads && d in s.threads[t].Holds() && Blocked(s, t) && s.mutex != Some(t)
    ensures s.threads[t].LockKids? && !s.threads[t].req.Cross() && s.threads[t].todo != []
  {
    hide IsTree, LocksAgree, TwoDirectories, GoodTrap, MayRename, KidLocks;
    assert GoodPhase(s, s.threads[t]);
  }

  lemma LockedBy(s: State, d: Dentry)
    requires LocksAgree(s) && d in s.lock
    ensures s.lock[d] in s.threads && d in s.threads[s.lock[d]].Holds()
  {
  }

  ghost function Below(parent: Parents, d: Dentry): set<Dentry>
    requires Closed(parent)
  {
    set x | x in parent && Above(parent, d, x)
  }

  lemma BelowShrinks(parent: Parents, root: Dentry, w: Dentry)
    requires IsTree(parent, root) && w in parent && w != root
    ensures Below(parent, w) < Below(parent, parent[w])
  {
    AboveParent(parent, w);
    AboveSelf(parent, parent[w]);
    NotAboveParent(parent, root, w);
    forall x | x in Below(parent, w)
      ensures x in Below(parent, parent[w])
    {
      AboveTransitive(parent, parent[w], w, x);
    }
    assert parent[w] in Below(parent, parent[w]) && parent[w] !in Below(parent, w);
  }

  lemma DirectoryChain(s: State, t: Tid, d: Dentry)
    requires Inv(s) && t in s.threads && d in s.threads[t].Holds()
    requires d in s.parent && d in s.kind && s.kind[d] == Directory
    requires MutexUnwinds(s) ||
      (s.mutex.Some? ==> forall h :: h in s.threads[s.mutex.value].Holds() ==>
        h in s.parent && h in s.kind && s.kind[h] == Directory && !Above(s.parent, d, h))
    ensures Unwinds(s, t)
    decreases Below(s.parent, d)
  {
    hide LocksAgree, GoodPhase;
    if Blocked(s, t) && s.mutex == Some(t) && !MutexUnwinds(s) {
      AboveSelf(s.parent, d);
      assert false;
    } else if Blocked(s, t) && s.mutex != Some(t) {
      OneDirectory(s, t, d);
      var ph := s.threads[t];
      SameDirectoryOrder(s, ph);
      var w := ph.todo[0];
      LockedBy(s, w);
      BelowShrinks(s.parent, s.root, w);
      AboveParent(s.parent, w);
      forall h | h in s.parent && Above(s.parent, w, h)
        ensures Above(s.parent, d, h)
      {
        AboveTransitive(s.parent, d, w, h);
      }
      if s.kind[w] == Directory {
        DirectoryChain(s, s.lock[w], w);
      } else {
        NonDirectoryChain(s, s.lock[w], w);
      }
    }
    if s.mutex != Some(t) || !Blocked(s, t) {
      UnwindsVia(s, t);
    }
  }

  /** The one thread that holds the mutex never waits for a directory above one it has locked. */
  lemma NothingHeldBelow(s: State, ph: Phase, w: Dentry)
    requires Inv(s) && GoodPhase(s, ph) && ph.NeedsMutex() && Wanted(ph) == Inode(w)
    ensures w in s.parent && w in s.kind && s.kind[w] != Negative
    ensures s.kind[w] == Directory ==> forall h :: h in ph.Holds() ==>
      h in s.parent && h in s.kind && s.kind[h] == Directory && !Above(s.parent, w, h)
    ensures s.kind[w] == NonDirectory ==>
      forall h :: h in ph.Holds() && h in s.kind && s.kind[h] == NonDirectory ==> h < w
  {
    hide LocksAgree, MutexAgrees;
    if ph.LockSecond? {
      SecondNotAboveFirst(s, ph);
    } else if ph.LockKids? {
      KidsNotAboveHeld(s, ph, w);
    }
  }

  lemma SecondNotAboveFirst(s: State, ph: Phase)
    requires IsTree(s.parent, s.root) && GoodPhase(s, ph) && ph.LockSecond?
    ensures !Above(s.parent, ph.second, ph.first)
  {
    var LockSecond(req, trap, first, second) := ph;
    if Above(s.parent, second, first) {
      if first == req.oldDir {
        AboveParent(s.parent, trap.value);
        AboveTransitive(s.parent, first, trap.value, second);
        AboveAntisymmetric(s.parent, s.root, first, second);
      } else {
        NoTrapNotAbove(s.parent, s.root, second, first);
      }
    }
  }

  /** With no trap, p1 is not a proper ancestor of p2. */
  lemma NoTrapNotAbove(parent: Parents, root: Dentry, p1: Dentry, p2: Dentry)
    requires IsTree(parent, root) && p1 in parent && p2 in parent && p1 != p2
    requires IsTrap(parent, root, p1, p2, None)
    ensures !Above(parent, p1, p2)
  {
    if n: nat :| Up(parent, p2, n) == p1 {
      var m := LeastHit(parent, p2, p1, n);
      ChildOnPath(parent, root, p1, p2, m);
    }
  }

  lemma ChildOnPath(parent: Parents, root: Dentry, p1: Dentry, p2: Dentry, m: nat)
    requires IsTree(parent, root) && p1 in parent && p2 in parent && p1 != p2
    requires Up(parent, p2, m) == p1 && forall k: nat :: k < m ==> Up(parent, p2, k) != p1
    ensures exists c :: c in parent && c != root && parent[c] == p1 && Above(parent, c, p2)
  {
    assert m > 0;
    var c := Up(parent, p2, m - 1);
    UpAdd(parent, p2, m - 1, 1);
    assert Up(parent, c, 1) == Up(parent, parent[c], 0) == parent[c];
    assert parent[c] == p1 && c != p1;
    assert Above(parent, c, p2);
  }

  lemma KidsNotAboveHeld(s: State, ph: Phase, w: Dentry)
    requires Inv(s) && GoodPhase(s, ph) && ph.LockKids? && ph.req.Cross() && Wanted(ph) == Inode(w)
    ensures w in s.parent && s.kind[w] != Negative
    ensures s.kind[w] == Directory ==> forall h :: h in ph.Holds() ==>
      h in s.parent && h in s.kind && s.kind[h] == Directory && !Above(s.parent, w, h)
    ensures s.kind[w] == NonDirectory ==>
      forall h :: h in ph.Holds() && h in s.kind && s.kind[h] == NonDirectory ==> h < w
  {
    hide Inv, GoodTrap, IsTrap, Above, KidLocks, IsTree;
    var LockKids(req, trap, src, dst, held, todo) := ph;
    KidOrder(s.kind, req, src, dst, held, todo);
    TreeOf(s);
    KidsNotAboveDirs(s, req, trap, src, dst);
  }

  lemma TreeOf(s: State)
    requires Inv(s)
    ensures IsTree(s.parent, s.root)
  {
  }

  /** The order in which vfs_rename locks the two: a directory first or after another one, and of two other
      inodes the lower one first. */
  lemma KidOrder(kind: map<Dentry, Kind>, req: Request, src: Dentry, dst: Dentry, held: seq<Dentry>, todo: seq<Dentry>)
    requires src in kind && dst in kind && src != dst && kind[src] != Negative && req.Cross()
    requires held + todo == KidLocks(kind, req, src, dst) && todo != []
    ensures var w := todo[0];
      && (w == src || w == dst) && kind[w] != Negative
      && (kind[w] == Directory ==> held == [] || (held == [src] && w == dst && kind[src] == Directory))
      && (kind[w] == NonDirectory ==> forall h :: h in held && h in kind && kind[h] == NonDirectory ==> h < w)
  {
    var locks := KidLocks(kind, req, src, dst);
    assert todo[0] == locks[|held|] && held == locks[..|held|];
  }

  lemma KidsNotAboveDirs(s: State, req: Request, trap: Option<Dentry>, src: Dentry, dst: Dentry)
    requires IsTree(s.parent, s.root) && GoodRequest(s, req) && req.Cross()
    requires GoodTrap(s, req, trap) && MayRename(s, req, trap, src, dst)
    ensures !Above(s.parent, src, req.newDir) && !Above(s.parent, src, req.oldDir)
    ensures !Above(s.parent, dst, req.newDir) && !Above(s.parent, dst, req.oldDir)
    ensures !Above(s.parent, dst, src)
  {
    TrapStopsLoops(s, req, trap, src, dst);
    NotAboveParent(s.parent, s.root, src);
    NotAboveParent(s.parent, s.root, dst);
    if Above(s.parent, dst, src) {
      AboveSplit(s.parent, dst, src);
    }
  }

  lemma MutexHolderUnwinds(s: State)
    requires Inv(s)
    ensures MutexUnwinds(s)
  {
    if s.mutex.Some? && Blocked(s, s.mutex.value) {
      var m := s.mutex.value;
      var w := Wanted(s.threads[m]).d;
      WantedByHolder(s, w);
      UnwindsVia(s, m);
    } else if s.mutex.Some? {
      UnwindsVia(s, s.mutex.value);
    }
  }

  lemma WantedByHolder(s: State, w: Dentry)
    requires Inv(s) && s.mutex.Some? && Blocked(s, s.mutex.value) && Wanted(s.threads[s.mutex.value]) == Inode(w)
    ensures Unwinds(s, s.lock[w])
  {
    hide IsTree, LocksAgree, GoodPhase;
    NothingHeldBelow(s, s.threads[s.mutex.value], w);
    LockedBy(s, w);
    if s.kind[w] == Directory {
      DirectoryChain(s, s.lock[w], w);
    } else {
      NonDirectoryChain(s, s.lock[w], w);
    }
  }

  /** Following the waits from any thread ends at a thread that waits for nobody. */
  lemma WaitsUnwind(s: State, t: Tid)
    requires Inv(s) && t in s.threads
    ensures Unwinds(s, t)
  {
    hide IsTree, LocksAgree, GoodPhase;
    MutexHolderUnwinds(s);
    if Blocked(s, t) && Wanted(s.threads[t]).Inode? {
      var w := Wanted(s.threads[t]).d;
      LockedBy(s, w);
      HeldKinds(s, s.lock[w], w);
      if s.kind[w] == Directory {
        DirectoryChain(s, s.lock[w], w);
      } else {
        NonDirectoryChain(s, s.lock[w], w);
      }
    }
    UnwindsVia(s, t);
  }

  lemma TrapExists(parent: Parents, root: Dentry, p1: Dentry, p2: Dentry) returns (trap: Option<Dentry>)
    requires IsTree(parent, root) && p1 in parent && p2 in parent
    ensures IsTrap(parent, root, p1, p2, trap)
  {
    if c :| c in parent && c != root && parent[c] == p1 && Above(parent, c, p2) {
      trap := Some(c);
    } else {
      trap := None;
    }
  }

  /** A renaming thread that waits for nobody has a step of its own. */
  lemma FindTrapMoves(s: State, t: Tid, req: Request) returns (step: Step)
    requires Inv(s) && t in s.threads && s.threads[t] == HaveMutex(req)
    ensures step.FindTrap? && step.t == t && Enabled(s, step)
  {
    hide LocksAgree, MutexAgrees, Above, MayRename, KidLocks;
    assert GoodPhase(s, s.threads[t]);
    var a := TrapExists(s.parent, s.root, req.oldDir, req.newDir);
    if a.Some? {
      step := FindTrap(t, a, req.oldDir, req.newDir);
    } else {
      var b := TrapExists(s.parent, s.root, req.newDir, req.oldDir);
      step := FindTrap(t, b, req.newDir, req.oldDir);
    }
  }

  lemma UnblockedMoves(s: State, t: Tid) returns (step: Step)
    requires Inv(s) && t in s.threads && !s.threads[t].Idle? && !Blocked(s, t)
    ensures !step.Instantiate? && step.t == t && Enabled(s, step)
  {
    hide Inv, Above, MayRename, KidLocks, TwoDirectories;
    match s.threads[t]
    case Start(req) => step := if req.Cross() then TakeMutex(t) else LockDir(t);
    case HaveMutex(req) =>
      step := FindTrapMoves(s, t, req);
    case LockFirst(_, _, _, _) => step := LockDir(t);
    case LockSecond(_, _, _, _) => step := LockDir(t);
    case Locked(_, _) => step := Fail(t);
    case LockKids(_, _, _, _, _, todo) => step := if todo == [] then Commit(t) else LockKid(t);
  }

  lemma {:induction false} ChainNotIdle(s: State, t: Tid, n: nat)
    requires LocksAgree(s) && MutexAgrees(s) && t in s.threads && !s.threads[t].Idle?
    ensures !s.threads[Waits(s, t, n)].Idle?
    decreases n
  {
    hide LocksAgree, MutexAgrees;
    if n > 0 && Blocked(s, t) {
      ChainNotIdle(s, Holder(s, t), n - 1);
    }
  }

  /** No deadlock: in every reachable state, following the waits from any renaming thread ends at a
      renaming thread with an enabled step. */
  lemma RenameNeverDeadlocks(states: seq<State>, steps: seq<Step>, i: nat, t: Tid)
    returns (n: nat, step: Step)
    requires Run(states, steps) && i < |states| && t in states[i].threads && !states[i].threads[t].Idle?
    ensures Inv(states[i])
    ensures !step.Instantiate? && step.t == Waits(states[i], t, n) && Enabled(states[i], step)
  {
    var s := states[i];
    RunKeepsInv(states, steps, i);
    hide Run, IsTree, LocksAgree, MutexAgrees, Enabled;
    WaitsUnwind(s, t);
    n :| !Blocked(s, Waits(s, t, n));
    ChainNotIdle(s, t, n);
    step := UnblockedMoves(s, Waits(s, t, n));
  }
}
