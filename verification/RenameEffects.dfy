/** What a rename does: which locks it holds when it commits, what the commit moves, and that each of its steps
    brings it nearer to its end. */
module RenameEffects {
  import opened DentryTree
  import opened Rename
  import opened Wrappers

  /** When a rename commits, it holds both directories, the rename mutex if they differ, every directory that
      changes its parent or goes away, and every other inode of the two. */
  lemma CommitHoldsLocks(s: State, t: Tid)
    requires Inv(s) && t in s.threads && s.threads[t].LockKids? && s.threads[t].todo == []
    ensures var ph := s.threads[t];
      var req, src, dst := ph.req, ph.src, ph.dst;
      && src in s.kind && dst in s.kind
      && Locks(s, t, req.newDir) && Locks(s, t, req.oldDir) && (req.newDir != req.oldDir ==> s.mutex == Some(t))
      && (s.kind[src] == NonDirectory || req.newDir != req.oldDir ==> Locks(s, t, src))
      && (s.kind[dst] == NonDirectory ==> Locks(s, t, dst))
      && (s.kind[dst] == Directory && (req.newDir != req.oldDir || !req.exchange) ==> Locks(s, t, dst))
  {
    hide IsTree, GoodTrap, IsTrap, Above;
    var ph := s.threads[t];
    assert GoodPhase(s, ph);
    assert ph.held + ph.todo == ph.held;
    assert forall d :: d in ph.Holds() ==> d in s.lock && s.lock[d] == t;
  }

  predicate Locks(s: State, t: Tid, d: Dentry) { d in s.lock && s.lock[d] == t }

  /** The source is in the new directory, an exchanged target in the old one, every other dentry where it was. */
  ghost predicate IsMoved(parent: Parents, moved: Parents, req: Request, src: Dentry, dst: Dentry) {
    && moved.Keys == parent.Keys && src in parent && dst in parent
    && moved[src] == req.newDir
    && (req.exchange ==> moved[dst] == req.oldDir)
    && (forall d :: d in parent && d != src && !(req.exchange && d == dst) ==> moved[d] == parent[d])
  }

  /** The thread has let go of everything, and of nothing else. */
  ghost predicate LetGo(s: State, s': State, t: Tid) {
    && t in s.threads && s'.threads == s.threads[t := Idle]
    && (forall d :: d in s'.lock <==> d in s.lock && s.lock[d] != t)
    && (forall d :: d in s'.lock ==> s'.lock[d] == s.lock[d])
    && s'.mutex == if s.mutex == Some(t) then None else s.mutex
  }

  /** The step commits exactly when every lock has been taken. */
  lemma CommitStep(s: State, t: Tid)
    ensures Enabled(s, Commit(t)) <==> t in s.threads && s.threads[t].LockKids? && s.threads[t].todo == []
    ensures Enabled(s, Commit(t)) ==> Apply(s, Commit(t)) == Committed(s, t)
  {
    hide Above, IsTrap, TwoDirectories;
  }

  /** d_move and d_exchange. */
  lemma CommitMoves(s: State, t: Tid)
    requires Inv(s) && t in s.threads && s.threads[t].LockKids? && s.threads[t].todo == []
    ensures var s', ph := Committed(s, t), s.threads[t];
      IsMoved(s.parent, s'.parent, ph.req, ph.src, ph.dst) && s'.root == s.root && s'.kind == s.kind && LetGo(s, s', t)
  {
    hide IsTree, GoodTrap, IsTrap, Above, KidLocks;
    assert GoodPhase(s, s.threads[t]);
    CommitKeepsKeys(s, s.threads[t]);
  }

  /** A failed rename moves nothing and lets go of everything. */
  lemma FailMovesNothing(s: State, t: Tid)
    requires Enabled(s, Fail(t))
    ensures var s' := Apply(s, Fail(t));
      s'.parent == s.parent && s'.root == s.root && s'.kind == s.kind && LetGo(s, s', t)
  {
    hide IsTree, TwoDirectories, IsTrap, Above, KidLocks;
  }

  /** On the way up to the source nothing has moved. */
  ghost predicate Unmoved(parent: Parents, moved: Parents, src: Dentry) {
    && moved.Keys == parent.Keys
    && forall x :: x in parent && x != src && moved[x] != parent[x] ==> !Above(parent, src, x)
  }

  /** Then what was below the source still is. */
  lemma {:induction false} StaysBelow(parent: Parents, moved: Parents, src: Dentry, d: Dentry, n: nat)
    requires Closed(parent) && Closed(moved) && Unmoved(parent, moved, src) && d in parent && Up(parent, d, n) == src
    ensures Above(moved, src, d)
    decreases n
  {
    hide Above, Unmoved, Closed, Up;
    UnmovedAt(parent, moved, src, d, n);
    if d == src {
      AboveSelf(moved, src);
    } else {
      StaysBelow(parent, moved, src, parent[d], n - 1);
      AboveParent(moved, d);
      AboveTransitive(moved, src, parent[d], d);
    }
  }

  lemma UnmovedAt(parent: Parents, moved: Parents, src: Dentry, d: Dentry, n: nat)
    requires Closed(parent) && Unmoved(parent, moved, src) && d in parent && Up(parent, d, n) == src
    ensures d in moved && parent[d] in parent && parent[d] in moved
    ensures d != src ==> n > 0 && Up(parent, parent[d], n - 1) == src && moved[d] == parent[d]
  {
    assert Above(parent, src, d);
  }

  lemma FromAbove(parent: Parents, moved: Parents, src: Dentry, d: Dentry)
    requires Closed(parent) && Closed(moved) && Unmoved(parent, moved, src) && d in parent && Above(parent, src, d)
    ensures Above(moved, src, d)
  {
    hide Unmoved;
    var n: nat :| Up(parent, d, n) == src;
    hide Above;
    StaysBelow(parent, moved, src, d, n);
  }

  /** A commit takes along all that is below the source: it ends up below the new directory. */
  lemma CommitCarries(s: State, t: Tid, d: Dentry)
    requires Inv(s) && t in s.threads && s.threads[t].LockKids? && s.threads[t].todo == []
    requires d in s.parent && Above(s.parent, s.threads[t].src, d)
    ensures Above(Committed(s, t).parent, s.threads[t].req.newDir, d)
  {
    hide Inv, Committed, IsTree, GoodPhase, Above, IsMoved, Closed;
    TreeAfter(s, t);
    CommitMoves(s, t);
    var ph := s.threads[t];
    NotBelowSource(s, ph);
    Carried(s.parent, Committed(s, t).parent, ph.req, ph.src, ph.dst, d);
  }

  lemma Carried(parent: Parents, moved: Parents, req: Request, src: Dentry, dst: Dentry, d: Dentry)
    requires Closed(parent) && Closed(moved) && IsMoved(parent, moved, req, src, dst)
    requires parent[dst] == req.newDir && (req.newDir != req.oldDir ==> !Above(parent, src, dst))
    requires d in parent && Above(parent, src, d)
    ensures Above(moved, req.newDir, d)
  {
    hide Above, Closed;
    assert Unmoved(parent, moved, src);
    FromAbove(parent, moved, src, d);
    AboveParent(moved, src);
    AboveTransitive(moved, req.newDir, src, d);
  }

  lemma TreeAfter(s: State, t: Tid)
    requires Inv(s) && t in s.threads && s.threads[t].LockKids? && s.threads[t].todo == []
    ensures IsTree(s.parent, s.root) && GoodPhase(s, s.threads[t])
    ensures Closed(s.parent) && Closed(Committed(s, t).parent)
  {
    hide GoodTrap, Above, KidLocks;
    CommitKeepsTree(s, s.threads[t]);
  }

  /** An exchanged target is not below the source. */
  lemma NotBelowSource(s: State, ph: Phase)
    requires IsTree(s.parent, s.root) && ph.LockKids? && GoodPhase(s, ph)
    ensures ph.req.newDir != ph.req.oldDir ==> !Above(s.parent, ph.src, ph.dst)
    ensures ph.src in s.parent && ph.dst in s.parent
    ensures s.parent[ph.src] == ph.req.oldDir && s.parent[ph.dst] == ph.req.newDir
  {
    hide KidLocks;
    if ph.req.Cross() {
      TrapStopsLoops(s, ph.req, ph.trap, ph.src, ph.dst);
      if Above(s.parent, ph.src, ph.dst) {
        AboveSplit(s.parent, ph.src, ph.dst);
      }
    }
  }

  /** How many steps a rename has left at most, lookups of new dentries not counted. */
  function StepsLeft(ph: Phase): nat {
    match ph
    case Idle => 0
    case Start(_) => 8
    case HaveMutex(_) => 7
    case LockFirst(_, _, _, _) => 6
    case LockSecond(_, _, _, _) => 5
    case Locked(_, _) => 4
    case LockKids(_, _, _, _, _, todo) => 1 + |todo|
  }

  lemma AtMostTwo(kind: map<Dentry, Kind>, req: Request, src: Dentry, dst: Dentry)
    requires src in kind && dst in kind
    ensures |KidLocks(kind, req, src, dst)| <= 2
  {
  }

  /** A step moves no other rename, and only a commit and a lookup of a new dentry change the tree. */
  lemma StepIsLocal(s: State, step: Step)
    requires Enabled(s, step) && !step.Instantiate?
    ensures var s' := Apply(s, step);
      && step.t in s.threads && s'.threads.Keys == s.threads.Keys
      && (forall u :: u in s.threads && u != step.t ==> s'.threads[u] == s.threads[u])
      && (!step.Commit? && !step.Alloc? ==> s'.parent == s.parent)
      && (step.Alloc? ==> s'.threads == s.threads && s'.parent == s.parent[step.d := step.dir])
  {
    hide TwoDirectories, IsTrap, Above, KidLocks, MayRename;
  }

  /** Every step of a rename but a lookup of a new dentry brings it nearer to its end, with the request it began
      with; it ends with a commit or a failure. */
  lemma StepNearerEnd(s: State, step: Step)
    requires Enabled(s, step) && !step.Instantiate? && !step.Alloc?
    ensures step.t in s.threads && step.t in Apply(s, step).threads
    ensures var ph, ph' := s.threads[step.t], Apply(s, step).threads[step.t];
      && (step.Begin? ==> ph' == Start(step.req))
      && (!step.Begin? ==>
            && StepsLeft(ph') < StepsLeft(ph) && !ph.Idle?
            && (!ph'.Idle? ==> ph'.req == ph.req)
            && (ph'.Idle? ==> step.Commit? || step.Fail?))
  {
    hide TwoDirectories, IsTrap, Above, KidLocks;
    if step.Lookup? {
      AtMostTwo(s.kind, s.threads[step.t].req, step.src, step.dst);
    }
  }

  /** A pair is let through exactly if both are where they were looked up, the source exists, an exchange has two
      that exist, otherwise directories replace directories only, and neither would end up below itself. */
  lemma LookupIsExact(s: State, t: Tid, src: Dentry, dst: Dentry)
    requires Inv(s) && t in s.threads && s.threads[t].Locked?
    ensures var req := s.threads[t].req;
      Enabled(s, Lookup(t, src, dst)) <==>
        && src in s.parent && src != s.root && s.parent[src] == req.oldDir && src in s.kind && s.kind[src] != Negative
        && dst in s.parent && dst != s.root && s.parent[dst] == req.newDir && dst in s.kind && src != dst
        && (if req.exchange then s.kind[dst] != Negative
            else s.kind[dst] == Negative || (s.kind[src] == Directory <==> s.kind[dst] == Directory))
        && (req.newDir != req.oldDir ==> !Above(s.parent, src, req.newDir) && !Above(s.parent, dst, req.oldDir))
  {
    hide IsTree, IsTrap, TwoDirectories, Above, LocksAgree, MutexAgrees;
    var ph := s.threads[t];
    assert GoodPhase(s, ph);
    if ph.req.Cross() && src in s.parent && src != s.root && s.parent[src] == ph.req.oldDir
       && dst in s.parent && dst != s.root && s.parent[dst] == ph.req.newDir {
      TrapIsExact(s, ph.req, ph.trap, src, dst);
    }
  }

  /** Any idle thread may begin a rename between two directories, and a thread that holds a directory may look up
      whatever is in it. */
  lemma CanBegin(s: State, t: Tid, req: Request, dir: Dentry, d: Dentry, k: Kind)
    requires t in s.threads
    ensures s.threads[t].Idle? && GoodRequest(s, req) ==> Enabled(s, Begin(t, req))
    ensures s.threads[t].Locked? && dir in {s.threads[t].req.newDir, s.threads[t].req.oldDir} ==>
      dir in s.parent && d !in s.parent ==> Enabled(s, Alloc(t, dir, d, k))
  {
  }
}
