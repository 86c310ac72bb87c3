/** renameat2 by any number of threads: lock_rename, the lookups and checks of do_renameat2, the
    child locks and the move of vfs_rename, one step for each lock taken. */
module Rename {
  import opened DentryTree
  import opened Wrappers

  type Tid = nat

  datatype Kind = Directory | NonDirectory | Negative

  datatype Request = Request(newDir: Dentry, oldDir: Dentry, exchange: bool) {
    predicate Cross() { newDir != oldDir }
  }

  /** Where a thread is. The dentry inode locks it holds are a function of its phase. */
  datatype Phase =
    | Idle
    | Start(req: Request)
    | HaveMutex(req: Request)
    | LockFirst(req: Request, trap: Option<Dentry>, first: Dentry, second: Dentry)
    | LockSecond(req: Request, trap: Option<Dentry>, first: Dentry, second: Dentry)
    | Locked(req: Request, trap: Option<Dentry>)
    | LockKids(req: Request, trap: Option<Dentry>, src: Dentry, dst: Dentry, held: seq<Dentry>, todo: seq<Dentry>)
  {
    /** The thread is between lock_rename and unlock_rename of a cross-directory rename. */
    predicate NeedsMutex() { !Idle? && !Start? && req.Cross() }

    function Holds(): set<Dentry> {
      match this
      case LockSecond(_, _, first, _) => {first}
      case Locked(req, _) => {req.newDir, req.oldDir}
      case LockKids(req, _, _, _, held, _) => {req.newDir, req.oldDir} + (set d | d in held)
      case _ => {}
    }
  }

  datatype State = State(
    root: Dentry,
    parent: Parents,
    kind: map<Dentry, Kind>,
    lock: map<Dentry, Tid>,
    mutex: Option<Tid>,
    threads: map<Tid, Phase>)
  {
    function Release(t: Tid): State
      requires t in threads
    {
      this.(lock := map d | d in lock && lock[d] != t :: lock[d],
            mutex := if mutex == Some(t) then None else mutex,
            threads := threads[t := Idle])
    }

    function Take(t: Tid, d: Dentry, next: Phase): State {
      this.(lock := lock[d := t], threads := threads[t := next])
    }
  }

  /** The inode locks of vfs_rename on source and target, in the order it takes them; non-directories
      go after directories and in address order. */
  function KidLocks(kind: map<Dentry, Kind>, req: Request, src: Dentry, dst: Dentry): seq<Dentry>
    requires src in kind && dst in kind
  {
    var target := kind[dst] != Negative;
    var newIsDir := kind[dst] == Directory;
    var lockNew := req.Cross() || !req.exchange;
    if kind[src] == Directory then
      (if req.Cross() then [src] else []) + (if target && (!newIsDir || lockNew) then [dst] else [])
    else if newIsDir then
      (if lockNew then [dst] else []) + [src]
    else if target then
      if src < dst then [src, dst] else [dst, src]
    else [src]
  }

  /** do_renameat2 and vfs_rename let the pair through: both looked up under the two directories, the
      source positive, neither is the trap, and the kinds agree unless the two are exchanged. */
  predicate MayRename(s: State, req: Request, trap: Option<Dentry>, src: Dentry, dst: Dentry) {
    && src in s.parent && src in s.kind && src != s.root && s.parent[src] == req.oldDir
    && dst in s.parent && dst in s.kind && dst != s.root && s.parent[dst] == req.newDir
    && src != dst
    && s.kind[src] != Negative
    && trap != Some(src) && trap != Some(dst)
    && (req.exchange ==> s.kind[dst] != Negative)
    && (!req.exchange && s.kind[dst] != Negative ==> (s.kind[src] == Directory <==> s.kind[dst] == Directory))
  }

  /** d_move or d_exchange: the source takes the target's place, and on exchange the target the source's. */
  function Moved(parent: Parents, req: Request, src: Dentry, dst: Dentry): Parents {
    if req.exchange then parent[src := req.newDir][dst := req.oldDir] else parent[src := req.newDir]
  }

  /** lock_two_directories: which directory goes first and what is the trap. */
  ghost predicate TwoDirectories(s: State, req: Request, trap: Option<Dentry>, first: Dentry, second: Dentry) {
    || (trap.Some? && IsTrap(s.parent, s.root, req.oldDir, req.newDir, trap)
        && first == req.oldDir && second == req.newDir)
    || (IsTrap(s.parent, s.root, req.oldDir, req.newDir, None)
        && IsTrap(s.parent, s.root, req.newDir, req.oldDir, trap)
        && first == req.newDir && second == req.oldDir)
  }

  datatype Step =
    | Begin(t: Tid, req: Request)
    | TakeMutex(t: Tid)
    | FindTrap(t: Tid, trap: Option<Dentry>, first: Dentry, second: Dentry)
    | LockDir(t: Tid)
    | Alloc(t: Tid, dir: Dentry, d: Dentry, k: Kind)
    | Lookup(t: Tid, src: Dentry, dst: Dentry)
    | LockKid(t: Tid)
    | Commit(t: Tid)
    | Fail(t: Tid)
    | Instantiate(d: Dentry, k: Kind)

  ghost predicate Enabled(s: State, step: Step) {
    match step
    case Begin(t, req) =>
      && t in s.threads && s.threads[t].Idle?
      && req.newDir in s.parent && req.oldDir in s.parent
      && req.newDir in s.kind && s.kind[req.newDir] == Directory
      && req.oldDir in s.kind && s.kind[req.oldDir] == Directory
    case TakeMutex(t) =>
      t in s.threads && s.threads[t].Start? && s.threads[t].req.Cross() && s.mutex.None?
    case FindTrap(t, trap, first, second) =>
      && t in s.threads && s.threads[t].HaveMutex?
      && s.threads[t].req.newDir in s.parent && s.threads[t].req.oldDir in s.parent
      && TwoDirectories(s, s.threads[t].req, trap, first, second)
    case LockDir(t) =>
      && t in s.threads
      && match s.threads[t] {
        case Start(req) => !req.Cross() && req.newDir !in s.lock
        case LockFirst(_, _, first, _) => first !in s.lock
        case LockSecond(_, _, _, second) => second !in s.lock
        case _ => false
      }
    // a lookup brings in what the directory holds, or a negative dentry
    case Alloc(t, dir, d, k) =>
      && t in s.threads && s.threads[t].Locked? && dir in s.threads[t].Holds() && dir in s.parent
      && d !in s.parent
    case Lookup(t, src, dst) =>
      t in s.threads && s.threads[t].Locked? && MayRename(s, s.threads[t].req, s.threads[t].trap, src, dst)
    case LockKid(t) =>
      t in s.threads && s.threads[t].LockKids? && s.threads[t].todo != [] && s.threads[t].todo[0] !in s.lock
    case Commit(t) =>
      t in s.threads && s.threads[t].LockKids? && s.threads[t].todo == []
    case Fail(t) =>
      t in s.threads && (s.threads[t].Locked? || (s.threads[t].LockKids? && s.threads[t].todo == []))
    case Instantiate(d, k) =>
      d in s.kind && s.kind[d] == Negative && d in s.parent && s.parent[d] !in s.lock
  }

  /** The move of vfs_rename, and unlock_rename. */
  function Committed(s: State, t: Tid): State
    requires t in s.threads && s.threads[t].LockKids?
  {
    var ph := s.threads[t];
    s.(parent := Moved(s.parent, ph.req, ph.src, ph.dst)).Release(t)
  }

  ghost function Apply(s: State, step: Step): State
    requires Enabled(s, step)
  {
    match step
    case Begin(t, req) => s.(threads := s.threads[t := Start(req)])
    case TakeMutex(t) => s.(mutex := Some(t), threads := s.threads[t := HaveMutex(s.threads[t].req)])
    case FindTrap(t, trap, first, second) =>
      s.(threads := s.threads[t := LockFirst(s.threads[t].req, trap, first, second)])
    case LockDir(t) =>
      (match s.threads[t]
       case Start(req) => s.Take(t, req.newDir, Locked(req, None))
       case LockFirst(req, trap, first, second) => s.Take(t, first, LockSecond(req, trap, first, second))
       case LockSecond(req, trap, _, second) => s.Take(t, second, Locked(req, trap)))
    case Alloc(t, dir, d, k) => s.(parent := s.parent[d := dir], kind := s.kind[d := k])
    case Lookup(t, src, dst) =>
      var ph := s.threads[t];
      s.(threads := s.threads[t := LockKids(ph.req, ph.trap, src, dst, [], KidLocks(s.kind, ph.req, src, dst))])
    case LockKid(t) =>
      var ph := s.threads[t];
      s.Take(t, ph.todo[0], ph.(held := ph.held + [ph.todo[0]], todo := ph.todo[1..]))
    case Commit(t) => Committed(s, t)
    case Fail(t) => s.Release(t)
    case Instantiate(d, k) => s.(kind := s.kind[d := k])
  }

  // ---- What every step keeps ----

  ghost predicate GoodRequest(s: State, req: Request) {
    && req.newDir in s.parent && req.oldDir in s.parent
    && req.newDir in s.kind && s.kind[req.newDir] == Directory
    && req.oldDir in s.kind && s.kind[req.oldDir] == Directory
  }

  ghost predicate GoodTrap(s: State, req: Request, trap: Option<Dentry>) {
    if req.Cross() then exists first, second :: TwoDirectories(s, req, trap, first, second) else trap == None
  }

  ghost predicate GoodPhase(s: State, ph: Phase) {
    && (!ph.Idle? ==> GoodRequest(s, ph.req))
    && match ph {
      case HaveMutex(req) => req.Cross()
      case LockFirst(req, trap, first, second) => req.Cross() && TwoDirectories(s, req, trap, first, second)
      case LockSecond(req, trap, first, second) => req.Cross() && TwoDirectories(s, req, trap, first, second)
      case Locked(req, trap) => GoodTrap(s, req, trap)
      case LockKids(req, trap, src, dst, held, todo) =>
        && GoodTrap(s, req, trap)
        && MayRename(s, req, trap, src, dst)
        && held + todo == KidLocks(s.kind, req, src, dst)
      case _ => true
    }
  }

  ghost predicate LocksAgree(s: State) {
    && (forall d :: d in s.lock ==> s.lock[d] in s.threads && d in s.threads[s.lock[d]].Holds())
    && (forall t, d :: t in s.threads && d in s.threads[t].Holds() ==> d in s.lock && s.lock[d] == t)
  }

  ghost predicate MutexAgrees(s: State) {
    && (s.mutex.Some? ==> s.mutex.value in s.threads && s.threads[s.mutex.value].NeedsMutex())
    && (forall t :: t in s.threads && s.threads[t].NeedsMutex() ==> s.mutex == Some(t))
  }

  ghost predicate Inv(s: State) {
    && IsTree(s.parent, s.root)
    && s.kind.Keys == s.parent.Keys
    && LocksAgree(s)
    && MutexAgrees(s)
    && (forall t :: t in s.threads ==> GoodPhase(s, s.threads[t]))
  }

  ghost predicate Init(s: State) {
    && IsTree(s.parent, s.root)
    && s.kind.Keys == s.parent.Keys
    && s.lock == map[] && s.mutex == None
    && forall t :: t in s.threads ==> s.threads[t] == Idle
  }

  /** The two trap checks are exact: the source is the trap if and only if it is above the new
      directory, and the target is the trap if and only if it is above the old one. */
  lemma TrapIsExact(s: State, req: Request, trap: Option<Dentry>, src: Dentry, dst: Dentry)
    requires IsTree(s.parent, s.root) && GoodRequest(s, req) && req.Cross() && GoodTrap(s, req, trap)
    requires src in s.parent && src != s.root && s.parent[src] == req.oldDir
    requires dst in s.parent && dst != s.root && s.parent[dst] == req.newDir
    ensures trap == Some(src) <==> Above(s.parent, src, req.newDir)
    ensures trap == Some(dst) <==> Above(s.parent, dst, req.oldDir)
  {
    var first, second :| TwoDirectories(s, req, trap, first, second);
    if Above(s.parent, src, req.newDir) && first == req.oldDir {
      TrapIsUnique(s.parent, s.root, req.oldDir, req.newDir, trap, src);
    }
    if Above(s.parent, dst, req.oldDir) {
      if first == req.newDir {
        TrapIsUnique(s.parent, s.root, req.newDir, req.oldDir, trap, dst);
      } else {
        OldDirAboveNewDir(s, req, trap, dst);
      }
    }
  }

  /** So neither dentry that passed the checks is above the directory it would move to. */
  lemma TrapStopsLoops(s: State, req: Request, trap: Option<Dentry>, src: Dentry, dst: Dentry)
    requires IsTree(s.parent, s.root) && GoodRequest(s, req) && req.Cross()
    requires GoodTrap(s, req, trap) && MayRename(s, req, trap, src, dst)
    ensures !Above(s.parent, src, req.newDir)
    ensures !Above(s.parent, dst, req.oldDir)
  {
    TrapIsExact(s, req, trap, src, dst);
  }

  lemma OldDirAboveNewDir(s: State, req: Request, trap: Option<Dentry>, dst: Dentry)
    requires IsTree(s.parent, s.root) && GoodRequest(s, req) && req.Cross()
    requires trap.Some? && IsTrap(s.parent, s.root, req.oldDir, req.newDir, trap)
    requires dst in s.parent && dst != s.root && s.parent[dst] == req.newDir
    ensures !Above(s.parent, dst, req.oldDir)
  {
    if Above(s.parent, dst, req.oldDir) {
      AboveParent(s.parent, trap.value);
      AboveTransitive(s.parent, req.oldDir, trap.value, req.newDir);
      AboveTransitive(s.parent, dst, req.oldDir, req.newDir);
      NotAboveParent(s.parent, s.root, dst);
    }
  }

  /** Moving or exchanging two dentries that passed the checks keeps the tree. */
  lemma CommitKeepsTree(s: State, ph: Phase)
    requires IsTree(s.parent, s.root) && ph.LockKids? && GoodPhase(s, ph)
    ensures IsTree(Moved(s.parent, ph.req, ph.src, ph.dst), s.root)
    ensures !ph.req.Cross() ==> Moved(s.parent, ph.req, ph.src, ph.dst) == s.parent
  {
    var LockKids(req, trap, src, dst, _, _) := ph;
    if req.Cross() {
      TrapStopsLoops(s, req, trap, src, dst);
      MoveKeepsTree(s.parent, s.root, src, req.newDir);
      if req.exchange {
        NotAboveParent(s.parent, s.root, src);
        var moved := s.parent[src := req.newDir];
        forall n: nat
          ensures Up(moved, req.oldDir, n) != dst
        {
          SamePathAvoiding(s.parent, req.oldDir, n, src, req.newDir);
        }
        MoveKeepsTree(moved, s.root, dst, req.oldDir);
      }
    } else {
      assert Moved(s.parent, req, src, dst) == s.parent;
    }
  }

  // ---- Each step keeps the invariant ----

  /** GoodPhase reads only the tree and the kinds. */
  lemma PhaseFrame(s: State, s': State, ph: Phase)
    requires IsTree(s.parent, s.root) && GoodPhase(s, ph)
    requires s'.parent == s.parent && s'.kind == s.kind && s'.root == s.root
    ensures GoodPhase(s', ph)
  {
    hide IsTree, IsTrap, KidLocks;
    if (ph.Locked? || ph.LockKids?) && ph.req.Cross() {
      var first, second :| TwoDirectories(s, ph.req, ph.trap, first, second);
      assert TwoDirectories(s', ph.req, ph.trap, first, second);
    }
  }

  /** A step of t that leaves tree and kinds alone needs only its own new phase checked. */
  lemma OnlyThread(s: State, s': State, t: Tid, next: Phase)
    requires Inv(s) && t in s.threads && s'.threads == s.threads[t := next]
    requires s'.parent == s.parent && s'.kind == s.kind && s'.root == s.root
    requires LocksAgree(s') && MutexAgrees(s') && GoodPhase(s', next)
    ensures Inv(s')
  {
    hide IsTree, LocksAgree, MutexAgrees, GoodPhase;
    forall u | u in s'.threads
      ensures GoodPhase(s', s'.threads[u])
    {
      if u != t {
        PhaseFrame(s, s', s.threads[u]);
      }
    }
  }

  lemma SameLocks(s: State, s': State, t: Tid, next: Phase)
    requires LocksAgree(s) && t in s.threads && s'.threads == s.threads[t := next]
    requires s'.lock == s.lock && next.Holds() == s.threads[t].Holds()
    ensures LocksAgree(s')
  {
    forall d | d in s'.lock
      ensures s'.lock[d] in s'.threads && d in s'.threads[s'.lock[d]].Holds()
    {
      assert s.lock[d] in s.threads;
    }
  }

  /** Taking a free lock keeps the agreement of locks and phases. */
  lemma TakeKeepsLocks(s: State, t: Tid, d: Dentry, next: Phase)
    requires LocksAgree(s) && t in s.threads && d !in s.lock
    requires next.Holds() == s.threads[t].Holds() + {d}
    ensures LocksAgree(s.Take(t, d, next))
  {
    var s' := s.Take(t, d, next);
    forall x | x in s'.lock
      ensures s'.lock[x] in s'.threads && x in s'.threads[s'.lock[x]].Holds()
    {
      if x != d {
        assert x in s.threads[s.lock[x]].Holds();
      }
    }
  }

  lemma ReleaseKeepsLocks(s: State, t: Tid)
    requires LocksAgree(s) && MutexAgrees(s) && t in s.threads
    ensures LocksAgree(s.Release(t)) && MutexAgrees(s.Release(t))
  {
    var s' := s.Release(t);
    forall x | x in s'.lock
      ensures s'.lock[x] in s'.threads && x in s'.threads[s'.lock[x]].Holds()
    {
      assert x in s.threads[s.lock[x]].Holds();
    }
  }

  lemma SameMutex(s: State, s': State, t: Tid, next: Phase)
    requires MutexAgrees(s) && t in s.threads && s'.threads == s.threads[t := next]
    requires s'.mutex == s.mutex && next.NeedsMutex() == s.threads[t].NeedsMutex()
    ensures MutexAgrees(s')
  {
  }

  lemma BeginKeeps(s: State, t: Tid, req: Request)
    requires Inv(s) && Enabled(s, Begin(t, req))
    ensures Inv(Apply(s, Begin(t, req)))
  {
    hide IsTree, LocksAgree, MutexAgrees;
    var s' := Apply(s, Begin(t, req));
    SameLocks(s, s', t, Start(req));
    SameMutex(s, s', t, Start(req));
    OnlyThread(s, s', t, Start(req));
  }

  lemma TakeMutexKeeps(s: State, t: Tid)
    requires Inv(s) && Enabled(s, TakeMutex(t))
    ensures Inv(Apply(s, TakeMutex(t)))
  {
    hide IsTree, LocksAgree;
    var s' := Apply(s, TakeMutex(t));
    var next := HaveMutex(s.threads[t].req);
    SameLocks(s, s', t, next);
    OnlyThread(s, s', t, next);
  }

  lemma FindTrapKeeps(s: State, t: Tid, trap: Option<Dentry>, first: Dentry, second: Dentry)
    requires Inv(s) && Enabled(s, FindTrap(t, trap, first, second))
    ensures Inv(Apply(s, FindTrap(t, trap, first, second)))
  {
    hide IsTree, LocksAgree, MutexAgrees, IsTrap;
    var s' := Apply(s, FindTrap(t, trap, first, second));
    var next := LockFirst(s.threads[t].req, trap, first, second);
    SameLocks(s, s', t, next);
    SameMutex(s, s', t, next);
    OnlyThread(s, s', t, next);
  }

  lemma LockDirKeeps(s: State, t: Tid)
    requires Inv(s) && Enabled(s, LockDir(t))
    ensures Inv(Apply(s, LockDir(t)))
  {
    hide IsTree, LocksAgree, MutexAgrees, IsTrap;
    var s' := Apply(s, LockDir(t));
    var next := s'.threads[t];
    match s.threads[t] {
      case Start(req) =>
        TakeKeepsLocks(s, t, req.newDir, next);
      case LockFirst(req, trap, first, second) =>
        TakeKeepsLocks(s, t, first, next);
      case LockSecond(req, trap, first, second) =>
        assert {first} + {second} == {req.newDir, req.oldDir};
        TakeKeepsLocks(s, t, second, next);
        assert TwoDirectories(s', req, trap, first, second);
    }
    SameMutex(s, s', t, next);
    OnlyThread(s, s', t, next);
  }

  lemma LookupKeeps(s: State, t: Tid, src: Dentry, dst: Dentry)
    requires Inv(s) && Enabled(s, Lookup(t, src, dst))
    ensures Inv(Apply(s, Lookup(t, src, dst)))
  {
    hide IsTree, LocksAgree, MutexAgrees, IsTrap, KidLocks, TwoDirectories;
    var s' := Apply(s, Lookup(t, src, dst));
    var next := s'.threads[t];
    assert next.Holds() == s.threads[t].Holds();
    assert MayRename(s', next.req, next.trap, src, dst);
    PhaseFrame(s, s', s.threads[t]);
    SameLocks(s, s', t, next);
    SameMutex(s, s', t, next);
    OnlyThread(s, s', t, next);
  }

  lemma LockKidKeeps(s: State, t: Tid)
    requires Inv(s) && Enabled(s, LockKid(t))
    ensures Inv(Apply(s, LockKid(t)))
  {
    hide IsTree, LocksAgree, MutexAgrees, IsTrap, KidLocks, TwoDirectories, MayRename;
    var s' := Apply(s, LockKid(t));
    var ph, next := s.threads[t], s'.threads[t];
    assert next.held + next.todo == ph.held + ph.todo;
    assert next.Holds() == ph.Holds() + {ph.todo[0]};
    TakeKeepsLocks(s, t, ph.todo[0], next);
    PhaseFrame(s, s', ph);
    SameMutex(s, s', t, next);
    OnlyThread(s, s', t, next);
  }

  lemma FailKeeps(s: State, t: Tid)
    requires Inv(s) && Enabled(s, Fail(t))
    ensures Inv(Apply(s, Fail(t)))
  {
    hide IsTree, LocksAgree, MutexAgrees;
    ReleaseKeepsLocks(s, t);
    OnlyThread(s, Apply(s, Fail(t)), t, Idle);
  }

  /** A fresh leaf leaves every climb as it was. */
  lemma {:induction false} LeafKeepsUp(parent: Parents, dir: Dentry, d: Dentry, x: Dentry, n: nat)
    requires Closed(parent) && dir in parent && d !in parent && x in parent
    ensures Closed(parent[d := dir]) && Up(parent[d := dir], x, n) == Up(parent, x, n)
    decreases n
  {
    if n > 0 {
      LeafKeepsUp(parent, dir, d, parent[x], n - 1);
    }
  }

  lemma LeafKeepsAbove(parent: Parents, dir: Dentry, d: Dentry, x: Dentry, y: Dentry)
    requires Closed(parent) && dir in parent && d !in parent && y in parent
    ensures Closed(parent[d := dir]) && (Above(parent[d := dir], x, y) <==> Above(parent, x, y))
  {
    LeafKeepsUp(parent, dir, d, y, 0);
    if Above(parent, x, y) {
      var n: nat :| Up(parent, y, n) == x;
      LeafKeepsUp(parent, dir, d, y, n);
    }
    if Above(parent[d := dir], x, y) {
      var n: nat :| Up(parent[d := dir], y, n) == x;
      LeafKeepsUp(parent, dir, d, y, n);
    }
  }

  lemma LeafKeepsTree(parent: Parents, root: Dentry, dir: Dentry, d: Dentry)
    requires IsTree(parent, root) && dir in parent && d !in parent
    ensures IsTree(parent[d := dir], root)
  {
    var more := parent[d := dir];
    LeafKeepsAbove(parent, dir, d, root, dir);
    AboveParent(more, d);
    AboveTransitive(more, root, dir, d);
    forall x | x in parent
      ensures Above(more, root, x)
    {
      LeafKeepsAbove(parent, dir, d, root, x);
    }
  }

  lemma LeafKeepsTrap(parent: Parents, root: Dentry, dir: Dentry, d: Dentry, p1: Dentry, p2: Dentry,
                      trap: Option<Dentry>)
    requires IsTree(parent, root) && dir in parent && d !in parent && p1 in parent && p2 in parent
    requires IsTrap(parent, root, p1, p2, trap)
    ensures IsTree(parent[d := dir], root) && IsTrap(parent[d := dir], root, p1, p2, trap)
  {
    LeafKeepsTree(parent, root, dir, d);
    match trap {
      case Some(t) => LeafKeepsAbove(parent, dir, d, t, p2);
      case None =>
        var more := parent[d := dir];
        forall c | c in more && c != root && more[c] == p1
          ensures !Above(more, c, p2)
        {
          LeafKeepsAbove(parent, dir, d, c, p2);
        }
    }
  }

  lemma AllocKeepsTwo(s: State, s': State, dir: Dentry, d: Dentry, req: Request, trap: Option<Dentry>,
                      first: Dentry, second: Dentry)
    requires IsTree(s.parent, s.root) && GoodRequest(s, req) && TwoDirectories(s, req, trap, first, second)
    requires dir in s.parent && d !in s.parent && s'.parent == s.parent[d := dir] && s'.root == s.root
    ensures IsTree(s'.parent, s'.root) && TwoDirectories(s', req, trap, first, second)
  {
    if first == req.oldDir && second == req.newDir && trap.Some?
       && IsTrap(s.parent, s.root, req.oldDir, req.newDir, trap) {
      LeafKeepsTrap(s.parent, s.root, dir, d, req.oldDir, req.newDir, trap);
    } else {
      LeafKeepsTrap(s.parent, s.root, dir, d, req.oldDir, req.newDir, None);
      LeafKeepsTrap(s.parent, s.root, dir, d, req.newDir, req.oldDir, trap);
    }
  }

  lemma AllocKeepsPhase(s: State, s': State, dir: Dentry, d: Dentry, k: Kind, ph: Phase)
    requires IsTree(s.parent, s.root) && s.kind.Keys == s.parent.Keys && GoodPhase(s, ph)
    requires dir in s.parent && d !in s.parent && s'.parent == s.parent[d := dir] && s'.root == s.root
    requires s'.kind == s.kind[d := k]
    ensures IsTree(s'.parent, s'.root) && GoodPhase(s', ph)
  {
    hide IsTree, IsTrap, TwoDirectories;
    LeafKeepsTree(s.parent, s.root, dir, d);
    if ph.LockFirst? || ph.LockSecond? {
      AllocKeepsTwo(s, s', dir, d, ph.req, ph.trap, ph.first, ph.second);
    } else if (ph.Locked? || ph.LockKids?) && ph.req.Cross() {
      var first, second :| TwoDirectories(s, ph.req, ph.trap, first, second);
      AllocKeepsTwo(s, s', dir, d, ph.req, ph.trap, first, second);
    }
  }

  lemma AllocKeeps(s: State, t: Tid, dir: Dentry, d: Dentry, k: Kind)
    requires Inv(s) && Enabled(s, Alloc(t, dir, d, k))
    ensures Inv(Apply(s, Alloc(t, dir, d, k)))
  {
    hide IsTree, GoodPhase;
    var s' := Apply(s, Alloc(t, dir, d, k));
    LeafKeepsTree(s.parent, s.root, dir, d);
    forall u | u in s'.threads
      ensures GoodPhase(s', s'.threads[u])
    {
      AllocKeepsPhase(s, s', dir, d, k, s.threads[u]);
    }
  }

  /** A negative dentry comes to life only while its parent is unlocked, so no rename has it in hand. */
  lemma InstantiateKeepsPhase(s: State, d: Dentry, k: Kind, u: Tid)
    requires Inv(s) && Enabled(s, Instantiate(d, k)) && u in s.threads
    ensures GoodPhase(Apply(s, Instantiate(d, k)), s.threads[u])
  {
    hide IsTree, IsTrap, MutexAgrees;
    var s' := Apply(s, Instantiate(d, k));
    var ph := s.threads[u];
    if (ph.Locked? || ph.LockKids?) && ph.req.Cross() {
      var first, second :| TwoDirectories(s, ph.req, ph.trap, first, second);
      assert TwoDirectories(s', ph.req, ph.trap, first, second);
    }
    if ph.LockKids? {
      assert ph.req.newDir in ph.Holds() && ph.req.oldDir in ph.Holds();
      assert d != ph.src && d != ph.dst;
    }
  }

  lemma InstantiateKeeps(s: State, d: Dentry, k: Kind)
    requires Inv(s) && Enabled(s, Instantiate(d, k))
    ensures Inv(Apply(s, Instantiate(d, k)))
  {
    hide IsTree, GoodPhase;
    var s' := Apply(s, Instantiate(d, k));
    forall u | u in s'.threads
      ensures GoodPhase(s', s'.threads[u])
    {
      InstantiateKeepsPhase(s, d, k, u);
    }
  }

  /** While t moves its pair, no other thread works in a directory that t has locked. */
  lemma CommitKeepsOther(s: State, t: Tid, u: Tid)
    requires Inv(s) && Enabled(s, Commit(t)) && u in s.threads && u != t
    requires IsTree(Apply(s, Commit(t)).parent, s.root) && s.threads[t].req.Cross()
    ensures GoodPhase(Apply(s, Commit(t)), s.threads[u])
  {
    hide IsTree, IsTrap, TwoDirectories, KidLocks;
    var s' := Apply(s, Commit(t));
    var ph, other := s.threads[t], s.threads[u];
    assert !other.NeedsMutex();
    assert ph.req.newDir in ph.Holds() && ph.req.oldDir in ph.Holds();
    if other.LockKids? {
      assert GoodPhase(s, ph) && GoodPhase(s, other);
      assert s.lock[ph.req.newDir] == t && s.lock[ph.req.oldDir] == t;
      assert other.req.newDir in other.Holds() && other.req.oldDir in other.Holds();
      assert s.lock[other.req.newDir] == u && s.lock[other.req.oldDir] == u;
      assert s'.parent[other.src] == s.parent[other.src] && s'.parent[other.dst] == s.parent[other.dst];
    }
  }

  lemma CommitKeeps(s: State, t: Tid)
    requires Inv(s) && Enabled(s, Commit(t))
    ensures Inv(Apply(s, Commit(t)))
  {
    hide IsTree, GoodPhase, LocksAgree, MutexAgrees, KidLocks;
    var s' := Apply(s, Commit(t));
    CommitKeepsTree(s, s.threads[t]);
    CommitKeepsKeys(s, s.threads[t]);
    ReleaseKeepsLocks(s, t);
    if !s.threads[t].req.Cross() {
      IdleIsGood(s');
      OnlyThread(s, s', t, Idle);
    } else {
      LocksFrame(s.Release(t), s');
      forall u | u in s'.threads
        ensures GoodPhase(s', s'.threads[u])
      {
        if u != t {
          CommitKeepsOther(s, t, u);
        } else {
          IdleIsGood(s');
        }
      }
    }
  }

  lemma IdleIsGood(s: State)
    requires IsTree(s.parent, s.root)
    ensures GoodPhase(s, Idle)
  {
  }

  lemma LocksFrame(s: State, s': State)
    requires LocksAgree(s) && MutexAgrees(s)
    requires s'.lock == s.lock && s'.mutex == s.mutex && s'.threads == s.threads
    ensures LocksAgree(s') && MutexAgrees(s')
  {
  }

  lemma CommitKeepsKeys(s: State, ph: Phase)
    requires IsTree(s.parent, s.root) && ph.LockKids? && GoodPhase(s, ph)
    ensures Moved(s.parent, ph.req, ph.src, ph.dst).Keys == s.parent.Keys
  {
    hide IsTree, GoodTrap;
  }

  lemma StepKeepsInv(s: State, step: Step)
    requires Inv(s) && Enabled(s, step)
    ensures Inv(Apply(s, step))
  {
    hide Inv, Enabled, Apply;
    match step
    case Begin(t, req) => BeginKeeps(s, t, req);
    case TakeMutex(t) => TakeMutexKeeps(s, t);
    case FindTrap(t, trap, first, second) => FindTrapKeeps(s, t, trap, first, second);
    case LockDir(t) => LockDirKeeps(s, t);
    case Alloc(t, dir, d, k) => AllocKeeps(s, t, dir, d, k);
    case Lookup(t, src, dst) => LookupKeeps(s, t, src, dst);
    case LockKid(t) => LockKidKeeps(s, t);
    case Commit(t) => CommitKeeps(s, t);
    case Fail(t) => FailKeeps(s, t);
    case Instantiate(d, k) => InstantiateKeeps(s, d, k);
  }

  // ---- Whole runs ----

  ghost predicate Run(states: seq<State>, steps: seq<Step>) {
    && |states| == |steps| + 1
    && Init(states[0])
    && forall i :: 0 <= i < |steps| ==> RunStep(states[i], steps[i], states[i + 1])
  }

  ghost predicate RunStep(s: State, step: Step, s': State) {
    Enabled(s, step) && s' == Apply(s, step)
  }

  lemma InitKeeps(s: State)
    requires Init(s)
    ensures Inv(s)
  {
  }

  lemma {:induction false} RunKeepsInv(states: seq<State>, steps: seq<Step>, i: nat)
    requires Run(states, steps) && i < |states|
    ensures Inv(states[i])
  {
    hide Inv, Apply, Enabled, IsTree, Init;
    if i == 0 {
      InitKeeps(states[0]);
    } else {
      RunKeepsInv(states, steps, i - 1);
      assert RunStep(states[i - 1], steps[i - 1], states[i - 1 + 1]);
      StepKeepsInv(states[i - 1], steps[i - 1]);
    }
  }

  /** In every interleaving of renames and exchanges no dentry but the root is ever its own ancestor. */
  lemma RenameNeverLoops(states: seq<State>, steps: seq<Step>, i: nat, d: Dentry, n: nat)
    requires Run(states, steps) && i < |states| && d in states[i].parent
    ensures IsTree(states[i].parent, states[i].root)
    ensures n > 0 && Up(states[i].parent, d, n) == d ==> d == states[i].root
  {
    RunKeepsInv(states, steps, i);
    if n > 0 && Up(states[i].parent, d, n) == d {
      NoCycle(states[i].parent, states[i].root, d, n);
    }
  }
}
