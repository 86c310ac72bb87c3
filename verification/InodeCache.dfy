/** The life of an inode in the inode cache: lookup and insertion under the hash lock, references,
    the unused list, and the ways to mark an inode I_FREEING. Each region under inode_hash_lock or
    i_lock is one step. An inode id names one object from alloc_inode to destroy_inode. */
module InodeCache {
  type InodeId = nat
  type Tid = nat
  type Ref = nat

  /** i_count, the i_state bits the protocol uses, and list membership. */
  datatype Inode = Inode(
    sb: nat, ino: nat, count: nat,
    isNew: bool, creating: bool, freeing: bool, willFree: bool, clear: bool, referenced: bool, isolating: bool,
    hashed: bool, onLru: bool, onSbList: bool)
  {
    predicate Dying() { freeing || willFree }
    predicate Matches(sb': nat, ino': nat) { sb == sb' && ino == ino' }
    /** i_state == (I_FREEING | I_CLEAR) */
    predicate JustCleared() { freeing && clear && !isNew && !creating && !willFree && !referenced && !isolating }
    /** No i_state bit except possibly I_REFERENCED. */
    predicate Quiet() { !isNew && !creating && !freeing && !willFree && !clear && !isolating }
  }

  datatype EvictPhase = Entered | Waited | Cleared | Unhashed

  datatype Act =
    | Free
    | Writing(i: InodeId)
    | Pinned(i: InodeId)
    | Evict(i: InodeId, phase: EvictPhase)

  /** A thread: the inodes it marked I_FREEING and has yet to evict (its dispose list), and what it is doing. */
  datatype Thread = Thread(pending: seq<InodeId>, act: Act) {
    function Claims(): set<InodeId> {
      (set i | i in pending) + (if act.Writing? || act.Evict? then {act.i} else {})
    }
  }

  /** refs: the references that are held, each on one inode. evicted: the calls of evict so far.
      owner and pinner record who set I_FREEING, I_WILL_FREE or I_LRU_ISOLATING; no step reads them. */
  datatype State = State(
    inodes: map<InodeId, Inode>,
    refs: map<Ref, InodeId>,
    threads: map<Tid, Thread>,
    nrUnused: nat,
    evicted: multiset<InodeId>,
    owner: map<InodeId, Tid>,
    pinner: map<InodeId, Tid>)
  {
    function Put(i: InodeId, n: Inode): State { this.(inodes := inodes[i := n]) }
    function Run(t: Tid, th: Thread): State { this.(threads := threads[t := th]) }
  }

  function OffLru(s: State, i: InodeId): nat
    requires i in s.inodes
  {
    if s.inodes[i].onLru && s.nrUnused > 0 then s.nrUnused - 1 else s.nrUnused
  }

  /** What happens when the last reference is dropped: iput_final's choice, or that iput takes the reference
      back to write a lazy timestamp and then tries again. */
  datatype Last = Keep(lru: bool) | Drop | WriteFirst | Retry

  datatype Step =
    | NewInode(i: InodeId, sb: nat, ino: nat, r: Ref)
    | IgetInsert(i: InodeId, sb: nat, ino: nat, r: Ref)
    | Find(i: InodeId, r: Ref)
    | InsertLocked(i: InodeId, held: Ref)
    | UnlockNew(i: InodeId, held: Ref)
    | DiscardNew(i: InodeId, held: Ref)
    | Unhash(i: InodeId, held: Ref)
    | Igrab(i: InodeId, r: Ref)
    | Iput(t: Tid, held: Ref, last: Last)
    | WriteDone(t: Tid)
    | LruAdd(i: InodeId)
    | LruRemove(i: InodeId)
    | LruRotate(i: InodeId)
    | Pin(t: Tid, i: InodeId)
    | Unpin(t: Tid)
    | Isolate(t: Tid, i: InodeId)
    | EvictOne(t: Tid, i: InodeId)
    | EvictBegin(t: Tid)
    | EvictWait(t: Tid)
    | EvictClear(t: Tid)
    | EvictUnhash(t: Tid)
    | Destroy(t: Tid)

  predicate Fresh(s: State, i: InodeId) { i !in s.inodes && s.evicted[i] == 0 }

  predicate HasRef(s: State, r: Ref, i: InodeId) { r in s.refs && s.refs[r] == i && i in s.inodes }

  predicate Enabled(s: State, step: Step) {
    match step
    case NewInode(i, _, _, r) => Fresh(s, i) && r !in s.refs
    // find_inode_fast found nothing: it waits while a matching inode is being freed
    case IgetInsert(i, sb, ino, r) =>
      Fresh(s, i) && r !in s.refs && forall j :: j in s.inodes && s.inodes[j].hashed ==> !s.inodes[j].Matches(sb, ino)
    case Find(i, r) =>
      r !in s.refs && i in s.inodes && s.inodes[i].hashed && !s.inodes[i].Dying() && !s.inodes[i].creating
    // insert_inode_locked skips inodes that are being freed
    case InsertLocked(i, held) =>
      && HasRef(s, held, i) && !s.inodes[i].hashed
      && forall j :: j in s.inodes && s.inodes[j].hashed && s.inodes[j].Matches(s.inodes[i].sb, s.inodes[i].ino) ==>
           s.inodes[j].Dying()
    case UnlockNew(i, held) => HasRef(s, held, i) && s.inodes[i].isNew
    case DiscardNew(i, held) => HasRef(s, held, i) && s.inodes[i].isNew
    case Unhash(i, held) => HasRef(s, held, i)
    case Igrab(i, r) => r !in s.refs && i in s.inodes && !s.inodes[i].Dying()
    case Iput(t, held, last) =>
      && t in s.threads && s.threads[t].act.Free? && held in s.refs && s.refs[held] in s.inodes
      && s.inodes[s.refs[held]].count > 0
    case WriteDone(t) => t in s.threads && s.threads[t].act.Writing? && s.threads[t].act.i in s.inodes
    case LruAdd(i) => i in s.inodes && !s.inodes[i].Dying() && s.inodes[i].count == 0
    case LruRemove(i) => i in s.inodes && s.inodes[i].onLru
    case LruRotate(i) => i in s.inodes && s.inodes[i].onLru
    case Pin(t, i) =>
      && t in s.threads && s.threads[t].act.Free? && i in s.inodes && s.inodes[i].onLru
      && s.inodes[i].count == 0 && s.inodes[i].Quiet() && !s.inodes[i].referenced
    case Unpin(t) => t in s.threads && s.threads[t].act.Pinned? && s.threads[t].act.i in s.inodes
    case Isolate(t, i) =>
      && t in s.threads && s.threads[t].act.Free? && i in s.inodes && s.inodes[i].onLru
      && s.inodes[i].count == 0 && s.inodes[i].Quiet() && !s.inodes[i].referenced
    case EvictOne(t, i) =>
      && t in s.threads && s.threads[t].act.Free? && i in s.inodes && s.inodes[i].onSbList
      && s.inodes[i].count == 0 && !s.inodes[i].isNew && !s.inodes[i].Dying()
    case EvictBegin(t) =>
      t in s.threads && s.threads[t].act.Free? && s.threads[t].pending != [] && s.threads[t].pending[0] in s.inodes
    // evict waits for I_LRU_ISOLATING
    case EvictWait(t) =>
      && t in s.threads && s.threads[t].act.Evict? && s.threads[t].act.phase == Entered
      && s.threads[t].act.i in s.inodes && !s.inodes[s.threads[t].act.i].isolating
    case EvictClear(t) =>
      && t in s.threads && s.threads[t].act.Evict? && s.threads[t].act.phase == Waited
      && s.threads[t].act.i in s.inodes
    case EvictUnhash(t) =>
      && t in s.threads && s.threads[t].act.Evict? && s.threads[t].act.phase == Cleared
      && s.threads[t].act.i in s.inodes
    case Destroy(t) =>
      && t in s.threads && s.threads[t].act.Evict? && s.threads[t].act.phase == Unhashed
  }

  /** Mark i I_FREEING, take it off the unused list and put it on t's dispose list. */
  function MarkFreeing(s: State, t: Tid, i: InodeId): State
    requires t in s.threads && i in s.inodes
  {
    s.Put(i, s.inodes[i].(freeing := true, willFree := false, onLru := false)).(nrUnused := OffLru(s, i))
     .Run(t, Thread([i] + s.threads[t].pending, Free)).(owner := s.owner[i := t])
  }

  /** Mark i I_WILL_FREE for the time of its write-back. */
  function MarkWillFree(s: State, t: Tid, i: InodeId): State
    requires t in s.threads && i in s.inodes
  {
    s.Put(i, s.inodes[i].(willFree := true)).Run(t, s.threads[t].(act := Writing(i))).(owner := s.owner[i := t])
  }

  /** inode_lru_list_add: already on the list means recently referenced. */
  function AddLru(s: State, i: InodeId): State
    requires i in s.inodes
  {
    if s.inodes[i].onLru then s.Put(i, s.inodes[i].(referenced := true))
    else s.Put(i, s.inodes[i].(onLru := true)).(nrUnused := s.nrUnused + 1)
  }

  function NewRef(s: State, i: InodeId, r: Ref): State
    requires i in s.inodes
  {
    s.Put(i, s.inodes[i].(count := s.inodes[i].count + 1)).(refs := s.refs[r := i])
  }

  function DropRef(s: State, r: Ref): State
    requires r in s.refs && s.refs[r] in s.inodes && s.inodes[s.refs[r]].count > 0
  {
    var i := s.refs[r];
    s.Put(i, s.inodes[i].(count := s.inodes[i].count - 1)).(refs := s.refs - {r})
  }

  function FreshInode(sb: nat, ino: nat, isNew: bool): Inode {
    Inode(sb, ino, 1, isNew, false, false, false, false, false, false, isNew, false, true)
  }

  function Apply(s: State, step: Step): State
    requires Enabled(s, step)
  {
    match step
    case NewInode(i, sb, ino, r) => s.Put(i, FreshInode(sb, ino, false)).(refs := s.refs[r := i])
    case IgetInsert(i, sb, ino, r) => s.Put(i, FreshInode(sb, ino, true)).(refs := s.refs[r := i])
    case Find(i, r) => NewRef(s, i, r)
    case InsertLocked(i, _) => s.Put(i, s.inodes[i].(isNew := true, creating := true, hashed := true))
    case UnlockNew(i, _) => s.Put(i, s.inodes[i].(isNew := false, creating := false))
    case DiscardNew(i, _) => s.Put(i, s.inodes[i].(isNew := false))
    case Unhash(i, _) => s.Put(i, s.inodes[i].(hashed := false))
    case Igrab(i, r) => NewRef(s, i, r)
    case Iput(t, r, last) =>
      var i := s.refs[r];
      var dropped := DropRef(s, r);
      if s.inodes[i].count > 1 then dropped
      else (match last
            case Keep(lru) => if lru then AddLru(dropped, i) else dropped
            case Drop => MarkFreeing(dropped, t, i)
            case WriteFirst => MarkWillFree(dropped, t, i)
            case Retry => s)
    case WriteDone(t) => MarkFreeing(s, t, s.threads[t].act.i)
    case LruAdd(i) => AddLru(s, i)
    case LruRemove(i) => s.Put(i, s.inodes[i].(onLru := false)).(nrUnused := OffLru(s, i))
    case LruRotate(i) => s.Put(i, s.inodes[i].(referenced := false))
    case Pin(t, i) =>
      s.Put(i, s.inodes[i].(isolating := true)).Run(t, s.threads[t].(act := Pinned(i))).(pinner := s.pinner[i := t])
    case Unpin(t) =>
      var i := s.threads[t].act.i;
      s.Put(i, s.inodes[i].(isolating := false)).Run(t, s.threads[t].(act := Free))
    case Isolate(t, i) => MarkFreeing(s, t, i)
    case EvictOne(t, i) => MarkFreeing(s, t, i)
    case EvictBegin(t) =>
      var th := s.threads[t];
      var i := th.pending[0];
      s.Put(i, s.inodes[i].(onSbList := false)).(evicted := s.evicted + multiset{i})
       .Run(t, Thread(th.pending[1..], Evict(i, Entered)))
    case EvictWait(t) => s.Run(t, s.threads[t].(act := Evict(s.threads[t].act.i, Waited)))
    case EvictClear(t) =>
      var i := s.threads[t].act.i;
      s.Put(i, s.inodes[i].(isNew := false, creating := false, freeing := true, willFree := false, clear := true,
                            referenced := false, isolating := false))
       .Run(t, s.threads[t].(act := Evict(i, Cleared)))
    case EvictUnhash(t) =>
      var i := s.threads[t].act.i;
      s.Put(i, s.inodes[i].(hashed := false)).Run(t, s.threads[t].(act := Evict(i, Unhashed)))
    case Destroy(t) =>
      var i := s.threads[t].act.i;
      s.(inodes := s.inodes - {i}).Run(t, s.threads[t].(act := Free))
  }

  // ---- What every step keeps ----

  ghost function Holders(refs: map<Ref, InodeId>, i: InodeId): set<Ref> {
    set r | r in refs && refs[r] == i
  }

  /** i_count is the number of references held. */
  ghost predicate CountsRefs(s: State) {
    && (forall r :: r in s.refs ==> s.refs[r] in s.inodes)
    && (forall i :: i in s.inodes ==> s.inodes[i].count == |Holders(s.refs, i)|)
  }

  /** No two hashed inodes that are not being freed have the same superblock and number. */
  ghost predicate Unique(s: State) {
    forall i, j :: i in s.inodes && j in s.inodes && i != j
      && s.inodes[i].hashed && s.inodes[j].hashed && !s.inodes[i].Dying() && !s.inodes[j].Dying()
      ==> !s.inodes[j].Matches(s.inodes[i].sb, s.inodes[i].ino)
  }

  ghost predicate GoodInode(n: Inode) {
    && (n.Dying() ==> n.count == 0)
    && !(n.freeing && n.willFree)
    && (n.freeing ==> !n.onLru)
    && (n.clear ==> n.JustCleared())
  }

  ghost predicate GoodInodes(s: State) {
    forall i :: i in s.inodes ==> GoodInode(s.inodes[i])
  }

  ghost predicate OwnedBy(s: State, i: InodeId, t: Tid) { i in s.inodes && i in s.owner && s.owner[i] == t }

  ghost predicate GoodThread(s: State, t: Tid)
    requires t in s.threads
  {
    var th := s.threads[t];
    && (forall i :: i in th.pending ==>
          OwnedBy(s, i, t) && s.inodes[i].freeing && !s.inodes[i].clear && s.evicted[i] == 0)
    && (forall a, b :: 0 <= a < b < |th.pending| ==> th.pending[a] != th.pending[b])
    && match th.act {
      case Free => true
      case Writing(i) => OwnedBy(s, i, t) && s.inodes[i].willFree && s.evicted[i] == 0
      case Pinned(i) =>
        i in s.inodes && i in s.pinner && s.pinner[i] == t && s.inodes[i].isolating && !s.inodes[i].clear
      case Evict(i, phase) =>
        && OwnedBy(s, i, t) && s.inodes[i].freeing && s.evicted[i] == 1
        && (phase == Entered || phase == Waited <==> !s.inodes[i].clear)
        && (phase == Waited ==> !s.inodes[i].isolating)
        && (phase == Unhashed ==> !s.inodes[i].hashed)
    }
  }

  /** A dying inode is on its owner's hands, an isolating one pinned by its pinner. */
  ghost predicate InHand(s: State, i: InodeId)
    requires i in s.inodes
  {
    && (s.inodes[i].Dying() ==> i in s.owner && s.owner[i] in s.threads && i in s.threads[s.owner[i]].Claims())
    && (s.inodes[i].isolating ==> i in s.pinner && s.pinner[i] in s.threads && s.threads[s.pinner[i]].act == Pinned(i))
  }

  ghost predicate Owned(s: State) {
    && (forall t :: t in s.threads ==> GoodThread(s, t))
    && (forall i :: i in s.inodes ==> InHand(s, i))
  }

  ghost function Unused(s: State): set<InodeId> {
    set i | i in s.inodes && s.inodes[i].onLru
  }

  ghost predicate EvictedOnce(s: State) {
    && (forall i :: s.evicted[i] <= 1)
    && (forall i :: i in s.inodes && s.evicted[i] == 1 ==> s.inodes[i].freeing)
  }

  ghost predicate Inv(s: State) {
    CountsRefs(s) && Unique(s) && GoodInodes(s) && Owned(s) && EvictedOnce(s) && s.nrUnused == |Unused(s)|
  }

  ghost predicate Init(s: State) {
    && s.inodes == map[] && s.refs == map[] && s.evicted == multiset{} && s.nrUnused == 0
    && forall t :: t in s.threads ==> s.threads[t] == Thread([], Free)
  }
}
