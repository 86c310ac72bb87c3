/** kv_store.c under concurrency: any number of threads inside write_kv and read_kv, one atomic action at a
    time; a list search under a bucket lock takes one action a node. */
module KvRuns {
  import opened KvStore
  import opened Wrappers

  type Tid = nat

  /** Where a thread is. Until spin_unlock the locked ones hold the lock of their key's bucket. */
  datatype Pc =
    | Outside
    | Allocated(k: int, v: int, a: Addr)
    | Searching(k: int, v: int, a: Addr, pos: nat)
    | Found(k: int, v: int, a: Addr, pos: nat)
    | Missing(k: int, v: int, a: Addr)
    | Stored(k: int, unused: Option<Addr>)
    | Freeing(a: Addr)
    | Asking(k: int)
    | Looking(k: int, pos: nat)
    | Answer(k: int, value: int)
  {
    predicate Locked() { Searching? || Found? || Missing? || Stored? || Looking? || Answer? }

    predicate HasKey() { !Outside? && !Freeing? }

    /** The bucket whose lock the thread holds. */
    function Held(): Option<int> {
      if Locked() then Some(Hash(k)) else None
    }

    /** The allocation that the thread alone knows of. */
    function Owned(): set<Addr> {
      match this
      case Allocated(_, _, a) => {a}
      case Searching(_, _, a, _) => {a}
      case Found(_, _, a, _) => {a}
      case Missing(_, _, a) => {a}
      case Stored(_, Some(a)) => {a}
      case Freeing(a) => {a}
      case _ => {}
    }
  }

  /** The calls in the order in which they took effect, reads with the value they return. */
  datatype Event = Wrote(k: int, v: int) | Read(k: int, value: int)

  /** The two arrays of a process: its lists and their locks. */
  type Buckets = t: Table | |t| == BUCKETS witness seq(BUCKETS, _ => [])
  type Locks = l: seq<Option<Tid>> | |l| == BUCKETS witness seq(BUCKETS, _ => None)

  datatype State = State(table: Buckets, locks: Locks, live: set<Addr>, pc: map<Tid, Pc>, log: seq<Event>)

  /** A call of write_kv with what kmalloc gives it, a call of read_kv, or the next action of a thread. */
  datatype Step = Write(t: Tid, k: int, v: int, a: Option<Addr>) | Ask(t: Tid, k: int) | Go(t: Tid)

  predicate Enabled(s: State, step: Step) {
    && step.t in s.pc
    && match step
       case Write(t, k, v, a) => s.pc[t].Outside? && HasBucket(k) && (a.Some? ==> a.value !in s.live)
       case Ask(t, k) => s.pc[t].Outside? && HasBucket(k)
       case Go(t) =>
         var p := s.pc[t];
         && (p.HasKey() ==> HasBucket(p.k))
         && match p
            case Outside => false
            case Allocated(k, _, _) => s.locks[Hash(k)].None?
            case Asking(k) => s.locks[Hash(k)].None?
            case Found(k, _, _, pos) => pos < |s.table[Hash(k)]|
            case _ => true
  }

  function Apply(s: State, step: Step): State
    requires Enabled(s, step)
  {
    match step
    case Write(t, k, v, a) =>
      if a.None? then s
      else s.(live := s.live + {a.value}, pc := s.pc[t := Allocated(k, v, a.value)])
    case Ask(t, k) => s.(pc := s.pc[t := Asking(k)])
    case Go(t) => Advance(s, t)
  }

  function Advance(s: State, t: Tid): State
    requires Enabled(s, Go(t))
  {
    match s.pc[t]
    case Allocated(k, v, a) =>
      s.(locks := s.locks[Hash(k) := Some(t)], pc := s.pc[t := Searching(k, v, a, 0)])
    case Searching(k, v, a, pos) =>
      var bucket := s.table[Hash(k)];
      if pos >= |bucket| then s.(pc := s.pc[t := Missing(k, v, a)])
      else if bucket[pos].key == k then s.(pc := s.pc[t := Found(k, v, a, pos)])
      else s.(pc := s.pc[t := Searching(k, v, a, pos + 1)])
    case Found(k, v, a, pos) =>
      var h := Hash(k);
      s.(table := s.table[h := Updated(s.table[h], pos, v)], pc := s.pc[t := Stored(k, Some(a))],
         log := s.log + [Wrote(k, v)])
    case Missing(k, v, a) =>
      var h := Hash(k);
      s.(table := s.table[h := [Node(a, k, v)] + s.table[h]], pc := s.pc[t := Stored(k, None)],
         log := s.log + [Wrote(k, v)])
    case Stored(k, unused) =>
      s.(locks := s.locks[Hash(k) := None], pc := s.pc[t := if unused.Some? then Freeing(unused.value) else Outside])
    case Freeing(a) => s.(live := s.live - {a}, pc := s.pc[t := Outside])
    case Asking(k) =>
      s.(locks := s.locks[Hash(k) := Some(t)], pc := s.pc[t := Looking(k, 0)])
    case Looking(k, pos) =>
      var bucket := s.table[Hash(k)];
      if pos >= |bucket| then Answered(s, t, k, -ENOENT)
      else if bucket[pos].key == k then Answered(s, t, k, bucket[pos].value)
      else s.(pc := s.pc[t := Looking(k, pos + 1)])
    case Answer(k, _) =>
      s.(locks := s.locks[Hash(k) := None], pc := s.pc[t := Outside])
    case Outside => s
  }

  function Answered(s: State, t: Tid, k: int, value: int): State {
    s.(pc := s.pc[t := Answer(k, value)], log := s.log + [Read(k, value)])
  }

  // ---- What holds in every reachable state ----

  /** The value last written to k. */
  function Latest(log: seq<Event>, k: int): Option<int> {
    if log == [] then None
    else
      var e := log[|log| - 1];
      if e.Wrote? && e.k == k then Some(e.v) else Latest(log[..|log| - 1], k)
  }

  ghost predicate LocksOk(locks: seq<Option<Tid>>, pc: map<Tid, Pc>) {
    && |locks| == BUCKETS
    && (forall t :: t in pc && pc[t].HasKey() ==> HasBucket(pc[t].k))
    && (forall t :: t in pc && pc[t].Locked() ==> locks[Hash(pc[t].k)] == Some(t))
    && (forall h :: 0 <= h < |locks| && locks[h].Some? ==> locks[h].value in pc && pc[locks[h].value].Held() == Some(h))
  }

  /** A search has come past no node with its key. */
  ghost predicate CursorOk(table: Table, p: Pc)
    requires |table| == BUCKETS
  {
    p.Locked() ==>
      && HasBucket(p.k)
      && var bucket := table[Hash(p.k)];
         && ((p.Searching? || p.Looking?) ==> p.pos <= |bucket| && NotAmong(bucket, p.k, p.pos))
         && (p.Found? ==> p.pos < |bucket| && bucket[p.pos].key == p.k)
         && (p.Missing? ==> NotAmong(bucket, p.k, |bucket|))
  }

  ghost predicate NotAmong(bucket: seq<Node>, k: int, n: nat)
    requires n <= |bucket|
  {
    forall i :: 0 <= i < n ==> bucket[i].key != k
  }

  ghost predicate CursorsOk(table: Table, pc: map<Tid, Pc>) {
    |table| == BUCKETS && forall t :: t in pc ==> CursorOk(table, pc[t])
  }

  /** No two threads own the same allocation. */
  ghost predicate OwnersOk(live: set<Addr>, pc: map<Tid, Pc>) {
    && (forall t :: t in pc ==> pc[t].Owned() <= live)
    && (forall t, u :: t in pc && u in pc && t != u ==> pc[t].Owned() !! pc[u].Owned())
  }

  ghost function AllOwned(pc: map<Tid, Pc>): set<Addr> {
    set t, a | t in pc && a in pc[t].Owned() :: a
  }

  /** The table answers as the writes so far say. */
  ghost predicate MapOk(table: Table, log: seq<Event>) {
    |table| == BUCKETS && forall k :: HasBucket(k) ==> Find(table[Hash(k)], k) == Latest(log, k)
  }

  /** Every read has returned the value last written before it, or -ENOENT if there is none. */
  ghost predicate ReadsOk(log: seq<Event>) {
    forall i :: 0 <= i < |log| && log[i].Read? ==> log[i].value == Reply(Latest(log[..i], log[i].k))
  }

  ghost predicate Inv(s: State) {
    && ChainsOk(s.table)
    && LocksOk(s.locks, s.pc)
    && CursorsOk(s.table, s.pc)
    && OwnersOk(s.live, s.pc)
    && MemoryOk(s.table, s.live - AllOwned(s.pc))
    && MapOk(s.table, s.log)
    && ReadsOk(s.log)
  }

  // ---- Locks ----

  lemma MoveKeepsLocks(locks: seq<Option<Tid>>, pc: map<Tid, Pc>, t: Tid, p: Pc)
    requires LocksOk(locks, pc) && t in pc && pc[t].Held() == p.Held() && (p.HasKey() ==> HasBucket(p.k))
    ensures LocksOk(locks, pc[t := p])
  {
  }

  lemma LockKeepsLocks(locks: seq<Option<Tid>>, pc: map<Tid, Pc>, t: Tid, p: Pc)
    requires LocksOk(locks, pc) && t in pc && !pc[t].Locked() && p.Locked() && HasBucket(p.k)
    requires locks[Hash(p.k)].None?
    ensures LocksOk(locks[Hash(p.k) := Some(t)], pc[t := p])
  {
  }

  lemma UnlockKeepsLocks(locks: seq<Option<Tid>>, pc: map<Tid, Pc>, t: Tid, p: Pc)
    requires LocksOk(locks, pc) && t in pc && pc[t].Locked() && !p.HasKey()
    ensures LocksOk(locks[Hash(pc[t].k) := None], pc[t := p])
  {
  }

  /** While a thread holds a bucket's lock no other thread is in that bucket. */
  lemma OthersElsewhere(locks: seq<Option<Tid>>, pc: map<Tid, Pc>, t: Tid, u: Tid)
    requires LocksOk(locks, pc) && t in pc && u in pc && t != u && pc[t].Locked() && pc[u].Locked()
    ensures Hash(pc[t].k) != Hash(pc[u].k)
  {
  }

  // ---- Cursors ----

  lemma MoveKeepsCursors(table: Table, pc: map<Tid, Pc>, t: Tid, p: Pc)
    requires CursorsOk(table, pc) && CursorOk(table, p)
    ensures CursorsOk(table, pc[t := p])
  {
  }

  /** Changing a bucket under its lock disturbs nobody's search. */
  lemma ChangeKeepsCursors(locks: seq<Option<Tid>>, table: Table, pc: map<Tid, Pc>, t: Tid, bucket: seq<Node>, p: Pc)
    requires LocksOk(locks, pc) && CursorsOk(table, pc) && t in pc && pc[t].Locked() && p.Stored? && p.k == pc[t].k
    ensures CursorsOk(table[Hash(p.k) := bucket], pc[t := p])
  {
    var table' := table[Hash(p.k) := bucket];
    forall u | u in pc && u != t ensures CursorOk(table', pc[u]) {
      if pc[u].Locked() {
        OthersElsewhere(locks, pc, t, u);
      }
      assert CursorOk(table, pc[u]);
    }
  }

  // ---- Owned allocations ----

  lemma MoveKeepsOwners(live: set<Addr>, pc: map<Tid, Pc>, t: Tid, p: Pc)
    requires OwnersOk(live, pc) && t in pc && p.Owned() <= pc[t].Owned()
    ensures OwnersOk(live, pc[t := p])
    ensures AllOwned(pc[t := p]) == AllOwned(pc) - (pc[t].Owned() - p.Owned())
    ensures pc[t].Owned() <= AllOwned(pc)
  {
    hide Pc.Owned;
    var pc' := pc[t := p];
    forall a | a in AllOwned(pc) && a !in pc[t].Owned() - p.Owned() ensures a in AllOwned(pc') {
      var u :| u in pc && a in pc[u].Owned();
      assert u in pc' && (u == t ==> a in p.Owned());
    }
    forall a | a in AllOwned(pc') ensures a in AllOwned(pc) && a !in pc[t].Owned() - p.Owned() {
      var u :| u in pc' && a in pc'[u].Owned();
      assert a in pc[u].Owned();
      assert u != t ==> pc[u].Owned() !! pc[t].Owned();
    }
  }

  lemma AllocKeepsOwners(live: set<Addr>, pc: map<Tid, Pc>, t: Tid, p: Pc, a: Addr)
    requires OwnersOk(live, pc) && t in pc && pc[t].Owned() == {} && p.Owned() == {a} && a !in live
    ensures OwnersOk(live + {a}, pc[t := p])
    ensures AllOwned(pc[t := p]) == AllOwned(pc) + {a}
  {
    hide Pc.Owned;
    var pc' := pc[t := p];
    forall b | b in AllOwned(pc) ensures b in AllOwned(pc') {
      var u :| u in pc && b in pc[u].Owned();
      assert u in pc' && pc'[u] == pc[u];
    }
    assert t in pc' && a in pc'[t].Owned();
  }

  lemma OwnedAreLive(live: set<Addr>, pc: map<Tid, Pc>)
    requires OwnersOk(live, pc)
    ensures AllOwned(pc) <= live
  {
  }

  lemma FreeKeepsOwners(live: set<Addr>, pc: map<Tid, Pc>, t: Tid, a: Addr)
    requires OwnersOk(live, pc) && t in pc && pc[t].Owned() == {a}
    ensures OwnersOk(live - {a}, pc[t := Outside])
  {
    hide Pc.Owned;
    assert Outside.Owned() == {} by { OutsideOwnsNothing(); }
    forall u | u in pc && u != t ensures pc[u].Owned() <= live - {a} {
      assert pc[u].Owned() !! pc[t].Owned();
    }
  }

  lemma OutsideOwnsNothing()
    ensures Outside.Owned() == {}
  {
  }

  // ---- The log ----

  lemma LatestAfter(log: seq<Event>, e: Event, k: int)
    ensures Latest(log + [e], k) == if e.Wrote? && e.k == k then Some(e.v) else Latest(log, k)
  {
    assert (log + [e])[..|log|] == log;
  }

  lemma ReadsAfter(log: seq<Event>, e: Event)
    requires ReadsOk(log) && (e.Read? ==> e.value == Reply(Latest(log, e.k)))
    ensures ReadsOk(log + [e])
  {
    hide Latest;
    var now := log + [e];
    assert now[..|log|] == log;
    assert forall i :: 0 <= i < |log| ==> now[i] == log[i] && now[..i] == log[..i];
  }

  lemma MapAfterRead(table: Table, log: seq<Event>, e: Event)
    requires MapOk(table, log) && e.Read?
    ensures MapOk(table, log + [e])
  {
    hide Latest, Find;
    forall k | HasBucket(k) ensures Latest(log + [e], k) == Latest(log, k) {
      LatestAfter(log, e, k);
    }
  }

  lemma MapAfterWrite(table: Table, log: seq<Event>, k: int, v: int, bucket: seq<Node>)
    requires MapOk(table, log) && HasBucket(k)
    requires forall x :: HasBucket(x) ==> Find(bucket, x) == if x == k then Some(v) else Find(table[Hash(k)], x)
    ensures MapOk(table[Hash(k) := bucket], log + [Wrote(k, v)])
  {
    hide Latest, Find;
    forall x | HasBucket(x) ensures Latest(log + [Wrote(k, v)], x) == if x == k then Some(v) else Latest(log, x) {
      LatestAfter(log, Wrote(k, v), x);
    }
  }

  // ---- Every step ----

  /** A step that only moves a thread on, its lock and its allocation kept. */
  lemma MoveKeeps(s: State, t: Tid, p: Pc)
    requires Inv(s) && t in s.pc && p.Held() == s.pc[t].Held() && p.Owned() == s.pc[t].Owned()
    requires (p.HasKey() ==> HasBucket(p.k)) && CursorOk(s.table, p)
    ensures Inv(s.(pc := s.pc[t := p]))
  {
    hide LocksOk, CursorsOk, CursorOk, OwnersOk, AllOwned, MemoryOk, MapOk, ReadsOk, ChainsOk, Pc.Owned;
    MoveKeepsLocks(s.locks, s.pc, t, p);
    MoveKeepsCursors(s.table, s.pc, t, p);
    MoveKeepsOwners(s.live, s.pc, t, p);
    assert AllOwned(s.pc[t := p]) == AllOwned(s.pc);
  }

  lemma WriteKeeps(s: State, t: Tid, k: int, v: int, a: Addr)
    requires Inv(s) && t in s.pc && s.pc[t].Outside? && HasBucket(k) && a !in s.live
    ensures Inv(s.(live := s.live + {a}, pc := s.pc[t := Allocated(k, v, a)]))
  {
    hide LocksOk, CursorsOk, OwnersOk, AllOwned, MemoryOk, MapOk, ReadsOk, ChainsOk;
    var p := Allocated(k, v, a);
    MoveKeepsLocks(s.locks, s.pc, t, p);
    MoveKeepsCursors(s.table, s.pc, t, p);
    AllocKeepsOwners(s.live, s.pc, t, p, a);
    OwnedAreLive(s.live, s.pc);
    assert s.live + {a} - (AllOwned(s.pc) + {a}) == s.live - AllOwned(s.pc);
  }

  lemma LockKeeps(s: State, t: Tid, p: Pc)
    requires Inv(s) && t in s.pc && !s.pc[t].Locked() && (p.Searching? || p.Looking?) && HasBucket(p.k) && p.pos == 0
    requires s.locks[Hash(p.k)].None? && p.Owned() == s.pc[t].Owned()
    ensures Inv(s.(locks := s.locks[Hash(p.k) := Some(t)], pc := s.pc[t := p]))
  {
    hide LocksOk, CursorsOk, OwnersOk, AllOwned, MemoryOk, MapOk, ReadsOk, ChainsOk, Pc.Owned;
    LockKeepsLocks(s.locks, s.pc, t, p);
    MoveKeepsCursors(s.table, s.pc, t, p);
    MoveKeepsOwners(s.live, s.pc, t, p);
    assert AllOwned(s.pc[t := p]) == AllOwned(s.pc);
  }

  lemma UnlockKeeps(s: State, t: Tid, p: Pc)
    requires Inv(s) && t in s.pc && s.pc[t].Locked() && !p.HasKey() && p.Owned() == s.pc[t].Owned()
    ensures Inv(s.(locks := s.locks[Hash(s.pc[t].k) := None], pc := s.pc[t := p]))
  {
    hide LocksOk, CursorsOk, OwnersOk, AllOwned, MemoryOk, MapOk, ReadsOk, ChainsOk, Pc.Owned;
    BucketOf(s, t);
    UnlockKeepsLocks(s.locks, s.pc, t, p);
    MoveKeepsCursors(s.table, s.pc, t, p);
    MoveKeepsOwners(s.live, s.pc, t, p);
    assert AllOwned(s.pc[t := p]) == AllOwned(s.pc);
  }

  lemma FreeKeeps(s: State, t: Tid)
    requires Inv(s) && t in s.pc && s.pc[t].Freeing?
    ensures Inv(s.(live := s.live - {s.pc[t].a}, pc := s.pc[t := Outside]))
  {
    hide LocksOk, CursorsOk, OwnersOk, AllOwned, MemoryOk, MapOk, ReadsOk, ChainsOk;
    var a := s.pc[t].a;
    MoveKeepsLocks(s.locks, s.pc, t, Outside);
    MoveKeepsCursors(s.table, s.pc, t, Outside);
    FreeKeepsOwners(s.live, s.pc, t, a);
    MoveKeepsOwners(s.live, s.pc, t, Outside);
    assert AllOwned(s.pc[t := Outside]) == AllOwned(s.pc) - {a};
    assert (s.live - {a}) - (AllOwned(s.pc) - {a}) == s.live - AllOwned(s.pc);
  }

  lemma ReadKeeps(s: State, t: Tid, k: int, value: int)
    requires Inv(s) && t in s.pc && s.pc[t].Looking? && s.pc[t].k == k && HasBucket(k)
    requires value == Reply(Find(s.table[Hash(k)], k))
    ensures Inv(Answered(s, t, k, value))
  {
    hide LocksOk, OwnersOk, AllOwned, MemoryOk, ReadsOk, ChainsOk, Find, Latest, Hash;
    MoveKeeps(s, t, Answer(k, value));
    ReadsAfter(s.log, Read(k, value));
    MapAfterRead(s.table, s.log, Read(k, value));
  }

  lemma UpdateKeeps(s: State, t: Tid)
    requires Inv(s) && Enabled(s, Go(t)) && s.pc[t].Found?
    ensures Inv(Advance(s, t))
  {
    hide LocksOk, CursorsOk, OwnersOk, AllOwned, MemoryOk, MapOk, ReadsOk, ChainOk, Find, Latest, Hash;
    var Found(k, v, a, pos) := s.pc[t];
    var p, h := Stored(k, Some(a)), Hash(k);
    BucketOf(s, t);
    var bucket := Updated(s.table[h], pos, v);
    ChainAfterUpdate(s.table[h], h, pos, v);
    FirstOfItsKey(s.table[h], h, pos);
    MoveKeepsLocks(s.locks, s.pc, t, p);
    ChangeKeepsCursors(s.locks, s.table, s.pc, t, bucket, p);
    MoveKeepsOwners(s.live, s.pc, t, p);
    assert AllOwned(s.pc[t := p]) == AllOwned(s.pc);
    MemoryAfterUpdate(s.table, h, pos, v, s.live - AllOwned(s.pc));
    forall x ensures Find(bucket, x) == if x == k then Some(v) else Find(s.table[h], x) {
      FindAfterUpdate(s.table[h], pos, v, x);
    }
    MapAfterWrite(s.table, s.log, k, v, bucket);
    ReadsAfter(s.log, Wrote(k, v));
  }

  lemma BucketOf(s: State, t: Tid)
    requires Inv(s) && t in s.pc && s.pc[t].Locked()
    ensures HasBucket(s.pc[t].k) && CursorOk(s.table, s.pc[t])
  {
  }

  lemma InsertKeeps(s: State, t: Tid)
    requires Inv(s) && Enabled(s, Go(t)) && s.pc[t].Missing?
    ensures Inv(Advance(s, t))
  {
    hide LocksOk, CursorsOk, OwnersOk, AllOwned, MemoryOk, MapOk, ReadsOk, ChainOk, Find, Latest, Hash;
    var Missing(k, v, a) := s.pc[t];
    var p, h, node := Stored(k, None), Hash(k), Node(a, k, v);
    BucketOf(s, t);
    var bucket := [node] + s.table[h];
    ChainAfterInsert(s.table[h], h, node);
    MoveKeepsLocks(s.locks, s.pc, t, p);
    ChangeKeepsCursors(s.locks, s.table, s.pc, t, bucket, p);
    MoveKeepsOwners(s.live, s.pc, t, p);
    OwnedAreLive(s.live, s.pc);
    assert AllOwned(s.pc[t := p]) == AllOwned(s.pc) - {a};
    assert s.live - (AllOwned(s.pc) - {a}) == s.live - AllOwned(s.pc) + {a};
    MemoryAfterInsert(s.table, h, node, s.live - AllOwned(s.pc));
    forall x ensures Find(bucket, x) == if x == k then Some(v) else Find(s.table[h], x) {
      FindAfterInsert(s.table[h], node, x);
    }
    MapAfterWrite(s.table, s.log, k, v, bucket);
    ReadsAfter(s.log, Wrote(k, v));
  }

  lemma SearchKeeps(s: State, t: Tid)
    requires Inv(s) && Enabled(s, Go(t)) && (s.pc[t].Searching? || s.pc[t].Looking?)
    ensures Inv(Advance(s, t))
  {
    hide Inv, Find, Latest, Hash;
    BucketOf(s, t);
    var p := s.pc[t];
    var bucket := s.table[Hash(p.k)];
    if p.pos < |bucket| && bucket[p.pos].key == p.k {
      if p.Searching? {
        MoveKeeps(s, t, Found(p.k, p.v, p.a, p.pos));
      } else {
        FindAt(bucket, p.k, p.pos);
        ReadKeeps(s, t, p.k, bucket[p.pos].value);
      }
    } else if p.pos < |bucket| {
      MoveKeeps(s, t, if p.Searching? then Searching(p.k, p.v, p.a, p.pos + 1) else Looking(p.k, p.pos + 1));
    } else if p.Searching? {
      MoveKeeps(s, t, Missing(p.k, p.v, p.a));
    } else {
      FindNone(bucket, p.k);
      ReadKeeps(s, t, p.k, -ENOENT);
    }
  }

  lemma StepKeepsInv(s: State, step: Step)
    requires Inv(s) && Enabled(s, step)
    ensures Inv(Apply(s, step))
  {
    hide Inv, Find, Latest, Hash;
    match step
    case Write(t, k, v, a) =>
      if a.Some? {
        WriteKeeps(s, t, k, v, a.value);
      }
    case Ask(t, k) => MoveKeeps(s, t, Asking(k));
    case Go(t) =>
      match s.pc[t]
      case Allocated(k, v, a) => LockKeeps(s, t, Searching(k, v, a, 0));
      case Asking(k) => LockKeeps(s, t, Looking(k, 0));
      case Searching(_, _, _, _) => SearchKeeps(s, t);
      case Looking(_, _) => SearchKeeps(s, t);
      case Found(_, _, _, _) => UpdateKeeps(s, t);
      case Missing(_, _, _) => InsertKeeps(s, t);
      case Stored(k, unused) => UnlockKeeps(s, t, if unused.Some? then Freeing(unused.value) else Outside);
      case Answer(_, _) => UnlockKeeps(s, t, Outside);
      case Freeing(_) => FreeKeeps(s, t);
  }

  /** The states that a sequence of steps passes through. */
  ghost predicate Run(states: seq<State>, steps: seq<Step>) {
    && |states| == |steps| + 1
    && forall i :: 0 <= i < |steps| ==>
         Enabled(states[i], steps[i]) && states[i + 1] == Apply(states[i], steps[i])
  }

  /** After kv_store_init, no thread inside a call. */
  ghost predicate Initial(s: State) {
    && s.live == {} && s.log == []
    && (forall h :: 0 <= h < BUCKETS ==> s.table[h] == [] && s.locks[h] == None)
    && (forall t :: t in s.pc ==> s.pc[t].Outside?)
  }

  lemma InitialInv(s: State)
    requires Initial(s)
    ensures Inv(s)
  {
  }

  lemma {:induction false} RunKeepsInv(states: seq<State>, steps: seq<Step>, n: nat)
    requires Run(states, steps) && Initial(states[0]) && n <= |steps|
    ensures Inv(states[n])
  {
    hide Inv, Initial, Apply;
    if n == 0 {
      InitialInv(states[0]);
    } else {
      RunKeepsInv(states, steps, n - 1);
      StepKeepsInv(states[n - 1], steps[n - 1]);
    }
  }

  /** In every run, each key occurs at most once and only in its own bucket, each read returns the value last
      written in the order in which the calls took effect, and the allocations that are live are those of the
      list nodes and of the writers that are not done, all different. */
  lemma BehavesAsMap(states: seq<State>, steps: seq<Step>, n: nat)
    requires Run(states, steps) && Initial(states[0]) && n <= |steps|
    ensures var s := states[n];
      && (forall h, i :: At(s.table, h, i) ==> Hash(s.table[h][i].key) == h)
      && (forall h, i, g, j :: At(s.table, h, i) && At(s.table, g, j) && s.table[h][i].key == s.table[g][j].key ==>
            h == g && i == j)
      && (forall k :: HasBucket(k) ==> Find(s.table[Hash(k)], k) == Latest(s.log, k))
      && (forall i :: 0 <= i < |s.log| && s.log[i].Read? ==> s.log[i].value == Reply(Latest(s.log[..i], s.log[i].k)))
      && (forall a :: a in s.live <==> Linked(s.table, a) || exists t :: t in s.pc && a in s.pc[t].Owned())
      && (forall a, t :: t in s.pc && a in s.pc[t].Owned() ==> !Linked(s.table, a))
  {
    hide Find, Latest, LocksOk, CursorsOk, Pc.Owned;
    RunKeepsInv(states, steps, n);
    OwnedAreLive(states[n].live, states[n].pc);
    KeysOnce(states[n].table);
    assert forall a, t :: t in states[n].pc && a in states[n].pc[t].Owned() ==> a in AllOwned(states[n].pc);
  }

  // ---- Every call comes to its end ----

  /** How many actions a thread has left at most in its call. */
  function ActionsLeft(table: Buckets, p: Pc): nat {
    var n := if p.HasKey() && HasBucket(p.k) then |table[Hash(p.k)]| else 0;
    match p
    case Outside => 0
    case Freeing(_) => 1
    case Stored(_, _) => 2
    case Found(_, _, _, _) => 3
    case Missing(_, _, _) => 3
    case Searching(_, _, _, pos) => 4 + (if pos <= n then n - pos else 0)
    case Allocated(_, _, _) => 5 + n
    case Answer(_, _) => 1
    case Looking(_, pos) => 2 + (if pos <= n then n - pos else 0)
    case Asking(_) => 3 + n
  }

  /** A thread inside a call can take its next action, or the one that holds the lock it waits for can. */
  lemma CallGoesOn(s: State, t: Tid)
    requires Inv(s) && t in s.pc && !s.pc[t].Outside?
    ensures Enabled(s, Go(t)) ||
      ((s.pc[t].Allocated? || s.pc[t].Asking?) && HasBucket(s.pc[t].k) && s.locks[Hash(s.pc[t].k)].Some?
       && Enabled(s, Go(s.locks[Hash(s.pc[t].k)].value)))
  {
    hide ChainsOk, OwnersOk, MemoryOk, MapOk, ReadsOk, AllOwned;
    var p := s.pc[t];
    if p.Allocated? || p.Asking? {
      var h := Hash(p.k);
      if s.locks[h].Some? {
        assert s.pc[s.locks[h].value].Held() == Some(h);
        assert CursorOk(s.table, s.pc[s.locks[h].value]);
      }
    } else {
      assert CursorOk(s.table, p);
    }
  }

  /** Each action of a call brings it nearer to its return. */
  lemma ActionsEnd(s: State, t: Tid)
    requires Inv(s) && Enabled(s, Go(t))
    ensures var s' := Apply(s, Go(t)); t in s'.pc && ActionsLeft(s'.table, s'.pc[t]) < ActionsLeft(s.table, s.pc[t])
  {
    hide ChainsOk, OwnersOk, MemoryOk, MapOk, ReadsOk, AllOwned;
    assert CursorOk(s.table, s.pc[t]);
  }

  // ---- One event for each call ----

  /** A call that has got past kmalloc. */
  predicate IsCall(step: Step) { step.Ask? || (step.Write? && step.a.Some?) }

  /** Where a thread may be during a call. */
  predicate During(call: Step, p: Pc) {
    match p
    case Allocated(k, v, _) => call.Write? && k == call.k && v == call.v
    case Searching(k, v, _, _) => call.Write? && k == call.k && v == call.v
    case Found(k, v, _, _) => call.Write? && k == call.k && v == call.v
    case Missing(k, v, _) => call.Write? && k == call.k && v == call.v
    case Stored(k, _) => call.Write? && k == call.k
    case Freeing(_) => call.Write?
    case Asking(k) => call.Ask? && k == call.k
    case Looking(k, _) => call.Ask? && k == call.k
    case Answer(k, _) => call.Ask? && k == call.k
    case Outside => false
  }

  /** The call has taken effect. */
  predicate Effective(p: Pc) { p.Stored? || p.Freeing? || p.Answer? }

  /** What a call adds to the log, with the value that a read returns. */
  function EventOf(call: Step, p: Pc): Event
    requires During(call, p) && Effective(p) && IsCall(call)
  {
    if call.Write? then Wrote(call.k, call.v) else Read(call.k, p.value)
  }

  /** One step, as the thread inside the call sees it: the event is logged by the step that makes the call
      effective, and by no other; the value to be returned does not change after it. */
  lemma StepInCall(s: State, step: Step, t: Tid, call: Step)
    requires Enabled(s, step) && IsCall(call) && t in s.pc && During(call, s.pc[t])
    ensures var s' := Apply(s, step);
      && t in s'.pc
      && (step.t != t ==> s'.pc[t] == s.pc[t])
      && (step.t == t ==>
            && step == Go(t)
            && (s'.pc[t].Outside? ==> Effective(s.pc[t]))
            && (!s'.pc[t].Outside? ==> During(call, s'.pc[t]))
            && (Effective(s.pc[t]) ==>
                  && s'.log == s.log
                  && (!s'.pc[t].Outside? ==> Effective(s'.pc[t]) && EventOf(call, s'.pc[t]) == EventOf(call, s.pc[t])))
            && (!Effective(s.pc[t]) ==>
                  s'.log == if Effective(s'.pc[t]) then s.log + [EventOf(call, s'.pc[t])] else s.log))
  {
  }

  /** Step m belongs to t and leaves the log alone. */
  ghost predicate Silent(states: seq<State>, steps: seq<Step>, t: Tid, m: int)
    requires 0 <= m < |steps| && |states| == |steps| + 1
  {
    steps[m].t == t ==> states[m + 1].log == states[m].log
  }

  /** From its start at step i to point n a call has logged nothing, or once, at step e, its own event. */
  ghost predicate SoFar(states: seq<State>, steps: seq<Step>, i: nat, n: nat, e: nat)
    requires i < n <= |steps| && |states| == |steps| + 1 && IsCall(steps[i])
  {
    var t := steps[i].t;
    && t in states[n].pc && During(steps[i], states[n].pc[t])
    && (if Effective(states[n].pc[t]) then
          && i < e < n && steps[e] == Go(t)
          && states[e + 1].log == states[e].log + [EventOf(steps[i], states[n].pc[t])]
          && (forall m :: i <= m < n && m != e ==> Silent(states, steps, t, m))
        else forall m :: i <= m < n ==> Silent(states, steps, t, m))
  }

  lemma {:induction false} CallSoFar(states: seq<State>, steps: seq<Step>, i: nat, n: nat) returns (e: nat)
    requires Run(states, steps) && i < n <= |steps| && IsCall(steps[i])
    requires forall m :: i < m <= n ==> steps[i].t in states[m].pc && !states[m].pc[steps[i].t].Outside?
    ensures SoFar(states, steps, i, n, e)
    decreases n
  {
    hide Apply, Enabled, During, EventOf, IsCall, Effective;
    if n == i + 1 {
      CallBegins(states[i], steps[i]);
      assert states[i + 1] == Apply(states[i], steps[i]);
      e := 0;
    } else {
      e := CallSoFar(states, steps, i, n - 1);
      hide SoFar;
      e := CallSteps(states, steps, i, n - 1, e);
    }
  }

  lemma CallSteps(states: seq<State>, steps: seq<Step>, i: nat, n: nat, e0: nat) returns (e: nat)
    requires Run(states, steps) && i < n < |steps| && IsCall(steps[i]) && SoFar(states, steps, i, n, e0)
    requires steps[i].t in states[n + 1].pc && !states[n + 1].pc[steps[i].t].Outside?
    ensures SoFar(states, steps, i, n + 1, e)
  {
    hide Apply, Enabled, During, EventOf, IsCall, Effective;
    var t := steps[i].t;
    e := e0;
    assert states[n + 1] == Apply(states[n], steps[n]);
    StepInCall(states[n], steps[n], t, steps[i]);
    if !Effective(states[n].pc[t]) && Effective(states[n + 1].pc[t]) {
      e := n;
    }
  }

  lemma CallBegins(s: State, step: Step)
    requires Enabled(s, step) && IsCall(step)
    ensures var s' := Apply(s, step);
      step.t in s'.pc && During(step, s'.pc[step.t]) && !Effective(s'.pc[step.t]) && s'.log == s.log
  {
  }

  /** Every call that returns, at step j, has logged exactly one event, between its start and its return: a
      write what it was given, a read the value it returns. */
  lemma OneEventPerCall(states: seq<State>, steps: seq<Step>, i: nat, j: nat) returns (e: nat)
    requires Run(states, steps) && i < j < |steps| && IsCall(steps[i])
    requires forall m :: i < m <= j ==> steps[i].t in states[m].pc && !states[m].pc[steps[i].t].Outside?
    requires steps[i].t in states[j + 1].pc && states[j + 1].pc[steps[i].t].Outside?
    ensures var t, p := steps[i].t, states[j].pc[steps[i].t];
      && During(steps[i], p) && Effective(p) && steps[j] == Go(t)
      && i < e < j && steps[e] == Go(t) && states[e + 1].log == states[e].log + [EventOf(steps[i], p)]
      && forall m :: i <= m <= j && m != e ==> Silent(states, steps, t, m)
  {
    e := CallSoFar(states, steps, i, j);
    var t := steps[i].t;
    assert states[j + 1] == Apply(states[j], steps[j]);
    StepInCall(states[j], steps[j], t, steps[i]);
  }

  lemma KeysOnce(table: Table)
    requires ChainsOk(table)
    ensures forall h, i, g, j :: At(table, h, i) && At(table, g, j) && table[h][i].key == table[g][j].key ==>
      h == g && i == j
    ensures forall h, i :: At(table, h, i) ==> Hash(table[h][i].key) == h
  {
    hide Hash;
    assert forall h :: 0 <= h < |table| ==> ChainOk(table[h], h);
  }

  /** When the last call of a run has returned, kv_store_exit frees every allocation. */
  method ExitAfterRun(states: seq<State>, steps: seq<Step>) returns (left: set<Addr>)
    requires Run(states, steps) && Initial(states[0])
    requires forall t :: t in states[|steps|].pc ==> states[|steps|].pc[t].Outside?
    ensures left == {}
  {
    hide Initial, LocksOk, CursorsOk, ChainsOk, MemoryOk;
    RunKeepsInv(states, steps, |steps|);
    var last := states[|steps|];
    NothingOutsideTheLists(last);
    var store := new Store.Filled(last.table, last.live);
    store.Exit();
    left := store.live;
  }

  lemma NothingOutsideTheLists(s: State)
    requires Inv(s) && forall t :: t in s.pc ==> s.pc[t].Outside?
    ensures MemoryOk(s.table, s.live)
  {
    hide MemoryOk;
    assert AllOwned(s.pc) == {};
    assert s.live - {} == s.live;
  }
}
