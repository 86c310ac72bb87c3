/** What the steps of the inode cache do: references taken and dropped, inodes put into the hash and taken out,
    and the way of an inode from I_FREEING to its end. */
module InodeEffects {
  import opened InodeCache
  import opened InodeCacheProof

  // ---- References ----

  /** A lookup or igrab that succeeds leaves its caller with a reference of its own, and changes nothing else. */
  lemma TakesReference(s: State, step: Step)
    requires Enabled(s, step) && (step.Find? || step.Igrab?)
    ensures var s', i, r := Apply(s, step), step.i, step.r;
      && i in s.inodes && r !in s.refs && s'.refs == s.refs[r := i]
      && !s.inodes[i].Dying() && (step.Find? ==> s.inodes[i].hashed && !s.inodes[i].creating)
      && s'.inodes == s.inodes[i := s.inodes[i].(count := s.inodes[i].count + 1)]
      && s'.threads == s.threads && s'.evicted == s.evicted && s'.nrUnused == s.nrUnused
  {
  }

  /** A new inode comes with one reference; iget_locked's is in the hash under its number, locked. */
  lemma BringsInode(s: State, step: Step)
    requires Enabled(s, step) && (step.NewInode? || step.IgetInsert?)
    ensures var s', i, r := Apply(s, step), step.i, step.r;
      && i !in s.inodes && r !in s.refs && s'.refs == s.refs[r := i] && i in s'.inodes
      && s'.inodes[i].Matches(step.sb, step.ino) && s'.inodes[i].count == 1 && !s'.inodes[i].Dying()
      && s'.inodes[i].onSbList && !s'.inodes[i].onLru
      && (s'.inodes[i].hashed <==> step.IgetInsert?) && (s'.inodes[i].isNew <==> step.IgetInsert?)
      && (forall j :: j in s.inodes ==> j in s'.inodes && s'.inodes[j] == s.inodes[j])
      && s'.threads == s.threads && s'.evicted == s.evicted && s'.nrUnused == s.nrUnused
  {
  }

  /** iput gives back the one reference, unless it is the last one and is taken back for another try. */
  lemma DropsReference(s: State, t: Tid, r: Ref, last: Last)
    requires Enabled(s, Iput(t, r, last))
    ensures var s', i := Apply(s, Iput(t, r, last)), s.refs[r];
      if s.inodes[i].count == 1 && last.Retry? then s' == s
      else
        && s'.refs == s.refs - {r} && i in s'.inodes && s'.inodes[i].count == s.inodes[i].count - 1
        && (s.inodes[i].count > 1 ==>
              s'.threads == s.threads && s'.inodes == s.inodes[i := s.inodes[i].(count := s.inodes[i].count - 1)])
  {
  }

  /** The last reference decides what becomes of the inode: it stays, it goes to this thread's dispose list, or
      it is written first. */
  lemma LastReference(s: State, t: Tid, r: Ref, last: Last)
    requires Enabled(s, Iput(t, r, last)) && s.inodes[s.refs[r]].count == 1
    ensures var s', i := Apply(s, Iput(t, r, last)), s.refs[r];
      && i in s'.inodes
      && (last.Keep? ==> s'.threads == s.threads && s'.inodes[i].Dying() == s.inodes[i].Dying())
      && (last.Keep? ==> s'.inodes[i].onLru == (last.lru || s.inodes[i].onLru))
      && (last.Drop? ==> Disposed(s, s', t, i))
      && (last.WriteFirst? ==> s'.inodes[i].willFree && s'.threads[t] == s.threads[t].(act := Writing(i)))
  {
    var i := s.refs[r];
    var dropped := DropRef(s, r);
    assert dropped.threads == s.threads && i in dropped.inodes;
    match last
    case Keep(lru) =>
    case Drop => assert Apply(s, Iput(t, r, last)) == MarkFreeing(dropped, t, i);
    case WriteFirst => assert Apply(s, Iput(t, r, last)) == MarkWillFree(dropped, t, i);
    case Retry =>
  }

  /** Thread t has marked i I_FREEING, taken it off the unused list, and put it on its dispose list. */
  ghost predicate Disposed(s: State, s': State, t: Tid, i: InodeId) {
    && t in s.threads && t in s'.threads && i in s'.inodes
    && s'.inodes[i].freeing && !s'.inodes[i].willFree && !s'.inodes[i].onLru
    && s'.threads[t].act == Free && s'.threads[t].pending == [i] + s.threads[t].pending
  }

  /** The end of a write-back, the shrinker and evict_inodes all dispose of their inode. */
  lemma Disposes(s: State, step: Step)
    requires Enabled(s, step) && (step.WriteDone? || step.Isolate? || step.EvictOne?)
    ensures var i := if step.WriteDone? then s.threads[step.t].act.i else step.i;
      var s' := Apply(s, step);
      && Disposed(s, s', step.t, i) && s'.refs == s.refs && s'.evicted == s.evicted
      && (forall j :: j in s.inodes && j != i ==> j in s'.inodes && s'.inodes[j] == s.inodes[j])
      && s'.nrUnused == if i in s.inodes && s.inodes[i].onLru && s.nrUnused > 0 then s.nrUnused - 1 else s.nrUnused
  {
  }

  // ---- Flags ----

  /** Nothing has changed but the state of inode i, and of that only what the caller goes on to say. */
  ghost predicate OnlyInode(s: State, s': State, i: InodeId) {
    && i in s.inodes && i in s'.inodes && s'.inodes == s.inodes[i := s'.inodes[i]]
    && s'.refs == s.refs && s'.threads == s.threads && s'.evicted == s.evicted
  }

  /** insert_inode_locked puts the inode into the hash, locked; unlock_new_inode and discard_new_inode unlock it;
      remove_inode_hash takes it out. */
  lemma HashSteps(s: State, step: Step)
    requires Enabled(s, step) && (step.InsertLocked? || step.UnlockNew? || step.DiscardNew? || step.Unhash?)
    ensures var s', i := Apply(s, step), step.i;
      && OnlyInode(s, s', i) && s'.nrUnused == s.nrUnused
      && s'.inodes[i] == match step
                         case InsertLocked(_, _) => s.inodes[i].(isNew := true, creating := true, hashed := true)
                         case UnlockNew(_, _) => s.inodes[i].(isNew := false, creating := false)
                         case DiscardNew(_, _) => s.inodes[i].(isNew := false)
                         case _ => s.inodes[i].(hashed := false)
  {
  }

  /** The unused list: an inode goes on it once and is marked referenced the next time, comes off it, or loses
      that mark; nr_unused goes with it. */
  lemma LruSteps(s: State, step: Step)
    requires Enabled(s, step) && (step.LruAdd? || step.LruRemove? || step.LruRotate?)
    ensures var s', i := Apply(s, step), step.i;
      && OnlyInode(s, s', i)
      && var n := s.inodes[i];
         && s'.inodes[i] == (if step.LruAdd? && n.onLru then n.(referenced := true)
                             else if step.LruAdd? then n.(onLru := true)
                             else if step.LruRemove? then n.(onLru := false)
                             else n.(referenced := false))
         && s'.nrUnused == (if step.LruAdd? && !n.onLru then s.nrUnused + 1
                            else if step.LruRemove? && s.nrUnused > 0 then s.nrUnused - 1
                            else s.nrUnused)
  {
  }

  /** The shrinker's pin goes on and comes off. */
  lemma PinsAndUnpins(s: State, step: Step)
    requires Enabled(s, step) && (step.Pin? || step.Unpin?)
    ensures var s', t := Apply(s, step), step.t;
      var i := if step.Pin? then step.i else s.threads[t].act.i;
      && i in s.inodes && s'.inodes == s.inodes[i := s.inodes[i].(isolating := step.Pin?)]
      && s'.threads == s.threads[t := s.threads[t].(act := if step.Pin? then Pinned(i) else Free)]
      && s'.refs == s.refs && s'.evicted == s.evicted
  {
  }

  // ---- evict ----

  /** evict starts on the first inode of the dispose list and takes it off the superblock's list. */
  lemma EvictStarts(s: State, t: Tid)
    requires Enabled(s, EvictBegin(t))
    ensures var s', th := Apply(s, EvictBegin(t)), s.threads[t];
      && th.pending != [] && s'.threads == s.threads[t := Thread(th.pending[1..], Evict(th.pending[0], Entered))]
      && s'.evicted == s.evicted + multiset{th.pending[0]} && s'.refs == s.refs
      && th.pending[0] in s.inodes
      && s'.inodes == s.inodes[th.pending[0] := s.inodes[th.pending[0]].(onSbList := false)]
  {
  }

  /** It goes on through its phases in order; at its end the inode is gone. */
  lemma EvictGoesOn(s: State, t: Tid, step: Step)
    requires step == EvictWait(t) || step == EvictClear(t) || step == EvictUnhash(t) || step == Destroy(t)
    requires Enabled(s, step)
    ensures t in s.threads && s.threads[t].act.Evict?
    ensures var s', i, phase := Apply(s, step), s.threads[t].act.i, s.threads[t].act.phase;
      && s'.refs == s.refs && s'.evicted == s.evicted && s'.threads.Keys == s.threads.Keys
      && (forall j :: j != i ==> (j in s'.inodes <==> j in s.inodes) && (j in s.inodes ==> s'.inodes[j] == s.inodes[j]))
      && s'.threads[t] == s.threads[t].(act := match phase
                                               case Entered => Evict(i, Waited)
                                               case Waited => Evict(i, Cleared)
                                               case Cleared => Evict(i, Unhashed)
                                               case Unhashed => Free)
      && (i in s'.inodes <==> phase != Unhashed)
      && (phase == Waited ==> s'.inodes[i].JustCleared()) && (phase == Cleared ==> !s'.inodes[i].hashed)
      && (phase == Entered ==> s'.inodes == s.inodes)
  {
  }

  /** Nothing stands in the way of giving a reference back, or of taking one more on an inode that has one. */
  lemma ReferencesCanMove(s: State, t: Tid, r: Ref, r': Ref, last: Last)
    requires Inv(s) && t in s.threads && r in s.refs
    ensures s.threads[t].act.Free? ==> Enabled(s, Iput(t, r, last))
    ensures r' !in s.refs ==> Enabled(s, Igrab(s.refs[r], r'))
  {
    hide Unique, EvictedOnce, Unused, Owned;
    RefKeepsAlive(s, r);
  }

  /** Nor of going on with an eviction: only the shrinker's pin holds that up, and its owner can let go of it. */
  lemma ThreadsCanGoOn(s: State, t: Tid)
    requires Inv(s) && t in s.threads
    ensures s.threads[t].act.Free? && s.threads[t].pending != [] ==> Enabled(s, EvictBegin(t))
    ensures s.threads[t].act.Writing? ==> Enabled(s, WriteDone(t))
    ensures s.threads[t].act.Pinned? ==> Enabled(s, Unpin(t))
    ensures s.threads[t].act.Evict? ==> EvictCanGoOn(s, t, s.threads[t].act.i, s.threads[t].act.phase)
  {
    hide Unique, EvictedOnce, Unused, CountsRefs, GoodInodes, GoodThread, InHand, Enabled, EvictCanGoOn;
    assert GoodThread(s, t);
    ByItself(s, t);
    if s.threads[t].act.Evict? {
      InItsPhase(s, t);
    }
  }

  lemma ByItself(s: State, t: Tid)
    requires t in s.threads && GoodThread(s, t)
    ensures s.threads[t].act.Free? && s.threads[t].pending != [] ==> Enabled(s, EvictBegin(t))
    ensures s.threads[t].act.Writing? ==> Enabled(s, WriteDone(t))
    ensures s.threads[t].act.Pinned? ==> Enabled(s, Unpin(t))
  {
    assert s.threads[t].pending != [] ==> s.threads[t].pending[0] in s.threads[t].pending;
  }

  lemma InItsPhase(s: State, t: Tid)
    requires Owned(s) && t in s.threads && GoodThread(s, t) && s.threads[t].act.Evict?
    ensures EvictCanGoOn(s, t, s.threads[t].act.i, s.threads[t].act.phase)
  {
    hide GoodThread, InHand;
    EvictFacts(s, t);
    if s.inodes[s.threads[t].act.i].isolating {
      PinnerCanUnpin(s, s.threads[t].act.i);
    }
  }

  ghost predicate EvictCanGoOn(s: State, t: Tid, i: InodeId, phase: EvictPhase) {
    match phase
    case Entered =>
      && i in s.inodes
      && if s.inodes[i].isolating then i in s.pinner && Enabled(s, Unpin(s.pinner[i])) else Enabled(s, EvictWait(t))
    case Waited => Enabled(s, EvictClear(t))
    case Cleared => Enabled(s, EvictUnhash(t))
    case Unhashed => Enabled(s, Destroy(t))
  }

  lemma PinnerCanUnpin(s: State, i: InodeId)
    requires Owned(s) && i in s.inodes && s.inodes[i].isolating
    ensures i in s.pinner && Enabled(s, Unpin(s.pinner[i]))
  {
    assert InHand(s, i);
  }

  // ---- Whole runs ----

  lemma ReferenceStays(s: State, step: Step, r: Ref)
    requires Enabled(s, step) && r in s.refs && !(step.Iput? && step.held == r)
    ensures var s' := Apply(s, step); r in s'.refs && s'.refs[r] == s.refs[r]
  {
    hide MarkFreeing, MarkWillFree, AddLru;
    if step.Iput? {
      IputRefs(s, step.t, step.held, step.last);
    } else if step.WriteDone? || step.Isolate? || step.EvictOne? {
      Disposes(s, step);
    } else if step.LruAdd? {
      LruSteps(s, step);
    }
  }

  lemma IputRefs(s: State, t: Tid, r: Ref, last: Last)
    requires Enabled(s, Iput(t, r, last))
    ensures Apply(s, Iput(t, r, last)).refs == s.refs || Apply(s, Iput(t, r, last)).refs == s.refs - {r}
  {
    DropsReference(s, t, r, last);
  }

  /** From the moment a reference is held until the iput that gives it back, the inode stays in the cache, is not
      being freed, and the reference is to it. */
  lemma {:induction false} ReferenceKeeps(states: seq<State>, steps: seq<Step>, r: Ref, k: nat, m: nat)
    requires InodeCacheProof.Run(states, steps) && k <= m < |states| && r in states[k].refs
    requires forall j :: k <= j < m ==> !(steps[j].Iput? && steps[j].held == r)
    ensures r in states[m].refs && states[m].refs[r] == states[k].refs[r]
    ensures var i := states[k].refs[r];
      i in states[m].inodes && states[m].inodes[i].count > 0 && !states[m].inodes[i].Dying()
  {
    hide Enabled, Apply, Unique, Owned, EvictedOnce, Unused, Init;
    RunKeepsInv(states, steps, m);
    if k < m {
      ReferenceKeeps(states, steps, r, k, m - 1);
      assert states[m - 1 + 1] == Apply(states[m - 1], steps[m - 1]);
      ReferenceStays(states[m - 1], steps[m - 1], r);
    }
    RefKeepsAlive(states[m], r);
  }

  /** The step takes i out of the hash. */
  ghost predicate Unhashes(s: State, step: Step, i: InodeId) {
    || (step.Unhash? && step.i == i)
    || ((step.EvictUnhash? || step.Destroy?) && step.t in s.threads && s.threads[step.t].act.Evict?
        && s.threads[step.t].act.i == i)
  }

  ghost predicate InHash(s: State, i: InodeId, sb: nat, ino: nat) {
    i in s.inodes && s.inodes[i].hashed && s.inodes[i].Matches(sb, ino)
  }

  lemma HashedStays(s: State, step: Step, i: InodeId, sb: nat, ino: nat)
    requires Enabled(s, step) && InHash(s, i, sb, ino) && !Unhashes(s, step, i)
    ensures InHash(Apply(s, step), i, sb, ino)
  {
    if step.Iput? {
      HashedOverIput(s, step.t, step.held, step.last, i, sb, ino);
    } else if ByThread(step) {
      HashedByThread(s, step, i, sb, ino);
    } else if InEvict(step) {
      HashedInEvict(s, step, i, sb, ino);
    } else {
      HashedOtherwise(s, step, i, sb, ino);
    }
    hide Apply;
  }

  lemma HashedOverIput(s: State, t: Tid, r: Ref, last: Last, i: InodeId, sb: nat, ino: nat)
    requires Enabled(s, Iput(t, r, last)) && InHash(s, i, sb, ino)
    ensures InHash(Apply(s, Iput(t, r, last)), i, sb, ino)
  {
  }

  lemma HashedByThread(s: State, step: Step, i: InodeId, sb: nat, ino: nat)
    requires Enabled(s, step) && InHash(s, i, sb, ino) && ByThread(step)
    ensures InHash(Apply(s, step), i, sb, ino)
  {
  }

  lemma HashedInEvict(s: State, step: Step, i: InodeId, sb: nat, ino: nat)
    requires Enabled(s, step) && InHash(s, i, sb, ino) && InEvict(step) && !Unhashes(s, step, i)
    ensures InHash(Apply(s, step), i, sb, ino)
  {
  }

  lemma HashedOtherwise(s: State, step: Step, i: InodeId, sb: nat, ino: nat)
    requires Enabled(s, step) && InHash(s, i, sb, ino) && !Unhashes(s, step, i)
    requires !ByThread(step) && !InEvict(step) && !step.Iput?
    ensures InHash(Apply(s, step), i, sb, ino)
  {
    hide Apply, Enabled;
    match step
    case NewInode(_, _, _, _) => BringsInode(s, step);
    case IgetInsert(_, _, _, _) => BringsInode(s, step);
    case Find(_, _) => TakesReference(s, step);
    case Igrab(_, _) => TakesReference(s, step);
    case LruAdd(_) => LruSteps(s, step);
    case LruRemove(_) => LruSteps(s, step);
    case LruRotate(_) => LruSteps(s, step);
    case _ => HashSteps(s, step);
  }

  /** From its insertion until it is taken out, an inode is in the hash under its number, so that every search of
      the chain comes to it or to one before it with the same number. */
  lemma {:induction false} HashedUntilRemoved(states: seq<State>, steps: seq<Step>, i: InodeId, sb: nat, ino: nat,
                                              k: nat, m: nat)
    requires InodeCacheProof.Run(states, steps) && k <= m < |states| && InHash(states[k], i, sb, ino)
    requires forall j :: k <= j < m ==> !Unhashes(states[j], steps[j], i)
    ensures InHash(states[m], i, sb, ino)
  {
    hide Enabled, Apply, Init, InHash, Unhashes;
    if k < m {
      HashedUntilRemoved(states, steps, i, sb, ino, k, m - 1);
      assert states[m - 1 + 1] == Apply(states[m - 1], steps[m - 1]);
      HashedStays(states[m - 1], steps[m - 1], i, sb, ino);
    }
  }
}
