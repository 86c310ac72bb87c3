/** Every step of the inode cache keeps its invariant, and what that says about whole runs. */
module InodeCacheProof {
  import opened InodeCache

  // ---- One inode changes: the parts of the invariant about counts, the hash and the unused list ----

  /** s' differs from s in inode i only, which keeps its identity and its references. */
  ghost predicate OneInode(s: State, s': State, i: InodeId) {
    && i in s.inodes && i in s'.inodes && s'.inodes == s.inodes[i := s'.inodes[i]] && s'.refs == s.refs
    && s'.inodes[i].sb == s.inodes[i].sb && s'.inodes[i].ino == s.inodes[i].ino
    && s'.inodes[i].count == s.inodes[i].count
  }

  lemma CountsFrame(s: State, s': State, i: InodeId)
    requires CountsRefs(s) && OneInode(s, s', i)
    ensures CountsRefs(s')
  {
  }

  lemma UniqueFrame(s: State, s': State, i: InodeId)
    requires Unique(s) && OneInode(s, s', i)
    requires s'.inodes[i].hashed && !s'.inodes[i].Dying() ==> s.inodes[i].hashed && !s.inodes[i].Dying()
    ensures Unique(s')
  {
  }

  lemma GoodFrame(s: State, s': State, i: InodeId)
    requires GoodInodes(s) && OneInode(s, s', i) && GoodInode(s'.inodes[i])
    ensures GoodInodes(s')
  {
    hide GoodInode;
  }

  lemma UnusedFrame(s: State, s': State, i: InodeId)
    requires OneInode(s, s', i) && s'.inodes[i].onLru == s.inodes[i].onLru
    ensures Unused(s') == Unused(s)
  {
  }

  lemma EvictedFrame(s: State, s': State, i: InodeId)
    requires EvictedOnce(s) && OneInode(s, s', i) && s'.evicted == s.evicted
    requires (s.inodes[i].freeing ==> s'.inodes[i].freeing)
    ensures EvictedOnce(s')
  {
  }

  /** All parts but ownership, for a change that leaves the unused list alone. */
  lemma PlainFrame(s: State, s': State, i: InodeId)
    requires Inv(s) && OneInode(s, s', i) && s'.evicted == s.evicted && s'.nrUnused == s.nrUnused
    requires s'.inodes[i].hashed && !s'.inodes[i].Dying() ==> s.inodes[i].hashed && !s.inodes[i].Dying()
    requires GoodInode(s'.inodes[i]) && s'.inodes[i].onLru == s.inodes[i].onLru
    requires s.inodes[i].freeing ==> s'.inodes[i].freeing
    requires Owned(s')
    ensures Inv(s')
  {
    hide Owned, CountsRefs, Unique, GoodInodes, GoodInode, EvictedOnce, Unused;
    CountsFrame(s, s', i);
    UniqueFrame(s, s', i);
    GoodFrame(s, s', i);
    UnusedFrame(s, s', i);
    EvictedFrame(s, s', i);
  }

  // ---- Ownership ----

  /** Outside i nothing has changed. */
  ghost predicate SameElsewhere(s: State, s': State, i: InodeId) {
    forall j :: j != i ==>
      && (j in s.inodes <==> j in s'.inodes) && (j in s.inodes ==> s'.inodes[j] == s.inodes[j])
      && (j in s.owner <==> j in s'.owner) && (j in s.owner ==> s'.owner[j] == s.owner[j])
      && (j in s.pinner <==> j in s'.pinner) && (j in s.pinner ==> s'.pinner[j] == s.pinner[j])
      && s'.evicted[j] == s.evicted[j]
  }

  /** What thread u relies on, if it has inode i in hand. */
  ghost predicate SameForOthers(s: State, s': State, t: Tid, i: InodeId) {
    i in s.inodes ==>
      // nobody but t has it to free
      && (s.inodes[i].Dying() ==> i in s.owner && s.owner[i] == t)
      // and whoever pins it still does
      && (s.inodes[i].isolating && !(i in s.pinner && s.pinner[i] == t) ==>
          && i in s'.inodes && s'.inodes[i].isolating && s'.inodes[i].clear == s.inodes[i].clear
          && i in s.pinner && i in s'.pinner && s'.pinner[i] == s.pinner[i])
  }

  lemma OtherThread(s: State, s': State, t: Tid, i: InodeId, u: Tid)
    requires u in s.threads && u in s'.threads && u != t && s'.threads[u] == s.threads[u]
    requires GoodThread(s, u) && SameElsewhere(s, s', i) && SameForOthers(s, s', t, i)
    ensures GoodThread(s', u)
  {
    var th := s.threads[u];
    forall j | j in th.pending
      ensures OwnedBy(s', j, u) && s'.inodes[j].freeing && !s'.inodes[j].clear && s'.evicted[j] == 0
    {
      assert OwnedBy(s, j, u);
      assert j != i;
    }
    match th.act
    case Free =>
    case Writing(j) => assert j != i;
    case Evict(j, _) => assert j != i;
    case Pinned(j) => assert s.inodes[j].isolating;
  }

  /** Thread t works on inode i; if t is well and i in hand afterwards, so is everything else. */
  lemma OwnedStep(s: State, s': State, t: Tid, i: InodeId)
    requires Owned(s) && t in s.threads && t in s'.threads && s'.threads == s.threads[t := s'.threads[t]]
    requires SameElsewhere(s, s', i) && SameForOthers(s, s', t, i)
    requires GoodThread(s', t)
    requires s.threads[t].Claims() - {i} <= s'.threads[t].Claims()
    requires s.threads[t].act.Pinned? ==> s'.threads[t].act == s.threads[t].act || s.threads[t].act.i == i
    requires i in s'.inodes ==> InHand(s', i)
    ensures Owned(s')
  {
    hide GoodThread;
    forall u | u in s'.threads
      ensures GoodThread(s', u)
    {
      if u != t {
        OtherThread(s, s', t, i, u);
      }
    }
    forall j | j in s'.inodes
      ensures InHand(s', j)
    {
      if j != i {
        assert InHand(s, j);
      }
    }
  }

  /** The part of an inode that threads rely on; only a pinning thread relies on isolating. */
  ghost predicate SameLife(n: Inode, m: Inode) {
    && m.freeing == n.freeing && m.willFree == n.willFree && m.clear == n.clear
    && (m.hashed ==> n.hashed) && (m.isolating ==> n.isolating)
  }

  lemma SameThread(s: State, s': State, i: InodeId, u: Tid)
    requires u in s.threads && u in s'.threads && GoodThread(s, u)
    requires OneInode(s, s', i) && s'.evicted == s.evicted && s'.owner == s.owner && s'.pinner == s.pinner
    requires SameLife(s.inodes[i], s'.inodes[i])
    requires s'.threads[u].pending == s.threads[u].pending
    requires s'.threads[u].act == s.threads[u].act || s'.threads[u].act == Free
    requires s'.threads[u].act == Pinned(i) ==> s'.inodes[i].isolating
    ensures GoodThread(s', u)
  {
    hide GoodThread;
    ThreadFrame(s, s', i, u);
  }

  lemma ThreadFrame(s: State, s': State, i: InodeId, u: Tid)
    requires u in s.threads && u in s'.threads && GoodThread(s, u)
    requires forall j :: j in s.inodes ==>
      j in s'.inodes && SameLife(s.inodes[j], s'.inodes[j]) && (j != i ==> s'.inodes[j] == s.inodes[j])
    requires s'.evicted == s.evicted && s'.owner == s.owner && s'.pinner == s.pinner
    requires s'.threads[u].pending == s.threads[u].pending
    requires s'.threads[u].act == s.threads[u].act || s'.threads[u].act == Free
    requires s'.threads[u].act == Pinned(i) ==> i in s'.inodes && s'.inodes[i].isolating
    ensures GoodThread(s', u)
  {
    var th := s.threads[u];
    forall j | j in th.pending
      ensures OwnedBy(s', j, u) && s'.inodes[j].freeing && !s'.inodes[j].clear && s'.evicted[j] == 0
    {
      assert OwnedBy(s, j, u);
    }
  }

  /** No thread moves and inode i keeps everything a thread could rely on. */
  lemma OwnedSame(s: State, s': State, i: InodeId)
    requires Owned(s) && OneInode(s, s', i)
    requires s'.threads == s.threads && s'.evicted == s.evicted && s'.owner == s.owner && s'.pinner == s.pinner
    requires SameLife(s.inodes[i], s'.inodes[i]) && s'.inodes[i].isolating == s.inodes[i].isolating
    ensures Owned(s')
  {
    hide GoodThread;
    forall u | u in s'.threads
      ensures GoodThread(s', u)
    {
      PinIsIsolating(s, u);
      SameThread(s, s', i, u);
    }
    forall j | j in s'.inodes
      ensures InHand(s', j)
    {
      assert InHand(s, j);
    }
  }

  lemma PinIsIsolating(s: State, u: Tid)
    requires u in s.threads && GoodThread(s, u)
    ensures s.threads[u].act.Pinned? ==>
      var i := s.threads[u].act.i;
      i in s.inodes && s.inodes[i].isolating && !s.inodes[i].clear && i in s.pinner && s.pinner[i] == u
  {
  }

  // ---- Steps that touch neither threads nor references ----

  lemma PutKeeps(s: State, i: InodeId, n: Inode)
    requires Inv(s) && i in s.inodes && OneInode(s, s.Put(i, n), i)
    requires SameLife(s.inodes[i], n) && n.isolating == s.inodes[i].isolating
    requires GoodInode(n) && n.onLru == s.inodes[i].onLru
    ensures Inv(s.Put(i, n))
  {
    hide Owned, CountsRefs, Unique, GoodInodes, EvictedOnce, Unused;
    OwnedSame(s, s.Put(i, n), i);
    PlainFrame(s, s.Put(i, n), i);
  }

  /** Whoever holds a reference holds it on an inode that is not being freed. */
  lemma RefKeepsAlive(s: State, r: Ref)
    requires CountsRefs(s) && GoodInodes(s) && r in s.refs
    ensures s.refs[r] in s.inodes && s.inodes[s.refs[r]].count > 0 && !s.inodes[s.refs[r]].Dying()
  {
    var i := s.refs[r];
    assert r in Holders(s.refs, i);
    assert GoodInode(s.inodes[i]);
  }

  lemma InsertUnique(s: State, i: InodeId, held: Ref)
    requires Unique(s) && Enabled(s, InsertLocked(i, held))
    ensures Unique(Apply(s, InsertLocked(i, held)))
  {
  }

  lemma InsertLockedKeeps(s: State, i: InodeId, held: Ref)
    requires Inv(s) && Enabled(s, InsertLocked(i, held))
    ensures Inv(Apply(s, InsertLocked(i, held)))
  {
    hide Owned, CountsRefs, Unique, EvictedOnce, Unused;
    var s' := Apply(s, InsertLocked(i, held));
    RefKeepsAlive(s, held);
    assert GoodInode(s.inodes[i]);
    CountsFrame(s, s', i);
    InsertUnique(s, i, held);
    UnusedFrame(s, s', i);
    EvictedFrame(s, s', i);
    InsertOwned(s, s', i);
  }

  lemma InsertThread(s: State, s': State, i: InodeId, u: Tid)
    requires u in s.threads && u in s'.threads && GoodThread(s, u)
    requires i in s.inodes && !s.inodes[i].Dying() && !s.inodes[i].clear
    requires s' == s.Put(i, s.inodes[i].(isNew := true, creating := true, hashed := true))
    ensures GoodThread(s', u)
  {
  }

  lemma InsertOwned(s: State, s': State, i: InodeId)
    requires Owned(s) && i in s.inodes && !s.inodes[i].Dying() && !s.inodes[i].clear
    requires s' == s.Put(i, s.inodes[i].(isNew := true, creating := true, hashed := true))
    ensures Owned(s')
  {
    hide GoodThread;
    forall u | u in s'.threads
      ensures GoodThread(s', u)
    {
      InsertThread(s, s', i, u);
    }
    forall j | j in s'.inodes
      ensures InHand(s', j)
    {
      assert InHand(s, j);
    }
  }

  // ---- References ----

  lemma AddCounts(s: State, s': State, i: InodeId, r: Ref)
    requires CountsRefs(s) && i !in s.inodes && r !in s.refs
    requires s'.refs == s.refs[r := i] && i in s'.inodes
    requires s'.inodes == s.inodes[i := s'.inodes[i]] && s'.inodes[i].count == 1
    ensures CountsRefs(s')
  {
    forall j | j in s'.inodes
      ensures s'.inodes[j].count == |Holders(s'.refs, j)|
    {
      if j == i {
        assert Holders(s'.refs, i) == {r};
      } else {
        assert Holders(s'.refs, j) == Holders(s.refs, j);
      }
    }
  }

  lemma AddUnique(s: State, i: InodeId, n: Inode)
    requires Unique(s) && i !in s.inodes
    requires n.hashed ==> forall j :: j in s.inodes && s.inodes[j].hashed ==> !s.inodes[j].Matches(n.sb, n.ino)
    ensures forall s': State :: s'.inodes == s.inodes[i := n] ==> Unique(s')
  {
  }

  lemma AddThread(s: State, s': State, i: InodeId, u: Tid)
    requires u in s.threads && u in s'.threads && GoodThread(s, u) && i !in s.inodes
    requires s'.threads == s.threads && s'.evicted == s.evicted && s'.owner == s.owner && s'.pinner == s.pinner
    requires i in s'.inodes && s'.inodes == s.inodes[i := s'.inodes[i]]
    requires !s'.inodes[i].Dying() && !s'.inodes[i].isolating
    ensures GoodThread(s', u)
  {
  }

  lemma AddOwned(s: State, s': State, i: InodeId)
    requires Owned(s) && i !in s.inodes && s'.threads == s.threads
    requires s'.evicted == s.evicted && s'.owner == s.owner && s'.pinner == s.pinner
    requires i in s'.inodes && s'.inodes == s.inodes[i := s'.inodes[i]]
    requires !s'.inodes[i].Dying() && !s'.inodes[i].isolating
    ensures Owned(s')
  {
    hide GoodThread;
    forall u | u in s'.threads
      ensures GoodThread(s', u)
    {
      AddThread(s, s', i, u);
    }
    forall j | j in s'.inodes
      ensures InHand(s', j)
    {
      assert j != i ==> InHand(s, j);
    }
  }

  lemma AddInodeKeeps(s: State, i: InodeId, n: Inode, r: Ref)
    requires Inv(s) && Fresh(s, i) && r !in s.refs && n.count == 1 && !n.Dying() && !n.clear && !n.isolating && !n.onLru
    requires n.hashed ==> forall j :: j in s.inodes && s.inodes[j].hashed ==> !s.inodes[j].Matches(n.sb, n.ino)
    ensures Inv(s.Put(i, n).(refs := s.refs[r := i]))
  {
    hide Owned, CountsRefs, Unique;
    var s' := s.Put(i, n).(refs := s.refs[r := i]);
    AddCounts(s, s', i, r);
    AddUnique(s, i, n);
    AddOwned(s, s', i);
    assert Unused(s') == Unused(s);
  }

  lemma RefCounts(s: State, s': State, i: InodeId, r: Ref, add: bool)
    requires CountsRefs(s) && i in s.inodes && i in s'.inodes && s'.inodes == s.inodes[i := s'.inodes[i]]
    requires
      if add then r !in s.refs && s'.refs == s.refs[r := i]
      else r in s.refs && s.refs[r] == i && s'.refs == s.refs - {r}
    requires s'.inodes[i].count == s.inodes[i].count + if add then 1 else -1
    ensures CountsRefs(s')
  {
    forall j | j in s'.inodes
      ensures s'.inodes[j].count == |Holders(s'.refs, j)|
    {
      if j == i {
        assert Holders(s'.refs, i) == if add then Holders(s.refs, i) + {r} else Holders(s.refs, i) - {r};
        assert add || r in Holders(s.refs, i);
      } else {
        assert Holders(s'.refs, j) == Holders(s.refs, j);
      }
    }
  }

  lemma RefFrame(s: State, s': State, i: InodeId)
    requires Inv(s) && i in s.inodes && !s.inodes[i].Dying() && CountsRefs(s')
    requires s' == s.(inodes := s'.inodes, refs := s'.refs)
    requires i in s'.inodes && s'.inodes == s.inodes[i := s.inodes[i].(count := s'.inodes[i].count)]
    ensures Inv(s')
  {
    hide Owned, CountsRefs, Unique, Unused;
    assert GoodInode(s.inodes[i]);
    RefOwned(s, s', i);
    RefUnique(s, s', i);
    RefUnused(s, s', i);
  }

  lemma RefThread(s: State, s': State, i: InodeId, u: Tid)
    requires u in s.threads && u in s'.threads && GoodThread(s, u) && i in s.inodes
    requires i in s'.inodes && s' == s.(inodes := s'.inodes, refs := s'.refs)
    requires s'.inodes == s.inodes[i := s.inodes[i].(count := s'.inodes[i].count)]
    ensures GoodThread(s', u)
  {
  }

  lemma RefOwned(s: State, s': State, i: InodeId)
    requires Owned(s) && i in s.inodes && i in s'.inodes && s' == s.(inodes := s'.inodes, refs := s'.refs)
    requires s'.inodes == s.inodes[i := s.inodes[i].(count := s'.inodes[i].count)]
    ensures Owned(s')
  {
    hide GoodThread;
    forall u | u in s'.threads
      ensures GoodThread(s', u)
    {
      RefThread(s, s', i, u);
    }
    forall j | j in s'.inodes
      ensures InHand(s', j)
    {
      assert InHand(s, j);
    }
  }

  lemma RefUnique(s: State, s': State, i: InodeId)
    requires Unique(s) && i in s.inodes && i in s'.inodes
    requires s'.inodes == s.inodes[i := s.inodes[i].(count := s'.inodes[i].count)]
    ensures Unique(s')
  {
  }

  lemma RefUnused(s: State, s': State, i: InodeId)
    requires i in s.inodes && i in s'.inodes && s'.inodes == s.inodes[i := s.inodes[i].(count := s'.inodes[i].count)]
    ensures Unused(s') == Unused(s)
  {
  }

  lemma NewRefKeeps(s: State, i: InodeId, r: Ref)
    requires Inv(s) && i in s.inodes && !s.inodes[i].Dying() && r !in s.refs
    ensures Inv(NewRef(s, i, r))
  {
    hide Owned, CountsRefs, Unique, Unused, GoodInodes, EvictedOnce;
    RefCounts(s, NewRef(s, i, r), i, r, true);
    RefFrame(s, NewRef(s, i, r), i);
  }

  lemma DropRefKeeps(s: State, r: Ref)
    requires Inv(s) && r in s.refs && s.refs[r] in s.inodes && s.inodes[s.refs[r]].count > 0
    ensures Inv(DropRef(s, r)) && !DropRef(s, r).inodes[s.refs[r]].Dying()
  {
    hide Owned, CountsRefs, Unique, Unused, GoodInodes, EvictedOnce;
    RefKeepsAlive(s, r);
    RefCounts(s, DropRef(s, r), s.refs[r], r, false);
    RefFrame(s, DropRef(s, r), s.refs[r]);
  }

  // ---- The unused list ----

  lemma OnLruKeeps(s: State, s': State, i: InodeId, on: bool)
    requires Inv(s) && i in s.inodes && (on ==> !s.inodes[i].freeing) && on != s.inodes[i].onLru
    requires s' == s.Put(i, s.inodes[i].(onLru := on)).(nrUnused := s'.nrUnused)
    requires s'.nrUnused == s.nrUnused + if on then 1 else -1
    ensures Inv(s')
  {
    hide Owned, CountsRefs, Unique;
    assert Unused(s') == if on then Unused(s) + {i} else Unused(s) - {i};
    assert on || i in Unused(s);
    assert GoodInode(s.inodes[i]);
    CountsFrame(s, s', i);
    UniqueFrame(s, s', i);
    OwnedSame(s, s', i);
  }

  lemma UnusedPositive(s: State, i: InodeId)
    requires s.nrUnused == |Unused(s)| && i in s.inodes && s.inodes[i].onLru
    ensures s.nrUnused > 0
  {
    assert i in Unused(s);
  }

  lemma AddLruKeeps(s: State, i: InodeId)
    requires Inv(s) && i in s.inodes && !s.inodes[i].Dying()
    ensures Inv(AddLru(s, i))
  {
    hide Owned, CountsRefs, Unique, EvictedOnce, Unused;
    assert GoodInode(s.inodes[i]);
    if s.inodes[i].onLru {
      PutKeeps(s, i, s.inodes[i].(referenced := true));
    } else {
      OnLruKeeps(s, AddLru(s, i), i, true);
    }
  }

  lemma LruRemoveKeeps(s: State, i: InodeId)
    requires Inv(s) && i in s.inodes && s.inodes[i].onLru
    ensures Inv(s.Put(i, s.inodes[i].(onLru := false)).(nrUnused := OffLru(s, i)))
  {
    hide Owned, CountsRefs, Unique, EvictedOnce, GoodInodes;
    UnusedPositive(s, i);
    OnLruKeeps(s, s.Put(i, s.inodes[i].(onLru := false)).(nrUnused := OffLru(s, i)), i, false);
  }

  // ---- Marking an inode for freeing ----

  ghost predicate MayFree(s: State, t: Tid, i: InodeId) {
    && t in s.threads && i in s.inodes && s.inodes[i].count == 0
    && ((s.threads[t].act.Free? && !s.inodes[i].Dying()) || s.threads[t].act == Writing(i))
  }

  /** Taking i off the unused list first makes no difference. */
  lemma OffLruFirst(s: State, t: Tid, i: InodeId)
    requires t in s.threads && i in s.inodes
    ensures MarkFreeing(s.Put(i, s.inodes[i].(onLru := false)).(nrUnused := OffLru(s, i)), t, i) == MarkFreeing(s, t, i)
  {
    var off := s.Put(i, s.inodes[i].(onLru := false)).(nrUnused := OffLru(s, i));
    assert off.inodes[i := off.inodes[i].(freeing := true, willFree := false, onLru := false)]
        == s.inodes[i := s.inodes[i].(freeing := true, willFree := false, onLru := false)];
  }

  /** Marking an unreferenced inode I_FREEING, whether it was alive or waiting for its write-back. */
  lemma MarkFreeingKeeps(s: State, t: Tid, i: InodeId)
    requires Inv(s) && MayFree(s, t, i)
    ensures Inv(MarkFreeing(s, t, i))
  {
    hide Inv, MarkFreeing;
    if s.inodes[i].onLru {
      LruRemoveKeeps(s, i);
      MarkFreeingOffLru(s.Put(i, s.inodes[i].(onLru := false)).(nrUnused := OffLru(s, i)), t, i);
      OffLruFirst(s, t, i);
    } else {
      MarkFreeingOffLru(s, t, i);
    }
  }

  lemma MarkFreeingOffLru(s: State, t: Tid, i: InodeId)
    requires Inv(s) && MayFree(s, t, i) && !s.inodes[i].onLru
    ensures Inv(MarkFreeing(s, t, i))
  {
    hide Owned, CountsRefs, Unique, EvictedOnce, Unused;
    NotYetFreeing(s, t, i);
    assert GoodInode(s.inodes[i]);
    FreeingOwned(s, t, i);
    PlainFrame(s, MarkFreeing(s, t, i), i);
  }

  lemma NotYetFreeing(s: State, t: Tid, i: InodeId)
    requires Inv(s) && MayFree(s, t, i)
    ensures !s.inodes[i].freeing && !s.inodes[i].clear && s.evicted[i] == 0
    ensures s.inodes[i].Dying() ==> i in s.owner && s.owner[i] == t
  {
    hide CountsRefs, Unique, Unused;
    assert GoodInode(s.inodes[i]) && GoodThread(s, t);
  }

  lemma FreeingOwned(s: State, t: Tid, i: InodeId)
    requires Owned(s) && MayFree(s, t, i) && !s.inodes[i].freeing && !s.inodes[i].clear && s.evicted[i] == 0
    requires s.inodes[i].Dying() ==> i in s.owner && s.owner[i] == t
    ensures Owned(MarkFreeing(s, t, i))
  {
    hide GoodThread;
    var s' := MarkFreeing(s, t, i);
    var before, after := s.threads[t].pending, s'.threads[t].pending;
    assert GoodThread(s, t) && InHand(s, i);
    assert after == [i] + before;
    FreeingThread(s, t, i);
    OwnedStep(s, s', t, i);
  }

  lemma FreeingThread(s: State, t: Tid, i: InodeId)
    requires t in s.threads && GoodThread(s, t) && MayFree(s, t, i)
    requires !s.inodes[i].freeing && !s.inodes[i].clear && s.evicted[i] == 0
    ensures GoodThread(MarkFreeing(s, t, i), t)
  {
    var s' := MarkFreeing(s, t, i);
    var before, after := s.threads[t].pending, s'.threads[t].pending;
    forall j | j in after
      ensures OwnedBy(s', j, t) && s'.inodes[j].freeing && !s'.inodes[j].clear && s'.evicted[j] == 0
    {
      if j != i {
        assert j in before;
      }
    }
    forall a, b | 0 <= a < b < |after|
      ensures after[a] != after[b]
    {
      assert after[b] == before[b - 1] && before[b - 1] in before;
    }
  }

  lemma MarkWillFreeKeeps(s: State, t: Tid, i: InodeId)
    requires Inv(s) && t in s.threads && i in s.inodes && s.inodes[i].count == 0 && !s.inodes[i].Dying()
    requires s.threads[t].act.Free?
    ensures Inv(MarkWillFree(s, t, i))
  {
    hide Owned, CountsRefs, Unique, EvictedOnce, Unused;
    NotYetFreeing(s, t, i);
    assert GoodInode(s.inodes[i]);
    WillFreeOwned(s, t, i);
    PlainFrame(s, MarkWillFree(s, t, i), i);
  }

  lemma WillFreeThread(s: State, t: Tid, i: InodeId)
    requires t in s.threads && GoodThread(s, t) && i in s.inodes
    requires !s.inodes[i].Dying() && s.threads[t].act.Free? && s.evicted[i] == 0
    ensures GoodThread(MarkWillFree(s, t, i), t)
  {
  }

  lemma WillFreeOwned(s: State, t: Tid, i: InodeId)
    requires Owned(s) && t in s.threads && i in s.inodes
    requires !s.inodes[i].Dying() && s.threads[t].act.Free? && s.evicted[i] == 0
    ensures Owned(MarkWillFree(s, t, i))
  {
    hide GoodThread;
    var s' := MarkWillFree(s, t, i);
    assert GoodThread(s, t) && InHand(s, i);
    WillFreeThread(s, t, i);
    OwnedStep(s, s', t, i);
  }

  lemma IputKeeps(s: State, t: Tid, r: Ref, last: Last)
    requires Inv(s) && Enabled(s, Iput(t, r, last))
    ensures Inv(Apply(s, Iput(t, r, last)))
  {
    hide Inv;
    DropRefKeeps(s, r);
    var i := s.refs[r];
    var dropped := DropRef(s, r);
    if s.inodes[i].count == 1 {
      match last
      case Keep(lru) => AddLruKeeps(dropped, i);
      case Drop => MarkFreeingKeeps(dropped, t, i);
      case WriteFirst => MarkWillFreeKeeps(dropped, t, i);
      case Retry =>
    }
  }

  // ---- The shrinker's pin ----

  lemma PinKeeps(s: State, t: Tid, i: InodeId)
    requires Inv(s) && Enabled(s, Pin(t, i))
    ensures Inv(Apply(s, Pin(t, i)))
  {
    hide Owned, CountsRefs, Unique, EvictedOnce, Unused;
    assert GoodInode(s.inodes[i]);
    PinOwned(s, t, i);
    PlainFrame(s, Apply(s, Pin(t, i)), i);
  }

  lemma PinThread(s: State, t: Tid, i: InodeId)
    requires t in s.threads && GoodThread(s, t) && Enabled(s, Pin(t, i))
    ensures GoodThread(Apply(s, Pin(t, i)), t)
  {
  }

  lemma PinOwned(s: State, t: Tid, i: InodeId)
    requires Owned(s) && Enabled(s, Pin(t, i))
    ensures Owned(Apply(s, Pin(t, i)))
  {
    hide GoodThread;
    var s' := Apply(s, Pin(t, i));
    assert GoodThread(s, t) && InHand(s, i);
    PinThread(s, t, i);
    OwnedStep(s, s', t, i);
  }

  lemma UnpinKeeps(s: State, t: Tid)
    requires Inv(s) && Enabled(s, Unpin(t))
    ensures Inv(Apply(s, Unpin(t)))
  {
    hide CountsRefs, Unique, EvictedOnce, Unused;
    var i := s.threads[t].act.i;
    assert GoodInode(s.inodes[i]) && GoodThread(s, t);
    UnpinOwned(s, t);
    hide Owned;
    PlainFrame(s, Apply(s, Unpin(t)), i);
  }

  lemma UnpinOwned(s: State, t: Tid)
    requires Owned(s) && Enabled(s, Unpin(t))
    ensures Owned(Apply(s, Unpin(t)))
  {
    hide GoodThread;
    var s' := Apply(s, Unpin(t));
    var i := s.threads[t].act.i;
    PinIsIsolating(s, t);
    forall u | u in s'.threads
      ensures GoodThread(s', u)
    {
      PinIsIsolating(s, u);
      SameThread(s, s', i, u);
    }
    forall j | j in s'.inodes
      ensures InHand(s', j)
    {
      assert InHand(s, j);
    }
  }

  // ---- evict ----

  lemma EvictBeginKeeps(s: State, t: Tid)
    requires Inv(s) && Enabled(s, EvictBegin(t))
    ensures Inv(Apply(s, EvictBegin(t)))
  {
    hide CountsRefs, Unique, Unused, InHand;
    var s' := Apply(s, EvictBegin(t));
    var i := s.threads[t].pending[0];
    assert GoodInode(s.inodes[i]) && GoodThread(s, t);
    EvictBeginOwned(s, t);
    CountsFrame(s, s', i);
    UniqueFrame(s, s', i);
    GoodFrame(s, s', i);
    UnusedFrame(s, s', i);
  }

  lemma PendingFacts(s: State, t: Tid, i: InodeId)
    requires t in s.threads && GoodThread(s, t) && i in s.threads[t].pending
    ensures OwnedBy(s, i, t) && s.inodes[i].freeing && !s.inodes[i].clear && s.evicted[i] == 0
  {
  }

  lemma EvictBeginOwned(s: State, t: Tid)
    requires Owned(s) && Enabled(s, EvictBegin(t))
    ensures Owned(Apply(s, EvictBegin(t)))
  {
    hide GoodThread;
    var s' := Apply(s, EvictBegin(t));
    var pending := s.threads[t].pending;
    var i := pending[0];
    assert GoodThread(s, t) && i in pending;
    PendingFacts(s, t, i);
    assert InHand(s, i);
    EvictBeginThread(s, t);
    assert pending == [i] + pending[1..];
    OwnedStep(s, s', t, i);
  }

  lemma EvictBeginThread(s: State, t: Tid)
    requires t in s.threads && GoodThread(s, t) && Enabled(s, EvictBegin(t))
    ensures GoodThread(Apply(s, EvictBegin(t)), t)
  {
    var s' := Apply(s, EvictBegin(t));
    var pending := s.threads[t].pending;
    assert pending[0] in pending;
    forall j | j in pending[1..]
      ensures OwnedBy(s', j, t) && s'.inodes[j].freeing && !s'.inodes[j].clear && s'.evicted[j] == 0
    {
      var k :| 0 <= k < |pending[1..]| && pending[1..][k] == j;
      assert pending[k + 1] == j && j in pending && j != pending[0];
    }
  }

  lemma EvictWaitThread(s: State, t: Tid)
    requires t in s.threads && GoodThread(s, t) && Enabled(s, EvictWait(t))
    ensures GoodThread(Apply(s, EvictWait(t)), t)
  {
  }

  lemma EvictWaitOwned(s: State, t: Tid)
    requires Owned(s) && Enabled(s, EvictWait(t))
    ensures Owned(Apply(s, EvictWait(t)))
  {
    hide GoodThread;
    var s' := Apply(s, EvictWait(t));
    var i := s.threads[t].act.i;
    assert GoodThread(s, t);
    EvictFacts(s, t);
    assert InHand(s, i);
    EvictWaitThread(s, t);
    OwnedStep(s, s', t, i);
  }

  lemma EvictWaitKeeps(s: State, t: Tid)
    requires Inv(s) && Enabled(s, EvictWait(t))
    ensures Inv(Apply(s, EvictWait(t)))
  {
    hide CountsRefs, Unique, Unused, EvictedOnce, InHand, Owned, GoodInodes;
    var i := s.threads[t].act.i;
    EvictWaitOwned(s, t);
    ThreadsOnly(s, Apply(s, EvictWait(t)));
  }

  lemma ThreadsOnly(s: State, s': State)
    requires CountsRefs(s) && Unique(s) && GoodInodes(s) && EvictedOnce(s)
    requires s'.inodes == s.inodes && s'.refs == s.refs && s'.evicted == s.evicted
    ensures CountsRefs(s') && Unique(s') && GoodInodes(s') && EvictedOnce(s') && Unused(s') == Unused(s)
  {
  }

  lemma EvictClearKeeps(s: State, t: Tid)
    requires Inv(s) && Enabled(s, EvictClear(t))
    ensures Inv(Apply(s, EvictClear(t)))
  {
    hide CountsRefs, Unique, Unused, EvictedOnce, InHand;
    var i := s.threads[t].act.i;
    assert GoodInode(s.inodes[i]) && GoodThread(s, t);
    EvictClearOwned(s, t);
    PlainFrame(s, Apply(s, EvictClear(t)), i);
  }

  /** What a thread in evict can rely on. */
  lemma EvictFacts(s: State, t: Tid)
    requires t in s.threads && GoodThread(s, t) && s.threads[t].act.Evict?
    ensures var i, phase := s.threads[t].act.i, s.threads[t].act.phase;
      && OwnedBy(s, i, t) && s.inodes[i].freeing && s.evicted[i] == 1 && (phase == Waited ==> !s.inodes[i].isolating)
      && (phase == Entered || phase == Waited <==> !s.inodes[i].clear)
  {
  }

  lemma EvictClearThread(s: State, t: Tid)
    requires t in s.threads && GoodThread(s, t) && Enabled(s, EvictClear(t))
    ensures GoodThread(Apply(s, EvictClear(t)), t)
  {
  }

  lemma EvictClearOwned(s: State, t: Tid)
    requires Owned(s) && Enabled(s, EvictClear(t))
    ensures Owned(Apply(s, EvictClear(t)))
  {
    hide GoodThread;
    var s' := Apply(s, EvictClear(t));
    var i := s.threads[t].act.i;
    assert GoodThread(s, t);
    EvictFacts(s, t);
    assert InHand(s, i);
    EvictClearThread(s, t);
    OwnedStep(s, s', t, i);
  }

  lemma EvictUnhashKeeps(s: State, t: Tid)
    requires Inv(s) && Enabled(s, EvictUnhash(t))
    ensures Inv(Apply(s, EvictUnhash(t)))
  {
    hide CountsRefs, Unique, Unused, EvictedOnce, InHand;
    var i := s.threads[t].act.i;
    assert GoodInode(s.inodes[i]) && GoodThread(s, t);
    EvictUnhashOwned(s, t);
    PlainFrame(s, Apply(s, EvictUnhash(t)), i);
  }

  lemma EvictUnhashThread(s: State, t: Tid)
    requires t in s.threads && GoodThread(s, t) && Enabled(s, EvictUnhash(t))
    ensures GoodThread(Apply(s, EvictUnhash(t)), t)
  {
  }

  lemma EvictUnhashOwned(s: State, t: Tid)
    requires Owned(s) && GoodInodes(s) && Enabled(s, EvictUnhash(t))
    ensures Owned(Apply(s, EvictUnhash(t)))
  {
    hide GoodThread;
    var s' := Apply(s, EvictUnhash(t));
    var i := s.threads[t].act.i;
    assert GoodThread(s, t);
    EvictFacts(s, t);
    assert InHand(s, i) && GoodInode(s.inodes[i]);
    EvictUnhashThread(s, t);
    OwnedStep(s, s', t, i);
  }

  lemma DestroyKeeps(s: State, t: Tid)
    requires Inv(s) && Enabled(s, Destroy(t))
    ensures Inv(Apply(s, Destroy(t)))
  {
    hide InHand;
    var i := s.threads[t].act.i;
    assert GoodThread(s, t) && GoodInode(s.inodes[i]);
    DestroyOwned(s, t);
    DestroyCounts(s, Apply(s, Destroy(t)), i);
    DestroyUnused(s, Apply(s, Destroy(t)), i);
    hide CountsRefs, Unused, Owned;
  }

  lemma DestroyCounts(s: State, s': State, i: InodeId)
    requires CountsRefs(s) && Unique(s) && i in s.inodes && s.inodes[i].count == 0
    requires s'.inodes == s.inodes - {i} && s'.refs == s.refs
    ensures CountsRefs(s') && Unique(s')
  {
    forall r | r in s.refs
      ensures s.refs[r] != i
    {
      assert s.refs[r] == i ==> r in Holders(s.refs, i);
    }
  }

  lemma DestroyUnused(s: State, s': State, i: InodeId)
    requires i in s.inodes && !s.inodes[i].onLru && s'.inodes == s.inodes - {i}
    ensures Unused(s') == Unused(s)
  {
  }

  lemma DestroyThread(s: State, t: Tid)
    requires t in s.threads && GoodThread(s, t) && Enabled(s, Destroy(t))
    ensures GoodThread(Apply(s, Destroy(t)), t)
  {
  }

  lemma DestroyOwned(s: State, t: Tid)
    requires Owned(s) && GoodInodes(s) && Enabled(s, Destroy(t))
    ensures Owned(Apply(s, Destroy(t)))
  {
    hide GoodThread;
    var s' := Apply(s, Destroy(t));
    var i := s.threads[t].act.i;
    assert GoodThread(s, t);
    EvictFacts(s, t);
    assert InHand(s, i) && GoodInode(s.inodes[i]);
    DestroyThread(s, t);
    OwnedStep(s, s', t, i);
  }

  // ---- All steps ----

  lemma WriteDoneKeeps(s: State, t: Tid)
    requires Inv(s) && Enabled(s, WriteDone(t))
    ensures Inv(Apply(s, WriteDone(t)))
  {
    hide CountsRefs, Unique, EvictedOnce, Unused, InHand, MarkFreeing;
    assert GoodThread(s, t) && GoodInode(s.inodes[s.threads[t].act.i]);
    MarkFreeingKeeps(s, t, s.threads[t].act.i);
  }

  /** Clearing any of these bits of one inode concerns nobody else. */
  lemma ClearBitsKeeps(s: State, i: InodeId, n: Inode)
    requires Inv(s) && i in s.inodes
    requires n == s.inodes[i].(isNew := n.isNew, creating := n.creating, hashed := n.hashed, referenced := n.referenced)
    requires var m := s.inodes[i];
      (n.isNew ==> m.isNew) && (n.creating ==> m.creating) && (n.hashed ==> m.hashed) && (n.referenced ==> m.referenced)
    ensures Inv(s.Put(i, n))
  {
    hide CountsRefs, Unique, EvictedOnce, Unused, InHand, Owned;
    assert GoodInode(s.inodes[i]);
    PutKeeps(s, i, n);
  }

  lemma StepKeepsInv(s: State, step: Step)
    requires Inv(s) && Enabled(s, step)
    ensures Inv(Apply(s, step))
  {
    hide Inv;
    match step
    case NewInode(i, sb, ino, r) => AddInodeKeeps(s, i, FreshInode(sb, ino, false), r);
    case IgetInsert(i, sb, ino, r) => AddInodeKeeps(s, i, FreshInode(sb, ino, true), r);
    case Find(i, r) => NewRefKeeps(s, i, r);
    case Igrab(i, r) => NewRefKeeps(s, i, r);
    case InsertLocked(i, held) => InsertLockedKeeps(s, i, held);
    case Iput(t, r, last) => IputKeeps(s, t, r, last);
    case Pin(t, i) => PinKeeps(s, t, i);
    case Unpin(t) => UnpinKeeps(s, t);
    case EvictBegin(t) => EvictBeginKeeps(s, t);
    case EvictWait(t) => EvictWaitKeeps(s, t);
    case EvictClear(t) => EvictClearKeeps(s, t);
    case EvictUnhash(t) => EvictUnhashKeeps(s, t);
    case Destroy(t) => DestroyKeeps(s, t);
    case Isolate(t, i) => MarkFreeingKeeps(s, t, i);
    case EvictOne(t, i) => MarkFreeingKeeps(s, t, i);
    case LruAdd(i) => AddLruKeeps(s, i);
    case LruRemove(i) => LruRemoveKeeps(s, i);
    case WriteDone(t) => WriteDoneKeeps(s, t);
    case UnlockNew(i, _) => ClearBitsKeeps(s, i, s.inodes[i].(isNew := false, creating := false));
    case DiscardNew(i, _) => ClearBitsKeeps(s, i, s.inodes[i].(isNew := false));
    case Unhash(i, _) => ClearBitsKeeps(s, i, s.inodes[i].(hashed := false));
    case LruRotate(i) => ClearBitsKeeps(s, i, s.inodes[i].(referenced := false));
  }

  // ---- Whole runs ----

  ghost predicate Run(states: seq<State>, steps: seq<Step>) {
    && |states| == |steps| + 1 && Init(states[0])
    && forall k :: 0 <= k < |steps| ==> Enabled(states[k], steps[k]) && states[k + 1] == Apply(states[k], steps[k])
  }

  lemma InitKeeps(s: State)
    requires Init(s)
    ensures Inv(s)
  {
    assert Unused(s) == {};
  }

  lemma {:induction false} RunKeepsInv(states: seq<State>, steps: seq<Step>, k: nat)
    requires Run(states, steps) && k < |states|
    ensures Inv(states[k])
  {
    hide Inv, Init, Enabled, Apply;
    if k == 0 {
      InitKeeps(states[0]);
    } else {
      RunKeepsInv(states, steps, k - 1);
      assert states[k - 1 + 1] == Apply(states[k - 1], steps[k - 1]);
      StepKeepsInv(states[k - 1], steps[k - 1]);
    }
  }

  /** At most one live inode per number is in the hash, at every point of every run. */
  lemma HashNeverHoldsTwins(states: seq<State>, steps: seq<Step>, k: nat, i: InodeId, j: InodeId)
    requires Run(states, steps) && k < |states| && i in states[k].inodes && j in states[k].inodes && i != j
    requires states[k].inodes[i].hashed && !states[k].inodes[i].Dying()
    requires states[k].inodes[j].hashed && !states[k].inodes[j].Dying()
    ensures states[k].inodes[i].sb != states[k].inodes[j].sb || states[k].inodes[i].ino != states[k].inodes[j].ino
  {
    RunKeepsInv(states, steps, k);
    hide Run, Owned, CountsRefs, GoodInodes, EvictedOnce, Unused;
  }

  /** evict is called at most once for an inode, never while it is on the unused list or referenced, and
      the state it finds at its end is exactly I_FREEING | I_CLEAR. */
  lemma EvictIsSafe(states: seq<State>, steps: seq<Step>, k: nat, t: Tid, i: InodeId)
    requires Run(states, steps) && k < |states|
    ensures states[k].evicted[i] <= 1
    ensures t in states[k].threads && states[k].threads[t].act.Evict? && states[k].threads[t].act.i == i ==>
      && i in states[k].inodes && states[k].inodes[i].freeing && !states[k].inodes[i].onLru
      && (forall r :: r in states[k].refs ==> states[k].refs[r] != i)
      && (states[k].threads[t].act.phase in {Cleared, Unhashed} ==> states[k].inodes[i].JustCleared())
  {
    RunKeepsInv(states, steps, k);
    hide Run, Unique, Unused, InHand;
    var s := states[k];
    if t in s.threads && s.threads[t].act.Evict? && s.threads[t].act.i == i {
      assert GoodThread(s, t) && GoodInode(s.inodes[i]);
      forall r | r in s.refs
        ensures s.refs[r] != i
      {
        assert s.refs[r] == i ==> r in Holders(s.refs, i);
      }
    }
  }

  /** The shrinker's inode is not freed under it, and nr_unused counts the unused list. */
  lemma ShrinkerIsSafe(states: seq<State>, steps: seq<Step>, k: nat, t: Tid)
    requires Run(states, steps) && k < |states|
    ensures t in states[k].threads && states[k].threads[t].act.Pinned? ==>
      var i := states[k].threads[t].act.i; i in states[k].inodes && !states[k].inodes[i].clear
    ensures states[k].nrUnused == |Unused(states[k])|
  {
    RunKeepsInv(states, steps, k);
    hide Run, Unique, InHand, CountsRefs, EvictedOnce;
    if t in states[k].threads {
      assert GoodThread(states[k], t);
    }
  }

  /** On the way out: being freed, or gone for good. */
  ghost predicate Leaving(s: State, i: InodeId) {
    if i in s.inodes then s.inodes[i].Dying() else s.evicted[i] == 1
  }

  lemma LeavingStays(s: State, step: Step, i: InodeId)
    requires Inv(s) && Enabled(s, step) && Leaving(s, i)
    ensures Leaving(Apply(s, step), i)
  {
    if step.Destroy? || step.EvictBegin? {
      LeavingThroughEvict(s, step, i);
    } else {
      hide Inv;
      LeavingElsewhere(s, step, i);
    }
  }

  lemma LeavingThroughEvict(s: State, step: Step, i: InodeId)
    requires Owned(s) && Enabled(s, step) && Leaving(s, i) && (step.Destroy? || step.EvictBegin?)
    ensures Leaving(Apply(s, step), i)
  {
    hide InHand;
    assert GoodThread(s, step.t);
    assert step.EvictBegin? ==> s.threads[step.t].pending[0] in s.threads[step.t].pending;
  }

  lemma LeavingElsewhere(s: State, step: Step, i: InodeId)
    requires Enabled(s, step) && Leaving(s, i) && !step.Destroy? && !step.EvictBegin?
    ensures Leaving(Apply(s, step), i)
  {
    var s' := Apply(s, step);
    assert s'.evicted == s.evicted;
    if i !in s.inodes {
      OnlyFreshAdded(s, step, i);
    } else {
      DyingStays(s, step, i);
    }
  }

  lemma MarkFreeingAddsNothing(s: State, t: Tid, j: InodeId, i: InodeId)
    requires t in s.threads && j in s.inodes && i !in s.inodes
    ensures i !in MarkFreeing(s, t, j).inodes
  {
  }

  lemma IputAddsNothing(s: State, t: Tid, r: Ref, last: Last, i: InodeId)
    requires Enabled(s, Iput(t, r, last)) && i !in s.inodes
    ensures i !in Apply(s, Iput(t, r, last)).inodes
  {
    hide MarkFreeing;
    MarkFreeingAddsNothing(DropRef(s, r), t, s.refs[r], i);
  }

  predicate ByThread(step: Step) {
    step.WriteDone? || step.Pin? || step.Unpin? || step.Isolate? || step.EvictOne?
  }

  predicate InEvict(step: Step) {
    step.EvictBegin? || step.EvictWait? || step.EvictClear? || step.EvictUnhash? || step.Destroy?
  }

  lemma OnlyFreshAdded(s: State, step: Step, i: InodeId)
    requires Enabled(s, step) && i !in s.inodes && s.evicted[i] > 0
    ensures i !in Apply(s, step).inodes
  {
    hide Apply, Enabled;
    if ByThread(step) {
      ThreadAddsNothing(s, step, i);
    } else if InEvict(step) {
      EvictAddsNothing(s, step, i);
    } else if step.Iput? {
      IputAddsNothing(s, step.t, step.held, step.last, i);
    } else {
      OthersAddNothing(s, step, i);
    }
  }

  lemma ThreadAddsNothing(s: State, step: Step, i: InodeId)
    requires Enabled(s, step) && i !in s.inodes && ByThread(step)
    ensures i !in Apply(s, step).inodes
  {
    hide MarkFreeing;
    match step
    case Isolate(t, j) => MarkFreeingAddsNothing(s, t, j, i);
    case EvictOne(t, j) => MarkFreeingAddsNothing(s, t, j, i);
    case WriteDone(t) => MarkFreeingAddsNothing(s, t, s.threads[t].act.i, i);
    case _ =>
  }

  lemma EvictAddsNothing(s: State, step: Step, i: InodeId)
    requires Enabled(s, step) && i !in s.inodes && InEvict(step)
    ensures i !in Apply(s, step).inodes
  {
  }

  lemma OthersAddNothing(s: State, step: Step, i: InodeId)
    requires Enabled(s, step) && i !in s.inodes && s.evicted[i] > 0 && !ByThread(step) && !InEvict(step) && !step.Iput?
    ensures i !in Apply(s, step).inodes
  {
  }

  lemma DyingStays(s: State, step: Step, i: InodeId)
    requires Enabled(s, step) && i in s.inodes && s.inodes[i].Dying() && !step.Destroy?
    ensures i in Apply(s, step).inodes && Apply(s, step).inodes[i].Dying()
  {
    hide Apply, Enabled;
    if step.Iput? {
      DyingStaysOverIput(s, step.t, step.held, step.last, i);
    } else if ByThread(step) {
      DyingStaysByThread(s, step, i);
    } else if InEvict(step) {
      DyingStaysInEvict(s, step, i);
    } else {
      DyingStaysOtherwise(s, step, i);
    }
  }

  lemma DyingStaysOverIput(s: State, t: Tid, r: Ref, last: Last, i: InodeId)
    requires Enabled(s, Iput(t, r, last)) && i in s.inodes && s.inodes[i].Dying()
    ensures i in Apply(s, Iput(t, r, last)).inodes && Apply(s, Iput(t, r, last)).inodes[i].Dying()
  {
  }

  lemma MarkFreeingStays(s: State, t: Tid, j: InodeId, i: InodeId)
    requires t in s.threads && j in s.inodes && i in s.inodes && s.inodes[i].Dying()
    ensures i in MarkFreeing(s, t, j).inodes && MarkFreeing(s, t, j).inodes[i].Dying()
  {
  }

  lemma DyingStaysByThread(s: State, step: Step, i: InodeId)
    requires Enabled(s, step) && i in s.inodes && s.inodes[i].Dying() && ByThread(step)
    ensures i in Apply(s, step).inodes && Apply(s, step).inodes[i].Dying()
  {
    hide MarkFreeing;
    match step
    case Isolate(t, j) => MarkFreeingStays(s, t, j, i);
    case EvictOne(t, j) => MarkFreeingStays(s, t, j, i);
    case WriteDone(t) => MarkFreeingStays(s, t, s.threads[t].act.i, i);
    case _ =>
  }

  lemma DyingStaysInEvict(s: State, step: Step, i: InodeId)
    requires Enabled(s, step) && i in s.inodes && s.inodes[i].Dying() && InEvict(step) && !step.Destroy?
    ensures i in Apply(s, step).inodes && Apply(s, step).inodes[i].Dying()
  {
  }

  lemma DyingStaysOtherwise(s: State, step: Step, i: InodeId)
    requires Enabled(s, step) && i in s.inodes && s.inodes[i].Dying()
    requires !ByThread(step) && !InEvict(step) && !step.Iput?
    ensures i in Apply(s, step).inodes && Apply(s, step).inodes[i].Dying()
  {
  }

  lemma {:induction false} StaysLeaving(states: seq<State>, steps: seq<Step>, i: InodeId, k: nat, m: nat)
    requires Run(states, steps) && k <= m < |states| && Leaving(states[k], i)
    ensures Leaving(states[m], i)
  {
    hide Inv, Leaving, Enabled, Apply, Init;
    if k < m {
      StaysLeaving(states, steps, i, k, m - 1);
      RunKeepsInv(states, steps, m - 1);
      assert states[m - 1 + 1] == Apply(states[m - 1], steps[m - 1]);
      LeavingStays(states[m - 1], steps[m - 1], i);
    }
  }

  /** Once marked I_FREEING or I_WILL_FREE, an inode is never referenced again. */
  lemma DyingNeverReferencedAgain(states: seq<State>, steps: seq<Step>, i: InodeId, k: nat, m: nat, r: Ref)
    requires Run(states, steps) && k <= m < |states|
    requires i in states[k].inodes && states[k].inodes[i].Dying()
    ensures r in states[m].refs ==> states[m].refs[r] != i
    ensures i in states[m].inodes ==> states[m].inodes[i].Dying() && states[m].inodes[i].count == 0
  {
    StaysLeaving(states, steps, i, k, m);
    RunKeepsInv(states, steps, m);
    hide Run, Unique, Unused, Owned, EvictedOnce;
    var s := states[m];
    if r in s.refs && s.refs[r] == i {
      RefKeepsAlive(s, r);
    }
    if i in s.inodes {
      assert GoodInode(s.inodes[i]);
    }
  }

  // ---- The searches under inode_hash_lock ----

  datatype Lookup = Missing | WaitFor(i: InodeId) | Stale(i: InodeId) | Found(i: InodeId)

  /** The chain lists every hashed inode with this number, among others. */
  ghost predicate Covers(s: State, chain: seq<InodeId>, sb: nat, ino: nat) {
    && (forall i :: i in chain ==> i in s.inodes && s.inodes[i].hashed)
    && (forall i :: i in s.inodes && s.inodes[i].hashed && s.inodes[i].Matches(sb, ino) ==> i in chain)
  }

  /** find_inode_fast: what the first matching inode of the chain leads to. Missing lets iget_locked
      insert a new inode, Found takes a reference. */
  method FindInodeFast(s: State, chain: seq<InodeId>, sb: nat, ino: nat, newId: InodeId, r: Ref) returns (res: Lookup)
    requires Covers(s, chain, sb, ino) && Fresh(s, newId) && r !in s.refs
    ensures res.Missing? ==> Enabled(s, IgetInsert(newId, sb, ino, r))
    ensures res.Found? ==> Enabled(s, Find(res.i, r)) && s.inodes[res.i].Matches(sb, ino)
    ensures res.WaitFor? ==> res.i in s.inodes && s.inodes[res.i].Matches(sb, ino) && s.inodes[res.i].Dying()
    ensures res.Stale? ==> res.i in s.inodes && s.inodes[res.i].Matches(sb, ino) && s.inodes[res.i].creating
  {
    for k := 0 to |chain|
      invariant forall j :: 0 <= j < k ==> !s.inodes[chain[j]].Matches(sb, ino)
    {
      var i := chain[k];
      if s.inodes[i].ino == ino && s.inodes[i].sb == sb {
        if s.inodes[i].Dying() {
          return WaitFor(i);
        }
        if s.inodes[i].creating {
          return Stale(i);
        }
        return Found(i);
      }
    }
    res := Missing;
  }

  /** The scan of insert_inode_locked: inodes that are being freed do not stand in the way. */
  method InsertScan(s: State, chain: seq<InodeId>, i: InodeId, held: Ref) returns (twin: Lookup)
    requires HasRef(s, held, i) && !s.inodes[i].hashed && Covers(s, chain, s.inodes[i].sb, s.inodes[i].ino)
    ensures twin.Missing? || twin.Found?
    ensures twin.Missing? ==> Enabled(s, InsertLocked(i, held))
    ensures twin.Found? ==>
      twin.i in chain && s.inodes[twin.i].Matches(s.inodes[i].sb, s.inodes[i].ino) && !s.inodes[twin.i].Dying()
  {
    for k := 0 to |chain|
      invariant forall j :: 0 <= j < k && s.inodes[chain[j]].Matches(s.inodes[i].sb, s.inodes[i].ino) ==>
        s.inodes[chain[j]].Dying()
    {
      var other := chain[k];
      if s.inodes[other].ino == s.inodes[i].ino && s.inodes[other].sb == s.inodes[i].sb && !s.inodes[other].Dying() {
        return Found(other);
      }
    }
    twin := Missing;
  }
}
