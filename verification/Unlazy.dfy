/** Leaving rcu-walk mode: try_to_unlazy and try_to_unlazy_next take references one by one, any of
    which may be refused, and terminate_walk gives back what the walk owns. The walk's references are
    followed for one mount or dentry and one delayed call that are picked freely at the start; no step
    depends on the choice, so what holds for them holds for all. */
module Unlazy {
  import opened Wrappers

  /** A counted object. */
  datatype Object = Mount(id: nat) | Dentry(id: nat)

  /** struct path; None is a NULL pointer. */
  datatype Path = Path(mnt: Option<nat>, dentry: Option<nat>) {
    predicate Full() { mnt.Some? && dentry.Some? }

    /** How many references to o path_put drops. */
    function Refs(o: Object): nat {
      (if mnt.Some? && o == Mount(mnt.value) then 1 else 0)
      + (if dentry.Some? && o == Dentry(dentry.value) then 1 else 0)
    }
  }

  /** struct saved: the link and the delayed call that frees its body. */
  datatype Saved = Saved(link: Path, done: Option<nat>)

  /** The references to o on the first n saved links. */
  ghost function LinkRefs(stack: seq<Saved>, n: nat, o: Object): nat
    requires n <= |stack|
  {
    if n == 0 then 0 else LinkRefs(stack, n - 1, o) + stack[n - 1].link.Refs(o)
  }

  /** How often delayed call c waits on the first n saved links. */
  ghost function Pending(stack: seq<Saved>, n: nat, c: nat): nat
    requires n <= |stack|
  {
    if n == 0 then 0 else Pending(stack, n - 1, c) + if stack[n - 1].done == Some(c) then 1 else 0
  }

  lemma {:induction false} SameRefs(a: seq<Saved>, b: seq<Saved>, n: nat, o: Object)
    requires n <= |a| && n <= |b| && forall i :: 0 <= i < n ==> a[i].link == b[i].link
    ensures LinkRefs(a, n, o) == LinkRefs(b, n, o)
  {
    if n > 0 {
      SameRefs(a, b, n - 1, o);
    }
  }

  lemma {:induction false} SamePending(a: seq<Saved>, b: seq<Saved>, n: nat, c: nat)
    requires n <= |a| && n <= |b| && forall i :: 0 <= i < n ==> a[i].done == b[i].done
    ensures Pending(a, n, c) == Pending(b, n, c)
  {
    if n > 0 {
      SamePending(a, b, n - 1, c);
    }
  }

  lemma {:induction false} NonePending(a: seq<Saved>, n: nat, c: nat)
    requires n <= |a| && forall i :: 0 <= i < n ==> a[i].done.None?
    ensures Pending(a, n, c) == 0
  {
    if n > 0 {
      NonePending(a, n - 1, c);
    }
  }

  class Nameidata {
    var path: Path
    var root: Path
    var stack: seq<Saved>
    var depth: nat
    var rcu: bool
    var cached: bool
    var scoped: bool
    var rootPreset: bool
    var rootGrabbed: bool
    /** The object and the delayed call that are watched. */
    const watched: Object
    const call: nat
    /** References to the watched object that are taken and not yet given back; a put must find one here. */
    var held: nat
    /** Some mount or dentry refuses a reference, or some sequence count has changed. */
    const refuses: bool
    /** How often the watched call has run. */
    var ran: nat

    /** In rcu-walk mode the walk points at things but owns nothing. */
    ghost predicate Lazy()
      reads this
    {
      && rcu && !rootGrabbed && depth <= |stack|
      && path.Full() && (forall i :: 0 <= i < depth ==> stack[i].link.Full())
      && (root.mnt.Some? ==> root.Full())
    }

    /** What terminate_walk will put. */
    ghost function Owed(): nat
      requires depth <= |stack|
      reads this
    {
      LinkRefs(stack, depth, watched) + path.Refs(watched) + if rootGrabbed then root.Refs(watched) else 0
    }

    function One(o: Object): nat { if o == watched then 1 else 0 }

    /** What lockref_get_not_dead, legitimize_mnt or read_seqcount_retry answers. */
    method Granted() returns (b: bool)
      ensures !refuses ==> b
    {
      b := *;
      b := b || !refuses;
    }

    method Put(p: Path)
      requires p.Refs(watched) <= held
      modifies this`held
      ensures held == old(held) - p.Refs(watched)
    {
      if p.dentry.Some? {
        held := held - One(Dentry(p.dentry.value));
      }
      if p.mnt.Some? {
        held := held - One(Mount(p.mnt.value));
      }
    }

    /** __legitimize_path: whatever the mount, the dentry and the sequence count answer, what is left in
        the path is exactly what was grabbed. */
    method LegitimizePath(p: Path) returns (ok: bool, q: Path)
      requires p.Full()
      modifies this`held
      ensures held == old(held) + q.Refs(watched)
      ensures ok ==> q == p
      ensures !refuses ==> ok
    {
      var res: int :| -1 <= res <= 1 && (!refuses ==> res == 0);
      if res != 0 {
        if res < 0 {
          held := held + One(Mount(p.mnt.value));
          return false, p.(dentry := None);
        }
        return false, Path(None, None);
      }
      held := held + One(Mount(p.mnt.value));
      var good := Granted();
      if !good {
        return false, p.(dentry := None);
      }
      held := held + One(Dentry(p.dentry.value));
      ok := Granted();
      q := p;
    }

    /** drop_links: run and clear each delayed call. */
    method DropLinks()
      requires depth <= |stack|
      modifies this`stack, this`ran
      ensures |stack| == old(|stack|) && forall i :: 0 <= i < |stack| ==> stack[i].link == old(stack)[i].link
      ensures forall i :: 0 <= i < depth ==> stack[i].done.None?
      ensures ran == old(ran) + Pending(old(stack), depth, call)
    {
      var i := depth;
      while i > 0
        invariant 0 <= i <= depth && |stack| == old(|stack|)
        invariant forall k :: 0 <= k < |stack| ==> stack[k].link == old(stack)[k].link
        invariant forall k :: 0 <= k < i ==> stack[k] == old(stack)[k]
        invariant forall k :: i <= k < depth ==> stack[k].done.None?
        invariant ran + Pending(old(stack), i, call) == old(ran) + Pending(old(stack), depth, call)
      {
        i := i - 1;
        if stack[i].done.Some? {
          ran := ran + if stack[i].done.value == call then 1 else 0;
        }
        stack := stack[i := stack[i].(done := None)];
      }
    }

    method LegitimizeLinks() returns (ok: bool)
      requires depth <= |stack| && forall i :: 0 <= i < depth ==> stack[i].link.Full()
      modifies this`stack, this`ran, this`depth, this`held
      ensures depth <= |stack|
      ensures held == old(held) + LinkRefs(stack, depth, watched)
      ensures ran + Pending(stack, depth, call) == old(ran) + Pending(old(stack), old(depth), call)
      ensures ok ==> depth == old(depth) && stack == old(stack) && !cached
      ensures !refuses && !cached ==> ok
    {
      if cached {
        DropLinks();
        depth := 0;
        return false;
      }
      for i := 0 to depth
        invariant depth == old(depth) && stack == old(stack) && ran == old(ran)
        invariant held == old(held) + LinkRefs(stack, i, watched)
      {
        var good, q := LegitimizePath(stack[i].link);
        if !good {
          stack := stack[i := stack[i].(link := q)];
          SameRefs(stack, old(stack), i, watched);
          SamePending(stack, old(stack), depth, call);
          ghost var marked := stack;
          DropLinks();
          depth := i + 1;
          SameRefs(stack, marked, i + 1, watched);
          NonePending(stack, depth, call);
          return false;
        }
      }
      ok := true;
    }

    method LegitimizeRoot() returns (ok: bool)
      requires !rootGrabbed && (root.mnt.Some? ==> root.Full())
      modifies this`root, this`rootGrabbed, this`held
      ensures held == old(held) + if rootGrabbed then root.Refs(watched) else 0
      ensures ok ==> root == old(root) && (rootGrabbed <==> root.mnt.Some? && !rootPreset)
      ensures ok ==> root.mnt.Some? || !scoped
      ensures !refuses && (old(root).mnt.Some? || !scoped) ==> ok
    {
      if root.mnt.None? && scoped {
        return false;
      }
      if root.mnt.None? || rootPreset {
        return true;
      }
      rootGrabbed := true;
      ok, root := LegitimizePath(root);
    }

    /** try_to_unlazy: on either outcome the walk has grabbed exactly what terminate_walk will put. */
    method TryToUnlazy() returns (ok: bool)
      requires Lazy()
      modifies this
      ensures !rcu && depth <= |stack| && held == old(held) + Owed()
      ensures ran + Pending(stack, depth, call) == old(ran) + Pending(old(stack), old(depth), call)
      ensures ok ==> stack == old(stack) && depth == old(depth) && path == old(path) && root == old(root)
      ensures ok ==> (rootGrabbed <==> root.mnt.Some? && !rootPreset)
      ensures ok ==> !old(cached) && (old(root).mnt.Some? || !old(scoped))
      ensures !refuses && !old(cached) && (old(root).mnt.Some? || !old(scoped)) ==> ok
    {
      rcu := false;
      var good := LegitimizeLinks();
      if !good {
        path := Path(None, None);
        return false;
      }
      good, path := LegitimizePath(path);
      if !good {
        return false;
      }
      ok := LegitimizeRoot();
    }

    /** The middle of try_to_unlazy_next: the mount, the dentry of the path and the next one, and a check
        that none of them has changed. */
    method LegitimizeNext(dentry: nat) returns (ok: bool)
      requires path.Full()
      modifies this`path, this`held
      ensures held == old(held) + path.Refs(watched) + if ok then One(Dentry(dentry)) else 0
      ensures ok ==> path == old(path)
      ensures !refuses ==> ok
    {
      // legitimize_mnt gives back a mount it should not have taken
      var good := Granted();
      if !good {
        path := Path(None, None);
        return false;
      }
      held := held + One(Mount(path.mnt.value));
      good := Granted();
      if !good {
        path := path.(dentry := None);
        return false;
      }
      held := held + One(Dentry(path.dentry.value));
      good := Granted();
      if !good {
        return false;
      }
      held := held + One(Dentry(dentry));
      good := Granted();
      if !good {
        held := held - One(Dentry(dentry));
        return false;
      }
      ok := true;
    }

    /** try_to_unlazy_next: the same, and on success a reference to the next dentry for the caller. */
    method TryToUnlazyNext(dentry: nat) returns (ok: bool)
      requires Lazy()
      modifies this
      ensures !rcu && depth <= |stack|
      ensures held == old(held) + Owed() + if ok then One(Dentry(dentry)) else 0
      ensures ran + Pending(stack, depth, call) == old(ran) + Pending(old(stack), old(depth), call)
      ensures ok ==> stack == old(stack) && depth == old(depth) && path == old(path) && root == old(root)
      ensures ok ==> (rootGrabbed <==> root.mnt.Some? && !rootPreset)
      ensures ok ==> !old(cached) && (old(root).mnt.Some? || !old(scoped))
      ensures !refuses && !old(cached) && (old(root).mnt.Some? || !old(scoped)) ==> ok
    {
      rcu := false;
      var good := LegitimizeLinks();
      if !good {
        path := Path(None, None);
        return false;
      }
      good := LegitimizeNext(dentry);
      if !good {
        return false;
      }
      good := LegitimizeRoot();
      if !good {
        held := held - One(Dentry(dentry));
        return false;
      }
      ok := true;
    }

    /** terminate_walk: every put finds its reference, and nothing stays behind. */
    method TerminateWalk(ghost base: nat)
      requires depth <= |stack| && (if rcu then held == base else held == base + Owed())
      modifies this
      ensures held == base && depth == 0 && path == Path(None, None)
      ensures ran == old(ran) + Pending(old(stack), old(depth), call)
    {
      ghost var links := stack;
      DropLinks();
      SameRefs(stack, links, depth, watched);
      if !rcu {
        Put(path);
        for i := 0 to depth
          invariant depth == old(depth) && |stack| == |links|
          invariant forall k :: 0 <= k < depth ==> stack[k].link == links[k].link
          invariant rootGrabbed == old(rootGrabbed) && root == old(root)
          invariant ran == old(ran) + Pending(old(stack), old(depth), call)
          invariant held + LinkRefs(links, i, watched)
            == base + LinkRefs(links, depth, watched) + if rootGrabbed then root.Refs(watched) else 0
        {
          LinkIsOwed(links, i, depth, watched);
          Put(stack[i].link);
        }
        if rootGrabbed {
          Put(root);
          rootGrabbed := false;
        }
      } else {
        rcu := false;
      }
      depth := 0;
      path := Path(None, None);
    }

    /** try_to_unlazy and then terminate_walk: every count is where it started, and every delayed call of
        the walk has run exactly once. */
    method UnlazyThenTerminate(next: Option<nat>) returns (ok: bool)
      requires Lazy()
      modifies this
      ensures held == old(held) + if ok && next.Some? then One(Dentry(next.value)) else 0
      ensures ran == old(ran) + Pending(old(stack), old(depth), call)
      ensures !refuses ==> (ok <==> !old(cached) && (old(root).mnt.Some? || !old(scoped)))
    {
      if next.Some? {
        ok := TryToUnlazyNext(next.value);
      } else {
        ok := TryToUnlazy();
      }
      ghost var kept := if ok && next.Some? then One(Dentry(next.value)) else 0;
      TerminateWalk(old(held) + kept);
    }
  }

  lemma {:induction false} LinkIsOwed(stack: seq<Saved>, i: nat, n: nat, o: Object)
    requires i < n <= |stack|
    ensures LinkRefs(stack, i, o) + stack[i].link.Refs(o) <= LinkRefs(stack, n, o)
  {
    if i + 1 < n {
      LinkIsOwed(stack, i, n - 1, o);
    }
  }
}
