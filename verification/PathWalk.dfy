/** The iterative walker: link_path_walk with its stack of saved names, walk_component, pick_link and
    the loop of path_lookupat, in reference-walk mode. */
module PathWalk {
  import opened DentryTree
  import opened PathSpec
  import opened Wrappers

  /** What walk_component leaves to its caller. */
  datatype Walked = Done | Follow(body: string) | Fail(error: Error)

  // ---- The meaning of a half-done walk ----

  /** Carry on with rest, then with the saved names, once r is known. */
  ghost function After(sc: Scope, r: Result<(NodeId, nat)>, rest: string, saved: seq<string>): Result<Parent>
    requires sc.Valid() && (r.Ok? ==> r.value.0 in sc.tree.nodes && r.value.1 <= MAX_SYMLINKS)
    decreases |saved|, 1
  {
    match r
    case Err(e) => Err(e)
    case Ok((m, c)) => if sc.tree.IsDir(m) then Remaining(sc, m, rest, saved, c) else Err(ENOTDIR)
  }

  /** Where name, walked from dir, leads when the names in saved are to be walked after it, the last one first. */
  ghost function Remaining(sc: Scope, dir: NodeId, name: string, saved: seq<string>, count: nat): Result<Parent>
    requires sc.Valid() && dir in sc.tree.nodes && count <= MAX_SYMLINKS
    requires SkipSlashes(name) != [] ==> sc.tree.IsDir(dir)
    decreases |saved|, 0
  {
    if saved == [] then ResolveParent(sc, dir, name, count)
    else After(sc, Resolve(sc, dir, name, count, true),
               saved[|saved| - 1], saved[..|saved| - 1])
  }

  /** Walking a component that is not the last one. */
  lemma RemainingMore(sc: Scope, dir: NodeId, name: string, saved: seq<string>, count: nat)
    requires sc.Valid() && sc.tree.IsDir(dir) && count <= MAX_SYMLINKS && name != [] && name[0] != '/'
    requires sc.tree.nodes[dir].searchable && SkipSlashes(name[ComponentLength(name)..]) != []
    ensures var n := ComponentLength(name);
      Remaining(sc, dir, name, saved, count)
      == After(sc, ResolveOne(sc, dir, name[..n], count, true), SkipSlashes(name[n..]), saved)
  {
    hide Scope.Valid, ResolveOne;
    var n := ComponentLength(name);
    var r := ResolveOne(sc, dir, name[..n], count, true);
    if saved != [] && r.Ok? && sc.tree.IsDir(r.value.0) {
      assert Resolve(sc, dir, name, count, true) == Resolve(sc, r.value.0, SkipSlashes(name[n..]), r.value.1, true);
    }
  }

  /** Walking the last component of a nested link: the saved name is next. */
  lemma RemainingLast(sc: Scope, dir: NodeId, name: string, saved: seq<string>, count: nat)
    requires sc.Valid() && sc.tree.IsDir(dir) && count <= MAX_SYMLINKS && name != [] && name[0] != '/'
    requires sc.tree.nodes[dir].searchable && SkipSlashes(name[ComponentLength(name)..]) == [] && saved != []
    ensures Remaining(sc, dir, name, saved, count)
      == After(sc, ResolveOne(sc, dir, name[..ComponentLength(name)], count, true),
               saved[|saved| - 1], saved[..|saved| - 1])
  {
    hide Scope.Valid, ResolveOne, Remaining;
    var n := ComponentLength(name);
    assert Resolve(sc, dir, name, count, true)
      == MustBeDir(sc, ResolveOne(sc, dir, name[..n], count, true), n < |name| && IsNormal(name[..n]));
    RemainingUnfold(sc, dir, name, saved, count);
  }

  lemma RemainingUnfold(sc: Scope, dir: NodeId, name: string, saved: seq<string>, count: nat)
    requires sc.Valid() && sc.tree.IsDir(dir) && count <= MAX_SYMLINKS && saved != []
    ensures Remaining(sc, dir, name, saved, count)
      == After(sc, Resolve(sc, dir, name, count, true),
               saved[|saved| - 1], saved[..|saved| - 1])
  {
  }

  /** Entering a link pushes what comes after it. */
  lemma RemainingPush(sc: Scope, dir: NodeId, body: string, rest: string, saved: seq<string>, count: nat)
    requires sc.Valid() && sc.tree.IsDir(dir) && count <= MAX_SYMLINKS
    ensures Remaining(sc, dir, body, saved + [rest], count)
      == After(sc, Resolve(sc, dir, body, count, true), rest, saved)
  {
    hide Scope.Valid, Resolve;
    assert (saved + [rest])[..|saved|] == saved;
    RemainingUnfold(sc, dir, body, saved + [rest], count);
  }

  // ---- nameidata ----

  /** The last component found by link_path_walk. */
  datatype LastType = LastRoot | LastNorm | LastDot | LastDotDot

  datatype Turn = Stop(error: Error) | Arrive | Next(name: string, d: nat)

  /** The cases of a component that is neither "." nor "..". */
  lemma ResolveNormal(sc: Scope, dir: NodeId, component: string, count: nat, follow: bool)
    requires sc.Valid() && sc.tree.IsDir(dir) && count <= MAX_SYMLINKS && IsNormal(component)
    ensures var r, children := ResolveOne(sc, dir, component, count, follow), sc.tree.nodes[dir].children;
      if component !in children then r == Err(ENOENT)
      else
        var m := children[component];
        && m in sc.tree.nodes
        && if !sc.tree.nodes[m].Link? || !follow then r == Ok((m, count))
           else if count >= MAX_SYMLINKS || sc.noSymlinks then r == Err(ELOOP)
           else
             match LinkBase(sc, dir, sc.tree.nodes[m].body)
             case Err(e) => r == Err(e)
             case Ok(base) => sc.tree.IsDir(base) && r == Resolve(sc, base, sc.tree.nodes[m].body, count + 1, true)
  {
    hide Resolve, IsTree;
  }

  lemma DotStays(sc: Scope, dir: NodeId, count: nat, follow: bool)
    requires sc.Valid() && sc.tree.IsDir(dir) && count <= MAX_SYMLINKS
    ensures ResolveOne(sc, dir, ".", count, follow) == Ok((dir, count))
  {
  }

  class Nameidata {
    const sc: Scope
    var path: NodeId
    var depth: nat
    /** stack[i].name for the MAXSYMLINKS slots of nd->stack. */
    const stack: array<string>
    var totalLinkCount: nat
    var last: string
    var slash: bool
    var lastType: LastType
    var follow: bool
    var directory: bool

    ghost predicate Valid()
      reads this
    {
      && sc.Valid() && path in sc.tree.nodes
      && stack.Length == MAX_SYMLINKS
      && depth <= totalLinkCount <= MAX_SYMLINKS
    }

    ghost predicate InScope()
      requires Valid()
      reads this
    {
      Above(sc.tree.parent, sc.root, path)
    }

    constructor (sc: Scope, start: NodeId, follow: bool, directory: bool)
      requires sc.Valid() && start in sc.tree.nodes
      ensures Valid() && this.sc == sc && path == start && depth == 0 && totalLinkCount == 0
      ensures this.follow == follow && this.directory == directory && fresh(stack)
    {
      this.sc := sc;
      path := start;
      depth, totalLinkCount := 0, 0;
      this.follow, this.directory := follow, directory;
      last, slash, lastType := "", false, LastRoot;
      stack := new string[MAX_SYMLINKS](_ => "");
    }

    /** pick_link: count the link, save it, and hand back its body past any leading slashes; a body with
        nothing but slashes is a pure jump. */
    method PickLink(body: string) returns (w: Walked)
      requires Valid() && sc.tree.IsDir(path)
      modifies this`path, this`depth, this`totalLinkCount
      ensures w.Fail? ==> w.error == (if old(totalLinkCount) >= MAX_SYMLINKS || sc.noSymlinks then ELOOP else EXDEV)
      ensures w.Fail? <==>
        old(totalLinkCount) >= MAX_SYMLINKS || sc.noSymlinks || LinkBase(sc, old(path), body).Err?
      ensures !w.Fail? ==>
        && Valid() && totalLinkCount == old(totalLinkCount) + 1
        && Ok(path) == LinkBase(sc, old(path), body)
        && depth == old(depth) + (if w.Follow? then 1 else 0)
      ensures w.Follow? ==> w.body == SkipSlashes(body) != []
      ensures w.Done? ==> SkipSlashes(body) == []
      ensures old(InScope()) && !w.Fail? ==> InScope()
    {
      if totalLinkCount >= MAX_SYMLINKS {
        return Fail(ELOOP);
      }
      totalLinkCount := totalLinkCount + 1;
      depth := depth + 1;
      if sc.noSymlinks {
        return Fail(ELOOP);
      }
      RootInScope(sc);
      if body != [] && body[0] == '/' {
        if sc.beneath {
          return Fail(EXDEV);
        }
        path := sc.root;
      }
      var res := SkipSlashes(body);
      if res != [] {
        return Follow(res);
      }
      depth := depth - 1;
      w := Done;
    }

    /** walk_component without its put_link: "." and "..", or a lookup and a step into the child. */
    method StepComponent(trailing: bool) returns (w: Walked)
      requires Valid() && (lastType.LastRoot? || sc.tree.IsDir(path))
      requires !lastType.LastRoot? ==>
        (lastType == if last == "." then LastDot else if last == ".." then LastDotDot else LastNorm)
      modifies this`path, this`depth, this`totalLinkCount
      ensures !w.Fail? ==> Valid() && old(totalLinkCount) <= totalLinkCount
      ensures lastType.LastRoot? ==> w.Done? && path == old(path) && totalLinkCount == old(totalLinkCount)
      ensures !lastType.LastRoot? ==>
        var r := ResolveOne(sc, old(path), last, old(totalLinkCount), !trailing || follow);
        match w {
          case Fail(e) => r == Err(e)
          case Done => r == Ok((path, totalLinkCount))
          case Follow(body) =>
            && body != [] && body[0] != '/' && sc.tree.IsDir(path) && totalLinkCount == old(totalLinkCount) + 1
            && r == Resolve(sc, path, body, totalLinkCount, true) && (!trailing || follow)
        }
      ensures depth == old(depth) + (if w.Follow? then 1 else 0) || w.Fail?
      ensures old(InScope()) && !w.Fail? ==> InScope()
    {
      hide Above, Resolve, ResolveOne, Scope.Valid;
      match lastType
      case LastRoot => return Done;
      case LastDot =>
        DotStays(sc, path, totalLinkCount, !trailing || follow);
        return Done;
      case LastDotDot => w := FollowDotDot(!trailing || follow);
      case LastNorm => w := StepInto(!trailing || follow);
    }

    /** follow_dotdot: up one directory, except at nd->root and at the top. */
    method FollowDotDot(followLinks: bool) returns (w: Walked)
      requires Valid() && sc.tree.IsDir(path)
      modifies this`path
      ensures w.Done? || w.Fail?
      ensures var r := ResolveOne(sc, old(path), "..", totalLinkCount, followLinks);
        if w.Fail? then r == Err(w.error) else Valid() && r == Ok((path, totalLinkCount))
      ensures old(InScope()) && !w.Fail? ==> InScope()
    {
      hide Above, Resolve;
      if InScope() {
        DotDotInScope(sc, path);
      }
      if path == sc.root || path == sc.tree.top {
        return if sc.beneath then Fail(EXDEV) else Done;
      }
      path := sc.tree.parent[path];
      return Done;
    }

    /** Look the component up and step into it; a link to be followed is picked. */
    method StepInto(followLinks: bool) returns (w: Walked)
      requires Valid() && sc.tree.IsDir(path) && IsNormal(last)
      modifies this`path, this`depth, this`totalLinkCount
      ensures !w.Fail? ==> Valid() && old(totalLinkCount) <= totalLinkCount
      ensures var r := ResolveOne(sc, old(path), last, old(totalLinkCount), followLinks);
        match w {
          case Fail(e) => r == Err(e)
          case Done => r == Ok((path, totalLinkCount))
          case Follow(body) =>
            && body != [] && body[0] != '/' && sc.tree.IsDir(path) && totalLinkCount == old(totalLinkCount) + 1
            && r == Resolve(sc, path, body, totalLinkCount, true) && followLinks
        }
      ensures depth == old(depth) + (if w.Follow? then 1 else 0) || w.Fail?
      ensures old(InScope()) && !w.Fail? ==> InScope()
    {
      hide Above, Resolve, ResolveOne, Scope.Valid;
      ResolveNormal(sc, path, last, totalLinkCount, followLinks);
      if last !in sc.tree.nodes[path].children {
        return Fail(ENOENT);
      }
      if InScope() {
        ChildInScope(sc, path, last);
      }
      var m := sc.tree.nodes[path].children[last];
      if !sc.tree.nodes[m].Link? || !followLinks {
        path := m;
        return Done;
      }
      w := PickLink(sc.tree.nodes[m].body);
      SkipTwice(sc.tree.nodes[m].body);
      if !w.Fail? {
        SameAfterSkip(sc, path, sc.tree.nodes[m].body, totalLinkCount);
      }
    }

    /** The saved names of the links being walked. */
    ghost predicate Saved(d: nat)
      requires Valid()
      reads this, stack
    {
      d <= depth && forall i :: 0 <= i < d ==> stack[i] != [] && stack[i][0] != '/'
    }

    /** Split the next component off name; when nothing is left of name, the last saved name is next and
        the link it belongs to is dropped. None: this is the last component of all. */
    method TakeComponent(name: string, d: nat) returns (part: Option<(string, nat)>)
      requires Valid() && Saved(d) && sc.tree.IsDir(path)
      requires sc.tree.nodes[path].searchable && name != [] && name[0] != '/'
      modifies this`depth, this`last, this`slash, this`lastType
      ensures Valid()
      ensures lastType == if last == "." then LastDot else if last == ".." then LastDotDot else LastNorm
      ensures var before := Remaining(sc, path, name, stack[..d], totalLinkCount);
        match part {
          case None => before == Ok(Last(path, last, slash, totalLinkCount)) && d == 0 && depth == old(depth)
          case Some((rest, d')) =>
            && d' <= d && Saved(d') && rest != [] && rest[0] != '/' && depth - d' == old(depth) - d
            && before == After(sc, ResolveOne(sc, path, last, totalLinkCount, true), rest, stack[..d'])
            && |rest| + TotalLength(stack[..d']) < |name| + TotalLength(stack[..d])
        }
    {
      hide Scope.Valid, ResolveOne, Resolve, ResolveParent, Remaining;
      ghost var saved := stack[..d];
      var n := ComponentLength(name);
      last := name[..n];
      slash := n < |name|;
      lastType := if last == "." then LastDot else if last == ".." then LastDotDot else LastNorm;
      var rest := SkipSlashes(name[n..]);
      if rest != [] {
        RemainingMore(sc, path, name, saved, totalLinkCount);
        return Some((rest, d));
      }
      if d == 0 {
        LastHere(sc, path, name, totalLinkCount);
        assert saved == [];
        return None;
      }
      RemainingLast(sc, path, name, saved, totalLinkCount);
      TotalLengthLast(saved);
      assert saved[..|saved| - 1] == stack[..d - 1];
      depth := depth - 1;
      part := Some((stack[d - 1], d - 1));
    }

    /** One turn of the loop of link_path_walk, with name not empty and not at a slash. */
    method OneTurn(name: string, d: nat) returns (turn: Turn)
      requires Valid() && Saved(d) && sc.tree.IsDir(path) && name != [] && name[0] != '/'
      modifies this`path, this`depth, this`totalLinkCount, this`last, this`slash, this`lastType, stack
      ensures var before := old(Remaining(sc, path, name, stack[..d], totalLinkCount));
        match turn {
          case Stop(e) => before == Err(e)
          case Arrive =>
            && Valid() && before == Ok(Last(path, last, slash, totalLinkCount)) && d == 0 && depth == old(depth)
            && lastType == (if last == "." then LastDot else if last == ".." then LastDotDot else LastNorm)
          case Next(name', d') =>
            && Valid() && Saved(d') && sc.tree.IsDir(path) && name' != [] && name'[0] != '/'
            && before == Remaining(sc, path, name', stack[..d'], totalLinkCount)
            && depth - d' == old(depth) - d
        }
      ensures turn.Next? ==>
        || old(totalLinkCount) < totalLinkCount
        || (old(totalLinkCount) == totalLinkCount
            && |turn.name| + TotalLength(stack[..turn.d]) < old(|name| + TotalLength(stack[..d])))
      ensures !turn.Stop? && old(InScope()) ==> InScope()
    {
      hide Above, Scope.Valid, ResolveOne, Resolve, ResolveParent, Remaining, TotalLength;
      if !sc.tree.nodes[path].searchable {
        DeniedHere(sc, path, name, stack[..d], totalLinkCount);
        return Stop(EACCES);
      }
      var part := TakeComponent(name, d);
      if part.None? {
        return Arrive;
      }
      var (rest, d') := part.value;
      ghost var names := stack[..d'];
      var w := StepComponent(false);
      match w {
        case Fail(e) => return Stop(e);
        case Follow(body) =>
          RemainingPush(sc, path, body, rest, names, totalLinkCount);
          stack[d'] := rest;
          assert stack[..d' + 1] == names + [rest];
          return Next(body, d' + 1);
        case Done =>
          if !sc.tree.IsDir(path) {
            return Stop(ENOTDIR);
          }
          return Next(rest, d');
      }
    }

    /** link_path_walk: walk all of name but its last component, which it leaves in last. */
    method LinkPathWalk(name0: string) returns (err: Result<()>)
      requires Valid() && (SkipSlashes(name0) != [] ==> sc.tree.IsDir(path))
      modifies this`path, this`depth, this`totalLinkCount, this`last, this`slash, this`lastType, stack
      ensures match ResolveParent(sc, old(path), name0, old(totalLinkCount)) {
          case Err(e) => err == Err(e)
          case Ok(AtEnd(dir, c)) => err.Ok? && Valid() && path == dir && totalLinkCount == c && lastType == LastRoot
          case Ok(Last(dir, component, s, c)) =>
            && err.Ok? && Valid() && path == dir && totalLinkCount == c && last == component && slash == s
            && lastType == if last == "." then LastDot else if last == ".." then LastDotDot else LastNorm
        }
      ensures err.Ok? ==> depth == old(depth)
      ensures err.Ok? && old(InScope()) ==> InScope()
    {
      hide Above, Scope.Valid, ResolveOne, Resolve;
      lastType := LastRoot;
      var name := SkipSlashes(name0);
      if name == [] {
        return Ok(());
      }
      SameParentAfterSkip(sc, path, name0, totalLinkCount);
      var d: nat := 0;
      while true
        invariant Valid() && Saved(d) && sc.tree.IsDir(path) && name != [] && name[0] != '/'
        invariant depth == old(depth) + d
        invariant Remaining(sc, path, name, stack[..d], totalLinkCount)
          == ResolveParent(sc, old(path), name0, old(totalLinkCount))
        invariant old(InScope()) ==> InScope()
        decreases MAX_SYMLINKS - totalLinkCount, |name| + TotalLength(stack[..d])
      {
        var turn := OneTurn(name, d);
        match turn {
          case Stop(e) => return Err(e);
          case Arrive => return Ok(());
          case Next(name', d') => name, d := name', d';
        }
      }
    }

    /** One round of path_lookupat: walk to the last component, then take it. None: arrived. */
    method OneRound(s: string) returns (next: Result<Option<string>>)
      requires Valid() && depth <= 1 && (SkipSlashes(s) != [] ==> sc.tree.IsDir(path))
      modifies this, stack
      ensures var goal := MustBeDir(sc, Resolve(sc, old(path), s, old(totalLinkCount), old(follow)), old(directory));
        match next {
          case Err(e) => goal == Err(e)
          case Ok(None) => Valid() && goal == MustBeDir(sc, Ok((path, totalLinkCount)), directory)
          case Ok(Some(body)) =>
            && Valid() && depth <= 1 && sc.tree.IsDir(path) && old(totalLinkCount) < totalLinkCount
            && goal == MustBeDir(sc, Resolve(sc, path, body, totalLinkCount, follow), directory)
        }
      ensures next.Ok? && old(InScope()) ==> InScope()
    {
      hide Above, Scope.Valid, ResolveOne, Resolve, ResolveParent;
      ParentThenLast(sc, path, s, totalLinkCount, follow);
      var err := LinkPathWalk(s);
      if err.Err? {
        return Err(err.error);
      }
      var w := LookupLast();
      match w {
        case Fail(e) => return Err(e);
        case Done => return Ok(None);
        case Follow(body) => return Ok(Some(body));
      }
    }

    /** lookup_last: a slash after the last component asks for a directory. */
    method LookupLast() returns (w: Walked)
      requires Valid() && depth <= 1 && (lastType.LastRoot? || sc.tree.IsDir(path))
      requires !lastType.LastRoot? ==>
        (lastType == if last == "." then LastDot else if last == ".." then LastDotDot else LastNorm)
      modifies this
      ensures !w.Fail? ==> Valid() && depth <= 1 && old(totalLinkCount) <= totalLinkCount
      ensures follow == (old(follow) || old(lastType.LastNorm? && slash))
      ensures directory == (old(directory) || old(lastType.LastNorm? && slash))
      ensures old(lastType).LastRoot? ==> w.Done? && path == old(path) && totalLinkCount == old(totalLinkCount)
      ensures !old(lastType).LastRoot? ==>
        var r := ResolveOne(sc, old(path), old(last), old(totalLinkCount), follow);
        match w {
          case Fail(e) => r == Err(e)
          case Done => r == Ok((path, totalLinkCount))
          case Follow(body) =>
            && body != [] && body[0] != '/' && sc.tree.IsDir(path) && totalLinkCount == old(totalLinkCount) + 1
            && r == Resolve(sc, path, body, totalLinkCount, true) && follow
        }
      ensures old(InScope()) && !w.Fail? ==> InScope()
    {
      hide Above, Scope.Valid, ResolveOne, Resolve;
      if lastType == LastNorm && slash {
        follow, directory := true, true;
      }
      if depth > 0 {
        depth := depth - 1;
      }
      w := StepComponent(true);
    }

    /** path_lookupat after path_init: walk, then follow trailing links until there is none; the last
        check that a scoped walk ended under its root never fires. */
    method PathLookupAt(name: string, scoped: bool) returns (res: Result<NodeId>)
      requires Valid() && depth == 0 && totalLinkCount == 0 && (SkipSlashes(name) != [] ==> sc.tree.IsDir(path))
      requires scoped ==> InScope()
      modifies this, stack
      ensures match MustBeDir(sc, Resolve(sc, old(path), name, 0, old(follow)), old(directory)) {
          case Err(e) => res == Err(e)
          case Ok((n, c)) => res == Ok(n)
        }
      ensures res.Ok? && old(InScope()) ==> Above(sc.tree.parent, sc.root, res.value)
    {
      hide Above, IsTree, ResolveOne, Resolve, ResolveParent;
      var s := name;
      while true
        invariant Valid() && depth <= 1 && (SkipSlashes(s) != [] ==> sc.tree.IsDir(path))
        invariant MustBeDir(sc, Resolve(sc, path, s, totalLinkCount, follow), directory)
          == MustBeDir(sc, Resolve(sc, old(path), name, 0, old(follow)), old(directory))
        invariant old(InScope()) ==> InScope()
        decreases MAX_SYMLINKS - totalLinkCount
      {
        var next := OneRound(s);
        match next {
          case Err(e) => return Err(e);
          case Ok(None) => break;
          case Ok(Some(body)) => s := body;
        }
      }
      // complete_walk
      if scoped {
        var under := PathIsUnder(sc.tree.parent, sc.tree.top, path, sc.root);
        if !under {
          return Err(EXDEV);
        }
      }
      if directory && !sc.tree.IsDir(path) {
        return Err(ENOTDIR);
      }
      res := Ok(path);
    }
  }

  /** path_is_under in one mount: climb until root is met. */
  method PathIsUnder(parent: Parents, ghost top: NodeId, n: NodeId, root: NodeId) returns (under: bool)
    requires IsTree(parent, top) && n in parent
    ensures under <==> Above(parent, root, n)
  {
    var p := n;
    ghost var k: nat := 0;
    ghost var climb: nat :| Up(parent, n, climb) == top;
    while parent[p] != p && p != root
      invariant p in parent && p == Up(parent, n, k) && k <= climb
      invariant forall i: nat :: i < k ==> Up(parent, n, i) != root
      decreases climb - k
    {
      StepUp(parent, top, n, k, climb);
      p := parent[p];
      k := k + 1;
    }
    if p == root {
      return true;
    }
    OnlyRootLoops(parent, top, p);
    NeverMet(parent, top, n, root, k);
    under := false;
  }

  lemma NeverMet(parent: Parents, top: NodeId, n: NodeId, x: NodeId, k: nat)
    requires IsTree(parent, top) && n in parent && Up(parent, n, k) == top && x != top
    requires forall i: nat :: i < k ==> Up(parent, n, i) != x
    ensures !Above(parent, x, n)
  {
    forall i: nat
      ensures Up(parent, n, i) != x
    {
      if Up(parent, n, i) != top {
        HitBeforeRoot(parent, top, n, k, i);
      }
    }
  }

  ghost function TotalLength(saved: seq<string>): nat {
    if saved == [] then 0 else |saved[|saved| - 1]| + TotalLength(saved[..|saved| - 1])
  }

  lemma TotalLengthLast(saved: seq<string>)
    requires saved != []
    ensures TotalLength(saved) == |saved[|saved| - 1]| + TotalLength(saved[..|saved| - 1])
  {
  }

  lemma {:induction false} SkipTwice(s: string)
    ensures SkipSlashes(SkipSlashes(s)) == SkipSlashes(s)
  {
  }

  /** Leading slashes do not matter once the starting point is fixed. */
  lemma SameAfterSkip(sc: Scope, dir: NodeId, s: string, count: nat)
    requires sc.Valid() && sc.tree.IsDir(dir) && count <= MAX_SYMLINKS
    ensures Resolve(sc, dir, s, count, true) == Resolve(sc, dir, SkipSlashes(s), count, true)
    ensures SkipSlashes(s) == [] ==> Resolve(sc, dir, s, count, true) == Ok((dir, count))
  {
    hide Scope.Valid, ResolveOne;
    SkipTwice(s);
  }

  lemma SameParentAfterSkip(sc: Scope, dir: NodeId, s: string, count: nat)
    requires sc.Valid() && sc.tree.IsDir(dir) && count <= MAX_SYMLINKS
    ensures ResolveParent(sc, dir, s, count) == ResolveParent(sc, dir, SkipSlashes(s), count)
  {
    hide Scope.Valid, ResolveOne;
    SkipTwice(s);
  }

  lemma DeniedHere(sc: Scope, dir: NodeId, name: string, saved: seq<string>, count: nat)
    requires sc.Valid() && sc.tree.IsDir(dir) && count <= MAX_SYMLINKS && name != [] && name[0] != '/'
    requires !sc.tree.nodes[dir].searchable
    ensures Remaining(sc, dir, name, saved, count) == Err(EACCES)
  {
  }

  lemma LastHere(sc: Scope, dir: NodeId, name: string, count: nat)
    requires sc.Valid() && sc.tree.IsDir(dir) && count <= MAX_SYMLINKS && name != [] && name[0] != '/'
    requires sc.tree.nodes[dir].searchable && SkipSlashes(name[ComponentLength(name)..]) == []
    ensures Remaining(sc, dir, name, [], count)
      == Ok(Last(dir, name[..ComponentLength(name)], ComponentLength(name) < |name|, count))
  {
  }

  // ---- path_init ----

  datatype Mode = Ordinary | Beneath | InRoot

  datatype Flags = Flags(mode: Mode, noSymlinks: bool, follow: bool, directory: bool)

  /** The root and the starting point of a walk. */
  function PathInit(tree: Tree, fsRoot: NodeId, start: NodeId, flags: Flags, name: string): (r: Result<(Scope, NodeId)>)
    requires tree.Valid() && tree.IsDir(fsRoot) && start in tree.nodes && name != []
    ensures r.Ok? ==> r.value.0.Valid() && r.value.0.tree == tree && tree.IsDir(r.value.1)
  {
    var sc := Scope(tree, if flags.mode.Ordinary? then fsRoot else start, flags.mode.Beneath?, flags.noSymlinks);
    if name[0] == '/' && !flags.mode.InRoot? then (if flags.mode.Beneath? then Err(EXDEV) else Ok((sc, fsRoot)))
    else if !tree.IsDir(start) then Err(ENOTDIR)
    else Ok((sc, start))
  }

  /** What a lookup means: the recursive resolution from where path_init starts. */
  function Lookup(tree: Tree, fsRoot: NodeId, start: NodeId, flags: Flags, name: string): Result<NodeId>
    requires tree.Valid() && tree.IsDir(fsRoot) && start in tree.nodes
  {
    if name == [] then (if flags.directory && !tree.IsDir(start) then Err(ENOTDIR) else Ok(start))
    else
      match PathInit(tree, fsRoot, start, flags, name)
      case Err(e) => Err(e)
      case Ok((sc, from)) => NodeOf(sc, Resolve(sc, from, name, 0, flags.follow), flags.directory)
  }

  function NodeOf(sc: Scope, r: Result<(NodeId, nat)>, directory: bool): Result<NodeId> {
    match MustBeDir(sc, r, directory)
    case Err(e) => Err(e)
    case Ok((n, _)) => Ok(n)
  }

  /** filename_lookup by the iterative walk agrees with the recursive resolution, on the node and on the
      error, and a LOOKUP_BENEATH or LOOKUP_IN_ROOT lookup stays at or below its starting point. */
  method FilenameLookup(tree: Tree, fsRoot: NodeId, start: NodeId, flags: Flags, name: string)
    returns (res: Result<NodeId>)
    requires tree.Valid() && tree.IsDir(fsRoot) && start in tree.nodes
    ensures res == Lookup(tree, fsRoot, start, flags, name)
    ensures !flags.mode.Ordinary? && res.Ok? ==> Above(tree.parent, start, res.value)
  {
    AboveSelf(tree.parent, start);
    hide Above, IsTree, Resolve;
    if name == [] {
      return if flags.directory && !tree.IsDir(start) then Err(ENOTDIR) else Ok(start);
    }
    var init := PathInit(tree, fsRoot, start, flags, name);
    if init.Err? {
      return Err(init.error);
    }
    var (sc, from) := init.value;
    var nd := new Nameidata(sc, from, flags.follow, flags.directory);
    res := nd.PathLookupAt(name, !flags.mode.Ordinary?);
  }
}
