/** What a lookup means in plain cases: where it starts, how slashes split a path, and what kind of node it can
    end at. Each law is about the whole lookup. */
module PathLaws {
  import opened DentryTree
  import opened PathSpec
  import opened PathWalk

  // ---- Slashes and components ----

  lemma {:induction false} SkipSlashesIs(s: string)
    ensures var r := SkipSlashes(s);
      r == s[|s| - |r|..] && forall i :: 0 <= i < |s| - |r| ==> s[i] == '/'
  {
    if s != [] && s[0] == '/' {
      SkipSlashesIs(s[1..]);
    }
  }

  lemma {:induction false} ComponentIs(s: string)
    ensures var n := ComponentLength(s);
      (forall i :: 0 <= i < n ==> s[i] != '/') && (n < |s| ==> s[n] == '/')
  {
    if s != [] && s[0] != '/' {
      ComponentIs(s[1..]);
    }
  }

  /** A name with no slash in it. */
  predicate IsName(name: string) { name != [] && forall i :: 0 <= i < |name| ==> name[i] != '/' }

  predicate IsPlain(name: string) { IsName(name) && name != "." && name != ".." }

  lemma NameFirst(name: string, rest: string)
    requires IsName(name) && (rest == [] || rest[0] == '/')
    ensures SkipSlashes(name + rest) == name + rest && ComponentLength(name + rest) == |name|
    ensures (name + rest)[..|name|] == name && (name + rest)[|name|..] == rest
  {
    var s := name + rest;
    ComponentIs(s);
    assert s[0] == name[0];
    assert forall i :: 0 <= i < |name| ==> s[i] == name[i];
    assert rest != [] ==> s[|name|] == rest[0];
  }

  /** Slashes before a path do not matter once its starting point is fixed. */
  lemma OneSlash(n: string)
    ensures SkipSlashes("/" + n) == SkipSlashes(n)
  {
    assert ("/" + n)[1..] == n;
  }

  // ---- One component ----

  lemma ResolveName(sc: Scope, dir: NodeId, name: string, count: nat, follow: bool)
    requires sc.Valid() && sc.tree.IsDir(dir) && count <= MAX_SYMLINKS && IsName(name)
    ensures Resolve(sc, dir, name, count, follow)
      == if sc.tree.nodes[dir].searchable then ResolveOne(sc, dir, name, count, follow) else Err(EACCES)
  {
    hide ResolveOne, Scope.Valid, SkipSlashes, ComponentLength;
    NameFirst(name, []);
    assert name + [] == name;
    SkipNothing();
  }

  lemma SkipNothing()
    ensures SkipSlashes([]) == []
  {
  }

  /** A name in the starting directory: the node of that name, whichever way the lookup is scoped. */
  lemma LookupName(tree: Tree, fsRoot: NodeId, start: NodeId, flags: Flags, name: string)
    requires tree.Valid() && tree.IsDir(fsRoot) && start in tree.nodes && IsPlain(name)
    ensures var res := Lookup(tree, fsRoot, start, flags, name);
      if !tree.IsDir(start) then res == Err(ENOTDIR)
      else if !tree.nodes[start].searchable then res == Err(EACCES)
      else if name !in tree.nodes[start].children then res == Err(ENOENT)
      else
        var m := tree.nodes[start].children[name];
        m in tree.nodes && (!tree.nodes[m].Link? || !flags.follow ==>
          res == if flags.directory && !tree.IsDir(m) then Err(ENOTDIR) else Ok(m))
  {
    hide Resolve, ResolveOne, IsTree;
    if tree.IsDir(start) {
      var (sc, from) := PathInit(tree, fsRoot, start, flags, name).value;
      ResolveName(sc, start, name, 0, flags.follow);
      if tree.nodes[start].searchable {
        ResolveNormal(sc, start, name, 0, flags.follow);
      }
    }
  }

  /** ".." is the parent, except at the root of the lookup and at the top, where it stays or is refused. */
  lemma LookupDotDot(tree: Tree, fsRoot: NodeId, start: NodeId, flags: Flags)
    requires tree.Valid() && tree.IsDir(fsRoot) && tree.IsDir(start) && tree.nodes[start].searchable
    ensures Lookup(tree, fsRoot, start, flags, "..")
      == if flags.mode.Beneath? then Err(EXDEV)
         else if flags.mode.InRoot? || start == fsRoot || start == tree.top then Ok(start)
         else Ok(tree.parent[start])
  {
    hide Resolve, IsTree;
    var (sc, from) := PathInit(tree, fsRoot, start, flags, "..").value;
    ResolveName(sc, start, "..", 0, flags.follow);
  }

  lemma LookupDot(tree: Tree, fsRoot: NodeId, start: NodeId, flags: Flags)
    requires tree.Valid() && tree.IsDir(fsRoot) && tree.IsDir(start) && tree.nodes[start].searchable
    ensures Lookup(tree, fsRoot, start, flags, ".") == Ok(start)
  {
    hide Resolve, IsTree;
    var (sc, from) := PathInit(tree, fsRoot, start, flags, ".").value;
    ResolveName(sc, start, ".", 0, flags.follow);
  }

  // ---- Absolute paths ----

  lemma SameResolve(sc: Scope, dir: NodeId, a: string, b: string, count: nat, follow: bool)
    requires sc.Valid() && sc.tree.IsDir(dir) && count <= MAX_SYMLINKS && SkipSlashes(a) == SkipSlashes(b)
    ensures Resolve(sc, dir, a, count, follow) == Resolve(sc, dir, b, count, follow)
  {
    hide ResolveOne, Scope.Valid;
  }

  /** A leading slash starts the walk at the root of the file system, at the starting point under
      LOOKUP_IN_ROOT, and is refused under LOOKUP_BENEATH. */
  lemma LookupAbsolute(tree: Tree, fsRoot: NodeId, start: NodeId, flags: Flags, n: string)
    requires tree.Valid() && tree.IsDir(fsRoot) && start in tree.nodes && n != []
    ensures Lookup(tree, fsRoot, start, flags, "/" + n)
      == match flags.mode
         case Ordinary => Lookup(tree, fsRoot, fsRoot, flags, n)
         case InRoot => Lookup(tree, fsRoot, start, flags, n)
         case Beneath => Err(EXDEV)
  {
    hide Resolve, IsTree;
    OneSlash(n);
    var from := if flags.mode.Ordinary? then fsRoot else start;
    if !flags.mode.Beneath? && tree.IsDir(from) {
      var sc := PathInit(tree, fsRoot, from, flags, n).value.0;
      SameResolve(sc, from, "/" + n, n, 0, flags.follow);
    }
  }

  // ---- Longer paths ----

  /** A directory, a slash and more: the rest is looked up there. */
  lemma LookupSlash(tree: Tree, fsRoot: NodeId, start: NodeId, flags: Flags, name: string, rest: string)
    requires tree.Valid() && tree.IsDir(fsRoot) && tree.IsDir(start) && flags.mode.Ordinary?
    requires tree.nodes[start].searchable && IsPlain(name) && name in tree.nodes[start].children
    requires tree.IsDir(tree.nodes[start].children[name]) && rest != [] && rest[0] != '/'
    ensures Lookup(tree, fsRoot, start, flags, name + "/" + rest)
      == Lookup(tree, fsRoot, tree.nodes[start].children[name], flags, rest)
  {
    hide Resolve, IsTree;
    var m := tree.nodes[start].children[name];
    var sc := Scope(tree, fsRoot, false, flags.noSymlinks);
    assert name + "/" + rest == name + ("/" + rest);
    assert (name + "/" + rest)[0] == name[0];
    ResolveSlash(sc, start, name, "/" + rest, 0, flags.follow);
    OneSlash(rest);
    SameResolve(sc, m, SkipSlashes("/" + rest), rest, 0, flags.follow);
  }

  lemma ResolveSlash(sc: Scope, dir: NodeId, name: string, rest: string, count: nat, follow: bool)
    requires sc.Valid() && sc.tree.IsDir(dir) && count <= MAX_SYMLINKS && sc.tree.nodes[dir].searchable
    requires IsPlain(name) && name in sc.tree.nodes[dir].children && sc.tree.IsDir(sc.tree.nodes[dir].children[name])
    requires rest != [] && rest[0] == '/' && SkipSlashes(rest) != []
    ensures Resolve(sc, dir, name + rest, count, follow)
      == Resolve(sc, sc.tree.nodes[dir].children[name], SkipSlashes(rest), count, follow)
  {
    hide ResolveOne, Scope.Valid, SkipSlashes, ComponentLength;
    NameFirst(name, rest);
    ResolveNormal(sc, dir, name, count, true);
  }

  /** A slash at the end asks for a directory, and follows a link to find one. */
  lemma LookupTrailingSlash(tree: Tree, fsRoot: NodeId, start: NodeId, flags: Flags, name: string)
    requires tree.Valid() && tree.IsDir(fsRoot) && start in tree.nodes && IsPlain(name)
    ensures Lookup(tree, fsRoot, start, flags, name + "/")
      == Lookup(tree, fsRoot, start, flags.(follow := true, directory := true), name)
  {
    hide Resolve, ResolveOne, Lookup, Tree.Valid, Scope.Valid;
    assert (name + "/")[0] == name[0];
    Relative(tree, fsRoot, start, flags, name + "/");
    Relative(tree, fsRoot, start, flags.(follow := true, directory := true), name);
    if tree.IsDir(start) {
      var sc := Scoped(tree, fsRoot, start, flags);
      ResolveTrailing(sc, start, name, flags.follow);
      ResolveName(sc, start, name, 0, true);
    }
  }

  function Scoped(tree: Tree, fsRoot: NodeId, start: NodeId, flags: Flags): Scope {
    Scope(tree, if flags.mode.Ordinary? then fsRoot else start, flags.mode.Beneath?, flags.noSymlinks)
  }

  /** A path that does not begin with a slash is resolved from the starting point. */
  lemma Relative(tree: Tree, fsRoot: NodeId, start: NodeId, flags: Flags, name: string)
    requires tree.Valid() && tree.IsDir(fsRoot) && start in tree.nodes && name != [] && name[0] != '/'
    ensures !tree.IsDir(start) ==> Lookup(tree, fsRoot, start, flags, name) == Err(ENOTDIR)
    ensures tree.IsDir(start) ==>
      var sc := Scoped(tree, fsRoot, start, flags);
      && sc.Valid()
      && Lookup(tree, fsRoot, start, flags, name)
         == NodeOf(sc, Resolve(sc, start, name, 0, flags.follow), flags.directory)
  {
    hide Resolve, IsTree;
  }

  lemma ResolveTrailing(sc: Scope, dir: NodeId, name: string, follow: bool)
    requires sc.Valid() && sc.tree.IsDir(dir) && IsPlain(name)
    ensures Resolve(sc, dir, name + "/", 0, follow)
      == if sc.tree.nodes[dir].searchable then MustBeDir(sc, ResolveOne(sc, dir, name, 0, true), true) else Err(EACCES)
  {
    hide ResolveOne, Scope.Valid, ComponentLength;
    NameFirst(name, "/");
    OneSlash("");
    assert "/" + "" == "/";
  }

  // ---- Links, and where a lookup can end ----

  /** A link to follow is its body, from here or from the root, until forty links have been followed. */
  lemma FollowLink(sc: Scope, dir: NodeId, name: string, count: nat)
    requires sc.Valid() && sc.tree.IsDir(dir) && count <= MAX_SYMLINKS && sc.tree.nodes[dir].searchable
    requires IsPlain(name) && name in sc.tree.nodes[dir].children
    requires sc.tree.nodes[dir].children[name] in sc.tree.nodes
    requires sc.tree.nodes[sc.tree.nodes[dir].children[name]].Link?
    ensures MAX_SYMLINKS == 40
    ensures var body, r := sc.tree.nodes[sc.tree.nodes[dir].children[name]].body, Resolve(sc, dir, name, count, true);
      if count >= 40 || sc.noSymlinks then r == Err(ELOOP)
      else if body != [] && body[0] == '/' then
        r == if sc.beneath then Err(EXDEV) else Resolve(sc, sc.root, body, count + 1, true)
      else r == Resolve(sc, dir, body, count + 1, true)
  {
    hide Resolve, ResolveOne, IsTree;
    ResolveName(sc, dir, name, count, true);
    ResolveNormal(sc, dir, name, count, true);
  }

  /** A link to itself is not followed for ever. */
  lemma {:induction false} LinkToItself(sc: Scope, dir: NodeId, name: string, count: nat)
    requires sc.Valid() && sc.tree.IsDir(dir) && count <= MAX_SYMLINKS && sc.tree.nodes[dir].searchable
    requires IsPlain(name) && name in sc.tree.nodes[dir].children
    requires sc.tree.nodes[dir].children[name] in sc.tree.nodes
    requires sc.tree.nodes[sc.tree.nodes[dir].children[name]] == Link(name)
    ensures Resolve(sc, dir, name, count, true) == Err(ELOOP)
    decreases MAX_SYMLINKS - count
  {
    hide Resolve, Scope.Valid;
    FollowLink(sc, dir, name, count);
    if count < MAX_SYMLINKS {
      LinkToItself(sc, dir, name, count + 1);
    }
  }

  /** Resolution that follows links does not end at one. */
  lemma {:induction false} EndsAtNoLink(sc: Scope, dir: NodeId, s: string, count: nat)
    requires sc.Valid() && dir in sc.tree.nodes && count <= MAX_SYMLINKS
    requires SkipSlashes(s) != [] ==> sc.tree.IsDir(dir)
    requires !sc.tree.nodes[dir].Link?
    ensures var r := Resolve(sc, dir, s, count, true); r.Ok? ==> !sc.tree.nodes[r.value.0].Link?
    decreases MAX_SYMLINKS - count, |s|, 1
  {
    hide ResolveOne, Scope.Valid;
    var p := SkipSlashes(s);
    if p != [] && sc.tree.nodes[dir].searchable {
      var n := ComponentLength(p);
      var rest := SkipSlashes(p[n..]);
      OneEndsAtNoLink(sc, dir, p[..n], count);
      if rest != [] {
        var r := ResolveOne(sc, dir, p[..n], count, true);
        if r.Ok? && sc.tree.IsDir(r.value.0) {
          EndsAtNoLink(sc, r.value.0, rest, r.value.1);
        }
      }
    }
  }

  lemma {:induction false} OneEndsAtNoLink(sc: Scope, dir: NodeId, component: string, count: nat)
    requires sc.Valid() && sc.tree.IsDir(dir) && count <= MAX_SYMLINKS
    ensures var r := ResolveOne(sc, dir, component, count, true); r.Ok? ==> !sc.tree.nodes[r.value.0].Link?
    decreases MAX_SYMLINKS - count, |component|, 0
  {
    hide Resolve, IsTree;
    if IsNormal(component) {
      ResolveNormal(sc, dir, component, count, true);
      if component in sc.tree.nodes[dir].children && count < MAX_SYMLINKS {
        var m := sc.tree.nodes[dir].children[component];
        if sc.tree.nodes[m].Link? && !sc.noSymlinks && LinkBase(sc, dir, sc.tree.nodes[m].body).Ok? {
          EndsAtNoLink(sc, LinkBase(sc, dir, sc.tree.nodes[m].body).value, sc.tree.nodes[m].body, count + 1);
        }
      }
    }
  }

  /** A lookup ends at a node of the tree, at a directory if one is asked for, and at no link if links are
      followed. */
  lemma LookupEnds(tree: Tree, fsRoot: NodeId, start: NodeId, flags: Flags, name: string)
    requires tree.Valid() && tree.IsDir(fsRoot) && start in tree.nodes
    ensures var res := Lookup(tree, fsRoot, start, flags, name);
      res.Ok? ==>
        && res.value in tree.nodes
        && (flags.directory ==> tree.IsDir(res.value))
        && (flags.follow && name != [] ==> !tree.nodes[res.value].Link?)
  {
    hide Resolve, IsTree;
    if name != [] && PathInit(tree, fsRoot, start, flags, name).Ok? {
      var (sc, from) := PathInit(tree, fsRoot, start, flags, name).value;
      EndsAtNoLink(sc, from, name, 0);
    }
  }
}
