/** Pathname resolution over a static tree of directories, files and symbolic links in one mount,
    as a plain recursion that expands the body of each link where it stands. */
module PathSpec {
  import opened DentryTree

  type NodeId = nat

  const MAX_SYMLINKS: nat := 40

  datatype Node = Dir(children: map<string, NodeId>, searchable: bool) | File | Link(body: string)

  datatype Error = ENOENT | ENOTDIR | ELOOP | EACCES | EXDEV

  datatype Result<+T> = Ok(value: T) | Err(error: Error)

  /** top is the root of the mount. */
  datatype Tree = Tree(nodes: map<NodeId, Node>, parent: Parents, top: NodeId) {
    ghost predicate Valid() {
      && IsTree(parent, top) && nodes.Keys == parent.Keys
      && IsDir(top)
      && (forall n :: n in nodes ==> IsDir(parent[n]))
      && (forall d, c :: d in nodes && nodes[d].Dir? && c in nodes[d].children ==>
          nodes[d].children[c] in nodes && parent[nodes[d].children[c]] == d)
    }
    predicate IsDir(n: NodeId) { n in nodes && nodes[n].Dir? }
  }

  /** What does not change during a walk: the tree, nd->root, LOOKUP_BENEATH and LOOKUP_NO_SYMLINKS.
      LOOKUP_IN_ROOT is a walk whose root is its starting point. */
  datatype Scope = Scope(tree: Tree, root: NodeId, beneath: bool, noSymlinks: bool) {
    ghost predicate Valid() { tree.Valid() && tree.IsDir(root) }
  }

  function SkipSlashes(s: string): (r: string)
    ensures |r| <= |s| && (r != [] ==> r[0] != '/')
    ensures s != [] && s[0] != '/' ==> r == s
  {
    if s != [] && s[0] == '/' then SkipSlashes(s[1..]) else s
  }

  /** The length of the component at the start of s. */
  function ComponentLength(s: string): (n: nat)
    ensures n <= |s| && (s != [] && s[0] != '/' ==> n > 0)
  {
    if s == [] || s[0] == '/' then 0 else 1 + ComponentLength(s[1..])
  }

  predicate IsNormal(component: string) { component != "." && component != ".." }

  /** ".." stops at nd->root and at the root of the mount, and leaves neither under LOOKUP_BENEATH. */
  function DotDot(sc: Scope, dir: NodeId): (r: Result<NodeId>)
    requires dir in sc.tree.parent
  {
    if dir == sc.root || dir == sc.tree.top then (if sc.beneath then Err(EXDEV) else Ok(dir))
    else Ok(sc.tree.parent[dir])
  }

  /** Where a symbolic link's body starts from. */
  function LinkBase(sc: Scope, dir: NodeId, body: string): Result<NodeId> {
    if body != [] && body[0] == '/' then (if sc.beneath then Err(EXDEV) else Ok(sc.root)) else Ok(dir)
  }

  /** Resolve s from dir; count is the number of links followed so far. */
  function Resolve(sc: Scope, dir: NodeId, s: string, count: nat, follow: bool): (r: Result<(NodeId, nat)>)
    requires sc.Valid() && dir in sc.tree.nodes && count <= MAX_SYMLINKS
    requires SkipSlashes(s) != [] ==> sc.tree.IsDir(dir)
    ensures r.Ok? ==> r.value.0 in sc.tree.nodes && count <= r.value.1 <= MAX_SYMLINKS
    decreases MAX_SYMLINKS - count, |s|, 1
  {
    var p := SkipSlashes(s);
    if p == [] then Ok((dir, count))
    else if !sc.tree.nodes[dir].searchable then Err(EACCES)
    else
      var n := ComponentLength(p);
      var rest := SkipSlashes(p[n..]);
      if rest == [] then
        var mustBeDir := n < |p| && IsNormal(p[..n]);
        var r := ResolveOne(sc, dir, p[..n], count, follow || mustBeDir);
        if r.Ok? && mustBeDir && !sc.tree.IsDir(r.value.0) then Err(ENOTDIR) else r
      else
        match ResolveOne(sc, dir, p[..n], count, true)
        case Err(e) => Err(e)
        case Ok((m, c)) => if sc.tree.IsDir(m) then Resolve(sc, m, rest, c, follow) else Err(ENOTDIR)
  }

  /** Resolve one component, expanding it if it is a link to follow. */
  function ResolveOne(sc: Scope, dir: NodeId, component: string, count: nat, follow: bool): (r: Result<(NodeId, nat)>)
    requires sc.Valid() && sc.tree.IsDir(dir) && count <= MAX_SYMLINKS
    ensures r.Ok? ==> r.value.0 in sc.tree.nodes && count <= r.value.1 <= MAX_SYMLINKS
    decreases MAX_SYMLINKS - count, |component|, 0
  {
    if component == "." then Ok((dir, count))
    else if component == ".." then
      match DotDot(sc, dir) {
        case Err(e) => Err(e)
        case Ok(up) => Ok((up, count))
      }
    else if component !in sc.tree.nodes[dir].children then Err(ENOENT)
    else
      var m := sc.tree.nodes[dir].children[component];
      if !sc.tree.nodes[m].Link? || !follow then Ok((m, count))
      else if count >= MAX_SYMLINKS || sc.noSymlinks then Err(ELOOP)
      else
        match LinkBase(sc, dir, sc.tree.nodes[m].body)
        case Err(e) => Err(e)
        case Ok(base) => Resolve(sc, base, sc.tree.nodes[m].body, count + 1, true)
  }

  /** All of s but its last component. */
  datatype Parent = AtEnd(dir: NodeId, count: nat) | Last(dir: NodeId, component: string, slash: bool, count: nat)

  function ResolveParent(sc: Scope, dir: NodeId, s: string, count: nat): (r: Result<Parent>)
    requires sc.Valid() && dir in sc.tree.nodes && count <= MAX_SYMLINKS
    requires SkipSlashes(s) != [] ==> sc.tree.IsDir(dir)
    ensures r.Ok? ==> r.value.dir in sc.tree.nodes && count <= r.value.count <= MAX_SYMLINKS
    ensures r.Ok? && r.value.Last? ==> sc.tree.IsDir(r.value.dir)
    decreases |s|
  {
    var p := SkipSlashes(s);
    if p == [] then Ok(AtEnd(dir, count))
    else if !sc.tree.nodes[dir].searchable then Err(EACCES)
    else
      var n := ComponentLength(p);
      var rest := SkipSlashes(p[n..]);
      if rest == [] then Ok(Last(dir, p[..n], n < |p|, count))
      else
        match ResolveOne(sc, dir, p[..n], count, true)
        case Err(e) => Err(e)
        case Ok((m, c)) => if sc.tree.IsDir(m) then ResolveParent(sc, m, rest, c) else Err(ENOTDIR)
  }

  /** A directory is asked for. */
  function MustBeDir(sc: Scope, r: Result<(NodeId, nat)>, directory: bool): Result<(NodeId, nat)> {
    if r.Ok? && directory && !sc.tree.IsDir(r.value.0) then Err(ENOTDIR) else r
  }

  /** Resolving the last component from where the rest leads is resolving the whole. */
  lemma {:induction false} ParentThenLast(sc: Scope, dir: NodeId, s: string, count: nat, follow: bool)
    requires sc.Valid() && dir in sc.tree.nodes && count <= MAX_SYMLINKS
    requires SkipSlashes(s) != [] ==> sc.tree.IsDir(dir)
    ensures Resolve(sc, dir, s, count, follow) ==
      match ResolveParent(sc, dir, s, count) {
        case Err(e) => Err(e)
        case Ok(AtEnd(d, c)) => Ok((d, c))
        case Ok(Last(d, component, slash, c)) =>
          var mustBeDir := slash && IsNormal(component);
          MustBeDir(sc, ResolveOne(sc, d, component, c, follow || mustBeDir), mustBeDir)
      }
    decreases |s|
  {
    hide Scope.Valid, ResolveOne;
    var p := SkipSlashes(s);
    if p != [] && sc.tree.nodes[dir].searchable {
      var n := ComponentLength(p);
      var rest := SkipSlashes(p[n..]);
      if rest != [] {
        var r := ResolveOne(sc, dir, p[..n], count, true);
        if r.Ok? && sc.tree.IsDir(r.value.0) {
          ParentThenLast(sc, r.value.0, rest, r.value.1, follow);
        }
      }
    }
  }

  // ---- The walk never leaves its root ----

  lemma DotDotInScope(sc: Scope, dir: NodeId)
    requires sc.Valid() && dir in sc.tree.parent && Above(sc.tree.parent, sc.root, dir)
    ensures DotDot(sc, dir).Ok? ==> Above(sc.tree.parent, sc.root, DotDot(sc, dir).value)
  {
    AboveSplit(sc.tree.parent, sc.root, dir);
  }

  lemma RootInScope(sc: Scope)
    requires sc.Valid()
    ensures Above(sc.tree.parent, sc.root, sc.root)
  {
    AboveSelf(sc.tree.parent, sc.root);
  }

  lemma ChildInScope(sc: Scope, dir: NodeId, component: string)
    requires sc.Valid() && sc.tree.IsDir(dir) && Above(sc.tree.parent, sc.root, dir)
    requires component in sc.tree.nodes[dir].children
    ensures Above(sc.tree.parent, sc.root, sc.tree.nodes[dir].children[component])
  {
    var m := sc.tree.nodes[dir].children[component];
    AboveParent(sc.tree.parent, m);
    AboveTransitive(sc.tree.parent, sc.root, dir, m);
  }

  /** Whatever mix of "..", relative and absolute links a path holds, resolution that starts at or below
      nd->root ends at or below it. */
  lemma {:induction false} ResolveInScope(sc: Scope, dir: NodeId, s: string, count: nat, follow: bool)
    requires sc.Valid() && dir in sc.tree.nodes && count <= MAX_SYMLINKS
    requires (SkipSlashes(s) != [] ==> sc.tree.IsDir(dir))
    requires Above(sc.tree.parent, sc.root, dir)
    ensures Resolve(sc, dir, s, count, follow).Ok? ==>
      Above(sc.tree.parent, sc.root, Resolve(sc, dir, s, count, follow).value.0)
    decreases MAX_SYMLINKS - count, |s|, 1
  {
    hide Above, Scope.Valid, ResolveOne;
    var p := SkipSlashes(s);
    if p != [] && sc.tree.nodes[dir].searchable {
      var n := ComponentLength(p);
      var rest := SkipSlashes(p[n..]);
      ResolveOneInScope(sc, dir, p[..n], count, follow || rest != [] || (n < |p| && IsNormal(p[..n])));
      if rest != [] {
        var r := ResolveOne(sc, dir, p[..n], count, true);
        if r.Ok? && sc.tree.IsDir(r.value.0) {
          ResolveInScope(sc, r.value.0, rest, r.value.1, follow);
        }
      }
    }
  }

  lemma {:induction false} ResolveOneInScope(sc: Scope, dir: NodeId, component: string, count: nat, follow: bool)
    requires sc.Valid() && sc.tree.IsDir(dir) && count <= MAX_SYMLINKS && Above(sc.tree.parent, sc.root, dir)
    ensures ResolveOne(sc, dir, component, count, follow).Ok? ==>
      Above(sc.tree.parent, sc.root, ResolveOne(sc, dir, component, count, follow).value.0)
    decreases MAX_SYMLINKS - count, |component|, 0
  {
    hide Above, Resolve, IsTree;
    DotDotInScope(sc, dir);
    RootInScope(sc);
    if component in sc.tree.nodes[dir].children {
      ChildInScope(sc, dir, component);
      var m := sc.tree.nodes[dir].children[component];
      if sc.tree.nodes[m].Link? && count < MAX_SYMLINKS && LinkBase(sc, dir, sc.tree.nodes[m].body).Ok? {
        ResolveInScope(sc, LinkBase(sc, dir, sc.tree.nodes[m].body).value, sc.tree.nodes[m].body, count + 1, true);
      }
    }
  }
}
