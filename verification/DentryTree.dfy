/** The dentry parent relation as a map, what it means to be a tree, and the effect of moving one
    dentry under a new parent. */
module DentryTree {
  import opened Wrappers

  type Dentry = nat
  type Parents = map<Dentry, Dentry>

  predicate Closed(parent: Parents) {
    forall d {:trigger parent[d]} :: d in parent ==> parent[d] in parent
  }

  /** The n-th ancestor of d. */
  ghost function Up(parent: Parents, d: Dentry, n: nat): (r: Dentry)
    ensures Closed(parent) && d in parent ==> r in parent
    decreases n
  {
    if n == 0 || d !in parent then d else Up(parent, parent[d], n - 1)
  }

  /** x is d itself or an ancestor of d. */
  ghost predicate Above(parent: Parents, x: Dentry, d: Dentry) {
    exists n: nat :: Up(parent, d, n) == x
  }

  /** Every dentry climbs to the root, which is its own parent. */
  ghost predicate IsTree(parent: Parents, root: Dentry) {
    && Closed(parent)
    && root in parent && parent[root] == root
    && forall d :: d in parent ==> Above(parent, root, d)
  }

  lemma {:induction false} UpAdd(parent: Parents, d: Dentry, m: nat, n: nat)
    requires Closed(parent) && d in parent
    ensures Up(parent, Up(parent, d, m), n) == Up(parent, d, m + n)
    decreases m
  {
    if m > 0 {
      UpAdd(parent, parent[d], m - 1, n);
    }
  }

  lemma AboveTransitive(parent: Parents, x: Dentry, y: Dentry, z: Dentry)
    requires Closed(parent) && y in parent && z in parent
    requires Above(parent, x, y) && Above(parent, y, z)
    ensures Above(parent, x, z)
  {
    var m: nat :| Up(parent, z, m) == y;
    var n: nat :| Up(parent, y, n) == x;
    UpAdd(parent, z, m, n);
    assert Up(parent, z, m + n) == x;
  }

  lemma AboveSelf(parent: Parents, d: Dentry)
    requires Closed(parent) && d in parent
    ensures Above(parent, d, d)
  {
    assert Up(parent, d, 0) == d;
  }

  lemma AboveParent(parent: Parents, d: Dentry)
    requires Closed(parent) && d in parent
    ensures Above(parent, parent[d], d)
  {
    assert Up(parent, d, 1) == Up(parent, parent[d], 0) == parent[d];
  }

  /** An ancestor of d is d or above d's parent. */
  lemma AboveSplit(parent: Parents, x: Dentry, d: Dentry)
    requires Closed(parent) && d in parent && Above(parent, x, d)
    ensures x == d || Above(parent, x, parent[d])
  {
    var n: nat :| Up(parent, d, n) == x;
    if n > 0 {
      assert Up(parent, parent[d], n - 1) == x;
    }
  }

  lemma {:induction false} UpRoot(parent: Parents, root: Dentry, n: nat)
    requires IsTree(parent, root)
    ensures Up(parent, root, n) == root
  {
    if n > 0 {
      UpRoot(parent, root, n - 1);
    }
  }

  lemma {:induction false} UpCycle(parent: Parents, d: Dentry, n: nat, k: nat)
    requires Closed(parent) && d in parent && Up(parent, d, n) == d
    ensures Up(parent, d, n * k) == d
  {
    if k > 0 {
      UpCycle(parent, d, n, k - 1);
      UpAdd(parent, d, n * (k - 1), n);
      assert n * (k - 1) + n == n * k;
    }
  }

  /** In a tree only the root is its own proper ancestor. */
  lemma NoCycle(parent: Parents, root: Dentry, d: Dentry, n: nat)
    requires IsTree(parent, root) && d in parent
    requires n > 0 && Up(parent, d, n) == d
    ensures d == root
  {
    var k: nat :| Up(parent, d, k) == root;
    UpCycle(parent, d, n, k);
    AtLeast(n, k);
    var rest: nat := n * k - k;
    UpAdd(parent, d, k, rest);
    UpRoot(parent, root, rest);
  }

  lemma AtLeast(n: nat, k: nat)
    requires n > 0
    ensures n * k >= k
  {
    assert n * k == (n - 1) * k + k;
  }

  /** Two dentries that are above each other are the same one. */
  lemma AboveAntisymmetric(parent: Parents, root: Dentry, x: Dentry, y: Dentry)
    requires IsTree(parent, root) && x in parent && y in parent
    requires Above(parent, x, y) && Above(parent, y, x)
    ensures x == y
  {
    var m: nat :| Up(parent, y, m) == x;
    var n: nat :| Up(parent, x, n) == y;
    if m + n > 0 {
      UpAdd(parent, x, n, m);
      NoCycle(parent, root, x, m + n);
      UpRoot(parent, root, n);
    }
  }

  /** No dentry but the root is above its own parent. */
  lemma NotAboveParent(parent: Parents, root: Dentry, d: Dentry)
    requires IsTree(parent, root) && d in parent && d != root
    ensures !Above(parent, d, parent[d])
  {
    if Above(parent, d, parent[d]) {
      AboveParent(parent, d);
      AboveAntisymmetric(parent, root, d, parent[d]);
      assert Up(parent, d, 1) == d;
      NoCycle(parent, root, d, 1);
    }
  }

  lemma {:induction false} SamePathAvoiding(parent: Parents, d: Dentry, n: nat, a: Dentry, q: Dentry)
    requires Closed(parent) && a in parent && q in parent && d in parent
    requires !Above(parent, a, d)
    ensures Closed(parent[a := q]) && Up(parent[a := q], d, n) == Up(parent, d, n)
    decreases n
  {
    AboveSelf(parent, d);
    if n > 0 {
      if Above(parent, a, parent[d]) {
        AboveParent(parent, d);
        AboveTransitive(parent, a, parent[d], d);
      }
      SamePathAvoiding(parent, parent[d], n - 1, a, q);
    }
  }

  lemma {:induction false} ClimbsAfterMove(parent: Parents, root: Dentry, a: Dentry, q: Dentry, d: Dentry, n: nat)
    requires IsTree(parent, root) && a in parent && q in parent && a != root && !Above(parent, a, q)
    requires d in parent && Up(parent, d, n) == root
    ensures Closed(parent[a := q]) && Above(parent[a := q], root, d)
    decreases n
  {
    var moved := parent[a := q];
    if d == root {
      AboveSelf(moved, d);
    } else if d == a {
      var k: nat :| Up(parent, q, k) == root;
      SamePathAvoiding(parent, q, k, a, q);
      assert Up(moved, d, k + 1) == root;
    } else {
      ClimbsAfterMove(parent, root, a, q, parent[d], n - 1);
      AboveParent(moved, d);
      AboveTransitive(moved, root, parent[d], d);
    }
  }

  lemma StillBelowRoot(parent: Parents, root: Dentry, a: Dentry, q: Dentry, d: Dentry)
    requires IsTree(parent, root) && a in parent && q in parent && a != root && !Above(parent, a, q) && d in parent
    ensures Above(parent[a := q], root, d)
  {
    var n: nat :| Up(parent, d, n) == root;
    ClimbsAfterMove(parent, root, a, q, d, n);
  }

  /** Moving a under q keeps the tree when a is not above q; this is what rename must guarantee. */
  lemma MoveKeepsTree(parent: Parents, root: Dentry, a: Dentry, q: Dentry)
    requires IsTree(parent, root) && a in parent && q in parent && a != root
    requires !Above(parent, a, q)
    ensures IsTree(parent[a := q], root)
  {
    hide Above;
    forall d | d in parent
      ensures Above(parent[a := q], root, d)
    {
      StillBelowRoot(parent, root, a, q, d);
    }
  }

  /** And only then: moving a under something it is above cuts it off from the root. */
  lemma MoveBreaksTree(parent: Parents, root: Dentry, a: Dentry, q: Dentry)
    requires IsTree(parent, root) && a in parent && q in parent && a != root
    requires Above(parent, a, q)
    ensures !IsTree(parent[a := q], root)
  {
    var moved := parent[a := q];
    if IsTree(moved, root) {
      var n: nat :| Up(parent, q, n) == a && forall m: nat :: m < n ==> Up(parent, q, m) != a by {
        var n0: nat :| Up(parent, q, n0) == a;
        var n1 := LeastHit(parent, q, a, n0);
      }
      SamePrefix(parent, q, a, q, n);
      assert Up(moved, a, n + 1) == a;
      NoCycle(moved, root, a, n + 1);
    }
  }

  lemma {:induction false} LeastHit(parent: Parents, d: Dentry, a: Dentry, n: nat) returns (k: nat)
    requires Closed(parent) && d in parent && Up(parent, d, n) == a
    ensures Up(parent, d, k) == a && forall m: nat :: m < k ==> Up(parent, d, m) != a
  {
    if m: nat :| m < n && Up(parent, d, m) == a {
      k := LeastHit(parent, d, a, m);
    } else {
      k := n;
    }
  }

  lemma {:induction false} SamePrefix(parent: Parents, d: Dentry, a: Dentry, q: Dentry, n: nat)
    requires Closed(parent) && a in parent && q in parent && d in parent
    requires forall m: nat :: m < n ==> Up(parent, d, m) != a
    ensures Closed(parent[a := q]) && Up(parent[a := q], d, n) == Up(parent, d, n)
    decreases n
  {
    if n > 0 {
      assert Up(parent, d, 0) != a;
      forall m: nat | m < n - 1
        ensures Up(parent, parent[d], m) != a
      {
        assert Up(parent, d, m + 1) != a;
      }
      SamePrefix(parent, parent[d], a, q, n - 1);
    }
  }

  /** What d_ancestor(p1, p2) returns: the child of p1 that is p2 or above it, if there is one. */
  ghost predicate IsTrap(parent: Parents, root: Dentry, p1: Dentry, p2: Dentry, trap: Option<Dentry>) {
    match trap
    case Some(t) => t in parent && t != root && parent[t] == p1 && Above(parent, t, p2)
    case None => forall c :: c in parent && c != root && parent[c] == p1 ==> !Above(parent, c, p2)
  }

  lemma OnlyRootLoops(parent: Parents, root: Dentry, p: Dentry)
    requires IsTree(parent, root) && p in parent && parent[p] == p
    ensures p == root
  {
    assert Up(parent, p, 1) == Up(parent, parent[p], 0);
    NoCycle(parent, root, p, 1);
  }

  lemma HitBeforeRoot(parent: Parents, root: Dentry, d: Dentry, k: nat, n: nat)
    requires IsTree(parent, root) && d in parent && Up(parent, d, k) == root
    requires Up(parent, d, n) != root
    ensures n < k
  {
    if n >= k {
      UpAdd(parent, d, k, n - k);
      UpRoot(parent, root, n - k);
    }
  }

  lemma NothingBelowRoot(parent: Parents, root: Dentry, p1: Dentry, p2: Dentry, k: nat)
    requires IsTree(parent, root) && p2 in parent && Up(parent, p2, k) == root
    requires forall i: nat :: i < k ==> parent[Up(parent, p2, i)] != p1
    ensures IsTrap(parent, root, p1, p2, None)
  {
    forall c | c in parent && c != root && parent[c] == p1
      ensures !Above(parent, c, p2)
    {
      forall n: nat
        ensures Up(parent, p2, n) != c
      {
        if Up(parent, p2, n) != root {
          HitBeforeRoot(parent, root, p2, k, n);
        }
      }
    }
  }

  lemma StepUp(parent: Parents, root: Dentry, d: Dentry, k: nat, climb: nat)
    requires IsTree(parent, root) && d in parent && k <= climb && Up(parent, d, climb) == root
    requires var p := Up(parent, d, k); parent[p] != p
    ensures k < climb && Up(parent, d, k + 1) == parent[Up(parent, d, k)]
  {
    UpAdd(parent, d, k, 1);
    var p := Up(parent, d, k);
    assert Up(parent, p, 1) == Up(parent, parent[p], 0);
  }

  /** d_ancestor: climb from p2 until the parent is p1 or the root is reached. */
  method DAncestor(parent: Parents, ghost root: Dentry, p1: Dentry, p2: Dentry) returns (trap: Option<Dentry>)
    requires IsTree(parent, root) && p1 in parent && p2 in parent
    ensures IsTrap(parent, root, p1, p2, trap)
  {
    var p := p2;
    ghost var k: nat := 0;
    ghost var climb: nat :| Up(parent, p2, climb) == root;
    while parent[p] != p
      invariant p in parent && p == Up(parent, p2, k) && k <= climb
      invariant forall i: nat :: i < k ==> parent[Up(parent, p2, i)] != p1
      decreases climb - k
    {
      if parent[p] == p1 {
        return Some(p);
      }
      StepUp(parent, root, p2, k, climb);
      p := parent[p];
      k := k + 1;
    }
    OnlyRootLoops(parent, root, p);
    NothingBelowRoot(parent, root, p1, p2, k);
    trap := None;
  }

  /** The trap is the only child of p1 on the way up from p2. */
  lemma TrapIsUnique(parent: Parents, root: Dentry, p1: Dentry, p2: Dentry, trap: Option<Dentry>, c: Dentry)
    requires IsTree(parent, root) && p1 in parent && p2 in parent && IsTrap(parent, root, p1, p2, trap)
    requires c in parent && c != root && parent[c] == p1 && Above(parent, c, p2)
    ensures trap == Some(c)
  {
    if trap.Some? {
      OneChildOnPath(parent, root, p2, c, trap.value);
    }
  }

  lemma OneChildOnPath(parent: Parents, root: Dentry, d: Dentry, b: Dentry, c: Dentry)
    requires IsTree(parent, root) && d in parent && b in parent && c in parent
    requires b != root && c != root && parent[b] == parent[c]
    requires Above(parent, b, d) && Above(parent, c, d)
    ensures b == c
  {
    var i: nat :| Up(parent, d, i) == b;
    var j: nat :| Up(parent, d, j) == c;
    if i < j {
      UpAdd(parent, d, i, j - i);
      assert Up(parent, b, j - i) == c;
      assert Up(parent, parent[b], j - i - 1) == c;
      NotAboveParent(parent, root, c);
    } else if j < i {
      UpAdd(parent, d, j, i - j);
      assert Up(parent, c, i - j) == b;
      assert Up(parent, parent[c], i - j - 1) == b;
      NotAboveParent(parent, root, b);
    }
  }
}
