/** Binary trees with parent pointers and cached counts, where adding a leaf checks
    every new count against INT_MAX. */
module CheckedComposite {
  import opened Pointers

  const INT_MAX: int := 2147483647

  datatype Tree = Empty | Node(p: Ptr, left: Tree, right: Tree)

  /** A tree with a hole: what is around the hole, from its parent up. */
  datatype Context = Root | LeftOf(up: Context, p: Ptr, right: Tree) | RightOf(up: Context, p: Ptr, left: Tree)

  datatype Path = Here | Left(path: Path) | Right(path: Path)

  function TCount(t: Tree): nat {
    match t
    case Empty => 0
    case Node(_, l, r) => 1 + TCount(l) + TCount(r)
  }

  function Combine(c: Context, t: Tree): Tree {
    match c
    case Root => t
    case LeftOf(up, p, r) => Combine(up, Node(p, t, r))
    case RightOf(up, p, l) => Combine(up, Node(p, l, t))
  }

  function CombinePath(c: Context, path: Path): Path {
    match c
    case Root => path
    case LeftOf(up, _, _) => CombinePath(up, Left(path))
    case RightOf(up, _, _) => CombinePath(up, Right(path))
  }

  predicate ContainsAt(t: Tree, path: Path, n: Ptr) {
    match t
    case Empty => false
    case Node(p, l, r) =>
      match path
      case Here => n == p
      case Left(rest) => ContainsAt(l, rest, n)
      case Right(rest) => ContainsAt(r, rest, n)
  }

  function ContextAt(c: Context, t: Tree, path: Path): Context
    decreases path
  {
    match t
    case Empty => c
    case Node(p, l, r) =>
      match path
      case Here => c
      case Left(rest) => ContextAt(LeftOf(c, p, r), l, rest)
      case Right(rest) => ContextAt(RightOf(c, p, l), r, rest)
  }

  function SubtreeAt(t: Tree, path: Path): Tree {
    match t
    case Empty => Empty
    case Node(_, l, r) =>
      match path
      case Here => t
      case Left(rest) => SubtreeAt(l, rest)
      case Right(rest) => SubtreeAt(r, rest)
  }

  // ----- changing the focus -----

  /** Taking a tree apart at a path and putting it together again changes nothing. */
  lemma {:induction false} CombineAt(c: Context, t: Tree, path: Path)
    ensures Combine(ContextAt(c, t, path), SubtreeAt(t, path)) == Combine(c, t)
    decreases path
  {
    if t.Node? {
      match path {
        case Here =>
        case Left(rest) => CombineAt(LeftOf(c, t.p, t.right), t.left, rest);
        case Right(rest) => CombineAt(RightOf(c, t.p, t.left), t.right, rest);
      }
    }
  }

  /** Going to the root and back along the context's own path finds the same parts. */
  lemma {:induction false} Refocus(c: Context, t: Tree, path: Path)
    ensures ContextAt(Root, Combine(c, t), CombinePath(c, path)) == ContextAt(c, t, path)
    ensures SubtreeAt(Combine(c, t), CombinePath(c, path)) == SubtreeAt(t, path)
    ensures forall n :: ContainsAt(Combine(c, t), CombinePath(c, path), n) <==> ContainsAt(t, path, n)
    decreases c
  {
    match c {
      case Root =>
      case LeftOf(up, p, r) => Refocus(up, Node(p, t, r), Left(path));
      case RightOf(up, p, l) => Refocus(up, Node(p, l, t), Right(path));
    }
  }

  // ----- nodes -----

  function Nodes(t: Tree): set<Ptr> {
    match t
    case Empty => {}
    case Node(p, l, r) => {p} + Nodes(l) + Nodes(r)
  }

  predicate Distinct(t: Tree) {
    match t
    case Empty => true
    case Node(p, l, r) => p !in Nodes(l) && p !in Nodes(r) && Nodes(l) !! Nodes(r) && Distinct(l) && Distinct(r)
  }

  lemma {:induction false} CountIsNodes(t: Tree)
    requires Distinct(t)
    ensures TCount(t) == |Nodes(t)|
  {
    if t.Node? {
      CountIsNodes(t.left);
      CountIsNodes(t.right);
      assert Nodes(t) == {t.p} + (Nodes(t.left) + Nodes(t.right));
    }
  }

  lemma {:induction false} SubtreeDistinct(t: Tree, path: Path)
    requires Distinct(t)
    ensures Distinct(SubtreeAt(t, path))
  {
    if t.Node? {
      match path {
        case Here =>
        case Left(rest) => SubtreeDistinct(t.left, rest);
        case Right(rest) => SubtreeDistinct(t.right, rest);
      }
    }
  }

  /** The ancestors of the hole. */
  function Spine(c: Context): set<Ptr> {
    if c.Root? then {} else {c.p} + Spine(c.up)
  }

  /** `upper` is the path to a place further up. */
  predicate Above(upper: Path, path: Path) {
    match path
    case Here => false
    case Left(rest) => upper == Here || (upper.Left? && Above(upper.path, rest))
    case Right(rest) => upper == Here || (upper.Right? && Above(upper.path, rest))
  }

  ghost predicate IsAbove(t: Tree, path: Path, q: Ptr) {
    exists upper :: Above(upper, path) && ContainsAt(t, upper, q)
  }

  lemma AboveFirst(t: Tree, path: Path, q: Ptr)
    requires t.Node? && path != Here
    ensures IsAbove(t, path, q) <==> q == t.p || IsAbove(if path.Left? then t.left else t.right, path.path, q)
  {
    if q == t.p { assert Above(Here, path) && ContainsAt(t, Here, q); }
    var child := if path.Left? then t.left else t.right;
    if u :| Above(u, path.path) && ContainsAt(child, u, q) {
      var upper := if path.Left? then Left(u) else Right(u);
      assert Above(upper, path) && ContainsAt(t, upper, q);
    }
    if u :| Above(u, path) && ContainsAt(t, u, q) && u != Here {
      assert Above(u.path, path.path) && ContainsAt(child, u.path, q);
    }
  }

  /** The nodes above a place are those at the places further up. */
  lemma {:induction false} SpineIsAbove(c: Context, t: Tree, path: Path, n: Ptr, q: Ptr)
    requires ContainsAt(t, path, n)
    ensures q in Spine(ContextAt(c, t, path)) <==> q in Spine(c) || IsAbove(t, path, q)
    decreases path
  {
    if path != Here { AboveFirst(t, path, q); }
    match path {
      case Here =>
      case Left(rest) => SpineIsAbove(LeftOf(c, t.p, t.right), t.left, rest, n, q);
      case Right(rest) => SpineIsAbove(RightOf(c, t.p, t.left), t.right, rest, n, q);
    }
  }

  function Side(c: Context): Tree
    requires !c.Root?
  {
    if c.LeftOf? then c.right else c.left
  }

  function Around(c: Context): set<Ptr> {
    if c.Root? then {} else {c.p} + Nodes(Side(c)) + Around(c.up)
  }

  function CCount(c: Context): nat {
    if c.Root? then 0 else 1 + TCount(Side(c)) + CCount(c.up)
  }

  predicate DistinctAround(c: Context) {
    c.Root? || (
      && c.p !in Nodes(Side(c)) && c.p !in Around(c.up) && Nodes(Side(c)) !! Around(c.up)
      && Distinct(Side(c)) && DistinctAround(c.up))
  }

  lemma {:induction false} CombineParts(c: Context, t: Tree)
    ensures Nodes(Combine(c, t)) == Around(c) + Nodes(t) && TCount(Combine(c, t)) == CCount(c) + TCount(t)
    ensures Distinct(Combine(c, t)) <==> Distinct(t) && DistinctAround(c) && Nodes(t) !! Around(c)
    decreases c
  {
    match c {
      case Root =>
      case LeftOf(up, p, r) => CombineParts(up, Node(p, t, r));
      case RightOf(up, p, l) => CombineParts(up, Node(p, l, t));
    }
  }

  lemma {:induction false} SpineAround(c: Context)
    ensures Spine(c) <= Around(c)
    decreases c
  {
    if !c.Root? { SpineAround(c.up); }
  }

  // ----- the representation -----

  datatype Fields = Fields(left: map<Ptr, Ptr>, right: map<Ptr, Ptr>, parent: map<Ptr, Ptr>, count: map<Ptr, int>)

  predicate Has(fs: Fields, p: Ptr) {
    p in fs.left && p in fs.right && p in fs.parent && p in fs.count
  }

  ghost predicate SubRep(fs: Fields, node: Ptr, parent: Ptr, t: Tree)
    decreases t
  {
    match t
    case Empty => node == NULL
    case Node(p, l, r) =>
      && node == p && p != NULL && Has(fs, p) && fs.parent[p] == parent && fs.count[p] == TCount(t)
      && SubRep(fs, fs.left[p], p, l) && SubRep(fs, fs.right[p], p, r)
  }

  /** Around a hole that holds `node`, whose parent is `parent` and whose subtree has
      `count` nodes. */
  ghost predicate CtxRep(fs: Fields, node: Ptr, parent: Ptr, count: int, c: Context)
    decreases c
  {
    if c.Root? then parent == NULL
    else
      && parent == c.p && c.p != NULL && Has(fs, c.p)
      && (if c.LeftOf? then fs.left[c.p] == node else fs.right[c.p] == node)
      && SubRep(fs, if c.LeftOf? then fs.right[c.p] else fs.left[c.p], c.p, Side(c))
      && fs.count[c.p] == 1 + count + TCount(Side(c))
      && CtxRep(fs, c.p, fs.parent[c.p], fs.count[c.p], c.up)
  }

  ghost predicate Agree(fs: Fields, fs': Fields, q: Ptr) {
    Has(fs, q) ==>
      && Has(fs', q) && fs'.left[q] == fs.left[q] && fs'.right[q] == fs.right[q]
      && fs'.parent[q] == fs.parent[q] && fs'.count[q] == fs.count[q]
  }

  lemma {:induction false} SubFrame(fs: Fields, fs': Fields, node: Ptr, parent: Ptr, t: Tree)
    requires SubRep(fs, node, parent, t) && forall q :: q in Nodes(t) ==> Agree(fs, fs', q)
    ensures SubRep(fs', node, parent, t)
    decreases t
  {
    if t.Node? {
      assert Agree(fs, fs', t.p);
      SubFrame(fs, fs', fs.left[t.p], t.p, t.left);
      SubFrame(fs, fs', fs.right[t.p], t.p, t.right);
    }
  }

  lemma {:induction false} CtxFrame(fs: Fields, fs': Fields, node: Ptr, parent: Ptr, count: int, c: Context)
    requires CtxRep(fs, node, parent, count, c) && forall q :: q in Around(c) ==> Agree(fs, fs', q)
    ensures CtxRep(fs', node, parent, count, c)
    decreases c
  {
    if !c.Root? {
      assert Agree(fs, fs', c.p);
      SubFrame(fs, fs', if c.LeftOf? then fs.right[c.p] else fs.left[c.p], c.p, Side(c));
      CtxFrame(fs, fs', c.p, fs.parent[c.p], fs.count[c.p], c.up);
    }
  }

  function RootOf(t: Tree): Ptr { if t.Empty? then NULL else t.p }

  /** `go_to_root`. */
  lemma {:induction false} GoToRoot(fs: Fields, node: Ptr, parent: Ptr, c: Context, t: Tree)
    requires CtxRep(fs, node, parent, TCount(t), c) && SubRep(fs, node, parent, t)
    ensures SubRep(fs, RootOf(Combine(c, t)), NULL, Combine(c, t))
    decreases c
  {
    match c {
      case Root =>
      case LeftOf(up, p, r) => GoToRoot(fs, p, fs.parent[p], up, Node(p, t, r));
      case RightOf(up, p, l) => GoToRoot(fs, p, fs.parent[p], up, Node(p, l, t));
    }
  }

  /** `go_to_descendant`. */
  lemma {:induction false} GoToDescendant(fs: Fields, node0: Ptr, parent: Ptr, c: Context, t: Tree, path: Path,
                                          node: Ptr)
    requires CtxRep(fs, node0, parent, TCount(t), c) && SubRep(fs, node0, parent, t) && ContainsAt(t, path, node)
    ensures SubtreeAt(t, path).Node? && SubtreeAt(t, path).p == node && node in fs.parent
    ensures SubRep(fs, node, fs.parent[node], SubtreeAt(t, path))
    ensures CtxRep(fs, node, fs.parent[node], TCount(SubtreeAt(t, path)), ContextAt(c, t, path))
    decreases path
  {
    match path {
      case Here =>
      case Left(rest) => GoToDescendant(fs, fs.left[t.p], t.p, LeftOf(c, t.p, t.right), t.left, rest, node);
      case Right(rest) => GoToDescendant(fs, fs.right[t.p], t.p, RightOf(c, t.p, t.left), t.right, rest, node);
    }
  }

  // ----- the operations -----

  /** `count'` differs from `count` only on `spine`. */
  ghost predicate OnlyOn(spine: set<Ptr>, count: map<Ptr, int>, count': map<Ptr, int>) {
    count'.Keys == count.Keys && forall q :: q in count && q !in spine ==> count'[q] == count[q]
  }

  /** Storing the new count of the parent leaves what is above it alone. */
  lemma StoreCount(fs: Fields, node: Ptr, parent: Ptr, count: int, c: Context, v: int)
    requires CtxRep(fs, node, parent, count, c) && !c.Root? && DistinctAround(c)
    ensures var fs' := fs.(count := fs.count[c.p := v]);
            && CtxRep(fs', c.p, fs.parent[c.p], fs.count[c.p], c.up)
            && SubRep(fs', if c.LeftOf? then fs.right[c.p] else fs.left[c.p], c.p, Side(c))
  {
    var fs' := fs.(count := fs.count[c.p := v]);
    CtxFrame(fs, fs', c.p, fs.parent[c.p], fs.count[c.p], c.up);
    SubFrame(fs, fs', if c.LeftOf? then fs.right[c.p] else fs.left[c.p], c.p, Side(c));
  }

  /** With everything above repaired, the parent is right too. */
  lemma Repaired(fs: Fields, fs': Fields, node: Ptr, parent: Ptr, count: int, c: Context)
    requires !c.Root? && DistinctAround(c) && parent == c.p && c.p != NULL && Has(fs, c.p)
    requires if c.LeftOf? then fs.left[c.p] == node else fs.right[c.p] == node
    requires SubRep(fs, if c.LeftOf? then fs.right[c.p] else fs.left[c.p], c.p, Side(c))
    requires fs.count[c.p] == 1 + count + TCount(Side(c))
    requires CtxRep(fs', c.p, fs.parent[c.p], fs.count[c.p], c.up)
    requires fs' == fs.(count := fs'.count) && OnlyOn(Spine(c.up), fs.count, fs'.count)
    ensures CtxRep(fs', node, parent, count, c)
  {
    SpineAround(c.up);
    assert fs'.count[c.p] == fs.count[c.p];
    SubFrame(fs, fs', if c.LeftOf? then fs.right[c.p] else fs.left[c.p], c.p, Side(c));
  }

  class Store {
    var left: map<Ptr, Ptr>
    var right: map<Ptr, Ptr>
    var parent: map<Ptr, Ptr>
    var count: map<Ptr, int>
    ghost var tree: Tree

    ghost function Now(): Fields reads this { Fields(left, right, parent, count) }

    ghost predicate Valid() reads this {
      && Distinct(tree) && SubRep(Now(), RootOf(tree), NULL, tree) && TCount(tree) <= INT_MAX
      && left.Keys == right.Keys == parent.Keys == count.Keys == Nodes(tree)
    }

    /** `create_node`. */
    method CreateNode(p: Ptr) returns (n: Ptr)
      requires left.Keys == right.Keys == parent.Keys == count.Keys
      modifies this`left, this`right, this`parent, this`count
      ensures n != NULL && n !in old(left)
      ensures left == old(left)[n := NULL] && right == old(right)[n := NULL]
      ensures parent == old(parent)[n := p] && count == old(count)[n := 1]
    {
      ghost var m := UnusedAddress(left.Keys);
      assert m != NULL && m !in left;
      n :| n != NULL && n !in left;
      left := left[n := NULL];
      right := right[n := NULL];
      parent := parent[n := p];
      count := count[n := 1];
    }

    /** A new leaf, linked to its parent. */
    method Link(node: Ptr, leftSide: bool, ghost c: Context) returns (n: Ptr)
      requires left.Keys == right.Keys == parent.Keys == count.Keys
      requires !c.Root? && c.p == node && (leftSide <==> c.LeftOf?)
      modifies this`left, this`right, this`parent, this`count
      ensures n != NULL && n !in old(left) && Links(old(Now()), Now(), c, n)
    {
      n := CreateNode(node);
      if leftSide { left := left[node := n]; } else { right := right[node := n]; }
    }

    /** The same, at a place in the tree; the counts above are still to be repaired. */
    method LinkAt(node: Ptr, leftSide: bool, ghost path: Path, ghost c: Context) returns (n: Ptr)
      requires Valid() && MissesChild(tree, path, node, leftSide) && c == HoleAt(tree, path, leftSide)
      modifies this`left, this`right, this`parent, this`count
      ensures n != NULL && n !in Nodes(tree) && Around(c) == Nodes(tree) && DistinctAround(c) && c.p == node
      ensures CCount(c) == TCount(tree) == |Nodes(tree)|
      ensures left.Keys == right.Keys == parent.Keys == count.Keys == Nodes(tree) + {n}
      ensures CtxRep(Now(), n, node, 0, c) && SubRep(Now(), n, node, Leaf(n))
      ensures left == LinkedOn(leftSide, old(left), node, n) && right == LinkedOn(!leftSide, old(right), node, n)
      ensures parent == old(parent)[n := node] && count == old(count)[n := 1]
    {
      hide SubRep, CtxRep, Distinct, DistinctAround, Around, Nodes, TCount, CCount, ContextAt, SubtreeAt, Combine,
           LinkedOn;
      ghost var fs := Now();
      AtHole(fs, tree, path, node, leftSide);
      CountIsNodes(tree);
      n := Link(node, leftSide, c);
      LinkRep(fs, Now(), fs.parent[node], c, n);
    }

    /** `create_tree`: a single node. */
    constructor ()
      ensures Valid() && tree.Node? && tree == Leaf(tree.p)
    {
      left, right, parent, count := map[], map[], map[], map[];
      new;
      var n := CreateNode(NULL);
      tree := Leaf(n);
    }

    /** `tree_add_left` and `tree_add_right`: a new leaf below any node that has no child
        on that side. The result is null if the process aborts, exactly when the tree
        would have more than INT_MAX nodes. Only counts of ancestors change. */
    method TreeAdd(node: Ptr, leftSide: bool, ghost path: Path) returns (n: Ptr)
      requires Valid() && MissesChild(tree, path, node, leftSide)
      modifies this
      ensures n != NULL <==> |Nodes(old(tree))| < 2147483647
      ensures n != NULL ==>
                && left == LinkedOn(leftSide, old(left), node, n) && right == LinkedOn(!leftSide, old(right), node, n)
                && parent == old(parent)[n := node]
      ensures n != NULL ==>
                && Valid() && n !in Nodes(old(tree)) && TCount(tree) == TCount(old(tree)) + 1
                && tree == Combine(HoleAt(old(tree), path, leftSide), Leaf(n))
                && ContextAt(Root, tree, path) == ContextAt(Root, old(tree), path)
                && OnlyOn(Spine(HoleAt(old(tree), path, leftSide)), old(count)[n := 1], count)
    {
      hide SubRep, CtxRep, Distinct, DistinctAround, Around, Nodes, TCount, CCount, OnlyOn, ContextAt, SubtreeAt,
           Combine, Spine, LinkedOn;
      ghost var c := HoleAt(tree, path, leftSide);
      n := LinkAt(node, leftSide, path, c);
      ghost var linked := Now();
      var ok := FixupAncestors(n, node, 1, 0, c);
      if !ok { return NULL; }
      LeafStays(linked, Now(), n, c);
      Filled(Now(), c, n, tree, path, node, leftSide);
      OnlyKeys(Spine(c), linked.count, count);
      tree := Combine(c, Leaf(n));
    }

    /** In every state a cached count is the number of nodes of the subtree. */
    lemma CountsAreRight(path: Path, node: Ptr)
      requires Valid() && ContainsAt(tree, path, node)
      ensures node in count && count[node] == |Nodes(SubtreeAt(tree, path))|
    {
      GoToDescendant(Now(), RootOf(tree), NULL, Root, tree, path, node);
      SubtreeDistinct(tree, path);
      CountIsNodes(SubtreeAt(tree, path));
    }

    /** `tree_get_parent`. */
    method TreeGetParent(node: Ptr, ghost path: Path) returns (p: Ptr)
      requires Valid() && ContainsAt(tree, path, node)
      ensures var c := ContextAt(Root, tree, path); p == if c.Root? then NULL else c.p
    {
      GoToDescendant(Now(), RootOf(tree), NULL, Root, tree, path, node);
      p := parent[node];
    }

    /** `subtree_get_count`. */
    method SubtreeGetCount(node: Ptr, ghost up: Ptr, ghost t: Tree) returns (n: int)
      requires SubRep(Now(), node, up, t)
      ensures n == TCount(t)
    {
      n := 0;
      if node != NULL { n := count[node]; }
    }

    /** `fixup_ancestors`: repairs the counts above a subtree that now has `n` nodes.
        It aborts exactly if the whole tree has more than INT_MAX nodes. */
    method FixupAncestors(node: Ptr, p: Ptr, n: int, ghost was: int, ghost c: Context) returns (ok: bool)
      requires CtxRep(Now(), node, p, was, c) && DistinctAround(c) && node != NULL && node !in Around(c)
      requires 0 <= n <= INT_MAX
      modifies this`count
      ensures ok <==> n + CCount(c) <= INT_MAX
      ensures ok ==> CtxRep(Now(), node, p, n, c) && OnlyOn(Spine(c), old(count), count)
      decreases c
    {
      if p == NULL { return true; }
      var grandparent := parent[p];
      var leftCount, rightCount := 0, 0;
      SideIsElsewhere(Now(), c, node);
      if node == left[p] {
        leftCount := n;
        rightCount := SubtreeGetCount(right[p], p, Side(c));
      } else {
        leftCount := SubtreeGetCount(left[p], p, Side(c));
        rightCount := n;
      }
      if INT_MAX - 1 - leftCount < rightCount { return false; }
      var pcount := 1 + leftCount + rightCount;
      StoreCount(Now(), node, p, was, c, pcount);
      ghost var before := count[p];
      count := count[p := pcount];
      ghost var fs := Now();
      ok := FixupAncestors(p, grandparent, pcount, before, c.up);
      if ok { Repaired(fs, Now(), node, p, n, c); }
    }
  }

  /** The links on one side with a new leaf `n`, which is a child of `p` if it is on it. */
  function LinkedOn(here: bool, links: map<Ptr, Ptr>, p: Ptr, n: Ptr): (r: map<Ptr, Ptr>)
    ensures p in links ==> r.Keys == links.Keys + {n}
  {
    if here then links[n := NULL][p := n] else links[n := NULL]
  }

  /** A leaf for the hole of `c`, linked on the side where the hole is. */
  ghost predicate Links(fs: Fields, fs': Fields, c: Context, n: Ptr)
    requires !c.Root?
  {
    && fs'.left == LinkedOn(c.LeftOf?, fs.left, c.p, n) && fs'.right == LinkedOn(!c.LeftOf?, fs.right, c.p, n)
    && fs'.parent == fs.parent[n := c.p] && fs'.count == fs.count[n := 1]
  }

  /** The tree `t` with the child on the side of the hole of `c` missing. */
  function Without(c: Context): Tree
    requires !c.Root?
  {
    if c.LeftOf? then Node(c.p, Empty, c.right) else Node(c.p, c.left, Empty)
  }

  function Leaf(n: Ptr): Tree { Node(n, Empty, Empty) }

  lemma LinkRep(fs: Fields, fs': Fields, up: Ptr, c: Context, n: Ptr)
    requires !c.Root? && Links(fs, fs', c, n) && n != NULL && n != c.p && n !in Around(c) && DistinctAround(c)
    requires SubRep(fs, c.p, up, Without(c)) && CtxRep(fs, c.p, up, TCount(Without(c)), c.up)
    ensures CtxRep(fs', n, c.p, 0, c) && SubRep(fs', n, c.p, Leaf(n))
  {
    assert forall q :: q in Around(c.up) || q in Nodes(Side(c)) ==> q != n && q != c.p;
    OthersAgree(fs, fs', c, n);
    CtxFrame(fs, fs', c.p, up, TCount(Without(c)), c.up);
    SubFrame(fs, fs', if c.LeftOf? then fs.right[c.p] else fs.left[c.p], c.p, Side(c));
    assert Has(fs', c.p) && fs'.parent[c.p] == up && fs'.count[c.p] == fs.count[c.p] == TCount(Without(c));
    assert if c.LeftOf? then fs'.right[c.p] == fs.right[c.p] else fs'.left[c.p] == fs.left[c.p];
    assert TCount(Without(c)) == 1 + TCount(Side(c));
    assert fs'.left[n] == NULL && fs'.right[n] == NULL;
  }

  lemma OthersAgree(fs: Fields, fs': Fields, c: Context, n: Ptr)
    requires !c.Root? && Links(fs, fs', c, n)
    ensures forall q :: q != n && q != c.p ==> Agree(fs, fs', q)
  { }

  lemma LeafStays(fs: Fields, fs': Fields, n: Ptr, c: Context)
    requires !c.Root? && SubRep(fs, n, c.p, Leaf(n)) && n !in Around(c)
    requires fs' == fs.(count := fs'.count) && OnlyOn(Spine(c), fs.count, fs'.count)
    ensures SubRep(fs', n, c.p, Leaf(n))
  {
    SpineAround(c);
  }

  lemma OnlyKeys(spine: set<Ptr>, count: map<Ptr, int>, count': map<Ptr, int>)
    requires OnlyOn(spine, count, count')
    ensures count'.Keys == count.Keys
  { }

  /** The path of a place is that of its context. */
  lemma {:induction false} PathOf(c: Context, t: Tree, path: Path, n: Ptr)
    requires ContainsAt(t, path, n)
    ensures CombinePath(ContextAt(c, t, path), Here) == CombinePath(c, path)
    decreases path
  {
    match path {
      case Here =>
      case Left(rest) => PathOf(LeftOf(c, t.p, t.right), t.left, rest, n);
      case Right(rest) => PathOf(RightOf(c, t.p, t.left), t.right, rest, n);
    }
  }

  /** The context of a missing child of the node at `path`. */
  ghost function HoleAt(t: Tree, path: Path, leftSide: bool): Context
    requires SubtreeAt(t, path).Node?
  {
    var c, s := ContextAt(Root, t, path), SubtreeAt(t, path);
    if leftSide then LeftOf(c, s.p, s.right) else RightOf(c, s.p, s.left)
  }

  ghost predicate MissesChild(t: Tree, path: Path, node: Ptr, leftSide: bool) {
    && ContainsAt(t, path, node) && SubtreeAt(t, path).Node?
    && (if leftSide then SubtreeAt(t, path).left.Empty? else SubtreeAt(t, path).right.Empty?)
  }

  /** Everything about the place where a leaf is to be added. */
  lemma AtHole(fs: Fields, t: Tree, path: Path, node: Ptr, leftSide: bool)
    requires Distinct(t) && SubRep(fs, RootOf(t), NULL, t) && MissesChild(t, path, node, leftSide)
    ensures var c := HoleAt(t, path, leftSide);
            && c.p == node && Has(fs, node) && Without(c) == SubtreeAt(t, path)
            && SubRep(fs, node, fs.parent[node], Without(c))
            && CtxRep(fs, node, fs.parent[node], TCount(Without(c)), c.up)
            && Combine(c, Empty) == t && DistinctAround(c) && Around(c) == Nodes(t) && CCount(c) == TCount(t)
  {
    GoToDescendant(fs, RootOf(t), NULL, Root, t, path, node);
    CombineAt(Root, t, path);
    CombineParts(HoleAt(t, path, leftSide), Empty);
  }

  /** Filling the hole: the whole tree again, with the place it has. */
  lemma Filled(fs: Fields, c: Context, n: Ptr, t: Tree, path: Path, node: Ptr, leftSide: bool)
    requires MissesChild(t, path, node, leftSide) && c == HoleAt(t, path, leftSide) && c.p == node
    requires DistinctAround(c) && n !in Around(c) && CtxRep(fs, n, node, 1, c) && SubRep(fs, n, node, Leaf(n))
    ensures var t' := Combine(c, Leaf(n));
            && Distinct(t') && SubRep(fs, RootOf(t'), NULL, t') && Nodes(t') == Around(c) + {n}
            && TCount(t') == CCount(c) + 1
            && ContextAt(Root, t', path) == ContextAt(Root, t, path)
            && SubtreeAt(t', path) == (if leftSide then Node(node, Leaf(n), c.right) else Node(node, c.left, Leaf(n)))
  {
    var s := if leftSide then Node(node, Leaf(n), c.right) else Node(node, c.left, Leaf(n));
    GoToRoot(fs, n, node, c, Leaf(n));
    CombineParts(c, Leaf(n));
    PathOf(Root, t, path, node);
    Refocus(c.up, s, Here);
  }

  /** The other child of the parent is not the node itself. */
  lemma SideIsElsewhere(fs: Fields, c: Context, node: Ptr)
    requires !c.Root? && Has(fs, c.p) && node != NULL && node !in Around(c)
    requires SubRep(fs, if c.LeftOf? then fs.right[c.p] else fs.left[c.p], c.p, Side(c))
    ensures (if c.LeftOf? then fs.right[c.p] else fs.left[c.p]) != node
  {
    if Side(c).Node? { assert Side(c).p in Nodes(Side(c)); }
  }
}
