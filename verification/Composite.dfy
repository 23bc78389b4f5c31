/** Trees whose nodes cache the size of their subtree: a node is added below any
    node, and the counts of its ancestors are repaired upwards. */
module Composite {
  import opened Pointers

  /** A list of siblings, each with its children: `first` are the children of the
      first sibling, `next` are its later siblings. */
  datatype Kids = None | Kid(p: Ptr, first: Kids, next: Kids)

  function Nodes(t: Kids): set<Ptr> {
    match t
    case None => {}
    case Kid(p, f, n) => {p} + Nodes(f) + Nodes(n)
  }

  function Size(t: Kids): nat {
    match t
    case None => 0
    case Kid(p, f, n) => 1 + Size(f) + Size(n)
  }

  /** No node is there twice. */
  predicate Distinct(t: Kids) {
    match t
    case None => true
    case Kid(p, f, n) => p !in Nodes(f) && p !in Nodes(n) && Nodes(f) !! Nodes(n) && Distinct(f) && Distinct(n)
  }

  /** The tree with `n` as a new first child of `x`. */
  function Insert(t: Kids, x: Ptr, n: Ptr): Kids {
    match t
    case None => None
    case Kid(p, f, s) =>
      if p == x then Kid(p, Kid(n, None, f), s)
      else if x in Nodes(f) then Kid(p, Insert(f, x, n), s)
      else Kid(p, f, Insert(s, x, n))
  }

  /** The node `x` and its ancestors, from `x` up. */
  function Up(t: Kids, x: Ptr): seq<Ptr> {
    match t
    case None => []
    case Kid(p, f, s) => if p == x then [p] else if x in Nodes(f) then Up(f, x) + [p] else Up(s, x)
  }

  function Second(path: seq<Ptr>): Ptr {
    if |path| < 2 then NULL else path[1]
  }

  /** The descendants of `x` and itself. */
  function Below(t: Kids, x: Ptr): set<Ptr> {
    match t
    case None => {}
    case Kid(p, f, s) => if p == x then {p} + Nodes(f) else if x in Nodes(f) then Below(f, x) else Below(s, x)
  }

  lemma {:induction false} InsertNodes(t: Kids, x: Ptr, n: Ptr)
    requires Distinct(t) && x in Nodes(t) && n !in Nodes(t)
    ensures Nodes(Insert(t, x, n)) == Nodes(t) + {n} && Distinct(Insert(t, x, n))
    ensures Size(Insert(t, x, n)) == Size(t) + 1
    decreases t
  {
    if t.p == x {
      var kid := Kid(n, None, t.first);
      assert Nodes(kid) == {n} + Nodes(t.first) && Size(kid) == 1 + Size(t.first) && Distinct(kid);
    } else if x in Nodes(t.first) {
      InsertNodes(t.first, x, n);
    } else {
      InsertNodes(t.next, x, n);
    }
  }

  lemma {:induction false} UpNodes(t: Kids, x: Ptr)
    requires Distinct(t) && x in Nodes(t)
    ensures Up(t, x) != [] && Up(t, x)[0] == x
    ensures forall q :: q in Up(t, x) ==> q in Nodes(t)
    ensures forall i, j :: 0 <= i < j < |Up(t, x)| ==> Up(t, x)[i] != Up(t, x)[j]
    decreases t
  {
    if t.p == x {
    } else if x in Nodes(t.first) {
      UpNodes(t.first, x);
    } else {
      UpNodes(t.next, x);
    }
  }

  lemma {:induction false} BelowNodes(t: Kids, q: Ptr)
    ensures Below(t, q) <= Nodes(t) && (q in Nodes(t) ==> q in Below(t, q)) && (q !in Nodes(t) ==> Below(t, q) == {})
    decreases t
  {
    if t.Kid? {
      BelowNodes(t.first, q);
      BelowNodes(t.next, q);
    }
  }

  /** The nodes on the way up from `x` are those that `x` is below. */
  lemma {:induction false} AncestorsContain(t: Kids, x: Ptr, q: Ptr)
    requires Distinct(t) && x in Nodes(t)
    ensures q in Up(t, x) <==> x in Below(t, q)
    decreases t
  {
    BelowNodes(t.first, q);
    BelowNodes(t.next, q);
    UpNodes(t, x);
    if t.p != x {
      if x in Nodes(t.first) {
        AncestorsContain(t.first, x, q);
        UpNodes(t.first, x);
      } else {
        AncestorsContain(t.next, x, q);
      }
    }
  }

  // ----- the representation -----

  datatype Fields = Fields(firstChild: map<Ptr, Ptr>, nextSibling: map<Ptr, Ptr>, parent: map<Ptr, Ptr>,
                           count: map<Ptr, int>)

  predicate Has(fs: Fields, p: Ptr) {
    p in fs.firstChild && p in fs.nextSibling && p in fs.parent && p in fs.count
  }

  /** The fields represent the siblings `t`, whose first is `head` and whose parent is `up`. */
  ghost predicate Rep(fs: Fields, head: Ptr, up: Ptr, t: Kids)
    decreases t
  {
    match t
    case None => head == NULL
    case Kid(p, f, s) =>
      && head == p && p != NULL && Has(fs, p) && fs.parent[p] == up && fs.count[p] == 1 + Size(f)
      && Rep(fs, fs.firstChild[p], p, f) && Rep(fs, fs.nextSibling[p], up, s)
  }

  ghost predicate Agree(fs: Fields, fs': Fields, q: Ptr) {
    Has(fs, q) ==>
      && Has(fs', q) && fs'.firstChild[q] == fs.firstChild[q] && fs'.nextSibling[q] == fs.nextSibling[q]
      && fs'.parent[q] == fs.parent[q] && fs'.count[q] == fs.count[q]
  }

  lemma {:induction false} RepFrame(fs: Fields, fs': Fields, head: Ptr, up: Ptr, t: Kids)
    requires Rep(fs, head, up, t) && forall q :: q in Nodes(t) ==> Agree(fs, fs', q)
    ensures Rep(fs', head, up, t)
    decreases t
  {
    if t.Kid? {
      assert Agree(fs, fs', t.p);
      RepFrame(fs, fs', fs.firstChild[t.p], t.p, t.first);
      RepFrame(fs, fs', fs.nextSibling[t.p], up, t.next);
    }
  }

  /** `fs'` is `fs` with a new leaf `n` as first child of `x` and the counts of `path`
      one higher. */
  ghost predicate Grown(fs: Fields, fs': Fields, x: Ptr, n: Ptr, path: seq<Ptr>) {
    && x in fs.firstChild && Has(fs', n)
    && fs'.firstChild[n] == NULL && fs'.nextSibling[n] == fs.firstChild[x] && fs'.parent[n] == x && fs'.count[n] == 1
    && forall q :: q != n && Has(fs, q) ==> GrownAt(fs, fs', x, n, path, q)
  }

  ghost predicate GrownAt(fs: Fields, fs': Fields, x: Ptr, n: Ptr, path: seq<Ptr>, q: Ptr)
    requires Has(fs, q)
  {
    && Has(fs', q) && fs'.firstChild[q] == (if q == x then n else fs.firstChild[q])
    && fs'.nextSibling[q] == fs.nextSibling[q] && fs'.parent[q] == fs.parent[q]
    && fs'.count[q] == fs.count[q] + if q in path then 1 else 0
  }

  lemma {:induction false} InsertRep(fs: Fields, fs': Fields, head: Ptr, up: Ptr, t: Kids, x: Ptr, n: Ptr,
                                     path: seq<Ptr>)
    requires Rep(fs, head, up, t) && Distinct(t) && x in Nodes(t) && n !in Nodes(t) && n != NULL
    requires Grown(fs, fs', x, n, path) && forall q :: q in Nodes(t) ==> (q in path <==> q in Up(t, x))
    ensures Rep(fs', head, up, Insert(t, x, n))
    decreases t
  {
    var p := t.p;
    assert GrownAt(fs, fs', x, n, path, p);
    UpNodes(t, x);
    if p == x {
      Unchanged(fs, fs', fs.firstChild[p], p, t.first, x, n, path);
      Unchanged(fs, fs', fs.nextSibling[p], up, t.next, x, n, path);
    } else if x in Nodes(t.first) {
      UpNodes(t.first, x);
      InsertNodes(t.first, x, n);
      InsertRep(fs, fs', fs.firstChild[p], p, t.first, x, n, path);
      Unchanged(fs, fs', fs.nextSibling[p], up, t.next, x, n, path);
    } else {
      UpNodes(t.next, x);
      InsertRep(fs, fs', fs.nextSibling[p], up, t.next, x, n, path);
      Unchanged(fs, fs', fs.firstChild[p], p, t.first, x, n, path);
    }
  }

  lemma Unchanged(fs: Fields, fs': Fields, head: Ptr, up: Ptr, t: Kids, x: Ptr, n: Ptr, path: seq<Ptr>)
    requires Rep(fs, head, up, t) && Grown(fs, fs', x, n, path) && x !in Nodes(t) && n !in Nodes(t)
    requires forall q :: q in Nodes(t) ==> q !in path
    ensures Rep(fs', head, up, t)
  {
    forall q | q in Nodes(t) ensures Agree(fs, fs', q) {
      if Has(fs, q) { assert GrownAt(fs, fs', x, n, path, q); }
    }
    RepFrame(fs, fs', head, up, t);
  }

  // ----- climbing -----

  /** Following the parents from the first of `path` goes through `path` and then to `top`. */
  ghost predicate Climbs(parent: map<Ptr, Ptr>, path: seq<Ptr>, top: Ptr)
    decreases |path|
  {
    path != [] ==>
      && path[0] != NULL && path[0] in parent && parent[path[0]] == (if |path| == 1 then top else path[1])
      && Climbs(parent, path[1..], top)
  }

  lemma {:induction false} ClimbsAppend(parent: map<Ptr, Ptr>, path: seq<Ptr>, p: Ptr, top: Ptr)
    requires path != [] && Climbs(parent, path, p) && p != NULL && p in parent && parent[p] == top
    ensures Climbs(parent, path + [p], top)
    decreases |path|
  {
    assert (path + [p])[1..] == path[1..] + [p];
    if |path| > 1 {
      ClimbsAppend(parent, path[1..], p, top);
    } else {
      assert path[1..] + [p] == [p];
      assert [p][1..] == [];
    }
  }

  /** The parent fields lead from a node through its ancestors out of the tree. */
  lemma {:induction false} UpClimbs(fs: Fields, head: Ptr, up: Ptr, t: Kids, x: Ptr)
    requires Rep(fs, head, up, t) && Distinct(t) && x in Nodes(t)
    ensures Climbs(fs.parent, Up(t, x), up)
    decreases t
  {
    UpNodes(t, x);
    if t.p == x {
      assert [x][1..] == [];
    } else if x in Nodes(t.first) {
      UpNodes(t.first, x);
      UpClimbs(fs, fs.firstChild[t.p], t.p, t.first, x);
      ClimbsAppend(fs.parent, Up(t.first, x), t.p, up);
    } else {
      UpClimbs(fs, fs.nextSibling[t.p], up, t.next, x);
    }
  }

  /** The counts with those along `path` raised. */
  function Raised(count: map<Ptr, int>, path: seq<Ptr>, delta: int): map<Ptr, int>
    decreases |path|
  {
    if path == [] then count
    else Raised(count[path[0] := (if path[0] in count then count[path[0]] else 0) + delta], path[1..], delta)
  }

  lemma {:induction false} RaisedMeans(count: map<Ptr, int>, path: seq<Ptr>, delta: int)
    requires (forall q :: q in path ==> q in count) && forall i, j :: 0 <= i < j < |path| ==> path[i] != path[j]
    ensures Raised(count, path, delta).Keys == count.Keys
    ensures forall q :: q in count ==> Raised(count, path, delta)[q] == count[q] + if q in path then delta else 0
    decreases |path|
  {
    if path != [] {
      var p := path[0];
      var count' := count[p := count[p] + delta];
      assert count'.Keys == count.Keys;
      assert p !in path[1..];
      RaisedMeans(count', path[1..], delta);
      assert forall q :: q in path <==> q == p || q in path[1..];
    }
  }

  lemma {:induction false} RepHas(fs: Fields, head: Ptr, up: Ptr, t: Kids, x: Ptr)
    requires Rep(fs, head, up, t) && x in Nodes(t)
    ensures Has(fs, x) && x != NULL
    decreases t
  {
    if x == t.p {
    } else if x in Nodes(t.first) {
      RepHas(fs, fs.firstChild[t.p], t.p, t.first, x);
    } else {
      RepHas(fs, fs.nextSibling[t.p], up, t.next, x);
    }
  }

  /** The cached count of any node is the number of its descendants, itself included. */
  lemma {:induction false} CountIsSize(fs: Fields, head: Ptr, up: Ptr, t: Kids, x: Ptr)
    requires Rep(fs, head, up, t) && Distinct(t) && x in Nodes(t)
    ensures Has(fs, x) && fs.count[x] == |Below(t, x)|
    decreases t
  {
    if t.p == x {
      SizeIsCardinality(t.first);
    } else if x in Nodes(t.first) {
      CountIsSize(fs, fs.firstChild[t.p], t.p, t.first, x);
    } else {
      CountIsSize(fs, fs.nextSibling[t.p], up, t.next, x);
    }
  }

  lemma {:induction false} SizeIsCardinality(t: Kids)
    requires Distinct(t)
    ensures Size(t) == |Nodes(t)|
    decreases t
  {
    if t.Kid? {
      SizeIsCardinality(t.first);
      SizeIsCardinality(t.next);
      assert |Nodes(t.first) + Nodes(t.next)| == |Nodes(t.first)| + |Nodes(t.next)|;
      assert Nodes(t) == {t.p} + (Nodes(t.first) + Nodes(t.next));
    }
  }

  // ----- the operations -----

  class Tree {
    var firstChild: map<Ptr, Ptr>
    var nextSibling: map<Ptr, Ptr>
    var parent: map<Ptr, Ptr>
    var count: map<Ptr, int>
    ghost var root: Ptr
    ghost var tree: Kids

    ghost function Now(): Fields reads this { Fields(firstChild, nextSibling, parent, count) }

    ghost predicate Valid() reads this {
      && Distinct(tree) && Rep(Now(), root, NULL, tree) && root in Nodes(tree)
      && firstChild.Keys == nextSibling.Keys == parent.Keys == count.Keys == Nodes(tree)
    }

    /** `create_node`. */
    method CreateNode(p: Ptr, next: Ptr) returns (n: Ptr)
      requires firstChild.Keys == nextSibling.Keys == parent.Keys == count.Keys
      modifies this`firstChild, this`nextSibling, this`parent, this`count
      ensures n != NULL && n !in old(firstChild)
      ensures firstChild == old(firstChild)[n := NULL] && nextSibling == old(nextSibling)[n := next]
      ensures parent == old(parent)[n := p] && count == old(count)[n := 1]
    {
      ghost var m := UnusedAddress(firstChild.Keys);
      assert m != NULL && m !in firstChild;
      n :| n != NULL && n !in firstChild;
      firstChild := firstChild[n := NULL];
      nextSibling := nextSibling[n := next];
      parent := parent[n := p];
      count := count[n := 1];
    }

    /** Put a new node in front of the children of `node`. */
    method Link(node: Ptr) returns (n: Ptr)
      requires firstChild.Keys == nextSibling.Keys == parent.Keys == count.Keys && node in firstChild
      modifies this`firstChild, this`nextSibling, this`parent, this`count
      ensures n != NULL && n !in old(firstChild)
      ensures Now() == Fields(old(firstChild)[n := NULL][node := n], old(nextSibling)[n := old(firstChild)[node]],
                              old(parent)[n := node], old(count)[n := 1])
    {
      n := CreateNode(node, firstChild[node]);
      firstChild := firstChild[node := n];
    }

    /** `create_tree`: a single node. */
    constructor ()
      ensures Valid() && tree == Kid(root, None, None)
    {
      firstChild, nextSibling, parent, count := map[], map[], map[], map[];
      new;
      var n := CreateNode(NULL, NULL);
      root, tree := n, Kid(n, None, None);
    }

    /** `add_to_count`: goes up from `p`; the parents end, so it does. */
    method AddToCount(p: Ptr, delta: int, ghost path: seq<Ptr>)
      requires path != [] && path[0] == p && Climbs(parent, path, NULL) && forall q :: q in path ==> q in count
      modifies this`count
      ensures count == Raised(old(count), path, delta)
      decreases |path|
    {
      var pp := parent[p];
      assert |path| > 1 ==> path[1..][0] == path[1];
      if pp == NULL {
        count := count[p := count[p] + delta];
        assert path[1..] == [];
      } else {
        count := count[p := count[p] + delta];
        AddToCount(pp, delta, path[1..]);
      }
    }

    /** `tree_add`: a new first child of any node. The counts of the node and its
        ancestors go up by one and no other count changes. */
    method TreeAdd(node: Ptr) returns (n: Ptr)
      requires Valid() && node in Nodes(tree)
      modifies this
      ensures Valid() && n !in Nodes(old(tree)) && tree == Insert(old(tree), node, n) && root == old(root)
      ensures forall q :: q in old(count) ==>
                q in count && count[q] == old(count[q]) + if q in Up(old(tree), node) then 1 else 0
      ensures parent == old(parent)[n := node] && firstChild == old(firstChild)[n := NULL][node := n]
      ensures nextSibling == old(nextSibling)[n := old(firstChild)[node]]
    {
      hide Rep, Distinct, Insert, Raised, Climbs, Nodes;
      ghost var fs, path := Now(), Up(tree, node);
      Way(fs, root, tree, node);
      n := Link(node);
      ghost var linked := Now();
      ClimbsFrame(fs.parent, parent, path, NULL);
      AddToCount(node, 1, path);
      Added(fs, linked, Now(), root, tree, node, n);
      tree := Insert(tree, node, n);
    }

    /** `tree_get_parent`: the next on the way up, or null for the root. */
    method TreeGetParent(node: Ptr) returns (p: Ptr)
      requires Valid() && node in Nodes(tree)
      ensures p == Second(Up(tree, node))
    {
      UpNodes(tree, node);
      UpClimbs(Now(), root, NULL, tree, node);
      p := parent[node];
    }

    /** In every state a cached count is the size of the subtree. */
    lemma CountsAreRight(node: Ptr)
      requires Valid() && node in Nodes(tree)
      ensures node in count && count[node] == |Below(tree, node)|
    {
      CountIsSize(Now(), root, NULL, tree, node);
    }
  }

  lemma {:induction false} ClimbsFrame(parent: map<Ptr, Ptr>, parent': map<Ptr, Ptr>, path: seq<Ptr>, top: Ptr)
    requires Climbs(parent, path, top)
    requires forall q :: q in path && q in parent ==> q in parent' && parent'[q] == parent[q]
    ensures Climbs(parent', path, top)
    decreases |path|
  {
    if path != [] { ClimbsFrame(parent, parent', path[1..], top); }
  }

  /** The way up from a node. */
  lemma Way(fs: Fields, root: Ptr, t: Kids, x: Ptr)
    requires Distinct(t) && Rep(fs, root, NULL, t) && x in Nodes(t)
    ensures Has(fs, x) && Up(t, x) != [] && Up(t, x)[0] == x && Climbs(fs.parent, Up(t, x), NULL)
    ensures forall q :: q in Up(t, x) ==> q in Nodes(t)
  {
    UpNodes(t, x);
    UpClimbs(fs, root, NULL, t, x);
    RepHas(fs, root, NULL, t, x);
  }

  /** Linking a new leaf and raising the counts on the way up is insertion. */
  lemma Added(fs: Fields, linked: Fields, fs': Fields, root: Ptr, t: Kids, x: Ptr, n: Ptr)
    requires Distinct(t) && Rep(fs, root, NULL, t) && x in Nodes(t) && n !in Nodes(t) && n != NULL && x in fs.firstChild
    requires fs.firstChild.Keys == fs.count.Keys == Nodes(t)
    requires linked == Fields(fs.firstChild[n := NULL][x := n], fs.nextSibling[n := fs.firstChild[x]],
                              fs.parent[n := x], fs.count[n := 1])
    requires fs' == linked.(count := Raised(linked.count, Up(t, x), 1))
    ensures Distinct(Insert(t, x, n)) && Rep(fs', root, NULL, Insert(t, x, n))
    ensures Nodes(Insert(t, x, n)) == Nodes(t) + {n}
    ensures fs'.count.Keys == Nodes(t) + {n}
    ensures forall q :: q in fs.count ==> q in fs'.count && fs'.count[q] == fs.count[q] + if q in Up(t, x) then 1 else 0
  {
    hide Rep, Distinct, Insert, Up, Raised, Nodes;
    UpNodes(t, x);
    RaisedMeans(linked.count, Up(t, x), 1);
    GrownNow(fs, fs', x, n, Up(t, x), linked.count);
    InsertRep(fs, fs', root, NULL, t, x, n, Up(t, x));
    InsertNodes(t, x, n);
  }

  lemma GrownNow(fs: Fields, fs': Fields, x: Ptr, n: Ptr, path: seq<Ptr>, counted: map<Ptr, int>)
    requires x in fs.firstChild && x != n && n !in path && n !in fs.firstChild
    requires fs'.firstChild == fs.firstChild[n := NULL][x := n]
    requires fs'.nextSibling == fs.nextSibling[n := fs.firstChild[x]]
    requires fs'.parent == fs.parent[n := x] && counted == fs.count[n := 1] && fs'.count.Keys == counted.Keys
    requires forall q :: q in counted ==> fs'.count[q] == counted[q] + if q in path then 1 else 0
    ensures Grown(fs, fs', x, n, path)
  {
    forall q | q != n && Has(fs, q) ensures GrownAt(fs, fs', x, n, path, q) {
      assert q in counted;
    }
  }
}
