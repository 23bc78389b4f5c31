/** Graph marking by pointer reversal, independent of how nodes are laid out.
    A graph maps each node to its child slots; the null pointer 0 is an empty slot. */
module Marking {

  import opened Pointers
  type Graph = map<Ptr, seq<Ptr>>

  ghost predicate Closed(g: Graph) {
    NULL !in g && forall p, c :: p in g && c in g[p] ==> c == NULL || c in g
  }

  /** Each node of `path` is a child of the one before it. */
  ghost predicate IsPath(g: Graph, path: seq<Ptr>)
    decreases |path|
  {
    path != [] && path[0] in g && (|path| > 1 ==> path[1] in g[path[0]] && IsPath(g, path[1..]))
  }

  ghost predicate Reachable(g: Graph, a: Ptr, b: Ptr) {
    exists path :: IsPath(g, path) && path[0] == a && path[|path| - 1] == b
  }

  ghost function ReachSet(g: Graph, a: Ptr): set<Ptr> {
    set b | b in g && Reachable(g, a, b)
  }

  /** A set closed under children. */
  ghost predicate ClosedSet(g: Graph, s: set<Ptr>) {
    forall p, c :: p in s && p in g && c in g[p] && c != NULL ==> c in s
  }

  lemma ReachableSelf(g: Graph, a: Ptr)
    requires a in g
    ensures a in ReachSet(g, a)
  {
    assert IsPath(g, [a]);
  }

  lemma {:induction false} PathAppend(g: Graph, path: seq<Ptr>, c: Ptr)
    requires IsPath(g, path) && path[|path| - 1] in g && c in g && c in g[path[|path| - 1]]
    ensures IsPath(g, path + [c])
    decreases |path|
  {
    assert (path + [c])[1..] == path[1..] + [c];
    if |path| == 1 {
      assert IsPath(g, [c]);
    } else {
      PathAppend(g, path[1..], c);
    }
  }

  lemma ReachSetIsClosed(g: Graph, a: Ptr)
    requires Closed(g)
    ensures ClosedSet(g, ReachSet(g, a))
  {
    forall p, c | p in ReachSet(g, a) && c in g[p] && c != NULL ensures c in ReachSet(g, a) {
      var path :| IsPath(g, path) && path[0] == a && path[|path| - 1] == p;
      PathAppend(g, path, c);
      assert (path + [c])[0] == a;
    }
  }

  lemma {:induction false} PathStaysInside(g: Graph, s: set<Ptr>, path: seq<Ptr>)
    requires Closed(g) && ClosedSet(g, s) && IsPath(g, path) && path[0] in s
    ensures path[|path| - 1] in s
    decreases |path|
  {
    if |path| > 1 {
      assert path[1] in g[path[0]];
      PathStaysInside(g, s, path[1..]);
    }
  }

  /** A closed set that holds the start holds everything reachable. */
  lemma ReachSetInside(g: Graph, s: set<Ptr>, a: Ptr)
    requires Closed(g) && ClosedSet(g, s) && (a in g ==> a in s)
    ensures ReachSet(g, a) <= s
  {
    forall b | b in ReachSet(g, a) ensures b in s {
      var path :| IsPath(g, path) && path[0] == a && path[|path| - 1] == b;
      PathStaysInside(g, s, path);
    }
  }

  /** What marking from `root` has to leave marked. */
  ghost function MarkSpec(g: Graph, marked: set<Ptr>, root: Ptr): set<Ptr> {
    marked + ReachSet(g, root)
  }

  /** Anything between the two bounds that is closed under children is the specified set. */
  lemma MarkedExactly(g: Graph, marked0: set<Ptr>, marked: set<Ptr>, root: Ptr)
    requires Closed(g) && marked0 <= marked <= MarkSpec(g, marked0, root)
    requires ClosedSet(g, marked) && (root in g ==> root in marked)
    ensures marked == MarkSpec(g, marked0, root)
  {
    ReachSetInside(g, marked, root);
  }

  // ----- the state of a run -----

  /** The nodes being visited, innermost first, each with the slot it waits for. */
  datatype Spine = Bottom | Node(p: Ptr, slot: nat, below: Spine)

  function Top(sp: Spine): Ptr {
    if sp.Bottom? then NULL else sp.p
  }

  function Nodes(sp: Spine): set<Ptr> {
    if sp.Bottom? then {} else {sp.p} + Nodes(sp.below)
  }

  /** Store a pointer in a child slot. */
  function Put(slots: seq<Ptr>, i: nat, p: Ptr): seq<Ptr>
    requires i < |slots|
  {
    slots[i := p]
  }

  /** In the original graph the spine is a path from `root` to `cur`. */
  ghost predicate Spanning(g0: Graph, root: Ptr, sp: Spine, cur: Ptr) {
    match sp
    case Bottom => cur == root
    case Node(p, i, below) =>
      p in g0 && i < |g0[p]| && g0[p][i] == cur && p !in Nodes(below) && Spanning(g0, root, below, p)
  }

  /** The graph with the spine's pointers reversed: the slot each node waits for
      holds the node it was entered from. */
  ghost function Reversed(g0: Graph, root: Ptr, sp: Spine, cur: Ptr): Graph
    requires Spanning(g0, root, sp, cur)
  {
    match sp
    case Bottom => g0
    case Node(p, i, below) => Reversed(g0, root, below, p)[p := Put(g0[p], i, Top(below))]
  }

  lemma {:induction false} ReversedElsewhere(g0: Graph, root: Ptr, sp: Spine, cur: Ptr)
    requires Spanning(g0, root, sp, cur)
    ensures Reversed(g0, root, sp, cur).Keys == g0.Keys && Nodes(sp) <= g0.Keys
    ensures forall x :: x in g0 && x !in Nodes(sp) ==> Reversed(g0, root, sp, cur)[x] == g0[x]
  {
    if sp.Node? { ReversedElsewhere(g0, root, sp.below, sp.p); }
  }

  predicate Finished(p: Ptr, marked: set<Ptr>) {
    p == NULL || p in marked
  }

  /** The slots a spine node has passed lead to marked nodes. */
  ghost predicate SpineMarked(g0: Graph, sp: Spine, marked: set<Ptr>) {
    match sp
    case Bottom => true
    case Node(p, i, below) =>
      && p in g0 && p in marked && i < |g0[p]|
      && (forall j :: 0 <= j < i ==> Finished(g0[p][j], marked))
      && SpineMarked(g0, below, marked)
  }

  lemma {:induction false} SpineMarkedMore(g0: Graph, sp: Spine, marked: set<Ptr>, more: set<Ptr>)
    requires SpineMarked(g0, sp, marked) && marked <= more
    ensures SpineMarked(g0, sp, more) && Nodes(sp) <= more
  {
    if sp.Node? { SpineMarkedMore(g0, sp.below, marked, more); }
  }

  /** Marked nodes off the spine have marked children. */
  ghost predicate Coloured(g0: Graph, sp: Spine, marked: set<Ptr>) {
    forall p, c :: p in g0 && p in marked && p !in Nodes(sp) && c in g0[p] ==> Finished(c, marked)
  }

  /** The invariant of both marking loops: `g` and `marked` are the present heap,
      `reach` is a closed set that bounds what may be marked. */
  ghost predicate MarkInv(g0: Graph, marked0: set<Ptr>, reach: set<Ptr>, root: Ptr, sp: Spine, g: Graph,
                          marked: set<Ptr>, cur: Ptr) {
    && Closed(g0) && ClosedSet(g0, reach) && reach <= g0.Keys
    && Spanning(g0, root, sp, cur) && g == Reversed(g0, root, sp, cur)
    && SpineMarked(g0, sp, marked) && Coloured(g0, sp, marked)
    && marked0 <= marked <= marked0 + reach
    && Nodes(sp) <= reach
    && (cur != NULL ==> cur in reach)
  }

  /** Child slots on the spine that are not finished yet. */
  ghost function SlotsLeft(g0: Graph, sp: Spine): nat {
    match sp
    case Bottom => 0
    case Node(p, i, below) =>
      (if p in g0 && i < |g0[p]| then |g0[p]| - i else 0) + SlotsLeft(g0, below)
  }

  // ----- the transitions -----

  lemma StartRun(g0: Graph, marked0: set<Ptr>, root: Ptr)
    requires Closed(g0) && ClosedSet(g0, marked0) && (root == NULL || root in g0)
    ensures MarkInv(g0, marked0, ReachSet(g0, root), root, Bottom, g0, marked0, root)
  {
    ReachSetIsClosed(g0, root);
    if root != NULL { ReachableSelf(g0, root); }
  }

  /** Descend into an unmarked node: its first slot takes the parent. */
  lemma {:induction false} Descend(g0: Graph, marked0: set<Ptr>, reach: set<Ptr>, root: Ptr, sp: Spine, g: Graph,
                                   marked: set<Ptr>, cur: Ptr)
    requires MarkInv(g0, marked0, reach, root, sp, g, marked, cur)
    requires cur != NULL && cur !in marked
    ensures cur in g && g[cur] == g0[cur]
    ensures g[cur] != [] ==>
              MarkInv(g0, marked0, reach, root, Node(cur, 0, sp), g[cur := Put(g[cur], 0, Top(sp))], marked + {cur},
                      g[cur][0])
    ensures g[cur] == [] ==> MarkInv(g0, marked0, reach, root, sp, g, marked + {cur}, cur)
  {
    ReversedElsewhere(g0, root, sp, cur);
    SpineMarkedMore(g0, sp, marked, marked + {cur});
    assert cur !in Nodes(sp) by { SpineMarkedMore(g0, sp, marked, marked); }
    forall p, c | p in g0 && p in marked && p !in Nodes(sp) && c in g0[p] ensures Finished(c, marked + {cur}) {
      assert Finished(c, marked);
    }
    if g0[cur] != [] { assert g0[cur][0] in g0[cur]; }
  }

  /** Move on to the next slot of the parent: restore the finished one, reverse the next. */
  lemma {:induction false} Swing(g0: Graph, marked0: set<Ptr>, reach: set<Ptr>, root: Ptr, sp: Spine, g: Graph,
                                 marked: set<Ptr>, cur: Ptr)
    requires MarkInv(g0, marked0, reach, root, sp, g, marked, cur)
    requires sp.Node? && Finished(cur, marked)
    ensures sp.p in g && |g[sp.p]| == |g0[sp.p]| && sp.slot < |g[sp.p]| && g[sp.p][sp.slot] == Top(sp.below)
    ensures var Node(p, i, below) := sp;
            var node := g[p];
            i + 1 < |node| ==>
              && MarkInv(g0, marked0, reach, root, Node(p, i + 1, below),
                         g[p := Put(Put(node, i, cur), i + 1, node[i])], marked, node[i + 1])
              && SlotsLeft(g0, Node(p, i + 1, below)) < SlotsLeft(g0, sp)
  {
    var Node(p, i, below) := sp;
    var node := g[p];
    if i + 1 < |node| {
      var sp' := Node(p, i + 1, below);
      ReversedElsewhere(g0, root, below, p);
      assert node[i := cur][i + 1 := node[i]] == g0[p][i + 1 := Top(below)];
      assert g0[p][i + 1] in g0[p];
    }
  }

  /** The last slot of the parent is finished: restore it and go back up. */
  lemma {:induction false} Ascend(g0: Graph, marked0: set<Ptr>, reach: set<Ptr>, root: Ptr, sp: Spine, g: Graph,
                                  marked: set<Ptr>, cur: Ptr)
    requires MarkInv(g0, marked0, reach, root, sp, g, marked, cur)
    requires sp.Node? && Finished(cur, marked) && sp.slot + 1 == |g0[sp.p]|
    ensures var Node(p, i, below) := sp;
            && MarkInv(g0, marked0, reach, root, below, g[p := Put(g[p], i, cur)], marked, p)
            && SlotsLeft(g0, below) < SlotsLeft(g0, sp)
            && p in marked
  {
    var Node(p, i, below) := sp;
    ReversedElsewhere(g0, root, below, p);
    assert g[p][i := cur] == g0[p];
    forall q, c | q in g0 && q in marked && q !in Nodes(below) && c in g0[q] ensures Finished(c, marked) {
      if q == p {
        var j :| 0 <= j < |g0[q]| && g0[q][j] == c;
      }
    }
  }

  /** Back at the root: every slot is restored and exactly the specified nodes are marked. */
  lemma {:induction false} EndRun(g0: Graph, marked0: set<Ptr>, root: Ptr, sp: Spine, g: Graph, marked: set<Ptr>,
                                  cur: Ptr)
    requires MarkInv(g0, marked0, ReachSet(g0, root), root, sp, g, marked, cur)
    requires Top(sp) == NULL && Finished(cur, marked)
    ensures g == g0 && marked == MarkSpec(g0, marked0, root)
  {
    assert sp.Bottom?;
    forall p, c | p in marked && p in g0 && c in g0[p] && c != NULL ensures c in marked {
      assert Finished(c, marked);
    }
    MarkedExactly(g0, marked0, marked, root);
  }
}
