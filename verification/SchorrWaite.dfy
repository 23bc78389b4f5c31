/** The two-child marking loop, on any graph: cycles, sharing and missing children. */
module SchorrWaite {
  import opened Pointers
  import opened Marking

  /** Each node's children, left then right. */
  ghost function TwoChildGraph(l: map<Ptr, Ptr>, r: map<Ptr, Ptr>): Graph {
    map p | p in l && p in r :: [l[p], r[p]]
  }

  /** A spine node explores its right child exactly when its `c` bit is set. */
  ghost predicate BitsMatch(sp: Spine, c: set<Ptr>) {
    match sp
    case Bottom => true
    case Node(p, i, below) => i < 2 && (p in c <==> i == 1) && BitsMatch(below, c)
  }

  lemma {:induction false} BitsElsewhere(sp: Spine, c: set<Ptr>, c': set<Ptr>, p: Ptr)
    requires BitsMatch(sp, c) && p !in Nodes(sp)
    requires forall x :: x != p ==> (x in c <==> x in c')
    ensures BitsMatch(sp, c')
  {
    if sp.Node? { BitsElsewhere(sp.below, c, c', p); }
  }

  lemma StoreLeft(l: map<Ptr, Ptr>, r: map<Ptr, Ptr>, p: Ptr, x: Ptr)
    requires p in l && p in r
    ensures TwoChildGraph(l[p := x], r) == TwoChildGraph(l, r)[p := Put(TwoChildGraph(l, r)[p], 0, x)]
  {
    assert [x, r[p]] == Put([l[p], r[p]], 0, x);
  }

  lemma StoreRight(l: map<Ptr, Ptr>, r: map<Ptr, Ptr>, p: Ptr, x: Ptr)
    requires p in l && p in r
    ensures TwoChildGraph(l, r[p := x]) == TwoChildGraph(l, r)[p := Put(TwoChildGraph(l, r)[p], 1, x)]
  {
    assert [l[p], x] == Put([l[p], r[p]], 1, x);
  }

  /** What holds at the head of the loop; the spine `sp` is what `p` stands for. */
  ghost predicate LoopInv(g0: Graph, m0: set<Ptr>, reach: set<Ptr>, root: Ptr, sp: Spine,
                          l: map<Ptr, Ptr>, r: map<Ptr, Ptr>, m: set<Ptr>, c: set<Ptr>, t: Ptr, p: Ptr) {
    && l.Keys == r.Keys && p == Top(sp) && BitsMatch(sp, c)
    && MarkInv(g0, m0, reach, root, sp, TwoChildGraph(l, r), m, t)
  }

  lemma PopKeeps(g0: Graph, m0: set<Ptr>, reach: set<Ptr>, root: Ptr, sp: Spine,
                 l: map<Ptr, Ptr>, r: map<Ptr, Ptr>, m: set<Ptr>, c: set<Ptr>, t: Ptr, p: Ptr)
    requires LoopInv(g0, m0, reach, root, sp, l, r, m, c, t, p) && p != NULL && Finished(t, m) && p in c
    ensures sp.Node? && p in r && SlotsLeft(g0, sp.below) < SlotsLeft(g0, sp)
    ensures LoopInv(g0, m0, reach, root, sp.below, l, r[p := t], m, c, p, r[p])
  {
    var g := TwoChildGraph(l, r);
    ReversedElsewhere(g0, root, sp, t);
    Swing(g0, m0, reach, root, sp, g, m, t);
    Ascend(g0, m0, reach, root, sp, g, m, t);
    StoreRight(l, r, p, t);
  }

  lemma SwingKeeps(g0: Graph, m0: set<Ptr>, reach: set<Ptr>, root: Ptr, sp: Spine,
                   l: map<Ptr, Ptr>, r: map<Ptr, Ptr>, m: set<Ptr>, c: set<Ptr>, t: Ptr, p: Ptr)
    requires LoopInv(g0, m0, reach, root, sp, l, r, m, c, t, p) && p != NULL && Finished(t, m) && p !in c
    ensures sp.Node? && p in r && SlotsLeft(g0, sp.(slot := 1)) < SlotsLeft(g0, sp)
    ensures LoopInv(g0, m0, reach, root, sp.(slot := 1), l[p := t], r[p := l[p]], m, c + {p}, r[p], p)
  {
    var g := TwoChildGraph(l, r);
    ReversedElsewhere(g0, root, sp, t);
    Swing(g0, m0, reach, root, sp, g, m, t);
    BitsElsewhere(sp.below, c, c + {p}, p);
    StoreLeft(l, r, p, t);
    StoreRight(l[p := t], r, p, l[p]);
    assert TwoChildGraph(l[p := t], r[p := l[p]]) == g[p := Put(Put(g[p], 0, t), 1, g[p][0])];
  }

  lemma PushKeeps(g0: Graph, m0: set<Ptr>, reach: set<Ptr>, root: Ptr, sp: Spine,
                  l: map<Ptr, Ptr>, r: map<Ptr, Ptr>, m: set<Ptr>, c: set<Ptr>, t: Ptr, p: Ptr)
    requires LoopInv(g0, m0, reach, root, sp, l, r, m, c, t, p) && t != NULL && t !in m
    ensures t in l && t in g0
    ensures LoopInv(g0, m0, reach, root, Node(t, 0, sp), l[t := p], r, m + {t}, c - {t}, l[t], t)
  {
    var g := TwoChildGraph(l, r);
    ReversedElsewhere(g0, root, sp, t);
    Descend(g0, m0, reach, root, sp, g, m, t);
    SpineMarkedMore(g0, sp, m, m);
    BitsElsewhere(sp, c, c - {t}, t);
    StoreLeft(l, r, t, p);
  }

  lemma SameFields(l: map<Ptr, Ptr>, r: map<Ptr, Ptr>, l0: map<Ptr, Ptr>, r0: map<Ptr, Ptr>)
    requires l.Keys == r.Keys && l0.Keys == r0.Keys && TwoChildGraph(l, r) == TwoChildGraph(l0, r0)
    ensures l == l0 && r == r0
  {
    var g := TwoChildGraph(l, r);
    assert l.Keys == g.Keys == l0.Keys;
    forall x | x in l ensures l[x] == l0[x] && r[x] == r0[x] {
      assert g[x][0] == l[x] && g[x][1] == r[x];
    }
  }

  /** The set closed under both child fields. */
  ghost predicate FieldsInside(l: map<Ptr, Ptr>, r: map<Ptr, Ptr>, s: set<Ptr>) {
    forall p :: p in s && p in l && p in r ==> (l[p] == NULL || l[p] in s) && (r[p] == NULL || r[p] in s)
  }

  /** What is to be marked has the root and the old marks, has both children of each of
      its nodes, and is the least such set. */
  lemma MarkIsLeast(l: map<Ptr, Ptr>, r: map<Ptr, Ptr>, m: set<Ptr>, root: Ptr, s: set<Ptr>)
    requires l.Keys == r.Keys && Closed(TwoChildGraph(l, r)) && FieldsInside(l, r, m) && root in l
    ensures var all := MarkSpec(TwoChildGraph(l, r), m, root);
            && root in all && m <= all && FieldsInside(l, r, all)
            && (root in s && m <= s && FieldsInside(l, r, s) ==> all <= s)
  {
    var g := TwoChildGraph(l, r);
    assert forall p :: p in g ==> l[p] in g[p] && r[p] in g[p] by {
      assert forall p :: p in g ==> g[p][0] == l[p] && g[p][1] == r[p];
    }
    ReachableSelf(g, root);
    ReachSetIsClosed(g, root);
    if root in s && m <= s && FieldsInside(l, r, s) { ReachSetInside(g, s, root); }
  }

  /** The fields of all nodes; a bool field is the set of nodes in which it is true. */
  class Heap {
    var m: set<Ptr>
    var c: set<Ptr>
    var l: map<Ptr, Ptr>
    var r: map<Ptr, Ptr>

    ghost function Children(): Graph reads this { TwoChildGraph(l, r) }

    method Mark(root: Ptr)
      requires l.Keys == r.Keys && Closed(Children())
      requires root == NULL || root in l
      requires ClosedSet(Children(), m)
      modifies this
      ensures l == old(l) && r == old(r)
      ensures m == MarkSpec(old(Children()), old(m), root)
    {
      var t, p := root, NULL;
      ghost var g0, m0, sp := Children(), m, Bottom;
      ghost var reach := ReachSet(g0, root);
      StartRun(g0, m, root);
      while p != NULL || (t != NULL && t !in m)
        invariant LoopInv(g0, m0, reach, root, sp, l, r, m, c, t, p)
        decreases g0.Keys - m, SlotsLeft(g0, sp)
      {
        if t == NULL || t in m {
          if p in c { // pop
            PopKeeps(g0, m0, reach, root, sp, l, r, m, c, t, p);
            var q := t;
            t := p;
            p := r[p];
            r := r[t := q];
            sp := sp.below;
          } else { // swing
            SwingKeeps(g0, m0, reach, root, sp, l, r, m, c, t, p);
            var q := t;
            t := r[p];
            r := r[p := l[p]];
            l := l[p := q];
            c := c + {p};
            sp := sp.(slot := 1);
          }
        } else { // push
          PushKeeps(g0, m0, reach, root, sp, l, r, m, c, t, p);
          var q := p;
          p := t;
          t := l[t];
          l := l[p := q];
          m := m + {p};
          c := c - {p};
          sp := Node(p, 0, sp);
        }
      }
      EndRun(g0, m0, root, sp, Children(), m, t);
      SameFields(l, r, old(l), old(r));
    }
  }
}
