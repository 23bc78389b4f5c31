/** How much memory values need: what a root reaches is no more objects than the tree
    of its value has nodes. */
module Weights {
  import opened Language
  import opened Pointers
  import opened LinkedLists
  import opened Marking
  import opened Objects

  /** The nodes of all rooted values. */
  ghost function Weigh(roots: seq<Ptr>, val: map<Ptr, Value>): nat {
    if roots == [] then 0 else (if roots[0] in val then Weight(val[roots[0]]) else 0) + Weigh(roots[1..], val)
  }

  lemma {:induction false} WeighAppend(roots: seq<Ptr>, p: Ptr, val: map<Ptr, Value>)
    requires p in val
    ensures Weigh(roots + [p], val) == Weigh(roots, val) + Weight(val[p])
    decreases |roots|
  {
    if roots == [] {
      assert [] + [p] == [p] && [p][1..] == [];
    } else {
      assert (roots + [p])[1..] == roots[1..] + [p];
      WeighAppend(roots[1..], p, val);
    }
  }

  /** Rooted values that stay weigh the same. */
  lemma {:induction false} WeighKept(roots: seq<Ptr>, val0: map<Ptr, Value>, val: map<Ptr, Value>)
    requires KeepsRoots(roots, val0, roots, val, {})
    ensures Weigh(roots, val) == Weigh(roots, val0)
    decreases |roots|
  {
    if roots != [] {
      forall i | 0 <= i < |roots[1..]| ensures roots[1..][i] == roots[i + 1] { }
      WeighKept(roots[1..], val0, val);
    }
  }

  /** Changing one slot changes the weight by the difference. */
  lemma {:induction false} WeighSlot(roots0: seq<Ptr>, val0: map<Ptr, Value>, roots: seq<Ptr>, val: map<Ptr, Value>,
                                     slot: nat)
    requires KeepsRoots(roots0, val0, roots, val, {slot}) && slot < |roots| && roots0[slot] in val0
    requires roots[slot] in val
    ensures Weigh(roots, val) + Weight(val0[roots0[slot]]) == Weigh(roots0, val0) + Weight(val[roots[slot]])
    decreases |roots|
  {
    var r0, r := roots0[1..], roots[1..];
    assert forall i :: 0 <= i < |r| ==> r[i] == roots[i + 1] && r0[i] == roots0[i + 1];
    if slot == 0 {
      assert r == r0;
      WeighKept(r, val0, val);
    } else {
      assert roots[0] == roots0[0];
      WeighSlot(r0, val0, r, val, slot - 1);
    }
  }

  lemma {:induction false} RootWeight(roots: seq<Ptr>, val: map<Ptr, Value>, i: nat)
    requires i < |roots| && roots[i] in val
    ensures Weight(val[roots[i]]) <= Weigh(roots, val)
    decreases |roots|
  {
    if i > 0 { RootWeight(roots[1..], val, i - 1); }
  }

  /** An object reaches no more objects than its value has nodes. */
  lemma {:induction false} ReachBound(heap: Heap, val: map<Ptr, Value>, p: Ptr)
    requires Consistent(heap, val) && p in heap
    ensures |ReachSet(Kids(heap), p)| <= Weight(val[p])
    decreases Size(val[p])
  {
    ReadObject(heap, val, p);
    ConsistentIsWhole(heap, val);
    var g := Kids(heap);
    match heap[p] {
      case ConsBody(h, t) =>
        ReachBound(heap, val, h);
        ReachBound(heap, val, t);
        ReachStep(g, p, ReachSet(g, h) + ReachSet(g, t)) by {
          ReachableSelf(g, h);
          ReachableSelf(g, t);
          ReachSetIsClosed(g, h);
          ReachSetIsClosed(g, t);
          assert g[p] == [h, t];
        }
        UnionBound(ReachSet(g, h), ReachSet(g, t));
        UnionBound({p}, ReachSet(g, h) + ReachSet(g, t));
      case FunctionBody(_, d) =>
        ReachBound(heap, val, d);
        ReachStep(g, p, ReachSet(g, d)) by {
          ReachableSelf(g, d);
          ReachSetIsClosed(g, d);
          assert g[p] == [d];
        }
        UnionBound({p}, ReachSet(g, d));
      case _ =>
        ReachStep(g, p, {}) by { assert g[p] == []; }
        SubsetBound(ReachSet(g, p), {p});
    }
  }

  /** What is reached from `p` is `p` and what its children reach. */
  lemma ReachStep(g: Graph, p: Ptr, s: set<Ptr>)
    requires Closed(g) && p in g && ClosedSet(g, s) && forall c :: c in g[p] && c != NULL ==> c in s
    ensures ReachSet(g, p) <= {p} + s && |ReachSet(g, p)| <= |{p} + s|
  {
    ReachSetInside(g, {p} + s, p);
    SubsetBound(ReachSet(g, p), {p} + s);
  }

  lemma {:induction false} SubsetBound(a: set<Ptr>, b: set<Ptr>)
    requires a <= b
    ensures |a| <= |b|
    decreases |a|
  {
    if x :| x in a { SubsetBound(a - {x}, b - {x}); }
  }

  lemma UnionBound(a: set<Ptr>, b: set<Ptr>)
    ensures |a + b| <= |a| + |b|
  {
    assert a + b == a + (b - a);
    SubsetBound(b - a, b);
  }

  /** The live objects are no more than the nodes of the rooted values. */
  lemma {:induction false} LiveBound(heap: Heap, val: map<Ptr, Value>, roots: seq<Ptr>)
    requires Consistent(heap, val) && forall i :: 0 <= i < |roots| ==> roots[i] in heap
    ensures |Live(heap, roots)| <= Weigh(roots, val)
    decreases |roots|
  {
    if roots != [] {
      LiveBound(heap, val, roots[1..]);
      ReachBound(heap, val, roots[0]);
      UnionBound(Live(heap, roots[1..]), ReachSet(Kids(heap), roots[0]));
    }
  }

  lemma {:induction false} ElemsSize(s: seq<Ptr>)
    requires Distinct(s)
    ensures |Elems(s)| == |s|
    decreases |s|
  {
    if s != [] {
      ElemsSize(s[1..]);
      ElemsIn(s[1..], s[0]);
    }
  }
}
