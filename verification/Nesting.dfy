/** Values whose release nests as deep as they do: when nothing but a tower and the
    initial environments is referenced, no object of the tower is shared. */
module Nesting {
  import opened Language
  import opened Pointers
  import opened Marking
  import opened Objects
  import opened RefCount
  import opened Counting
  import opened Session
  import Weights

  /** Unshared means what it says: every object with fields that `p` leads to has just
      one reference. */
  lemma {:induction false} UnsharedMeans(heap: Heap, counts: multiset<Ptr>, val: map<Ptr, Value>, p: Ptr)
    requires Consistent(heap, val) && p in heap
    ensures Unshared(heap, counts, p, val[p]) <==> OnceEach(heap, counts, ReachSet(Kids(heap), p))
    decreases Size(val[p])
  {
    ReadObject(heap, val, p);
    ReachParts(heap, val, p);
    match heap[p] {
      case ConsBody(h, t) =>
        UnsharedMeans(heap, counts, val, h);
        UnsharedMeans(heap, counts, val, t);
      case FunctionBody(_, d) => UnsharedMeans(heap, counts, val, d);
      case _ =>
    }
  }

  ghost predicate OnceEach(heap: Heap, counts: multiset<Ptr>, objs: set<Ptr>) {
    forall q :: q in objs && q in heap && Children(heap[q]) != [] ==> counts[q] == 1
  }

  /** What an object reaches is itself and what its fields reach. */
  lemma ReachParts(heap: Heap, val: map<Ptr, Value>, p: Ptr)
    requires Consistent(heap, val) && p in heap
    ensures var g := Kids(heap);
            match heap[p]
            case ConsBody(h, t) => ReachSet(g, p) == {p} + ReachSet(g, h) + ReachSet(g, t)
            case FunctionBody(_, d) => ReachSet(g, p) == {p} + ReachSet(g, d)
            case _ => ReachSet(g, p) == {p}
  {
    ConsistentIsWhole(heap, val);
    ReadObject(heap, val, p);
    var g := Kids(heap);
    ReachableSelf(g, p);
    ReachSetIsClosed(g, p);
    match heap[p] {
      case ConsBody(h, t) =>
        assert g[p] == [h, t];
        Below(g, p, h);
        Below(g, p, t);
        Weights.ReachStep(g, p, ReachSet(g, h) + ReachSet(g, t));
      case FunctionBody(_, d) =>
        assert g[p] == [d];
        Below(g, p, d);
        Weights.ReachStep(g, p, ReachSet(g, d));
      case _ =>
        assert g[p] == [];
        Weights.ReachStep(g, p, {});
    }
  }

  lemma Below(g: Graph, p: Ptr, c: Ptr)
    requires Closed(g) && p in g && c in g[p] && c != NULL
    ensures c in ReachSet(g, c) && ReachSet(g, c) <= ReachSet(g, p) && ClosedSet(g, ReachSet(g, c))
  {
    ReachableSelf(g, c);
    ReachableSelf(g, p);
    ReachSetIsClosed(g, p);
    ReachSetIsClosed(g, c);
    ReachSetInside(g, ReachSet(g, p), c);
  }

  const LEAF := Atom("x")

  /** A tower of `n` pairs. */
  function Tower(n: nat): Value {
    if n == 0 then LEAF else Cons(Tower(n - 1), LEAF)
  }

  predicate IsTower(v: Value) {
    v.Cons? && v.tail == LEAF && (v.head == LEAF || IsTower(v.head))
  }

  /** No part is a tower. */
  predicate TowerFree(v: Value) {
    match v
    case Cons(h, t) => t != LEAF && TowerFree(h) && TowerFree(t)
    case Function(_, d) => TowerFree(d)
    case _ => true
  }

  lemma {:induction false} TowerHeight(n: nat)
    ensures Height(Tower(n)) == n
  {
    if n > 0 { TowerHeight(n - 1); }
  }

  lemma {:induction false} TowerIsTower(n: nat)
    requires n > 0
    ensures IsTower(Tower(n))
  {
    if n > 1 { TowerIsTower(n - 1); }
  }

  lemma {:induction false} SameTower(v: Value, w: Value)
    requires IsTower(v) && IsTower(w) && Height(v) == Height(w)
    ensures v == w
    decreases v
  {
    if v.head != LEAF && w.head != LEAF { SameTower(v.head, w.head); }
  }

  lemma InitialIsFree()
    ensures TowerFree(InitialForms()) && TowerFree(InitialEnv())
  {
    assert TowerFree(InitialForms().tail.head) && TowerFree(InitialForms().head) && TowerFree(InitialEnv().head);
    assert TowerFree(InitialForms().tail);
  }

  /** A value that occurs when only `top` and the initial environments are referenced. */
  predicate Occurs(v: Value, top: Value) {
    TowerFree(v) || (IsTower(v) && Height(v) <= Height(top))
  }

  /** Only the special forms, the global variables, nil and the tower `p` are
      referenced from outside. */
  ghost predicate Alone(objs: seq<Ptr>, heap: Heap, counts: multiset<Ptr>, val: map<Ptr, Value>,
                        forms: Ptr, env: Ptr, p: Ptr) {
    && Counted(objs, heap, counts, multiset{forms, env, p, NIL}) && Consistent(heap, val)
    && forms in val && env in val && p in val
    && val[forms] == InitialForms() && val[env] == InitialEnv() && IsTower(val[p])
  }

  lemma OccursBelow(heap: Heap, val: map<Ptr, Value>, x: Ptr, c: Ptr, top: Value)
    requires Consistent(heap, val) && x in heap && c in Children(heap[x]) && Occurs(val[x], top)
    ensures c in heap && Occurs(val[c], top)
  {
    ReadObject(heap, val, x);
  }

  lemma OccursFrom(heap: Heap, val: map<Ptr, Value>, o: Ptr, top: Value)
    requires Consistent(heap, val) && o in heap && Occurs(val[o], top)
    ensures forall x :: x in ReachSet(Kids(heap), o) ==> x in heap && Occurs(val[x], top)
  {
    hide Occurs, ReachSet;
    ConsistentIsWhole(heap, val);
    var g, inside := Kids(heap), set x | x in heap && Occurs(val[x], top);
    forall x, c | x in inside && x in g && c in g[x] && c != NULL ensures c in inside {
      OccursBelow(heap, val, x, c, top);
    }
    ReachSetInside(g, inside, o);
  }

  lemma OutsideOccurs(objs: seq<Ptr>, heap: Heap, counts: multiset<Ptr>, val: map<Ptr, Value>,
                      forms: Ptr, env: Ptr, p: Ptr, o: Ptr)
    requires Alone(objs, heap, counts, val, forms, env, p) && o in multiset{forms, env, p, NIL}
    ensures o in heap && Occurs(val[o], val[p])
  {
    InitialIsFree();
    assert counts[o] > 0;
    ReadObject(heap, val, o);
  }

  /** Then nothing else occurs. */
  lemma AllOccur(objs: seq<Ptr>, heap: Heap, counts: multiset<Ptr>, val: map<Ptr, Value>, forms: Ptr, env: Ptr, p: Ptr)
    requires Alone(objs, heap, counts, val, forms, env, p)
    ensures forall x :: x in heap ==> Occurs(val[x], val[p])
  {
    hide Occurs, ReachSet;
    var owned := multiset{forms, env, p, NIL};
    NoGarbage(objs, heap, val, counts, owned);
    forall x | x in heap ensures Occurs(val[x], val[p]) {
      assert FromOutside(heap, owned, x);
      var o :| o in owned && x in ReachSet(Kids(heap), o);
      OutsideOccurs(objs, heap, counts, val, forms, env, p, o);
      OccursFrom(heap, val, o, val[p]);
    }
  }

  /** What has a tower in a field is the next higher tower, with it as its head. */
  lemma OnlyFromAbove(objs: seq<Ptr>, heap: Heap, counts: multiset<Ptr>, val: map<Ptr, Value>,
                      forms: Ptr, env: Ptr, p: Ptr, x: Ptr, q: Ptr)
    requires Alone(objs, heap, counts, val, forms, env, p)
    requires x in heap && q in Children(heap[x]) && q in val && IsTower(val[q])
    ensures val[x] == Cons(val[q], LEAF) && IsTower(val[x]) && Height(val[x]) == Height(val[q]) + 1 <= Height(val[p])
    ensures heap[x].ConsBody? && heap[x].head == q && heap[x].tail != q
  {
    hide Counted, Occurs, IsTower, Height;
    AllOccur(objs, heap, counts, val, forms, env, p);
    ReadObject(heap, val, x);
    TowerInside(val[x], val[q], val[p]);
  }

  lemma TowerInside(v: Value, tower: Value, top: Value)
    requires Occurs(v, top) && IsTower(tower)
    ensures v.Cons? && (v.head == tower || v.tail == tower) ==>
              v == Cons(tower, LEAF) && IsTower(v) && Height(v) == Height(tower) + 1 <= Height(top) && tower != LEAF
    ensures v.Function? ==> v.data != tower
    ensures tower.Cons?
  {
    hide IsTower, Height, TowerFree;
    NotBoth(tower);
    TowerParts(tower);
    if IsTower(v) { TowerParts(v); }
    if TowerFree(v) { FreeParts(v); }
  }

  lemma TowerParts(v: Value)
    requires IsTower(v)
    ensures v == Cons(v.head, LEAF) && Height(v) == Height(v.head) + 1
  { }

  lemma FreeParts(v: Value)
    requires TowerFree(v)
    ensures v.Cons? ==> TowerFree(v.head) && TowerFree(v.tail)
    ensures v.Function? ==> TowerFree(v.data)
  { }

  lemma NotBoth(v: Value)
    requires IsTower(v)
    ensures !TowerFree(v)
  { }

  /** Every object of the tower has one reference and is the only one of its value. */
  lemma {:induction false} OneEach(objs: seq<Ptr>, heap: Heap, counts: multiset<Ptr>, val: map<Ptr, Value>,
                                   forms: Ptr, env: Ptr, p: Ptr, q: Ptr)
    requires Alone(objs, heap, counts, val, forms, env, p) && q in heap && IsTower(val[q])
    ensures Height(val[q]) <= Height(val[p]) && counts[q] == 1
    ensures forall r :: r in heap && val[r] == val[q] ==> r == q
    decreases Height(val[p]) - Height(val[q])
  {
    AllOccur(objs, heap, counts, val, forms, env, p);
    NotBoth(val[q]);
    assert Occurs(val[q], val[p]);
    if Height(val[q]) == Height(val[p]) {
      Topmost(objs, heap, counts, val, forms, env, p, q);
      forall r | r in heap && val[r] == val[q] ensures r == q { Topmost(objs, heap, counts, val, forms, env, p, r); }
    } else {
      var x := Above(objs, heap, counts, val, forms, env, p, q);
      OneEach(objs, heap, counts, val, forms, env, p, x);
      forall y | y in heap && q in Children(heap[y]) ensures y == x {
        OnlyFromAbove(objs, heap, counts, val, forms, env, p, y, q);
      }
      assert Children(heap[x]) == [q, heap[x].tail];
      FieldRefsOnce(objs, heap, x, q);
      forall r | r in heap && val[r] == val[q] ensures r == q {
        var y := Above(objs, heap, counts, val, forms, env, p, r);
        assert val[y] == val[x];
      }
    }
  }

  /** The highest tower is referenced from outside only. */
  lemma Topmost(objs: seq<Ptr>, heap: Heap, counts: multiset<Ptr>, val: map<Ptr, Value>,
                forms: Ptr, env: Ptr, p: Ptr, q: Ptr)
    requires Alone(objs, heap, counts, val, forms, env, p) && q in heap && IsTower(val[q])
    requires Height(val[q]) == Height(val[p])
    ensures q == p && counts[p] == 1
  {
    InitialIsFree();
    NotBoth(val[q]);
    NotBoth(val[p]);
    FieldRefsWitness(objs, heap, q);
    if x :| x in Elems(objs) && x in heap && q in Children(heap[x]) {
      OnlyFromAbove(objs, heap, counts, val, forms, env, p, x, q);
      assert false;
    }
    assert FieldRefs(objs, heap)[q] == 0;
    assert counts[q] > 0;
    assert counts[NIL] > 0;
    ReadObject(heap, val, NIL);
  }

  /** A lower tower is in the field of the next higher one, and nowhere else. */
  lemma Above(objs: seq<Ptr>, heap: Heap, counts: multiset<Ptr>, val: map<Ptr, Value>,
              forms: Ptr, env: Ptr, p: Ptr, q: Ptr) returns (x: Ptr)
    requires Alone(objs, heap, counts, val, forms, env, p) && q in heap && IsTower(val[q])
    requires Height(val[q]) < Height(val[p])
    ensures x in heap && q in Children(heap[x]) && multiset{forms, env, p, NIL}[q] == 0
    ensures val[x] == Cons(val[q], LEAF) && IsTower(val[x]) && Height(val[x]) == Height(val[q]) + 1 <= Height(val[p])
    ensures heap[x].ConsBody? && heap[x].head == q && heap[x].tail != q
  {
    InitialIsFree();
    NotBoth(val[q]);
    assert counts[NIL] > 0;
    ReadObject(heap, val, NIL);
    assert counts[q] > 0;
    FieldRefsWitness(objs, heap, q);
    x :| x in Elems(objs) && x in heap && q in Children(heap[x]);
    OnlyFromAbove(objs, heap, counts, val, forms, env, p, x, q);
  }

  lemma {:induction false} TowerIsUnshared(objs: seq<Ptr>, heap: Heap, counts: multiset<Ptr>, val: map<Ptr, Value>,
                                           forms: Ptr, env: Ptr, p: Ptr, q: Ptr)
    requires Alone(objs, heap, counts, val, forms, env, p) && q in heap && IsTower(val[q])
    ensures Unshared(heap, counts, q, val[q])
    decreases Height(val[q])
  {
    OneEach(objs, heap, counts, val, forms, env, p, q);
    ReadObject(heap, val, q);
    if val[q].head != LEAF { TowerIsUnshared(objs, heap, counts, val, forms, env, p, heap[q].head); }
  }
}
