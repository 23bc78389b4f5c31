/** Reference counts: each live object's count is the number of references to it,
    from fields of live objects and from outside. */
module RefCount {
  import opened Language
  import opened Pointers
  import opened Marking
  import opened Objects

  /** `objs` has no element twice. */
  ghost predicate NoDup(objs: seq<Ptr>) {
    objs == [] || (objs[0] !in Elems(objs[1..]) && NoDup(objs[1..]))
  }

  /** The references held by the fields of `objs`, with multiplicity. */
  ghost function FieldRefs(objs: seq<Ptr>, heap: Heap): multiset<Ptr> {
    if objs == [] then multiset{}
    else (if objs[0] in heap then multiset(Children(heap[objs[0]])) else multiset{}) + FieldRefs(objs[1..], heap)
  }

  lemma {:induction false} FieldRefsFrame(objs: seq<Ptr>, heap: Heap, heap': Heap)
    requires forall p :: p in Elems(objs) ==> (p in heap <==> p in heap') && (p in heap ==> heap[p] == heap'[p])
    ensures FieldRefs(objs, heap) == FieldRefs(objs, heap')
    decreases |objs|
  {
    if objs != [] { FieldRefsFrame(objs[1..], heap, heap'); }
  }

  /** A field reference is in the field of some object. */
  lemma {:induction false} FieldRefsWitness(objs: seq<Ptr>, heap: Heap, p: Ptr)
    ensures p in FieldRefs(objs, heap) <==> exists x :: x in Elems(objs) && x in heap && p in Children(heap[x])
    decreases |objs|
  {
    if objs != [] {
      FieldRefsWitness(objs[1..], heap, p);
      var x := objs[0];
      if p in FieldRefs(objs, heap) {
        if p in FieldRefs(objs[1..], heap) {
          var y :| y in Elems(objs[1..]) && y in heap && p in Children(heap[y]);
          assert y in Elems(objs);
        } else {
          assert x in heap && p in multiset(Children(heap[x]));
          assert x in Elems(objs);
        }
      }
      if y :| y in Elems(objs) && y in heap && p in Children(heap[y]) {
        if y == x { assert p in multiset(Children(heap[x])); }
      }
    }
  }

  /** The fields of `objs` that point to `p`, by object and field. */
  ghost function FieldsTo(objs: seq<Ptr>, heap: Heap, p: Ptr): set<(Ptr, nat)> {
    set x, k: nat | x in Elems(objs) && x in heap && k < |Children(heap[x])| && Children(heap[x])[k] == p :: (x, k)
  }

  ghost function SlotsTo(s: seq<Ptr>, x: Ptr, p: Ptr): set<(Ptr, nat)> {
    set k: nat | k < |s| && s[k] == p :: (x, k)
  }

  lemma SlotsCount(s: seq<Ptr>, x: Ptr, p: Ptr)
    requires |s| <= 2
    ensures |SlotsTo(s, x, p)| == multiset(s)[p]
  {
    var first: set<(Ptr, nat)> := if |s| > 0 && s[0] == p then {(x, 0)} else {};
    var second: set<(Ptr, nat)> := if |s| > 1 && s[1] == p then {(x, 1)} else {};
    assert SlotsTo(s, x, p) == first + second && first !! second;
    if |s| == 1 { assert s == [s[0]]; }
    if |s| == 2 { assert s == [s[0], s[1]]; }
  }

  lemma FieldsFirst(objs: seq<Ptr>, heap: Heap, p: Ptr)
    requires objs != [] && objs[0] !in Elems(objs[1..])
    ensures var s := if objs[0] in heap then Children(heap[objs[0]]) else [];
            && FieldsTo(objs, heap, p) == SlotsTo(s, objs[0], p) + FieldsTo(objs[1..], heap, p)
            && SlotsTo(s, objs[0], p) !! FieldsTo(objs[1..], heap, p)
  { }

  /** The field references to an object are as many as the fields that point to it. */
  lemma {:induction false} FieldRefsCount(objs: seq<Ptr>, heap: Heap, p: Ptr)
    requires NoDup(objs)
    ensures FieldRefs(objs, heap)[p] == |FieldsTo(objs, heap, p)|
    decreases |objs|
  {
    hide SlotsTo, FieldsTo;
    if objs == [] {
      NoFields(heap, p);
    } else {
      FieldRefsCount(objs[1..], heap, p);
      FieldsFirst(objs, heap, p);
      SlotsCount(if objs[0] in heap then Children(heap[objs[0]]) else [], objs[0], p);
    }
  }

  lemma NoFields(heap: Heap, p: Ptr)
    ensures FieldsTo([], heap, p) == {}
  { }

  /** With right counts, the count of an object is the number of fields that point to it
      and of references from outside. */
  lemma CountIsReferences(objs: seq<Ptr>, heap: Heap, counts: multiset<Ptr>, owned: multiset<Ptr>, p: Ptr)
    requires Counted(objs, heap, counts, owned)
    ensures counts[p] == |FieldsTo(objs, heap, p)| + owned[p]
  {
    FieldRefsCount(objs, heap, p);
  }

  function Remove(objs: seq<Ptr>, p: Ptr): seq<Ptr> {
    if objs == [] then [] else if objs[0] == p then objs[1..] else [objs[0]] + Remove(objs[1..], p)
  }

  lemma {:induction false} RemoveElems(objs: seq<Ptr>, p: Ptr)
    requires NoDup(objs) && p in Elems(objs)
    ensures NoDup(Remove(objs, p)) && Elems(Remove(objs, p)) == Elems(objs) - {p}
    ensures |Remove(objs, p)| == |objs| - 1
    decreases |objs|
  {
    if objs[0] != p {
      RemoveElems(objs[1..], p);
      var r := Remove(objs[1..], p);
      assert ([objs[0]] + r)[1..] == r;
    }
  }

  lemma {:induction false} RemoveRefs(objs: seq<Ptr>, heap: Heap, p: Ptr)
    requires p in Elems(objs) && p in heap
    ensures FieldRefs(objs, heap) == multiset(Children(heap[p])) + FieldRefs(Remove(objs, p), heap)
    decreases |objs|
  {
    if objs[0] != p {
      RemoveRefs(objs[1..], heap, p);
      var r := Remove(objs[1..], p);
      assert ([objs[0]] + r)[0] == objs[0] && ([objs[0]] + r)[1..] == r;
    }
  }

  /** The counts are right: `counts` has each object as often as it is referenced,
      by fields of objects or, in `owned`, from outside. An object lives as long as
      its count is positive. */
  ghost predicate Counted(objs: seq<Ptr>, heap: Heap, counts: multiset<Ptr>, owned: multiset<Ptr>) {
    && NoDup(objs) && Elems(objs) == heap.Keys
    && counts == FieldRefs(objs, heap) + owned
    && forall p {:trigger counts[p]} :: counts[p] > 0 <==> p in heap
  }

  /** One more reference from outside. */
  lemma CountedAdd(objs: seq<Ptr>, heap: Heap, counts: multiset<Ptr>, owned: multiset<Ptr>, p: Ptr)
    requires Counted(objs, heap, counts, owned) && p in heap
    ensures Counted(objs, heap, counts + multiset{p}, owned + multiset{p})
  { }

  /** Giving up one of several references. */
  lemma CountedDrop(objs: seq<Ptr>, heap: Heap, counts: multiset<Ptr>, owned: multiset<Ptr>, p: Ptr)
    requires Counted(objs, heap, counts, owned) && owned[p] > 0 && counts[p] > 1
    ensures Counted(objs, heap, counts - multiset{p}, owned - multiset{p})
  { }

  /** Nothing points to an object whose last reference is from outside. */
  lemma LastReference(objs: seq<Ptr>, heap: Heap, counts: multiset<Ptr>, owned: multiset<Ptr>, p: Ptr)
    requires Counted(objs, heap, counts, owned) && owned[p] > 0 && counts[p] == 1
    ensures owned[p] == 1 && forall x :: x in heap ==> p !in Children(heap[x])
  {
    FieldRefsWitness(objs, heap, p);
    assert FieldRefs(objs, heap)[p] == 0;
  }

  lemma RemoveUnreferenced(heap: Heap, val: map<Ptr, Value>, p: Ptr)
    requires Consistent(heap, val) && forall x :: x in heap ==> p !in Children(heap[x])
    ensures Consistent(heap - {p}, val - {p})
  {
    var heap', val' := heap - {p}, val - {p};
    forall x | x in heap' ensures Denotes(heap'[x], val'[x], val') {
      assert Denotes(heap[x], val[x], val);
      match heap[x] {
        case ConsBody(a, b) => assert Children(heap[x])[0] == a && Children(heap[x])[1] == b;
        case FunctionBody(_, d) => assert Children(heap[x])[0] == d;
        case _ =>
      }
    }
  }

  /** An object in one field only is referenced once. */
  lemma FieldRefsOnce(objs: seq<Ptr>, heap: Heap, x: Ptr, q: Ptr)
    requires NoDup(objs) && x in Elems(objs) && x in heap && multiset(Children(heap[x]))[q] == 1
    requires forall y :: y in heap && q in Children(heap[y]) ==> y == x
    ensures FieldRefs(objs, heap)[q] == 1
  {
    RemoveRefs(objs, heap, x);
    RemoveElems(objs, x);
    FieldRefsWitness(Remove(objs, x), heap, q);
  }

  /** Releasing the last reference to an object: the references in its fields are
      now held from outside. */
  lemma CountedFree(objs: seq<Ptr>, heap: Heap, counts: multiset<Ptr>, owned: multiset<Ptr>, p: Ptr)
    requires Counted(objs, heap, counts, owned) && owned[p] > 0 && counts[p] == 1
    ensures p in heap
    ensures Counted(Remove(objs, p), heap - {p}, counts - multiset{p},
                    owned - multiset{p} + multiset(Children(heap[p])))
  {
    var heap', objs', kids := heap - {p}, Remove(objs, p), multiset(Children(heap[p]));
    RemoveElems(objs, p);
    RemoveRefs(objs, heap, p);
    FieldRefsFrame(objs', heap, heap');
    MoveOut(FieldRefs(objs', heap), owned, kids, p);
  }

  /** Publishing an object: its fields take over references held from outside, and
      the outside gets a reference to it. */
  lemma CountedPublish(objs: seq<Ptr>, heap: Heap, counts: multiset<Ptr>, owned: multiset<Ptr>, p: Ptr, b: Body)
    requires Counted(objs, heap, counts, owned) && p !in heap && multiset(Children(b)) <= owned
    ensures Counted([p] + objs, heap[p := b], counts + multiset{p}, owned - multiset(Children(b)) + multiset{p})
  {
    hide FieldRefs, Children;
    assert ([p] + objs)[0] == p && ([p] + objs)[1..] == objs;
    PublishRefs(objs, heap, p, b);
    ElemsCons(p, objs);
    MoveToFields(FieldRefs(objs, heap), owned, multiset(Children(b)), p);
  }

  lemma PublishRefs(objs: seq<Ptr>, heap: Heap, p: Ptr, b: Body)
    requires p !in heap && Elems(objs) == heap.Keys
    ensures FieldRefs([p] + objs, heap[p := b]) == multiset(Children(b)) + FieldRefs(objs, heap)
  {
    assert ([p] + objs)[0] == p && ([p] + objs)[1..] == objs;
    FieldRefsFrame(objs, heap, heap[p := b]);
  }

  lemma MoveToFields(refs: multiset<Ptr>, owned: multiset<Ptr>, kids: multiset<Ptr>, p: Ptr)
    requires kids <= owned
    ensures refs + owned + multiset{p} == kids + refs + (owned - kids + multiset{p})
  { }

  lemma MoveOut(rest: multiset<Ptr>, owned: multiset<Ptr>, kids: multiset<Ptr>, p: Ptr)
    requires owned[p] > 0
    ensures kids + rest + owned - multiset{p} == rest + (owned - multiset{p} + kids)
  { }

  // ----- no garbage -----

  ghost predicate Bounds(heap: Heap, val: map<Ptr, Value>, bound: nat) {
    forall p :: p in heap && p in val ==> Size(val[p]) <= bound
  }

  lemma {:induction false} SizeBound(objs: seq<Ptr>, val: map<Ptr, Value>) returns (bound: nat)
    ensures forall p :: p in Elems(objs) && p in val ==> Size(val[p]) <= bound
    decreases |objs|
  {
    bound := 0;
    if objs != [] {
      bound := SizeBound(objs[1..], val);
      if objs[0] in val && Size(val[objs[0]]) > bound { bound := Size(val[objs[0]]); }
    }
  }

  /** An object is reachable from an outside reference: follow references to it
      upwards, through ever larger values. */
  lemma {:induction false} ReachedFromOutside(objs: seq<Ptr>, heap: Heap, val: map<Ptr, Value>, counts: multiset<Ptr>,
                                              owned: multiset<Ptr>, bound: nat, p: Ptr) returns (o: Ptr)
    requires Counted(objs, heap, counts, owned) && Consistent(heap, val) && Bounds(heap, val, bound) && p in heap
    ensures o in owned && p in ReachSet(Kids(heap), o)
    decreases bound - Size(val[p])
  {
    ConsistentIsWhole(heap, val);
    if p in owned {
      ReachableSelf(Kids(heap), p);
      o := p;
    } else {
      assert counts[p] > 0;
      FieldRefsWitness(objs, heap, p);
      var x :| x in heap && p in Children(heap[x]);
      ReadObject(heap, val, x);
      o := ReachedFromOutside(objs, heap, val, counts, owned, bound, x);
      ReachSetIsClosed(Kids(heap), o);
      assert p in Kids(heap)[x];
    }
  }

  /** Some reference in `owned` leads to the object. */
  ghost predicate FromOutside(heap: Heap, owned: multiset<Ptr>, p: Ptr) {
    exists o :: o in owned && p in ReachSet(Kids(heap), o)
  }

  /** Reference counting leaves no garbage: every live object is reachable from outside. */
  lemma NoGarbage(objs: seq<Ptr>, heap: Heap, val: map<Ptr, Value>, counts: multiset<Ptr>, owned: multiset<Ptr>)
    requires Counted(objs, heap, counts, owned) && Consistent(heap, val)
    ensures forall p :: p in heap ==> FromOutside(heap, owned, p)
  {
    var bound := SizeBound(objs, val);
    forall p | p in heap ensures FromOutside(heap, owned, p) {
      var o := ReachedFromOutside(objs, heap, val, counts, owned, bound, p);
    }
  }

  /** `heap` is a part of `heap0`, unchanged and closed under pointers. */
  ghost predicate PartOf(heap: Heap, heap0: Heap) {
    Whole(heap) && Whole(heap0) && forall p :: p in heap ==> p in heap0 && heap0[p] == heap[p]
  }

  lemma SmallerGraph(heap: Heap, heap0: Heap, o: Ptr)
    requires PartOf(heap, heap0) && o in heap
    ensures ReachSet(Kids(heap), o) <= ReachSet(Kids(heap0), o) <= heap.Keys
  {
    var g, g0 := Kids(heap), Kids(heap0);
    ReachSetIsClosed(g0, o);
    ReachableSelf(g0, o);
    ReachSetInside(g, ReachSet(g0, o), o);
    forall p, c | p in heap && p in g0 && c in g0[p] && c != NULL ensures c in heap {
      assert c in Children(heap[p]);
    }
    ReachSetInside(g0, heap.Keys, o);
  }

  lemma SameReachable(heap: Heap, heap0: Heap, owned: multiset<Ptr>, p: Ptr)
    requires PartOf(heap, heap0) && forall o :: o in owned ==> o in heap
    ensures FromOutside(heap, owned, p) ==> FromOutside(heap0, owned, p)
    ensures FromOutside(heap0, owned, p) ==> p in heap
  {
    if FromOutside(heap, owned, p) {
      var o :| o in owned && p in ReachSet(Kids(heap), o);
      SmallerGraph(heap, heap0, o);
    }
    if FromOutside(heap0, owned, p) {
      var o :| o in owned && p in ReachSet(Kids(heap0), o);
      SmallerGraph(heap, heap0, o);
    }
  }

  /** A part of a heap that is itself counted is what its outside references reach. */
  lemma ExactlyReachable(objs: seq<Ptr>, heap: Heap, val: map<Ptr, Value>, counts: multiset<Ptr>, owned: multiset<Ptr>,
                         heap0: Heap)
    requires Counted(objs, heap, counts, owned) && Consistent(heap, val) && PartOf(heap, heap0)
    ensures forall p :: p in heap <==> FromOutside(heap0, owned, p)
  {
    NoGarbage(objs, heap, val, counts, owned);
    forall o | o in owned ensures o in heap { assert counts[o] > 0; }
    forall p ensures p in heap <==> FromOutside(heap0, owned, p) {
      SameReachable(heap, heap0, owned, p);
    }
  }
}
