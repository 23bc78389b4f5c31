/** Heap objects of the interpreters, and the values they stand for. */
module Objects {
  import opened Language
  import opened Pointers
  import opened LinkedLists
  import opened Marking

  /** How an operation can fail: no memory, or the interpreter aborts the process. */
  datatype Error = OutOfMemory | Abort

  datatype Result<+T> = Success(value: T) | Failure(error: Error) {
    predicate IsFailure() { Failure? }
    function PropagateFailure<U>(): Result<U> requires Failure? { Failure(error) }
    function Extract(): T requires Success? { value }
  }

  /** The class of an object and the fields of that class. */
  datatype Body =
    | NilBody
    | AtomBody(chars: string)
    | ConsBody(head: Ptr, tail: Ptr)
    | FunctionBody(apply: Code, data: Ptr)

  type Heap = map<Ptr, Body>

  /** The address of the one nil object, `nil_value`. */
  const NIL: Ptr := 1

  function Children(b: Body): seq<Ptr> {
    match b
    case ConsBody(h, t) => [h, t]
    case FunctionBody(_, d) => [d]
    case _ => []
  }

  /** The object with child slot `i` changed. */
  function WithChild(b: Body, i: nat, p: Ptr): Body
    requires i < |Children(b)|
  {
    match b
    case ConsBody(h, t) => if i == 0 then ConsBody(p, t) else ConsBody(h, p)
    case FunctionBody(c, _) => FunctionBody(c, p)
  }

  ghost function Kids(heap: Heap): Graph {
    map p | p in heap :: Children(heap[p])
  }

  lemma KidsStore(heap: Heap, p: Ptr, i: nat, x: Ptr)
    requires p in heap && i < |Children(heap[p])|
    ensures Kids(heap[p := WithChild(heap[p], i, x)]) == Kids(heap)[p := Put(Kids(heap)[p], i, x)]
  {
    assert Children(WithChild(heap[p], i, x)) == Put(Children(heap[p]), i, x);
  }

  /** An object of body `b` stands for `v` when its fields stand for the parts of `v`. */
  ghost predicate Denotes(b: Body, v: Value, val: map<Ptr, Value>) {
    match b
    case NilBody => v == Nil
    case AtomBody(s) => v == Atom(s)
    case ConsBody(h, t) => h in val && t in val && v == Cons(val[h], val[t])
    case FunctionBody(c, d) => d in val && v == Function(c, val[d])
  }

  /** The value an object with body `b` stands for. */
  ghost function ValueOf(b: Body, val: map<Ptr, Value>): (v: Value)
    requires forall c :: c in Children(b) ==> c in val
    ensures Denotes(b, v, val)
  {
    match b
    case NilBody => Nil
    case AtomBody(s) => Atom(s)
    case ConsBody(h, t) => assert Children(b)[0] == h && Children(b)[1] == t; Cons(val[h], val[t])
    case FunctionBody(c, d) => assert Children(b)[0] == d; Function(c, val[d])
  }

  /** Every object stands for a value, so there are no dangling pointers and no
      cycles; the nil object is the only one of its class. */
  ghost predicate Consistent(heap: Heap, val: map<Ptr, Value>) {
    && val.Keys == heap.Keys && NULL !in heap
    && (forall p {:trigger Denotes(heap[p], val[p], val)} :: p in heap ==> Denotes(heap[p], val[p], val))
    && (forall p :: p in heap ==> (heap[p].NilBody? <==> p == NIL))
  }

  /** Every pointer of every object leads to an object. */
  ghost predicate Whole(heap: Heap)
    ensures Whole(heap) ==> Closed(Kids(heap))
  {
    NULL !in heap && forall p, c :: p in heap && c in Children(heap[p]) ==> c in heap
  }

  lemma ConsistentIsWhole(heap: Heap, val: map<Ptr, Value>)
    requires Consistent(heap, val)
    ensures Whole(heap)
  {
    forall p, c | p in heap && c in Children(heap[p]) ensures c in heap {
      assert Denotes(heap[p], val[p], val);
    }
  }

  /** A subset of the objects closed under pointers. */
  ghost predicate ClosedPart(heap: Heap, keep: set<Ptr>) {
    keep <= heap.Keys && ClosedSet(Kids(heap), keep)
  }

  lemma KeepClosedPart(heap: Heap, val: map<Ptr, Value>, keep: set<Ptr>)
    requires Consistent(heap, val) && ClosedPart(heap, keep)
    ensures Consistent(Restrict(heap, keep), Restrict(val, keep))
  {
    var heap', val' := Restrict(heap, keep), Restrict(val, keep);
    forall p | p in heap' ensures Denotes(heap'[p], val'[p], val') {
      var kids := Kids(heap)[p];
      assert forall c :: c in kids ==> c in keep && c in val by {
        assert Denotes(heap[p], val[p], val);
      }
      match heap[p] {
        case ConsBody(h, t) => assert kids[0] in kids && kids[1] in kids;
        case FunctionBody(_, d) => assert kids[0] in kids;
        case _ =>
      }
    }
  }

  lemma AddObject(heap: Heap, val: map<Ptr, Value>, p: Ptr, b: Body, v: Value)
    requires Consistent(heap, val) && p !in heap && p != NULL && Denotes(b, v, val)
    requires b.NilBody? <==> p == NIL
    ensures Consistent(heap[p := b], val[p := v])
  {
    var heap', val' := heap[p := b], val[p := v];
    forall x | x in heap' ensures Denotes(heap'[x], val'[x], val') {
      if x != p { assert Denotes(heap[x], val[x], val); }
    }
  }

  // ----- what is live -----

  /** The objects reachable from some root. */
  ghost function Live(heap: Heap, roots: seq<Ptr>): set<Ptr> {
    if roots == [] then {} else MarkSpec(Kids(heap), Live(heap, roots[1..]), roots[0])
  }

  lemma {:induction false} LiveFacts(heap: Heap, roots: seq<Ptr>)
    requires Closed(Kids(heap))
    ensures ClosedPart(heap, Live(heap, roots))
    ensures forall i :: 0 <= i < |roots| && roots[i] in heap ==> roots[i] in Live(heap, roots)
    decreases |roots|
  {
    if roots != [] {
      LiveFacts(heap, roots[1..]);
      ReachSetIsClosed(Kids(heap), roots[0]);
      if roots[0] in heap { ReachableSelf(Kids(heap), roots[0]); }
    }
  }

  /** An object is live when some root leads to it. */
  lemma {:induction false} LiveMeans(heap: Heap, roots: seq<Ptr>, o: Ptr)
    ensures o in Live(heap, roots) <==> exists i :: 0 <= i < |roots| && o in ReachSet(Kids(heap), roots[i])
    decreases |roots|
  {
    if roots != [] {
      LiveMeans(heap, roots[1..], o);
      if o in Live(heap, roots[1..]) {
        var j :| 0 <= j < |roots[1..]| && o in ReachSet(Kids(heap), roots[1..][j]);
        assert roots[1..][j] == roots[j + 1];
      }
      if i :| 0 <= i < |roots| && o in ReachSet(Kids(heap), roots[i]) {
        if i > 0 { assert roots[1..][i - 1] == roots[i]; }
      }
    }
  }

  // ----- the list of all objects -----

  function Elems(s: seq<Ptr>): set<Ptr> {
    if s == [] then {} else {s[0]} + Elems(s[1..])
  }

  lemma {:induction false} ElemsIn(s: seq<Ptr>, x: Ptr)
    ensures x in Elems(s) <==> x in s
    decreases |s|
  {
    if s != [] { ElemsIn(s[1..], x); }
  }

  /** The elements of `s` in `keep`, in order. */
  function Filter(s: seq<Ptr>, keep: set<Ptr>): seq<Ptr> {
    if s == [] then [] else (if s[0] in keep then [s[0]] else []) + Filter(s[1..], keep)
  }

  lemma {:induction false} FilterElems(s: seq<Ptr>, keep: set<Ptr>)
    ensures Elems(Filter(s, keep)) == Elems(s) * keep && |Filter(s, keep)| <= |s|
    decreases |s|
  {
    if s != [] {
      FilterElems(s[1..], keep);
      var f := Filter(s[1..], keep);
      ElemsCons(s[0], s[1..]);
      ElemsCons(s[0], f);
      assert [s[0]] + s[1..] == s;
      if s[0] !in keep { assert Filter(s, keep) == [] + f == f; }
    }
  }

  /** Filtering loses something unless everything is kept. */
  lemma {:induction false} FilterLoses(s: seq<Ptr>, keep: set<Ptr>)
    ensures if Elems(s) <= keep then Filter(s, keep) == s else |Filter(s, keep)| < |s|
    decreases |s|
  {
    if s != [] {
      FilterLoses(s[1..], keep);
      FilterElems(s[1..], keep);
      ElemsCons(s[0], s[1..]);
      assert [s[0]] + s[1..] == s;
    }
  }

  /** `a` comes before `b`. */
  ghost predicate Before(s: seq<Ptr>, a: Ptr, b: Ptr) {
    exists i, j :: 0 <= i < j < |s| && s[i] == a && s[j] == b
  }

  lemma BeforeFirst(x: Ptr, s: seq<Ptr>, a: Ptr, b: Ptr)
    ensures Before([x] + s, a, b) <==> (x == a && b in s) || Before(s, a, b)
  {
    var all := [x] + s;
    if i, j :| 0 <= i < j < |all| && all[i] == a && all[j] == b {
      assert s[j - 1] == b;
      if i > 0 { assert s[i - 1] == a; }
    }
    if x == a && b in s {
      var j :| 0 <= j < |s| && s[j] == b;
      assert all[0] == a && all[j + 1] == b;
    }
    if i, j :| 0 <= i < j < |s| && s[i] == a && s[j] == b { assert all[i + 1] == a && all[j + 1] == b; }
  }

  /** Filtering keeps the order of what it keeps. */
  lemma {:induction false} FilterOrder(s: seq<Ptr>, keep: set<Ptr>, a: Ptr, b: Ptr)
    ensures Before(Filter(s, keep), a, b) <==> a in keep && b in keep && Before(s, a, b)
    decreases |s|
  {
    hide Before;
    if s != [] {
      var f := Filter(s[1..], keep);
      FilterOrder(s[1..], keep, a, b);
      assert [s[0]] + s[1..] == s;
      BeforeFirst(s[0], s[1..], a, b);
      BeforeFirst(s[0], f, a, b);
      FilterElems(s[1..], keep);
      ElemsIn(f, b);
      ElemsIn(s[1..], b);
      if s[0] !in keep { assert Filter(s, keep) == [] + f == f; }
    } else {
      NothingBefore(s, a, b);
    }
  }

  lemma NothingBefore(s: seq<Ptr>, a: Ptr, b: Ptr)
    requires s == []
    ensures !Before(s, a, b)
  { }

  lemma {:induction false} FilterFirst(done: seq<Ptr>, s: seq<Ptr>, keep: set<Ptr>)
    requires s != []
    ensures done + Filter(s, keep) == (if s[0] in keep then done + [s[0]] else done) + Filter(s[1..], keep)
  {
    var f := Filter(s[1..], keep);
    if s[0] in keep {
      assert done + ([s[0]] + f) == (done + [s[0]]) + f;
    } else {
      assert [] + f == f;
    }
  }

  lemma ElemsCons(x: Ptr, s: seq<Ptr>)
    ensures Elems([x] + s) == {x} + Elems(s)
  {
    assert ([x] + s)[1..] == s;
  }

  /** The sweep has kept `kept`, has `rest` to look at, and stands at the slot
      after `prev` (at the list head when `prev` is null). */
  ghost predicate Sweeping(next: map<Ptr, Ptr>, head: Ptr, kept: seq<Ptr>, rest: seq<Ptr>, prev: Ptr) {
    && Linked(next, head, kept, First(rest)) && Linked(next, First(rest), rest, NULL)
    && prev == Last(kept)
  }

  lemma SweepDistinct(next: map<Ptr, Ptr>, head: Ptr, kept: seq<Ptr>, rest: seq<Ptr>, prev: Ptr)
    requires Sweeping(next, head, kept, rest, prev)
    ensures Distinct(kept + rest)
  {
    LinkedConcat(next, head, kept, First(rest), rest, NULL);
    LinkedDistinct(next, head, kept + rest);
  }

  lemma SweepAt(next: map<Ptr, Ptr>, head: Ptr, kept: seq<Ptr>, rest: seq<Ptr>, prev: Ptr)
    requires Sweeping(next, head, kept, rest, prev)
    ensures prev != NULL ==> prev in next && prev in kept
    ensures (if prev == NULL then head else next[prev]) == First(rest)
    ensures rest != [] ==> rest[0] != NULL && rest[0] in next && rest[0] !in kept && rest[0] !in rest[1..]
    ensures rest == [] <==> First(rest) == NULL
  {
    SweepDistinct(next, head, kept, rest, prev);
    if kept != [] { LinkedLast(next, head, kept, First(rest)); }
    if rest != [] {
      var s := kept + rest;
      assert s[|kept|] == rest[0];
      assert forall i :: 0 <= i < |kept| ==> s[i] == kept[i];
      assert forall i :: 0 <= i < |rest| ==> s[|kept| + i] == rest[i];
    }
  }

  lemma SweepKeep(next: map<Ptr, Ptr>, head: Ptr, kept: seq<Ptr>, rest: seq<Ptr>, prev: Ptr)
    requires Sweeping(next, head, kept, rest, prev) && rest != []
    ensures Sweeping(next, head, kept + [rest[0]], rest[1..], rest[0])
  {
    LinkedAppend(next, head, kept, rest[0]);
    assert Linked(next, next[rest[0]], rest[1..], NULL);
  }

  /** Unlinking the object at the slot and forgetting it. */
  lemma SweepDrop(next: map<Ptr, Ptr>, head: Ptr, kept: seq<Ptr>, rest: seq<Ptr>, prev: Ptr)
    requires Sweeping(next, head, kept, rest, prev) && rest != [] && rest[0] in next && (prev != NULL ==> prev in next)
    ensures var o := rest[0];
            var head' := if prev == NULL then next[o] else head;
            var next' := if prev == NULL then next else next[prev := next[o]];
            Sweeping(next' - {o}, head', kept, rest[1..], prev)
  {
    var o := rest[0];
    SweepAt(next, head, kept, rest, prev);
    SweepDistinct(next, head, kept, rest, prev);
    var end := next[o];
    var next' := if prev == NULL then next else next[prev := end];
    var s := kept + rest;
    var t := kept + rest[1..];
    assert forall i :: 0 <= i < |t| ==> t[i] == s[if i < |kept| then i else i + 1];
    assert forall i :: 0 <= i < |kept| ==> s[i] == kept[i];
    assert forall i :: 0 <= i < |rest| ==> s[|kept| + i] == rest[i];
    assert Linked(next, end, rest[1..], NULL);
    LinkedFrame(next, next' - {o}, end, rest[1..], NULL);
    if kept != [] {
      assert Distinct(kept);
      LinkedRetarget(next, head, kept, o, end);
      LinkedFrame(next', next' - {o}, head, kept, end);
    }
  }

  /** The objects in `keep`. */
  ghost function Restrict<T>(m: map<Ptr, T>, keep: set<Ptr>): map<Ptr, T> {
    map p | p in m && p in keep :: m[p]
  }

  /** `heap` is part of `heap0` and possibly one new object `o`. */
  ghost predicate OnlyNew(heap0: Heap, val0: map<Ptr, Value>, heap: Heap, val: map<Ptr, Value>, o: Ptr) {
    forall p :: p in heap && p != o ==> p in heap0 && heap[p] == heap0[p] && p in val0 && p in val && val[p] == val0[p]
  }

  /** Reading an object's class and fields is taking its value apart. */
  lemma ReadObject(heap: Heap, val: map<Ptr, Value>, p: Ptr)
    requires Consistent(heap, val) && p in heap
    ensures p != NULL && (p == NIL <==> val[p].Nil?)
    ensures heap[p].AtomBody? <==> val[p].Atom?
    ensures heap[p].AtomBody? ==> val[p].chars == heap[p].chars
    ensures heap[p].ConsBody? <==> val[p].Cons?
    ensures heap[p].ConsBody? ==>
              && heap[p].head in heap && val[heap[p].head] == val[p].head
              && heap[p].tail in heap && val[heap[p].tail] == val[p].tail
    ensures heap[p].FunctionBody? <==> val[p].Function?
    ensures heap[p].FunctionBody? ==>
              val[p].apply == heap[p].apply && heap[p].data in heap && val[heap[p].data] == val[p].data
  {
    assert Denotes(heap[p], val[p], val);
  }

  /** All root slots but `slots` hold the same objects, of the same values. */
  ghost predicate KeepsRoots(roots0: seq<Ptr>, val0: map<Ptr, Value>, roots: seq<Ptr>, val: map<Ptr, Value>,
                             slots: set<nat>)
  {
    && |roots| == |roots0|
    && forall i :: 0 <= i < |roots| && i !in slots ==>
         roots[i] == roots0[i] && roots[i] in val0 && roots[i] in val && val[roots[i]] == val0[roots[i]]
  }

  lemma KeepsRootsSame(roots: seq<Ptr>, val: map<Ptr, Value>, slots: set<nat>)
    requires forall i :: 0 <= i < |roots| ==> roots[i] in val
    ensures KeepsRoots(roots, val, roots, val, slots)
  { }

  lemma KeepsRootsTrans(roots0: seq<Ptr>, val0: map<Ptr, Value>, roots1: seq<Ptr>, val1: map<Ptr, Value>,
                        roots2: seq<Ptr>, val2: map<Ptr, Value>, slots: set<nat>)
    requires KeepsRoots(roots0, val0, roots1, val1, slots) && KeepsRoots(roots1, val1, roots2, val2, slots)
    ensures KeepsRoots(roots0, val0, roots2, val2, slots)
  { }

  lemma KeepsRootsBoth(roots0: seq<Ptr>, val0: map<Ptr, Value>, roots1: seq<Ptr>, val1: map<Ptr, Value>,
                       roots2: seq<Ptr>, val2: map<Ptr, Value>, a: nat, b: nat)
    requires KeepsRoots(roots0, val0, roots1, val1, {a}) && KeepsRoots(roots1, val1, roots2, val2, {b})
    ensures KeepsRoots(roots0, val0, roots2, val2, {a, b})
  { }
}
