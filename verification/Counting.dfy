/** The memory of the reference-counted interpreter. */
module Counting {
  import opened Language
  import opened Pointers
  import opened Objects
  import opened RefCount

  /** One more reference. */
  ghost function Also(refs: multiset<Ptr>, p: Ptr): multiset<Ptr> {
    refs + multiset{p}
  }

  lemma Swap(refs: multiset<Ptr>, p: Ptr, q: Ptr)
    ensures Also(Also(refs, p), q) == Also(Also(refs, q), p)
  { }

  /** The references to objects that are not in fields of objects: those on the two
      stacks, the handles, and one for ever to nil. */
  ghost function Outside(operands: seq<Ptr>, conts: seq<Ptr>, handles: multiset<Ptr>): multiset<Ptr> {
    multiset(operands) + multiset(conts) + handles + multiset{NIL}
  }

  /** The invariant of the memory. */
  ghost predicate Balanced(objs: seq<Ptr>, heap: Heap, counts: multiset<Ptr>, operands: seq<Ptr>, conts: seq<Ptr>,
                           handles: multiset<Ptr>, val: map<Ptr, Value>)
  {
    Counted(objs, heap, counts, Outside(operands, conts, handles)) && Consistent(heap, val)
  }

  /** Objects only disappear; those that stay are unchanged. */
  ghost predicate Shrinks(heap0: Heap, val0: map<Ptr, Value>, heap: Heap, val: map<Ptr, Value>) {
    forall p :: p in heap ==> p in heap0 && heap[p] == heap0[p] && p in val0 && p in val && val[p] == val0[p]
  }

  lemma ShrinksFrom(heap0: Heap, val0: map<Ptr, Value>, p: Ptr, heap1: Heap, val1: map<Ptr, Value>, heap: Heap,
                    val: map<Ptr, Value>)
    requires Shrinks(heap1, val1, heap, val) && heap1 == heap0 - {p} && val1 == val0 - {p}
    ensures Shrinks(heap0, val0, heap, val)
  { }

  lemma ShrinksTrans(heap0: Heap, val0: map<Ptr, Value>, heap1: Heap, val1: map<Ptr, Value>, heap2: Heap,
                     val2: map<Ptr, Value>)
    requires Shrinks(heap0, val0, heap1, val1) && Shrinks(heap1, val1, heap2, val2)
    ensures Shrinks(heap0, val0, heap2, val2)
  { }

  lemma ShrinksSelf(heap: Heap, val: map<Ptr, Value>)
    requires Consistent(heap, val)
    ensures Shrinks(heap, val, heap, val)
  { }

  lemma AddRefKeeps(objs: seq<Ptr>, heap: Heap, counts: multiset<Ptr>, operands: seq<Ptr>, conts: seq<Ptr>,
                    handles: multiset<Ptr>, val: map<Ptr, Value>, p: Ptr)
    requires Balanced(objs, heap, counts, operands, conts, handles, val) && p in heap
    ensures Balanced(objs, heap, counts + multiset{p}, operands, conts, Also(handles, p), val)
  {
    CountedAdd(objs, heap, counts, Outside(operands, conts, handles), p);
    assert Outside(operands, conts, handles) + multiset{p} == Outside(operands, conts, Also(handles, p));
  }

  /** Whatever is referenced from outside is live. */
  lemma OutsideIsLive(objs: seq<Ptr>, heap: Heap, counts: multiset<Ptr>, operands: seq<Ptr>, conts: seq<Ptr>,
                      handles: multiset<Ptr>, val: map<Ptr, Value>, p: Ptr)
    requires Balanced(objs, heap, counts, operands, conts, handles, val)
    requires p == NIL || p in operands || p in conts || p in handles
    ensures p in heap && p in val && counts[p] > 0 && Consistent(heap, val)
  {
    assert p in Outside(operands, conts, handles);
    assert counts[p] > 0;
  }

  lemma HandleIsLive(objs: seq<Ptr>, heap: Heap, counts: multiset<Ptr>, operands: seq<Ptr>, conts: seq<Ptr>,
                     rest: multiset<Ptr>, val: map<Ptr, Value>, p: Ptr)
    requires Balanced(objs, heap, counts, operands, conts, Also(rest, p), val)
    ensures p in heap && p in val && counts[p] > 0 && Consistent(heap, val)
  {
    OutsideIsLive(objs, heap, counts, operands, conts, Also(rest, p), val, p);
  }

  /** Giving up one of several references. */
  lemma DropKeeps(objs: seq<Ptr>, heap: Heap, counts: multiset<Ptr>, operands: seq<Ptr>, conts: seq<Ptr>,
                  rest: multiset<Ptr>, val: map<Ptr, Value>, p: Ptr)
    requires Balanced(objs, heap, counts, operands, conts, Also(rest, p), val) && counts[p] > 1
    ensures Balanced(objs, heap, counts - multiset{p}, operands, conts, rest, val)
  {
    var owned := Outside(operands, conts, Also(rest, p));
    CountedDrop(objs, heap, counts, owned, p);
    assert owned - multiset{p} == Outside(operands, conts, rest);
  }

  /** Giving up the last reference: the object goes, and the references in its
      fields become handles. */
  lemma FreeKeeps(objs: seq<Ptr>, heap: Heap, counts: multiset<Ptr>, operands: seq<Ptr>, conts: seq<Ptr>,
                  rest: multiset<Ptr>, val: map<Ptr, Value>, p: Ptr)
    requires Balanced(objs, heap, counts, operands, conts, Also(rest, p), val) && counts[p] == 1
    ensures p in heap && !heap[p].NilBody? && |Remove(objs, p)| < |objs|
    ensures Balanced(Remove(objs, p), heap - {p}, counts - multiset{p}, operands, conts,
                     rest + multiset(Children(heap[p])), val - {p})
  {
    hide Consistent, Counted, Remove;
    var owned := Outside(operands, conts, Also(rest, p));
    assert owned[p] > 0;
    CountedFree(objs, heap, counts, owned, p);
    LastReference(objs, heap, counts, owned, p);
    NotNil(heap, val, operands, conts, rest, p);
    RemoveUnreferenced(heap, val, p);
    RemoveLength(objs, heap, counts, owned, p);
    var kids := multiset(Children(heap[p]));
    assert owned - multiset{p} + kids == Outside(operands, conts, rest + kids);
  }

  lemma NotNil(heap: Heap, val: map<Ptr, Value>, operands: seq<Ptr>, conts: seq<Ptr>, rest: multiset<Ptr>, p: Ptr)
    requires Consistent(heap, val) && Outside(operands, conts, Also(rest, p))[p] == 1 && p in heap
    ensures !heap[p].NilBody?
  { }

  lemma RemoveLength(objs: seq<Ptr>, heap: Heap, counts: multiset<Ptr>, owned: multiset<Ptr>, p: Ptr)
    requires Counted(objs, heap, counts, owned) && p in heap
    ensures |Remove(objs, p)| < |objs|
  {
    RemoveElems(objs, p);
  }

  /** A new object: its fields take over handles. */
  lemma PublishKeeps(objs: seq<Ptr>, heap: Heap, counts: multiset<Ptr>, operands: seq<Ptr>, conts: seq<Ptr>,
                     rest: multiset<Ptr>, val: map<Ptr, Value>, p: Ptr, b: Body, v: Value)
    requires Balanced(objs, heap, counts, operands, conts, rest + multiset(Children(b)), val)
    requires p !in heap && p != NULL && !b.NilBody? && Denotes(b, v, val)
    ensures Balanced([p] + objs, heap[p := b], counts + multiset{p}, operands, conts, Also(rest, p), val[p := v])
  {
    var kids := multiset(Children(b));
    var owned := Outside(operands, conts, rest + kids);
    OutsideIsLive(objs, heap, counts, operands, conts, rest + kids, val, NIL);
    hide Consistent, Counted, Denotes;
    CountedPublish(objs, heap, counts, owned, p, b);
    AddObject(heap, val, p, b, v);
    assert owned - kids + multiset{p} == Outside(operands, conts, Also(rest, p));
  }

  /** The value an object stands for (nil if there is none). */
  ghost function Look(val: map<Ptr, Value>, p: Ptr): Value {
    if p in val then val[p] else Nil
  }

  /** References stay references to the same values. */
  ghost predicate Same(refs: multiset<Ptr>, val0: map<Ptr, Value>, val: map<Ptr, Value>) {
    forall p :: p in refs ==> Look(val, p) == Look(val0, p)
  }

  lemma Kept(refs: multiset<Ptr>, p: Ptr, val0: map<Ptr, Value>, val: map<Ptr, Value>)
    requires Same(Also(refs, p), val0, val)
    ensures Same(refs, val0, val) && Look(val, p) == Look(val0, p)
  {
    assert p in Also(refs, p);
  }

  lemma IsHeld(refs: multiset<Ptr>, p: Ptr)
    ensures p in Also(refs, p)
  { }

  lemma SameAt(refs: multiset<Ptr>, p: Ptr, val0: map<Ptr, Value>, val: map<Ptr, Value>)
    requires Same(refs, val0, val) && p in refs
    ensures Look(val, p) == Look(val0, p)
  { }

  lemma SameSelf(refs: multiset<Ptr>, val: map<Ptr, Value>)
    ensures Same(refs, val, val)
  { }

  lemma SameTrans(refs: multiset<Ptr>, val0: map<Ptr, Value>, val1: map<Ptr, Value>, val2: map<Ptr, Value>)
    requires Same(refs, val0, val1) && Same(refs, val1, val2)
    ensures Same(refs, val0, val2)
  { }

  /** The list a stack stands for; the first element is the top. */
  ghost function StackValue(stack: seq<Ptr>, val: map<Ptr, Value>): Value {
    if stack == [] then Nil
    else Cons(Look(val, stack[0]), StackValue(stack[1..], val))
  }

  lemma {:induction false} StackSame(stack: seq<Ptr>, val0: map<Ptr, Value>, val: map<Ptr, Value>)
    requires forall p :: p in stack ==> Look(val, p) == Look(val0, p)
    ensures StackValue(stack, val) == StackValue(stack, val0)
    decreases |stack|
  {
    if stack != [] { StackSame(stack[1..], val0, val); }
  }

  /** What stays referenced from outside stays what it is. */
  lemma StacksSame(objs: seq<Ptr>, heap: Heap, counts: multiset<Ptr>, operands: seq<Ptr>, conts: seq<Ptr>,
                   handles: multiset<Ptr>, val: map<Ptr, Value>, heap0: Heap, val0: map<Ptr, Value>)
    requires Balanced(objs, heap, counts, operands, conts, handles, val) && Shrinks(heap0, val0, heap, val)
    ensures Same(handles, val0, val)
    ensures StackValue(operands, val) == StackValue(operands, val0) && StackValue(conts, val) == StackValue(conts, val0)
  {
    forall p | p in operands || p in conts || p in handles ensures Look(val, p) == Look(val0, p) {
      OutsideIsLive(objs, heap, counts, operands, conts, handles, val, p);
    }
    StackSame(operands, val0, val);
    StackSame(conts, val0, val);
  }

  lemma ValuesStay(objs: seq<Ptr>, heap: Heap, counts: multiset<Ptr>, operands: seq<Ptr>, conts: seq<Ptr>,
                   rest: multiset<Ptr>, val: map<Ptr, Value>, b: Body, p: Ptr, v: Value)
    requires Balanced(objs, heap, counts, operands, conts, rest + multiset(Children(b)), val) && p !in heap
    ensures Same(rest, val, val[p := v])
    ensures StackValue(operands, val[p := v]) == StackValue(operands, val)
    ensures StackValue(conts, val[p := v]) == StackValue(conts, val)
  {
    var handles := rest + multiset(Children(b));
    forall q | q in operands || q in conts || q in rest ensures Look(val[p := v], q) == Look(val, q) {
      OutsideIsLive(objs, heap, counts, operands, conts, handles, val, q);
    }
    StackSame(operands, val, val[p := v]);
    StackSame(conts, val, val[p := v]);
  }

  /** A handle moves onto a stack. */
  lemma PushKeeps(objs: seq<Ptr>, heap: Heap, counts: multiset<Ptr>, operands: seq<Ptr>, conts: seq<Ptr>,
                  rest: multiset<Ptr>, val: map<Ptr, Value>, p: Ptr)
    requires Balanced(objs, heap, counts, operands, conts, Also(rest, p), val)
    ensures Balanced(objs, heap, counts, [p] + operands, conts, rest, val)
    ensures Balanced(objs, heap, counts, operands, [p] + conts, rest, val)
  {
    hide Counted, Consistent;
    var outside := Outside(operands, conts, Also(rest, p));
    assert outside == Outside([p] + operands, conts, rest);
    assert outside == Outside(operands, [p] + conts, rest);
  }

  lemma PushValue(stack: seq<Ptr>, p: Ptr, val: map<Ptr, Value>)
    ensures StackValue([p] + stack, val) == Cons(Look(val, p), StackValue(stack, val))
  {
    assert ([p] + stack)[1..] == stack;
  }

  /** The top of a stack becomes a handle. */
  lemma PopOperandKeeps(objs: seq<Ptr>, heap: Heap, counts: multiset<Ptr>, operands: seq<Ptr>, conts: seq<Ptr>,
                        handles: multiset<Ptr>, val: map<Ptr, Value>)
    requires Balanced(objs, heap, counts, operands, conts, handles, val) && operands != []
    ensures Balanced(objs, heap, counts, operands[1..], conts, Also(handles, operands[0]), val)
  {
    hide Counted, Consistent;
    assert operands == [operands[0]] + operands[1..];
    assert Outside(operands, conts, handles) == Outside(operands[1..], conts, Also(handles, operands[0]));
  }

  lemma PopContKeeps(objs: seq<Ptr>, heap: Heap, counts: multiset<Ptr>, operands: seq<Ptr>, conts: seq<Ptr>,
                     handles: multiset<Ptr>, val: map<Ptr, Value>)
    requires Balanced(objs, heap, counts, operands, conts, handles, val) && conts != []
    ensures Balanced(objs, heap, counts, operands, conts[1..], Also(handles, conts[0]), val)
  {
    hide Counted, Consistent;
    assert conts == [conts[0]] + conts[1..];
    assert Outside(operands, conts, handles) == Outside(operands, conts[1..], Also(handles, conts[0]));
  }

  /** What is left of `heap0` is exactly what can be reached in it from outside. */
  ghost predicate FreesExactly(heap0: Heap, heap: Heap, outside: multiset<Ptr>) {
    forall p :: p in heap <==> FromOutside(heap0, outside, p)
  }

  lemma ReleasedExactly(objs: seq<Ptr>, heap: Heap, counts: multiset<Ptr>, operands: seq<Ptr>, conts: seq<Ptr>,
                        handles: multiset<Ptr>, val: map<Ptr, Value>, heap0: Heap, val0: map<Ptr, Value>)
    requires Balanced(objs, heap, counts, operands, conts, handles, val)
    requires Shrinks(heap0, val0, heap, val) && Consistent(heap0, val0)
    ensures FreesExactly(heap0, heap, Outside(operands, conts, handles))
  {
    hide FromOutside, Counted;
    ConsistentIsWhole(heap, val);
    ConsistentIsWhole(heap0, val0);
    ExactlyReachable(objs, heap, val, counts, Outside(operands, conts, handles), heap0);
  }

  // ----- how deep releases nest -----

  /** Every object with fields at or below `p`, which stands for `v`, has one reference. */
  ghost predicate Unshared(heap: Heap, counts: multiset<Ptr>, p: Ptr, v: Value)
    decreases v
  {
    match v
    case Cons(h, t) =>
      && p in heap && heap[p].ConsBody? && counts[p] == 1
      && Unshared(heap, counts, heap[p].head, h) && Unshared(heap, counts, heap[p].tail, t)
    case Function(_, d) =>
      p in heap && heap[p].FunctionBody? && counts[p] == 1 && Unshared(heap, counts, heap[p].data, d)
    case _ => true
  }

  /** Releases elsewhere do not make a live object shared. */
  lemma {:induction false} UnsharedStays(heap0: Heap, counts0: multiset<Ptr>, val0: map<Ptr, Value>,
                                         heap: Heap, counts: multiset<Ptr>, val: map<Ptr, Value>, p: Ptr, v: Value)
    requires Unshared(heap0, counts0, p, v) && Shrinks(heap0, val0, heap, val) && Consistent(heap, val)
    requires p in heap && val[p] == v && counts <= counts0
    requires forall q {:trigger counts[q]} :: q in heap ==> counts[q] > 0
    ensures Unshared(heap, counts, p, v)
    decreases v
  {
    ReadObject(heap, val, p);
    match v {
      case Cons(h, t) =>
        assert 0 < counts[p] <= counts0[p];
        UnsharedStays(heap0, counts0, val0, heap, counts, val, heap[p].head, h);
        UnsharedStays(heap0, counts0, val0, heap, counts, val, heap[p].tail, t);
      case Function(_, d) =>
        assert 0 < counts[p] <= counts0[p];
        UnsharedStays(heap0, counts0, val0, heap, counts, val, heap[p].data, d);
      case _ =>
    }
  }

  /** The same, for what is held after some releases. */
  lemma HeldUnshared(objs: seq<Ptr>, heap: Heap, counts: multiset<Ptr>, operands: seq<Ptr>, conts: seq<Ptr>,
                     handles: multiset<Ptr>, val: map<Ptr, Value>, heap0: Heap, counts0: multiset<Ptr>,
                     val0: map<Ptr, Value>, p: Ptr)
    requires Balanced(objs, heap, counts, operands, conts, handles, val) && Shrinks(heap0, val0, heap, val)
    requires counts <= counts0 && p in handles
    ensures p in val && p in val0 && val[p] == val0[p]
    ensures Unshared(heap0, counts0, p, val0[p]) ==> Unshared(heap, counts, p, val[p])
  {
    OutsideIsLive(objs, heap, counts, operands, conts, handles, val, p);
    if Unshared(heap0, counts0, p, val0[p]) { UnsharedStays(heap0, counts0, val0, heap, counts, val, p, val[p]); }
  }

  /** `depth` is how deep the releases of the fields of `b` nest, an object of value `v`. */
  ghost predicate Nests(heap: Heap, counts: multiset<Ptr>, b: Body, v: Value, depth: nat) {
    && (depth == 0 <==> Children(b) == []) && depth <= Height(v)
    && (UnsharedFields(heap, counts, b, v) ==> depth == Height(v))
  }

  ghost predicate UnsharedFields(heap: Heap, counts: multiset<Ptr>, b: Body, v: Value) {
    match b
    case ConsBody(h, t) => v.Cons? && Unshared(heap, counts, h, v.head) && Unshared(heap, counts, t, v.tail)
    case FunctionBody(_, d) => v.Function? && Unshared(heap, counts, d, v.data)
    case _ => true
  }

  /** `depth` is how deep a release of `p` nests: one call, and below it those for the
      fields if it was the last reference. */
  ghost predicate ReleaseNests(heap: Heap, counts: multiset<Ptr>, p: Ptr, v: Value, depth: nat) {
    && depth >= 1 && p in heap && (depth == 1 <==> counts[p] > 1 || Children(heap[p]) == [])
    && depth <= 1 + Height(v) && (Unshared(heap, counts, p, v) ==> depth == 1 + Height(v))
  }

  lemma NestsOne(heap: Heap, counts: multiset<Ptr>, val: map<Ptr, Value>, p: Ptr, depth: nat)
    requires Consistent(heap, val) && p in heap && counts[p] == 1 && Nests(heap, counts, heap[p], Look(val, p), depth)
    ensures ReleaseNests(heap, counts, p, Look(val, p), 1 + depth)
  {
    ReadObject(heap, val, p);
  }

  lemma NestsNot(heap: Heap, counts: multiset<Ptr>, val: map<Ptr, Value>, p: Ptr)
    requires Consistent(heap, val) && p in heap && counts[p] > 1
    ensures ReleaseNests(heap, counts, p, Look(val, p), 1)
  {
    ReadObject(heap, val, p);
  }

  lemma NestsBoth(heap: Heap, counts: multiset<Ptr>, b: Body, v: Value, d1: nat,
                  heap1: Heap, counts1: multiset<Ptr>, d2: nat)
    requires b.ConsBody? && v.Cons? && ReleaseNests(heap, counts, b.head, v.head, d1)
    requires ReleaseNests(heap1, counts1, b.tail, v.tail, d2)
    requires Unshared(heap, counts, b.tail, v.tail) ==> Unshared(heap1, counts1, b.tail, v.tail)
    ensures Nests(heap, counts, b, v, Max(d1, d2))
  {
    assert Children(b) == [b.head, b.tail];
  }

  lemma NestsData(heap: Heap, counts: multiset<Ptr>, b: Body, v: Value, depth: nat)
    requires b.FunctionBody? && v.Function? && ReleaseNests(heap, counts, b.data, v.data, depth)
    ensures Nests(heap, counts, b, v, depth)
  {
    assert Children(b) == [b.data];
  }

  lemma NestsNothing(heap: Heap, counts: multiset<Ptr>, b: Body, v: Value)
    requires b.AtomBody? && v.Atom?
    ensures Nests(heap, counts, b, v, 0)
  { }

  /** Freeing an object leaves what is below its fields as shared as it was. */
  lemma FieldsStay(objs: seq<Ptr>, heap: Heap, counts: multiset<Ptr>, operands: seq<Ptr>, conts: seq<Ptr>,
                   rest: multiset<Ptr>, val: map<Ptr, Value>, p: Ptr, depth: nat)
    requires Balanced(objs, heap, counts, operands, conts, Also(rest, p), val) && counts[p] == 1
    ensures p in heap && p in val && val[p] == Look(val, p) && Denotes(heap[p], val[p], val - {p})
    ensures Nests(heap - {p}, counts - multiset{p}, heap[p], val[p], depth) ==>
              Nests(heap, counts, heap[p], Look(val, p), depth)
  {
    hide Counted, Remove, Outside, Height, Unshared, Also;
    HandleIsLive(objs, heap, counts, operands, conts, rest, val, p);
    FreeKeeps(objs, heap, counts, operands, conts, rest, val, p);
    ReadObject(heap, val, p);
    var b, handles := heap[p], rest + multiset(Children(heap[p]));
    assert Shrinks(heap, val, heap - {p}, val - {p});
    forall c | c in Children(b) ensures c in val - {p}
      && (Unshared(heap, counts, c, val[c]) ==> Unshared(heap - {p}, counts - multiset{p}, c, val[c]))
    {
      assert c in multiset(Children(b));
      assert c in handles;
      HeldUnshared(Remove(objs, p), heap - {p}, counts - multiset{p}, operands, conts, handles, val - {p},
                   heap, counts, val, c);
    }
    match b {
      case ConsBody(h, t) => assert Children(b)[0] == h && Children(b)[1] == t;
      case FunctionBody(_, d) => assert Children(b)[0] == d;
      case _ =>
    }
  }

  /** When the program starts, nil is alone. */
  lemma StartOk()
    ensures Balanced([NIL], map[NIL := NilBody], multiset{NIL}, [], [], multiset{}, map[NIL := Nil])
  {
    var heap, val := map[NIL := NilBody], map[NIL := Nil];
    assert [NIL][1..] == [];
    assert Elems([NIL]) == {NIL} && NoDup([NIL]);
    assert FieldRefs([NIL], heap) == multiset{};
    assert Denotes(heap[NIL], val[NIL], val);
  }

  /** An unfinished parser cell, not yet an object: `head` is null until it is
      known, and `tail` is the next such cell. */
  datatype Cell = Cell(head: Ptr, tail: Ptr)

  /** The globals of the program. The `refCount` fields are the multiplicities in
      `counts`. The handles are the references held by local variables and by
      unfinished parser cells. */
  class Memory {
    var heap: Heap
    var counts: multiset<Ptr>
    var operands: seq<Ptr>
    var conts: seq<Ptr>
    var cells: map<Ptr, Cell>
    var output: seq<string>
    ghost var handles: multiset<Ptr>
    ghost var objs: seq<Ptr>
    ghost var val: map<Ptr, Value>

    ghost predicate Valid() reads this {
      && Balanced(objs, heap, counts, operands, conts, handles, val)
      && cells.Keys !! heap.Keys && NULL !in cells
    }

    /** The machine state the stacks and the output stand for. */
    ghost function Abs(): State reads this {
      State(StackValue(operands, val), StackValue(conts, val), output)
    }

    /** Only nil lives, and the stacks are empty. */
    constructor ()
      ensures Valid() && handles == multiset{} && Abs() == State(Nil, Nil, [])
      ensures operands == [] && conts == [] && cells == map[]
    {
      heap, counts, operands, conts, output, cells := map[NIL := NilBody], multiset{NIL}, [], [], [], map[];
      handles, objs, val := multiset{}, [NIL], map[NIL := Nil];
      StartOk();
    }

    /** `object_add_ref`. */
    method AddRef(p: Ptr)
      requires Valid() && p in heap
      modifies this`counts, this`handles
      ensures Valid() && handles == Also(old(handles), p)
    {
      hide Balanced;
      AddRefKeeps(objs, heap, counts, operands, conts, handles, val, p);
      counts := counts + multiset{p};
      handles := Also(handles, p);
    }

    /** `object_release`: gives up a handle. If it was the last reference, the object's
        `dispose` releases the references in its fields and frees it; that of nil
        would abort the process. The result is how deep the calls nest. */
    method Release(p: Ptr, ghost rest: multiset<Ptr>) returns (ghost depth: nat)
      requires Valid() && handles == Also(rest, p)
      modifies this`heap, this`counts, this`handles, this`objs, this`val
      ensures Valid() && handles == rest && Abs() == old(Abs()) && Same(rest, old(val), val)
      ensures Shrinks(old(heap), old(val), heap, val) && |objs| <= |old(objs)| && counts <= old(counts)
      ensures FreesExactly(old(heap), heap, Outside(operands, conts, rest))
      ensures ReleaseNests(old(heap), old(counts), p, Look(old(val), p), depth)
      decreases |objs|, 1
    {
      hide Balanced, Shrinks, FreesExactly, Same, StackValue, Outside, Consistent, Also, Nests, ReleaseNests;
      HandleIsLive(objs, heap, counts, operands, conts, rest, val, p);
      if counts[p] - 1 == 0 {
        var inner := Dispose(p, rest);
        NestsOne(old(heap), old(counts), old(val), p, inner);
        depth := 1 + inner;
      } else {
        DropKeeps(objs, heap, counts, operands, conts, rest, val, p);
        NestsNot(heap, counts, val, p);
        counts := counts - multiset{p};
        handles := rest;
        ShrinksSelf(heap, val);
        depth := 1;
      }
      StacksSame(objs, heap, counts, operands, conts, rest, val, old(heap), old(val));
      ReleasedExactly(objs, heap, counts, operands, conts, rest, val, old(heap), old(val));
    }

    /** Dispose of an object whose last reference is given up. */
    method Dispose(p: Ptr, ghost rest: multiset<Ptr>) returns (ghost depth: nat)
      requires Valid() && handles == Also(rest, p) && counts[p] == 1
      modifies this`heap, this`counts, this`handles, this`objs, this`val
      ensures Valid() && handles == rest
      ensures Shrinks(old(heap), old(val), heap, val) && |objs| <= |old(objs)| && counts <= old(counts)
      ensures p in old(heap) && Nests(old(heap), old(counts), old(heap)[p], Look(old(val), p), depth)
      decreases |objs|, 0
    {
      hide Balanced, Shrinks, Also, Remove, Children, Nests, Denotes;
      FreeKeeps(objs, heap, counts, operands, conts, rest, val, p);
      FieldsStay(objs, heap, counts, operands, conts, rest, val, p, 0);
      var b := heap[p];
      ghost var v := val[p];
      counts := counts - multiset{p};
      heap, objs, val := heap - {p}, Remove(objs, p), val - {p};
      handles := rest + multiset(Children(b));
      ghost var heap1, val1 := heap, val;
      depth := ReleaseFields(b, rest, v);
      ShrinksFrom(old(heap), old(val), p, heap1, val1, heap, val);
      FieldsStay(old(objs), old(heap), old(counts), operands, conts, rest, old(val), p, depth);
    }

    /** Release the references that were in the fields of a dead object of value `v`. */
    method ReleaseFields(b: Body, ghost rest: multiset<Ptr>, ghost v: Value) returns (ghost depth: nat)
      requires Valid() && handles == rest + multiset(Children(b)) && !b.NilBody? && Denotes(b, v, val)
      modifies this`heap, this`counts, this`handles, this`objs, this`val
      ensures Valid() && handles == rest
      ensures Shrinks(old(heap), old(val), heap, val) && |objs| <= |old(objs)| && counts <= old(counts)
      ensures Nests(old(heap), old(counts), b, v, depth)
      decreases |objs|, 2
    {
      hide Balanced, Shrinks, FreesExactly, Same, StackValue, Outside, Consistent, Nests, ReleaseNests, Unshared;
      OutsideIsLive(objs, heap, counts, operands, conts, handles, val, NIL);
      match b {
        case ConsBody(h, t) =>
          assert multiset(Children(b)) == multiset{h, t};
          var d1 := Release(h, Also(rest, t));
          ghost var heap1, counts1, val1 := heap, counts, val;
          HeldUnshared(objs, heap, counts, operands, conts, handles, val, old(heap), old(counts), old(val), t);
          var d2 := Release(t, rest);
          ShrinksTrans(old(heap), old(val), heap1, val1, heap, val);
          NestsBoth(old(heap), old(counts), b, v, d1, heap1, counts1, d2);
          depth := Max(d1, d2);
        case FunctionBody(_, d) =>
          assert multiset(Children(b)) == multiset{d};
          depth := Release(d, rest);
          NestsData(old(heap), old(counts), b, v, depth);
        case AtomBody(_) =>
          assert multiset(Children(b)) == multiset{};
          ShrinksSelf(heap, val);
          NestsNothing(heap, counts, b, v);
          depth := 0;
      }
    }

    /** `malloc`, when there is memory. */
    method Malloc() returns (p: Ptr)
      requires Valid()
      ensures p != NULL && p !in heap && p !in cells
    {
      ghost var q := UnusedAddress(heap.Keys + cells.Keys);
      assert q != NULL && q !in heap && q !in cells;
      p :| p != NULL && p !in heap && p !in cells;
    }

    /** Make an object at `p` whose fields take over the handles to its children. */
    method Publish(p: Ptr, b: Body, ghost rest: multiset<Ptr>, ghost v: Value)
      requires Valid() && handles == rest + multiset(Children(b))
      requires p !in heap && p !in cells && p != NULL && !b.NilBody? && Denotes(b, v, val)
      modifies this`heap, this`counts, this`handles, this`objs, this`val
      ensures Valid() && handles == Also(rest, p) && Abs() == old(Abs()) && Look(val, p) == v
      ensures Same(rest, old(val), val)
      ensures heap == old(heap)[p := b]
    {
      hide Balanced, Same, Also, StackValue, Denotes;
      PublishKeeps(objs, heap, counts, operands, conts, rest, val, p, b, v);
      ValuesStay(objs, heap, counts, operands, conts, rest, val, b, p, v);
      counts := counts + multiset{p};
      heap, objs, val := heap[p := b], [p] + objs, val[p := v];
      handles := Also(rest, p);
    }

    /** Reading the object of a handle is taking its value apart. */
    lemma Read(p: Ptr)
      requires Valid() && (p in handles || p == NIL)
      ensures p in heap && p in val && p != NULL
      ensures p == NIL <==> Look(val, p).Nil?
      ensures heap[p].AtomBody? <==> Look(val, p).Atom?
      ensures heap[p].AtomBody? ==> Look(val, p).chars == heap[p].chars
      ensures heap[p].ConsBody? <==> Look(val, p).Cons?
      ensures heap[p].ConsBody? ==>
                && heap[p].head in heap && Look(val, heap[p].head) == Look(val, p).head
                && heap[p].tail in heap && Look(val, heap[p].tail) == Look(val, p).tail
      ensures heap[p].FunctionBody? <==> Look(val, p).Function?
      ensures heap[p].FunctionBody? ==>
                && Look(val, p).apply == heap[p].apply
                && heap[p].data in heap && Look(val, heap[p].data) == Look(val, p).data
    {
      OutsideIsLive(objs, heap, counts, operands, conts, handles, val, p);
      ReadObject(heap, val, p);
    }

    /** Every object is reachable from the stacks, the handles or nil. */
    lemma NothingLeaks()
      requires Valid()
      ensures forall p :: p in heap ==> FromOutside(heap, Outside(operands, conts, handles), p)
    {
      NoGarbage(objs, heap, val, counts, Outside(operands, conts, handles));
    }

    /** A filled cell becomes an object. */
    method PublishCons(p: Ptr, h: Ptr, t: Ptr, ghost rest: multiset<Ptr>)
      requires Valid() && handles == Also(Also(rest, h), t) && p !in heap && p !in cells && p != NULL
      modifies this`heap, this`counts, this`handles, this`objs, this`val
      ensures Valid() && handles == Also(rest, p) && Abs() == old(Abs()) && Same(rest, old(val), val)
      ensures Look(val, p) == Cons(Look(old(val), h), Look(old(val), t))
    {
      hide Balanced, Same, StackValue;
      assert h in handles && t in handles;
      Read(h);
      Read(t);
      var b := ConsBody(h, t);
      assert multiset(Children(b)) == multiset{h, t};
      Publish(p, b, rest, Cons(val[h], val[t]));
    }

    method CreateCons(h: Ptr, t: Ptr, ghost rest: multiset<Ptr>) returns (p: Ptr)
      requires Valid() && handles == Also(Also(rest, h), t)
      modifies this`heap, this`counts, this`handles, this`objs, this`val
      ensures Valid() && handles == Also(rest, p) && Abs() == old(Abs()) && Same(rest, old(val), val)
      ensures Look(val, p) == Cons(Look(old(val), h), Look(old(val), t))
    {
      hide Balanced, Same, StackValue, Also;
      p := Malloc();
      PublishCons(p, h, t, rest);
    }

    method CreateAtom(chars: string) returns (p: Ptr)
      requires Valid()
      modifies this`heap, this`counts, this`handles, this`objs, this`val
      ensures Valid() && handles == Also(old(handles), p) && Abs() == old(Abs()) && Same(old(handles), old(val), val)
      ensures Look(val, p) == Atom(chars)
    {
      hide Balanced, Same, StackValue;
      p := Malloc();
      var b := AtomBody(chars);
      assert multiset(Children(b)) == multiset{};
      Publish(p, b, handles, Atom(chars));
    }

    method CreateFunction(code: Code, data: Ptr, ghost rest: multiset<Ptr>) returns (p: Ptr)
      requires Valid() && handles == Also(rest, data)
      modifies this`heap, this`counts, this`handles, this`objs, this`val
      ensures Valid() && handles == Also(rest, p) && Abs() == old(Abs()) && Same(rest, old(val), val)
      ensures Look(val, p) == Function(code, Look(old(val), data))
    {
      hide Balanced, Same, StackValue;
      p := Malloc();
      assert data in handles;
      Read(data);
      var b := FunctionBody(code, data);
      assert multiset(Children(b)) == multiset{data};
      Publish(p, b, rest, Function(code, val[data]));
    }

    method CreateNil() returns (p: Ptr)
      requires Valid()
      modifies this`counts, this`handles
      ensures Valid() && handles == Also(old(handles), p) && Look(val, p) == Nil
    {
      hide Balanced;
      Read(NIL);
      AddRef(NIL);
      p := NIL;
    }

    method Push(p: Ptr, ghost rest: multiset<Ptr>)
      requires Valid() && handles == Also(rest, p)
      modifies this`operands, this`handles
      ensures Valid() && handles == rest && Abs() == Language.Push(Look(val, p), old(Abs()))
    {
      hide Balanced, StackValue, Also;
      PushKeeps(objs, heap, counts, operands, conts, rest, val, p);
      PushValue(operands, p, val);
      operands := [p] + operands;
      handles := rest;
    }

    method PushCont(p: Ptr, ghost rest: multiset<Ptr>)
      requires Valid() && handles == Also(rest, p)
      modifies this`conts, this`handles
      ensures Valid() && handles == rest && Abs() == Language.PushCont(Look(val, p), old(Abs()))
    {
      hide Balanced, StackValue, Also;
      PushKeeps(objs, heap, counts, operands, conts, rest, val, p);
      PushValue(conts, p, val);
      conts := [p] + conts;
      handles := rest;
    }

    method Pop() returns (r: Result<Ptr>)
      requires Valid()
      modifies this`operands, this`handles
      ensures Valid() && (r.Success? <==> old(Abs()).operands.Cons?)
      ensures r.Failure? ==> r.error == Abort
      ensures r.Success? ==>
                && handles == Also(old(handles), r.value) && Look(val, r.value) == old(Abs()).operands.head
                && Abs() == old(Abs()).(operands := old(Abs()).operands.tail)
    {
      hide Balanced, Also;
      if operands == [] { return Failure(Abort); }
      PopOperandKeeps(objs, heap, counts, operands, conts, handles, val);
      var p := operands[0];
      operands := operands[1..];
      handles := Also(handles, p);
      return Success(p);
    }

    method PopCont() returns (p: Ptr)
      requires Valid() && conts != []
      modifies this`conts, this`handles
      ensures old(Abs()).conts.Cons?
      ensures Valid() && handles == Also(old(handles), p) && Look(val, p) == old(Abs()).conts.head
      ensures Abs() == old(Abs()).(conts := old(Abs()).conts.tail)
    {
      hide Balanced, Also;
      PopContKeeps(objs, heap, counts, operands, conts, handles, val);
      p := conts[0];
      conts := conts[1..];
      handles := Also(handles, p);
    }
  }
}
