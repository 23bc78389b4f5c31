/** The memory of the garbage-collected interpreters: the object list, the root
    stack, both marking procedures, the sweep and the allocation limit. */
module Collector {
  import opened Language
  import opened Pointers
  import opened Marking
  import opened LinkedLists
  import opened Objects
  import opened Weights

  const LIMIT: nat := 10000

  // ----- marking by pointer reversal, on objects -----

  predicate SameClass(a: Body, b: Body) {
    match (a, b)
    case (NilBody, NilBody) => true
    case (AtomBody(s), AtomBody(t)) => s == t
    case (ConsBody(_, _), ConsBody(_, _)) => true
    case (FunctionBody(c, _), FunctionBody(d, _)) => c == d
    case _ => false
  }

  ghost predicate SameShape(heap0: Heap, heap: Heap) {
    heap.Keys == heap0.Keys && forall p :: p in heap ==> SameClass(heap0[p], heap[p])
  }

  lemma SameKidsSameHeap(heap0: Heap, heap: Heap)
    requires SameShape(heap0, heap) && Kids(heap) == Kids(heap0)
    ensures heap == heap0
  {
    forall p | p in heap ensures heap[p] == heap0[p] {
      assert Kids(heap)[p] == Children(heap[p]) && Kids(heap0)[p] == Children(heap0[p]);
    }
  }

  /** A cons waits for its head exactly while its `tail_is_next` bit is set. */
  ghost predicate BitsMatch(heap0: Heap, sp: Spine, tailIsNext: set<Ptr>) {
    match sp
    case Bottom => true
    case Node(p, i, below) =>
      && p in heap0 && i < |Children(heap0[p])|
      && (heap0[p].ConsBody? ==> (p in tailIsNext <==> i == 0))
      && BitsMatch(heap0, below, tailIsNext)
  }

  lemma {:induction false} BitsElsewhere(heap0: Heap, sp: Spine, bits: set<Ptr>, bits': set<Ptr>, p: Ptr)
    requires BitsMatch(heap0, sp, bits) && p !in Nodes(sp)
    requires forall x :: x != p ==> (x in bits <==> x in bits')
    ensures BitsMatch(heap0, sp, bits')
  {
    if sp.Node? { BitsElsewhere(heap0, sp.below, bits, bits', p); }
  }

  /** The invariant at both labels of `mark`; `sp` is what `parent` stands for. */
  ghost predicate LoopInv(heap0: Heap, marked0: set<Ptr>, reach: set<Ptr>, root: Ptr, sp: Spine,
                          heap: Heap, bits: set<Ptr>, marked: set<Ptr>, cur: Ptr, parent: Ptr) {
    && parent == Top(sp) && BitsMatch(heap0, sp, bits) && SameShape(heap0, heap)
    && MarkInv(Kids(heap0), marked0, reach, root, sp, Kids(heap), marked, cur)
  }

  lemma DescendKeeps(heap0: Heap, marked0: set<Ptr>, reach: set<Ptr>, root: Ptr, sp: Spine,
                     heap: Heap, bits: set<Ptr>, bits': set<Ptr>, marked: set<Ptr>, cur: Ptr, parent: Ptr)
    requires LoopInv(heap0, marked0, reach, root, sp, heap, bits, marked, cur, parent) && cur != NULL && cur !in marked
    requires cur in heap ==> bits' == if heap[cur].ConsBody? then bits + {cur} else bits
    ensures cur in heap && cur in heap0
    ensures Children(heap[cur]) == [] ==>
              LoopInv(heap0, marked0, reach, root, sp, heap, bits', marked + {cur}, cur, parent)
    ensures Children(heap[cur]) != [] ==>
              LoopInv(heap0, marked0, reach, root, Node(cur, 0, sp), heap[cur := WithChild(heap[cur], 0, parent)],
                      bits', marked + {cur}, Children(heap[cur])[0], cur)
  {
    var g0 := Kids(heap0);
    Descend(g0, marked0, reach, root, sp, Kids(heap), marked, cur);
    SpineMarkedMore(g0, sp, marked, marked);
    if Children(heap[cur]) != [] {
      KidsStore(heap, cur, 0, parent);
      BitsElsewhere(heap0, sp, bits, bits', cur);
      assert Kids(heap)[cur] == Children(heap[cur]) && Kids(heap0)[cur] == Children(heap0[cur]);
    }
  }

  lemma CursorExists(heap0: Heap, root: Ptr, sp: Spine, cur: Ptr)
    requires Whole(heap0) && root in heap0 && Spanning(Kids(heap0), root, sp, cur)
    ensures cur in heap0
  {
    if sp.Node? { assert cur in Children(heap0[sp.p]); }
  }

  /** The slot a node on the spine waits for, as its class keeps it. */
  function Waiting(b: Body, tailIsNext: bool): nat {
    if b.ConsBody? && !tailIsNext then 1 else 0
  }

  lemma ParentSlot(heap0: Heap, marked0: set<Ptr>, reach: set<Ptr>, root: Ptr, sp: Spine,
                   heap: Heap, bits: set<Ptr>, marked: set<Ptr>, cur: Ptr, parent: Ptr)
    requires LoopInv(heap0, marked0, reach, root, sp, heap, bits, marked, cur, parent) && Finished(cur, marked)
        && parent != NULL
    ensures sp.Node? && parent == sp.p && parent in heap && Waiting(heap[parent], parent in bits) == sp.slot
    ensures sp.slot < |Children(heap[parent])| && Children(heap[parent])[sp.slot] == Top(sp.below)
  {
    Swing(Kids(heap0), marked0, reach, root, sp, Kids(heap), marked, cur);
    assert Kids(heap)[parent] == Children(heap[parent]);
  }

  lemma SwingKeeps(heap0: Heap, marked0: set<Ptr>, reach: set<Ptr>, root: Ptr, sp: Spine,
                   heap: Heap, bits: set<Ptr>, marked: set<Ptr>, cur: Ptr, parent: Ptr)
    requires LoopInv(heap0, marked0, reach, root, sp, heap, bits, marked, cur, parent) && Finished(cur, marked)
    requires parent != NULL && parent in heap && sp.slot + 1 < |Children(heap[parent])|
    ensures var b := heap[parent];
            var sp' := Node(parent, sp.slot + 1, sp.below);
            && LoopInv(heap0, marked0, reach, root, sp', heap[parent := ConsBody(cur, Children(b)[0])], bits - {parent},
                       marked, Children(b)[1], parent)
            && SlotsLeft(Kids(heap0), sp') < SlotsLeft(Kids(heap0), sp)
  {
    var g0, g, i := Kids(heap0), Kids(heap), sp.slot;
    Swing(g0, marked0, reach, root, sp, g, marked, cur);
    var b := heap[parent];
    var b' := ConsBody(cur, Children(b)[0]);
    assert g[parent] == Children(b) && g0[parent] == Children(heap0[parent]);
    assert b.ConsBody? && i == 0;
    assert Put(Put(g[parent], 0, cur), 1, g[parent][0]) == Children(b');
    assert Kids(heap[parent := b']) == g[parent := Children(b')];
    BitsElsewhere(heap0, sp.below, bits, bits - {parent}, parent);
  }

  lemma AscendKeeps(heap0: Heap, marked0: set<Ptr>, reach: set<Ptr>, root: Ptr, sp: Spine,
                    heap: Heap, bits: set<Ptr>, marked: set<Ptr>, cur: Ptr, parent: Ptr)
    requires LoopInv(heap0, marked0, reach, root, sp, heap, bits, marked, cur, parent) && Finished(cur, marked)
    requires parent != NULL && parent in heap && sp.slot + 1 == |Children(heap[parent])|
    ensures var b := heap[parent];
            && LoopInv(heap0, marked0, reach, root, sp.below, heap[parent := WithChild(b, sp.slot, cur)], bits, marked,
                       parent, Children(b)[sp.slot])
            && SlotsLeft(Kids(heap0), sp.below) < SlotsLeft(Kids(heap0), sp)
            && parent in marked
  {
    var g0, g := Kids(heap0), Kids(heap);
    ParentSlot(heap0, marked0, reach, root, sp, heap, bits, marked, cur, parent);
    assert g[parent] == Children(heap[parent]) && g0[parent] == Children(heap0[parent]);
    Swing(g0, marked0, reach, root, sp, g, marked, cur);
    KidsStore(heap, parent, sp.slot, cur);
    Ascend(g0, marked0, reach, root, sp, g, marked, cur);
  }

  /** Every marked object outside `busy` has marked children. */
  ghost predicate MarkedExcept(g: Graph, busy: set<Ptr>, marked: set<Ptr>) {
    busy <= marked && forall p, c :: p in g && p in marked && p !in busy && c in g[p] ==> c in marked
  }

  lemma NoLongerBusy(heap: Heap, busy: set<Ptr>, marked: set<Ptr>, o: Ptr)
    requires o in heap && MarkedExcept(Kids(heap), busy + {o}, marked)
    requires forall c :: c in Children(heap[o]) ==> c in marked
    ensures MarkedExcept(Kids(heap), busy, marked)
  { }

  lemma ReachThroughChild(g: Graph, o: Ptr, c: Ptr)
    requires o in g && c in g && c in g[o]
    ensures ReachSet(g, c) <= ReachSet(g, o)
  {
    forall x | x in ReachSet(g, c) ensures x in ReachSet(g, o) {
      var path :| IsPath(g, path) && path[0] == c && path[|path| - 1] == x;
      assert ([o] + path)[1..] == path;
      assert IsPath(g, [o] + path);
    }
  }

  /** The sweep's effect on the objects: those in `rest` are still to be looked at. */
  ghost predicate Swept(heap0: Heap, m0: set<Ptr>, rest: seq<Ptr>, next: map<Ptr, Ptr>, heap: Heap, marked: set<Ptr>) {
    && heap == Restrict(heap0, m0 + Elems(rest)) && next.Keys == heap.Keys
    && marked == m0 * Elems(rest)
  }

  lemma SweepStart(objs: seq<Ptr>, next: map<Ptr, Ptr>, head: Ptr, heap: Heap, marked: set<Ptr>)
    requires Linked(next, head, objs, NULL) && heap.Keys == next.Keys == Elems(objs) && marked <= heap.Keys
    ensures Sweeping(next, head, [], objs, NULL) && head == First(objs)
    ensures Swept(heap, marked, objs, next, heap, marked)
    ensures forall keep :: Filter(objs, keep) == [] + Filter(objs, keep)
  {
    assert marked + Elems(objs) == heap.Keys;
    assert marked * Elems(objs) == marked;
  }

  lemma SweepEnd(objs: seq<Ptr>, kept: seq<Ptr>, next: map<Ptr, Ptr>, head: Ptr, prev: Ptr,
                 heap0: Heap, m0: set<Ptr>, heap: Heap, marked: set<Ptr>)
    requires Sweeping(next, head, kept, [], prev) && Swept(heap0, m0, [], next, heap, marked)
    requires Filter(objs, m0) == kept && Elems(objs) == heap0.Keys && m0 <= heap0.Keys
    ensures Linked(next, head, kept, NULL) && heap.Keys == next.Keys == Elems(kept)
    ensures heap == Restrict(heap0, m0) && marked == {}
  {
    FilterElems(objs, m0);
    assert m0 + Elems([]) == m0;
    assert Elems(objs) * m0 == m0;
  }

  lemma FirstOf(heap0: Heap, m0: set<Ptr>, rest: seq<Ptr>, next: map<Ptr, Ptr>, heap: Heap, marked: set<Ptr>)
    requires Swept(heap0, m0, rest, next, heap, marked) && rest != [] && rest[0] in next
    ensures rest[0] in heap && rest[0] in heap0 && heap[rest[0]] == heap0[rest[0]]
    ensures rest[0] in marked <==> rest[0] in m0
  {
    assert rest[0] in Elems(rest);
  }

  lemma SweptKeep(heap0: Heap, m0: set<Ptr>, rest: seq<Ptr>, next: map<Ptr, Ptr>, heap: Heap, marked: set<Ptr>)
    requires rest != [] && rest[0] in marked && rest[0] !in rest[1..] && Swept(heap0, m0, rest, next, heap, marked)
    ensures Swept(heap0, m0, rest[1..], next, heap, marked - {rest[0]})
  {
    ElemsIn(rest[1..], rest[0]);
    assert m0 + Elems(rest) == m0 + Elems(rest[1..]);
  }

  lemma SweptDrop(heap0: Heap, m0: set<Ptr>, rest: seq<Ptr>, next: map<Ptr, Ptr>, next': map<Ptr, Ptr>, heap: Heap,
                  marked: set<Ptr>)
    requires rest != [] && rest[0] !in marked && rest[0] !in rest[1..] && Swept(heap0, m0, rest, next, heap, marked)
    requires next'.Keys == next.Keys - {rest[0]}
    ensures Swept(heap0, m0, rest[1..], next', heap - {rest[0]}, marked)
    ensures rest[0] !in m0
  {
    ElemsIn(rest[1..], rest[0]);
    assert m0 + Elems(rest[1..]) == (m0 + Elems(rest)) - {rest[0]};
  }

  /** `objs` is the list through `next`, and holds every object once. */
  ghost predicate ListOf(objs: seq<Ptr>, next: map<Ptr, Ptr>, head: Ptr, heap: Heap, count: nat) {
    Linked(next, head, objs, NULL) && heap.Keys == next.Keys == Elems(objs) && count == |objs|
  }

  /** The roots are objects, the first of them nil. */
  ghost predicate RootsIn(roots: seq<Ptr>, heap: Heap) {
    |roots| >= 3 && roots[NIL_ROOT] == NIL && forall i :: 0 <= i < |roots| ==> roots[i] in heap
  }

  /** The root slots of the three global variables. */
  const NIL_ROOT: nat := 0
  const OPERAND_STACK: nat := 1
  const CONT_STACK: nat := 2

  /** The globals of the program. A bool field of the objects is the set of
      objects in which it is true; a rooted variable lives in its root slot. */
  class Runtime {
    var heap: Heap               // class and fields of every object
    var next: map<Ptr, Ptr>      // the `next` field of every object
    var marked: set<Ptr>         // the `marked` field
    var tailIsNext: set<Ptr>     // the `tail_is_next` field
    var heapHead: Ptr
    var roots: seq<Ptr>          // contents of the rooted variables, oldest first
    var objectCount: nat
    var output: seq<string>      // what has been printed
    var disposed: seq<Ptr>       // objects disposed so far
    ghost var objs: seq<Ptr>         // the object list
    ghost var val: map<Ptr, Value>   // what each object stands for

    /** The class's `start_marking`. */
    method StartMarking(cur: Ptr, parent: Ptr) returns (descend: bool, cur': Ptr, parent': Ptr)
      requires cur in heap
      modifies this`heap, this`tailIsNext
      ensures descend <==> Children(old(heap[cur])) != []
      ensures descend ==> cur' == Children(old(heap[cur]))[0] && parent' == cur
      ensures !descend ==> cur' == cur && parent' == parent
      ensures heap == if descend then old(heap)[cur := WithChild(old(heap[cur]), 0, parent)] else old(heap)
      ensures tailIsNext == if old(heap[cur]).ConsBody? then old(tailIsNext) + {cur} else old(tailIsNext)
    {
      match heap[cur] {
        case ConsBody(h, t) =>
          cur' := h;
          heap := heap[cur := ConsBody(parent, t)];
          parent' := cur;
          tailIsNext := tailIsNext + {cur};
          descend := true;
        case FunctionBody(c, d) =>
          cur' := d;
          heap := heap[cur := FunctionBody(c, parent)];
          parent' := cur;
          descend := true;
        case _ =>
          descend, cur', parent' := false, cur, parent;
      }
    }

    /** The class's `mark_next`; atoms and nil are never a parent. */
    method MarkNext(cur: Ptr, parent: Ptr) returns (more: bool, cur': Ptr, parent': Ptr)
      requires parent in heap && Children(heap[parent]) != []
      modifies this`heap, this`tailIsNext
      ensures var b := old(heap[parent]);
              var i := Waiting(b, parent in old(tailIsNext));
              && (more <==> i + 1 < |Children(b)|)
              && (more ==> && cur' == Children(b)[1] && parent' == parent
                           && heap == old(heap)[parent := ConsBody(cur, Children(b)[0])]
                           && tailIsNext == old(tailIsNext) - {parent})
              && (!more ==> && cur' == parent && parent' == Children(b)[i]
                            && heap == old(heap)[parent := WithChild(b, i, cur)]
                            && tailIsNext == old(tailIsNext))
    {
      match heap[parent] {
        case ConsBody(h, t) =>
          if parent in tailIsNext {
            var grandparent := h;
            cur' := t;
            heap := heap[parent := ConsBody(cur, grandparent)];
            tailIsNext := tailIsNext - {parent};
            more, parent' := true, parent;
          } else {
            parent' := t;
            heap := heap[parent := ConsBody(h, cur)];
            cur' := parent;
            more := false;
          }
        case FunctionBody(c, d) =>
          parent' := d;
          heap := heap[parent := FunctionBody(c, cur)];
          cur' := parent;
          more := false;
      }
    }

    /** From label `start_marking` to the next label. */
    method VisitNode(cur: Ptr, parent: Ptr, ghost heap0: Heap, ghost marked0: set<Ptr>, ghost reach: set<Ptr>,
                     ghost root: Ptr, ghost sp: Spine)
      returns (starting: bool, cur': Ptr, parent': Ptr, ghost sp': Spine)
      requires LoopInv(heap0, marked0, reach, root, sp, heap, tailIsNext, marked, cur, parent) && cur in heap0
      modifies this`heap, this`marked, this`tailIsNext
      ensures LoopInv(heap0, marked0, reach, root, sp', heap, tailIsNext, marked, cur', parent')
      ensures !starting ==> Finished(cur', marked)
      ensures if cur in old(marked) then marked == old(marked) && sp' == sp && !starting
              else marked == old(marked) + {cur}
    {
      if cur in marked {
        starting, cur', parent', sp' := false, cur, parent, sp;
      } else {
        ghost var bits' := if heap[cur].ConsBody? then tailIsNext + {cur} else tailIsNext;
        DescendKeeps(heap0, marked0, reach, root, sp, heap, tailIsNext, bits', marked, cur, parent);
        marked := marked + {cur};
        starting, cur', parent' := StartMarking(cur, parent);
        sp' := if starting then Node(parent', 0, sp) else sp;
      }
    }

    /** From label `mark_next`, with a parent, to the next label. */
    method ResumeParent(cur: Ptr, parent: Ptr, ghost heap0: Heap, ghost marked0: set<Ptr>, ghost reach: set<Ptr>,
                        ghost root: Ptr, ghost sp: Spine)
      returns (starting: bool, cur': Ptr, parent': Ptr, ghost sp': Spine)
      requires LoopInv(heap0, marked0, reach, root, sp, heap, tailIsNext, marked, cur, parent)
      requires Finished(cur, marked) && parent != NULL
      modifies this`heap, this`tailIsNext
      ensures LoopInv(heap0, marked0, reach, root, sp', heap, tailIsNext, marked, cur', parent')
      ensures !starting ==> Finished(cur', marked)
      ensures SlotsLeft(Kids(heap0), sp') < SlotsLeft(Kids(heap0), sp)
    {
      ParentSlot(heap0, marked0, reach, root, sp, heap, tailIsNext, marked, cur, parent);
      if sp.slot + 1 < |Children(heap[parent])| {
        SwingKeeps(heap0, marked0, reach, root, sp, heap, tailIsNext, marked, cur, parent);
      } else {
        AscendKeeps(heap0, marked0, reach, root, sp, heap, tailIsNext, marked, cur, parent);
      }
      starting, cur', parent' := MarkNext(cur, parent);
      sp' := if starting then Node(parent, sp.slot + 1, sp.below) else sp.below;
    }

    /** `mark` of the pointer-reversing collector: exactly what is reachable gets
        marked, and every pointer ends up where it was. */
    method Mark(root: Ptr)
      requires Whole(heap) && root in heap && ClosedSet(Kids(heap), marked)
      modifies this`heap, this`marked, this`tailIsNext
      ensures heap == old(heap)
      ensures marked == MarkSpec(Kids(heap), old(marked), root)
    {
      var cur, parent := root, NULL;
      ghost var heap0, marked0, sp := heap, marked, Bottom;
      ghost var reach := ReachSet(Kids(heap0), root);
      StartRun(Kids(heap0), marked0, root);
      var starting := true;  // at label `start_marking`, else at `mark_next`
      while starting || parent != NULL
        invariant LoopInv(heap0, marked0, reach, root, sp, heap, tailIsNext, marked, cur, parent)
        invariant !starting ==> Finished(cur, marked)
        decreases heap0.Keys - marked, SlotsLeft(Kids(heap0), sp), starting
      {
        if starting {
          CursorExists(heap0, root, sp, cur);
          starting, cur, parent, sp := VisitNode(cur, parent, heap0, marked0, reach, root, sp);
        } else {
          starting, cur, parent, sp := ResumeParent(cur, parent, heap0, marked0, reach, root, sp);
        }
      }
      EndRun(Kids(heap0), marked0, root, sp, Kids(heap), marked, cur);
      SameKidsSameHeap(heap0, heap);
    }

    /** `mark` of the simple collector, a recursion over the objects' classes.
        `busy` are the objects whose marking is under way. */
    method RecursiveMark(o: Ptr, ghost busy: set<Ptr>)
      requires Whole(heap) && o in heap && MarkedExcept(Kids(heap), busy, marked)
      modifies this`marked
      ensures old(marked) + {o} <= marked <= MarkSpec(Kids(heap), old(marked), o)
      ensures MarkedExcept(Kids(heap), busy, marked)
      ensures busy == {} ==> marked == MarkSpec(Kids(heap), old(marked), o)
      decreases heap.Keys - marked, 0
    {
      ghost var g := Kids(heap);
      ReachableSelf(g, o);
      if o !in marked {
        marked := marked + {o};
        MarkChildren(o, busy + {o});
        NoLongerBusy(heap, busy, marked, o);
      }
      if busy == {} { MarkedExactly(g, old(marked), marked, o); }
    }

    /** The class's `mark`. */
    method MarkChildren(o: Ptr, ghost busy: set<Ptr>)
      requires Whole(heap) && o in heap && MarkedExcept(Kids(heap), busy, marked)
      modifies this`marked
      ensures old(marked) <= marked <= MarkSpec(Kids(heap), old(marked), o)
      ensures MarkedExcept(Kids(heap), busy, marked)
      ensures forall c :: c in Children(heap[o]) ==> c in marked
      decreases heap.Keys - marked, 1
    {
      match heap[o] {
        case ConsBody(h, t) =>
          assert Children(heap[o])[0] == h && Children(heap[o])[1] == t;
          ReachThroughChild(Kids(heap), o, h);
          ReachThroughChild(Kids(heap), o, t);
          RecursiveMark(h, busy);
          RecursiveMark(t, busy);
        case FunctionBody(_, d) =>
          assert Children(heap[o])[0] == d;
          ReachThroughChild(Kids(heap), o, d);
          RecursiveMark(d, busy);
        case _ =>
      }
    }

    // ----- the object list -----

    /** `objs` is the list through `next`, and holds every object once. */
    ghost predicate ListOk() reads this {
      ListOf(objs, next, heapHead, heap, objectCount)
    }

    /** The class's `dispose`; that of nil aborts the process. */
    method Dispose(o: Ptr)
      requires o in heap && !heap[o].NilBody?
      modifies this`heap, this`next, this`disposed
      ensures heap == old(heap) - {o} && next == old(next) - {o} && disposed == old(disposed) + [o]
    {
      heap := heap - {o};
      next := next - {o};
      disposed := disposed + [o];
    }

    /** Store `o->next` in the slot after `prev` and dispose `o`. */
    method RemoveAt(prev: Ptr, o: Ptr)
      requires o in heap && !heap[o].NilBody? && o in next && (prev == NULL || prev in next) && objectCount > 0
      modifies this`heap, this`next, this`heapHead, this`objectCount, this`disposed
      ensures heapHead == if prev == NULL then old(next)[o] else old(heapHead)
      ensures next == (if prev == NULL then old(next) else old(next)[prev := old(next)[o]]) - {o}
      ensures heap == old(heap) - {o} && disposed == old(disposed) + [o] && objectCount == old(objectCount) - 1
    {
      objectCount := objectCount - 1;
      if prev == NULL { heapHead := next[o]; } else { next := next[prev := next[o]]; }
      Dispose(o);
    }

    /** The sweep stands at `o`, the first of `rest`; `disposed0` is the log it started with. */
    ghost predicate SweepingAt(objs0: seq<Ptr>, heap0: Heap, m0: set<Ptr>, disposed0: seq<Ptr>,
                               kept: seq<Ptr>, rest: seq<Ptr>, prev: Ptr, o: Ptr)
      reads this
    {
      && Sweeping(next, heapHead, kept, rest, prev) && o == First(rest)
      && Swept(heap0, m0, rest, next, heap, marked)
      && Filter(objs0, m0) == kept + Filter(rest, m0)
      && disposed0 + Filter(objs0, heap0.Keys - m0) == disposed + Filter(rest, heap0.Keys - m0)
      && objectCount == |kept| + |rest|
    }

    /** Keep a marked object: clear its mark and move past it. */
    method Keep(prev: Ptr, o: Ptr, ghost objs0: seq<Ptr>, ghost heap0: Heap, ghost m0: set<Ptr>,
                ghost disposed0: seq<Ptr>, ghost kept: seq<Ptr>, ghost rest: seq<Ptr>)
      returns (o': Ptr)
      requires SweepingAt(objs0, heap0, m0, disposed0, kept, rest, prev, o) && o != NULL && o in marked
      modifies this`marked
      ensures SweepingAt(objs0, heap0, m0, disposed0, kept + [o], rest[1..], o, o')
    {
      SweepAt(next, heapHead, kept, rest, prev);
      FilterFirst(kept, rest, m0);
      FilterFirst(disposed, rest, heap0.Keys - m0);
      SweepKeep(next, heapHead, kept, rest, prev);
      SweptKeep(heap0, m0, rest, next, heap, marked);
      SweepAt(next, heapHead, kept + [o], rest[1..], o);
      marked := marked - {o};
      o' := next[o];
    }

    /** Take an unmarked object out of the list, at the slot after `prev`, and dispose it. */
    method Unlink(prev: Ptr, o: Ptr, ghost objs0: seq<Ptr>, ghost heap0: Heap, ghost m0: set<Ptr>,
                  ghost disposed0: seq<Ptr>, ghost kept: seq<Ptr>, ghost rest: seq<Ptr>)
      returns (o': Ptr)
      requires SweepingAt(objs0, heap0, m0, disposed0, kept, rest, prev, o) && o != NULL && o !in marked
      requires forall x :: x in heap0 && heap0[x].NilBody? ==> x in m0
      modifies this`heap, this`next, this`heapHead, this`objectCount, this`disposed
      ensures SweepingAt(objs0, heap0, m0, disposed0, kept, rest[1..], prev, o')
    {
      SweepAt(next, heapHead, kept, rest, prev);
      FirstOf(heap0, m0, rest, next, heap, marked);
      FilterFirst(kept, rest, m0);
      FilterFirst(disposed, rest, heap0.Keys - m0);
      SweepDrop(next, heapHead, kept, rest, prev);
      SweptDrop(heap0, m0, rest, next, (if prev == NULL then next else next[prev := next[o]]) - {o}, heap, marked);
      RemoveAt(prev, o);
      SweepAt(next, heapHead, kept, rest[1..], prev);
      o' := if prev == NULL then heapHead else next[prev];
    }

    /** The second half of `gc`: unlink and dispose what is not marked. */
    method Sweep()
      requires ListOk() && marked <= heap.Keys
      requires forall o :: o in heap && heap[o].NilBody? ==> o in marked
      modifies this`heap, this`next, this`marked, this`heapHead, this`objectCount, this`disposed, this`objs
      ensures ListOk() && marked == {}
      ensures objs == Filter(old(objs), old(marked)) && heap == Restrict(old(heap), old(marked))
      ensures disposed == old(disposed) + Filter(old(objs), old(heap.Keys - marked))
    {
      ghost var objs0, heap0, m0, disposed0 := objs, heap, marked, disposed;
      ghost var kept: seq<Ptr>, rest := [], objs;
      var prev: Ptr := NULL;  // `h` is `&heap_head` when null, else `&prev->next`
      var o: Ptr := heapHead;
      SweepStart(objs, next, heapHead, heap, marked);
      while o != NULL
        invariant SweepingAt(objs0, heap0, m0, disposed0, kept, rest, prev, o)
        decreases |rest|
      {
        SweepAt(next, heapHead, kept, rest, prev);
        if o in marked {
          ghost var kept' := kept + [o];
          var o' := Keep(prev, o, objs0, heap0, m0, disposed0, kept, rest);
          prev, o, kept := o, o', kept';
        } else {
          o := Unlink(prev, o, objs0, heap0, m0, disposed0, kept, rest);
        }
        rest := rest[1..];
      }
      SweepAt(next, heapHead, kept, rest, prev);
      assert rest == [] && kept + [] == kept && disposed + [] == disposed;
      SweepEnd(objs0, kept, next, heapHead, prev, heap0, m0, heap, marked);
      objs := kept;
    }

    // ----- collection and allocation -----

    /** `init_globals`: the nil object and the three global roots. */
    constructor ()
      ensures Valid() && roots == [NIL, NIL, NIL] && objs == [NIL] && heap == map[NIL := NilBody]
      ensures output == [] && disposed == []
    {
      heap, val := map[NIL := NilBody], map[NIL := Nil];
      next, heapHead, objs, objectCount := map[NIL := NULL], NIL, [NIL], 1;
      marked, tailIsNext := {}, {};
      roots, output, disposed := [NIL, NIL, NIL], [], [];
    }

    /** The invariant of the runtime outside a collection. */
    ghost predicate Valid() reads this {
      && ListOk() && marked == {} && objectCount <= LIMIT
      && Consistent(heap, val) && val.Keys == heap.Keys && RootsIn(roots, heap)
      && NIL !in disposed
    }

    /** The first half of `gc`: mark from every root, the newest first. */
    method MarkRoots()
      requires Whole(heap) && marked == {} && forall i :: 0 <= i < |roots| ==> roots[i] in heap
      modifies this`heap, this`marked, this`tailIsNext
      ensures heap == old(heap) && marked == Live(heap, roots)
    {
      ghost var heap0 := heap;
      var i := |roots|;
      assert Live(heap, roots[|roots|..]) == {};
      while i > 0
        invariant 0 <= i <= |roots| && heap == heap0 && marked == Live(heap, roots[i..])
      {
        i := i - 1;
        LiveFacts(heap, roots[i + 1..]);
        assert roots[i..][1..] == roots[i + 1..];
        Mark(roots[i]);
      }
      assert roots[0..] == roots;
    }

    /** `gc`: what is reachable from the roots stays, unchanged and in order; each
        other object is disposed once. */
    method Gc()
      requires Valid()
      modifies this`heap, this`next, this`marked, this`tailIsNext, this`heapHead, this`objectCount, this`disposed,
          this`objs, this`val
      ensures Valid()
      ensures var live := Live(old(heap), roots);
              && objs == Filter(old(objs), live)
              && heap == Restrict(old(heap), live) && val == Restrict(old(val), live)
              && disposed == old(disposed) + Filter(old(objs), old(heap).Keys - live)
    {
      ConsistentIsWhole(heap, val);
      MarkRoots();
      ghost var live := marked;
      LiveIsConsistent(heap, val, roots);
      FilterElems(objs, live);
      NotFiltered(objs, heap.Keys - live, NIL);
      Sweep();
      val := Restrict(val, live);
    }

    /** What the next allocation leaves of the present objects. */
    ghost function Survivors(): set<Ptr> reads this {
      if objectCount == LIMIT then Live(heap, roots) else heap.Keys
    }

    /** The heap is at its limit and every object is in use. */
    ghost predicate Full() reads this {
      Valid() && objectCount == LIMIT && Live(heap, roots) == heap.Keys
    }

    /** A full heap takes rooted values of as many nodes. */
    lemma FullWeighs()
      requires Full()
      ensures LIMIT <= Weigh(roots, val)
    {
      LiveBound(heap, val, roots);
      LinkedDistinct(next, heapHead, objs);
      ElemsSize(objs);
    }

    /** The nodes of the rooted values. */
    ghost function Load(): nat reads this { Weigh(roots, val) }

    /** `malloc`: an address not in use. */
    method Malloc() returns (p: Ptr)
      requires Valid()
      ensures p != NULL && p !in heap
    {
      ghost var q := UnusedAddress(heap.Keys);
      assert q != NULL && q !in heap;
      p :| p != NULL && p !in heap;
    }

    /** Collect if the limit is reached; there is room unless the heap was full. */
    method MakeRoom() returns (room: bool)
      requires Valid()
      modifies this
      ensures Valid() && roots == old(roots) && output == old(output)
      ensures room <==> !old(Full())
      ensures if room then objectCount < LIMIT else Full()
      ensures heap == Restrict(old(heap), old(Survivors())) && val == Restrict(old(val), old(Survivors()))
      ensures objs == Filter(old(objs), old(Survivors()))
    {
      if objectCount == LIMIT {
        LiveIsConsistent(heap, val, roots);
        KeepFacts(objs, heap, val, Live(heap, roots));
        Gc();
      } else {
        KeepFacts(objs, heap, val, heap.Keys);
      }
      room := objectCount != LIMIT;
    }

    /** Put a new object at the head of the object list. */
    method Prepend(o: Ptr, b: Body)
      requires Valid() && o != NULL && o !in heap && !b.NilBody? && ChildrenIn(b, val) && objectCount < LIMIT
      modifies this`heap, this`next, this`heapHead, this`objectCount, this`objs, this`val
      ensures Valid() && objs == [o] + old(objs)
      ensures heap == old(heap)[o := b] && val == old(val)[o := ValueOf(b, old(val))]
    {
      PrependKeeps(objs, next, heapHead, heap, objectCount, o, b);
      AddObject(heap, val, o, b, ValueOf(b, val));
      objectCount := objectCount + 1;
      next := next[o := heapHead];
      heap := heap[o := b];
      val := val[o := ValueOf(b, val)];
      heapHead := o;
      objs := [o] + objs;
    }

    /** `register_object`: collect if the limit is reached, then add `o`; fails
        exactly when all 10000 objects are live. Its children are rooted. */
    method RegisterObject(o: Ptr, b: Body) returns (r: Result<()>)
      requires Valid() && o != NULL && o !in heap && !b.NilBody?
      requires forall c :: c in Children(b) ==> c in roots
      modifies this
      ensures roots == old(roots) && output == old(output)
      ensures r.Failure? <==> old(Full())
      ensures r.Failure? ==> r.error == OutOfMemory && Full()
      ensures r.Success? ==>
                && Valid() && heap == Restrict(old(heap), old(Survivors()))[o := b]
                && objs == [o] + Filter(old(objs), old(Survivors()))
                && ChildrenIn(b, old(val)) && val == Restrict(old(val), old(Survivors()))[o := ValueOf(b, old(val))]
    {
      var room := MakeRoom();
      if !room {
        return Failure(OutOfMemory);
      }
      assert ChildrenIn(b, val) && ChildrenIn(b, old(val)) && ValueOf(b, val) == ValueOf(b, old(val)) by {
        SameValueOf(b, old(val), val);
      }
      Prepend(o, b);
      return Success(());
    }

    // ----- roots -----

    method PushRoot(p: Ptr)
      requires Valid() && p in heap
      modifies this`roots
      ensures Valid() && roots == old(roots) + [p] && Load() == old(Load()) + Weight(val[p])
    {
      WeighAppend(roots, p, val);
      roots := roots + [p];
    }

    /** Assign to a rooted variable; the nil root is never assigned. */
    method SetRoot(slot: nat, p: Ptr)
      requires Valid() && NIL_ROOT < slot < |roots| && p in heap
      modifies this`roots
      ensures Valid() && roots == PutRoot(old(roots), slot, p)
      ensures Load() + Weight(val[old(roots)[slot]]) == old(Load()) + Weight(val[p])
    {
      WeighSlot(roots, val, roots[slot := p], val, slot);
      roots := roots[slot := p];
    }

    method PopRoot()
      requires Valid() && |roots| > 3
      modifies this`roots
      ensures Valid() && roots == old(roots)[..|old(roots)| - 1]
    {
      roots := roots[..|roots| - 1];
    }

    // ----- objects -----

    /** `o` is a new object of value `v`; every other object was there before. */
    twostate predicate Allocated(o: Ptr, b: Body, v: Value) reads this {
      && Valid() && roots == old(roots) && output == old(output) && Load() == old(Load())
      && o in heap && o !in old(heap) && heap[o] == b && val[o] == v
      && OnlyNew(old(heap), old(val), heap, val, o)
    }

    /** The process is aborted for want of memory, which the rooted values and `more`
        nodes account for. */
    twostate predicate Exhausted(e: Error, more: nat) reads this {
      e == OutOfMemory && Full() && output == old(output) && LIMIT <= old(Load()) + more
    }

    /** `register_object` as its callers see it. */
    method Register(o: Ptr, b: Body) returns (r: Result<()>)
      requires Valid() && o != NULL && o !in heap && !b.NilBody? && ChildrenIn(b, val)
      requires forall c :: c in Children(b) ==> c in roots
      modifies this
      ensures r.Failure? ==> Exhausted(r.error, 0)
      ensures r.Success? ==> Allocated(o, b, ValueOf(b, old(val)))
    {
      hide ListOf, Consistent;
      ghost var keep, val0 := Survivors(), val;
      RestrictOnlyNew(heap, val, keep, o, b, ValueOf(b, val));
      if Full() { FullWeighs(); }
      r := RegisterObject(o, b);
      if r.Success? { WeighNew(roots, val0, val, o); }
    }

    /** Register a cons while its fields are rooted. */
    method RegisterCons(cons: Ptr, head: Ptr, tail: Ptr) returns (r: Result<()>)
      requires Valid() && cons != NULL && cons !in heap && head in heap && tail in heap
      modifies this
      ensures r.Failure? ==> Exhausted(r.error, Weight(old(val)[head]) + Weight(old(val)[tail]))
      ensures r.Success? ==>
                && Valid() && roots == old(roots) + [head] + [tail] && output == old(output)
                && cons in heap && heap[cons] == ConsBody(head, tail)
                && val[cons] == Cons(old(val)[head], old(val)[tail]) && OnlyNew(old(heap), old(val), heap, val, cons)
    {
      hide ListOf, Consistent, Weigh, Weight, OnlyNew, Live;
      PushRoot(head);
      PushRoot(tail);
      assert roots[|roots| - 1] == tail && roots[|roots| - 2] == head;
      r := Register(cons, ConsBody(head, tail));
    }

    /** `create_cons`, with all it says about the heap. */
    method NewCons(head: Ptr, tail: Ptr) returns (r: Result<Ptr>)
      requires Valid() && head in heap && tail in heap
      modifies this
      ensures r.Failure? ==> Exhausted(r.error, Weight(old(val)[head]) + Weight(old(val)[tail]))
      ensures r.Success? ==> Allocated(r.value, ConsBody(head, tail), Cons(old(val)[head], old(val)[tail]))
    {
      hide ListOf, Consistent, Weigh, OnlyNew;
      ghost var roots0, heap0, val0 := roots, heap, val;
      var cons := Malloc();
      var _ :- RegisterCons(cons, head, tail);
      PopRoot();
      PopRoot();
      WeighOld(roots0, heap0, val0, heap, val, cons);
      return Success(cons);
    }

    /** `create_atom`, with all it says about the heap. */
    method NewAtom(chars: string) returns (r: Result<Ptr>)
      requires Valid()
      modifies this
      ensures r.Failure? ==> Exhausted(r.error, 0)
      ensures r.Success? ==> Allocated(r.value, AtomBody(chars), Atom(chars))
    {
      hide ListOf, Consistent, Weigh;
      var atom := Malloc();
      var _ :- Register(atom, AtomBody(chars));
      return Success(atom);
    }

    /** `o` is an object of value `v`; the roots keep their objects and values. */
    twostate predicate Created(o: Ptr, v: Value) reads this {
      && Valid() && roots == old(roots) && output == old(output) && Load() == old(Load())
      && o in heap && val[o] == v && KeepsRoots(old(roots), old(val), roots, val, {})
    }

    method CreateCons(head: Ptr, tail: Ptr) returns (r: Result<Ptr>)
      requires Valid() && head in heap && tail in heap
      modifies this
      ensures r.Failure? ==> Exhausted(r.error, Weight(old(val)[head]) + Weight(old(val)[tail]))
      ensures r.Success? ==> Created(r.value, Cons(old(val)[head], old(val)[tail]))
    {
      hide ListOf, Weigh;
      r := NewCons(head, tail);
    }

    method CreateAtom(chars: string) returns (r: Result<Ptr>)
      requires Valid()
      modifies this
      ensures r.Failure? ==> Exhausted(r.error, 0)
      ensures r.Success? ==> Created(r.value, Atom(chars))
    {
      hide ListOf, Weigh;
      r := NewAtom(chars);
    }

    method CreateFunction(apply: Code, data: Ptr) returns (r: Result<Ptr>)
      requires Valid() && data in heap
      modifies this
      ensures r.Failure? ==> Exhausted(r.error, Weight(old(val)[data]))
      ensures r.Success? ==> Created(r.value, Function(apply, old(val)[data]))
    {
      hide ListOf, Weigh;
      ghost var roots0, heap0, val0 := roots, heap, val;
      var f := Malloc();
      PushRoot(data);
      assert roots[|roots| - 1] == data;
      var _ :- Register(f, FunctionBody(apply, data));
      PopRoot();
      WeighOld(roots0, heap0, val0, heap, val, f);
      return Success(f);
    }
  }

  /** An allocation does not change what the roots weigh. */
  lemma WeighNew(roots: seq<Ptr>, val0: map<Ptr, Value>, val: map<Ptr, Value>, o: Ptr)
    requires o !in val0 && forall i :: 0 <= i < |roots| ==> roots[i] in val0 && roots[i] in val
    requires forall p :: p in val && p != o ==> p in val0 && val[p] == val0[p]
    ensures Weigh(roots, val) == Weigh(roots, val0)
  {
    WeighKept(roots, val0, val);
  }

  lemma WeighOld(roots: seq<Ptr>, heap0: Heap, val0: map<Ptr, Value>, heap: Heap, val: map<Ptr, Value>, o: Ptr)
    requires RootsIn(roots, heap0) && RootsIn(roots, heap) && OnlyNew(heap0, val0, heap, val, o) && o !in heap0
    ensures Weigh(roots, val) == Weigh(roots, val0)
  {
    WeighKept(roots, val0, val);
  }

  lemma PrependKeeps(objs: seq<Ptr>, next: map<Ptr, Ptr>, head: Ptr, heap: Heap, count: nat, o: Ptr, b: Body)
    requires ListOf(objs, next, head, heap, count) && o != NULL && o !in heap
    ensures ListOf([o] + objs, next[o := head], o, heap[o := b], count + 1)
  {
    LinkedFrame(next, next[o := head], head, objs, NULL);
    assert ([o] + objs)[1..] == objs;
    ElemsCons(o, objs);
  }

  lemma NotFiltered(s: seq<Ptr>, keep: set<Ptr>, p: Ptr)
    requires p !in keep
    ensures p !in Filter(s, keep)
  {
    FilterElems(s, keep);
    ElemsIn(Filter(s, keep), p);
  }

  lemma KeepFacts(objs: seq<Ptr>, heap: Heap, val: map<Ptr, Value>, keep: set<Ptr>)
    requires Elems(objs) == heap.Keys == val.Keys && keep <= heap.Keys
    ensures keep == heap.Keys ==>
              Filter(objs, keep) == objs && Restrict(heap, keep) == heap && Restrict(val, keep) == val
    ensures keep != heap.Keys ==> |Filter(objs, keep)| < |objs|
  {
    FilterLoses(objs, keep);
  }

  lemma RestrictOnlyNew(heap: Heap, val: map<Ptr, Value>, keep: set<Ptr>, o: Ptr, b: Body, v: Value)
    requires Consistent(heap, val)
    ensures OnlyNew(heap, val, Restrict(heap, keep)[o := b], Restrict(val, keep)[o := v], o)
  { }

  /** `roots` with one slot assigned. */
  function PutRoot(roots: seq<Ptr>, slot: nat, p: Ptr): seq<Ptr>
    requires slot < |roots|
  {
    roots[slot := p]
  }

  ghost predicate ChildrenIn(b: Body, val: map<Ptr, Value>) {
    forall c :: c in Children(b) ==> c in val
  }

  lemma SameValueOf(b: Body, val0: map<Ptr, Value>, val: map<Ptr, Value>)
    requires forall c :: c in Children(b) ==> c in val0 && c in val && val[c] == val0[c]
    ensures ValueOf(b, val) == ValueOf(b, val0)
  {
    match b {
      case ConsBody(h, t) => assert Children(b)[0] == h && Children(b)[1] == t;
      case FunctionBody(_, d) => assert Children(b)[0] == d;
      case _ =>
    }
  }

  /** What stays after a collection is closed, consistent and holds the roots. */
  lemma LiveIsConsistent(heap: Heap, val: map<Ptr, Value>, roots: seq<Ptr>)
    requires Consistent(heap, val) && |roots| > 0 && roots[0] == NIL
    requires forall i :: 0 <= i < |roots| ==> roots[i] in heap
    ensures var live := Live(heap, roots);
            && live <= heap.Keys && NIL in live
            && (forall i :: 0 <= i < |roots| ==> roots[i] in Restrict(heap, live))
            && Consistent(Restrict(heap, live), Restrict(val, live))
  {
    ConsistentIsWhole(heap, val);
    LiveFacts(heap, roots);
    KeepClosedPart(heap, val, Live(heap, roots));
  }
}
