/** The non-recursive parser of the garbage-collected interpreter. Unfinished
    cons cells are its stack: the innermost is `parent`, and the `tail` of each
    holds the one outside it until its own tail is known. */
module GclParser {
  import opened Language
  import opened Syntax
  import opened Pointers
  import opened Objects
  import opened Weights
  import opened Collector

  ghost predicate Unreferenced(heap: Heap, p: Ptr) {
    forall x {:trigger Children(heap[x])} :: x in heap ==> p !in Children(heap[x])
  }

  /** The only pointer to `p` is the tail of `from`. */
  ghost predicate OnlyTailOf(heap: Heap, p: Ptr, from: Ptr) {
    && from in heap && heap[from].ConsBody? && heap[from].tail == p && heap[from].head != p
    && forall x :: x in heap && p in Children(heap[x]) ==> x == from
  }

  /** An unfinished cell stands for an open pair, and the rest of the stack follows
      in its tail. No variable in `base` holds a cell. */
  ghost predicate Stack(heap: Heap, val: map<Ptr, Value>, base: seq<Ptr>, p: Ptr, open: seq<Partial>)
    decreases |open|
  {
    if open == [] then p == NIL
    else
      && p != NIL && p !in base && p in heap && heap[p].ConsBody?
      && heap[p].head in val
      && open[0] == (if heap[p].head == NIL then NeedHead else NeedTail(val[heap[p].head]))
      && (open[1..] != [] ==> OnlyTailOf(heap, heap[p].tail, p))
      && Stack(heap, val, base, heap[p].tail, open[1..])
  }

  /** `heap'` differs from `heap` in at most the object `z`, which no object of
      `heap` points to, and whose new pointers are to nil or to such objects. */
  ghost predicate ChangedAt(heap: Heap, val: map<Ptr, Value>, heap': Heap, val': map<Ptr, Value>, z: Ptr) {
    && Consistent(heap, val) && Consistent(heap', val')
    && OnlyNew(heap, val, heap', val', z)
    && Unreferenced(heap, z)
    && (z in heap' ==> forall c :: c in Children(heap'[z]) ==>
          c == NIL || Unreferenced(heap, c) || (z in heap && c in Children(heap[z])))
  }

  /** Cells below the changed one stay what they are. */
  lemma {:induction false} StackBelow(heap: Heap, val: map<Ptr, Value>, heap': Heap, val': map<Ptr, Value>, z: Ptr,
                                      base: seq<Ptr>, p: Ptr, open: seq<Partial>, from: Ptr)
    requires ChangedAt(heap, val, heap', val', z) && Stack(heap, val, base, p, open)
    requires open != [] ==> OnlyTailOf(heap, p, from) && p in heap'
    ensures Stack(heap', val', base, p, open)
    ensures open != [] && from != z && from in heap' ==> OnlyTailOf(heap', p, from)
    decreases |open|
  {
    if open != [] {
      assert heap[from].tail == Children(heap[from])[1];
      assert p in Children(heap[from]);
      assert p != z;
      assert heap'[p] == heap[p];
      var h, t := heap[p].head, heap[p].tail;
      assert Children(heap[p]) == [h, t];
      assert h in Children(heap[p]) && t in Children(heap[p]);
      assert h != z && t != z;
      ConsistentIsWhole(heap', val');
      assert h in heap' && t in heap';
      StackBelow(heap, val, heap', val', z, base, t, open[1..], p);
    }
  }

  /** Changing a field of an object nobody points to changes only its own value. */
  lemma AssignField(heap: Heap, val: map<Ptr, Value>, p: Ptr, h: Ptr, t: Ptr)
    requires Consistent(heap, val) && p in heap && heap[p].ConsBody? && Unreferenced(heap, p)
    requires h in heap && t in heap && h != p && t != p
    ensures Consistent(heap[p := ConsBody(h, t)], val[p := Cons(val[h], val[t])])
    ensures OnlyNew(heap, val, heap[p := ConsBody(h, t)], val[p := Cons(val[h], val[t])], p)
  {
    var heap', val' := heap[p := ConsBody(h, t)], val[p := Cons(val[h], val[t])];
    forall x | x in heap' ensures Denotes(heap'[x], val'[x], val') {
      if x != p {
        assert Denotes(heap[x], val[x], val);
        match heap[x] {
          case ConsBody(a, b) => assert Children(heap[x])[0] == a && Children(heap[x])[1] == b;
          case FunctionBody(_, d) => assert Children(heap[x])[0] == d;
          case _ =>
        }
      }
    }
  }

  /** The innermost open pair gets its head. */
  lemma FillHead(heap: Heap, val: map<Ptr, Value>, base: seq<Ptr>, p: Ptr, open: seq<Partial>, expr: Ptr)
    requires Consistent(heap, val) && Stack(heap, val, base, p, open) && open != [] && open[0] == NeedHead
    requires Unreferenced(heap, p) && Unreferenced(heap, expr) && expr in heap && expr != p && expr != NIL
    ensures heap[p].tail in heap && heap[p].tail != p
    ensures var heap', val' := heap[p := ConsBody(expr, heap[p].tail)], val[p := Cons(val[expr], val[heap[p].tail])];
            && Consistent(heap', val') && OnlyNew(heap, val, heap', val', p)
            && Stack(heap', val', base, p, [NeedTail(val[expr])] + open[1..]) && Unreferenced(heap', p)
            && Weight(val'[p]) <= Weight(val[p]) + Weight(val[expr])
  {
    var t := heap[p].tail;
    ReadObject(heap, val, p);
    assert Children(heap[p]) == [heap[p].head, t] && t in Children(heap[p]);
    AssignField(heap, val, p, expr, t);
    var heap', val' := heap[p := ConsBody(expr, t)], val[p := Cons(val[expr], val[t])];
    assert Children(heap'[p]) == [expr, t];
    assert ([NeedTail(val[expr])] + open[1..])[1..] == open[1..];
    StackBelow(heap, val, heap', val', p, base, t, open[1..], p);
    assert val'[expr] == val[expr];
    if open[1..] != [] {
      assert t in Children(heap'[p]);
      assert expr != t by { assert t in Children(heap[p]); }
      assert OnlyTailOf(heap', t, p);
    }
  }

  /** The innermost open pair gets its tail: it is finished, and the next pair is innermost. */
  lemma CloseTail(heap: Heap, val: map<Ptr, Value>, base: seq<Ptr>, p: Ptr, open: seq<Partial>, expr: Ptr)
    requires Consistent(heap, val) && Stack(heap, val, base, p, open) && open != [] && open[0].NeedTail?
    requires Unreferenced(heap, p) && Unreferenced(heap, expr) && expr in heap && expr != p && expr != NIL
    ensures var h, t := heap[p].head, heap[p].tail;
            h in heap && t in heap && h != p && t != p && val[h] == open[0].head
    ensures var h, t := heap[p].head, heap[p].tail;
            var heap', val' := heap[p := ConsBody(h, expr)], val[p := Cons(val[h], val[expr])];
            && Consistent(heap', val') && OnlyNew(heap, val, heap', val', p)
            && Stack(heap', val', base, t, open[1..]) && Unreferenced(heap', p) && (t != NIL ==> Unreferenced(heap', t))
            && Weight(val'[p]) + Weight(val'[t]) == Weight(val[p]) + Weight(val[expr])
  {
    var h, t := heap[p].head, heap[p].tail;
    ReadObject(heap, val, p);
    assert Children(heap[p]) == [h, t] && t in Children(heap[p]) && h in Children(heap[p]);
    AssignField(heap, val, p, h, expr);
    var heap', val' := heap[p := ConsBody(h, expr)], val[p := Cons(val[h], val[expr])];
    assert Children(heap'[p]) == [h, expr];
    StackBelow(heap, val, heap', val', p, base, t, open[1..], p);
    if t != NIL {
      assert open[1..] != [];
      assert expr != t;
    }
  }

  /** An allocation, with or without a collection, leaves the whole stack alone. */
  lemma AllocationKeeps(heap: Heap, val: map<Ptr, Value>, heap': Heap, val': map<Ptr, Value>, z: Ptr,
                        base: seq<Ptr>, p: Ptr, open: seq<Partial>)
    requires ChangedAt(heap, val, heap', val', z) && z !in heap && Stack(heap, val, base, p, open)
    requires open != [] ==> p in heap'
    ensures Stack(heap', val', base, p, open)
    ensures open != [] && Unreferenced(heap, p) && (z in heap' ==> p !in Children(heap'[z])) ==> Unreferenced(heap', p)
  {
    if open != [] {
      var h, t := heap[p].head, heap[p].tail;
      ReadObject(heap', val', p);
      StackBelow(heap, val, heap', val', z, base, t, open[1..], p);
    }
  }

  /** A new object is pointed to by nothing. */
  lemma NewIsUnreferenced(heap: Heap, val: map<Ptr, Value>, heap': Heap, val': map<Ptr, Value>, z: Ptr)
    requires Consistent(heap, val) && OnlyNew(heap, val, heap', val', z) && z !in heap
    requires z in heap' && z !in Children(heap'[z])
    ensures Unreferenced(heap', z) && Unreferenced(heap, z)
  {
    ConsistentIsWhole(heap, val);
  }

  /** Opening a pair puts a new cell on the stack. */
  lemma OpenPair(heap: Heap, val: map<Ptr, Value>, heap': Heap, val': map<Ptr, Value>, z: Ptr,
                 base: seq<Ptr>, p: Ptr, open: seq<Partial>)
    requires Consistent(heap, val) && Consistent(heap', val') && OnlyNew(heap, val, heap', val', z) && z !in heap
    requires z in heap'
    requires heap'[z] == ConsBody(NIL, p) && p in heap && p in heap' && z !in base && NIL in heap
    requires Stack(heap, val, base, p, open) && (open != [] ==> Unreferenced(heap, p))
    ensures Stack(heap', val', base, z, [NeedHead] + open) && Unreferenced(heap', z)
  {
    assert Children(heap'[z]) == [NIL, p];
    NewIsUnreferenced(heap, val, heap', val', z);
    AllocationKeeps(heap, val, heap', val', z, base, p, open) by {
      if open == [] { assert p == NIL; }
    }
    ReadObject(heap', val', z);
    assert ([NeedHead] + open)[1..] == open;
    if open != [] {
      assert p in Children(heap'[z]);
      assert OnlyTailOf(heap', p, z);
    }
  }

  // ----- the loops -----

  ghost predicate BaseKept(base: seq<Ptr>, val0: map<Ptr, Value>, val: map<Ptr, Value>) {
    forall i :: 0 <= i < |base| ==> base[i] in val0 && base[i] in val && val[base[i]] == val0[base[i]]
  }

  /** At the head of the outer loop: the variable `parent` is rooted above `base`, and
      what it holds has at most `size` nodes. */
  ghost predicate Parsing(rt: Runtime, base: seq<Ptr>, val0: map<Ptr, Value>, open: seq<Partial>, size: nat) reads rt {
    && rt.Valid() && |rt.roots| == |base| + 1 && |base| >= 3 && rt.roots[..|base|] == base
    && BaseKept(base, val0, rt.val)
    && Stack(rt.heap, rt.val, base, rt.roots[|base|], open)
    && (open != [] ==> Unreferenced(rt.heap, rt.roots[|base|]))
    && Weight(rt.val[rt.roots[|base|]]) <= size
  }

  /** At the head of the inner loop: `parent` and then `expr` are rooted above `base`. */
  ghost predicate Attaching(rt: Runtime, base: seq<Ptr>, val0: map<Ptr, Value>, open: seq<Partial>, size: nat)
    reads rt
  {
    && rt.Valid() && |rt.roots| == |base| + 2 && |base| >= 3 && rt.roots[..|base|] == base
    && BaseKept(base, val0, rt.val)
    && var parent, expr := rt.roots[|base|], rt.roots[|base| + 1];
       && Stack(rt.heap, rt.val, base, parent, open)
       && (open != [] ==> Unreferenced(rt.heap, parent))
       && Unreferenced(rt.heap, expr) && expr != NIL && expr != parent && expr !in base
       && Weight(rt.val[parent]) + Weight(rt.val[expr]) <= size
  }

  /** What the roots weigh at the head of the outer loop. */
  lemma ParsingLoad(rt: Runtime, base: seq<Ptr>, val0: map<Ptr, Value>, open: seq<Partial>, size: nat)
    requires Parsing(rt, base, val0, open, size)
    ensures rt.Load() == Weigh(base, val0) + Weight(rt.val[rt.roots[|base|]])
  {
    hide Consistent, ListOf, Stack, Unreferenced;
    var parent := rt.roots[|base|];
    assert rt.roots == base + [parent];
    WeighAppend(base, parent, rt.val);
    WeighKept(base, val0, rt.val);
  }

  /** Assign the fields of a cell nothing points to. */
  method AssignCell(rt: Runtime, p: Ptr, h: Ptr, t: Ptr)
    requires rt.Valid() && p in rt.heap && rt.heap[p].ConsBody? && Unreferenced(rt.heap, p)
    requires h in rt.heap && t in rt.heap && h != p && t != p
    modifies rt`heap, rt`val
    ensures rt.Valid()
    ensures rt.heap == old(rt.heap)[p := ConsBody(h, t)]
    ensures rt.val == old(rt.val)[p := Cons(old(rt.val)[h], old(rt.val)[t])]
  {
    AssignField(rt.heap, rt.val, p, h, t);
    rt.heap := rt.heap[p := ConsBody(h, t)];
    rt.val := rt.val[p := Cons(rt.val[h], rt.val[t])];
  }

  /** `expr` becomes the head of the innermost open pair. */
  method AttachHead(rt: Runtime, ghost base: seq<Ptr>, ghost val0: map<Ptr, Value>, ghost open: seq<Partial>,
                    ghost size: nat)
    requires Attaching(rt, base, val0, open, size) && open != [] && open[0] == NeedHead
    modifies rt
    ensures Parsing(rt, base, val0, [NeedTail(old(rt.val[rt.roots[|base| + 1]]))] + open[1..], size)
    ensures rt.output == old(rt.output)
  {
    hide ListOf, Weigh, Weight;
    var n := |rt.roots| - 2;
    var parent, expr := rt.roots[n], rt.roots[n + 1];
    FillHead(rt.heap, rt.val, base, parent, open, expr);
    AssignCell(rt, parent, expr, rt.heap[parent].tail);
    rt.PopRoot();
  }

  /** `expr` becomes the tail of the innermost open pair, which is then `expr`. */
  method AttachTail(rt: Runtime, ghost base: seq<Ptr>, ghost val0: map<Ptr, Value>, ghost open: seq<Partial>,
                    ghost size: nat)
    requires Attaching(rt, base, val0, open, size) && open != [] && open[0].NeedTail?
    modifies rt
    ensures Attaching(rt, base, val0, open[1..], size) && rt.output == old(rt.output)
    ensures rt.val[rt.roots[|base| + 1]] == Cons(open[0].head, old(rt.val[rt.roots[|base| + 1]]))
  {
    hide ListOf, Weigh, Weight;
    var n := |rt.roots| - 2;
    var parent, expr := rt.roots[n], rt.roots[n + 1];
    CloseTail(rt.heap, rt.val, base, parent, open, expr);
    var newParent := rt.heap[parent].tail;
    AssignCell(rt, parent, rt.heap[parent].head, expr);
    rt.SetRoot(n + 1, parent);
    rt.SetRoot(n, newParent);
  }

  /** Nothing is open: `expr` is the result and the variables are unrooted. */
  method TakeExpression(rt: Runtime, ghost base: seq<Ptr>, ghost val0: map<Ptr, Value>, ghost open: seq<Partial>,
                        ghost size: nat)
    returns (expr: Ptr)
    requires Attaching(rt, base, val0, open, size)
    modifies rt`roots
    ensures rt.Valid() && rt.roots == base && expr in rt.heap && expr != NULL
        && rt.val[expr] == old(rt.val[rt.roots[|base| + 1]])
  {
    expr := rt.roots[|rt.roots| - 1];
    rt.PopRoot();
    rt.PopRoot();
  }

  /** A new atom becomes `expr`. */
  method StartAtom(rt: Runtime, chars: string, ghost base: seq<Ptr>, ghost val0: map<Ptr, Value>,
                   ghost open: seq<Partial>, ghost size: nat)
    returns (r: Result<()>)
    requires Parsing(rt, base, val0, open, size)
    modifies rt
    ensures rt.output == old(rt.output)
    ensures r.Failure? ==> r.error == OutOfMemory && rt.Full() && LIMIT <= Weigh(base, val0) + size
    ensures r.Success? ==> Attaching(rt, base, val0, open, size + 1) && rt.val[rt.roots[|base| + 1]] == Atom(chars)
  {
    hide ListOf, Weigh;
    ParsingLoad(rt, base, val0, open, size);
    ghost var heap, val, parent := rt.heap, rt.val, rt.roots[|base|];
    var atom :- rt.NewAtom(chars);
    NewIsUnreferenced(heap, val, rt.heap, rt.val, atom);
    AllocationKeeps(heap, val, rt.heap, rt.val, atom, base, parent, open);
    assert forall i :: 0 <= i < |base| ==> base[i] == rt.roots[i];
    rt.PushRoot(atom);
    return Success(());
  }

  /** A new unfinished cell becomes `parent`. */
  method StartPair(rt: Runtime, ghost base: seq<Ptr>, ghost val0: map<Ptr, Value>, ghost open: seq<Partial>,
                   ghost size: nat)
    returns (r: Result<()>)
    requires Parsing(rt, base, val0, open, size)
    modifies rt
    ensures rt.output == old(rt.output)
    ensures r.Failure? ==> r.error == OutOfMemory && rt.Full() && LIMIT <= Weigh(base, val0) + 2 * size + 1
    ensures r.Success? ==> Parsing(rt, base, val0, [NeedHead] + open, size + 2)
  {
    hide ListOf, Live, Weigh, Consistent;
    ParsingLoad(rt, base, val0, open, size);
    ReadObject(rt.heap, rt.val, NIL);
    var n := |rt.roots| - 1;
    ghost var heap, val := rt.heap, rt.val;
    var parent := rt.roots[n];
    assert forall i :: 0 <= i < |base| ==> base[i] == rt.roots[i];
    var cons :- rt.NewCons(NIL, parent);
    OpenPair(heap, val, rt.heap, rt.val, cons, base, parent, open);
    rt.SetRoot(n, cons);
    return Success(());
  }

  /** One turn of the inner loop: `expr` becomes the head of the innermost pair, or
      its tail if a closing parenthesis follows. The result is whether to go on. */
  method AttachTurn(rt: Runtime, tokens: seq<Token>, k0: nat, ghost base: seq<Ptr>, ghost val0: map<Ptr, Value>,
                    ghost open0: seq<Partial>, ghost size: nat, ghost spec: Parsed)
    returns (more: Result<bool>, k: nat, ghost open: seq<Partial>)
    requires k0 <= |tokens| && Attaching(rt, base, val0, open0, size) && rt.roots[|base|] != NIL
    requires spec == Feed(open0, rt.val[rt.roots[|base| + 1]], tokens[k0..])
    modifies rt
    ensures k0 <= k <= |tokens| && rt.output == old(rt.output)
    ensures match more
            case Success(true) =>
              && Attaching(rt, base, val0, open, size) && |open| < |open0|
              && spec == Feed(open, rt.val[rt.roots[|base| + 1]], tokens[k..])
            case Success(false) => Parsing(rt, base, val0, open, size) && spec == Continue(open, tokens[k..])
            case Failure(e) => e == Abort && rt.Valid() && spec.SyntaxError?
  {
    var n := |rt.roots| - 2;
    ghost var v := rt.val[rt.roots[n + 1]];
    k := k0;
    FeedAt(open0, v, tokens, k);
    if rt.heap[rt.roots[n]].head == NIL {
      AttachHead(rt, base, val0, open0, size);
      return Success(false), k, [NeedTail(v)] + open0[1..];
    }
    AttachTail(rt, base, val0, open0, size);
    open := open0[1..];
    if k == |tokens| || tokens[k] != Close {
      return Failure(Abort), k, open;
    }
    return Success(true), k + 1, open;
  }

  /** The inner loop: hand `expr` to the innermost open pair until some pair still
      waits for its tail (the result is null) or nothing is open (it is `expr`). */
  method Attach(rt: Runtime, tokens: seq<Token>, k0: nat, ghost base: seq<Ptr>, ghost val0: map<Ptr, Value>,
                ghost open0: seq<Partial>, ghost size: nat, ghost spec: Parsed)
    returns (r: Result<Ptr>, k: nat, ghost open: seq<Partial>)
    requires k0 <= |tokens| && Attaching(rt, base, val0, open0, size)
    requires spec == Feed(open0, rt.val[rt.roots[|base| + 1]], tokens[k0..])
    modifies rt
    ensures k0 <= k <= |tokens| && rt.output == old(rt.output)
    ensures match r
            case Success(p) =>
              if p == NULL then Parsing(rt, base, val0, open, size) && spec == Continue(open, tokens[k..])
              else && rt.Valid() && rt.roots == base && BaseKept(base, val0, rt.val)
                   && p in rt.heap && spec == Ok(rt.val[p], tokens[k..])
            case Failure(e) => e == Abort && rt.Valid() && spec.SyntaxError?
  {
    var n := |rt.roots| - 2;
    open, k := open0, k0;
    while rt.roots[n] != NIL
      invariant n == |base| && k0 <= k <= |tokens| && rt.output == old(rt.output)
      invariant Attaching(rt, base, val0, open, size)
      invariant spec == Feed(open, rt.val[rt.roots[n + 1]], tokens[k..])
      decreases |open|
    {
      var more;
      more, k, open := AttachTurn(rt, tokens, k, base, val0, open, size, spec);
      if more.Failure? { return Failure(more.error), k, open; }
      if !more.value { return Success(NULL), k, open; }
    }
    FeedAt(open, rt.val[rt.roots[n + 1]], tokens, k);
    var expr := TakeExpression(rt, base, val0, open, size);
    return Success(expr), k, open;
  }

  lemma Smaller(rt: Runtime, base: seq<Ptr>, val0: map<Ptr, Value>, open: seq<Partial>, size: nat, more: nat)
    requires Parsing(rt, base, val0, open, size) && size <= more
    ensures Parsing(rt, base, val0, open, more)
  { }

  lemma ParsingValid(rt: Runtime, base: seq<Ptr>, val0: map<Ptr, Value>, open: seq<Partial>, size: nat)
    requires Parsing(rt, base, val0, open, size)
    ensures rt.Valid()
  { }

  /** Root `parent`, which is nil as long as nothing is open. */
  method StartParsing(rt: Runtime)
    requires rt.Valid()
    modifies rt`roots
    ensures Parsing(rt, old(rt.roots), rt.val, [], 1)
  {
    ReadObject(rt.heap, rt.val, NIL);
    rt.PushRoot(NIL);
  }

  /** `parse`: the expression at the front of the tokens, as the grammar says. */
  method ParseObject(rt: Runtime, tokens: seq<Token>) returns (r: Result<Ptr>, rest: seq<Token>)
    requires rt.Valid()
    modifies rt
    ensures match r
            case Success(p) =>
              && rt.Valid() && rt.roots == old(rt.roots) && rt.output == old(rt.output)
              && KeepsRoots(old(rt.roots), old(rt.val), rt.roots, rt.val, {})
              && p in rt.heap && Parse(tokens) == Ok(rt.val[p], rest)
            case Failure(Abort) => rt.Valid() && Parse(tokens).SyntaxError? && rt.output == old(rt.output)
            case Failure(OutOfMemory) =>
              rt.Full() && rt.output == old(rt.output) && LIMIT <= old(rt.Load()) + 4 * |tokens| + 3
  {
    hide Parsing, Attaching, Parse, Continue, Feed, Weigh, Consistent, ListOf;
    ghost var base, val0 := rt.roots, rt.val;
    ghost var open: seq<Partial> := [];
    StartParsing(rt);
    var k := 0;
    ContinueParse(tokens);
    assert tokens[0..] == tokens;
    while k < |tokens|
      invariant 0 <= k <= |tokens| && Parsing(rt, base, val0, open, 2 * k + 1) && rt.output == old(rt.output)
      invariant Parse(tokens) == Continue(open, tokens[k..])
    {
      var token := tokens[k];
      ContinueAt(open, tokens, k);
      k := k + 1;
      match token {
        case Symbol(chars) =>
          var started := StartAtom(rt, chars, base, val0, open, 2 * k - 1);
          if started.Failure? { return Failure(started.error), []; }
          var done, k', open' := Attach(rt, tokens, k, base, val0, open, 2 * k, Parse(tokens));
          if done.Failure? { return done, []; }
          if done.value != NULL { return done, tokens[k'..]; }
          Smaller(rt, base, val0, open', 2 * k, 2 * k' + 1);
          k, open := k', open';
        case Open =>
          var started := StartPair(rt, base, val0, open, 2 * k - 1);
          if started.Failure? { return Failure(started.error), []; }
          open := [NeedHead] + open;
        case _ =>
          ParsingValid(rt, base, val0, open, 2 * k - 1);
          return Failure(Abort), [];
      }
    }
    ContinueAt(open, tokens, k);
    ParsingValid(rt, base, val0, open, 2 * k + 1);
    return Failure(Abort), [];
  }
}
