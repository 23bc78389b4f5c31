/** The garbage-collected interpreter, on heap objects: any allocation may run a
    collection, and every operation does what the machine on values does. */
module Gcl {
  import opened Language
  import opened Pointers
  import opened Objects
  import opened Weights
  import opened Collector
  import Syntax
  import opened Session
  import opened GclParser
  import opened Costs

  /** The machine state the two stacks and the output stand for. */
  ghost function Abs(rt: Runtime): State
    requires rt.Valid()
    reads rt
  {
    State(rt.val[rt.roots[OPERAND_STACK]], rt.val[rt.roots[CONT_STACK]], rt.output)
  }

  /** An operation did what `out` says: it went on to that state, keeping the other
      roots; or aborted after printing that; or ran out of memory, after printing no
      more than that, because values of `room` nodes do not fit. */
  ghost predicate Achieves(rt: Runtime, roots0: seq<Ptr>, val0: map<Ptr, Value>, r: Result<()>, out: Outcome, room: nat)
    reads rt
  {
    match r
    case Success(_) =>
      rt.Valid() && out == Running(Abs(rt)) && KeepsRoots(roots0, val0, rt.roots, rt.val, {OPERAND_STACK, CONT_STACK})
    case Failure(Abort) => rt.Valid() && out == Crashed(rt.output)
    case Failure(OutOfMemory) => rt.Full() && rt.output <= Printed(out) && LIMIT <= room
  }

  /** The nodes of the rooted values other than the stacks. */
  ghost function Others(roots: seq<Ptr>, val: map<Ptr, Value>): nat
    requires |roots| >= 3
  {
    1 + Weigh(roots[3..], val)
  }

  lemma LoadSplit(rt: Runtime)
    requires rt.Valid()
    ensures rt.Load() == LoadOf(Abs(rt), Others(rt.roots, rt.val))
  {
    hide Consistent, ListOf;
    ReadObject(rt.heap, rt.val, NIL);
    var roots := rt.roots;
    assert roots[1..][1..] == roots[2..] && roots[2..][1..] == roots[3..];
    assert Weigh(roots, rt.val) == Weight(rt.val[roots[0]]) + Weigh(roots[1..], rt.val);
    assert Weigh(roots[1..], rt.val) == Weight(rt.val[roots[1]]) + Weigh(roots[2..], rt.val);
    assert Weigh(roots[2..], rt.val) == Weight(rt.val[roots[2]]) + Weigh(roots[3..], rt.val);
  }

  lemma OthersKept(roots0: seq<Ptr>, val0: map<Ptr, Value>, roots: seq<Ptr>, val: map<Ptr, Value>)
    requires |roots| >= 3 && KeepsRoots(roots0, val0, roots, val, {OPERAND_STACK, CONT_STACK})
    ensures Others(roots, val) == Others(roots0, val0)
  {
    assert roots[3..] == roots0[3..] by {
      forall i | 3 <= i < |roots| ensures roots[i] == roots0[i] { }
    }
    assert forall i :: 0 <= i < |roots[3..]| ==> roots[3..][i] == roots[i + 3];
    WeighKept(roots[3..], val0, val);
  }

  /** The two fields of a cons object. */
  datatype Pair = Pair(head: Ptr, tail: Ptr)

  method DestructCons(rt: Runtime, o: Ptr) returns (r: Result<Pair>)
    requires rt.Valid() && o in rt.heap
    ensures r.Success? <==> rt.val[o].Cons?
    ensures r.Success? ==>
              && r.value.head in rt.heap && rt.val[r.value.head] == rt.val[o].head
              && r.value.tail in rt.heap && rt.val[r.value.tail] == rt.val[o].tail
    ensures r.Failure? ==> r.error == Abort
  {
    hide Consistent, ListOf;
    ReadObject(rt.heap, rt.val, o);
    match rt.heap[o]
    case ConsBody(h, t) => return Success(Pair(h, t));
    case _ => return Failure(Abort);
  }

  /** Push an object on the stack in a root slot. */
  method PushOn(rt: Runtime, slot: nat, o: Ptr) returns (r: Result<()>)
    requires rt.Valid() && o in rt.heap && (slot == OPERAND_STACK || slot == CONT_STACK)
    modifies rt
    ensures r.Failure? ==> rt.Exhausted(r.error, old(rt.Load()) + Weight(old(rt.val)[o]))
    ensures r.Success? ==>
              && rt.Valid() && rt.output == old(rt.output)
              && KeepsRoots(old(rt.roots), old(rt.val), rt.roots, rt.val, {slot})
              && rt.val[rt.roots[slot]] == Cons(old(rt.val)[o], old(rt.val)[old(rt.roots)[slot]])
              && rt.Load() == old(rt.Load()) + 1 + Weight(old(rt.val)[o])
  {
    hide Consistent, ListOf, Live, Weigh;
    RootWeight(rt.roots, rt.val, slot);
    var stack := rt.roots[slot];
    var cons :- rt.CreateCons(o, stack);
    rt.SetRoot(slot, cons);
    return Success(());
  }

  /** Pop the operand stack. */
  method Pop(rt: Runtime) returns (r: Result<Ptr>)
    requires rt.Valid()
    modifies rt`roots
    ensures r.Success? <==> old(Abs(rt)).operands.Cons?
    ensures rt.Valid() && (r.Failure? ==> r.error == Abort)
    ensures r.Success? ==>
              && KeepsRoots(old(rt.roots), rt.val, rt.roots, rt.val, {OPERAND_STACK})
              && r.value in rt.heap && rt.val[r.value] == old(Abs(rt)).operands.head
              && Abs(rt).operands == old(Abs(rt)).operands.tail
              && rt.Load() + 1 + Weight(rt.val[r.value]) == old(rt.Load())
  {
    hide Consistent, ListOf, Live, Weigh;
    var stack :- DestructCons(rt, rt.roots[OPERAND_STACK]);
    rt.SetRoot(OPERAND_STACK, stack.tail);
    return Success(stack.head);
  }

  /** `assoc`: the value bound to the name of `key`, or null. */
  method AssocObject(rt: Runtime, key: Ptr, bindings: Ptr) returns (r: Result<Ptr>)
    requires rt.Valid() && key in rt.heap && bindings in rt.heap && rt.heap[key].AtomBody?
    ensures r.Failure? ==> r.error == Abort
    ensures match Assoc(rt.heap[key].chars, rt.val[bindings])
            case Found(v) => r.Success? && r.value in rt.heap && r.value != NULL && rt.val[r.value] == v
            case Missing => r == Success(NULL)
            case Malformed => r.Failure?
  {
    hide Consistent, ListOf;
    var m := bindings;
    ghost var name := rt.heap[key].chars;
    ReadObject(rt.heap, rt.val, key);
    while m != NIL
      invariant m in rt.heap && Assoc(name, rt.val[bindings]) == Assoc(name, rt.val[m])
      decreases Size(rt.val[m])
    {
      ReadObject(rt.heap, rt.val, m);
      var cell :- DestructCons(rt, m);
      var entry :- DestructCons(rt, cell.head);
      var k, v := entry.head, entry.tail;
      ReadObject(rt.heap, rt.val, k);
      ReadObject(rt.heap, rt.val, v);
      if key == k { return Success(v); }
      match rt.heap[k] {
        case AtomBody(chars) => if chars == rt.heap[key].chars { return Success(v); }
        case _ => return Failure(Abort);
      }
      m := cell.tail;
    }
    ReadObject(rt.heap, rt.val, m);
    return Success(NULL);
  }

  /** Schedule the evaluation of `expr` in `envs`. */
  method PushEval(rt: Runtime, envs: Ptr, expr: Ptr) returns (r: Result<()>)
    requires rt.Valid() && envs in rt.heap && expr in rt.heap
    modifies rt
    ensures r.Failure? ==>
              rt.Exhausted(r.error, old(rt.Load()) + Weight(old(rt.val)[envs]) + Weight(old(rt.val)[expr]) + 2)
    ensures r.Success? ==>
              && rt.Valid() && rt.output == old(rt.output)
              && KeepsRoots(old(rt.roots), old(rt.val), rt.roots, rt.val, {CONT_STACK})
              && Abs(rt) == PushCont(EvalCont(old(rt.val)[envs], old(rt.val)[expr]), old(Abs(rt)))
              && rt.Load() == old(rt.Load()) + 3 + Weight(old(rt.val)[envs]) + Weight(old(rt.val)[expr])
  {
    hide Consistent, ListOf, Live, Weigh;
    var data :- rt.CreateCons(envs, expr);
    var f :- rt.CreateFunction(Eval, data);
    r := PushOn(rt, CONT_STACK, f);
  }

  /** Schedule the application of the two operands on top. */
  method PushPopApply(rt: Runtime) returns (r: Result<()>)
    requires rt.Valid()
    modifies rt
    ensures r.Failure? ==> rt.Exhausted(r.error, old(rt.Load()) + 2)
    ensures r.Success? ==>
              && rt.Valid() && rt.output == old(rt.output)
              && KeepsRoots(old(rt.roots), old(rt.val), rt.roots, rt.val, {CONT_STACK})
              && Abs(rt) == PushCont(Function(PopApply, Nil), old(Abs(rt))) && rt.Load() == old(rt.Load()) + 3
  {
    hide Consistent, ListOf, Live, Weigh;
    ReadObject(rt.heap, rt.val, NIL);
    var f :- rt.CreateFunction(PopApply, NIL);
    r := PushOn(rt, CONT_STACK, f);
  }

  /** Root three local variables. */
  method PushRoots(rt: Runtime, a: Ptr, b: Ptr, c: Ptr)
    requires rt.Valid() && a in rt.heap && b in rt.heap && c in rt.heap
    modifies rt`roots
    ensures rt.Valid() && rt.roots == old(rt.roots) + [a, b, c]
    ensures rt.Load() == old(rt.Load()) + Weight(rt.val[a]) + Weight(rt.val[b]) + Weight(rt.val[c])
  {
    hide Consistent, ListOf, Live, Weigh;
    rt.PushRoot(a);
    rt.PushRoot(b);
    rt.PushRoot(c);
  }

  method PopRoots(rt: Runtime)
    requires rt.Valid() && |rt.roots| >= 6
    modifies rt`roots
    ensures rt.Valid() && rt.roots == old(rt.roots)[..|old(rt.roots)| - 3]
  {
    hide Consistent, ListOf;
    rt.PopRoot();
    rt.PopRoot();
    rt.PopRoot();
  }

  /** The three continuations of an ordinary call, its parts in the last root slots. */
  method PushCall(rt: Runtime, envs: Ptr, fexpr: Ptr, arg: Ptr) returns (r: Result<()>)
    requires rt.Valid() && |rt.roots| >= 6 && rt.roots[|rt.roots| - 3..] == [envs, fexpr, arg]
    requires envs in rt.heap && fexpr in rt.heap && arg in rt.heap
    modifies rt
    ensures r.Failure? ==>
              rt.Exhausted(r.error, old(rt.Load()) + 14 + 3 * Weight(old(rt.val)[envs])
                                    + 2 * Weight(old(rt.val)[fexpr]) + Weight(old(rt.val)[arg]))
    ensures r.Success? ==>
              && rt.Valid() && KeepsRoots(old(rt.roots), old(rt.val), rt.roots, rt.val, {CONT_STACK})
              && Abs(rt) == CallState(old(rt.val)[envs], old(rt.val)[fexpr], old(rt.val)[arg], old(Abs(rt)))
  {
    hide Consistent, ListOf, Live, Weigh, Weight;
    assert rt.roots[|rt.roots| - 3] == envs && rt.roots[|rt.roots| - 2] == fexpr && rt.roots[|rt.roots| - 1] == arg;
    var _ :- PushPopApply(rt);
    var _ :- PushEval(rt, envs, fexpr);
    r := PushEval(rt, envs, arg);
  }

  /** Root the parts of an ordinary call and schedule it. */
  method RootedCall(rt: Runtime, envs: Ptr, fexpr: Ptr, arg: Ptr) returns (r: Result<()>)
    requires rt.Valid() && envs in rt.heap && fexpr in rt.heap && arg in rt.heap
    modifies rt
    ensures r.Failure? ==>
              rt.Exhausted(r.error, old(rt.Load()) + 14 +
                           5 * (Weight(old(rt.val)[envs]) + Weight(old(rt.val)[fexpr]) + Weight(old(rt.val)[arg])))
    ensures r.Success? ==>
              && rt.Valid()
              && KeepsRoots(old(rt.roots) + [envs, fexpr, arg], old(rt.val), rt.roots, rt.val, {CONT_STACK})
              && Abs(rt) == CallState(old(rt.val)[envs], old(rt.val)[fexpr], old(rt.val)[arg], old(Abs(rt)))
  {
    hide Consistent, ListOf, Live, Weigh, Weight;
    PushRoots(rt, envs, fexpr, arg);
    r := PushCall(rt, envs, fexpr, arg);
  }

  /** Schedule an ordinary call: argument on top, then function, then application. */
  method ScheduleCall(rt: Runtime, envs: Ptr, fexpr: Ptr, arg: Ptr) returns (r: Result<()>)
    requires rt.Valid() && envs in rt.heap && fexpr in rt.heap && arg in rt.heap
    modifies rt
    ensures r != Failure(Abort)
    ensures Achieves(rt, old(rt.roots), old(rt.val), r,
                     Running(CallState(old(rt.val)[envs], old(rt.val)[fexpr], old(rt.val)[arg], old(Abs(rt)))),
                     2 * old(rt.Load()) + 14
                     + 5 * (Weight(old(rt.val)[envs]) + Weight(old(rt.val)[fexpr]) + Weight(old(rt.val)[arg])))
  {
    hide Consistent, ListOf, Live, Weigh, Weight;
    var _ :- RootedCall(rt, envs, fexpr, arg);
    PopRoots(rt);
    return Success(());
  }

  // ----- the apply functions -----

  /** `apply`: dispatch on the code of a function object. The result is also how deep
      calls of `apply` nest. */
  method ApplyObject(rt: Runtime, f: Ptr) returns (r: Result<()>, ghost depth: nat)
    requires rt.Valid() && f in rt.heap
    modifies rt
    ensures Achieves(rt, old(rt.roots), old(rt.val), r, Apply(old(rt.val)[f], old(Abs(rt))),
                     ApplySpace(old(rt.val)[f], old(Abs(rt)), old(Others(rt.roots, rt.val))))
    ensures depth <= ApplyDepth(old(rt.val)[f], old(Abs(rt)))
    ensures r != Failure(OutOfMemory) ==> depth == ApplyDepth(old(rt.val)[f], old(Abs(rt)))
    decreases if rt.val[f].Function? then Plain(Abs(rt).operands) else 0,
              if rt.val[f].Function? then Size(rt.val[f]) else 0, 1
  {
    hide Consistent, ListOf, Live, Weigh, Weight, Plain, Simple;
    ReadObject(rt.heap, rt.val, f);
    LoadSplit(rt);
    depth := 1;
    match rt.heap[f] {
      case FunctionBody(code, data) =>
        ghost var inner: nat := 0;
        match code {
          case Eval => r, inner := EvalObject(rt, data);
          case PopApply => r, inner := PopApplyObject(rt, data);
          case PrintAtom => r := PrintAtomObject(rt, data);
          case Quote => r := QuoteObject(rt, data);
          case Fun => r := FunObject(rt, data);
          case FunApply => r := FunApplyObject(rt, data);
        }
        depth := 1 + inner;
      case _ => return Failure(Abort), 1;
    }
  }

  method PopApplyObject(rt: Runtime, data: Ptr) returns (r: Result<()>, ghost depth: nat)
    requires rt.Valid() && data in rt.heap
    modifies rt
    ensures Achieves(rt, old(rt.roots), old(rt.val), r, ApplyCode(PopApply, old(rt.val)[data], old(Abs(rt))),
                     CodeSpace(PopApply, old(rt.val)[data], old(Abs(rt)), old(Others(rt.roots, rt.val))))
    ensures depth <= CodeDepth(PopApply, old(rt.val)[data], old(Abs(rt)))
    ensures r != Failure(OutOfMemory) ==> depth == CodeDepth(PopApply, old(rt.val)[data], old(Abs(rt)))
    decreases Plain(Abs(rt).operands), Size(rt.val[data]) + 1, 0
  {
    hide Consistent, ListOf, Live, Weigh, Weight;
    ghost var s := Abs(rt);
    depth := 0;
    var f :- Pop(rt);
    ghost var roots1, val1 := rt.roots, rt.val;
    OthersKept(old(rt.roots), old(rt.val), roots1, val1);
    r, depth := ApplyObject(rt, f);
    if r.Success? {
      KeepsRootsTrans(old(rt.roots), old(rt.val), roots1, val1, rt.roots, rt.val, {OPERAND_STACK, CONT_STACK});
    }
  }

  method PrintAtomObject(rt: Runtime, data: Ptr) returns (r: Result<()>)
    requires rt.Valid() && data in rt.heap
    modifies rt
    ensures Achieves(rt, old(rt.roots), old(rt.val), r, ApplyCode(PrintAtom, old(rt.val)[data], old(Abs(rt))),
                     Simple(old(rt.Load()), Weight(old(rt.val)[data])))
  {
    hide Consistent, ListOf, Live, Weigh;
    var arg :- Pop(rt);
    ReadObject(rt.heap, rt.val, arg);
    ReadObject(rt.heap, rt.val, NIL);
    match rt.heap[arg] {
      case AtomBody(chars) =>
        rt.output := rt.output + [chars];
        r := PushOn(rt, OPERAND_STACK, NIL);
      case _ => return Failure(Abort);
    }
  }

  method QuoteObject(rt: Runtime, data: Ptr) returns (r: Result<()>)
    requires rt.Valid() && data in rt.heap
    modifies rt
    ensures Achieves(rt, old(rt.roots), old(rt.val), r, ApplyCode(Quote, old(rt.val)[data], old(Abs(rt))),
                     Simple(old(rt.Load()), Weight(old(rt.val)[data])))
  {
    hide Consistent, ListOf, Live, Weigh;
    var arg :- Pop(rt);
    var pair :- DestructCons(rt, arg);
    r := PushOn(rt, OPERAND_STACK, pair.tail);
  }

  method FunObject(rt: Runtime, data: Ptr) returns (r: Result<()>)
    requires rt.Valid() && data in rt.heap
    modifies rt
    ensures Achieves(rt, old(rt.roots), old(rt.val), r, ApplyCode(Fun, old(rt.val)[data], old(Abs(rt))),
                     Simple(old(rt.Load()), Weight(old(rt.val)[data])))
  {
    hide Consistent, ListOf, Live, Weigh;
    var arg :- Pop(rt);
    var f :- rt.CreateFunction(FunApply, arg);
    r := PushOn(rt, OPERAND_STACK, f);
  }

  /** `map_cons`: extend the bindings in a rooted variable. */
  method MapCons(rt: Runtime, key: Ptr, value: Ptr, slot: nat) returns (r: Result<()>)
    requires rt.Valid() && key in rt.heap && value in rt.heap && CONT_STACK < slot < |rt.roots|
    modifies rt
    ensures r.Failure? ==>
              rt.Exhausted(r.error, Weight(old(rt.val)[key]) + Weight(old(rt.val)[value]) + 1
                                    + Weight(old(rt.val)[old(rt.roots)[slot]]))
    ensures r.Success? ==>
              && rt.Valid() && rt.output == old(rt.output)
              && KeepsRoots(old(rt.roots), old(rt.val), rt.roots, rt.val, {slot})
              && rt.val[rt.roots[slot]] == Cons(Cons(old(rt.val)[key], old(rt.val)[value]),
                                                old(rt.val)[old(rt.roots)[slot]])
              && rt.Load() == old(rt.Load()) + 2 + Weight(old(rt.val)[key]) + Weight(old(rt.val)[value])
  {
    hide Consistent, ListOf, Live, Weigh;
    var entry :- rt.CreateCons(key, value);
    var cons :- rt.CreateCons(entry, rt.roots[slot]);
    rt.SetRoot(slot, cons);
    return Success(());
  }

  /** The environments of a closure's body: its forms, its variables and the
      parameter. The closure's environment and forms are in root slots. */
  method BindParameter(rt: Runtime, param: Ptr, arg: Ptr, slot: nat) returns (r: Result<Ptr>)
    requires rt.Valid() && param in rt.heap && arg in rt.heap && CONT_STACK < slot < |rt.roots| - 1
    modifies rt
    ensures r.Failure? ==>
              rt.Exhausted(r.error, 4 + 2 * Weight(old(rt.val)[param]) + 2 * Weight(old(rt.val)[arg])
                                    + Weight(old(rt.val)[old(rt.roots)[slot]])
                                    + Weight(old(rt.val)[old(rt.roots)[slot + 1]]))
    ensures r.Success? ==>
              && rt.Valid() && rt.output == old(rt.output)
              && KeepsRoots(old(rt.roots), old(rt.val), rt.roots, rt.val, {slot})
              && rt.Load() == old(rt.Load()) + 2 + Weight(old(rt.val)[param]) + Weight(old(rt.val)[arg])
              && r.value in rt.heap
              && rt.val[r.value] == Cons(old(rt.val)[old(rt.roots)[slot + 1]],
                                         Cons(Cons(old(rt.val)[param], old(rt.val)[arg]),
                                              old(rt.val)[old(rt.roots)[slot]]))
  {
    hide Consistent, ListOf, Live, Weigh;
    var _ :- MapCons(rt, param, arg, slot);
    assert Weight(rt.val[rt.roots[slot]]) ==
           2 + Weight(old(rt.val)[param]) + Weight(old(rt.val)[arg]) + Weight(old(rt.val)[old(rt.roots)[slot]]);
    r := rt.CreateCons(rt.roots[slot + 1], rt.roots[slot]);
  }

  lemma EnvsWeight(forms: Value, param: Value, arg: Value, env: Value)
    ensures Weight(Cons(forms, Cons(Cons(param, arg), env))) ==
            3 + Weight(forms) + Weight(param) + Weight(arg) + Weight(env)
  {
    assert Weight(Cons(Cons(param, arg), env)) == 2 + Weight(param) + Weight(arg) + Weight(env);
  }

  /** Bind and schedule; the closure's environment, forms and body are in the last root slots. */
  method PushBody(rt: Runtime, param: Ptr, arg: Ptr) returns (r: Result<()>)
    requires rt.Valid() && param in rt.heap && arg in rt.heap && |rt.roots| >= 6
    modifies rt
    ensures r.Failure? ==>
              rt.Exhausted(r.error, old(rt.Load()) + 9 + 3 * Weight(old(rt.val)[param]) + 3 * Weight(old(rt.val)[arg])
                                    + old(Weight(RootValue(rt, 3)) + Weight(RootValue(rt, 2)))
                                    + old(Weight(RootValue(rt, 1))))
    ensures r.Success? ==>
              && rt.Valid()
              && KeepsRoots(old(rt.roots), old(rt.val), rt.roots, rt.val, {|old(rt.roots)| - 3, CONT_STACK})
              && Abs(rt) == BodyState(old(RootValue(rt, 3)), old(RootValue(rt, 2)), old(RootValue(rt, 1)),
                                      old(rt.val)[param], old(rt.val)[arg], old(Abs(rt)))
  {
    hide Consistent, ListOf, Live, Weigh;
    var n: nat := |rt.roots| - 3;
    var body := rt.roots[n + 2];
    var newEnvs :- BindParameter(rt, param, arg, n);
    EnvsWeight(old(RootValue(rt, 2)), old(rt.val)[param], old(rt.val)[arg], old(RootValue(rt, 3)));
    assert rt.roots[n + 2] == body && Abs(rt) == old(Abs(rt));
    ghost var roots1, val1 := rt.roots, rt.val;
    r := PushEval(rt, newEnvs, body);
    if r.Success? { KeepsRootsBoth(old(rt.roots), old(rt.val), roots1, val1, rt.roots, rt.val, n, CONT_STACK); }
  }

  /** The value of the `i`-th root slot from the top. */
  ghost function RootValue(rt: Runtime, i: nat): Value
    requires rt.Valid() && 1 <= i <= |rt.roots|
    reads rt
  {
    rt.val[rt.roots[|rt.roots| - i]]
  }

  /** A closure's body is scheduled with its parameter bound. */
  function BodyState(env: Value, forms: Value, body: Value, param: Value, arg: Value, s: State): State {
    PushCont(EvalCont(Cons(forms, Cons(Cons(param, arg), env)), body), s)
  }

  /** Continue with the body of a closure, the parameter bound to the argument. */
  method EnterClosure(rt: Runtime, param: Ptr, arg: Ptr, env: Ptr, forms: Ptr, body: Ptr) returns (r: Result<()>)
    requires rt.Valid() && param in rt.heap && arg in rt.heap && env in rt.heap && forms in rt.heap && body in rt.heap
    modifies rt
    ensures r != Failure(Abort)
    ensures Achieves(rt, old(rt.roots), old(rt.val), r,
                     Running(BodyState(old(rt.val)[env], old(rt.val)[forms], old(rt.val)[body],
                                       old(rt.val)[param], old(rt.val)[arg], old(Abs(rt)))),
                     2 * old(rt.Load()) + 9
                     + 3 * (Weight(old(rt.val)[env]) + Weight(old(rt.val)[forms]) + Weight(old(rt.val)[body])
                            + Weight(old(rt.val)[param]) + Weight(old(rt.val)[arg])))
  {
    hide Consistent, ListOf, Live, Weigh, Weight;
    PushRoots(rt, env, forms, body);
    var _ :- PushBody(rt, param, arg);
    PopRoots(rt);
    return Success(());
  }

  lemma ClosureWeight(data: Value)
    ensures data.Cons? && data.head.Cons? && data.tail.Cons? ==>
              Weight(data) == 3 + Weight(data.head.head) + Weight(data.head.tail)
                              + Weight(data.tail.head) + Weight(data.tail.tail)
  { }

  method FunApplyObject(rt: Runtime, data: Ptr) returns (r: Result<()>)
    requires rt.Valid() && data in rt.heap
    modifies rt
    ensures Achieves(rt, old(rt.roots), old(rt.val), r, ApplyCode(FunApply, old(rt.val)[data], old(Abs(rt))),
                     Simple(old(rt.Load()), Weight(old(rt.val)[data])))
  {
    hide Consistent, ListOf, Live, Weigh, Weight;
    ClosureWeight(rt.val[data]);
    var arg :- Pop(rt);
    var closure :- DestructCons(rt, data);
    var envs :- DestructCons(rt, closure.head);
    var code :- DestructCons(rt, closure.tail);
    ReadObject(rt.heap, rt.val, code.head);
    if !rt.heap[code.head].AtomBody? { return Failure(Abort); }
    ghost var roots1, val1 := rt.roots, rt.val;
    r := EnterClosure(rt, code.head, arg, envs.tail, envs.head, code.tail);
    if r.Success? {
      KeepsRootsTrans(old(rt.roots), old(rt.val), roots1, val1, rt.roots, rt.val, {OPERAND_STACK, CONT_STACK});
    }
  }

  /** `eval` of a variable. */
  method EvalVariable(rt: Runtime, expr: Ptr, env: Ptr) returns (r: Result<()>)
    requires rt.Valid() && expr in rt.heap && env in rt.heap && rt.heap[expr].AtomBody?
    modifies rt
    ensures var found := Assoc(old(rt.heap)[expr].chars, old(rt.val)[env]);
            Achieves(rt, old(rt.roots), old(rt.val), r,
                     if found.Found? then Running(Push(found.value, old(Abs(rt)))) else Crashed(old(Abs(rt)).output),
                     2 * old(rt.Load()) + Weight(old(rt.val)[env]))
  {
    hide Consistent, ListOf, Live, Weigh, Weight;
    AssocWeight(rt.heap[expr].chars, rt.val[env]);
    var value :- AssocObject(rt, expr, env);
    if value == NULL { return Failure(Abort); }
    r := PushOn(rt, OPERAND_STACK, value);
  }

  /** `eval` of a pair. */
  method EvalPair(rt: Runtime, data: Ptr, envs: Ptr, forms: Ptr, fexpr: Ptr, arg: Ptr)
    returns (r: Result<()>, ghost depth: nat)
    requires rt.Valid() && data in rt.heap && envs in rt.heap && forms in rt.heap && fexpr in rt.heap && arg in rt.heap
    requires rt.val[envs].Cons? && rt.val[envs].head == rt.val[forms]
    requires rt.val[data] == Cons(rt.val[envs], Cons(rt.val[fexpr], rt.val[arg]))
    modifies rt
    ensures Achieves(rt, old(rt.roots), old(rt.val), r, EvalStep(old(rt.val)[data], old(Abs(rt))),
                     EvalSpace(old(rt.val)[data], old(Abs(rt)), old(Others(rt.roots, rt.val))))
    ensures depth <= EvalDepth(old(rt.val)[data], old(Abs(rt)))
    ensures r != Failure(OutOfMemory) ==> depth == EvalDepth(old(rt.val)[data], old(Abs(rt)))
    decreases Plain(Abs(rt).operands), Size(rt.val[data]), 2
  {
    hide Consistent, ListOf, Live, Weigh, Plain, Apply, ApplyDepth, ApplySpace, EvalStep, EvalSpace, EvalDepth, LoadOf,
         Simple, Weight;
    ghost var s, others := Abs(rt), Others(rt.roots, rt.val);
    depth := 0;
    LoadSplit(rt);
    PairCosts(rt.val[envs], rt.val[fexpr], rt.val[arg], s, others);
    ReadObject(rt.heap, rt.val, fexpr);
    var form: Ptr := NULL;
    if rt.heap[fexpr].AtomBody? {
      form :- AssocObject(rt, fexpr, forms);
    }
    if form != NULL {
      r, depth := ApplyForm(rt, data, envs, arg, form);
    } else {
      r := ScheduleCall(rt, envs, fexpr, arg);
    }
  }

  /** What the evaluation of a pair does and costs, by the special form it names. */
  lemma PairCosts(envs: Value, fexpr: Value, arg: Value, s: State, others: nat)
    requires envs.Cons?
    ensures var data, load := Cons(envs, Cons(fexpr, arg)), LoadOf(s, others);
            match FormOf(fexpr, envs.head)
            case Found(form) =>
              var pushed := Push(Cons(envs, arg), s);
              && EvalStep(data, s) == Apply(form, pushed) && EvalDepth(data, s) == ApplyDepth(form, pushed)
              && EvalSpace(data, s, others) == Max(Simple(load, Weight(data)), ApplySpace(form, pushed, others))
              && Size(form) < Size(data) && Weight(form) + Weight(envs) + Weight(arg) <= 2 * Weight(data)
            case Missing =>
              && EvalStep(data, s) == Running(CallState(envs, fexpr, arg, s)) && EvalDepth(data, s) == 0
              && 2 * load + 14 + 5 * (Weight(envs) + Weight(fexpr) + Weight(arg)) <= EvalSpace(data, s, others)
            case Malformed => EvalStep(data, s) == Crashed(s.output) && EvalDepth(data, s) == 0
  {
    hide Apply, ApplyDepth, ApplySpace, Assoc;
    assert Weight(Cons(envs, Cons(fexpr, arg))) == 2 + Weight(envs) + Weight(fexpr) + Weight(arg);
    if fexpr.Atom? { AssocWeight(fexpr.chars, envs.head); }
  }

  /** `eval`. */
  method EvalObject(rt: Runtime, data: Ptr) returns (r: Result<()>, ghost depth: nat)
    requires rt.Valid() && data in rt.heap
    modifies rt
    ensures Achieves(rt, old(rt.roots), old(rt.val), r, EvalStep(old(rt.val)[data], old(Abs(rt))),
                     EvalSpace(old(rt.val)[data], old(Abs(rt)), old(Others(rt.roots, rt.val))))
    ensures depth <= EvalDepth(old(rt.val)[data], old(Abs(rt)))
    ensures r != Failure(OutOfMemory) ==> depth == EvalDepth(old(rt.val)[data], old(Abs(rt)))
    decreases Plain(Abs(rt).operands), Size(rt.val[data]), 3
  {
    hide Consistent, ListOf, Live, Weigh, Plain, Apply, ApplyDepth, ApplySpace, EvalStep, EvalSpace, EvalDepth, Weight;
    depth := 0;
    OtherCosts(rt.val[data], Abs(rt), Others(rt.roots, rt.val));
    LoadSplit(rt);
    var pair :- DestructCons(rt, data);
    var envs, expr := pair.head, pair.tail;
    var scopes :- DestructCons(rt, envs);
    ReadObject(rt.heap, rt.val, expr);
    match rt.heap[expr] {
      case AtomBody(_) => r := EvalVariable(rt, expr, scopes.tail);
      case ConsBody(fexpr, arg) => r, depth := EvalPair(rt, data, envs, scopes.head, fexpr, arg);
      case _ => return Failure(Abort), 0;
    }
  }

  /** What the evaluation of anything but a pair does and costs. */
  lemma OtherCosts(data: Value, s: State, others: nat)
    ensures !(data.Cons? && data.head.Cons? && (data.tail.Atom? || data.tail.Cons?)) ==>
              EvalStep(data, s) == Crashed(s.output) && EvalDepth(data, s) == 0
    ensures data.Cons? && data.head.Cons? && data.tail.Atom? ==>
              && EvalDepth(data, s) == 0
              && 2 * LoadOf(s, others) + Weight(data.head.tail) <= EvalSpace(data, s, others)
              && var found := Assoc(data.tail.chars, data.head.tail);
                 EvalStep(data, s) == if found.Found? then Running(Push(found.value, s)) else Crashed(s.output)
  {
    hide Apply, ApplyDepth, ApplySpace;
    if data.Cons? && data.head.Cons? { assert Weight(data) >= Weight(data.head) >= Weight(data.head.tail); }
  }

  /** Push a form's unevaluated argument; the form survives a collection. */
  method PushFormArgument(rt: Runtime, envs: Ptr, arg: Ptr, form: Ptr) returns (r: Result<()>)
    requires rt.Valid() && envs in rt.heap && arg in rt.heap && form in rt.heap
    modifies rt
    ensures r.Failure? ==>
              rt.Exhausted(r.error, old(rt.Load()) + 2 * Weight(old(rt.val)[form]) + 1
                                    + Weight(old(rt.val)[envs]) + Weight(old(rt.val)[arg]))
    ensures r.Success? ==>
              && rt.Valid() && KeepsRoots(old(rt.roots), old(rt.val), rt.roots, rt.val, {OPERAND_STACK, CONT_STACK})
              && form in rt.heap && rt.val[form] == old(rt.val)[form]
              && Abs(rt) == Push(Cons(old(rt.val)[envs], old(rt.val)[arg]), old(Abs(rt)))
  {
    hide Consistent, ListOf, Live, Weigh;
    ghost var n := |rt.roots|;
    rt.PushRoot(form);
    assert rt.roots[n] == form;
    var value :- rt.CreateCons(envs, arg);
    var _ :- PushOn(rt, OPERAND_STACK, value);
    assert rt.roots[n] == form;
    rt.PopRoot();
    return Success(());
  }

  /** Hand a special form its unevaluated argument. */
  method ApplyForm(rt: Runtime, ghost data: Ptr, envs: Ptr, arg: Ptr, form: Ptr)
    returns (r: Result<()>, ghost depth: nat)
    requires rt.Valid() && data in rt.heap && envs in rt.heap && arg in rt.heap && form in rt.heap
    requires Size(rt.val[form]) < Size(rt.val[data])
    requires Weight(rt.val[form]) + Weight(rt.val[envs]) + Weight(rt.val[arg]) <= 2 * Weight(rt.val[data])
    modifies rt
    ensures Achieves(rt, old(rt.roots), old(rt.val), r,
                     Apply(old(rt.val)[form], Push(Cons(old(rt.val)[envs], old(rt.val)[arg]), old(Abs(rt)))),
                     Max(Simple(old(rt.Load()), Weight(old(rt.val)[data])),
                         ApplySpace(old(rt.val)[form], Push(Cons(old(rt.val)[envs], old(rt.val)[arg]), old(Abs(rt))),
                                    old(Others(rt.roots, rt.val)))))
    ensures var d := ApplyDepth(old(rt.val)[form], Push(Cons(old(rt.val)[envs], old(rt.val)[arg]), old(Abs(rt))));
            depth <= d && (r != Failure(OutOfMemory) ==> depth == d)
    decreases Plain(Abs(rt).operands), Size(rt.val[data]), 1
  {
    hide Consistent, ListOf, Live, Weigh, Weight, Apply, ApplyDepth, ApplySpace;
    depth := 0;
    OutputGrows(rt.val[form], Push(Cons(rt.val[envs], rt.val[arg]), Abs(rt)));
    var _ :- PushFormArgument(rt, envs, arg, form);
    ghost var roots1, val1 := rt.roots, rt.val;
    OthersKept(old(rt.roots), old(rt.val), roots1, val1);
    r, depth := ApplyObject(rt, form);
    if r.Success? {
      KeepsRootsTrans(old(rt.roots), old(rt.val), roots1, val1, rt.roots, rt.val, {OPERAND_STACK, CONT_STACK});
    }
  }

  // ----- the main loops -----

  /** `pop_cont`: null when no continuation is left. */
  method PopCont(rt: Runtime) returns (f: Ptr)
    requires rt.Valid()
    modifies rt`roots
    ensures rt.Valid() && KeepsRoots(old(rt.roots), rt.val, rt.roots, rt.val, {CONT_STACK})
    ensures f == NULL <==> !old(Abs(rt)).conts.Cons?
    ensures f == NULL ==> rt.roots == old(rt.roots)
    ensures f != NULL ==>
              f in rt.heap && rt.val[f] == old(Abs(rt)).conts.head && Abs(rt).conts == old(Abs(rt)).conts.tail
  {
    hide Consistent, ListOf, Live, Weigh;
    var stack := DestructCons(rt, rt.roots[CONT_STACK]);
    if stack.Failure? { return NULL; }
    ReadObject(rt.heap, rt.val, stack.value.head);
    rt.SetRoot(CONT_STACK, stack.value.tail);
    return stack.value.head;
  }

  /** One turn of the inner loop of `main`. */
  method Turn(rt: Runtime) returns (r: Result<()>, ghost depth: nat)
    requires rt.Valid() && Abs(rt).conts.Cons?
    modifies rt
    ensures Achieves(rt, old(rt.roots), old(rt.val), r, Step(old(Abs(rt))),
                     StepSpace(old(Abs(rt)), old(Others(rt.roots, rt.val))))
    ensures StateOk(old(Abs(rt))) ==> depth <= 2
    ensures StateOk(old(Abs(rt))) && r.Success? ==> StateOk(Abs(rt))
  {
    hide Consistent, ListOf, Live, Weigh, Apply, ApplyDepth, ApplySpace, StateOk;
    ghost var s := Abs(rt);
    if StateOk(s) {
      TurnDepth(s);
      if Step(s).Running? { StepKeeps(s); }
    }
    var f := PopCont(rt);
    ghost var roots1, val1 := rt.roots, rt.val;
    OthersKept(old(rt.roots), old(rt.val), roots1, val1);
    r, depth := ApplyObject(rt, f);
    if r.Success? {
      KeepsRootsTrans(old(rt.roots), old(rt.val), roots1, val1, rt.roots, rt.val, {OPERAND_STACK, CONT_STACK});
    }
  }

  /** The inner loop of `main`: pop and apply continuations, at most `budget` of them.
      The result is also how deep calls of `apply` nested. */
  method RunConts(rt: Runtime, budget: nat) returns (r: Result<()>, ghost deepest: nat)
    requires rt.Valid()
    modifies rt
    ensures Achieves(rt, old(rt.roots), old(rt.val), r, Steps(budget, old(Abs(rt))),
                     StepsSpace(budget, old(Abs(rt)), old(Others(rt.roots, rt.val))))
    ensures StateOk(old(Abs(rt))) ==> deepest <= 2
    ensures StateOk(old(Abs(rt))) && r.Success? ==> StateOk(Abs(rt))
  {
    hide Consistent, ListOf, Live, Weigh, Weight, Others, Step, StepSpace, StateOk, KeepsRoots;
    KeepsRootsSame(rt.roots, rt.val, {OPERAND_STACK, CONT_STACK});
    ghost var s0, others := Abs(rt), Others(rt.roots, rt.val);
    var left := budget;
    deepest := 0;
    while left > 0 && rt.heap[rt.roots[CONT_STACK]].ConsBody?
      invariant rt.Valid() && KeepsRoots(old(rt.roots), old(rt.val), rt.roots, rt.val, {OPERAND_STACK, CONT_STACK})
      invariant Steps(budget, s0) == Steps(left, Abs(rt)) && Others(rt.roots, rt.val) == others
      invariant StepsSpace(left, Abs(rt), others) <= StepsSpace(budget, s0, others)
      invariant StateOk(s0) ==> deepest <= 2 && StateOk(Abs(rt))
    {
      ReadObject(rt.heap, rt.val, rt.roots[CONT_STACK]);
      ghost var roots1, val1, s := rt.roots, rt.val, Abs(rt);
      var ran, depth := Turn(rt);
      deepest := Max(deepest, depth);
      if Step(s).Running? { StepsOutputGrows(left - 1, Step(s).state); }
      if ran.Failure? { return ran, deepest; }
      KeepsRootsTrans(old(rt.roots), old(rt.val), roots1, val1, rt.roots, rt.val, {OPERAND_STACK, CONT_STACK});
      OthersKept(roots1, val1, rt.roots, rt.val);
      left := left - 1;
    }
    ReadObject(rt.heap, rt.val, rt.roots[CONT_STACK]);
    return Success(()), deepest;
  }

  /** `map_cons_s_func_nil`: bind a name to a built-in function. */
  method AddPrimitive(rt: Runtime, key: string, code: Code, slot: nat) returns (r: Result<()>)
    requires rt.Valid() && CONT_STACK < slot < |rt.roots|
    modifies rt
    ensures r.Failure? ==> rt.Exhausted(r.error, old(rt.Load()) + 4)
    ensures r.Success? ==>
              && rt.Valid() && rt.output == old(rt.output)
              && KeepsRoots(old(rt.roots), old(rt.val), rt.roots, rt.val, {slot})
              && rt.val[rt.roots[slot]] == Cons(Cons(Atom(key), Function(code, Nil)), old(rt.val)[old(rt.roots)[slot]])
              && rt.Load() == old(rt.Load()) + 5
  {
    hide Consistent, ListOf, Live, Weigh;
    ReadObject(rt.heap, rt.val, NIL);
    RootWeight(rt.roots, rt.val, slot);
    var f :- rt.CreateFunction(code, NIL);
    var atom :- NameFor(rt, key, f);
    r := MapCons(rt, atom, f, slot);
  }

  /** Allocate the atom for a name while its value is rooted. */
  method NameFor(rt: Runtime, key: string, value: Ptr) returns (r: Result<Ptr>)
    requires rt.Valid() && value in rt.heap
    modifies rt
    ensures r.Failure? ==> rt.Exhausted(r.error, Weight(old(rt.val)[value]))
    ensures r.Success? ==> rt.Created(r.value, Atom(key)) && value in rt.heap && rt.val[value] == old(rt.val)[value]
  {
    hide Consistent, ListOf, Live, Weigh;
    ghost var n := |rt.roots|;
    rt.PushRoot(value);
    assert rt.roots[n] == value;
    r := rt.CreateAtom(key);
    if r.Success? {
      rt.PopRoot();
      WeighKept(rt.roots, old(rt.val), rt.val);
    }
  }

  /** The root slot of `envs` in `main`, after those of `forms` and `env`. */
  const FORMS: nat := 3
  const ENV: nat := 4
  const ENVS: nat := 5

  /** `main`: the special forms. There is memory for them. */
  method SetupForms(rt: Runtime) returns (r: Result<()>)
    requires rt.Valid() && |rt.roots| == FORMS && rt.Load() == 3
    modifies rt
    ensures r.Success? && rt.Valid() && Abs(rt) == old(Abs(rt)) && |rt.roots| == FORMS + 1
    ensures rt.val[rt.roots[FORMS]] == InitialForms() && rt.Load() == 14
  {
    hide Consistent, ListOf, Live, Weigh;
    ReadObject(rt.heap, rt.val, NIL);
    rt.PushRoot(NIL);
    r := AddPrimitive(rt, "quote", Quote, FORMS);
    r := AddPrimitive(rt, "fun", Fun, FORMS);
  }

  /** `main`: the global variables. */
  method SetupEnv(rt: Runtime) returns (r: Result<()>)
    requires rt.Valid() && |rt.roots| == ENV && rt.Load() == 14
    modifies rt
    ensures r.Success? && rt.Valid() && Abs(rt) == old(Abs(rt)) && |rt.roots| == ENV + 1 && rt.Load() == 20
    ensures rt.val[rt.roots[FORMS]] == old(rt.val[rt.roots[FORMS]]) && rt.val[rt.roots[ENV]] == InitialEnv()
  {
    hide Consistent, ListOf, Live, Weigh;
    ReadObject(rt.heap, rt.val, NIL);
    rt.PushRoot(NIL);
    r := AddPrimitive(rt, "print_atom", PrintAtom, ENV);
  }

  /** The nodes of the roots of `main` besides the stacks. */
  const MAIN_WEIGHT: nat := 36

  /** `main` up to its loop. */
  method Setup(rt: Runtime) returns (r: Result<()>)
    requires rt.Valid() && |rt.roots| == FORMS && rt.Load() == 3 && Abs(rt) == State(Nil, Nil, [])
    modifies rt
    ensures r.Success? && InLoop(rt) && Abs(rt) == old(Abs(rt))
  {
    hide Consistent, ListOf, Live, Weigh;
    r := SetupForms(rt);
    r := SetupEnv(rt);
    InitialWeights();
    var envs := rt.CreateCons(rt.roots[FORMS], rt.roots[ENV]);
    rt.PushRoot(envs.value);
    LoadSplit(rt);
    return Success(());
  }

  lemma InitialWeights()
    ensures Weight(InitialForms()) == 11 && Weight(InitialEnv()) == 6 && Weight(InitialEnvs()) == 18
  {
    assert Weight(InitialForms().head) == 4 && Weight(InitialForms().tail.head) == 4;
  }

  /** At the head of the loop of `main`. */
  ghost predicate InLoop(rt: Runtime) reads rt {
    && rt.Valid() && |rt.roots| == ENVS + 1 && rt.val[rt.roots[ENVS]] == InitialEnvs()
    && Others(rt.roots, rt.val) == MAIN_WEIGHT && StateOk(Abs(rt))
  }

  /** How a session stands: it failed, or is busy with an expression past its budget;
      the runtime's invariant holds in any case. */
  ghost predicate SessionIs(rt: Runtime, r: Result<()>, spec: SessionResult, room: nat) reads rt {
    rt.Valid() &&
    match r
    case Success(_) => spec == Busy(rt.output)
    case Failure(Abort) => spec == Aborted(rt.output)
    case Failure(OutOfMemory) => rt.Full() && rt.output <= spec.output && LIMIT <= room
  }

  /** Parse an expression and schedule its evaluation. */
  method ReadExpression(rt: Runtime, tokens: seq<Syntax.Token>) returns (r: Result<()>, rest: seq<Syntax.Token>)
    requires InLoop(rt)
    modifies rt
    ensures match r
            case Success(_) =>
              && InLoop(rt)
              && var p := Syntax.Parse(tokens);
                 p.Ok? && rest == p.rest && Abs(rt) == PushCont(EvalCont(InitialEnvs(), p.value), old(Abs(rt)))
            case Failure(Abort) => rt.Valid() && Syntax.Parse(tokens).SyntaxError? && rt.output == old(rt.output)
            case Failure(OutOfMemory) =>
              rt.Full() && rt.output == old(rt.output) && LIMIT <= ReadSpace(tokens, LoadOf(old(Abs(rt)), MAIN_WEIGHT))
  {
    hide Consistent, ListOf, Live, Weigh, Weight, StateOk, LoadOf, InitialEnvs;
    LoadSplit(rt);
    ghost var roots0, val0 := rt.roots, rt.val;
    var expr;
    expr, rest := ParseObject(rt, tokens);
    if expr.Failure? { return Failure(expr.error), rest; }
    WeighKept(roots0, val0, rt.val);
    ScheduledOk(tokens, Abs(rt));
    r := PushEval(rt, rt.roots[ENVS], expr.value);
    if r.Success? { OthersKept(roots0, val0, rt.roots, rt.val); }
  }

  /** One expression of the session: parse it, run it and drop its value. The
      result is whether it was finished, and how deep calls of `apply` nested. */
  method Expression(rt: Runtime, tokens: seq<Syntax.Token>, budget: nat)
    returns (r: Result<bool>, rest: seq<Syntax.Token>, ghost deepest: nat)
    requires InLoop(rt)
    modifies rt
    ensures rt.Valid() && deepest <= 2
    ensures match r
            case Success(finished) =>
              if finished then
                && InLoop(rt) && |rest| < |tokens|
                && RunSession(tokens, budget, old(Abs(rt))) == RunSession(rest, budget, Abs(rt))
                && SessionSpace(rest, budget, Abs(rt), MAIN_WEIGHT) <=
                   SessionSpace(tokens, budget, old(Abs(rt)), MAIN_WEIGHT)
              else RunSession(tokens, budget, old(Abs(rt))) == Busy(rt.output)
            case Failure(Abort) => RunSession(tokens, budget, old(Abs(rt))) == Aborted(rt.output)
            case Failure(OutOfMemory) =>
              && rt.Full() && rt.output <= RunSession(tokens, budget, old(Abs(rt))).output
              && LIMIT <= SessionSpace(tokens, budget, old(Abs(rt)), MAIN_WEIGHT)
  {
    hide Consistent, ListOf, Live, Weigh, Weight, StateOk, LoadOf, InitialEnvs, Steps, StepsSpace;
    deepest := 0;
    SessionOutput(tokens, budget, Abs(rt));
    var read;
    read, rest := ReadExpression(rt, tokens);
    if read.Failure? { return Failure(read.error), rest, deepest; }
    ghost var roots1, val1 := rt.roots, rt.val;
    var ran;
    ran, deepest := RunConts(rt, budget);
    if ran.Failure? { return Failure(ran.error), rest, deepest; }
    OthersKept(roots1, val1, rt.roots, rt.val);
    ReadObject(rt.heap, rt.val, rt.roots[CONT_STACK]);
    if rt.heap[rt.roots[CONT_STACK]].ConsBody? { return Success(false), rest, deepest; }
    DroppedOk(Abs(rt));
    ghost var roots2, val2 := rt.roots, rt.val;
    var popped := Pop(rt);
    if popped.Failure? { return Failure(popped.error), rest, deepest; }
    OthersKept(roots2, val2, rt.roots, rt.val);
    return Success(true), rest, deepest;
  }

  lemma DroppedOk(s: State)
    requires StateOk(s)
    ensures s.operands.Cons? ==> StateOk(s.(operands := s.operands.tail))
  { }

  /** A session prints at least what it has printed, and what its first expression prints. */
  lemma SessionOutput(tokens: seq<Syntax.Token>, budget: nat, s: State)
    ensures s.output <= RunSession(tokens, budget, s).output
    ensures var p := Syntax.Parse(tokens);
            p.Ok? ==>
              Printed(Steps(budget, PushCont(EvalCont(InitialEnvs(), p.value), s))) <=
              RunSession(tokens, budget, s).output
  {
    SessionOutputGrows(tokens, budget, s);
    var p := Syntax.Parse(tokens);
    if p.Ok? {
      var t := Steps(budget, PushCont(EvalCont(InitialEnvs(), p.value), s));
      if t.Running? && !t.state.conts.Cons? && t.state.operands.Cons? {
        SessionOutputGrows(p.rest, budget, t.state.(operands := t.state.operands.tail));
      }
    }
  }

  /** The whole program on a given input, when no expression gets more than
      `budget` turns of the loop. Calls of `apply` nest at most two deep. */
  method Interpret(tokens: seq<Syntax.Token>, budget: nat) returns (rt: Runtime, r: Result<()>, ghost deepest: nat)
    ensures SessionIs(rt, r, RunSession(tokens, budget, State(Nil, Nil, [])),
                      SessionSpace(tokens, budget, State(Nil, Nil, []), MAIN_WEIGHT))
    ensures rt.objectCount == |rt.objs| <= 10000 && NIL !in rt.disposed && deepest <= 2
    ensures r == Failure(OutOfMemory) ==> rt.objectCount == 10000
  {
    hide ListOf, RunSession, SessionSpace;
    rt := new Runtime();
    ReadObject(rt.heap, rt.val, NIL);
    StartWeighs(rt);
    r := Setup(rt);
    deepest := 0;
    var rest := tokens;
    while true
      invariant InLoop(rt) && deepest <= 2
      invariant RunSession(tokens, budget, State(Nil, Nil, [])) == RunSession(rest, budget, Abs(rt))
      invariant SessionSpace(rest, budget, Abs(rt), MAIN_WEIGHT) <=
                SessionSpace(tokens, budget, State(Nil, Nil, []), MAIN_WEIGHT)
      decreases |rest|
    {
      var finished;
      ghost var depth;
      finished, rest, depth := Expression(rt, rest, budget);
      deepest := Max(deepest, depth);
      ListLength(rt);
      if finished.Failure? { return rt, Failure(finished.error), deepest; }
      if !finished.value { return rt, Success(()), deepest; }
    }
  }

  lemma ListLength(rt: Runtime)
    requires rt.Valid()
    ensures rt.objectCount == |rt.objs|
  { }

  lemma StartWeighs(rt: Runtime)
    requires rt.Valid() && rt.roots == [NIL, NIL, NIL] && rt.val[NIL] == Nil
    ensures rt.Load() == 3
  {
    assert rt.roots[1..] == [NIL, NIL] && rt.roots[1..][1..] == [NIL] && rt.roots[1..][1..][1..] == [];
    assert Weigh([NIL], rt.val) == 1;
    assert Weigh([NIL, NIL], rt.val) == 2;
  }
}
