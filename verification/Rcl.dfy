/** The reference-counted interpreter, on heap objects. Every operation gives up
    exactly the handles it is given and does what the machine on values does. */
module Rcl {
  import opened Language
  import opened Pointers
  import opened Objects
  import opened Counting
  import opened Costs

  /** An operation did what `out` says: it went on to that state, holding only
      `rest`, whose values it kept; or it aborted after printing that. */
  ghost predicate Achieves(m: Memory, rest: multiset<Ptr>, val0: map<Ptr, Value>, r: Result<()>, out: Outcome)
    reads m
  {
    match r
    case Success(_) => m.Valid() && m.handles == rest && out == Running(m.Abs()) && Same(rest, val0, m.val)
    case Failure(_) => m.Valid() && out == Crashed(m.output)
  }

  datatype Pair = Pair(head: Ptr, tail: Ptr)

  /** `destruct_cons`: trade a handle to a pair for handles to its parts. */
  method DestructCons(m: Memory, p: Ptr, ghost rest: multiset<Ptr>) returns (r: Result<Pair>)
    requires m.Valid() && m.handles == Also(rest, p)
    modifies m`heap, m`counts, m`handles, m`objs, m`val
    ensures m.Valid() && (r.Success? <==> Look(old(m.val), p).Cons?)
    ensures r.Success? ==>
              && m.handles == Also(Also(rest, r.value.head), r.value.tail)
              && m.Abs() == old(m.Abs()) && Same(rest, old(m.val), m.val)
              && Look(m.val, r.value.head) == Look(old(m.val), p).head
              && Look(m.val, r.value.tail) == Look(old(m.val), p).tail
  {
    hide Balanced, StackValue, Shrinks, FreesExactly, ReleaseNests;
    assert p in m.handles;
    m.Read(p);
    match m.heap[p] {
      case ConsBody(h, t) =>
        m.AddRef(h);
        m.AddRef(t);
        var _ := m.Release(p, Also(Also(rest, h), t));
        return Success(Pair(h, t));
      case _ => return Failure(Abort);
    }
  }

  // ----- the apply functions: each consumes the handle to its data -----

  /** `apply`: dispatch on the code of a function object. The result is also how deep
      its calls nested. */
  method ApplyObject(m: Memory, f: Ptr, ghost rest: multiset<Ptr>) returns (r: Result<()>, ghost depth: nat)
    requires m.Valid() && m.handles == Also(rest, f)
    modifies m`heap, m`counts, m`handles, m`objs, m`val, m`operands, m`conts, m`output
    ensures Achieves(m, rest, old(m.val), r, Apply(old(Look(m.val, f)), old(m.Abs())))
    ensures depth == ApplyDepth(old(Look(m.val, f)), old(m.Abs()))
    decreases if Look(m.val, f).Function? then Plain(m.Abs().operands) else 0,
              if Look(m.val, f).Function? then Size(Look(m.val, f)) else 0, 1
  {
    hide Balanced, StackValue, Shrinks, FreesExactly, ReleaseNests, Plain;
    assert f in m.handles;
    m.Read(f);
    match m.heap[f] {
      case FunctionBody(code, data) =>
        m.AddRef(data);
        var _ := m.Release(f, Also(rest, data));
        ghost var val1 := m.val;
        depth := 0;
        match code {
          case Eval => r, depth := EvalObject(m, data, rest);
          case PopApply => r, depth := PopApplyObject(m, data, rest);
          case PrintAtom => r := PrintAtomObject(m, data, rest);
          case Quote => r := QuoteObject(m, data, rest);
          case Fun => r := FunObject(m, data, rest);
          case FunApply => r := FunApplyObject(m, data, rest);
        }
        depth := depth + 1;
        if r.Success? { SameTrans(rest, old(m.val), val1, m.val); }
      case _ => return Failure(Abort), 1;
    }
  }

  /** Release the data an apply function does not use; `arg` was just popped. */
  method Unused(m: Memory, data: Ptr, arg: Ptr, ghost rest: multiset<Ptr>)
    requires m.Valid() && m.handles == Also(Also(rest, data), arg)
    modifies m`heap, m`counts, m`handles, m`objs, m`val
    ensures m.Valid() && m.handles == Also(rest, arg) && m.Abs() == old(m.Abs())
    ensures Same(rest, old(m.val), m.val) && Look(m.val, arg) == Look(old(m.val), arg)
  {
    hide Balanced, StackValue, Shrinks, FreesExactly, ReleaseNests, Also, Same;
    Swap(rest, data, arg);
    var _ := m.Release(data, Also(rest, arg));
    Kept(rest, arg, old(m.val), m.val);
  }

  method PopApplyObject(m: Memory, data: Ptr, ghost rest: multiset<Ptr>) returns (r: Result<()>, ghost depth: nat)
    requires m.Valid() && m.handles == Also(rest, data)
    modifies m`heap, m`counts, m`handles, m`objs, m`val, m`operands, m`conts, m`output
    ensures Achieves(m, rest, old(m.val), r, ApplyCode(PopApply, old(Look(m.val, data)), old(m.Abs())))
    ensures depth == CodeDepth(PopApply, old(Look(m.val, data)), old(m.Abs()))
    decreases Plain(m.Abs().operands), Size(Look(m.val, data)) + 1, 0
  {
    hide Balanced, StackValue, Also, Same;
    depth := 0;
    var f :- m.Pop();
    Unused(m, data, f, rest);
    ghost var val1 := m.val;
    r, depth := ApplyObject(m, f, rest);
    if r.Success? { SameTrans(rest, old(m.val), val1, m.val); }
  }

  method PrintAtomObject(m: Memory, data: Ptr, ghost rest: multiset<Ptr>) returns (r: Result<()>)
    requires m.Valid() && m.handles == Also(rest, data)
    modifies m`heap, m`counts, m`handles, m`objs, m`val, m`operands, m`conts, m`output
    ensures Achieves(m, rest, old(m.val), r, ApplyCode(PrintAtom, old(Look(m.val, data)), old(m.Abs())))
  {
    hide Balanced, StackValue, Shrinks, FreesExactly, ReleaseNests, Also, Same;
    var arg :- m.Pop();
    IsHeld(Also(rest, data), arg);
    m.Read(arg);
    match m.heap[arg] {
      case AtomBody(chars) =>
        m.output := m.output + [chars];
        Unused(m, data, arg, rest);
        ghost var val1 := m.val;
        var _ := m.Release(arg, rest);
        SameTrans(rest, old(m.val), val1, m.val);
        var nil := m.CreateNil();
        m.Push(nil, rest);
        return Success(());
      case _ => return Failure(Abort);
    }
  }

  method QuoteObject(m: Memory, data: Ptr, ghost rest: multiset<Ptr>) returns (r: Result<()>)
    requires m.Valid() && m.handles == Also(rest, data)
    modifies m`heap, m`counts, m`handles, m`objs, m`val, m`operands, m`conts, m`output
    ensures Achieves(m, rest, old(m.val), r, ApplyCode(Quote, old(Look(m.val, data)), old(m.Abs())))
  {
    hide Balanced, StackValue, Shrinks, FreesExactly, ReleaseNests, Also, Same;
    var arg :- m.Pop();
    var pair :- DestructCons(m, arg, Also(rest, data));
    ghost var val1 := m.val;
    Kept(rest, data, old(m.val), val1);
    Unused(m, pair.head, pair.tail, Also(rest, data));
    ghost var val2 := m.val;
    Kept(rest, data, val1, val2);
    SameTrans(rest, old(m.val), val1, val2);
    Unused(m, data, pair.tail, rest);
    SameTrans(rest, old(m.val), val2, m.val);
    m.Push(pair.tail, rest);
    return Success(());
  }

  method FunObject(m: Memory, data: Ptr, ghost rest: multiset<Ptr>) returns (r: Result<()>)
    requires m.Valid() && m.handles == Also(rest, data)
    modifies m`heap, m`counts, m`handles, m`objs, m`val, m`operands, m`conts, m`output
    ensures Achieves(m, rest, old(m.val), r, ApplyCode(Fun, old(Look(m.val, data)), old(m.Abs())))
  {
    hide Balanced, StackValue, Also, Same;
    var arg :- m.Pop();
    Unused(m, data, arg, rest);
    ghost var val1 := m.val;
    var f := m.CreateFunction(FunApply, arg, rest);
    SameTrans(rest, old(m.val), val1, m.val);
    m.Push(f, rest);
    return Success(());
  }

  /** `map_cons`. */
  method MapCons(m: Memory, key: Ptr, value: Ptr, bindings: Ptr, ghost rest: multiset<Ptr>) returns (p: Ptr)
    requires m.Valid() && m.handles == Also(Also(Also(rest, bindings), key), value)
    modifies m`heap, m`counts, m`handles, m`objs, m`val
    ensures m.Valid() && m.handles == Also(rest, p) && m.Abs() == old(m.Abs()) && Same(rest, old(m.val), m.val)
    ensures Look(m.val, p) == Cons(Cons(Look(old(m.val), key), Look(old(m.val), value)), Look(old(m.val), bindings))
  {
    hide Balanced, StackValue, Also, Same;
    var entry := m.CreateCons(key, value, Also(rest, bindings));
    ghost var val1 := m.val;
    Kept(rest, bindings, old(m.val), val1);
    Swap(rest, bindings, entry);
    p := m.CreateCons(entry, bindings, rest);
    SameTrans(rest, old(m.val), val1, m.val);
  }

  /** Schedule the evaluation of `expr` in `envs`. */
  method PushEval(m: Memory, envs: Ptr, expr: Ptr, ghost rest: multiset<Ptr>)
    requires m.Valid() && m.handles == Also(Also(rest, envs), expr)
    modifies m`heap, m`counts, m`handles, m`objs, m`val, m`operands, m`conts, m`output
    ensures m.Valid() && m.handles == rest && Same(rest, old(m.val), m.val)
    ensures m.Abs() == PushCont(EvalCont(Look(old(m.val), envs), Look(old(m.val), expr)), old(m.Abs()))
  {
    hide Balanced, StackValue, Also, Same;
    var data := m.CreateCons(envs, expr, rest);
    ghost var val1 := m.val;
    var f := m.CreateFunction(Eval, data, rest);
    SameTrans(rest, old(m.val), val1, m.val);
    m.PushCont(f, rest);
  }

  datatype Closure = Closure(forms: Ptr, env: Ptr, param: Ptr, body: Ptr)

  ghost predicate IsClosure(v: Value) {
    v.Cons? && v.head.Cons? && v.tail.Cons?
  }

  /** Take the data of a closure apart. */
  method OpenClosure(m: Memory, data: Ptr, ghost rest: multiset<Ptr>) returns (r: Result<Closure>)
    requires m.Valid() && m.handles == Also(rest, data)
    modifies m`heap, m`counts, m`handles, m`objs, m`val
    ensures m.Valid() && (r.Success? <==> IsClosure(Look(old(m.val), data)))
    ensures r.Success? ==>
              var c, v := r.value, Look(old(m.val), data);
              && m.handles == Also(Also(Also(Also(rest, c.forms), c.env), c.param), c.body)
              && m.Abs() == old(m.Abs()) && Same(rest, old(m.val), m.val)
              && Look(m.val, c.forms) == v.head.head && Look(m.val, c.env) == v.head.tail
              && Look(m.val, c.param) == v.tail.head && Look(m.val, c.body) == v.tail.tail
  {
    hide Balanced, StackValue, Also, Same;
    var parts :- DestructCons(m, data, rest);
    ghost var val1 := m.val;
    Swap(rest, parts.head, parts.tail);
    var envs :- DestructCons(m, parts.head, Also(rest, parts.tail));
    ghost var val2 := m.val;
    Kept(rest, parts.tail, val1, val2);
    SameTrans(rest, old(m.val), val1, val2);
    ghost var rest2 := Also(Also(rest, envs.head), envs.tail);
    Rotate(rest, parts.tail, envs.head, envs.tail);
    var code :- DestructCons(m, parts.tail, rest2);
    Kept(Also(rest, envs.head), envs.tail, val2, m.val);
    Kept(rest, envs.head, val2, m.val);
    SameTrans(rest, old(m.val), val2, m.val);
    return Success(Closure(envs.head, envs.tail, code.head, code.tail));
  }

  lemma Rotate(refs: multiset<Ptr>, p: Ptr, q: Ptr, r: Ptr)
    ensures Also(Also(Also(refs, p), q), r) == Also(Also(Also(refs, q), r), p)
  { }

  method FunApplyObject(m: Memory, data: Ptr, ghost rest: multiset<Ptr>) returns (r: Result<()>)
    requires m.Valid() && m.handles == Also(rest, data)
    modifies m`heap, m`counts, m`handles, m`objs, m`val, m`operands, m`conts, m`output
    ensures Achieves(m, rest, old(m.val), r, ApplyCode(FunApply, old(Look(m.val, data)), old(m.Abs())))
  {
    hide Balanced, StackValue, Also, Same;
    var arg :- m.Pop();
    Swap(rest, data, arg);
    var c :- OpenClosure(m, data, Also(rest, arg));
    ghost var val1 := m.val;
    Kept(rest, arg, old(m.val), val1);
    ghost var others := Also(Also(Also(rest, arg), c.forms), c.env);
    Swap(others, c.param, c.body);
    IsHeld(Also(others, c.body), c.param);
    m.Read(c.param);
    if !m.heap[c.param].AtomBody? { return Failure(Abort); }
    EnterClosure(m, c, arg, rest);
    SameTrans(rest, old(m.val), val1, m.val);
    return Success(());
  }

  /** Continue with the body of a closure, the parameter bound to the argument. */
  method EnterClosure(m: Memory, c: Closure, arg: Ptr, ghost rest: multiset<Ptr>)
    requires m.Valid() && m.handles == Also(Also(Also(Also(Also(rest, arg), c.forms), c.env), c.param), c.body)
    modifies m`heap, m`counts, m`handles, m`objs, m`val, m`operands, m`conts, m`output
    ensures m.Valid() && m.handles == rest && Same(rest, old(m.val), m.val)
    ensures m.Abs() == PushCont(EvalCont(Cons(Look(old(m.val), c.forms),
                                              Cons(Cons(Look(old(m.val), c.param), Look(old(m.val), arg)),
                                                   Look(old(m.val), c.env))),
                                         Look(old(m.val), c.body)),
                                old(m.Abs()))
  {
    hide Balanced, StackValue, Also, Same;
    ghost var rest1, val0 := Also(rest, c.body), m.val;
    BodyLast(rest, c, arg);
    var newEnv := MapCons(m, c.param, arg, c.env, Also(rest1, c.forms));
    ghost var val1 := m.val;
    Kept(rest1, c.forms, val0, val1);
    Kept(rest, c.body, val0, val1);
    var newEnvs := m.CreateCons(c.forms, newEnv, rest1);
    ghost var val2 := m.val;
    Kept(rest, c.body, val1, val2);
    SameTrans(rest, val0, val1, val2);
    Swap(rest, c.body, newEnvs);
    PushEval(m, newEnvs, c.body, rest);
    SameTrans(rest, val0, val2, m.val);
  }

  lemma BodyLast(rest: multiset<Ptr>, c: Closure, arg: Ptr)
    ensures Also(Also(Also(Also(Also(rest, arg), c.forms), c.env), c.param), c.body) ==
            Also(Also(Also(Also(Also(rest, c.body), c.forms), c.env), c.param), arg)
  { }

  // ----- eval -----

  /** What is left to look at after an entry of the map that does not match: its tail.
      Otherwise the binding that was found. */
  datatype Search = Match(value: Ptr) | Next(tail: Ptr)

  /** One entry of `assoc`. The caller holds `key`. */
  method AssocEntry(m: Memory, key: Ptr, bindings: Ptr, ghost rest: multiset<Ptr>) returns (r: Result<Search>)
    requires m.Valid() && m.handles == Also(rest, bindings) && key in rest && Look(m.val, key).Atom? && bindings != NIL
    modifies m`heap, m`counts, m`handles, m`objs, m`val
    ensures m.Valid() && (r.Success? ==> m.Abs() == old(m.Abs()) && Same(rest, old(m.val), m.val))
    ensures var name, map0 := Look(old(m.val), key).chars, Look(old(m.val), bindings);
            match r
            case Success(Match(v)) =>
              m.handles == Also(rest, v) && v != NULL && Assoc(name, map0) == Found(Look(m.val, v))
            case Success(Next(t)) =>
              && m.handles == Also(rest, t) && Assoc(name, map0) == Assoc(name, Look(m.val, t))
              && Size(Look(m.val, t)) < Size(map0)
            case Failure(_) => Assoc(name, map0) == Malformed
  {
    hide Balanced, StackValue, Shrinks, FreesExactly, ReleaseNests, Also, Same;
    IsHeld(rest, bindings);
    m.Read(bindings);
    var cell :- DestructCons(m, bindings, rest);
    ghost var val1 := m.val;
    Swap(rest, cell.head, cell.tail);
    var entry :- DestructCons(m, cell.head, Also(rest, cell.tail));
    ghost var val2 := m.val;
    Kept(rest, cell.tail, val1, val2);
    SameTrans(rest, old(m.val), val1, val2);
    r := CompareKey(m, key, entry.head, entry.tail, cell.tail, rest);
    if r.Success? { SameTrans(rest, old(m.val), val2, m.val); }
    SameAt(rest, key, old(m.val), val2);
  }

  /** `assoc` at an entry: same object or same characters. */
  method CompareKey(m: Memory, key: Ptr, k: Ptr, v: Ptr, tail: Ptr, ghost rest: multiset<Ptr>)
    returns (r: Result<Search>)
    requires m.Valid() && m.handles == Also(Also(Also(rest, tail), k), v) && key in rest && Look(m.val, key).Atom?
    modifies m`heap, m`counts, m`handles, m`objs, m`val
    ensures m.Valid() && (r.Success? ==> m.Abs() == old(m.Abs()) && Same(rest, old(m.val), m.val))
    ensures match r
            case Success(Match(w)) =>
              && m.handles == Also(rest, w) && w != NULL && Look(m.val, w) == Look(old(m.val), v)
              && Look(old(m.val), k) == Look(old(m.val), key)
            case Success(Next(t)) =>
              && m.handles == Also(rest, t) && Look(m.val, t) == Look(old(m.val), tail)
              && Look(old(m.val), k).Atom? && Look(old(m.val), k) != Look(old(m.val), key)
            case Failure(_) => !Look(old(m.val), k).Atom?
  {
    hide Balanced, StackValue, Shrinks, FreesExactly, ReleaseNests, Same;
    assert key in m.handles && k in m.handles;
    m.Read(k);
    m.Read(key);
    if !m.heap[k].AtomBody? && key != k { return Failure(Abort); }
    var eq := key == k || m.heap[k].chars == m.heap[key].chars;
    hide Also;
    ghost var rest1 := Also(Also(rest, tail), v);
    Swap(Also(rest, tail), k, v);
    var _ := m.Release(k, rest1);
    ghost var val1 := m.val;
    Kept(Also(rest, tail), v, old(m.val), val1);
    Kept(rest, tail, old(m.val), val1);
    if eq {
      Unused(m, tail, v, rest);
      SameTrans(rest, old(m.val), val1, m.val);
      IsHeld(rest, v);
      m.Read(v);
      return Success(Match(v));
    }
    var _ := m.Release(v, Also(rest, tail));
    Kept(rest, tail, val1, m.val);
    SameTrans(rest, old(m.val), val1, m.val);
    return Success(Next(tail));
  }

  /** `assoc`: the value bound to the name of `key`, or null. */
  method AssocObject(m: Memory, key: Ptr, bindings: Ptr, ghost rest: multiset<Ptr>) returns (r: Result<Ptr>)
    requires m.Valid() && m.handles == Also(rest, bindings) && key in rest && Look(m.val, key).Atom?
    modifies m`heap, m`counts, m`handles, m`objs, m`val
    ensures m.Valid() && (r.Success? ==> m.Abs() == old(m.Abs()) && Same(rest, old(m.val), m.val))
    ensures match Assoc(Look(old(m.val), key).chars, Look(old(m.val), bindings))
            case Found(v) =>
              r.Success? && r.value != NULL && m.handles == Also(rest, r.value) && Look(m.val, r.value) == v
            case Missing => r == Success(NULL) && m.handles == rest
            case Malformed => r.Failure?
  {
    hide Balanced, StackValue, Shrinks, FreesExactly, ReleaseNests, Also, Same;
    var map' := bindings;
    ghost var name := Look(m.val, key).chars;
    SameSelf(rest, m.val);
    while map' != NIL
      invariant m.Valid() && m.handles == Also(rest, map') && Same(rest, old(m.val), m.val) && m.Abs() == old(m.Abs())
      invariant Look(m.val, key) == Look(old(m.val), key)
      invariant Assoc(name, Look(old(m.val), bindings)) == Assoc(name, Look(m.val, map'))
      decreases Size(Look(m.val, map'))
    {
      ghost var val1 := m.val;
      var next :- AssocEntry(m, key, map', rest);
      SameTrans(rest, old(m.val), val1, m.val);
      SameAt(rest, key, val1, m.val);
      match next {
        case Match(v) => return Success(v);
        case Next(tail) => map' := tail;
      }
    }
    m.Read(NIL);
    ghost var val1 := m.val;
    var _ := m.Release(map', rest);
    SameTrans(rest, old(m.val), val1, m.val);
    return Success(NULL);
  }

  /** Release two handles under the last one. */
  method UnusedTwo(m: Memory, a: Ptr, b: Ptr, last: Ptr, ghost rest: multiset<Ptr>)
    requires m.Valid() && m.handles == Also(Also(Also(rest, b), a), last)
    modifies m`heap, m`counts, m`handles, m`objs, m`val
    ensures m.Valid() && m.handles == Also(rest, last) && m.Abs() == old(m.Abs())
    ensures Same(rest, old(m.val), m.val) && Look(m.val, last) == Look(old(m.val), last)
  {
    hide Balanced, StackValue, Also, Same;
    Unused(m, a, last, Also(rest, b));
    ghost var val1 := m.val;
    Kept(rest, b, old(m.val), val1);
    Unused(m, b, last, rest);
    SameTrans(rest, old(m.val), val1, m.val);
  }

  /** `eval` of a variable. */
  method EvalAtom(m: Memory, envs: Ptr, expr: Ptr, forms: Ptr, env: Ptr, ghost rest: multiset<Ptr>)
    returns (r: Result<()>)
    requires m.Valid() && m.handles == Also(Also(Also(Also(rest, envs), expr), forms), env) && Look(m.val, expr).Atom?
    modifies m`heap, m`counts, m`handles, m`objs, m`val, m`operands, m`conts, m`output
    ensures var found := Assoc(Look(old(m.val), expr).chars, Look(old(m.val), env));
            Achieves(m, rest, old(m.val), r,
                     if found.Found? then Running(Push(found.value, old(m.Abs()))) else Crashed(old(m.Abs()).output))
  {
    hide Balanced, StackValue, Also, Same;
    ghost var held := m.handles;
    IsHeld(Also(Also(Also(rest, envs), expr), forms), env);
    m.Read(env);
    m.AddRef(env);
    SecondHeld(rest, envs, expr, forms, env);
    var value :- AssocObject(m, expr, env, held);
    if value == NULL { return Failure(Abort); }
    ghost var val1 := m.val;
    ghost var rest1 := Also(Also(rest, expr), env);
    ValueLast(rest, envs, expr, forms, env, value);
    SameDown(rest, envs, expr, forms, env, old(m.val), val1);
    UnusedTwo(m, envs, forms, value, rest1);
    ghost var val2 := m.val;
    Kept(Also(rest, expr), env, val1, val2);
    Kept(rest, expr, val1, val2);
    SameTrans(rest, old(m.val), val1, val2);
    UnusedTwo(m, env, expr, value, rest);
    SameTrans(rest, old(m.val), val2, m.val);
    m.Push(value, rest);
    return Success(());
  }

  lemma SecondHeld(rest: multiset<Ptr>, a: Ptr, b: Ptr, c: Ptr, d: Ptr)
    ensures b in Also(Also(Also(Also(rest, a), b), c), d)
  { }

  lemma ValueLast(rest: multiset<Ptr>, envs: Ptr, expr: Ptr, forms: Ptr, env: Ptr, value: Ptr)
    ensures Also(Also(Also(Also(Also(rest, envs), expr), forms), env), value) ==
            Also(Also(Also(Also(Also(rest, expr), env), forms), envs), value)
  { }

  lemma SameDown(rest: multiset<Ptr>, a: Ptr, b: Ptr, c: Ptr, d: Ptr, val0: map<Ptr, Value>, val: map<Ptr, Value>)
    requires Same(Also(Also(Also(Also(rest, a), b), c), d), val0, val)
    ensures Same(rest, val0, val) && Look(val, a) == Look(val0, a) && Look(val, b) == Look(val0, b)
    ensures Look(val, c) == Look(val0, c) && Look(val, d) == Look(val0, d)
  {
    Kept(Also(Also(Also(rest, a), b), c), d, val0, val);
    Kept(Also(Also(rest, a), b), c, val0, val);
    Kept(Also(rest, a), b, val0, val);
    Kept(rest, a, val0, val);
  }

  /** The special form named by the operator, or null. The handles stay. */
  method FindForm(m: Memory, fexpr: Ptr, forms: Ptr) returns (r: Result<Ptr>)
    requires m.Valid() && fexpr in m.handles && forms in m.handles
    modifies m`heap, m`counts, m`handles, m`objs, m`val
    ensures m.Valid() && (r.Success? ==> m.Abs() == old(m.Abs()) && Same(old(m.handles), old(m.val), m.val))
    ensures match FormOf(Look(old(m.val), fexpr), Look(old(m.val), forms))
            case Found(v) =>
              r.Success? && r.value != NULL && m.handles == Also(old(m.handles), r.value) && Look(m.val, r.value) == v
            case Missing => r == Success(NULL) && m.handles == old(m.handles)
            case Malformed => r.Failure?
  {
    hide Balanced, StackValue, Also, Same;
    m.Read(fexpr);
    m.Read(forms);
    if m.heap[fexpr].AtomBody? {
      ghost var held := m.handles;
      m.AddRef(forms);
      r := AssocObject(m, fexpr, forms, held);
    } else {
      SameSelf(m.handles, m.val);
      return Success(NULL);
    }
  }

  /** `eval` of a pair. */
  method EvalPair(m: Memory, envs: Ptr, expr: Ptr, forms: Ptr, env: Ptr, ghost rest: multiset<Ptr>, ghost bound: nat)
    returns (r: Result<()>, ghost depth: nat)
    requires m.Valid() && m.handles == Also(Also(Also(Also(rest, envs), forms), env), expr)
    requires Look(m.val, expr).Cons? && Look(m.val, envs) == Cons(Look(m.val, forms), Look(m.val, env))
    requires Size(Look(m.val, envs)) < bound
    modifies m`heap, m`counts, m`handles, m`objs, m`val, m`operands, m`conts, m`output
    ensures Achieves(m, rest, old(m.val), r,
                     EvalStep(Cons(Look(old(m.val), envs), Look(old(m.val), expr)), old(m.Abs())))
    ensures depth == EvalDepth(Cons(Look(old(m.val), envs), Look(old(m.val), expr)), old(m.Abs()))
    decreases Plain(m.Abs().operands), bound, 1
  {
    hide Balanced, StackValue, Also, Same, Plain, Apply, ApplyDepth;
    depth := 0;
    ghost var held := Also(Also(Also(rest, envs), forms), env);
    var parts := DestructCons(m, expr, held);
    var pair := parts.value;
    ghost var val1 := m.val;
    SameDown3(rest, envs, forms, env, old(m.val), val1);
    AllHeld(rest, envs, forms, env, pair.head, pair.tail);
    ghost var held1 := m.handles;
    var form :- FindForm(m, pair.head, forms);
    ghost var val2 := m.val;
    SameDown(Also(rest, envs), forms, env, pair.head, pair.tail, val1, val2);
    Kept(rest, envs, val1, val2);
    SameTrans(rest, old(m.val), val1, val2);
    if form != NULL {
      FormFirst(rest, envs, forms, env, pair.head, pair.tail, form);
      r, depth := ApplyForm(m, envs, pair.head, pair.tail, forms, env, form, rest, bound);
    } else {
      ReleaseScopes(m, envs, pair.head, pair.tail, forms, env, rest);
      ghost var val3 := m.val;
      SameTrans(rest, old(m.val), val2, val3);
      ScheduleCall(m, envs, pair.head, pair.tail, rest);
      SameTrans(rest, old(m.val), val3, m.val);
      return Success(()), depth;
    }
    if r.Success? { SameTrans(rest, old(m.val), val2, m.val); }
  }

  lemma SameDown3(rest: multiset<Ptr>, a: Ptr, b: Ptr, c: Ptr, val0: map<Ptr, Value>, val: map<Ptr, Value>)
    requires Same(Also(Also(Also(rest, a), b), c), val0, val)
    ensures Same(rest, val0, val)
    ensures Look(val, a) == Look(val0, a) && Look(val, b) == Look(val0, b) && Look(val, c) == Look(val0, c)
  {
    Kept(Also(Also(rest, a), b), c, val0, val);
    Kept(Also(rest, a), b, val0, val);
    Kept(rest, a, val0, val);
  }

  lemma AllHeld(rest: multiset<Ptr>, envs: Ptr, forms: Ptr, env: Ptr, fexpr: Ptr, arg: Ptr)
    ensures var held := Also(Also(Also(Also(Also(rest, envs), forms), env), fexpr), arg); fexpr in held && forms in held
  { }

  lemma FormFirst(rest: multiset<Ptr>, envs: Ptr, forms: Ptr, env: Ptr, fexpr: Ptr, arg: Ptr, form: Ptr)
    ensures Also(Also(Also(Also(Also(Also(rest, envs), forms), env), fexpr), arg), form) ==
            Also(Also(Also(Also(Also(Also(rest, form), envs), forms), env), fexpr), arg)
  { }

  /** Release the two scopes. */
  method ReleaseScopes(m: Memory, envs: Ptr, fexpr: Ptr, arg: Ptr, forms: Ptr, env: Ptr, ghost rest: multiset<Ptr>)
    requires m.Valid() && m.handles == Also(Also(Also(Also(Also(rest, envs), forms), env), fexpr), arg)
    modifies m`heap, m`counts, m`handles, m`objs, m`val
    ensures m.Valid() && m.handles == Also(Also(Also(rest, envs), fexpr), arg) && m.Abs() == old(m.Abs())
    ensures Same(rest, old(m.val), m.val) && Look(m.val, envs) == Look(old(m.val), envs)
    ensures Look(m.val, fexpr) == Look(old(m.val), fexpr) && Look(m.val, arg) == Look(old(m.val), arg)
  {
    hide Balanced, StackValue, Also, Same;
    ScopesLast(rest, envs, fexpr, arg, forms, env);
    UnusedTwo(m, forms, env, arg, Also(Also(rest, envs), fexpr));
    Kept(Also(rest, envs), fexpr, old(m.val), m.val);
    Kept(rest, envs, old(m.val), m.val);
  }

  lemma ScopesLast(rest: multiset<Ptr>, envs: Ptr, fexpr: Ptr, arg: Ptr, forms: Ptr, env: Ptr)
    ensures Also(Also(Also(Also(Also(rest, envs), forms), env), fexpr), arg) ==
            Also(Also(Also(Also(Also(rest, envs), fexpr), env), forms), arg)
  { }

  /** Hand a special form its unevaluated argument. */
  method ApplyForm(m: Memory, envs: Ptr, fexpr: Ptr, arg: Ptr, forms: Ptr, env: Ptr, form: Ptr,
                   ghost rest: multiset<Ptr>, ghost bound: nat)
    returns (r: Result<()>, ghost depth: nat)
    requires m.Valid() && m.handles == Also(Also(Also(Also(Also(Also(rest, form), envs), forms), env), fexpr), arg)
    requires Size(Look(m.val, form)) < bound
    modifies m`heap, m`counts, m`handles, m`objs, m`val, m`operands, m`conts, m`output
    ensures Achieves(m, rest, old(m.val), r,
                     Apply(Look(old(m.val), form),
                           Push(Cons(Look(old(m.val), envs), Look(old(m.val), arg)), old(m.Abs()))))
    ensures depth == ApplyDepth(Look(old(m.val), form),
                                Push(Cons(Look(old(m.val), envs), Look(old(m.val), arg)), old(m.Abs())))
    decreases Plain(m.Abs().operands), bound, 0
  {
    hide Balanced, StackValue, Also, Same;
    ghost var rest1 := Also(rest, form);
    ReleaseScopes(m, envs, fexpr, arg, forms, env, rest1);
    ghost var val1 := m.val;
    Kept(rest, form, old(m.val), val1);
    Unused(m, fexpr, arg, Also(rest1, envs));
    ghost var val2 := m.val;
    Kept(rest1, envs, val1, val2);
    Kept(rest, form, val1, val2);
    SameTrans(rest, old(m.val), val1, val2);
    var value := m.CreateCons(envs, arg, rest1);
    ghost var val3 := m.val;
    Kept(rest, form, val2, val3);
    SameTrans(rest, old(m.val), val2, val3);
    m.Push(value, rest1);
    r, depth := ApplyObject(m, form, rest);
    if r.Success? { SameTrans(rest, old(m.val), val3, m.val); }
  }

  /** Schedule an ordinary call: argument on top, then function, then application. */
  method ScheduleCall(m: Memory, envs: Ptr, fexpr: Ptr, arg: Ptr, ghost rest: multiset<Ptr>)
    requires m.Valid() && m.handles == Also(Also(Also(rest, envs), fexpr), arg)
    modifies m`heap, m`counts, m`handles, m`objs, m`val, m`operands, m`conts, m`output
    ensures m.Valid() && m.handles == rest && Same(rest, old(m.val), m.val)
    ensures m.Abs() == CallState(Look(old(m.val), envs), Look(old(m.val), fexpr), Look(old(m.val), arg), old(m.Abs()))
  {
    hide Balanced, StackValue, Also, Same;
    ghost var held := m.handles;
    var nil := m.CreateNil();
    var f := m.CreateFunction(PopApply, nil, held);
    ghost var val1 := m.val;
    SameDown3(rest, envs, fexpr, arg, old(m.val), val1);
    m.PushCont(f, held);
    FirstHeld(rest, envs, fexpr, arg);
    m.Read(envs);
    m.AddRef(envs);
    ghost var rest1 := Also(Also(rest, envs), arg);
    TwiceEnvs(rest, envs, fexpr, arg);
    PushEval(m, envs, fexpr, rest1);
    ghost var val2 := m.val;
    Kept(Also(rest, envs), arg, val1, val2);
    Kept(rest, envs, val1, val2);
    SameTrans(rest, old(m.val), val1, val2);
    PushEval(m, envs, arg, rest);
    SameTrans(rest, old(m.val), val2, m.val);
  }

  lemma FirstHeld(rest: multiset<Ptr>, a: Ptr, b: Ptr, c: Ptr)
    ensures a in Also(Also(Also(rest, a), b), c)
  { }

  lemma TwiceEnvs(rest: multiset<Ptr>, envs: Ptr, fexpr: Ptr, arg: Ptr)
    ensures Also(Also(Also(Also(rest, envs), fexpr), arg), envs) == Also(Also(Also(Also(rest, envs), arg), envs), fexpr)
  { }

  /** `eval`. */
  method EvalObject(m: Memory, data: Ptr, ghost rest: multiset<Ptr>) returns (r: Result<()>, ghost depth: nat)
    requires m.Valid() && m.handles == Also(rest, data)
    modifies m`heap, m`counts, m`handles, m`objs, m`val, m`operands, m`conts, m`output
    ensures Achieves(m, rest, old(m.val), r, EvalStep(old(Look(m.val, data)), old(m.Abs())))
    ensures depth == EvalDepth(old(Look(m.val, data)), old(m.Abs()))
    decreases Plain(m.Abs().operands), Size(Look(m.val, data)), 2
  {
    hide Balanced, StackValue, Also, Same, Plain, Apply, ApplyDepth;
    depth := 0;
    var pair :- DestructCons(m, data, rest);
    var envs, expr := pair.head, pair.tail;
    ghost var rest1, val1 := Also(Also(rest, envs), expr), m.val;
    BothHeld(rest, envs, expr);
    m.Read(envs);
    m.AddRef(envs);
    var scopes :- DestructCons(m, envs, rest1);
    ghost var val2 := m.val;
    Kept(Also(rest, envs), expr, val1, val2);
    Kept(rest, envs, val1, val2);
    SameTrans(rest, old(m.val), val1, val2);
    SecondHeld(rest, envs, expr, scopes.head, scopes.tail);
    m.Read(expr);
    match m.heap[expr] {
      case AtomBody(_) => r := EvalAtom(m, envs, expr, scopes.head, scopes.tail, rest);
      case ConsBody(_, _) =>
        Rotate(Also(rest, envs), expr, scopes.head, scopes.tail);
        r, depth := EvalPair(m, envs, expr, scopes.head, scopes.tail, rest, Size(Look(old(m.val), data)));
      case _ => return Failure(Abort), 0;
    }
    if r.Success? { SameTrans(rest, old(m.val), val2, m.val); }
  }

  lemma BothHeld(rest: multiset<Ptr>, a: Ptr, b: Ptr)
    ensures a in Also(Also(rest, a), b) && b in Also(Also(rest, a), b)
  { }
}
