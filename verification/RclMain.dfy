/** The main loop of the reference-counted interpreter. */
module RclMain {
  import opened Language
  import opened Pointers
  import opened Objects
  import opened Counting
  import Syntax
  import opened Session
  import opened Rcl
  import opened RclParser
  import RefCount
  import opened Nesting
  import opened Costs

  /** The inner loop of `main`: pop and apply continuations, at most `budget` of them.
      The result is also how deep calls of `apply` nested. */
  method RunConts(m: Memory, budget: nat) returns (r: Result<()>, ghost deepest: nat)
    requires m.Valid()
    modifies m`heap, m`counts, m`handles, m`objs, m`val, m`operands, m`conts, m`output
    ensures Achieves(m, old(m.handles), old(m.val), r, Steps(budget, old(m.Abs())))
    ensures StateOk(old(m.Abs())) ==> deepest <= 2
  {
    hide Balanced, StackValue, Also, Same, Step, StateOk;
    deepest := 0;
    ghost var s0, rest := m.Abs(), m.handles;
    var left := budget;
    SameSelf(rest, m.val);
    while left > 0 && m.conts != []
      invariant m.Valid() && m.handles == rest && Same(rest, old(m.val), m.val)
      invariant Steps(budget, s0) == Steps(left, m.Abs())
      invariant StateOk(s0) ==> deepest <= 2 && StateOk(m.Abs())
    {
      ghost var val1, depth := m.val, 0;
      r, depth := Turn(m);
      deepest := Max(deepest, depth);
      if r.Failure? { return; }
      SameTrans(rest, old(m.val), val1, m.val);
      left := left - 1;
    }
    StackEmpty(m.conts, m.val);
    return Success(()), deepest;
  }

  lemma StackEmpty(stack: seq<Ptr>, val: map<Ptr, Value>)
    ensures StackValue(stack, val).Cons? <==> stack != []
    ensures stack == [] ==> StackValue(stack, val) == Nil
  { }

  /** One turn of the inner loop of `main`. */
  method Turn(m: Memory) returns (r: Result<()>, ghost depth: nat)
    requires m.Valid() && m.conts != []
    modifies m`heap, m`counts, m`handles, m`objs, m`val, m`operands, m`conts, m`output
    ensures old(m.Abs()).conts.Cons?
    ensures Achieves(m, old(m.handles), old(m.val), r, Step(old(m.Abs())))
    ensures StateOk(old(m.Abs())) ==> depth <= 2 && (r.Success? ==> StateOk(m.Abs()))
  {
    hide Balanced, StackValue, Also, Same, Apply, ApplyDepth, StateOk;
    ghost var rest, s := m.handles, m.Abs();
    var f := m.PopCont();
    if StateOk(s) {
      TurnDepth(s);
      if Step(s).Running? { StepKeeps(s); }
    }
    r, depth := ApplyObject(m, f, rest);
  }

  /** `map_cons_s_func_nil`: bind a name to a built-in function. */
  method AddPrimitive(m: Memory, key: string, code: Code, bindings: Ptr, ghost rest: multiset<Ptr>) returns (p: Ptr)
    requires m.Valid() && m.handles == Also(rest, bindings)
    modifies m`heap, m`counts, m`handles, m`objs, m`val
    ensures m.Valid() && m.handles == Also(rest, p) && m.Abs() == old(m.Abs()) && Same(rest, old(m.val), m.val)
    ensures Look(m.val, p) == Cons(Cons(Atom(key), Function(code, Nil)), Look(old(m.val), bindings))
  {
    hide Balanced, StackValue, Also, Same;
    ghost var rest1 := Also(rest, bindings);
    var nil := m.CreateNil();
    var f := m.CreateFunction(code, nil, rest1);
    ghost var val1 := m.val;
    Kept(rest, bindings, old(m.val), val1);
    var atom := m.CreateAtom(key);
    ghost var val2 := m.val;
    Kept(rest1, f, val1, val2);
    Kept(rest, bindings, val1, val2);
    SameTrans(rest, old(m.val), val1, val2);
    Swap(rest1, f, atom);
    p := MapCons(m, atom, f, bindings, rest);
    SameTrans(rest, old(m.val), val2, m.val);
  }

  /** The handles of `main`: the special forms and the global variables. */
  ghost function Globals(forms: Ptr, env: Ptr): multiset<Ptr> {
    Also(Also(multiset{}, forms), env)
  }

  /** At the head of the loop of `main`. */
  ghost predicate Ready(m: Memory, forms: Ptr, env: Ptr) reads m {
    && m.Valid() && m.cells == map[] && m.handles == Globals(forms, env)
    && Look(m.val, forms) == InitialForms() && Look(m.val, env) == InitialEnv()
  }

  /** `main` up to its loop. */
  method Setup(m: Memory) returns (forms: Ptr, env: Ptr)
    requires m.Valid() && m.cells == map[] && m.handles == multiset{}
    modifies m`heap, m`counts, m`handles, m`objs, m`val
    ensures Ready(m, forms, env) && m.Abs() == old(m.Abs())
  {
    hide Balanced, StackValue, Also, Same;
    forms := m.CreateNil();
    forms := AddPrimitive(m, "quote", Quote, forms, multiset{});
    forms := AddPrimitive(m, "fun", Fun, forms, multiset{});
    ghost var rest, val1 := Also(multiset{}, forms), m.val;
    env := m.CreateNil();
    env := AddPrimitive(m, "print_atom", PrintAtom, env, rest);
    Kept(multiset{}, forms, val1, m.val);
  }

  /** Parse an expression and schedule its evaluation. */
  method ReadExpression(m: Memory, forms: Ptr, env: Ptr, tokens: seq<Syntax.Token>)
    returns (r: Result<()>, rest: seq<Syntax.Token>)
    requires Ready(m, forms, env)
    modifies m
    ensures m.output == old(m.output)
    ensures match r
            case Success(_) =>
              && Ready(m, forms, env) && Syntax.Parse(tokens).Ok? && rest == Syntax.Parse(tokens).rest
              && m.Abs() == PushCont(EvalCont(InitialEnvs(), Syntax.Parse(tokens).value), old(m.Abs()))
            case Failure(_) => m.Valid() && Syntax.Parse(tokens).SyntaxError?
  {
    hide Balanced, StackValue, Also, Same, InitialForms, InitialEnv;
    ghost var globals := Globals(forms, env);
    var expr;
    expr, rest := ParseObject(m, tokens);
    if expr.Failure? { return Failure(expr.error), rest; }
    ghost var val1 := m.val;
    BothKept(forms, env, old(m.val), val1);
    var envs := EnvsFor(m, forms, env, expr.value);
    ghost var val2 := m.val;
    BothKept(forms, env, val1, val2);
    PushEval(m, envs, expr.value, globals);
    BothKept(forms, env, val2, m.val);
    return Success(()), rest;
  }

  lemma BothKept(forms: Ptr, env: Ptr, val0: map<Ptr, Value>, val: map<Ptr, Value>)
    requires Same(Globals(forms, env), val0, val)
    ensures Look(val, forms) == Look(val0, forms) && Look(val, env) == Look(val0, env)
  {
    Kept(Also(multiset{}, forms), env, val0, val);
    Kept(multiset{}, forms, val0, val);
  }

  /** A pair of the forms and the variables, while `expr` is held. */
  method EnvsFor(m: Memory, forms: Ptr, env: Ptr, expr: Ptr) returns (envs: Ptr)
    requires m.Valid() && m.handles == Also(Globals(forms, env), expr)
    modifies m`heap, m`counts, m`handles, m`objs, m`val
    ensures m.Valid() && m.handles == Also(Also(Globals(forms, env), envs), expr) && m.Abs() == old(m.Abs())
    ensures Same(Globals(forms, env), old(m.val), m.val) && Look(m.val, expr) == Look(old(m.val), expr)
    ensures Look(m.val, envs) == Cons(Look(old(m.val), forms), Look(old(m.val), env))
  {
    hide Balanced, StackValue, Same;
    assert forms in m.handles && env in m.handles;
    ghost var held := m.handles;
    m.Read(forms);
    m.Read(env);
    m.AddRef(forms);
    m.AddRef(env);
    hide Also;
    envs := m.CreateCons(forms, env, held);
    Kept(Globals(forms, env), expr, old(m.val), m.val);
    Swap(Globals(forms, env), expr, envs);
  }

  /** Between two expressions nothing is on the stacks. */
  ghost predicate AtRest(m: Memory, forms: Ptr, env: Ptr) reads m {
    Ready(m, forms, env) && m.operands == [] && m.conts == []
  }

  /** How deep the release of a value may nest, and must if it is a tower. */
  ghost predicate NestsLike(depth: nat, v: Value) {
    1 <= depth <= 1 + Height(v) && (IsTower(v) ==> depth == 1 + Height(v))
  }

  /** Release the value of an expression, when nothing else is referenced. */
  method DropValue(m: Memory, forms: Ptr, env: Ptr, p: Ptr) returns (ghost depth: nat)
    requires m.Valid() && m.handles == Also(Globals(forms, env), p) && m.cells == map[] && m.operands == []
    requires m.conts == []
    requires Look(m.val, forms) == InitialForms() && Look(m.val, env) == InitialEnv()
    modifies m`heap, m`counts, m`handles, m`objs, m`val
    ensures AtRest(m, forms, env) && m.Abs() == old(m.Abs()) && NestsLike(depth, Look(old(m.val), p))
  {
    hide Balanced, StackValue, Also, Same, Shrinks, FreesExactly, Unshared, Globals, InitialForms, InitialEnv;
    TowerNests(m.objs, m.heap, m.counts, m.handles, m.val, forms, env, p);
    depth := m.Release(p, Globals(forms, env));
    BothKept(forms, env, old(m.val), m.val);
  }

  /** A tower that is the only value of the program is not shared. */
  lemma TowerNests(objs: seq<Ptr>, heap: Heap, counts: multiset<Ptr>, handles: multiset<Ptr>, val: map<Ptr, Value>,
                   forms: Ptr, env: Ptr, p: Ptr)
    requires Balanced(objs, heap, counts, [], [], handles, val) && handles == Also(Globals(forms, env), p)
    requires Look(val, forms) == InitialForms() && Look(val, env) == InitialEnv()
    ensures IsTower(Look(val, p)) ==> Unshared(heap, counts, p, Look(val, p))
  {
    hide RefCount.Counted, Consistent, Unshared, IsTower, InitialForms, InitialEnv, Outside, Also, Globals;
    AllHandles(forms, env, p);
    OutsideIsLive(objs, heap, counts, [], [], handles, val, p);
    OutsideIsLive(objs, heap, counts, [], [], handles, val, forms);
    OutsideIsLive(objs, heap, counts, [], [], handles, val, env);
    if IsTower(Look(val, p)) { TowerIsUnshared(objs, heap, counts, val, forms, env, p, p); }
  }

  lemma AllHandles(forms: Ptr, env: Ptr, p: Ptr)
    ensures var handles := Also(Globals(forms, env), p);
            && Outside([], [], handles) == multiset{forms, env, p, NIL}
            && forms in handles && env in handles && p in handles
  {
    var none: seq<Ptr> := [];
    assert Also(Globals(forms, env), p) == multiset{forms, env, p};
    assert multiset(none) == multiset{};
    assert multiset{} + multiset{} + multiset{forms, env, p} + multiset{NIL} == multiset{forms, env, p, NIL};
  }

  /** One expression of the session: parse it, run it and drop its value. The
      result is whether it was finished, then with what value, how deep its release
      nested, and how deep calls of `apply` nested. */
  method Expression(m: Memory, forms: Ptr, env: Ptr, tokens: seq<Syntax.Token>, budget: nat)
    returns (r: Result<bool>, rest: seq<Syntax.Token>, ghost value: Value, ghost depth: nat, ghost deepest: nat)
    requires AtRest(m, forms, env)
    modifies m
    ensures m.Valid() && deepest <= 2
    ensures match r
            case Success(finished) =>
              if finished then
                && AtRest(m, forms, env) && |rest| < |tokens| && NestsLike(depth, value)
                && RunSession(tokens, budget, old(m.Abs())) == RunSession(rest, budget, m.Abs())
                && Dropped(tokens, budget, old(m.Abs())) == [value] + Dropped(rest, budget, m.Abs())
              else
                && m.cells == map[] && RunSession(tokens, budget, old(m.Abs())) == Busy(m.output)
                && Dropped(tokens, budget, old(m.Abs())) == []
            case Failure(_) =>
              && RunSession(tokens, budget, old(m.Abs())) == Aborted(m.output)
              && Dropped(tokens, budget, old(m.Abs())) == []
  {
    hide Balanced, StackValue, Also, Same, InitialForms, InitialEnv, InitialEnvs, Steps, Globals, NestsLike;
    ghost var s, globals := m.Abs(), Globals(forms, env);
    StackEmpty(m.operands, m.val);
    StackEmpty(m.conts, m.val);
    value, depth, deepest := Nil, 0, 0;
    var read;
    read, rest := ReadExpression(m, forms, env, tokens);
    if read.Failure? { return Failure(read.error), rest, value, depth, deepest; }
    ParsedEnds(tokens, budget, s);
    ghost var val1 := m.val;
    StartsOk(tokens, s);
    var ran;
    ran, deepest := RunConts(m, budget);
    if ran.Failure? { return Failure(ran.error), rest, value, depth, deepest; }
    BothKept(forms, env, val1, m.val);
    StackEmpty(m.conts, m.val);
    if m.conts != [] { return Success(false), rest, value, depth, deepest; }
    var popped := m.Pop();
    value := Look(m.val, popped.value);
    StackEmpty(m.operands, m.val);
    depth := DropValue(m, forms, env, popped.value);
    return Success(true), rest, value, depth, deepest;
  }

  lemma StartsOk(tokens: seq<Syntax.Token>, s: State)
    requires Syntax.Parse(tokens).Ok? && s.operands == Nil && s.conts == Nil
    ensures StateOk(PushCont(EvalCont(InitialEnvs(), Syntax.Parse(tokens).value), s))
  {
    ScheduledOk(tokens, s);
  }

  lemma ParsedEnds(tokens: seq<Syntax.Token>, budget: nat, s: State)
    requires Syntax.Parse(tokens).Ok? && s.conts == Nil
    ensures var t := Steps(budget, PushCont(EvalCont(InitialEnvs(), Syntax.Parse(tokens).value), s));
            t.Running? && !t.state.conts.Cons? ==>
              t.state.conts == Nil && t.state.operands.Cons? && t.state.operands.tail == s.operands
  {
    Syntax.PrintParse(tokens);
    ExpressionEnds(budget, Syntax.Parse(tokens).value, s);
  }

  /** How a session stands: it failed, or is busy with an expression past its budget. */
  ghost predicate SessionIs(m: Memory, r: Result<()>, spec: SessionResult) reads m {
    match r
    case Success(_) => spec == Busy(m.output)
    case Failure(_) => spec == Aborted(m.output)
  }

  ghost predicate AllNest(depths: seq<nat>, values: seq<Value>) {
    |depths| == |values| && forall i :: 0 <= i < |values| ==> NestsLike(depths[i], values[i])
  }

  /** Every object is reachable from the stacks, the handles or nil. */
  ghost predicate NoLeak(m: Memory) reads m {
    forall p :: p in m.heap ==> RefCount.FromOutside(m.heap, Outside(m.operands, m.conts, m.handles), p)
  }

  /** The whole program on a given input, when no expression gets more than
      `budget` turns of the loop: what it prints, that all counts are right and
      nothing leaks at its end, and how deep the releases of its values and the calls
      of `apply` nested. */
  method Interpret(tokens: seq<Syntax.Token>, budget: nat)
    returns (m: Memory, r: Result<()>, ghost depths: seq<nat>, ghost deepest: nat)
    ensures SessionIs(m, r, RunSession(tokens, budget, State(Nil, Nil, [])))
    ensures m.Valid() && NoLeak(m) && (r.Success? ==> m.cells == map[])
    ensures AllNest(depths, Dropped(tokens, budget, State(Nil, Nil, []))) && deepest <= 2
  {
    hide RunSession, Dropped, Balanced, StackValue, NestsLike, Outside;
    m := new Memory();
    var forms, env := Setup(m);
    var rest := tokens;
    depths, deepest := [], 0;
    ghost var values: seq<Value> := [];
    ghost var all := Dropped(tokens, budget, State(Nil, Nil, []));
    assert [] + all == all;
    while true
      invariant AtRest(m, forms, env) && fresh(m)
      invariant RunSession(tokens, budget, State(Nil, Nil, [])) == RunSession(rest, budget, m.Abs())
      invariant all == values + Dropped(rest, budget, m.Abs()) && AllNest(depths, values) && deepest <= 2
      decreases |rest|
    {
      var finished;
      ghost var more := Dropped(rest, budget, m.Abs());
      ghost var value, depth, nested;
      finished, rest, value, depth, nested := Expression(m, forms, env, rest, budget);
      deepest := Max(deepest, nested);
      if finished.Failure? || !finished.value {
        m.NothingLeaks();
        assert all == values + [] == values;
        return m, if finished.Failure? then Failure(finished.error) else Success(()), depths, deepest;
      }
      ghost var left := Dropped(rest, budget, m.Abs());
      assert values + ([value] + left) == values + [value] + left;
      values, depths := values + [value], depths + [depth];
    }
  }

  /** The expression that evaluates to a tower of `n` pairs. */
  function Quoted(n: nat): Value {
    Cons(Atom("quote"), Tower(n))
  }

  lemma {:induction false} TowerIsExpr(n: nat)
    ensures Syntax.IsExpr(Tower(n))
  {
    if n > 0 { TowerIsExpr(n - 1); }
  }

  /** A session on a quoted tower drops the tower. */
  lemma DropsTower(n: nat, budget: nat)
    requires budget > 0
    ensures Syntax.IsExpr(Quoted(n)) && Dropped(Syntax.Print(Quoted(n)), budget, State(Nil, Nil, [])) == [Tower(n)]
  {
    TowerIsExpr(n);
    var tokens := Syntax.Print(Quoted(n));
    Syntax.ParsePrint(Quoted(n), []);
    assert tokens + [] == tokens;
    QuoteStep(n, budget);
    assert Syntax.Parse([]).SyntaxError?;
  }

  lemma QuoteStep(n: nat, budget: nat)
    requires budget > 0
    ensures Steps(budget, PushCont(EvalCont(InitialEnvs(), Quoted(n)), State(Nil, Nil, []))) ==
            Running(State(Cons(Tower(n), Nil), Nil, []))
  {
    var s := PushCont(EvalCont(InitialEnvs(), Quoted(n)), State(Nil, Nil, []));
    StepEval(s, InitialEnvs(), Quoted(n));
    assert "quote" != "fun";
    assert FormOf(Atom("quote"), InitialForms()) == Assoc("quote", InitialForms().tail) == Found(Function(Quote, Nil));
    var pushed := Push(Cons(InitialEnvs(), Tower(n)), State(Nil, Nil, []));
    assert Apply(Function(Quote, Nil), pushed) == ApplyCode(Quote, Nil, pushed);
    assert Step(s) == Running(State(Cons(Tower(n), Nil), Nil, []));
    assert Steps(budget - 1, State(Cons(Tower(n), Nil), Nil, [])) == Running(State(Cons(Tower(n), Nil), Nil, []));
  }

  /** There is no bound on the nesting: for every `n`, the program run on a quoted tower
      of `n` pairs makes a release that nests `n + 1` deep. */
  method DeepRelease(n: nat, budget: nat) returns (m: Memory, r: Result<()>, ghost depths: seq<nat>)
    requires budget > 0
    ensures Syntax.IsExpr(Quoted(n))
    ensures SessionIs(m, r, RunSession(Syntax.Print(Quoted(n)), budget, State(Nil, Nil, [])))
    ensures depths == [n + 1]
  {
    DropsTower(n, budget);
    TowerHeight(n);
    if n > 0 { TowerIsTower(n); }
    ghost var deepest;
    m, r, depths, deepest := Interpret(Syntax.Print(Quoted(n)), budget);
    assert NestsLike(depths[0], Tower(n));
  }
}
