/** A big-step, lexically scoped, argument-first semantics, and the proof that
    the continuation machine computes exactly what it says. */
module BigStep {
  import opened Language

  datatype Result = Done(value: Value, output: seq<string>) | Stuck(output: seq<string>) | OutOfFuel

  /** The result of something that prints `first` before it. */
  function After(first: seq<string>, r: Result): Result {
    match r
    case Done(v, o) => Done(v, first + o)
    case Stuck(o) => Stuck(first + o)
    case OutOfFuel => OutOfFuel
  }

  /** The meaning of an expression. `fuel` bounds the depth of the derivation,
      so an expression has a value when some fuel gives one. */
  function Evaluate(fuel: nat, envs: Value, expr: Value): Result
    decreases fuel, 0
  {
    if fuel == 0 then OutOfFuel
    else match (envs, expr)
         case (Cons(forms, env), Atom(name)) =>
           (match Assoc(name, env) case Found(v) => Done(v, []) case _ => Stuck([]))
         case (Cons(forms, env), Cons(fexpr, arg)) =>
           (match FormOf(fexpr, forms)
            case Found(form) => Call(fuel - 1, form, Cons(envs, arg))
            case Missing => EvaluateCall(fuel - 1, envs, fexpr, arg)
            case Malformed => Stuck([]))
         case _ => Stuck([])
  }

  /** An ordinary call: the argument first, then the function, then the body. */
  function EvaluateCall(fuel: nat, envs: Value, fexpr: Value, arg: Value): Result
    decreases fuel, 2
  {
    match Evaluate(fuel, envs, arg)
    case Done(va, oa) =>
      (match Evaluate(fuel, envs, fexpr)
       case Done(vf, of) => After(oa + of, Call(fuel, vf, va))
       case r => After(oa, r))
    case r => r
  }

  /** Call a function value with an argument value. */
  function Call(fuel: nat, f: Value, arg: Value): Result
    decreases fuel, 1
  {
    match f
    case Function(PrintAtom, _) => if arg.Atom? then Done(Nil, [arg.chars]) else Stuck([])
    case Function(Quote, _) => if arg.Cons? then Done(arg.tail, []) else Stuck([])
    case Function(Fun, _) => Done(Function(FunApply, arg), [])
    case Function(FunApply, Cons(Cons(forms, env), Cons(Atom(param), body))) =>
      Evaluate(fuel, Cons(forms, Bind(param, arg, env)), body)
    case _ => Stuck([])
  }

  /** A function object made by `fun`, with the parameter and the body it needs. */
  predicate IsClosure(f: Value) {
    && f.Function? && f.apply == FunApply
    && f.data.Cons? && f.data.head.Cons? && f.data.tail.Cons? && f.data.tail.head.Atom?
  }

  /** Continuations of the machine are not values of the language. */
  predicate Clean(v: Value) {
    match v
    case Cons(h, t) => Clean(h) && Clean(t)
    case Function(code, d) => code != Eval && code != PopApply && Clean(d)
    case _ => true
  }

  lemma {:induction false} AssocClean(name: string, bindings: Value)
    requires Clean(bindings)
    ensures var r := Assoc(name, bindings); r.Found? ==> Clean(r.value)
  {
    match bindings {
      case Cons(Cons(Atom(key), value), rest) => AssocClean(name, rest);
      case _ =>
    }
  }

  /** `stack` is `below` with at least one more element on top. */
  predicate Above(below: Value, stack: Value) {
    stack.Cons? && (stack.tail == below || Above(below, stack.tail))
  }

  lemma {:induction false} AboveTrans(bottom: Value, below: Value, stack: Value)
    requires Above(bottom, below) && Above(below, stack)
    ensures Above(bottom, stack)
  {
    if stack.tail != below { AboveTrans(bottom, below, stack.tail); }
  }

  /** The machine makes `n` steps from `s`, each of them with something above `below`. */
  predicate StaysAbove(n: nat, s: State, below: Value) {
    n == 0 ||
    (Above(below, s.conts) && Step(s).Running? && StaysAbove(n - 1, Step(s).state, below))
  }

  /** `n` steps above `below` lead from `s` to `t`. */
  predicate Reaches(n: nat, s: State, t: State, below: Value) {
    StaysAbove(n, s, below) && Steps(n, s) == Running(t)
  }

  /** After `n` steps above `below`, the next one aborts with something still above `below`. */
  predicate CrashesAbove(n: nat, s: State, below: Value, output: seq<string>) {
    && StaysAbove(n, s, below)
    && Steps(n, s).Running? && Above(below, Steps(n, s).state.conts)
    && Step(Steps(n, s).state) == Crashed(output)
  }

  lemma OneStep(s: State, t: State, below: Value)
    requires Above(below, s.conts) && Step(s) == Running(t)
    ensures Reaches(1, s, t, below)
  {
    assert Steps(0, t) == Running(t) && StaysAbove(0, t, below);
  }

  lemma {:induction false} ReachesCompose(m: nat, n: nat, s: State, t: State, below: Value)
    requires Reaches(m, s, t, below) && StaysAbove(n, t, below)
    ensures StaysAbove(m + n, s, below) && Steps(m + n, s) == Steps(n, t)
    decreases m
  {
    if m > 0 { ReachesCompose(m - 1, n, Step(s).state, t, below); }
  }

  lemma {:induction false} StaysAboveLower(n: nat, s: State, bottom: Value, below: Value)
    requires Above(bottom, below) && StaysAbove(n, s, below)
    ensures StaysAbove(n, s, bottom)
  {
    if n > 0 {
      AboveTrans(bottom, below, s.conts);
      StaysAboveLower(n - 1, Step(s).state, bottom, below);
    }
  }

  /** What the machine does after `s` agrees with a big-step result whose value
      is due on top of `operands` when the continuation stack is back to `conts`. */
  predicate Agrees(m: nat, fuel: nat, r: Result, s: State, operands: Value, conts: Value) {
    && StaysAbove(m, s, conts)
    && match r
       case Done(v, o) => Clean(v) && Steps(m, s) == Running(State(Cons(v, operands), conts, s.output + o))
       case Stuck(o) => CrashesAbove(m, s, conts, s.output + o)
       case OutOfFuel => m >= fuel
  }

  /** Prefixing a run with steps that print `first`. */
  lemma AgreesAfter(m: nat, n: nat, fuel: nat, r: Result, s: State, t: State, first: seq<string>, operands: Value,
                    conts: Value)
    requires Reaches(m, s, t, conts) && t.output == s.output + first
    requires Agrees(n, fuel, r, t, operands, conts)
    ensures Agrees(m + n, fuel + m, After(first, r), s, operands, conts)
  {
    ReachesCompose(m, n, s, t, conts);
    match r
    case Done(v, o) => assert s.output + (first + o) == t.output + o;
    case Stuck(o) => assert s.output + (first + o) == t.output + o;
    case OutOfFuel =>
  }

  /** A run that does not give a value above `below` does not give one above `bottom`. */
  lemma AgreesLower(m: nat, fuel: nat, r: Result, s: State, operands: Value, below: Value, operands': Value,
                    bottom: Value)
    requires Agrees(m, fuel, r, s, operands, below) && !r.Done? && Above(bottom, below)
    ensures Agrees(m, fuel, r, s, operands', bottom)
  {
    StaysAboveLower(m, s, bottom, below);
    if r.Stuck? { AboveTrans(bottom, below, Steps(m, s).state.conts); }
  }

  /** The machine evaluates `expr` on top of any two stacks and comes back to them. */
  lemma {:induction false} Simulate(fuel: nat, envs: Value, expr: Value, s: State, operands: Value, conts: Value)
    returns (m: nat)
    requires Clean(envs) && Clean(expr)
    requires s.operands == operands && s.conts == Cons(EvalCont(envs, expr), conts)
    ensures Agrees(m, fuel, Evaluate(fuel, envs, expr), s, operands, conts)
    decreases fuel, 0
  {
    m := 0;
    if fuel > 0 {
      StepEval(s, envs, expr);
      assert s.output + [] == s.output;
      match (envs, expr) {
        case (Cons(forms, env), Atom(name)) =>
          AssocClean(name, env);
          if Assoc(name, env).Found? {
            m := 1;
            assert Steps(0, Step(s).state) == Running(Step(s).state);
          }
        case (Cons(forms, env), Cons(fexpr, arg)) =>
          match FormOf(fexpr, forms) {
            case Found(form) =>
              AssocClean(fexpr.chars, forms);
              m := SimulateCall(fuel - 1, form, Cons(envs, arg), s, operands, conts);
            case Missing =>
              var s1 := Step(s).state;
              var n := SimulateArguments(fuel - 1, envs, fexpr, arg, s1, operands, conts);
              AgreesAfter(1, n, fuel - 1, EvaluateCall(fuel - 1, envs, fexpr, arg), s, s1, [], operands, conts);
              AfterNothing(EvaluateCall(fuel - 1, envs, fexpr, arg));
              m := 1 + n;
            case Malformed =>
          }
        case _ =>
      }
    }
  }

  lemma AfterNothing(r: Result)
    ensures After([], r) == r
  {
    if !r.OutOfFuel? { assert [] + r.output == r.output; }
  }

  /** From the state an ordinary call has scheduled: argument, function, application. */
  lemma {:induction false} SimulateArguments(fuel: nat, envs: Value, fexpr: Value, arg: Value, s: State,
                                             operands: Value, conts: Value) returns (m: nat)
    requires Clean(envs) && Clean(fexpr) && Clean(arg) && s.operands == operands
    requires s.conts == Cons(EvalCont(envs, arg), Cons(EvalCont(envs, fexpr), Cons(Function(PopApply, Nil), conts)))
    ensures Agrees(m, fuel, EvaluateCall(fuel, envs, fexpr, arg), s, operands, conts)
    decreases fuel, 2
  {
    var k1 := Cons(Function(PopApply, Nil), conts);
    var k2 := Cons(EvalCont(envs, fexpr), k1);
    var ra := Evaluate(fuel, envs, arg);
    var m1 := Simulate(fuel, envs, arg, s, operands, k2);
    if !ra.Done? {
      AgreesLower(m1, fuel, ra, s, operands, k2, operands, conts);
      m := m1;
    } else {
      StaysAboveLower(m1, s, conts, k2);
      var t := State(Cons(ra.value, operands), k2, s.output + ra.output);
      var rf := Evaluate(fuel, envs, fexpr);
      var m2 := Simulate(fuel, envs, fexpr, t, t.operands, k1);
      if !rf.Done? {
        AgreesLower(m2, fuel, rf, t, t.operands, k1, operands, conts);
        AgreesAfter(m1, m2, fuel, rf, s, t, ra.output, operands, conts);
        m := m1 + m2;
      } else {
        StaysAboveLower(m2, t, conts, k1);
        var u := State(Cons(rf.value, t.operands), k1, t.output + rf.output);
        ReachesCompose(m1, m2, s, t, conts);
        assert u.output == s.output + (ra.output + rf.output);
        StepPopApply(u);
        var m3 := SimulateCall(fuel, rf.value, ra.value, u, operands, conts);
        AgreesAfter(m1 + m2, m3, fuel + 1, Call(fuel, rf.value, ra.value), s, u, ra.output + rf.output, operands,
                    conts);
        m := m1 + m2 + m3;
      }
    }
  }

  /** A step that applies `f` to the operand on top starts a call of `f`. */
  lemma {:induction false} SimulateCall(fuel: nat, f: Value, arg: Value, s: State, operands: Value, conts: Value)
    returns (m: nat)
    requires Clean(f) && Clean(arg) && s.conts.Cons? && s.conts.tail == conts
    requires Step(s) == Apply(f, State(Cons(arg, operands), conts, s.output))
    ensures Agrees(m, fuel + 1, Call(fuel, f, arg), s, operands, conts)
    decreases fuel, 1
  {
    m := 0;
    var r := Call(fuel, f, arg);
    assert s.output + [] == s.output;
    if IsClosure(f) {
      assert Clean(f.data) && Clean(f.data.head) && Clean(f.data.tail);
      var s1 := Step(s).state;
      var envs := Cons(f.data.head.head, Bind(f.data.tail.head.chars, arg, f.data.head.tail));
      assert Clean(envs) by { assert Clean(Cons(f.data.tail.head, arg)); }
      var n := Simulate(fuel, envs, f.data.tail.tail, s1, operands, conts);
      AgreesAfter(1, n, fuel, r, s, s1, [], operands, conts);
      AfterNothing(r);
      m := 1 + n;
    } else if Step(s).Running? {
      m := 1;
      assert Steps(0, Step(s).state) == Running(Step(s).state);
    }
  }

  lemma {:induction false} NotAboveItself(below: Value, stack: Value)
    requires Above(below, stack)
    ensures Size(below) < Size(stack)
  {
    if stack.tail != below { NotAboveItself(below, stack.tail); }
  }

  /** In a run that stays above `below`, every state before the last is above it. */
  lemma {:induction false} AboveBefore(j: nat, n: nat, s: State, below: Value)
    requires StaysAbove(n, s, below) && j < n
    ensures Steps(j, s).Running? && Above(below, Steps(j, s).state.conts)
    ensures Step(Steps(j, s).state).Running?
    decreases j
  {
    if j > 0 { AboveBefore(j - 1, n - 1, Step(s).state, below); }
  }

  /** Some derivation gives the result. */
  ghost predicate Means(envs: Value, expr: Value, r: Result) {
    exists fuel: nat :: Evaluate(fuel, envs, expr) == r
  }

  /** More fuel never changes a result, so an expression means at most one thing. */
  lemma {:induction false} FuelStable(fuel: nat, more: nat, envs: Value, expr: Value)
    requires fuel <= more && !Evaluate(fuel, envs, expr).OutOfFuel?
    ensures Evaluate(more, envs, expr) == Evaluate(fuel, envs, expr)
    decreases fuel, 0
  {
    if envs.Cons? && expr.Cons? {
      var form := FormOf(expr.head, envs.head);
      if form.Found? {
        CallFuelStable(fuel - 1, more - 1, form.value, Cons(envs, expr.tail));
      } else if form.Missing? {
        FuelStable(fuel - 1, more - 1, envs, expr.tail);
        var ra := Evaluate(fuel - 1, envs, expr.tail);
        if ra.Done? {
          FuelStable(fuel - 1, more - 1, envs, expr.head);
          var rf := Evaluate(fuel - 1, envs, expr.head);
          if rf.Done? { CallFuelStable(fuel - 1, more - 1, rf.value, ra.value); }
        }
      }
    }
  }

  lemma {:induction false} CallFuelStable(fuel: nat, more: nat, f: Value, arg: Value)
    requires fuel <= more && !Call(fuel, f, arg).OutOfFuel?
    ensures Call(more, f, arg) == Call(fuel, f, arg)
    decreases fuel, 1
  {
    if IsClosure(f) {
      var envs := Cons(f.data.head.head, Bind(f.data.tail.head.chars, arg, f.data.head.tail));
      FuelStable(fuel, more, envs, f.data.tail.tail);
    }
  }

  lemma MeaningIsUnique(envs: Value, expr: Value, r: Result, r': Result)
    requires Means(envs, expr, r) && Means(envs, expr, r') && !r.OutOfFuel? && !r'.OutOfFuel?
    ensures r == r'
  {
    var a: nat :| Evaluate(a, envs, expr) == r;
    var b: nat :| Evaluate(b, envs, expr) == r';
    if a <= b { FuelStable(a, b, envs, expr); } else { FuelStable(b, a, envs, expr); }
  }

  /** Whenever the machine first comes back to the continuations below an `eval`,
      it has pushed the value of the expression and printed its output. */
  lemma ReturnsOnlyValues(n: nat, envs: Value, expr: Value, s: State, t: State, operands: Value, conts: Value)
    requires Clean(envs) && Clean(expr)
    requires s.operands == operands && s.conts == Cons(EvalCont(envs, expr), conts)
    requires Reaches(n, s, t, conts) && t.conts == conts
    ensures var r := Evaluate(n + 1, envs, expr);
            r.Done? && t == State(Cons(r.value, operands), conts, s.output + r.output)
  {
    var r := Evaluate(n + 1, envs, expr);
    var m := Simulate(n + 1, envs, expr, s, operands, conts);
    if n < m {
      AboveBefore(n, m, s, conts);
      NotAboveItself(conts, conts);
    } else if m < n {
      AboveBefore(m, n, s, conts);
      if r.Done? { NotAboveItself(conts, conts); }
    } else if r.Stuck? {
      NotAboveItself(conts, conts);
    }
  }

  /** Whenever the machine aborts in the course of an `eval`, the expression is stuck. */
  lemma CrashesOnlyIfStuck(n: nat, envs: Value, expr: Value, s: State, output: seq<string>, operands: Value,
                           conts: Value)
    requires Clean(envs) && Clean(expr)
    requires s.operands == operands && s.conts == Cons(EvalCont(envs, expr), conts)
    requires CrashesAbove(n, s, conts, output)
    ensures var r := Evaluate(n + 1, envs, expr); r.Stuck? && output == s.output + r.output
  {
    var r := Evaluate(n + 1, envs, expr);
    var m := Simulate(n + 1, envs, expr, s, operands, conts);
    if n < m {
      AboveBefore(n, m, s, conts);
    } else if m < n {
      AboveBefore(m, n, s, conts);
      if r.Done? { NotAboveItself(conts, conts); }
    } else if r.Done? {
      NotAboveItself(conts, conts);
    }
  }

  /** The machine refines the big-step semantics, both ways: on top of any two
      stacks, an `eval` continuation comes back with a value exactly when the
      expression has that value and output, and aborts exactly when it is stuck. */
  lemma Adequacy(envs: Value, expr: Value, s: State, operands: Value, conts: Value)
    requires Clean(envs) && Clean(expr)
    requires s.operands == operands && s.conts == Cons(EvalCont(envs, expr), conts)
    ensures forall v, o :: Means(envs, expr, Done(v, o)) <==>
              exists n: nat :: Reaches(n, s, State(Cons(v, operands), conts, s.output + o), conts)
    ensures forall o :: Means(envs, expr, Stuck(o)) <==> exists n: nat :: CrashesAbove(n, s, conts, s.output + o)
  {
    forall v, o
      ensures Means(envs, expr, Done(v, o)) <==>
              exists n: nat :: Reaches(n, s, State(Cons(v, operands), conts, s.output + o), conts)
    {
      var t := State(Cons(v, operands), conts, s.output + o);
      if Means(envs, expr, Done(v, o)) {
        var fuel: nat :| Evaluate(fuel, envs, expr) == Done(v, o);
        var m := Simulate(fuel, envs, expr, s, operands, conts);
        assert Reaches(m, s, t, conts);
      }
      if n: nat :| Reaches(n, s, t, conts) {
        ReturnsOnlyValues(n, envs, expr, s, t, operands, conts);
        SamePrefix(s.output, o, Evaluate(n + 1, envs, expr).output);
        assert Evaluate(n + 1, envs, expr) == Done(v, o);
      }
    }
    forall o
      ensures Means(envs, expr, Stuck(o)) <==> exists n: nat :: CrashesAbove(n, s, conts, s.output + o)
    {
      if Means(envs, expr, Stuck(o)) {
        var fuel: nat :| Evaluate(fuel, envs, expr) == Stuck(o);
        var m := Simulate(fuel, envs, expr, s, operands, conts);
        assert CrashesAbove(m, s, conts, s.output + o);
      }
      if n: nat :| CrashesAbove(n, s, conts, s.output + o) {
        CrashesOnlyIfStuck(n, envs, expr, s, s.output + o, operands, conts);
        SamePrefix(s.output, o, Evaluate(n + 1, envs, expr).output);
        assert Evaluate(n + 1, envs, expr) == Stuck(o);
      }
    }
  }

  lemma SamePrefix(p: seq<string>, a: seq<string>, b: seq<string>)
    ensures p + a == p + b ==> a == b
  {
    if p + a == p + b {
      assert a == (p + a)[|p|..] == (p + b)[|p|..] == b;
    }
  }
}
