/** The endless example on the garbage-collected interpreter: the machine goes through
    the same few states for ever, so the heap never fills up. */
module HelloRuns {
  import opened Language
  import opened Objects
  import opened Syntax
  import opened Session
  import opened Costs
  import opened HelloForever
  import opened Collector
  import Gcl

  const POP := Function(PopApply, Nil)

  /** An application whose operator and operand take one turn each to evaluate. */
  datatype Call = Call(envs: Value, f: Value, arg: Value, vf: Value, varg: Value, below: Value)

  /** The states of a call: about to be evaluated, scheduled, with its operand on the
      stack, and with both. */
  function Stage(c: Call, i: nat, output: seq<string>): State {
    match i
    case 0 => State(Nil, Cons(EvalCont(c.envs, Cons(c.f, c.arg)), c.below), output)
    case 1 => State(Nil, Cons(EvalCont(c.envs, c.arg), Cons(EvalCont(c.envs, c.f), Cons(POP, c.below))), output)
    case 2 => State(Cons(c.varg, Nil), Cons(EvalCont(c.envs, c.f), Cons(POP, c.below)), output)
    case _ => State(Cons(c.vf, Cons(c.varg, Nil)), Cons(POP, c.below), output)
  }

  /** Evaluating `expr` takes one turn. */
  predicate Immediate(envs: Value, expr: Value, v: Value) {
    && envs.Cons?
    && match expr
       case Atom(name) => Assoc(name, envs.tail) == Found(v)
       case Cons(f, arg) =>
         (match FormOf(f, envs.head)
          case Found(Function(Fun, _)) => v == Function(FunApply, Cons(envs, arg))
          case Found(Function(Quote, _)) => v == arg
          case _ => false)
       case _ => false
  }

  lemma OneTurn(envs: Value, expr: Value, v: Value, operands: Value, below: Value, output: seq<string>)
    requires Immediate(envs, expr, v)
    ensures Step(State(operands, Cons(EvalCont(envs, expr), below), output)) ==
            Running(State(Cons(v, operands), below, output))
  {
    hide Assoc;
    var s := State(operands, Cons(EvalCont(envs, expr), below), output);
    StepEval(s, envs, expr);
    if expr.Cons? {
      var form := FormOf(expr.head, envs.head).value;
      var t := Push(Cons(envs, expr.tail), s.(conts := below));
      assert Apply(form, t) == ApplyCode(form.apply, form.data, t);
    }
  }

  predicate Ready(c: Call) {
    c.envs.Cons? && FormOf(c.f, c.envs.head).Missing?
  }

  lemma Schedules(c: Call, output: seq<string>)
    requires Ready(c)
    ensures Step(Stage(c, 0, output)) == Running(Stage(c, 1, output))
  {
    StepEval(Stage(c, 0, output), c.envs, Cons(c.f, c.arg));
  }

  lemma Advances(c: Call, i: nat, output: seq<string>)
    requires Ready(c) && Immediate(c.envs, c.f, c.vf) && (i != 1 || Immediate(c.envs, c.arg, c.varg)) && i < 3
    ensures Step(Stage(c, i, output)) == Running(Stage(c, i + 1, output))
  {
    hide Immediate, Assoc;
    match i {
      case 0 => Schedules(c, output);
      case 1 => OneTurn(c.envs, c.arg, c.varg, Nil, Cons(EvalCont(c.envs, c.f), Cons(POP, c.below)), output);
      case 2 => OneTurn(c.envs, c.f, c.vf, Cons(c.varg, Nil), Cons(POP, c.below), output);
    }
  }

  /** The last state of a call of a closure is followed by its body. */
  lemma Enters(c: Call, forms: Value, env: Value, param: string, body: Value, output: seq<string>)
    requires c.vf == Function(FunApply, Cons(Cons(forms, env), Cons(Atom(param), body)))
    ensures Step(Stage(c, 3, output)) ==
            Running(State(Nil, Cons(EvalCont(Cons(forms, Bind(param, c.varg, env)), body), c.below), output))
  {
    StepPopApply(Stage(c, 3, output));
    var t := State(Cons(c.varg, Nil), c.below, output);
    assert Apply(c.vf, t) == ApplyCode(FunApply, c.vf.data, t);
  }

  lemma Says(c: Call, name: string, output: seq<string>)
    requires c.vf == Function(PrintAtom, Nil) && c.varg == Atom(name)
    ensures Step(Stage(c, 3, output)) == Running(State(Cons(Nil, Nil), c.below, output + [name]))
  {
    StepPopApply(Stage(c, 3, output));
    var t := State(Cons(c.varg, Nil), c.below, output);
    assert Apply(c.vf, t) == ApplyCode(PrintAtom, Nil, t);
  }

  // ----- the calls of the example -----

  function Outer(): Call {
    Call(InitialEnvs(), Lambda("iter", SELF), Lambda("iter", LOOP),
         Function(FunApply, Cons(InitialEnvs(), Cons(ITER, SELF))), Again(), Nil)
  }

  /** `(iter iter)`. */
  function Itself(env: Value): Call {
    Call(Cons(InitialForms(), env), ITER, ITER, Again(), Again(), Nil)
  }

  function Spoken(): Value { Bind("v", Nil, IterEnv()) }

  /** The application in the loop's body; its operand is the next call. */
  function Body(): Call {
    Call(Round().envs, Lambda("v", SELF), SAY, Function(FunApply, Cons(Round().envs, Cons(Atom("v"), SELF))), Nil, Nil)
  }

  function Saying(): Call {
    Call(Round().envs, SAY.head, SAY.tail, Function(PrintAtom, Nil), Atom("Hello"),
         Cons(EvalCont(Round().envs, Lambda("v", SELF)), Cons(POP, Nil)))
  }

  datatype Place = AtOuter | AtFirst | AtBody | AtSaying | AtItself

  function CallAt(p: Place): Call {
    match p
    case AtOuter => Outer()
    case AtFirst => Itself(IterEnv())
    case AtBody => Body()
    case AtSaying => Saying()
    case AtItself => Itself(Spoken())
  }

  lemma Lookups()
    ensures Ready(Outer()) && Ready(Itself(IterEnv())) && Ready(Itself(Spoken())) && Ready(Body()) && Ready(Saying())
    ensures Assoc("iter", IterEnv()) == Found(Again()) && Assoc("iter", Spoken()) == Found(Again())
    ensures Assoc("print_atom", IterEnv()) == Found(Function(PrintAtom, Nil))
  {
    hide InitialForms, InitialEnv, Assoc;
    FormsFound();
    OneRound();
    PrintFound();
  }

  lemma LambdaIsImmediate(env: Value, param: string, body: Value)
    ensures var envs := Cons(InitialForms(), env);
            Immediate(envs, Lambda(param, body), Function(FunApply, Cons(envs, Cons(Atom(param), body))))
  {
    hide InitialForms, InitialEnv, Assoc;
    FormsFound();
  }

  lemma NamesAreImmediate()
    ensures Immediate(Cons(InitialForms(), IterEnv()), ITER, Again())
    ensures Immediate(Cons(InitialForms(), Spoken()), ITER, Again())
    ensures Immediate(Round().envs, SAY.head, Function(PrintAtom, Nil))
    ensures Immediate(Round().envs, SAY.tail, Atom("Hello"))
  {
    hide InitialForms, InitialEnv, Assoc;
    FormsFound();
    Lookups();
  }

  /** The parts of the calls, but for the operand that prints, take one turn. */
  lemma Parts(p: Place)
    ensures var c := CallAt(p);
            Ready(c) && Immediate(c.envs, c.f, c.vf) && (p == AtBody || Immediate(c.envs, c.arg, c.varg))
  {
    hide InitialForms, InitialEnv, Assoc, Immediate, Ready, Lambda, Spoken, IterEnv;
    Lookups();
    NamesAreImmediate();
    LambdaIsImmediate(InitialEnv(), "iter", SELF);
    LambdaIsImmediate(InitialEnv(), "iter", LOOP);
    LambdaIsImmediate(IterEnv(), "v", SELF);
  }

  /** The state that follows a state of the example. */
  function Next(p: Place, i: nat): (Place, nat) {
    if p == AtBody && i == 0 then (AtSaying, 0)
    else if i < 3 then (p, i + 1)
    else match p
         case AtOuter => (AtFirst, 0)
         case AtFirst => (AtBody, 0)
         case AtBody => (AtItself, 0)
         case AtSaying => (AtBody, 2)
         case AtItself => (AtBody, 0)
  }

  function Said(p: Place, i: nat): nat { if p == AtSaying && i == 3 then 1 else 0 }

  /** The operand of the loop's body is itself a call. */
  lemma SayingFirst(output: seq<string>)
    ensures Stage(Body(), 1, output) == Stage(Saying(), 0, output)
  { }

  lemma FollowsWithin(p: Place, i: nat, output: seq<string>)
    requires i < 3 && (p != AtBody || i != 1)
    ensures Step(Stage(CallAt(p), i, output)) == Running(Stage(CallAt(Next(p, i).0), Next(p, i).1, output))
  {
    hide Immediate, Ready, Step, Stage, Outer, Itself, Body, Saying, IterEnv, Spoken;
    Parts(p);
    Advances(CallAt(p), i, output);
    if p == AtBody { SayingFirst(output); }
  }

  lemma FollowsLast(p: Place, output: seq<string>)
    requires p != AtSaying
    ensures Step(Stage(CallAt(p), 3, output)) == Running(Stage(CallAt(Next(p, 3).0), 0, output))
  {
    hide Step, InitialForms, InitialEnv;
    var c := CallAt(p);
    match p {
      case AtOuter => Enters(c, InitialForms(), InitialEnv(), "iter", SELF, output);
      case AtFirst => Enters(c, InitialForms(), InitialEnv(), "iter", LOOP, output);
      case AtItself => Enters(c, InitialForms(), InitialEnv(), "iter", LOOP, output);
      case AtBody => Enters(c, InitialForms(), IterEnv(), "v", SELF, output);
    }
  }

  lemma Follows(p: Place, i: nat, k: nat)
    requires i < 4 && (p != AtBody || i != 1)
    ensures var n := Next(p, i);
            && Step(Stage(CallAt(p), i, Hellos(k))) == Running(Stage(CallAt(n.0), n.1, Hellos(k + Said(p, i))))
            && n.1 < 4 && (n.0 != AtBody || n.1 != 1)
  {
    hide Step, Outer, Itself, InitialForms, InitialEnv, IterEnv;
    if i < 3 {
      FollowsWithin(p, i, Hellos(k));
    } else if p == AtSaying {
      Says(Saying(), "Hello", Hellos(k));
    } else {
      FollowsLast(p, Hellos(k));
    }
  }

  // ----- their weights -----

  lemma Weights()
    ensures Weight(Round().envs) == 56 && Weight(Cons(InitialForms(), Spoken())) == 60 && Weight(InitialEnvs()) == 18
    ensures Weight(Again()) == 35 && Weight(LOOP) == 13 && Weight(SELF) == 3 && Weight(SAY) == 5
    ensures Weight(Lambda("v", SELF)) == 7 && Weight(Lambda("iter", SELF)) == 7 && Weight(Lambda("iter", LOOP)) == 17
    ensures Weight(EXAMPLE) == 25
  {
    hide Assoc;
    Gcl.InitialWeights();
    assert Weight(SELF) == 3;
    assert Weight(SAY.tail) == 3 && Weight(SAY) == 5;
    assert Weight(Lambda("v", SELF)) == 7 && Weight(Lambda("iter", SELF)) == 7;
    assert Weight(LOOP) == 13;
    assert Weight(Lambda("iter", LOOP)) == 17;
    assert Weight(Cons(ITER, LOOP)) == 15;
    assert Weight(Again().data) == 34;
    assert Weight(Cons(Atom("iter"), Again())) == 37;
    assert Weight(IterEnv()) == 44;
    assert Weight(Spoken()) == 48;
  }

  /** How many nodes the parts of a call have. */
  function Bulk(c: Call): nat {
    2 * Weight(c.envs) + Weight(c.f) + Weight(c.arg) + Weight(c.vf) + Weight(c.varg) + Weight(c.below)
  }

  lemma StageLoad(c: Call, i: nat, output: seq<string>, others: nat)
    ensures LoadOf(Stage(c, i, output), others) <= Bulk(c) + others + 12
  {
    hide Weight;
    PairWeight(POP, c.below);
    PairWeight(EvalCont(c.envs, c.f), Cons(POP, c.below));
    PairWeight(c.varg, Nil);
    EvalWeight(c.envs, c.f);
    match i {
      case 0 =>
        EvalWeight(c.envs, Cons(c.f, c.arg));
        PairWeight(c.f, c.arg);
        PairWeight(EvalCont(c.envs, Cons(c.f, c.arg)), c.below);
      case 1 =>
        EvalWeight(c.envs, c.arg);
        PairWeight(EvalCont(c.envs, c.arg), Cons(EvalCont(c.envs, c.f), Cons(POP, c.below)));
      case _ => PairWeight(c.vf, Cons(c.varg, Nil));
    }
  }

  lemma PairWeight(a: Value, b: Value)
    ensures Weight(Cons(a, b)) == 1 + Weight(a) + Weight(b) && Weight(Nil) == 1 && Weight(POP) == 2
  { }

  lemma EvalWeight(envs: Value, expr: Value)
    ensures Weight(EvalCont(envs, expr)) == 2 + Weight(envs) + Weight(expr)
  { }

  lemma Light(p: Place)
    ensures Bulk(CallAt(p)) <= 500
  {
    hide InitialForms, InitialEnv;
    Weights();
    var c := CallAt(p);
    match p {
      case AtOuter => assert Weight(c.vf.data) == 1 + 18 + Weight(Cons(ITER, SELF));
      case AtBody => assert Weight(c.vf.data) == 1 + 56 + Weight(Cons(Atom("v"), SELF));
      case AtSaying =>
        assert Weight(c.below.head) == 2 + 56 + 7;
        assert Weight(c.below.tail) == 4;
      case _ =>
    }
  }

  /** Any number of turns of the example fit in the heap, and it is never done. */
  lemma {:induction false} Runs(n: nat, p: Place, i: nat, k: nat) returns (said: nat)
    requires i < 4 && (p != AtBody || i != 1) && StateOk(Stage(CallAt(p), i, Hellos(k)))
    ensures StepsSpace(n, Stage(CallAt(p), i, Hellos(k)), Gcl.MAIN_WEIGHT) < LIMIT
    ensures var t := Steps(n, Stage(CallAt(p), i, Hellos(k)));
            t.Running? && t.state.conts.Cons? && t.state.output == Hellos(said)
    decreases n
  {
    hide Step, StateOk, StepSpace, Bulk, CallAt, Hellos, LoadOf;
    var s := Stage(CallAt(p), i, Hellos(k));
    said := k;
    if n > 0 {
      Follows(p, i, k);
      StepKeeps(s);
      TurnSpace(s, Gcl.MAIN_WEIGHT);
      StageLoad(CallAt(p), i, Hellos(k), Gcl.MAIN_WEIGHT);
      Light(p);
      said := Runs(n - 1, Next(p, i).0, Next(p, i).1, k + Said(p, i));
    }
  }

  lemma {:induction false} PrintLength(v: Value)
    requires IsExpr(v)
    ensures |Print(v)| <= 2 * Weight(v)
  {
    if v.Cons? { PrintLength(v.head); PrintLength(v.tail); }
  }

  lemma ExampleParses()
    ensures IsExpr(EXAMPLE) && Parse(Print(EXAMPLE)) == Ok(EXAMPLE, [])
  {
    var budget := PrintsForever(0);
    ParsePrint(EXAMPLE, []);
    assert Print(EXAMPLE) + [] == Print(EXAMPLE);
  }

  /** However long the example runs, its values fit in the heap: the session is busy
      after some number of greetings. */
  lemma Fits(budget: nat) returns (said: nat)
    ensures IsExpr(EXAMPLE) && SessionSpace(Print(EXAMPLE), budget, State(Nil, Nil, []), Gcl.MAIN_WEIGHT) < LIMIT
    ensures RunSession(Print(EXAMPLE), budget, State(Nil, Nil, [])) == Busy(Hellos(said))
  {
    hide StateOk, StepsSpace, Steps, Weight, InitialEnvs;
    ExampleParses();
    PrintLength(EXAMPLE);
    Weights();
    var s := State(Nil, Nil, []);
    StartOk();
    ScheduledOk(Print(EXAMPLE), s);
    said := Runs(budget, AtOuter, 0, 0);
  }

  lemma StartOk()
    ensures StateOk(State(Nil, Nil, [])) && LoadOf(State(Nil, Nil, []), Gcl.MAIN_WEIGHT) == Gcl.MAIN_WEIGHT + 2
    ensures Hellos(0) == []
  { }

  /** The garbage-collected interpreter runs the example for as long as it is let. */
  method RunExample(budget: nat) returns (rt: Runtime, r: Result<()>, ghost said: nat)
    ensures rt.Valid() && r.Success? && rt.output == Hellos(said)
    ensures IsExpr(EXAMPLE) && RunSession(Print(EXAMPLE), budget, State(Nil, Nil, [])) == Busy(Hellos(said))
  {
    said := Fits(budget);
    ghost var deepest;
    rt, r, deepest := Gcl.Interpret(Print(EXAMPLE), budget);
  }
}
