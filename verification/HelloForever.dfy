/** The endless example of the interpreters' documentation: it prints Hello again and
    again, each time on the same stacks. */
module HelloForever {
  import opened Language
  import opened BigStep
  import opened TailCalls
  import opened Syntax
  import opened Session

  function Lambda(param: string, body: Value): Value {
    Cons(Atom("fun"), Cons(Atom(param), body))
  }

  const ITER := Atom("iter")
  const SELF := Cons(ITER, ITER)
  const SAY := Cons(Atom("print_atom"), Cons(Atom("quote"), Atom("Hello")))
  const LOOP := Cons(Lambda("v", SELF), SAY)

  /** `((fun (iter (iter iter))) (fun (iter ((fun (v (iter iter))) (print_atom (quote Hello))))))` */
  const EXAMPLE := Cons(Lambda("iter", SELF), Lambda("iter", LOOP))

  /** The value of the argument of the outer application. */
  function Again(): Value {
    Function(FunApply, Cons(InitialEnvs(), Cons(ITER, LOOP)))
  }

  function IterEnv(): Value {
    Bind("iter", Again(), InitialEnv())
  }

  /** The body of the inner function, about to print. */
  function Round(): Frame {
    Frame(Cons(InitialForms(), IterEnv()), LOOP)
  }

  function CallAgain(env: Value): Frame {
    Frame(Cons(InitialForms(), env), SELF)
  }

  lemma AgainIsClean()
    ensures Clean(InitialEnvs()) && Clean(Again()) && Clean(IterEnv()) && Clean(Bind("v", Nil, IterEnv()))
    ensures Clean(EXAMPLE) && Clean(LOOP) && Clean(SELF)
  {
    InitialIsClean();
    assert Clean(SAY.tail) && Clean(SAY) && Clean(SELF);
    assert Clean(Lambda("v", SELF).tail) && Clean(Lambda("v", SELF));
    assert Clean(LOOP);
    assert Clean(Lambda("iter", LOOP).tail) && Clean(Lambda("iter", LOOP));
    assert Clean(Lambda("iter", SELF).tail) && Clean(Lambda("iter", SELF));
    assert Clean(Cons(ITER, LOOP)) && Clean(Again().data);
    assert Clean(Cons(Atom("iter"), Again())) && Clean(Cons(Atom("v"), Nil));
  }

  lemma FormsFound()
    ensures FormOf(Atom("fun"), InitialForms()) == Found(Function(Fun, Nil))
    ensures FormOf(Atom("quote"), InitialForms()) == Found(Function(Quote, Nil))
    ensures FormOf(Atom("print_atom"), InitialForms()).Missing? && FormOf(ITER, InitialForms()).Missing?
  {
    var rest := InitialForms().tail;
    assert "fun" != "quote" && "print_atom" != "fun" && "print_atom" != "quote" && "iter" != "fun" && "iter" != "quote";
    assert Assoc("quote", rest) == Found(Function(Quote, Nil));
    assert Assoc("print_atom", rest) == Assoc("print_atom", Nil) && Assoc("iter", rest) == Assoc("iter", Nil);
  }

  /** A lambda expression is a closure over its environments. */
  lemma LambdaValue(fuel: nat, env: Value, param: string, body: Value)
    requires fuel > 0
    ensures var envs := Cons(InitialForms(), env);
            Evaluate(fuel, envs, Lambda(param, body)) ==
            Done(Function(FunApply, Cons(envs, Cons(Atom(param), body))), [])
  {
    FormsFound();
  }

  /** The argument of a round prints Hello. */
  lemma SaysHello()
    ensures Evaluate(3, Round().envs, SAY) == Done(Nil, ["Hello"])
  {
    hide Assoc, InitialForms, InitialEnv, IterEnv;
    FormsFound();
    SayParts(Round().envs, IterEnv());
    assert EvaluateCall(2, Round().envs, SAY.head, SAY.tail) == After([] + [], Done(Nil, ["Hello"]));
  }

  lemma SayParts(envs: Value, env: Value)
    requires envs == Cons(InitialForms(), env) && env == IterEnv()
    ensures Evaluate(2, envs, SAY.tail) == Done(Atom("Hello"), [])
    ensures Evaluate(2, envs, SAY.head) == Done(Function(PrintAtom, Nil), [])
  {
    hide Assoc, InitialForms, InitialEnv, IterEnv, FormOf;
    FormsFound();
    PrintFound();
  }

  lemma PrintFound()
    ensures Assoc("print_atom", IterEnv()) == Found(Function(PrintAtom, Nil))
  {
    assert "print_atom" != "iter";
    assert Assoc("print_atom", IterEnv()) == Assoc("print_atom", InitialEnv());
  }

  lemma Starts()
    ensures TailCall(3, Frame(InitialEnvs(), EXAMPLE), CallAgain(IterEnv()), [])
  {
    hide Evaluate, Clean, Assoc, InitialForms, InitialEnv;
    AgainIsClean();
    LambdaValue(3, InitialEnv(), "iter", LOOP);
    LambdaValue(3, InitialEnv(), "iter", SELF);
    assert EXAMPLE.head.Cons?;
  }

  /** Calling `iter` with itself starts a round, however the environment is extended. */
  lemma StartsRound(env: Value)
    requires Clean(env) && Assoc("iter", env) == Found(Again())
    ensures TailCall(3, CallAgain(env), Round(), [])
  {
    hide Evaluate, Clean, Assoc, InitialForms, InitialEnv, FormOf, TailCall;
    AgainIsClean();
    FormsFound();
    IterValue(env);
    PairIsClean(InitialForms(), InitialEnv());
    PairIsClean(InitialForms(), env);
    SelfCall(Cons(InitialForms(), env), InitialForms(), InitialEnv(), "iter", LOOP);
  }

  /** Calling a closure named `iter` with itself. */
  lemma SelfCall(envs: Value, forms: Value, env: Value, param: string, body: Value)
    requires envs.Cons? && FormOf(ITER, envs.head).Missing? && Clean(envs) && Clean(SELF)
    requires Evaluate(3, envs, ITER) == Done(Function(FunApply, Cons(Cons(forms, env), Cons(Atom(param), body))), [])
    ensures TailCall(3, Frame(envs, SELF), Frame(Cons(forms, Bind(param, Evaluate(3, envs, ITER).value, env)), body),
                     [])
  {
    hide Evaluate, Clean, FormOf;
  }

  lemma IterValue(env: Value)
    requires Assoc("iter", env) == Found(Again())
    ensures Evaluate(3, Cons(InitialForms(), env), ITER) == Done(Again(), [])
  { }

  lemma PairIsClean(a: Value, b: Value)
    ensures Clean(Cons(a, b)) <==> Clean(a) && Clean(b)
  { }

  lemma OneRound()
    ensures TailCall(3, Round(), CallAgain(Bind("v", Nil, IterEnv())), ["Hello"])
    ensures Assoc("iter", IterEnv()) == Found(Again()) && Assoc("iter", Bind("v", Nil, IterEnv())) == Found(Again())
  {
    hide Evaluate, Clean, InitialForms, InitialEnv;
    AgainIsClean();
    PairIsClean(InitialForms(), InitialEnv());
    PairIsClean(InitialForms(), IterEnv());
    SaysHello();
    LambdaValue(3, IterEnv(), "v", SELF);
    assert "iter" != "v";
  }

  function Hellos(n: nat): seq<string> {
    if n == 0 then [] else Hellos(n - 1) + ["Hello"]
  }

  lemma Then(m: nat, n: nat, s: State, t: State, u: State, below: Value)
    requires Reaches(m, s, t, below) && Reaches(n, t, u, below)
    ensures Reaches(m + n, s, u, below)
  {
    ReachesCompose(m, n, s, t, below);
  }

  lemma StaysPut(s: State, conts: Value)
    ensures Reaches(0, s, s, conts)
  { }

  /** Two tail calls, the second of which prints nothing. */
  lemma TwoCalls(a: Frame, b: Frame, c: Frame, printed: seq<string>, operands: Value, conts: Value,
                 output: seq<string>) returns (m: nat)
    requires TailCall(3, a, b, printed) && TailCall(3, b, c, [])
    ensures Reaches(m, Entering(a, operands, conts, output), Entering(c, operands, conts, output + printed), conts)
  {
    hide TailCall, Reaches, Clean, Entering;
    var o := output + printed;
    var m1 := TailCallReusesStack(3, a, b, printed, operands, conts, output);
    var m2 := TailCallReusesStack(3, b, c, [], operands, conts, o);
    assert o + [] == o;
    Then(m1, m2, Entering(a, operands, conts, output), Entering(b, operands, conts, o), Entering(c, operands, conts, o),
         conts);
    m := m1 + m2;
  }

  lemma NextRound(operands: Value, conts: Value, output: seq<string>) returns (m: nat)
    ensures Reaches(m, Entering(Round(), operands, conts, output),
                    Entering(Round(), operands, conts, output + ["Hello"]), conts)
  {
    hide TailCall, Reaches, Clean, Assoc, Round, CallAgain, IterEnv, Entering, Bind;
    OneRound();
    AgainIsClean();
    StartsRound(Bind("v", Nil, IterEnv()));
    m := TwoCalls(Round(), CallAgain(Bind("v", Nil, IterEnv())), Round(), ["Hello"], operands, conts, output);
  }

  lemma FirstRound() returns (m: nat)
    ensures Reaches(m, Entering(Frame(InitialEnvs(), EXAMPLE), Nil, Nil, []), Entering(Round(), Nil, Nil, []), Nil)
  {
    hide TailCall, Reaches, Clean, Assoc, Round, CallAgain, IterEnv, Entering, Bind, InitialEnvs;
    Starts();
    OneRound();
    AgainIsClean();
    StartsRound(IterEnv());
    var none: seq<string> := [];
    m := TwoCalls(Frame(InitialEnvs(), EXAMPLE), CallAgain(IterEnv()), Round(), none, Nil, Nil, none);
    assert none + none == none;
  }

  /** After any number of rounds the machine is where it was, having printed. */
  lemma {:induction false} Rounds(n: nat, operands: Value, conts: Value, output: seq<string>) returns (m: nat)
    ensures Reaches(m, Entering(Round(), operands, conts, output),
                    Entering(Round(), operands, conts, output + Hellos(n)), conts)
    decreases n
  {
    hide Reaches, Round, Entering;
    var s := Entering(Round(), operands, conts, output);
    if n == 0 {
      assert output + [] == output;
      StaysPut(s, conts);
      m := 0;
    } else {
      var o := output + Hellos(n - 1);
      var m0 := Rounds(n - 1, operands, conts, output);
      var m1 := NextRound(operands, conts, o);
      assert o + ["Hello"] == output + Hellos(n);
      Then(m0, m1, s, Entering(Round(), operands, conts, o), Entering(Round(), operands, conts, output + Hellos(n)),
           conts);
      m := m0 + m1;
    }
  }

  /** For every n, the session on the example is at some point still busy after having
      printed Hello exactly n times. */
  lemma PrintsForever(n: nat) returns (budget: nat)
    ensures IsExpr(EXAMPLE) && RunSession(Print(EXAMPLE), budget, State(Nil, Nil, [])) == Busy(Hellos(n))
  {
    assert IsExpr(SAY.tail) && IsExpr(SAY) && IsExpr(SELF);
    assert IsExpr(Lambda("v", SELF).tail) && IsExpr(Lambda("v", SELF)) && IsExpr(LOOP);
    assert IsExpr(Lambda("iter", LOOP).tail) && IsExpr(Lambda("iter", SELF).tail);
    ParsePrint(EXAMPLE, []);
    assert Print(EXAMPLE) + [] == Print(EXAMPLE);
    budget := Starting(n);
  }

  lemma Starting(n: nat) returns (m: nat)
    ensures Reaches(m, Entering(Frame(InitialEnvs(), EXAMPLE), Nil, Nil, []), Entering(Round(), Nil, Nil, Hellos(n)),
                    Nil)
  {
    hide Reaches, Round, Entering;
    var m1 := FirstRound();
    var m2 := Rounds(n, Nil, Nil, []);
    assert [] + Hellos(n) == Hellos(n);
    Then(m1, m2, Entering(Frame(InitialEnvs(), EXAMPLE), Nil, Nil, []), Entering(Round(), Nil, Nil, []),
         Entering(Round(), Nil, Nil, Hellos(n)), Nil);
    m := m1 + m2;
  }
}
