/** Whole programs, from the characters' tokens to what is printed. */
module Programs {
  import opened Language
  import opened BigStep
  import opened Syntax
  import opened Session
  import opened Laws
  import opened HelloForever

  function Quoted(e: Value): Value {
    Cons(Atom("quote"), e)
  }

  function Say(arg: Value): Value {
    Cons(Atom("print_atom"), arg)
  }

  lemma PrintPair(a: Value, b: Value)
    requires IsExpr(a) && IsExpr(b)
    ensures IsExpr(Cons(a, b)) && Print(Cons(a, b)) == [Open] + Print(a) + Print(b) + [Close]
  { }

  /** A session on the tokens of one expression that has a value prints its output. */
  lemma RunsOne(tokens: seq<Token>, e: Value, fuel: nat) returns (enough: nat)
    requires IsExpr(e) && tokens == Print(e) && Evaluate(fuel, InitialEnvs(), e).Done?
    ensures forall budget: nat :: enough <= budget ==>
              RunSession(tokens, budget, State(Nil, Nil, [])) == Aborted(Evaluate(fuel, InitialEnvs(), e).output)
  {
    hide Evaluate, InitialEnvs;
    ParsePrint(e, []);
    assert tokens + [] == tokens;
    var o := Evaluate(fuel, InitialEnvs(), e).output;
    assert o + [] == o && [] + o == o;
    assert Parse([]).SyntaxError?;
    assert Denotation(tokens, fuel) == Prints(o);
    enough := SessionComplete(tokens, fuel, State(Nil, Nil, []));
  }

  /** `(print_atom (quote c))` prints c. */
  lemma HelloWorld(c: string) returns (enough: nat)
    ensures forall budget: nat :: enough <= budget ==>
              RunSession([Open, Symbol("print_atom"), Open, Symbol("quote"), Symbol(c), Close, Close], budget,
                         State(Nil, Nil, [])) == Aborted([c])
  {
    hide Evaluate, Binds;
    var e := Say(Quoted(Atom(c)));
    SayTokens(c);
    SaysQuoted(1, InitialEnv(), c);
    enough := RunsOne([Open, Symbol("print_atom"), Open, Symbol("quote"), Symbol(c), Close, Close], e, 2);
  }

  lemma SaysQuoted(fuel: nat, env: Value, c: string)
    requires fuel > 0 && (env == InitialEnv() || Binds(env, "print_atom", Function(PrintAtom, Nil)))
    ensures Evaluate(fuel + 1, Cons(InitialForms(), env), Say(Quoted(Atom(c)))) == Done(Nil, [c])
  {
    hide Evaluate, Binds;
    InitialNames("print_atom", Function(PrintAtom, Nil));
    QuoteLaw(fuel - 1, env, Atom(c));
    PrintLaw(fuel, env, Quoted(Atom(c)));
    assert [] + [c] == [c];
  }

  /** `((fun (x (print_atom x))) (quote c))` prints c, whatever the parameter is called. */
  lemma ArgumentIsPrinted(x: string, c: string) returns (enough: nat)
    requires x != "print_atom"
    ensures forall budget: nat :: enough <= budget ==>
              RunSession([Open, Open, Symbol("fun"), Open, Symbol(x), Open, Symbol("print_atom"), Symbol(x), Close,
                          Close, Close, Open, Symbol("quote"), Symbol(c), Close, Close],
                         budget, State(Nil, Nil, [])) == Aborted([c])
  {
    hide Evaluate, Extends;
    var body, arg := Say(Atom(x)), Quoted(Atom(c));
    PrintPair(Atom("print_atom"), Atom(x));
    LambdaTokens(x, body);
    PrintPair(Atom("quote"), Atom(c));
    PrintPair(Lambda(x, body), arg);
    QuoteLaw(2, InitialEnv(), Atom(c));
    var inner := BetaLaw(3, InitialEnv(), x, body, arg);
    SaysVariable(2, inner, x, c);
    assert [] + [c] == [c];
    enough := RunsOne([Open, Open, Symbol("fun"), Open, Symbol(x), Open, Symbol("print_atom"), Symbol(x), Close, Close,
                       Close, Open, Symbol("quote"), Symbol(c), Close, Close], Cons(Lambda(x, body), arg), 4);
  }

  lemma SaysVariable(fuel: nat, inner: Value, x: string, c: string)
    requires fuel > 0 && x != "print_atom" && Extends(inner, InitialEnv(), x, Atom(c))
    ensures Evaluate(fuel + 1, Cons(InitialForms(), inner), Say(Atom(x))) == Done(Nil, [c])
  {
    hide Evaluate, Binds, Unbound, Broken;
    InitialNames("print_atom", Function(PrintAtom, Nil));
    Variable(fuel - 1, InitialForms(), inner, x, Atom(c), State(Nil, Nil, []));
    PrintLaw(fuel, inner, Atom(x));
    assert [] + [c] == [c];
  }

  // ----- several expressions -----

  predicate AreExprs(es: seq<Value>) {
    forall i :: 0 <= i < |es| ==> IsExpr(es[i])
  }

  function PrintAll(es: seq<Value>): seq<Token>
    requires AreExprs(es)
  {
    if es == [] then [] else Print(es[0]) + PrintAll(es[1..])
  }

  /** What expressions print one after the other, up to one that is stuck. */
  function Outputs(fuel: nat, es: seq<Value>): seq<string> {
    if es == [] then []
    else match Evaluate(fuel, InitialEnvs(), es[0])
         case Done(_, o) => o + Outputs(fuel, es[1..])
         case Stuck(o) => o
         case OutOfFuel => []
  }

  lemma {:induction false} ManyPrint(fuel: nat, es: seq<Value>)
    requires AreExprs(es) && forall i :: 0 <= i < |es| ==> !Evaluate(fuel, InitialEnvs(), es[i]).OutOfFuel?
    ensures Denotation(PrintAll(es), fuel) == Prints(Outputs(fuel, es))
    decreases |es|
  {
    hide Evaluate, InitialEnvs, Parse, Print;
    if es != [] {
      ParsePrint(es[0], PrintAll(es[1..]));
      ManyPrint(fuel, es[1..]);
    } else {
      EndOfInput();
    }
  }

  lemma EndOfInput()
    ensures Parse([]).SyntaxError?
  { }

  /** A session evaluates its expressions in order, each in the initial environments, and
      ends at one that is stuck or at the end of the input. */
  lemma SessionOfMany(fuel: nat, es: seq<Value>) returns (enough: nat)
    requires AreExprs(es) && forall i :: 0 <= i < |es| ==> !Evaluate(fuel, InitialEnvs(), es[i]).OutOfFuel?
    ensures forall budget: nat :: enough <= budget ==>
              RunSession(PrintAll(es), budget, State(Nil, Nil, [])) == Aborted(Outputs(fuel, es))
  {
    hide Evaluate, InitialEnvs, Parse, Print, RunSession;
    ManyPrint(fuel, es);
    enough := SessionComplete(PrintAll(es), fuel, State(Nil, Nil, []));
    assert [] + Outputs(fuel, es) == Outputs(fuel, es);
  }

  // ----- a curried function -----

  const F := Atom("f")
  const APPLIED := Cons(Cons(F, F), F)

  /** `(fun (z (print_atom (quote c))))`. */
  function Greeter(c: string): Value {
    Lambda("z", Say(Quoted(Atom(c))))
  }

  /** `((fun (f ((f f) f))) (fun (y (fun (z (print_atom (quote c)))))))` prints c: the
      operator of a call can be a call. */
  lemma Curried(c: string)
    ensures Evaluate(6, InitialEnvs(), Cons(Lambda("f", APPLIED), Lambda("y", Greeter(c)))) == Done(Nil, [c])
  {
    hide Evaluate, Extends;
    var forms, env := InitialForms(), InitialEnv();
    FunLaw(4, env, "y", Greeter(c));
    var g := Closure(forms, env, "y", Greeter(c));
    var inner := BetaLaw(5, env, "f", APPLIED, Lambda("y", Greeter(c)));
    CallsTwice(inner, c, g);
    assert [] + [c] == [c];
  }

  lemma CallsTwice(inner: Value, c: string, g: Value)
    requires g == Closure(InitialForms(), InitialEnv(), "y", Greeter(c)) && Extends(inner, InitialEnv(), "f", g)
    ensures Evaluate(5, Cons(InitialForms(), inner), APPLIED) == Done(Nil, [c])
  {
    hide Evaluate, Call, Binds, Unbound, Broken;
    var forms, s := InitialForms(), State(Nil, Nil, []);
    Variable(3, forms, inner, "f", g, s);
    OrdinaryCall(4, forms, inner, Cons(F, F), F, s);
    var once := CallsOnce(inner, c, g);
    var twice := ParameterIsBound(forms, once, "z", Say(Quoted(Atom(c))), g, s);
    StillPrints(twice, once, "z", g);
    SaysQuoted(3, twice, c);
    var empty: seq<string> := [];
    assert empty + empty == empty && empty + [c] == [c];
  }

  lemma CallsOnce(inner: Value, c: string, g: Value) returns (once: Value)
    requires g == Closure(InitialForms(), InitialEnv(), "y", Greeter(c)) && Extends(inner, InitialEnv(), "f", g)
    ensures Evaluate(4, Cons(InitialForms(), inner), Cons(F, F)) ==
            Done(Closure(InitialForms(), once, "z", Say(Quoted(Atom(c)))), [])
    ensures Binds(once, "print_atom", Function(PrintAtom, Nil))
  {
    hide Evaluate, Call, Binds, Unbound, Broken;
    var forms, s := InitialForms(), State(Nil, Nil, []);
    assert "f" != "fun" && "f" != "quote";
    InitialNames("f", Nil);
    Variable(2, forms, inner, "f", g, s);
    OrdinaryCall(3, forms, inner, F, F, s);
    once := ParameterIsBound(forms, InitialEnv(), "y", Greeter(c), g, s);
    FunLaw(2, once, "z", Say(Quoted(Atom(c))));
    InitialNames("print_atom", Function(PrintAtom, Nil));
    StillPrints(once, InitialEnv(), "y", g);
    var empty: seq<string> := [];
    assert empty + empty == empty;
  }

  lemma StillPrints(inner: Value, outer: Value, param: string, arg: Value)
    requires Extends(inner, outer, param, arg) && param != "print_atom"
    requires Binds(outer, "print_atom", Function(PrintAtom, Nil))
    ensures Binds(inner, "print_atom", Function(PrintAtom, Nil))
  { }

  /** `(iter iter)` and `((fun (v (iter iter))) (print_atom (quote Hello)))`. */
  const SELF_TOKENS := [Open, Symbol("iter"), Symbol("iter"), Close]
  const LOOP_TOKENS :=
    [Open, Open, Symbol("fun"), Open, Symbol("v"), Open, Symbol("iter"), Symbol("iter"), Close, Close, Close,
     Open, Symbol("print_atom"), Open, Symbol("quote"), Symbol("Hello"), Close, Close, Close]

  lemma LoopTokens()
    ensures IsExpr(SELF) && Print(SELF) == SELF_TOKENS && IsExpr(LOOP) && Print(LOOP) == LOOP_TOKENS
  {
    hide Print, IsExpr;
    AtomTokens("iter");
    PrintPair(ITER, ITER);
    LambdaTokens("v", SELF);
    SayTokens("Hello");
    PrintPair(Lambda("v", SELF), SAY);
  }

  lemma SayTokens(c: string)
    ensures var e := Say(Quoted(Atom(c)));
            IsExpr(e) && Print(e) == [Open, Symbol("print_atom"), Open, Symbol("quote"), Symbol(c), Close, Close]
  {
    hide Print, IsExpr;
    AtomTokens("print_atom");
    AtomTokens("quote");
    AtomTokens(c);
    PrintPair(Atom("quote"), Atom(c));
    PrintPair(Atom("print_atom"), Quoted(Atom(c)));
  }

  lemma AtomTokens(c: string)
    ensures IsExpr(Atom(c)) && Print(Atom(c)) == [Symbol(c)]
  { }

  lemma LambdaTokens(param: string, body: Value)
    requires IsExpr(body)
    ensures IsExpr(Lambda(param, body))
    ensures Print(Lambda(param, body)) ==
            [Open, Symbol("fun"), Open, Symbol(param)] + Print(body) + [Close, Close]
  {
    PrintPair(Atom(param), body);
    PrintPair(Atom("fun"), Cons(Atom(param), body));
  }

  lemma Appended(a: seq<Token>, b: seq<Token>, l: seq<Token>, x: seq<Token>, y: seq<Token>)
    requires a == l + x + [Close, Close] && b == l + y + [Close, Close]
    ensures [Open] + a + b + [Close] == [Open] + l + x + [Close, Close] + l + y + [Close, Close, Close]
  { }

  /** The tokens of the endless example, as documented. */
  lemma ExampleTokens()
    ensures IsExpr(EXAMPLE)
    ensures Print(EXAMPLE) ==
            [Open] + [Open, Symbol("fun"), Open, Symbol("iter")] + SELF_TOKENS + [Close, Close]
            + [Open, Symbol("fun"), Open, Symbol("iter")] + LOOP_TOKENS + [Close, Close, Close]
  {
    hide Print, IsExpr, Lambda;
    LoopTokens();
    LambdaTokens("iter", SELF);
    LambdaTokens("iter", LOOP);
    PrintPair(Lambda("iter", SELF), Lambda("iter", LOOP));
    Appended(Print(Lambda("iter", SELF)), Print(Lambda("iter", LOOP)), [Open, Symbol("fun"), Open, Symbol("iter")],
             SELF_TOKENS, LOOP_TOKENS);
  }
}
