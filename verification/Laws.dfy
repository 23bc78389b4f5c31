/** What looking up a name, binding a parameter and the special forms mean, said of
    lists of bindings as lists and of the documented programs. */
module Laws {
  import opened Language
  import opened BigStep
  import opened Syntax
  import opened Session
  import opened TailCalls

  // ----- lists -----

  /** The elements of a list, up to what is not a pair. */
  function Elements(list: Value): seq<Value> {
    if list.Cons? then [list.head] + Elements(list.tail) else []
  }

  /** What ends a list. */
  function Ending(list: Value): Value {
    if list.Cons? then Ending(list.tail) else list
  }

  function Listing(elements: seq<Value>, ending: Value): Value {
    if elements == [] then ending else Cons(elements[0], Listing(elements[1..], ending))
  }

  /** A list is its elements and its ending. */
  lemma {:induction false} ListIsElements(list: Value)
    ensures Listing(Elements(list), Ending(list)) == list && !Ending(list).Cons?
  {
    if list.Cons? {
      ListIsElements(list.tail);
      assert Elements(list)[1..] == Elements(list.tail);
    }
  }

  lemma {:induction false} ElementsOfListing(elements: seq<Value>, ending: Value)
    requires !ending.Cons?
    ensures Elements(Listing(elements, ending)) == elements && Ending(Listing(elements, ending)) == ending
  {
    if elements != [] {
      ElementsOfListing(elements[1..], ending);
      assert elements == [elements[0]] + elements[1..];
    }
  }

  // ----- lookup -----

  /** A pair keyed by an atom. */
  predicate IsBinding(e: Value) {
    e.Cons? && e.head.Atom?
  }

  /** The first `i` elements are bindings of other names. */
  ghost predicate Others(es: seq<Value>, i: nat, name: string) {
    i <= |es| && forall j :: 0 <= j < i ==> IsBinding(es[j]) && es[j].head.chars != name
  }

  /** After bindings of other names comes an element of which `p` holds. */
  ghost predicate ThenSome(es: seq<Value>, name: string, p: Value -> bool) {
    exists i: nat :: i < |es| && Others(es, i, name) && p(es[i])
  }

  /** The first binding of the name, after bindings of other names, is to `v`. */
  ghost predicate Binds(list: Value, name: string, v: Value) {
    ThenSome(Elements(list), name, e => e == Cons(Atom(name), v))
  }

  /** A list of bindings of other names. */
  ghost predicate Unbound(list: Value, name: string) {
    Ending(list) == Nil && Others(Elements(list), |Elements(list)|, name)
  }

  /** Something other than a binding comes before any binding of the name. */
  ghost predicate Broken(list: Value, name: string) {
    || ThenSome(Elements(list), name, e => !IsBinding(e))
    || (Ending(list) != Nil && Others(Elements(list), |Elements(list)|, name))
  }

  lemma OthersFirst(e: Value, es: seq<Value>, i: nat, name: string)
    ensures Others([e] + es, i + 1, name) <==> IsBinding(e) && e.head.chars != name && Others(es, i, name)
  {
    var all := [e] + es;
    if Others(all, i + 1, name) {
      assert all[0] == e;
      forall j | 0 <= j < i ensures IsBinding(es[j]) && es[j].head.chars != name { assert all[j + 1] == es[j]; }
    }
  }

  lemma ThenSomeLater(e: Value, es: seq<Value>, name: string, p: Value -> bool)
    requires IsBinding(e) && e.head.chars != name && !p(e)
    ensures ThenSome([e] + es, name, p) <==> ThenSome(es, name, p)
  {
    hide Others;
    var all := [e] + es;
    if i: nat :| i < |all| && Others(all, i, name) && p(all[i]) {
      OthersFirst(e, es, i - 1, name);
      assert Others(es, i - 1, name) && p(es[i - 1]);
    }
    if i: nat :| i < |es| && Others(es, i, name) && p(es[i]) {
      OthersFirst(e, es, i, name);
      assert Others(all, i + 1, name) && p(all[i + 1]);
    }
  }

  /** Passing a binding of another name. */
  lemma Passing(list: Value, name: string, v: Value)
    requires list.Cons? && IsBinding(list.head) && list.head.head.chars != name
    ensures Binds(list, name, v) <==> Binds(list.tail, name, v)
    ensures Unbound(list, name) <==> Unbound(list.tail, name)
    ensures Broken(list, name) <==> Broken(list.tail, name)
  {
    hide Others, ThenSome;
    var rest := Elements(list.tail);
    ThenSomeLater(list.head, rest, name, e => e == Cons(Atom(name), v));
    ThenSomeLater(list.head, rest, name, e => !IsBinding(e));
    OthersFirst(list.head, rest, |rest|, name);
  }

  /** A list whose first element decides. */
  lemma Deciding(list: Value, name: string, v: Value)
    requires !list.Cons? || !IsBinding(list.head) || list.head.head.chars == name
    ensures Binds(list, name, v) <==> list.Cons? && list.head == Cons(Atom(name), v)
    ensures Unbound(list, name) <==> list == Nil
    ensures Broken(list, name) <==> list != Nil && !(list.Cons? && IsBinding(list.head))
  {
    var es := Elements(list);
    if list.Cons? {
      assert es[0] == list.head && Others(es, 0, name);
      assert forall i: nat :: i > 0 ==> !Others(es, i, name);
    }
  }

  /** `assoc` finds the value of the first binding of the name; it finds nothing exactly
      in a list of bindings of other names, and aborts exactly if something else comes
      before. */
  lemma {:induction false} AssocMeans(name: string, list: Value, v: Value)
    ensures Assoc(name, list) == Found(v) <==> Binds(list, name, v)
    ensures Assoc(name, list).Missing? <==> Unbound(list, name)
    ensures Assoc(name, list).Malformed? <==> Broken(list, name)
    decreases list
  {
    hide Binds, Unbound, Broken;
    if list.Cons? && IsBinding(list.head) && list.head.head.chars != name {
      Passing(list, name, v);
      AssocMeans(name, list.tail, v);
    } else {
      Deciding(list, name, v);
    }
  }

  // ----- evaluation -----

  /** A variable has the value its environment binds it to, and no other expression of
      one atom has a value. */
  lemma Variable(fuel: nat, forms: Value, env: Value, name: string, v: Value, s: State)
    ensures Binds(env, name, v) ==>
              && EvalStep(Cons(Cons(forms, env), Atom(name)), s) ==
                 Running(State(Cons(v, s.operands), s.conts, s.output))
              && Evaluate(fuel + 1, Cons(forms, env), Atom(name)) == Done(v, [])
    ensures Unbound(env, name) || Broken(env, name) ==>
              && EvalStep(Cons(Cons(forms, env), Atom(name)), s) == Crashed(s.output)
              && Evaluate(fuel + 1, Cons(forms, env), Atom(name)) == Stuck([])
  {
    hide Binds, Unbound, Broken;
    AssocMeans(name, env, v);
  }

  /** A pair whose operator is not the name of a special form, whatever else it is,
      evaluates its argument, then its operator, then applies. */
  lemma OrdinaryCall(fuel: nat, forms: Value, env: Value, f: Value, arg: Value, s: State)
    requires !f.Atom? || Unbound(forms, f.chars)
    ensures var envs := Cons(forms, env);
            EvalStep(Cons(envs, Cons(f, arg)), s) ==
            Running(State(s.operands,
                          Cons(Function(Eval, Cons(envs, arg)),
                               Cons(Function(Eval, Cons(envs, f)), Cons(Function(PopApply, Nil), s.conts))),
                          s.output))
    ensures var envs := Cons(forms, env);
            Evaluate(fuel + 1, envs, Cons(f, arg)) ==
            match Evaluate(fuel, envs, arg)
            case Done(va, oa) =>
              (match Evaluate(fuel, envs, f)
               case Done(vf, of) => After(oa + of, Call(fuel, vf, va))
               case Stuck(of) => Stuck(oa + of)
               case OutOfFuel => OutOfFuel)
            case Stuck(oa) => Stuck(oa)
            case OutOfFuel => OutOfFuel
  {
    hide Unbound, Assoc;
    if f.Atom? { AssocMeans(f.chars, forms, Nil); }
    var envs := Cons(forms, env);
    assert Evaluate(fuel + 1, envs, Cons(f, arg)) == EvaluateCall(fuel, envs, f, arg);
  }

  /** A pair whose operator is the name of a special form hands that form the
      environments and the unevaluated argument; forms that are no list abort. */
  lemma SpecialForm(fuel: nat, forms: Value, env: Value, name: string, form: Value, arg: Value, s: State)
    ensures var envs := Cons(forms, env);
            Binds(forms, name, form) ==>
              && EvalStep(Cons(envs, Cons(Atom(name), arg)), s) ==
                 Apply(form, State(Cons(Cons(envs, arg), s.operands), s.conts, s.output))
              && Evaluate(fuel + 1, envs, Cons(Atom(name), arg)) == Call(fuel, form, Cons(envs, arg))
    ensures var envs := Cons(forms, env);
            Broken(forms, name) ==>
              && EvalStep(Cons(envs, Cons(Atom(name), arg)), s) == Crashed(s.output)
              && Evaluate(fuel + 1, envs, Cons(Atom(name), arg)) == Stuck([])
  {
    hide Binds, Broken, Assoc, Apply;
    AssocMeans(name, forms, form);
  }

  // ----- closures -----

  /** The environment `inner` binds `param` to `arg` and is otherwise `outer`. */
  ghost predicate Extends(inner: Value, outer: Value, param: string, arg: Value) {
    && (forall v :: Binds(inner, param, v) <==> v == arg)
    && (forall name, v :: name != param ==> (Binds(inner, name, v) <==> Binds(outer, name, v)))
    && (forall name :: name != param ==> (Unbound(inner, name) <==> Unbound(outer, name)))
  }

  lemma OneMore(param: string, arg: Value, env: Value)
    ensures Extends(Cons(Cons(Atom(param), arg), env), env, param, arg)
  {
    hide Binds, Unbound, Broken;
    var inner := Cons(Cons(Atom(param), arg), env);
    forall v ensures Binds(inner, param, v) <==> v == arg { Deciding(inner, param, v); }
    forall name, v | name != param ensures Binds(inner, name, v) <==> Binds(env, name, v) { Passing(inner, name, v); }
    forall name | name != param ensures Unbound(inner, name) <==> Unbound(env, name) { Passing(inner, name, Nil); }
  }

  /** A closure object over `forms` and `env`. */
  function Closure(forms: Value, env: Value, param: string, body: Value): Value {
    Function(FunApply, Cons(Cons(forms, env), Cons(Atom(param), body)))
  }

  /** Applying a closure to an argument schedules its body, on the stacks it found, in
      its own environment with the parameter bound to the argument. */
  lemma ParameterIsBound(forms: Value, env: Value, param: string, body: Value, arg: Value, s: State)
    returns (inner: Value)
    ensures Extends(inner, env, param, arg)
    ensures Apply(Closure(forms, env, param, body), State(Cons(arg, s.operands), s.conts, s.output)) ==
            Running(State(s.operands, Cons(Function(Eval, Cons(Cons(forms, inner), body)), s.conts), s.output))
    ensures forall fuel: nat ::
              Call(fuel, Closure(forms, env, param, body), arg) == Evaluate(fuel, Cons(forms, inner), body)
  {
    hide Extends, Evaluate;
    OneMore(param, arg, env);
    inner := Bind(param, arg, env);
    var f, t := Closure(forms, env, param, body), State(Cons(arg, s.operands), s.conts, s.output);
    assert Apply(f, t) == ApplyCode(FunApply, f.data, t);
  }

  lemma ExtendsTwice(outer: Value, middle: Value, inner: Value, param: string, a: Value, b: Value)
    requires Extends(middle, outer, param, a) && Extends(inner, middle, param, b)
    ensures Extends(inner, outer, param, b)
  { }

  /** An inner parameter hides an outer one of the same name, and nothing else: when a
      closure made in the body of another has the same parameter, its body sees its own
      argument, and for all other names the outer closure's environment. */
  lemma Shadowing(forms: Value, env: Value, param: string, body: Value, body': Value, a: Value, b: Value, s: State)
    returns (middle: Value, inner: Value)
    ensures Apply(Closure(forms, env, param, body), State(Cons(a, s.operands), s.conts, s.output)) ==
            Running(State(s.operands, Cons(Function(Eval, Cons(Cons(forms, middle), body)), s.conts), s.output))
    ensures Apply(Closure(forms, middle, param, body'), State(Cons(b, s.operands), s.conts, s.output)) ==
            Running(State(s.operands, Cons(Function(Eval, Cons(Cons(forms, inner), body')), s.conts), s.output))
    ensures Extends(inner, env, param, b)
  {
    hide Extends, Apply;
    middle := ParameterIsBound(forms, env, param, body, a, s);
    inner := ParameterIsBound(forms, middle, param, body', b, s);
    ExtendsTwice(env, middle, inner, param, a, b);
  }

  /** Every application of a closure is a tail call: its body is next, with the parameter
      bound to the argument, after what argument and operator print. */
  lemma CallsAreTail(fuel: nat, forms: Value, env: Value, f: Value, arg: Value,
                     forms': Value, env': Value, param: string, body: Value) returns (inner: Value)
    requires !f.Atom? || Unbound(forms, f.chars)
    requires Clean(Cons(forms, env)) && Clean(Cons(f, arg))
    requires Evaluate(fuel, Cons(forms, env), arg).Done? && Evaluate(fuel, Cons(forms, env), f).Done?
    requires Evaluate(fuel, Cons(forms, env), f).value == Closure(forms', env', param, body)
    ensures var ra, rf := Evaluate(fuel, Cons(forms, env), arg), Evaluate(fuel, Cons(forms, env), f);
            && Extends(inner, env', param, ra.value)
            && TailCall(fuel, Frame(Cons(forms, env), Cons(f, arg)), Frame(Cons(forms', inner), body),
                        ra.output + rf.output)
  {
    hide Extends, Evaluate, Clean, Unbound, Binds, Broken;
    if f.Atom? { AssocMeans(f.chars, forms, Nil); }
    var va := Evaluate(fuel, Cons(forms, env), arg).value;
    OneMore(param, va, env');
    inner := Cons(Cons(Atom(param), va), env');
  }

  // ----- the language of the interpreters -----

  /** The special forms are `fun` and `quote`; the only global variable is `print_atom`. */
  lemma InitialNames(name: string, v: Value)
    ensures Binds(InitialForms(), name, v) <==>
            || (name == "fun" && v == Function(Fun, Nil)) || (name == "quote" && v == Function(Quote, Nil))
    ensures Unbound(InitialForms(), name) <==> name != "fun" && name != "quote"
    ensures Binds(InitialEnv(), name, v) <==> name == "print_atom" && v == Function(PrintAtom, Nil)
    ensures Unbound(InitialEnv(), name) <==> name != "print_atom"
  {
    hide Binds, Unbound, Broken;
    assert "fun" != "quote";
    AssocMeans(name, InitialForms(), v);
    AssocMeans(name, InitialEnv(), v);
    assert Assoc(name, InitialForms().tail) == if name == "quote" then Found(Function(Quote, Nil)) else Missing;
    assert Assoc(name, InitialForms()) ==
           if name == "fun" then Found(Function(Fun, Nil)) else Assoc(name, InitialForms().tail);
    assert Assoc(name, InitialEnv()) == if name == "print_atom" then Found(Function(PrintAtom, Nil)) else Missing;
  }

  /** `(quote e)` evaluates to `e` itself. */
  lemma QuoteLaw(fuel: nat, env: Value, e: Value)
    ensures Evaluate(fuel + 1, Cons(InitialForms(), env), Cons(Atom("quote"), e)) == Done(e, [])
  {
    hide Binds, Broken;
    InitialNames("quote", Function(Quote, Nil));
    SpecialForm(fuel, InitialForms(), env, "quote", Function(Quote, Nil), e, State(Nil, Nil, []));
  }

  /** `(fun (param body))` evaluates to the closure over the environments it is in. */
  lemma FunLaw(fuel: nat, env: Value, param: string, body: Value)
    ensures Evaluate(fuel + 1, Cons(InitialForms(), env), Cons(Atom("fun"), Cons(Atom(param), body))) ==
            Done(Closure(InitialForms(), env, param, body), [])
  {
    hide Binds, Broken;
    InitialNames("fun", Function(Fun, Nil));
    SpecialForm(fuel, InitialForms(), env, "fun", Function(Fun, Nil), Cons(Atom(param), body), State(Nil, Nil, []));
  }

  /** `((fun (param body)) arg)` prints what the argument prints and then does what the
      body does with the parameter bound to the argument's value. */
  lemma BetaLaw(fuel: nat, env: Value, param: string, body: Value, arg: Value) returns (inner: Value)
    requires fuel > 0 && Evaluate(fuel, Cons(InitialForms(), env), arg).Done?
    ensures var va := Evaluate(fuel, Cons(InitialForms(), env), arg);
            && Extends(inner, env, param, va.value)
            && Evaluate(fuel + 1, Cons(InitialForms(), env), Cons(Cons(Atom("fun"), Cons(Atom(param), body)), arg)) ==
               After(va.output, Evaluate(fuel, Cons(InitialForms(), inner), body))
  {
    hide Extends, Evaluate, Call;
    var forms := InitialForms();
    var va := Evaluate(fuel, Cons(forms, env), arg);
    FunLaw(fuel - 1, env, param, body);
    var s := State(Nil, Nil, []);
    OrdinaryCall(fuel, forms, env, Cons(Atom("fun"), Cons(Atom(param), body)), arg, s);
    inner := ParameterIsBound(forms, env, param, body, va.value, s);
    assert va.output + [] == va.output;
  }

  /** `(print_atom arg)` prints the value of the argument if that is an atom, and is
      stuck otherwise. */
  lemma PrintLaw(fuel: nat, env: Value, arg: Value)
    requires fuel > 0 && Binds(env, "print_atom", Function(PrintAtom, Nil))
    requires Evaluate(fuel, Cons(InitialForms(), env), arg).Done?
    ensures var va := Evaluate(fuel, Cons(InitialForms(), env), arg);
            Evaluate(fuel + 1, Cons(InitialForms(), env), Cons(Atom("print_atom"), arg)) ==
            if va.value.Atom? then Done(Nil, va.output + [va.value.chars]) else Stuck(va.output)
  {
    hide Binds, Unbound, Broken, Evaluate;
    assert "print_atom" != "fun" && "print_atom" != "quote";
    InitialNames("print_atom", Nil);
    var s := State(Nil, Nil, []);
    Variable(fuel - 1, InitialForms(), env, "print_atom", Function(PrintAtom, Nil), s);
    OrdinaryCall(fuel, InitialForms(), env, Atom("print_atom"), arg, s);
    var va := Evaluate(fuel, Cons(InitialForms(), env), arg);
    assert va.output + [] == va.output;
  }
}
