/** What applying a function costs besides what it does: how deep calls of `apply`
    nest, and how many nodes of values its allocations can have to account for. */
module Costs {
  import opened Language
  import opened BigStep
  import opened Syntax
  import opened Session

  // ----- nesting -----

  /** How deep calls of `apply` nest when `f` is applied. */
  function ApplyDepth(f: Value, s: State): nat
    decreases Plain(s.operands), Size(f), 1
  {
    match f
    case Function(code, data) => 1 + CodeDepth(code, data, s)
    case _ => 1
  }

  function CodeDepth(code: Code, data: Value, s: State): nat
    decreases Plain(s.operands), Size(data) + 1, 0
  {
    if code == Eval then EvalDepth(data, s)
    else if code == PopApply && s.operands.Cons? then
      if s.operands.head.Function? then ApplyDepth(s.operands.head, s.(operands := s.operands.tail)) else 1
    else 0
  }

  function EvalDepth(data: Value, s: State): nat
    decreases Plain(s.operands), Size(data), 2
  {
    match data
    case Cons(Cons(forms, env), Cons(fexpr, arg)) =>
      (match FormOf(fexpr, forms)
       case Found(form) =>
         assert Size(form) < Size(Cons(forms, env)) < Size(data);
         ApplyDepth(form, Push(Cons(Cons(forms, env), arg), s))
       case _ => 0)
    case _ => 0
  }

  /** A continuation: its data is a value of the language. */
  predicate ContOk(c: Value) {
    if c.Function? then Clean(c.data) else Clean(c)
  }

  predicate ContsOk(conts: Value) {
    conts == Nil || (conts.Cons? && ContOk(conts.head) && ContsOk(conts.tail))
  }

  /** The operands are values of the language and the continuations are over such. */
  predicate StateOk(s: State) {
    Clean(s.operands) && ContsOk(s.conts)
  }

  /** Applying a value of the language calls no other function. */
  lemma ValuesDoNotNest(f: Value, s: State)
    requires Clean(f)
    ensures ApplyDepth(f, s) == 1
  { }

  /** The forms and variables of clean environments are clean. */
  lemma CleanForm(fexpr: Value, forms: Value)
    requires Clean(forms)
    ensures FormOf(fexpr, forms).Found? ==> Clean(FormOf(fexpr, forms).value)
  {
    if fexpr.Atom? { AssocClean(fexpr.chars, forms); }
  }

  /** When a continuation's turn calls `apply` twice. */
  predicate Nested(c: Value, s: State) {
    c.Function? &&
    match c.apply
    case PopApply => s.operands.Cons?
    case Eval =>
      (match c.data
       case Cons(Cons(forms, _), Cons(fexpr, _)) => FormOf(fexpr, forms).Found?
       case _ => false)
    case _ => false
  }

  /** A turn of the loop nests two calls exactly if it pops an operand to apply or
      hands a special form its argument, and never more. */
  lemma TurnDepth(s: State)
    requires StateOk(s) && s.conts.Cons?
    ensures ApplyDepth(s.conts.head, s.(conts := s.conts.tail)) == if Nested(s.conts.head, s) then 2 else 1
  {
    var c, t := s.conts.head, s.(conts := s.conts.tail);
    if c.Function? {
      assert ApplyDepth(c, t) == 1 + CodeDepth(c.apply, c.data, t);
      if c.apply == PopApply && s.operands.Cons? {
        var top, popped := s.operands.head, t.(operands := t.operands.tail);
        assert Clean(top);
        if top.Function? { ValuesDoNotNest(top, popped); }
      } else if c.apply == Eval && Nested(c, s) {
        var envs, expr := c.data.head, c.data.tail;
        assert Clean(envs) && Clean(expr);
        CleanForm(expr.head, envs.head);
        ValuesDoNotNest(FormOf(expr.head, envs.head).value, Push(Cons(envs, expr.tail), t));
      }
    }
  }

  lemma PairClean(a: Value, b: Value)
    ensures Clean(Cons(a, b)) <==> Clean(a) && Clean(b)
  { }

  lemma PushesOk(v: Value, c: Value, s: State)
    requires StateOk(s)
    ensures Clean(v) ==> StateOk(Push(v, s))
    ensures ContOk(c) ==> StateOk(PushCont(c, s))
  { }

  lemma EvalContOk(envs: Value, expr: Value)
    requires Clean(envs) && Clean(expr)
    ensures ContOk(EvalCont(envs, expr))
  {
    PairClean(envs, expr);
  }

  lemma ApplyKeeps(f: Value, s: State)
    requires StateOk(s) && Clean(f) && Apply(f, s).Running?
    ensures StateOk(Apply(f, s).state)
  {
    hide StateOk, ContOk;
    var code, data := f.apply, f.data;
    assert Apply(f, s) == ApplyCode(code, data, s);
    var top, popped := s.operands.head, s.(operands := s.operands.tail);
    PoppedOk(s);
    PushesOk(Nil, Nil, popped.(output := popped.output + if top.Atom? then [top.chars] else []));
    match code {
      case PrintAtom =>
      case Quote =>
        PairClean(top.head, top.tail);
        PushesOk(top.tail, Nil, popped);
      case Fun => PushesOk(Function(FunApply, top), Nil, popped);
      case FunApply => BodyOk(data, top, popped);
    }
  }

  lemma PoppedOk(s: State)
    requires StateOk(s) && s.operands.Cons?
    ensures Clean(s.operands.head) && StateOk(s.(operands := s.operands.tail))
    ensures forall o :: StateOk(s.(operands := s.operands.tail, output := o))
  { }

  lemma BodyOk(data: Value, arg: Value, s: State)
    requires StateOk(s) && Clean(data) && Clean(arg) && EnterBody(data, arg, s).Running?
    ensures StateOk(EnterBody(data, arg, s).state)
  {
    hide StateOk, ContOk;
    var forms, env, param, body := data.head.head, data.head.tail, data.tail.head, data.tail.tail;
    PairClean(data.head, data.tail);
    PairClean(forms, env);
    PairClean(param, body);
    PairClean(param, arg);
    PairClean(Cons(param, arg), env);
    var envs := Cons(forms, Bind(param.chars, arg, env));
    PairClean(forms, Bind(param.chars, arg, env));
    EvalContOk(envs, body);
    PushesOk(Nil, EvalCont(envs, body), s);
  }

  lemma EvalKeeps(data: Value, s: State)
    requires StateOk(s) && Clean(data) && EvalStep(data, s).Running?
    ensures StateOk(EvalStep(data, s).state)
  {
    hide StateOk, ContOk;
    var envs, expr := data.head, data.tail;
    PairClean(envs, expr);
    PairClean(envs.head, envs.tail);
    if expr.Atom? {
      AssocClean(expr.chars, envs.tail);
      PushesOk(Assoc(expr.chars, envs.tail).value, Nil, s);
    } else {
      var fexpr, arg := expr.head, expr.tail;
      PairClean(fexpr, arg);
      PairClean(envs, arg);
      CleanForm(fexpr, envs.head);
      match FormOf(fexpr, envs.head) {
        case Found(form) =>
          PushesOk(Cons(envs, arg), Nil, s);
          ApplyKeeps(form, Push(Cons(envs, arg), s));
        case Missing =>
          var s1 := PushCont(Function(PopApply, Nil), s);
          PopApplyOk();
          PushesOk(Nil, Function(PopApply, Nil), s);
          EvalContOk(envs, fexpr);
          PushesOk(Nil, EvalCont(envs, fexpr), s1);
          EvalContOk(envs, arg);
          PushesOk(Nil, EvalCont(envs, arg), PushCont(EvalCont(envs, fexpr), s1));
      }
    }
  }

  lemma PopApplyOk()
    ensures ContOk(Function(PopApply, Nil))
  { }

  /** Turns of the loop keep states in order. */
  lemma StepKeeps(s: State)
    requires StateOk(s) && s.conts.Cons? && Step(s).Running?
    ensures StateOk(Step(s).state)
  {
    var c, t := s.conts.head, s.(conts := s.conts.tail);
    assert Step(s) == Apply(c, t) == ApplyCode(c.apply, c.data, t);
    if c.apply == Eval {
      EvalKeeps(c.data, t);
    } else if c.apply == PopApply {
      PoppedOk(t);
      ApplyKeeps(t.operands.head, t.(operands := t.operands.tail));
    } else {
      ApplyKeeps(c, t);
    }
  }

  /** The loop starts in such a state. */
  lemma ScheduledOk(tokens: seq<Token>, s: State)
    requires Parse(tokens).Ok? && StateOk(s)
    ensures StateOk(PushCont(EvalCont(InitialEnvs(), Parse(tokens).value), s))
  {
    var v := Parse(tokens).value;
    PrintParse(tokens);
    ExprIsClean(v);
    InitialIsClean();
    EvalContOk(InitialEnvs(), v);
    PushesOk(Nil, EvalCont(InitialEnvs(), v), s);
  }

  // ----- memory -----

  /** The nodes of the two stacks and of other rooted values. */
  function LoadOf(s: State, others: nat): nat {
    Weight(s.operands) + Weight(s.conts) + others
  }

  /** Enough for the allocations of one apply function on `data` nodes of data, when
      the rooted values have `load` nodes. */
  function Simple(load: nat, data: nat): nat {
    3 * load + 6 * data + 20
  }

  function ApplySpace(f: Value, s: State, others: nat): nat
    decreases Plain(s.operands), Size(f), 1
  {
    match f
    case Function(code, data) => CodeSpace(code, data, s, others)
    case _ => 0
  }

  function CodeSpace(code: Code, data: Value, s: State, others: nat): nat
    decreases Plain(s.operands), Size(data) + 1, 0
  {
    if code == Eval then EvalSpace(data, s, others)
    else if code == PopApply && s.operands.Cons? && s.operands.head.Function? then
      ApplySpace(s.operands.head, s.(operands := s.operands.tail), others)
    else Simple(LoadOf(s, others), Weight(data))
  }

  function EvalSpace(data: Value, s: State, others: nat): nat
    decreases Plain(s.operands), Size(data), 2
  {
    var simple := Simple(LoadOf(s, others), Weight(data));
    match data
    case Cons(Cons(forms, env), Cons(fexpr, arg)) =>
      (match FormOf(fexpr, forms)
       case Found(form) =>
         assert Size(form) < Size(Cons(forms, env)) < Size(data);
         Max(simple, ApplySpace(form, Push(Cons(Cons(forms, env), arg), s), others))
       case _ => simple)
    case _ => simple
  }

  function StepSpace(s: State, others: nat): nat
    requires s.conts.Cons?
  {
    ApplySpace(s.conts.head, s.(conts := s.conts.tail), others)
  }

  /** Applying a value of the language needs memory in proportion to it and the rooted values. */
  lemma ValueSpace(f: Value, s: State, others: nat)
    requires Clean(f)
    ensures ApplySpace(f, s, others) <= Simple(LoadOf(s, others), Weight(f))
  { }

  /** A turn of the loop needs memory in proportion to the rooted values. */
  lemma TurnSpace(s: State, others: nat)
    requires StateOk(s) && s.conts.Cons?
    ensures StepSpace(s, others) <= 9 * LoadOf(s, others) + 20
  {
    hide Clean, StateOk;
    var c, t := s.conts.head, s.(conts := s.conts.tail);
    assert Weight(s.conts) == 1 + Weight(c) + Weight(t.conts);
    if c.Function? {
      assert ApplySpace(c, t, others) == CodeSpace(c.apply, c.data, t, others) && Weight(c) == 1 + Weight(c.data);
      if c.apply == Eval {
        ContOkHead(s);
        EvalTurnSpace(c.data, t, others);
      } else if c.apply == PopApply && s.operands.Cons? {
        var top, popped := s.operands.head, t.(operands := t.operands.tail);
        PoppedOk(s);
        ValueSpace(top, popped, others);
      }
    }
  }

  lemma ContOkHead(s: State)
    requires StateOk(s) && s.conts.Cons? && s.conts.head.Function?
    ensures Clean(s.conts.head.data)
  { }

  lemma EvalTurnSpace(data: Value, s: State, others: nat)
    requires Clean(data)
    ensures EvalSpace(data, s, others) <= 9 * (LoadOf(s, others) + Weight(data)) + 20
  {
    hide Clean, ApplySpace;
    match data {
      case Cons(Cons(forms, env), Cons(fexpr, arg)) =>
        assert Weight(data) == 3 + Weight(forms) + Weight(env) + Weight(fexpr) + Weight(arg);
        if FormOf(fexpr, forms).Found? {
          var form := FormOf(fexpr, forms).value;
          PairClean(data.head, data.tail);
          PairClean(forms, env);
          CleanForm(fexpr, forms);
          AssocWeight(fexpr.chars, forms);
          var given := Cons(Cons(forms, env), arg);
          assert Weight(given) == 2 + Weight(forms) + Weight(env) + Weight(arg);
          assert Weight(Push(given, s).operands) == 1 + Weight(given) + Weight(s.operands);
          ValueSpace(form, Push(given, s), others);
        }
      case _ =>
    }
  }

  /** Enough for `n` turns of the loop. */
  function StepsSpace(n: nat, s: State, others: nat): nat {
    if n == 0 || !s.conts.Cons? then 0
    else Max(StepSpace(s, others), match Step(s) case Running(t) => StepsSpace(n - 1, t, others) case Crashed(_) => 0)
  }

  /** Enough to read an expression and schedule it. */
  function ReadSpace(tokens: seq<Token>, load: nat): nat {
    var p, read := Parse(tokens), load + 4 * |tokens| + 3;
    if p.SyntaxError? then read else Max(read, 2 * load + Weight(InitialEnvs()) + Weight(p.value) + 2)
  }

  /** Enough for a session. */
  function SessionSpace(tokens: seq<Token>, budget: nat, s: State, others: nat): nat
    decreases |tokens|
  {
    var p, read := Parse(tokens), ReadSpace(tokens, LoadOf(s, others));
    if p.SyntaxError? then read
    else
      var s1 := PushCont(EvalCont(InitialEnvs(), p.value), s);
      var t := Steps(budget, s1);
      var more := if t.Crashed? || t.state.conts.Cons? || !t.state.operands.Cons? then 0
                  else SessionSpace(p.rest, budget, t.state.(operands := t.state.operands.tail), others);
      Max(read, Max(StepsSpace(budget, s1, others), more))
  }

  lemma {:induction false} AssocWeight(name: string, bindings: Value)
    ensures Assoc(name, bindings).Found? ==> Weight(Assoc(name, bindings).value) < Weight(bindings)
    decreases bindings
  {
    match bindings {
      case Cons(Cons(Atom(key), value), rest) => if key != name { AssocWeight(name, rest); }
      case _ =>
    }
  }

  // ----- output -----

  /** Nothing that was printed is taken back. */
  lemma {:induction false} OutputGrows(f: Value, s: State)
    ensures s.output <= Printed(Apply(f, s))
    decreases Plain(s.operands), Size(f), 1
  {
    if f.Function? { CodeOutputGrows(f.apply, f.data, s); }
  }

  lemma {:induction false} CodeOutputGrows(code: Code, data: Value, s: State)
    ensures s.output <= Printed(ApplyCode(code, data, s))
    decreases Plain(s.operands), Size(data) + 1, 0
  {
    if code == Eval {
      EvalOutputGrows(data, s);
    } else if code == PopApply && s.operands.Cons? && s.operands.head.Function? {
      OutputGrows(s.operands.head, s.(operands := s.operands.tail));
    }
  }

  lemma {:induction false} EvalOutputGrows(data: Value, s: State)
    ensures s.output <= Printed(EvalStep(data, s))
    decreases Plain(s.operands), Size(data), 2
  {
    match data {
      case Cons(Cons(forms, env), Cons(fexpr, arg)) =>
        if FormOf(fexpr, forms).Found? {
          assert Size(FormOf(fexpr, forms).value) < Size(Cons(forms, env)) < Size(data);
          OutputGrows(FormOf(fexpr, forms).value, Push(Cons(Cons(forms, env), arg), s));
        }
      case _ =>
    }
  }

  lemma {:induction false} StepsOutputGrows(n: nat, s: State)
    ensures s.output <= Printed(Steps(n, s))
  {
    if n > 0 && s.conts.Cons? {
      OutputGrows(s.conts.head, s.(conts := s.conts.tail));
      if Step(s).Running? { StepsOutputGrows(n - 1, Step(s).state); }
    }
  }

  lemma {:induction false} SessionOutputGrows(tokens: seq<Token>, budget: nat, s: State)
    ensures s.output <= RunSession(tokens, budget, s).output
    decreases |tokens|
  {
    var p := Parse(tokens);
    if p.Ok? {
      var s1 := PushCont(EvalCont(InitialEnvs(), p.value), s);
      StepsOutputGrows(budget, s1);
      var t := Steps(budget, s1);
      if t.Running? && !t.state.conts.Cons? && t.state.operands.Cons? {
        SessionOutputGrows(p.rest, budget, t.state.(operands := t.state.operands.tail));
      }
    }
  }
}
