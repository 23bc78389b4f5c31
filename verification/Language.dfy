/** The values of the interpreted language and the machine that both
    interpreters run: one operand stack, one continuation stack, an output log.
    Objects are never changed once they can be seen by a program, so an object
    and everything it points to is one immutable value. */
module Language {

  /** The apply functions a function object can hold. */
  datatype Code = PopApply | Eval | PrintAtom | Quote | Fun | FunApply

  datatype Value =
    | Nil
    | Atom(chars: string)
    | Cons(head: Value, tail: Value)
    | Function(apply: Code, data: Value)

  /** What `assoc` finds: a binding, the end of the map, or a map that is not
      a list of pairs keyed by atoms (the interpreter aborts). */
  datatype Lookup = Found(value: Value) | Missing | Malformed

  function Assoc(name: string, bindings: Value): (r: Lookup)
    ensures r.Found? ==> Size(r.value) < Size(bindings)
  {
    match bindings
    case Nil => Missing
    case Cons(Cons(Atom(key), value), rest) => if key == name then Found(value) else Assoc(name, rest)
    case _ => Malformed
  }

  function Size(v: Value): nat {
    match v
    case Nil => 0
    case Atom(_) => 0
    case Cons(h, t) => 1 + Size(h) + Size(t)
    case Function(_, d) => 1 + Size(d)
  }

  function Max(a: nat, b: nat): nat { if a >= b then a else b }

  /** How deep a value nests. */
  function Height(v: Value): nat {
    match v
    case Nil => 0
    case Atom(_) => 0
    case Cons(h, t) => 1 + if Height(h) >= Height(t) then Height(h) else Height(t)
    case Function(_, d) => 1 + Height(d)
  }

  /** The nodes of a value as a tree. */
  function Weight(v: Value): nat {
    match v
    case Nil => 1
    case Atom(_) => 1
    case Cons(h, t) => 1 + Weight(h) + Weight(t)
    case Function(_, d) => 1 + Weight(d)
  }

  /** Stacks are lists; the top is the head. */
  datatype State = State(operands: Value, conts: Value, output: seq<string>)

  /** A step either leads to a state or aborts the process, after what was printed. */
  datatype Outcome = Running(state: State) | Crashed(output: seq<string>)

  /** What has been printed then. */
  function Printed(o: Outcome): seq<string> {
    match o
    case Running(s) => s.output
    case Crashed(printed) => printed
  }

  /** The number of operands that are not pairs: `pop_apply` consumes one. */
  function Plain(stack: Value): nat {
    match stack
    case Cons(h, t) => (if h.Cons? then 0 else 1) + Plain(t)
    case _ => 0
  }

  function Push(v: Value, s: State): State {
    s.(operands := Cons(v, s.operands))
  }

  function PushCont(f: Value, s: State): State {
    s.(conts := Cons(f, s.conts))
  }

  function EvalCont(envs: Value, expr: Value): Value {
    Function(Eval, Cons(envs, expr))
  }

  /** `apply`: run the code of a function object. */
  function Apply(f: Value, s: State): Outcome
    decreases Plain(s.operands), Size(f), 1
  {
    match f
    case Function(code, data) => ApplyCode(code, data, s)
    case _ => Crashed(s.output)
  }

  function ApplyCode(code: Code, data: Value, s: State): Outcome
    decreases Plain(s.operands), Size(data) + 1, 0
  {
    if code == Eval then
      EvalStep(data, s)
    else if !s.operands.Cons? then
      Crashed(s.output)
    else
      var top := s.operands.head;
      var popped := s.(operands := s.operands.tail);
      match code
      case PopApply => if top.Function? then Apply(top, popped) else Crashed(s.output)
      case PrintAtom =>
        if top.Atom? then Running(Push(Nil, popped.(output := s.output + [top.chars]))) else Crashed(s.output)
      case Quote => if top.Cons? then Running(Push(top.tail, popped)) else Crashed(s.output)
      case Fun => Running(Push(Function(FunApply, top), popped))
      case FunApply => EnterBody(data, top, popped)
  }

  /** `fun_apply_function`: continue with the closure's body, its parameter bound. */
  function EnterBody(data: Value, arg: Value, s: State): Outcome {
    match data
    case Cons(Cons(forms, env), Cons(Atom(param), body)) =>
      Running(PushCont(EvalCont(Cons(forms, Bind(param, arg, env)), body), s))
    case _ => Crashed(s.output)
  }

  function Bind(param: string, arg: Value, env: Value): Value {
    Cons(Cons(Atom(param), arg), env)
  }

  /** `eval`: look up an atom, hand a form its unevaluated argument, or schedule
      argument, function and application of an ordinary call. */
  function EvalStep(data: Value, s: State): Outcome
    decreases Plain(s.operands), Size(data), 2
  {
    match data
    case Cons(Cons(forms, env), Atom(name)) =>
      (match Assoc(name, env)
       case Found(v) => Running(Push(v, s))
       case _ => Crashed(s.output))
    case Cons(Cons(forms, env), Cons(fexpr, arg)) =>
      var envs := Cons(forms, env);
      (match FormOf(fexpr, forms)
       case Found(form) => assert Size(form) < Size(envs) < Size(data); Apply(form, Push(Cons(envs, arg), s))
       case Missing => Running(CallState(envs, fexpr, arg, s))
       case Malformed => Crashed(s.output))
    case _ => Crashed(s.output)
  }

  /** Argument first, then function, then application. */
  function CallState(envs: Value, fexpr: Value, arg: Value, s: State): State {
    PushCont(EvalCont(envs, arg), PushCont(EvalCont(envs, fexpr), PushCont(Function(PopApply, Nil), s)))
  }

  /** The special form an operator position names, if any. */
  function FormOf(fexpr: Value, forms: Value): (r: Lookup)
    ensures r.Found? ==> Size(r.value) < Size(forms)
  {
    if fexpr.Atom? then Assoc(fexpr.chars, forms) else Missing
  }

  /** One turn of the loop that pops a continuation and applies it. */
  function Step(s: State): Outcome
    requires s.conts.Cons?
  {
    Apply(s.conts.head, s.(conts := s.conts.tail))
  }

  /** At most `n` turns of the loop; it stops early when no continuation is left. */
  function Steps(n: nat, s: State): Outcome {
    if n == 0 || !s.conts.Cons? then Running(s)
    else match Step(s)
         case Running(s') => Steps(n - 1, s')
         case Crashed(o) => Crashed(o)
  }

  /** The step of an `eval` continuation. */
  lemma StepEval(s: State, envs: Value, expr: Value)
    requires s.conts.Cons? && s.conts.head == EvalCont(envs, expr)
    ensures Step(s) == EvalStep(Cons(envs, expr), s.(conts := s.conts.tail))
  {
    var f := EvalCont(envs, expr);
    assert Apply(f, s.(conts := s.conts.tail)) == ApplyCode(Eval, f.data, s.(conts := s.conts.tail));
  }

  /** The step of a `pop_apply` continuation, with an operand to pop. */
  lemma StepPopApply(s: State)
    requires s.conts.Cons? && s.conts.head == Function(PopApply, Nil) && s.operands.Cons?
    ensures Step(s) == Apply(s.operands.head, State(s.operands.tail, s.conts.tail, s.output))
  {
    var f := s.conts.head;
    assert Apply(f, s.(conts := s.conts.tail)) == ApplyCode(PopApply, Nil, s.(conts := s.conts.tail));
  }

  lemma {:induction false} StepsCompose(m: nat, n: nat, s: State)
    ensures Steps(m + n, s) ==
            match Steps(m, s) { case Running(s') => Steps(n, s') case Crashed(o) => Crashed(o) }
    decreases m
  {
    if m == 0 || !s.conts.Cons? {
    } else if Step(s).Running? {
      StepsCompose(m - 1, n, Step(s).state);
    }
  }
}
