/** A whole session of either interpreter: read an expression, run it, drop its
    value, again. It only ends by aborting, at the latest at the end of the input. */
module Session {
  import opened Language
  import opened Syntax
  import opened BigStep

  function InitialForms(): Value {
    Cons(Cons(Atom("fun"), Function(Fun, Nil)), Cons(Cons(Atom("quote"), Function(Quote, Nil)), Nil))
  }

  function InitialEnv(): Value {
    Cons(Cons(Atom("print_atom"), Function(PrintAtom, Nil)), Nil)
  }

  function InitialEnvs(): Value {
    Cons(InitialForms(), InitialEnv())
  }

  datatype SessionResult = Aborted(output: seq<string>) | Busy(output: seq<string>)

  /** What the interpreter does when no expression gets more than `budget` steps. */
  function RunSession(tokens: seq<Token>, budget: nat, s: State): SessionResult
    decreases |tokens|
  {
    var p := Parse(tokens);
    if p.SyntaxError? then Aborted(s.output)
    else match Steps(budget, PushCont(EvalCont(InitialEnvs(), p.value), s))
         case Crashed(o) => Aborted(o)
         case Running(t) =>
           if t.conts.Cons? then Busy(t.output)
           else if !t.operands.Cons? then Aborted(t.output)
           else RunSession(p.rest, budget, t.(operands := t.operands.tail))
  }

  /** The values of the expressions a session finishes, which it drops. */
  function Dropped(tokens: seq<Token>, budget: nat, s: State): seq<Value>
    decreases |tokens|
  {
    var p := Parse(tokens);
    if p.SyntaxError? then []
    else
      var t := Steps(budget, PushCont(EvalCont(InitialEnvs(), p.value), s));
      if t.Crashed? || t.state.conts.Cons? || !t.state.operands.Cons? then []
      else [t.state.operands.head] + Dropped(p.rest, budget, t.state.(operands := t.state.operands.tail))
  }

  datatype SessionMeaning = Prints(output: seq<string>) | Unknown

  /** What a session prints before it aborts, by the big-step semantics. */
  function Denotation(tokens: seq<Token>, fuel: nat): SessionMeaning
    decreases |tokens|
  {
    var p := Parse(tokens);
    if p.SyntaxError? then Prints([])
    else match Evaluate(fuel, InitialEnvs(), p.value)
         case Stuck(o) => Prints(o)
         case OutOfFuel => Unknown
         case Done(_, o) =>
           (match Denotation(p.rest, fuel)
            case Prints(o') => Prints(o + o')
            case Unknown => Unknown)
  }

  lemma {:induction false} ExprIsClean(v: Value)
    requires IsExpr(v)
    ensures Clean(v)
  {
    if v.Cons? { ExprIsClean(v.head); ExprIsClean(v.tail); }
  }

  lemma InitialIsClean()
    ensures Clean(InitialEnvs())
  {
    assert Clean(InitialForms().tail.head) && Clean(InitialForms().head) && Clean(InitialEnv().head);
    assert Clean(InitialForms().tail) && Clean(InitialForms()) && Clean(InitialEnv());
  }

  /** Once the continuations are used up, more steps change nothing. */
  lemma {:induction false} StopsThere(m: nat, b: nat, s: State)
    requires m <= b
    ensures Steps(m, s).Crashed? ==> Steps(b, s) == Steps(m, s)
    ensures Steps(m, s).Running? && !Steps(m, s).state.conts.Cons? ==> Steps(b, s) == Steps(m, s)
  {
    StepsCompose(m, b - m, s);
  }

  /** Within `budget` steps from `s` the machine has finished as `r` says, if it
      takes at most `m` steps, and otherwise is still running. */
  predicate Performs(budget: nat, m: nat, fuel: nat, r: Result, s: State, operands: Value) {
    var t := Steps(budget, s);
    if budget < m || (r.OutOfFuel? && budget < fuel) then t.Running? && t.state.conts.Cons?
    else match r
         case Done(v, o) => t == Running(State(Cons(v, operands), Nil, s.output + o))
         case Stuck(o) => t == Crashed(s.output + o)
         case OutOfFuel => true
  }

  lemma ExpressionRuns(fuel: nat, expr: Value, s: State) returns (m: nat)
    requires IsExpr(expr) && s.conts == Nil
    ensures forall budget: nat ::
              Performs(budget, m, fuel, Evaluate(fuel, InitialEnvs(), expr), PushCont(EvalCont(InitialEnvs(), expr), s),
                       s.operands)
  {
    InitialIsClean();
    ExprIsClean(expr);
    var envs := InitialEnvs();
    var s' := PushCont(EvalCont(envs, expr), s);
    var r := Evaluate(fuel, envs, expr);
    var n := Simulate(fuel, envs, expr, s', s.operands, Nil);
    if r.Stuck? { CrashStep(n, s', Nil, s'.output + r.output); }
    m := if r.Stuck? then n + 1 else n;
    forall budget: nat ensures Performs(budget, m, fuel, r, s', s.operands) {
      if budget < n { AboveBefore(budget, n, s', Nil); }
      if m <= budget { StopsThere(m, budget, s'); }
    }
  }

  /** An expression that ends has left its value on the operands it found. */
  lemma ExpressionEnds(budget: nat, expr: Value, s: State)
    requires IsExpr(expr) && s.conts == Nil
    ensures var t := Steps(budget, PushCont(EvalCont(InitialEnvs(), expr), s));
            t.Running? && !t.state.conts.Cons? ==>
              t.state.conts == Nil && t.state.operands.Cons? && t.state.operands.tail == s.operands
  {
    var r := Evaluate(budget + 1, InitialEnvs(), expr);
    var m := ExpressionRuns(budget + 1, expr, s);
    assert Performs(budget, m, budget + 1, r, PushCont(EvalCont(InitialEnvs(), expr), s), s.operands);
  }

  lemma CrashStep(m: nat, s: State, below: Value, output: seq<string>)
    requires CrashesAbove(m, s, below, output)
    ensures Steps(m + 1, s) == Crashed(output)
  {
    StepsCompose(m, 1, s);
  }

  /** A session that ends has printed what the semantics says. */
  lemma {:induction false} SessionSound(tokens: seq<Token>, budget: nat, s: State)
    requires s.conts == Nil && RunSession(tokens, budget, s).Aborted?
    ensures var d := Denotation(tokens, budget + 1);
            d.Prints? && RunSession(tokens, budget, s).output == s.output + d.output
    decreases |tokens|
  {
    var p := Parse(tokens);
    if p.Ok? {
      PrintParse(tokens);
      var r := Evaluate(budget + 1, InitialEnvs(), p.value);
      var m := ExpressionRuns(budget + 1, p.value, s);
      assert Performs(budget, m, budget + 1, r, PushCont(EvalCont(InitialEnvs(), p.value), s), s.operands);
      if r.Done? {
        var s1 := State(s.operands, Nil, s.output + r.output);
        SessionSound(p.rest, budget, s1);
        var o' := Denotation(p.rest, budget + 1).output;
        assert s.output + (r.output + o') == s1.output + o';
      }
    } else {
      assert s.output + [] == s.output;
    }
  }

  /** What the semantics says a session prints is printed, given enough steps. */
  lemma {:induction false} SessionComplete(tokens: seq<Token>, fuel: nat, s: State) returns (enough: nat)
    requires s.conts == Nil && Denotation(tokens, fuel).Prints?
    ensures forall budget: nat :: enough <= budget ==>
              RunSession(tokens, budget, s) == Aborted(s.output + Denotation(tokens, fuel).output)
    decreases |tokens|
  {
    var p := Parse(tokens);
    if p.SyntaxError? {
      assert s.output + [] == s.output;
      enough := 0;
    } else {
      PrintParse(tokens);
      var r := Evaluate(fuel, InitialEnvs(), p.value);
      var m := ExpressionRuns(fuel, p.value, s);
      var s' := PushCont(EvalCont(InitialEnvs(), p.value), s);
      enough := m;
      if r.Done? {
        var s1 := State(s.operands, Nil, s.output + r.output);
        var more := SessionComplete(p.rest, fuel, s1);
        enough := m + more;
        var o' := Denotation(p.rest, fuel).output;
        assert s.output + (r.output + o') == s1.output + o';
      }
      forall budget: nat | enough <= budget
        ensures RunSession(tokens, budget, s) == Aborted(s.output + Denotation(tokens, fuel).output)
      {
        assert Performs(budget, m, fuel, r, s', s.operands);
      }
    }
  }
}
