/** Tail calls take no continuation space: the body of a closure is entered with
    exactly the continuation stack its application expression started with. */
module TailCalls {
  import opened Language
  import opened BigStep

  /** An expression about to be evaluated in its environments. */
  datatype Frame = Frame(envs: Value, expr: Value)

  /** The machine is about to evaluate `f` on top of two stacks. */
  function Entering(f: Frame, operands: Value, conts: Value, output: seq<string>): State {
    State(operands, Cons(EvalCont(f.envs, f.expr), conts), output)
  }

  /** `from` is an ordinary application whose function evaluates to a closure;
      `to` is the closure's body with the parameter bound to the argument. */
  ghost predicate TailCall(fuel: nat, from: Frame, to: Frame, printed: seq<string>) {
    && from.envs.Cons? && from.expr.Cons? && FormOf(from.expr.head, from.envs.head).Missing?
    && Clean(from.envs) && Clean(from.expr)
    && var ra, rf := Evaluate(fuel, from.envs, from.expr.tail), Evaluate(fuel, from.envs, from.expr.head);
       && ra.Done? && rf.Done? && IsClosure(rf.value)
       && printed == ra.output + rf.output
       && var data := rf.value.data;
          && to == Frame(Cons(data.head.head, Bind(data.tail.head.chars, ra.value, data.head.tail)), data.tail.tail)
  }

  /** A closure body starts on the very stacks its application started on. */
  lemma TailCallReusesStack(fuel: nat, from: Frame, to: Frame, printed: seq<string>,
                            operands: Value, conts: Value, output: seq<string>) returns (m: nat)
    requires TailCall(fuel, from, to, printed)
    ensures m > 0
    ensures Reaches(m, Entering(from, operands, conts, output), Entering(to, operands, conts, output + printed), conts)
    ensures Clean(to.envs) && Clean(to.expr)
  {
    var s := Entering(from, operands, conts, output);
    StepEval(s, from.envs, from.expr);
    var k1 := Cons(Function(PopApply, Nil), conts);
    var k2 := Cons(EvalCont(from.envs, from.expr.head), k1);
    var s1 := Step(s).state;
    var ra := Evaluate(fuel, from.envs, from.expr.tail);
    var m1 := Simulate(fuel, from.envs, from.expr.tail, s1, operands, k2);
    StaysAboveLower(m1, s1, conts, k2);
    var t := State(Cons(ra.value, operands), k2, output + ra.output);
    var rf := Evaluate(fuel, from.envs, from.expr.head);
    var m2 := Simulate(fuel, from.envs, from.expr.head, t, t.operands, k1);
    StaysAboveLower(m2, t, conts, k1);
    var u := State(Cons(rf.value, t.operands), k1, t.output + rf.output);
    assert u.output == output + printed;
    StepPopApply(u);
    var v := Entering(to, operands, conts, output + printed);
    OneStep(u, v, conts);
    ReachesCompose(m2, 1, t, u, conts);
    ReachesCompose(m1, m2 + 1, s1, t, conts);
    OneStep(s, s1, conts);
    ReachesCompose(1, m1 + (m2 + 1), s, s1, conts);
    var data := rf.value.data;
    assert Clean(data) && Clean(data.head) && Clean(data.tail);
    assert Clean(Cons(data.tail.head, ra.value));
    m := 1 + (m1 + (m2 + 1));
  }

  /** `frames` are successive tail calls; `printed[i]` is what the i-th prints. */
  ghost predicate TailChain(fuel: nat, frames: seq<Frame>, printed: seq<seq<string>>) {
    && |frames| == |printed| + 1
    && forall i :: 0 <= i < |printed| ==> TailCall(fuel, frames[i], frames[i + 1], printed[i])
  }

  function Concat(parts: seq<seq<string>>): seq<string> {
    if parts == [] then [] else Concat(parts[..|parts| - 1]) + parts[|parts| - 1]
  }

  /** However many tail calls follow each other, each body is entered with the
      operand and continuation stacks of the first application. */
  lemma {:induction false} TailChainConstantSpace(fuel: nat, frames: seq<Frame>, printed: seq<seq<string>>,
                                                  operands: Value, conts: Value, output: seq<string>) returns (m: nat)
    requires TailChain(fuel, frames, printed)
    ensures m >= |printed|
    ensures Reaches(m, Entering(frames[0], operands, conts, output),
                    Entering(frames[|printed|], operands, conts, output + Concat(printed)), conts)
    decreases |printed|
  {
    var s := Entering(frames[0], operands, conts, output);
    if printed == [] {
      assert output + [] == output;
      m := 0;
    } else {
      var n := |printed| - 1;
      var m1 := TailChainConstantSpace(fuel, frames[..n + 1], printed[..n], operands, conts, output);
      var out := output + Concat(printed[..n]);
      var t := Entering(frames[n], operands, conts, out);
      var m2 := TailCallReusesStack(fuel, frames[n], frames[n + 1], printed[n], operands, conts, out);
      ReachesCompose(m1, m2, s, t, conts);
      assert out + printed[n] == output + Concat(printed);
      m := m1 + m2;
    }
  }
}
