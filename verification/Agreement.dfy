/** The two interpreters are interchangeable. */
module Agreement {
  import opened Language
  import opened Objects
  import opened Session
  import Syntax
  import opened Pointers
  import opened Marking
  import opened Collector
  import opened Costs
  import Gcl
  import RclMain

  /** On every input the garbage-collected and the reference-counted interpreter end
      the same way after printing the same, or the collector's heap is full of live
      objects: then it printed a first part, and the nodes the session may have to
      keep are not below the limit. */
  method RunBoth(tokens: seq<Syntax.Token>, budget: nat)
    returns (g: Result<()>, printed: seq<string>, r: Result<()>, printed': seq<string>)
    ensures g != Failure(OutOfMemory) ==> (g.Success? <==> r.Success?) && printed == printed'
    ensures g == Failure(OutOfMemory) ==>
              printed <= printed' && LIMIT <= SessionSpace(tokens, budget, State(Nil, Nil, []), Gcl.MAIN_WEIGHT)
    ensures RunSession(tokens, budget, State(Nil, Nil, [])) == if r.Success? then Busy(printed') else Aborted(printed')
  {
    var rt, m;
    ghost var deepest, depths, deepest';
    rt, g, deepest := Gcl.Interpret(tokens, budget);
    printed := rt.output;
    m, r, depths, deepest' := RclMain.Interpret(tokens, budget);
    printed' := m.output;
  }

  /** From the same heap, marks and root, pointer reversal and recursion mark the same
      objects and leave the same pointers. */
  method MarkersAgree(a: Runtime, b: Runtime, root: Ptr)
    requires a != b && a.heap == b.heap && a.marked == b.marked
    requires Whole(a.heap) && root in a.heap && ClosedSet(Kids(a.heap), a.marked)
    modifies a`heap, a`marked, a`tailIsNext, b`marked
    ensures a.marked == b.marked && a.heap == b.heap == old(a.heap)
  {
    a.Mark(root);
    b.RecursiveMark(root, {});
  }
}
