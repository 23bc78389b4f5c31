/** The two-thread example program of the barrier: two threads compute a recurrence
    in shared variables that only the barrier protects. */
module BarrierClient {
  import opened Barrier

  const ROUNDS := 30

  /** Where a thread is. `First`, `Middle`, `Loop` and `Last` are calls of `barrier`. */
  datatype Loc =
    | First | ReadX1 | ReadX2 | WriteY | Middle | ReadY1 | ReadY2 | WriteX | WriteI | Loop | LoadI | Last | Reset | End

  /** `count` is the loop counter: `N` in the first thread, `m` in the second. */
  datatype Thread = Thread(loc: Loc, a1: int, a2: int, count: int)

  datatype Mem = Mem(x1: int, x2: int, y1: int, y2: int, i: int)

  datatype Program = Program(bar: System, mem: Mem, one: Thread, two: Thread)

  function Begin(mem: Mem, one: Thread, two: Thread): Program {
    Program(Start(2, {1, 2}), mem, one.(loc := First), two.(loc := First))
  }

  predicate AtBarrier(l: Loc) {
    l == First || l == Middle || l == Loop || l == Last
  }

  /** The test of the `while` loop. */
  function Head(count: int): Loc {
    if count < ROUNDS then ReadX1 else Last
  }

  /** What follows a call of `barrier`. */
  function Past(t: Tid, th: Thread): Thread {
    match th.loc
    case First => th.(loc := Head(0), count := 0)
    case Middle => th.(loc := ReadY1)
    case Loop => th.(loc := if t == 1 then Head(th.count) else LoadI)
    case Last => th.(loc := if t == 1 then Reset else End)
    case _ => th
  }

  /** The coefficient in the thread's assignments. */
  function Factor(t: Tid): int { if t == 1 then 2 else 3 }

  function StoreY(mem: Mem, t: Tid, v: int): Mem { if t == 1 then mem.(y1 := v) else mem.(y2 := v) }

  function StoreX(mem: Mem, t: Tid, v: int): Mem { if t == 1 then mem.(x1 := v) else mem.(x2 := v) }

  /** An access to the shared variables. */
  function Local(t: Tid, mem: Mem, th: Thread): (Mem, Thread) {
    match th.loc
    case ReadX1 => (mem, th.(a1 := mem.x1, loc := ReadX2))
    case ReadX2 => (mem, th.(a2 := mem.x2, loc := WriteY))
    case WriteY => (StoreY(mem, t, th.a1 + Factor(t) * th.a2), th.(loc := Middle))
    case ReadY1 => (mem, th.(a1 := mem.y1, loc := ReadY2))
    case ReadY2 => (mem, th.(a2 := mem.y2, loc := WriteX))
    case WriteX => (StoreX(mem, t, th.a1 + Factor(t) * th.a2), th.(loc := if t == 1 then WriteI else Loop))
    case WriteI => (mem.(i := th.count + 1), th.(count := th.count + 1, loc := Loop))
    case LoadI => (mem, th.(count := mem.i, loc := Head(mem.i)))
    case Reset => (mem.(i := 0), th.(loc := End))
    case _ => (mem, th)
  }

  function Th(p: Program, t: Tid): Thread { if t == 1 then p.one else p.two }

  function WithTh(p: Program, t: Tid, th: Thread): Program { if t == 1 then p.(one := th) else p.(two := th) }

  /** A step of one thread. A thread that spins at the barrier changes nothing. */
  function Step(p: Program, t: Tid): Program
    requires t in p.bar.pc
  {
    var th := Th(p, t);
    if !AtBarrier(th.loc) then
      var (mem, th') := Local(t, p.mem, th);
      WithTh(p.(mem := mem), t, th')
    else if p.bar.pc[t] == Idle then
      p.(bar := Next(p.bar, Call(t)))
    else
      var bar := Next(p.bar, Turn(t));
      if t in bar.pc && bar.pc[t] == Idle then WithTh(p.(bar := bar), t, Past(t, th)) else p.(bar := bar)
  }

  function Execute(p: Program, schedule: seq<bool>): Program
    requires p.bar.pc.Keys == {1, 2}
    ensures Execute(p, schedule).bar.pc.Keys == {1, 2}
    decreases |schedule|
  {
    if schedule == [] then p
    else Step(Execute(p, schedule[..|schedule| - 1]), if schedule[|schedule| - 1] then 1 else 2)
  }

  // ----- the sequential recurrence -----

  datatype Vec = Vec(v1: int, v2: int)

  function Combine(v: Vec): Vec { Vec(v.v1 + 2 * v.v2, v.v1 + 3 * v.v2) }

  /** The `x` variables after `j` iterations. */
  function X(x0: Vec, j: nat): Vec { if j == 0 then x0 else Combine(Combine(X(x0, j - 1))) }

  /** The `y` variables after the first half of iteration `j`. */
  function Y(x0: Vec, j: nat): Vec { Combine(X(x0, j)) }

  // ----- the invariant -----

  /** How many calls of `barrier` the thread has completed, given where it is. */
  function Segment(t: Tid, th: Thread): int {
    match th.loc
    case First => 0
    case ReadX1 | ReadX2 | WriteY | Middle => 2 * th.count + 1
    case ReadY1 | ReadY2 | WriteX | WriteI => 2 * th.count + 2
    case Loop => if t == 1 then 2 * th.count else 2 * th.count + 2
    case LoadI => 2 * th.count + 3
    case Last => 2 * ROUNDS + 1
    case Reset | End => 2 * ROUNDS + 2
  }

  /** How many values the thread has stored. */
  function Stores(t: Tid, th: Thread): int {
    match th.loc
    case First => 0
    case ReadX1 | ReadX2 | WriteY => 2 * th.count
    case Middle | ReadY1 | ReadY2 | WriteX => 2 * th.count + 1
    case WriteI | LoadI => 2 * th.count + 2
    case Loop => if t == 1 then 2 * th.count else 2 * th.count + 2
    case Last | Reset | End => 2 * ROUNDS
  }

  /** The loop counter is in range where the thread is, and the thread can be there. */
  predicate InRange(t: Tid, th: Thread) {
    match th.loc
    case First => true
    case ReadX1 | ReadX2 | WriteY | Middle | ReadY1 | ReadY2 | WriteX => 0 <= th.count < ROUNDS
    case WriteI => t == 1 && 0 <= th.count < ROUNDS
    case Loop => if t == 1 then 0 < th.count <= ROUNDS else 0 <= th.count < ROUNDS
    case LoadI => t == 2 && 0 <= th.count < ROUNDS
    case Last | End => th.count == ROUNDS
    case Reset => t == 1 && th.count == ROUNDS
  }

  /** The local variables hold what the thread has read. */
  predicate Registers(x0: Vec, th: Thread) {
    0 <= th.count ==>
      match th.loc
      case ReadX2 => th.a1 == X(x0, th.count).v1
      case WriteY => Vec(th.a1, th.a2) == X(x0, th.count)
      case ReadY2 => th.a1 == Y(x0, th.count).v1
      case WriteX => Vec(th.a1, th.a2) == Y(x0, th.count)
      case _ => true
  }

  ghost predicate ThreadOk(x0: Vec, bar: System, t: Tid, th: Thread) {
    && InRange(t, th) && Registers(x0, th)
    && t in bar.pc && t in bar.calls && bar.calls[t] == Segment(t, th)
    && (bar.pc[t] != Idle ==> AtBarrier(th.loc))
  }

  /** A thread's variables after it has stored `w` values. */
  predicate Stored(x0: Vec, t: Tid, w: int, mem: Mem) {
    0 <= w ==>
      if t == 1 then mem.x1 == X(x0, w / 2).v1 && (w > 0 ==> mem.y1 == Y(x0, (w - 1) / 2).v1)
      else mem.x2 == X(x0, w / 2).v2 && (w > 0 ==> mem.y2 == Y(x0, (w - 1) / 2).v2)
  }

  /** The published loop counter is that of the first thread. */
  predicate Published(th: Thread, mem: Mem) {
    match th.loc
    case First => true
    case End => mem.i == 0
    case _ => th.count >= 1 ==> mem.i == th.count
  }

  ghost predicate BarrierOk(bar: System) {
    Inv(bar) && Even(bar) && bar.sh.n == 2 && bar.pc.Keys == {1, 2}
  }

  ghost predicate ProgramOk(x0: Vec, p: Program) {
    && BarrierOk(p.bar) && ThreadOk(x0, p.bar, 1, p.one) && ThreadOk(x0, p.bar, 2, p.two)
    && Stored(x0, 1, Stores(1, p.one), p.mem) && Stored(x0, 2, Stores(2, p.two), p.mem)
    && Published(p.one, p.mem)
  }

  lemma BeginOk(mem: Mem, one: Thread, two: Thread)
    ensures ProgramOk(Vec(mem.x1, mem.x2), Begin(mem, one, two))
  {
    StartInv(2, {1, 2});
    assert Start(2, {1, 2}).pc.Keys == {1, 2};
  }

  function Other(t: Tid): Tid { if t == 1 then 2 else 1 }

  /** A thread that is not waiting inside the barrier is level with the other, or one
      call ahead of the other, who is about to leave the barrier. */
  lemma Level(bar: System, t: Tid)
    requires BarrierOk(bar) && (t == 1 || t == 2) && !bar.pc[t].Inside?
    ensures || bar.calls[Other(t)] == bar.calls[t]
            || (bar.pc[Other(t)].Inside? && bar.sh.outgoing && bar.calls[Other(t)] == bar.calls[t] - 1)
  {
    hide LogOk, Counts;
    if bar.sh.outgoing && !bar.pc[Other(t)].Inside? {
      assert Waiting(bar.pc) == {};
    }
  }

  lemma BarrierKeeps(bar: System, a: Action)
    requires BarrierOk(bar)
    ensures BarrierOk(Next(bar, a))
  {
    hide Inv, Even;
    NextKeeps(bar, a);
    EvenKeeps(bar, a);
  }

  /** What a turn at the barrier does to the two threads. */
  lemma TurnEffect(bar: System, t: Tid)
    requires BarrierOk(bar) && (t == 1 || t == 2) && bar.pc[t] != Idle
    ensures var bar' := Next(bar, Turn(t));
            && bar'.pc.Keys == bar.pc.Keys && bar'.calls.Keys == bar.calls.Keys
            && bar'.pc[Other(t)] == bar.pc[Other(t)] && bar'.calls[Other(t)] == bar.calls[Other(t)]
            && bar'.calls[t] == bar.calls[t] + if bar'.pc[t] == Idle then 1 else 0
  { }

  lemma CallEffect(bar: System, t: Tid)
    requires BarrierOk(bar) && (t == 1 || t == 2) && bar.pc[t] == Idle
    ensures var bar' := Next(bar, Call(t));
            && bar'.pc.Keys == bar.pc.Keys && bar'.calls == bar.calls
            && bar'.pc[Other(t)] == bar.pc[Other(t)] && bar'.pc[t] == Arriving
  { }

  /** Returning from the barrier takes the thread to its next segment. */
  lemma PastKeeps(x0: Vec, t: Tid, th: Thread)
    requires InRange(t, th) && (t == 1 || t == 2) && AtBarrier(th.loc)
    ensures var th' := Past(t, th);
            && InRange(t, th') && Registers(x0, th')
            && Segment(t, th') == Segment(t, th) + 1 && Stores(t, th') == Stores(t, th)
  { }

  lemma PastPublishes(th: Thread, mem: Mem)
    requires InRange(1, th) && AtBarrier(th.loc) && Published(th, mem)
    ensures Published(Past(1, th), mem)
  { }

  /** What the other thread has stored while this one uses the shared variables. */
  lemma OtherStores(x0: Vec, p: Program, t: Tid)
    requires ProgramOk(x0, p) && (t == 1 || t == 2) && !AtBarrier(Th(p, t).loc)
    ensures var th, w := Th(p, t), Stores(Other(t), Th(p, Other(t)));
            && (th.loc == ReadX1 || th.loc == ReadX2 ==> w == 2 * th.count || w == 2 * th.count + 1)
            && (th.loc == ReadY1 || th.loc == ReadY2 ==> w == 2 * th.count + 1 || w == 2 * th.count + 2)
  {
    hide BarrierOk, Stored, Published, Registers;
    Level(p.bar, t);
  }

  /** The first thread's counter when the second loads it. */
  lemma LoadsNext(x0: Vec, p: Program)
    requires ProgramOk(x0, p) && p.two.loc == LoadI
    ensures p.mem.i == p.two.count + 1
  {
    hide BarrierOk, Stored, Registers;
    Level(p.bar, 2);
  }

  lemma ReadsRight(x0: Vec, p: Program, t: Tid)
    requires ProgramOk(x0, p) && (t == 1 || t == 2)
    ensures var th := Th(p, t);
            && (th.loc == ReadX1 ==> p.mem.x1 == X(x0, th.count).v1)
            && (th.loc == ReadX2 ==> p.mem.x2 == X(x0, th.count).v2)
            && (th.loc == ReadY1 ==> p.mem.y1 == Y(x0, th.count).v1)
            && (th.loc == ReadY2 ==> p.mem.y2 == Y(x0, th.count).v2)
  {
    hide BarrierOk, X;
    if !AtBarrier(Th(p, t).loc) { OtherStores(x0, p, t); }
  }

  /** The shared variables hold what the thread is about to read. */
  predicate Reads(x0: Vec, th: Thread, mem: Mem) {
    0 <= th.count ==>
      match th.loc
      case ReadX1 => mem.x1 == X(x0, th.count).v1
      case ReadX2 => mem.x2 == X(x0, th.count).v2
      case ReadY1 => mem.y1 == Y(x0, th.count).v1
      case ReadY2 => mem.y2 == Y(x0, th.count).v2
      case LoadI => mem.i == th.count + 1
      case _ => true
  }

  lemma LocalThread(x0: Vec, t: Tid, mem: Mem, th: Thread)
    requires (t == 1 || t == 2) && !AtBarrier(th.loc) && InRange(t, th) && Registers(x0, th) && Reads(x0, th, mem)
    ensures var th' := Local(t, mem, th).1; InRange(t, th') && Registers(x0, th') && Segment(t, th') == Segment(t, th)
  {
    hide X;
  }

  lemma NextX(x0: Vec, j: nat)
    ensures X(x0, j + 1) == Combine(Y(x0, j)) && Y(x0, j) == Combine(X(x0, j))
  { }

  lemma LocalStores(x0: Vec, t: Tid, mem: Mem, th: Thread)
    requires (t == 1 || t == 2) && !AtBarrier(th.loc) && InRange(t, th) && Registers(x0, th) && Reads(x0, th, mem)
    requires Stored(x0, t, Stores(t, th), mem)
    ensures var (mem', th') := Local(t, mem, th); Stored(x0, t, Stores(t, th'), mem')
  {
    hide X, Y;
    if 0 <= th.count { NextX(x0, th.count); }
  }

  lemma LocalOther(x0: Vec, t: Tid, mem: Mem, th: Thread, w: int)
    requires (t == 1 || t == 2) && Stored(x0, Other(t), w, mem)
    ensures Stored(x0, Other(t), w, Local(t, mem, th).0)
  {
    hide X;
  }

  lemma LocalPublished(t: Tid, mem: Mem, th: Thread, one: Thread)
    requires (t == 1 || t == 2) && InRange(t, th) && Published(one, mem) && (t == 1 ==> one == th)
    ensures var (mem', th') := Local(t, mem, th); Published(if t == 1 then th' else one, mem')
  { }

  lemma LocalKeeps(x0: Vec, p: Program, t: Tid)
    requires ProgramOk(x0, p) && (t == 1 || t == 2) && !AtBarrier(Th(p, t).loc)
    ensures ProgramOk(x0, Step(p, t))
  {
    hide BarrierOk, Stored, Stores, InRange, Registers, Segment, Published, Local, Reads;
    var th, other := Th(p, t), Th(p, Other(t));
    IsReady(x0, p, t);
    LocalThread(x0, t, p.mem, th);
    LocalStores(x0, t, p.mem, th);
    LocalOther(x0, t, p.mem, th, Stores(Other(t), other));
    LocalPublished(t, p.mem, th, p.one);
  }

  lemma IsReady(x0: Vec, p: Program, t: Tid)
    requires ProgramOk(x0, p) && (t == 1 || t == 2)
    ensures Reads(x0, Th(p, t), p.mem)
  {
    hide BarrierOk, Stored, Published, Stores, Segment;
    ReadsRight(x0, p, t);
    if p.two.loc == LoadI { LoadsNext(x0, p); }
  }

  lemma WaitKeeps(x0: Vec, p: Program, t: Tid)
    requires ProgramOk(x0, p) && (t == 1 || t == 2) && AtBarrier(Th(p, t).loc)
    ensures ProgramOk(x0, Step(p, t))
  {
    hide BarrierOk, Registers, Stored, Published, InRange, Stores, Segment;
    var th := Th(p, t);
    if p.bar.pc[t] == Idle {
      BarrierKeeps(p.bar, Call(t));
      CallEffect(p.bar, t);
    } else {
      BarrierKeeps(p.bar, Turn(t));
      TurnEffect(p.bar, t);
      PastKeeps(x0, t, th);
      if t == 1 { PastPublishes(th, p.mem); }
    }
  }

  /** The invariant holds in every run, whatever the initial values. */
  lemma {:induction false} ExecuteOk(mem: Mem, one: Thread, two: Thread, schedule: seq<bool>)
    ensures ProgramOk(Vec(mem.x1, mem.x2), Execute(Begin(mem, one, two), schedule))
    decreases |schedule|
  {
    if schedule == [] {
      BeginOk(mem, one, two);
    } else {
      var before := schedule[..|schedule| - 1];
      ExecuteOk(mem, one, two, before);
      var p := Execute(Begin(mem, one, two), before);
      var t: Tid := if schedule[|schedule| - 1] then 1 else 2;
      if AtBarrier(Th(p, t).loc) {
        WaitKeeps(Vec(mem.x1, mem.x2), p, t);
      } else {
        LocalKeeps(Vec(mem.x1, mem.x2), p, t);
      }
    }
  }

  // ----- what the example is for -----

  datatype Var = VarX1 | VarX2 | VarY1 | VarY2 | VarI

  /** The shared variable the thread uses next, and whether it writes it. */
  datatype Use = Nothing | Read(v: Var) | Write(v: Var)

  function NextUse(t: Tid, th: Thread): Use {
    match th.loc
    case ReadX1 => Read(VarX1)
    case ReadX2 => Read(VarX2)
    case WriteY => Write(if t == 1 then VarY1 else VarY2)
    case ReadY1 => Read(VarY1)
    case ReadY2 => Read(VarY2)
    case WriteX => Write(if t == 1 then VarX1 else VarX2)
    case WriteI | Reset => Write(VarI)
    case LoadI => Read(VarI)
    case _ => Nothing
  }

  predicate Conflict(a: Use, b: Use) {
    !a.Nothing? && !b.Nothing? && a.v == b.v && (a.Write? || b.Write?)
  }

  function Get(mem: Mem, v: Var): int {
    match v
    case VarX1 => mem.x1
    case VarX2 => mem.x2
    case VarY1 => mem.y1
    case VarY2 => mem.y2
    case VarI => mem.i
  }

  function Put(mem: Mem, v: Var, x: int): Mem {
    match v
    case VarX1 => mem.(x1 := x)
    case VarX2 => mem.(x2 := x)
    case VarY1 => mem.(y1 := x)
    case VarY2 => mem.(y2 := x)
    case VarI => mem.(i := x)
  }

  /** The memory is what its variables hold, and each can be set alone. */
  lemma VarsAreTheMemory(mem: Mem, other: Mem, v: Var, x: int)
    ensures forall u :: Get(Put(mem, v, x), u) == if u == v then x else Get(mem, u)
    ensures (forall u :: Get(mem, u) == Get(other, u)) ==> mem == other
  {
    if forall u :: Get(mem, u) == Get(other, u) {
      assert Get(mem, VarX1) == Get(other, VarX1) && Get(mem, VarX2) == Get(other, VarX2);
      assert Get(mem, VarY1) == Get(other, VarY1) && Get(mem, VarY2) == Get(other, VarY2);
      assert Get(mem, VarI) == Get(other, VarI);
    }
  }

  /** The thread's next step can change the variable. */
  ghost predicate MayWrite(t: Tid, th: Thread, v: Var) {
    exists mem :: Get(Local(t, mem, th).0, v) != Get(mem, v)
  }

  /** What the thread's next step does to itself or to another variable can depend on
      the variable. */
  ghost predicate MayRead(t: Tid, th: Thread, v: Var) {
    exists mem, x ::
      || Local(t, Put(mem, v, x), th).1 != Local(t, mem, th).1
      || exists u :: u != v && Get(Local(t, Put(mem, v, x), th).0, u) != Get(Local(t, mem, th).0, u)
  }

  /** The next use of a thread is the variable its step can change, or depends on. */
  lemma UsesAreSteps(t: Tid, th: Thread, v: Var)
    ensures NextUse(t, th) == Write(v) <==> MayWrite(t, th, v)
    ensures NextUse(t, th) == Read(v) <==> MayRead(t, th, v)
  {
    var zero := Mem(0, 0, 0, 0, 0);
    if NextUse(t, th) == Write(v) {
      var mem := Put(zero, v, Get(Local(t, zero, th).0, v) + 1);
      assert Get(Local(t, mem, th).0, v) != Get(mem, v);
    }
    if NextUse(t, th) == Read(v) {
      var x := if v == VarX1 || v == VarY1 then th.a1 + 1 else if v == VarI then th.count + 1 else th.a2 + 1;
      assert Local(t, Put(zero, v, x), th).1 != Local(t, Put(zero, v, x + 1), th).1;
      assert Put(Put(zero, v, x), v, x + 1) == Put(zero, v, x + 1);
    }
  }

  /** Never can the next step of one thread change a variable that the next step of the
      other can change or depends on. */
  lemma NoRace(mem: Mem, one: Thread, two: Thread, schedule: seq<bool>, v: Var)
    ensures var p := Execute(Begin(mem, one, two), schedule);
            && !Conflict(NextUse(1, p.one), NextUse(2, p.two))
            && !(MayWrite(1, p.one, v) && (MayWrite(2, p.two, v) || MayRead(2, p.two, v)))
            && !(MayWrite(2, p.two, v) && (MayWrite(1, p.one, v) || MayRead(1, p.one, v)))
  {
    hide BarrierOk, Stored, Published, Registers, Execute, MayRead, MayWrite;
    ExecuteOk(mem, one, two, schedule);
    var p := Execute(Begin(mem, one, two), schedule);
    UsesAreSteps(1, p.one, v);
    UsesAreSteps(2, p.two, v);
    if !AtBarrier(p.one.loc) && !AtBarrier(p.two.loc) { Level(p.bar, 1); }
  }

  /** Outside the barrier it does not matter which thread takes its step first. */
  lemma StepsCommute(mem: Mem, one: Thread, two: Thread, schedule: seq<bool>)
    ensures var p := Execute(Begin(mem, one, two), schedule);
            !AtBarrier(p.one.loc) && !AtBarrier(p.two.loc) ==> Step(Step(p, 1), 2) == Step(Step(p, 2), 1)
  {
    hide Execute, MayRead, MayWrite;
    NoRace(mem, one, two, schedule, VarI);
    var p := Execute(Begin(mem, one, two), schedule);
    if !AtBarrier(p.one.loc) && !AtBarrier(p.two.loc) { LocalsCommute(p.mem, p.one, p.two); }
  }

  lemma LocalsCommute(mem: Mem, one: Thread, two: Thread)
    requires !Conflict(NextUse(1, one), NextUse(2, two))
    ensures var a, b := Local(1, mem, one), Local(2, mem, two);
            && Local(2, a.0, two).0 == Local(1, b.0, one).0
            && Local(2, a.0, two).1 == b.1 && Local(1, b.0, one).1 == a.1
  { }

  /** Threads that are both outside the barrier are in the same iteration, but for the
      turn on which the second has still to learn whether to go on. */
  lemma SameIteration(mem: Mem, one: Thread, two: Thread, schedule: seq<bool>)
    ensures var p := Execute(Begin(mem, one, two), schedule);
            !AtBarrier(p.one.loc) && !AtBarrier(p.two.loc) ==>
              p.one.count == p.two.count + if p.two.loc == LoadI then 1 else 0
  {
    hide BarrierOk, Stored, Published, Registers, Execute;
    ExecuteOk(mem, one, two, schedule);
    var p := Execute(Begin(mem, one, two), schedule);
    if !AtBarrier(p.one.loc) && !AtBarrier(p.two.loc) { Level(p.bar, 1); }
  }

  /** When both threads have ended, they have gone through the loop equally often and
      called the barrier equally often, and the shared variables hold the values of
      the sequential recurrence. */
  lemma Outcome(mem: Mem, one: Thread, two: Thread, schedule: seq<bool>)
    ensures var p, x0 := Execute(Begin(mem, one, two), schedule), Vec(mem.x1, mem.x2);
            p.one.loc == End && p.two.loc == End ==>
              && p.one.count == p.two.count == ROUNDS
              && p.bar.calls == map[1 := 62, 2 := 62]
              && Vec(p.mem.x1, p.mem.x2) == X(x0, ROUNDS) && Vec(p.mem.y1, p.mem.y2) == Y(x0, ROUNDS - 1)
              && p.mem.i == 0
  {
    hide Execute, X, Y, Even, LogOk, Counts;
    ExecuteOk(mem, one, two, schedule);
    var p := Execute(Begin(mem, one, two), schedule);
    if p.one.loc == End && p.two.loc == End {
      assert p.bar.calls.Keys == {1, 2};
      assert p.bar.calls == map[1 := 62, 2 := 62];
    }
  }

  /** The program is never stuck: unless both threads have ended, one of them can do
      more than spin. */
  lemma NeverStuck(mem: Mem, one: Thread, two: Thread, schedule: seq<bool>)
    ensures var p := Execute(Begin(mem, one, two), schedule);
            (p.one.loc == End && p.two.loc == End) || Step(p, 1) != p || Step(p, 2) != p
  {
    hide Execute, Stored, Published, Registers, X, Y;
    ExecuteOk(mem, one, two, schedule);
    var p := Execute(Begin(mem, one, two), schedule);
    SomeoneMoves(Vec(mem.x1, mem.x2), p);
  }

  lemma SomeoneMoves(x0: Vec, p: Program)
    requires ProgramOk(x0, p)
    ensures (p.one.loc == End && p.two.loc == End) || Step(p, 1) != p || Step(p, 2) != p
  {
    hide BarrierOk, Stored, Published, Registers, Local, Past, Step;
    Moves(x0, p, 1);
    Moves(x0, p, 2);
    if p.one.loc == End && AtBarrier(p.two.loc) {
      Level(p.bar, 1);
      EndIsLate(p.two, 2);
      InsideIsReady(p.bar, 2);
    } else if p.two.loc == End && AtBarrier(p.one.loc) {
      Level(p.bar, 2);
      EndIsLate(p.one, 1);
      InsideIsReady(p.bar, 1);
    } else if p.bar.pc[1] != Idle && p.bar.pc[2] != Idle {
      OneIsReady(p.bar);
    }
  }

  lemma InsideIsReady(bar: System, t: Tid)
    requires BarrierOk(bar) && (t == 1 || t == 2) && bar.pc[t].Inside? && bar.sh.outgoing
    ensures Ready(bar, t)
  { }

  lemma EndIsLate(th: Thread, t: Tid)
    requires InRange(t, th) && (t == 1 || t == 2) && AtBarrier(th.loc)
    ensures Segment(t, th) < 2 * ROUNDS + 2
  { }

  lemma OneIsReady(bar: System)
    requires BarrierOk(bar) && bar.pc[1] != Idle && bar.pc[2] != Idle
    ensures Ready(bar, 1) || Ready(bar, 2)
  {
    assert |{1, 2}| == 2;
    SomeoneIsReady(bar);
    var t :| Ready(bar, t);
  }

  /** When a thread's step is more than spinning. */
  lemma Moves(x0: Vec, p: Program, t: Tid)
    requires ProgramOk(x0, p) && (t == 1 || t == 2)
    ensures !AtBarrier(Th(p, t).loc) && Th(p, t).loc != End ==> Step(p, t) != p
    ensures AtBarrier(Th(p, t).loc) && (p.bar.pc[t] == Idle || Ready(p.bar, t)) ==> Step(p, t) != p
  {
  }

  /** How far a thread has got. */
  function Progress(bar: System, t: Tid, th: Thread): int
    requires t in bar.pc
  {
    64 * Segment(t, th) + 4 * Position(th.loc) + (match bar.pc[t] case Idle => 0 case Arriving => 1 case Inside(_) => 2)
  }

  function Position(l: Loc): nat {
    match l
    case First => 0
    case ReadX1 => 1
    case ReadX2 => 2
    case WriteY => 3
    case Middle => 4
    case ReadY1 => 1
    case ReadY2 => 2
    case WriteX => 3
    case WriteI => 4
    case Loop => 5
    case LoadI => 0
    case Last => 5
    case Reset => 0
    case End => 1
  }

  /** The step of a thread from `p` to `p'` was progress, of this thread only. */
  ghost predicate Advances(p: Program, p': Program, t: Tid) {
    && p.bar.pc.Keys == {1, 2} && p'.bar.pc.Keys == {1, 2} && (t == 1 || t == 2)
    && Progress(p.bar, t, Th(p, t)) < Progress(p'.bar, t, Th(p', t)) <= 4000
    && Progress(p'.bar, Other(t), Th(p', Other(t))) == Progress(p.bar, Other(t), Th(p, Other(t)))
  }

  lemma LocalAdvances(x0: Vec, p: Program, t: Tid)
    requires ProgramOk(x0, p) && (t == 1 || t == 2) && !AtBarrier(Th(p, t).loc) && Th(p, t).loc != End
    ensures Advances(p, Step(p, t), t)
  {
    hide Stored, Published, Registers, X, Y, Next, Past, Local, Inv, Even;
    IsReady(x0, p, t);
    LocalThread(x0, t, p.mem, Th(p, t));
    LocalPosition(t, p.mem, Th(p, t));
    Bounded(t, Local(t, p.mem, Th(p, t)).1);
  }

  lemma Bounded(t: Tid, th: Thread)
    requires InRange(t, th)
    ensures 64 * Segment(t, th) + 4 * Position(th.loc) <= 3990
  { }

  lemma CallAdvances(x0: Vec, p: Program, t: Tid)
    requires ProgramOk(x0, p) && (t == 1 || t == 2) && AtBarrier(Th(p, t).loc) && p.bar.pc[t] == Idle
    ensures Advances(p, Step(p, t), t)
  {
    hide Stored, Published, Registers, X, Y, Next, Past, Local, Inv, Even, InRange, Segment, Position;
    CallEffect(p.bar, t);
    Bounded(t, Th(p, t));
  }

  lemma TurnAdvances(x0: Vec, p: Program, t: Tid)
    requires ProgramOk(x0, p) && (t == 1 || t == 2) && AtBarrier(Th(p, t).loc) && p.bar.pc[t] != Idle && Step(p, t) != p
    ensures Advances(p, Step(p, t), t)
  {
    hide Stored, Published, Registers, X, Y, Next, Past, Local, Inv, Even, InRange, Segment;
    TurnEffect(p.bar, t);
    TurnForward(p.bar, t);
    PastKeeps(x0, t, Th(p, t));
    Bounded(t, Th(p, t));
    Bounded(t, Past(t, Th(p, t)));
  }

  /** A step that changes anything is progress of its thread. */
  lemma StepAdvances(mem: Mem, one: Thread, two: Thread, schedule: seq<bool>, t: Tid)
    requires t == 1 || t == 2
    ensures var p := Execute(Begin(mem, one, two), schedule); Step(p, t) == p || Advances(p, Step(p, t), t)
  {
    hide Execute, BarrierOk, Stored, Published, Registers, X, Y, Advances;
    ExecuteOk(mem, one, two, schedule);
    var x0, p := Vec(mem.x1, mem.x2), Execute(Begin(mem, one, two), schedule);
    if Step(p, t) != p {
      if !AtBarrier(Th(p, t).loc) {
        LocalAdvances(x0, p, t);
      } else if p.bar.pc[t] == Idle {
        CallAdvances(x0, p, t);
      } else {
        TurnAdvances(x0, p, t);
      }
    }
  }

  lemma LocalPosition(t: Tid, mem: Mem, th: Thread)
    requires !AtBarrier(th.loc) && InRange(t, th)
    ensures Position(Local(t, mem, th).1.loc) > Position(th.loc) || th.loc == End
  { }

  lemma TurnForward(bar: System, t: Tid)
    requires BarrierOk(bar) && (t == 1 || t == 2) && bar.pc[t] != Idle && Next(bar, Turn(t)) != bar
    ensures var bar' := Next(bar, Turn(t));
            t in bar'.pc && (bar'.pc[t] == Idle || (bar.pc[t] == Arriving && bar'.pc[t].Inside?))
  { }

  /** The steps of a run that are not spinning. */
  function Effective(p: Program, schedule: seq<bool>): nat
    requires p.bar.pc.Keys == {1, 2}
  {
    if schedule == [] then 0
    else
      var before := schedule[..|schedule| - 1];
      Effective(p, before) + if Execute(p, schedule) != Execute(p, before) then 1 else 0
  }

  function Total(p: Program): int
    requires p.bar.pc.Keys == {1, 2}
  {
    Progress(p.bar, 1, p.one) + Progress(p.bar, 2, p.two)
  }

  /** The step after the first `i` changes something. */
  predicate ChangesAt(p: Program, schedule: seq<bool>, i: nat)
    requires p.bar.pc.Keys == {1, 2}
  {
    i < |schedule| && Execute(p, schedule[..i + 1]) != Execute(p, schedule[..i])
  }

  ghost function Changes(p: Program, schedule: seq<bool>): set<nat>
    requires p.bar.pc.Keys == {1, 2}
  {
    set i: nat | i < |schedule| && ChangesAt(p, schedule, i)
  }

  lemma ChangesBefore(p: Program, schedule: seq<bool>, n: nat, i: nat)
    requires p.bar.pc.Keys == {1, 2} && i < n <= |schedule|
    ensures ChangesAt(p, schedule[..n], i) <==> ChangesAt(p, schedule, i)
  {
    hide Execute;
    assert schedule[..n][..i] == schedule[..i] && schedule[..n][..i + 1] == schedule[..i + 1];
  }

  lemma {:induction false} EffectiveCounts(p: Program, schedule: seq<bool>)
    requires p.bar.pc.Keys == {1, 2}
    ensures Effective(p, schedule) == |Changes(p, schedule)|
    decreases |schedule|
  {
    hide Execute, ChangesAt;
    if schedule != [] {
      var n: nat := |schedule| - 1;
      EffectiveCounts(p, schedule[..n]);
      forall i: nat | i < n ensures ChangesAt(p, schedule[..n], i) <==> ChangesAt(p, schedule, i) {
        ChangesBefore(p, schedule, n, i);
      }
      LastChange(p, schedule, n);
      var last: set<nat> := if ChangesAt(p, schedule, n) then {n} else {};
      assert Changes(p, schedule) == Changes(p, schedule[..n]) + last;
    }
  }

  lemma LastChange(p: Program, schedule: seq<bool>, n: nat)
    requires p.bar.pc.Keys == {1, 2} && |schedule| == n + 1
    ensures ChangesAt(p, schedule, n) <==> Execute(p, schedule) != Execute(p, schedule[..n])
  {
    hide Execute;
    assert schedule[..n + 1] == schedule;
  }

  /** There is only so much to do: at most 8000 steps of any run are not spinning. */
  lemma OnlySoManySteps(mem: Mem, one: Thread, two: Thread, schedule: seq<bool>)
    ensures |Changes(Begin(mem, one, two), schedule)| <= 8000
  {
    hide Changes;
    StepsAreProgress(mem, one, two, schedule);
    EffectiveCounts(Begin(mem, one, two), schedule);
  }

  lemma {:induction false} StepsAreProgress(mem: Mem, one: Thread, two: Thread, schedule: seq<bool>)
    ensures var p := Begin(mem, one, two);
            && Effective(p, schedule) <= Total(Execute(p, schedule))
            && Effective(p, schedule) <= 8000
    decreases |schedule|
  {
    var p := Begin(mem, one, two);
    if schedule != [] {
      var before := schedule[..|schedule| - 1];
      StepsAreProgress(mem, one, two, before);
      StepAdvances(mem, one, two, before, if schedule[|schedule| - 1] then 1 else 2);
    }
    TotalBounded(Vec(mem.x1, mem.x2), Execute(p, schedule)) by { ExecuteOk(mem, one, two, schedule); }
  }

  lemma TotalBounded(x0: Vec, p: Program)
    requires ProgramOk(x0, p)
    ensures Total(p) <= 8000
  {
    hide BarrierOk, Stored, Published, Registers, Segment, Position;
    Bounded(1, p.one);
    Bounded(2, p.two);
  }
}
