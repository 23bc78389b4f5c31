/** An atomic integer described by the trace of its operations, and the lock made of
    one: acquiring is a compare-and-swap from 0 to 1, releasing a decrement. */
module TraceLock {

  type Tid = int

  /** The operations so far, the latest outermost. */
  datatype Trace =
    | Zero
    | Inc(tid: Tid, prev: Trace)
    | Dec(tid: Tid, prev: Trace)
    | Cas(tid: Tid, expected: int, desired: int, prev: Trace)

  datatype Option<T> = None | Some(value: T)

  function ExecuteTrace(t: Trace): int {
    match t
    case Zero => 0
    case Inc(_, p) => ExecuteTrace(p) + 1
    case Dec(_, p) => ExecuteTrace(p) - 1
    case Cas(_, o, n, p) => if ExecuteTrace(p) == o then n else ExecuteTrace(p)
  }

  /** `trace` is `pref` followed by operations of other threads. */
  predicate IsGoodPrefix(pref: Trace, trace: Trace, tid: Tid) {
    if trace.Zero? then pref == Zero
    else pref == trace || (trace.tid != tid && IsGoodPrefix(pref, trace.prev, tid))
  }

  function LockOwner(t: Trace): Option<Tid> {
    match t
    case Cas(tid, o, _, p) => if ExecuteTrace(p) == o then Some(tid) else LockOwner(p)
    case _ => None
  }

  /** The traces the lock protocol allows. */
  predicate IsLock(t: Trace) {
    match t
    case Zero => true
    case Inc(_, _) => false
    case Dec(tid, p) => LockOwner(p) == Some(tid) && IsLock(p)
    case Cas(_, o, n, p) => o == 0 && n == 1 && IsLock(p)
  }

  predicate IncrOnly(t: Trace) {
    match t
    case Zero => true
    case Inc(_, p) => IncrOnly(p)
    case Dec(_, _) => false
    case Cas(_, o, n, p) => o <= n && IncrOnly(p)
  }

  // ----- traces -----

  /** What the latest operation of a trace makes of the value it finds. */
  function Effect(t: Trace, v: int): int {
    match t
    case Zero => v
    case Inc(_, _) => v + 1
    case Dec(_, _) => v - 1
    case Cas(_, o, n, _) => if v == o then n else v
  }

  /** A trace executes its operations one after the other. */
  lemma ExecutesEffects(t: Trace)
    requires !t.Zero?
    ensures ExecuteTrace(t) == Effect(t, ExecuteTrace(t.prev))
  { }

  /** The traces of operations none of which can lower the value, whatever it is. */
  lemma IncrOnlyMeans(t: Trace)
    ensures IncrOnly(t) <==> t.Zero? || (IncrOnly(t.prev) && forall v :: v <= Effect(t, v))
  {
    if t.Cas? { assert Effect(t, t.expected) == t.desired; }
    if t.Dec? { assert Effect(t, 0) < 0; }
  }

  lemma {:induction false} PrefixTrans(a: Trace, b: Trace, c: Trace, tid: Tid)
    requires IsGoodPrefix(a, b, tid) && IsGoodPrefix(b, c, tid)
    ensures IsGoodPrefix(a, c, tid)
    decreases c
  {
    if b != c && !c.Zero? { PrefixTrans(a, b, c.prev, tid); }
  }

  /** With increments only, what a thread reads never goes down. */
  lemma {:induction false} PrefixSmaller(t1: Trace, t2: Trace, tid: Tid)
    requires IncrOnly(t2) && IsGoodPrefix(t1, t2, tid)
    ensures IncrOnly(t1) && ExecuteTrace(t1) <= ExecuteTrace(t2)
    decreases t2
  {
    if t1 != t2 { PrefixSmaller(t1, t2.prev, tid); }
  }

  /** The cell is 1 when there is an owner and 0 when there is none. */
  lemma {:induction false} CellTellsOwner(t: Trace)
    requires IsLock(t)
    ensures ExecuteTrace(t) == if LockOwner(t).Some? then 1 else 0
    decreases t
  {
    if !t.Zero? { CellTellsOwner(t.prev); }
  }

  /** Whatever other threads do within the protocol, they neither take the lock from
      its owner nor give it to a thread that is not trying. */
  lemma {:induction false} OwnerSurvives(t1: Trace, t2: Trace, tid: Tid)
    requires IsGoodPrefix(t1, t2, tid) && IsLock(t2)
    ensures IsLock(t1) && (LockOwner(t1) == Some(tid) <==> LockOwner(t2) == Some(tid))
    decreases t2
  {
    if t1 != t2 {
      OwnerSurvives(t1, t2.prev, tid);
      CellTellsOwner(t2.prev);
    }
  }

  // ----- the operations -----

  class AtomicInt {
    var value: int
    ghost var trace: Trace

    ghost predicate Valid() reads this { value == ExecuteTrace(trace) }

    constructor ()
      ensures Valid() && value == 0 && trace == Zero
    {
      value, trace := 0, Zero;
    }

    method Load() returns (v: int)
      requires Valid()
      ensures v == ExecuteTrace(trace)
    {
      v := value;
    }

    method Decrement(tid: Tid)
      requires Valid()
      modifies this
      ensures Valid() && trace == Dec(tid, old(trace))
    {
      value := value - 1;
      trace := Dec(tid, trace);
    }

    method CompareAndSwap(tid: Tid, o: int, n: int) returns (read: int)
      requires Valid()
      modifies this
      ensures Valid() && trace == Cas(tid, o, n, old(trace)) && read == ExecuteTrace(old(trace))
    {
      read := value;
      if value == o { value := n; }
      trace := Cas(tid, o, n, trace);
    }

    /** One turn of the loop of `acquire`: it leaves the loop as the owner. */
    method TryAcquire(tid: Tid) returns (done: bool)
      requires Valid() && IsLock(trace)
      modifies this
      ensures Valid() && IsLock(trace) && (done <==> old(LockOwner(trace)) == None)
      ensures LockOwner(trace) == if done then Some(tid) else old(LockOwner(trace))
    {
      CellTellsOwner(trace);
      var read := CompareAndSwap(tid, 0, 1);
      done := read == 0;
    }

    /** `release`, by a thread that was the owner when it last looked. */
    method Release(tid: Tid, ghost seen: Trace)
      requires Valid() && IsLock(trace) && LockOwner(seen) == Some(tid) && IsGoodPrefix(seen, trace, tid)
      modifies this
      ensures Valid() && IsLock(trace) && LockOwner(trace) == None && value == 0
    {
      OwnerSurvives(seen, trace, tid);
      CellTellsOwner(trace);
      Decrement(tid);
    }

    /** `only_allow_incrementing`: what two loads return, when between them others run. */
    method LoadTwice(tid: Tid, ghost seen: Trace, first: int) returns (second: int)
      requires Valid() && IncrOnly(trace) && IsGoodPrefix(seen, trace, tid) && first == ExecuteTrace(seen)
      ensures first <= second == ExecuteTrace(trace)
    {
      PrefixSmaller(seen, trace, tid);
      second := Load();
    }
  }

  // ----- runs: any number of threads acquire and release -----

  datatype Pc = Outside | Trying | Holding

  /** `seen` is the trace up to and including each thread's last operation. */
  datatype System = System(value: int, trace: Trace, pc: map<Tid, Pc>, seen: map<Tid, Trace>)

  /** A turn of a thread: it starts to acquire, tries once, or releases. */
  function Turn(s: System, t: Tid): System {
    if t !in s.pc then s
    else match s.pc[t]
         case Outside => s.(pc := s.pc[t := Trying])
         case Trying =>
           var trace := Cas(t, 0, 1, s.trace);
           System(if s.value == 0 then 1 else s.value, trace, s.pc[t := if s.value == 0 then Holding else Trying],
                  s.seen[t := trace])
         case Holding =>
           var trace := Dec(t, s.trace);
           System(s.value - 1, trace, s.pc[t := Outside], s.seen[t := trace])
  }

  function Run(threads: set<Tid>, schedule: seq<Tid>): System
    decreases |schedule|
  {
    if schedule == [] then System(0, Zero, map t | t in threads :: Outside, map t | t in threads :: Zero)
    else Turn(Run(threads, schedule[..|schedule| - 1]), schedule[|schedule| - 1])
  }

  ghost predicate Inv(s: System) {
    && s.value == ExecuteTrace(s.trace) && IsLock(s.trace) && s.pc.Keys == s.seen.Keys
    && (LockOwner(s.trace).Some? ==> LockOwner(s.trace).value in s.pc)
    && (forall t :: t in s.pc ==> (s.pc[t] == Holding <==> LockOwner(s.trace) == Some(t)))
    && (forall t :: t in s.seen ==> IsGoodPrefix(s.seen[t], s.trace, t))
  }

  lemma TurnKeeps(s: System, t: Tid)
    requires Inv(s)
    ensures Inv(Turn(s, t))
  {
    CellTellsOwner(s.trace);
    CellTellsOwner(Turn(s, t).trace);
  }

  lemma {:induction false} RunInv(threads: set<Tid>, schedule: seq<Tid>)
    ensures Inv(Run(threads, schedule))
    decreases |schedule|
  {
    if schedule != [] {
      RunInv(threads, schedule[..|schedule| - 1]);
      TurnKeeps(Run(threads, schedule[..|schedule| - 1]), schedule[|schedule| - 1]);
    }
  }

  /** In every run, at most one thread is between `acquire` and `release`, the protocol
      is kept, and each thread still owns the lock exactly if it did when it last looked. */
  lemma MutualExclusion(threads: set<Tid>, schedule: seq<Tid>, t: Tid, u: Tid)
    ensures var s := Run(threads, schedule);
            && IsLock(s.trace) && s.value == ExecuteTrace(s.trace)
            && (t in s.pc && u in s.pc && s.pc[t] == Holding && s.pc[u] == Holding ==> t == u)
            && (t in s.seen ==> (LockOwner(s.seen[t]) == Some(t) <==> LockOwner(s.trace) == Some(t)))
  {
    RunInv(threads, schedule);
    var s := Run(threads, schedule);
    if t in s.seen { OwnerSurvives(s.seen[t], s.trace, t); }
  }

  /** In every run, a try succeeds exactly when nobody holds the lock. */
  lemma TrySucceeds(threads: set<Tid>, schedule: seq<Tid>, t: Tid)
    ensures var s := Run(threads, schedule);
            t in s.pc && s.pc[t] == Trying ==>
              (t in Turn(s, t).pc && Turn(s, t).pc[t] == Holding <==> forall u :: u in s.pc ==> s.pc[u] != Holding)
  {
    RunInv(threads, schedule);
    var s := Run(threads, schedule);
    CellTellsOwner(s.trace);
    if LockOwner(s.trace).Some? {
      var u := LockOwner(s.trace).value;
      assert LockOwner(s.trace) == Some(u) && u in s.pc;
    }
  }

  /** In every run a thread goes round: it starts to acquire without touching the cell,
      tries by one compare-and-swap until it holds the lock, and then releases it, after
      which nobody holds it. No turn moves another thread. */
  lemma TurnsGoRound(threads: set<Tid>, schedule: seq<Tid>, t: Tid)
    ensures var s := Run(threads, schedule);
            var s' := Turn(s, t);
            && s'.pc.Keys == s.pc.Keys && (forall u :: u in s.pc && u != t ==> s'.pc[u] == s.pc[u])
            && (t in s.pc ==>
                  match s.pc[t]
                  case Outside => s'.pc[t] == Trying && s'.trace == s.trace && s'.value == s.value
                  case Trying => s'.pc[t] != Outside && s'.trace == Cas(t, 0, 1, s.trace)
                  case Holding =>
                    && s'.pc[t] == Outside && s'.trace == Dec(t, s.trace)
                    && s'.value == 0 && LockOwner(s'.trace) == None && forall u :: u in s'.pc ==> s'.pc[u] != Holding)
  {
    RunInv(threads, schedule);
    var s := Run(threads, schedule);
    TurnKeeps(s, t);
    CellTellsOwner(s.trace);
  }
}
