/** The reusable barrier. A schedule interleaves any number of threads; one turn of
    a thread is one section of `barrier` during which it holds the mutex. */
module Barrier {

  type Tid = nat

  // ----- the fields under the mutex -----

  datatype Shared = Shared(n: nat, k: int, outgoing: bool)

  /** What the mutex protects. */
  predicate Sound(sh: Shared) {
    2 <= sh.n && (if sh.outgoing then 1 <= sh.k < sh.n else 0 <= sh.k < sh.n)
  }

  /** A thread comes in: the last one opens the way out and does not count itself. */
  function Arrive(sh: Shared): Shared
    requires !sh.outgoing
  {
    if sh.k + 1 == sh.n then sh.(outgoing := true) else sh.(k := sh.k + 1)
  }

  /** A thread goes out: the last one opens the way in. */
  function Leave(sh: Shared): Shared
    requires sh.outgoing
  {
    Shared(sh.n, sh.k - 1, sh.k - 1 != 0)
  }

  /** What a thread does after a section: try again, wait for the others, or return. */
  datatype Then = Retry | Wait | Return

  /** The record of a barrier. */
  class BarrierRecord {
    const n: nat
    var k: int
    var outgoing: bool

    ghost function Value(): Shared reads this { Shared(n, k, outgoing) }

    /** `create_barrier`. */
    constructor (n: nat)
      requires 2 <= n
      ensures Value() == Shared(n, 0, false) && Sound(Value())
    {
      this.n, k, outgoing := n, 0, false;
    }

    /** The first loop of `barrier` and what follows it, up to releasing the mutex. */
    method Incoming() returns (a: Then)
      requires Sound(Value())
      modifies this
      ensures Sound(Value())
      ensures a == Retry <==> old(outgoing)
      ensures Value() == if old(outgoing) then old(Value()) else Arrive(old(Value()))
      ensures !old(outgoing) ==> (a == Return <==> outgoing)
    {
      if outgoing { return Retry; }
      k := k + 1;
      if k == n {
        outgoing := true;
        k := k - 1;
        return Return;
      }
      return Wait;
    }

    /** The second loop of `barrier` and what follows it. */
    method Outgoing() returns (a: Then)
      requires Sound(Value())
      modifies this
      ensures Sound(Value())
      ensures Value() == if old(outgoing) then Leave(old(Value())) else old(Value())
      ensures a == if old(outgoing) then Return else Retry
    {
      if !outgoing { return Retry; }
      k := k - 1;
      if k == 0 { outgoing := false; }
      return Return;
    }
  }

  // ----- all threads -----

  /** Where a thread is: outside `barrier`, in its first loop, or in its second,
      having come in to the given round. */
  datatype Pc = Idle | Arriving | Inside(round: nat)

  datatype Event = Entered(t: Tid, round: nat) | Returned(t: Tid, round: nat)

  /** `round` counts how often the way out was closed again; `calls` counts the
      completed calls of each thread. */
  datatype System = System(sh: Shared, pc: map<Tid, Pc>, calls: map<Tid, nat>, round: nat, log: seq<Event>)

  datatype Action = Call(t: Tid) | Turn(t: Tid)

  function Start(n: nat, threads: set<Tid>): System {
    System(Shared(n, 0, false), map t | t in threads :: Idle, map t | t in threads :: 0, 0, [])
  }

  function Returns(s: System, t: Tid, r: nat): System
    requires t in s.pc && t in s.calls
  {
    s.(pc := s.pc[t := Idle], calls := s.calls[t := s.calls[t] + 1], log := s.log + [Returned(t, r)])
  }

  /** A thread comes in to the current round. */
  function Enter(s: System, t: Tid): System
    requires t in s.pc && t in s.calls && !s.sh.outgoing
  {
    var s1 := s.(sh := Arrive(s.sh), log := s.log + [Entered(t, s.round)]);
    if s1.sh.outgoing then Returns(s1, t, s.round) else s1.(pc := s.pc[t := Inside(s.round)])
  }

  /** A thread goes out of the round it came in to. */
  function Exit(s: System, t: Tid): System
    requires t in s.pc && t in s.calls && s.sh.outgoing && s.pc[t].Inside?
  {
    var s1 := s.(sh := Leave(s.sh), round := if Leave(s.sh).outgoing then s.round else s.round + 1);
    Returns(s1, t, s.pc[t].round)
  }

  /** Does a turn of this thread do something, or does it spin? */
  predicate Ready(s: System, t: Tid) {
    t in s.pc && t in s.calls && ((s.pc[t].Arriving? && !s.sh.outgoing) || (s.pc[t].Inside? && s.sh.outgoing))
  }

  function Next(s: System, a: Action): System {
    match a
    case Call(t) => if t in s.pc && s.pc[t] == Idle then s.(pc := s.pc[t := Arriving]) else s
    case Turn(t) =>
      if !Ready(s, t) then s
      else if s.pc[t].Arriving? then Enter(s, t)
      else Exit(s, t)
  }

  function Run(s: System, schedule: seq<Action>): System
    decreases |schedule|
  {
    if schedule == [] then s else Next(Run(s, schedule[..|schedule| - 1]), schedule[|schedule| - 1])
  }

  // ----- what the log says -----

  /** Entries to a round. */
  function Enters(log: seq<Event>, r: nat): nat {
    if log == [] then 0
    else Enters(log[..|log| - 1], r) + if log[|log| - 1].Entered? && log[|log| - 1].round == r then 1 else 0
  }

  /** Returns from a round. */
  function Exits(log: seq<Event>, r: nat): nat {
    if log == [] then 0
    else Exits(log[..|log| - 1], r) + if log[|log| - 1].Returned? && log[|log| - 1].round == r then 1 else 0
  }

  lemma CountAppend(log: seq<Event>, e: Event)
    ensures forall r: nat :: Enters(log + [e], r) == Enters(log, r) + if e.Entered? && e.round == r then 1 else 0
    ensures forall r: nat :: Exits(log + [e], r) == Exits(log, r) + if e.Returned? && e.round == r then 1 else 0
  {
    assert (log + [e])[..|log|] == log;
  }

  /** Nobody returns from a round before `n` threads came in to it, the returning one
      among them; nobody comes in to a round before `n` threads returned from the
      round before. */
  predicate EventOk(n: nat, before: seq<Event>, e: Event) {
    match e
    case Returned(t, r) => Enters(before, r) == n && Entered(t, r) in before
    case Entered(t, r) => Enters(before, r) < n && (r > 0 ==> Exits(before, r - 1) == n)
  }

  ghost predicate LogOk(n: nat, log: seq<Event>) {
    forall i :: 0 <= i < |log| ==> EventOk(n, log[..i], log[i])
  }

  lemma LogAppend(n: nat, log: seq<Event>, e: Event)
    requires LogOk(n, log) && EventOk(n, log, e)
    ensures LogOk(n, log + [e])
  {
    forall i | 0 <= i < |log + [e]| ensures EventOk(n, (log + [e])[..i], (log + [e])[i]) {
      if i < |log| {
        assert (log + [e])[..i] == log[..i];
      } else {
        assert (log + [e])[..i] == log;
      }
    }
  }

  // ----- the invariant -----

  function Waiting(pc: map<Tid, Pc>): set<Tid> {
    set t | t in pc && pc[t].Inside?
  }

  /** How many threads have come in to round `r` and returned from it, when `round`
      is the current one. */
  function EntersBy(sh: Shared, round: nat, r: nat): int {
    if r < round then sh.n else if r > round then 0 else if sh.outgoing then sh.n else sh.k
  }

  function ExitsBy(sh: Shared, round: nat, r: nat): int {
    if r < round then sh.n else if r > round then 0 else if sh.outgoing then sh.n - sh.k else 0
  }

  ghost predicate Counts(log: seq<Event>, round: nat, sh: Shared) {
    && (forall r: nat :: Enters(log, r) == EntersBy(sh, round, r))
    && (forall r: nat :: Exits(log, r) == ExitsBy(sh, round, r))
  }

  ghost predicate Inv(s: System) {
    && Sound(s.sh) && s.calls.Keys == s.pc.Keys
    && |Waiting(s.pc)| == s.sh.k
    && (forall t :: t in s.pc && s.pc[t].Inside? ==> s.pc[t].round == s.round && Entered(t, s.round) in s.log)
    && Counts(s.log, s.round, s.sh) && LogOk(s.sh.n, s.log)
  }

  lemma StartInv(n: nat, threads: set<Tid>)
    requires 2 <= n
    ensures Inv(Start(n, threads))
  {
    assert Waiting(Start(n, threads).pc) == {};
  }

  lemma WaitingUpdate(pc: map<Tid, Pc>, t: Tid, p: Pc)
    requires t in pc
    ensures |Waiting(pc[t := p])| == |Waiting(pc)| - (if pc[t].Inside? then 1 else 0) + if p.Inside? then 1 else 0
  {
    assert Waiting(pc[t := p]) == if p.Inside? then Waiting(pc) + {t} else Waiting(pc) - {t};
    if !pc[t].Inside? { assert Waiting(pc) - {t} == Waiting(pc); }
    if pc[t].Inside? { assert Waiting(pc) + {t} == Waiting(pc); }
  }

  lemma EnterCounts(log: seq<Event>, round: nat, sh: Shared, t: Tid)
    requires Counts(log, round, sh) && Sound(sh) && !sh.outgoing
    ensures var log1 := log + [Entered(t, round)];
            Counts(if Arrive(sh).outgoing then log1 + [Returned(t, round)] else log1, round, Arrive(sh))
  {
    CountAppend(log, Entered(t, round));
    CountAppend(log + [Entered(t, round)], Returned(t, round));
  }

  lemma ExitCounts(log: seq<Event>, round: nat, sh: Shared, t: Tid)
    requires Counts(log, round, sh) && Sound(sh) && sh.outgoing
    ensures Counts(log + [Returned(t, round)], if Leave(sh).outgoing then round else round + 1, Leave(sh))
  {
    CountAppend(log, Returned(t, round));
  }

  lemma EventsOk(log: seq<Event>, round: nat, sh: Shared, t: Tid)
    requires Counts(log, round, sh) && Sound(sh)
    ensures !sh.outgoing ==> EventOk(sh.n, log, Entered(t, round))
    ensures sh.outgoing && Entered(t, round) in log ==> EventOk(sh.n, log, Returned(t, round))
    ensures !sh.outgoing && Arrive(sh).outgoing ==> EventOk(sh.n, log + [Entered(t, round)], Returned(t, round))
  {
    CountAppend(log, Entered(t, round));
    assert Entered(t, round) in log + [Entered(t, round)];
  }

  /** The last thread of a round comes in and returns at once. */
  lemma EnterLastKeeps(s: System, t: Tid)
    requires Inv(s) && t in s.pc && s.pc[t].Arriving? && !s.sh.outgoing && s.sh.k + 1 == s.sh.n
    ensures Inv(Enter(s, t))
  {
    hide LogOk, Waiting, Counts, EventOk;
    EventsOk(s.log, s.round, s.sh, t);
    EnterCounts(s.log, s.round, s.sh, t);
    LogAppend(s.sh.n, s.log, Entered(t, s.round));
    LogAppend(s.sh.n, s.log + [Entered(t, s.round)], Returned(t, s.round));
    WaitingUpdate(s.pc, t, Idle);
  }

  lemma EnterWaitKeeps(s: System, t: Tid)
    requires Inv(s) && t in s.pc && s.pc[t].Arriving? && !s.sh.outgoing && s.sh.k + 1 < s.sh.n
    ensures Inv(Enter(s, t))
  {
    hide LogOk, Waiting, Counts, EventOk;
    EventsOk(s.log, s.round, s.sh, t);
    EnterCounts(s.log, s.round, s.sh, t);
    LogAppend(s.sh.n, s.log, Entered(t, s.round));
    WaitingUpdate(s.pc, t, Inside(s.round));
  }

  lemma ExitKeeps(s: System, t: Tid)
    requires Inv(s) && t in s.pc && s.pc[t].Inside? && s.sh.outgoing
    ensures Inv(Exit(s, t))
  {
    hide LogOk, Waiting, Counts, EventOk;
    EventsOk(s.log, s.round, s.sh, t);
    ExitCounts(s.log, s.round, s.sh, t);
    LogAppend(s.sh.n, s.log, Returned(t, s.round));
    WaitingUpdate(s.pc, t, Idle);
    if s.sh.k == 1 { NobodyWaits(s, t); }
  }

  lemma NextKeeps(s: System, a: Action)
    requires Inv(s)
    ensures Inv(Next(s, a))
  {
    hide LogOk, Counts;
    if a.Call? {
      if a.t in s.pc && s.pc[a.t] == Idle {
        WaitingUpdate(s.pc, a.t, Arriving);
      }
    } else if Ready(s, a.t) {
      if s.pc[a.t].Inside? {
        ExitKeeps(s, a.t);
      } else if s.sh.k + 1 == s.sh.n {
        EnterLastKeeps(s, a.t);
      } else {
        EnterWaitKeeps(s, a.t);
      }
    }
  }

  /** In every run the log is in order. */
  lemma {:induction false} RunInv(n: nat, threads: set<Tid>, schedule: seq<Action>)
    requires 2 <= n
    ensures Inv(Run(Start(n, threads), schedule))
    decreases |schedule|
  {
    if schedule == [] {
      StartInv(n, threads);
    } else {
      RunInv(n, threads, schedule[..|schedule| - 1]);
      NextKeeps(Run(Start(n, threads), schedule[..|schedule| - 1]), schedule[|schedule| - 1]);
    }
  }

  // ----- no thread comes in to a round twice -----

  ghost predicate NoRepeat(log: seq<Event>) {
    forall i, j :: 0 <= i < j < |log| ==> log[i] != log[j]
  }

  /** The threads that have come in to a round, and those that have returned from it. */
  ghost function Entrants(log: seq<Event>, r: nat): set<Tid> {
    set e | e in log && e.Entered? && e.round == r :: e.t
  }

  ghost function Leavers(log: seq<Event>, r: nat): set<Tid> {
    set e | e in log && e.Returned? && e.round == r :: e.t
  }

  lemma GroupsAppend(log: seq<Event>, e: Event, r: nat)
    requires e !in log
    ensures Entrants(log + [e], r) == Entrants(log, r) + if e.Entered? && e.round == r then {e.t} else {}
    ensures Leavers(log + [e], r) == Leavers(log, r) + if e.Returned? && e.round == r then {e.t} else {}
    ensures e.Entered? && e.round == r ==> e.t !in Entrants(log, r)
    ensures e.Returned? && e.round == r ==> e.t !in Leavers(log, r)
  {
    forall d | d in log ensures d in log + [e] { }
    assert e in log + [e];
  }

  /** Then entries are as many as threads that came in, and returns as many as threads
      that returned. */
  lemma {:induction false} EventsAreThreads(log: seq<Event>, r: nat)
    requires NoRepeat(log)
    ensures Enters(log, r) == |Entrants(log, r)| && Exits(log, r) == |Leavers(log, r)|
    decreases |log|
  {
    hide Entrants, Leavers;
    if log == [] {
      NoGroups(r);
    } else {
      var before, e := log[..|log| - 1], log[|log| - 1];
      EventsAreThreads(before, r);
      assert before + [e] == log;
      CountAppend(before, e);
      GroupsAppend(before, e, r);
    }
  }

  lemma NoGroups(r: nat)
    ensures Entrants([], r) == {} && Leavers([], r) == {}
  { }

  /** No event is logged twice: who has come in to the round is waiting until the way
      out is open, and who is waiting has not returned from it. */
  ghost predicate OnceOnly(s: System) {
    && NoRepeat(s.log) && (forall e :: e in s.log ==> e.round <= s.round)
    && (forall t :: Entered(t, s.round) in s.log && !s.sh.outgoing ==> t in s.pc && s.pc[t].Inside?)
    && (forall t :: Returned(t, s.round) in s.log ==> s.sh.outgoing && (t in s.pc ==> !s.pc[t].Inside?))
  }

  lemma NoRepeatAppend(log: seq<Event>, e: Event)
    requires NoRepeat(log) && e !in log
    ensures NoRepeat(log + [e]) && forall d :: d in log + [e] <==> d in log || d == e
  { }

  lemma OnceOnlyKeeps(s: System, a: Action)
    requires Inv(s) && OnceOnly(s)
    ensures OnceOnly(Next(s, a))
  {
    hide LogOk, Counts, Waiting, NoRepeat;
    if a.Turn? && Ready(s, a.t) {
      var t := a.t;
      if s.pc[t].Inside? {
        NoRepeatAppend(s.log, Returned(t, s.round));
      } else {
        NoRepeatAppend(s.log, Entered(t, s.round));
        NoRepeatAppend(s.log + [Entered(t, s.round)], Returned(t, s.round));
      }
    }
  }

  lemma {:induction false} RunOnceOnly(n: nat, threads: set<Tid>, schedule: seq<Action>)
    requires 2 <= n
    ensures OnceOnly(Run(Start(n, threads), schedule))
    decreases |schedule|
  {
    if schedule != [] {
      var before := schedule[..|schedule| - 1];
      RunOnceOnly(n, threads, before);
      RunInv(n, threads, before);
      OnceOnlyKeeps(Run(Start(n, threads), before), schedule[|schedule| - 1]);
    }
  }

  /** In every run, whenever a thread returns from a round, exactly `n` threads have
      come in to it, the thread itself among them. */
  lemma NoEarlyReturn(n: nat, threads: set<Tid>, schedule: seq<Action>, i: nat)
    requires 2 <= n
    ensures var log := Run(Start(n, threads), schedule).log;
            i < |log| && log[i].Returned? ==>
              |Entrants(log[..i], log[i].round)| == n && log[i].t in Entrants(log[..i], log[i].round)
  {
    RunInv(n, threads, schedule);
    RunOnceOnly(n, threads, schedule);
    var s := Run(Start(n, threads), schedule);
    RunSize(n, threads, schedule);
    if i < |s.log| {
      assert EventOk(n, s.log[..i], s.log[i]);
      EventsAreThreads(s.log[..i], s.log[i].round);
    }
  }

  /** In every run, whenever a thread comes in to the next round, all `n` threads have
      returned from the one before, and the next round is not complete. */
  lemma NoEarlyEntry(n: nat, threads: set<Tid>, schedule: seq<Action>, i: nat)
    requires 2 <= n
    ensures var log := Run(Start(n, threads), schedule).log;
            i < |log| && log[i].Entered? ==>
              && |Entrants(log[..i], log[i].round)| < n && log[i].t !in Entrants(log[..i], log[i].round)
              && (log[i].round > 0 ==>
                    |Leavers(log[..i], log[i].round - 1)| == n
                    && Leavers(log[..i], log[i].round - 1) == Entrants(log[..i], log[i].round - 1))
  {
    hide Run, Entrants, Leavers, NoRepeat, Enters, Exits, LogOk, Counts;
    RunInv(n, threads, schedule);
    RunOnceOnly(n, threads, schedule);
    var s := Run(Start(n, threads), schedule);
    RunSize(n, threads, schedule);
    if i < |s.log| && s.log[i].Entered? { EntryIsLate(n, s.log, i); }
  }

  lemma EntryIsLate(n: nat, log: seq<Event>, i: nat)
    requires LogOk(n, log) && NoRepeat(log) && i < |log| && log[i].Entered?
    ensures |Entrants(log[..i], log[i].round)| < n && log[i].t !in Entrants(log[..i], log[i].round)
    ensures log[i].round > 0 ==>
              && |Leavers(log[..i], log[i].round - 1)| == n
              && Leavers(log[..i], log[i].round - 1) == Entrants(log[..i], log[i].round - 1)
  {
    hide Leavers, Enters, Exits;
    var before, r := log[..i], log[i].round;
    assert EventOk(n, before, log[i]);
    assert NoRepeat(before);
    EventsAreThreads(before, r);
    if r > 0 {
      EventsAreThreads(before, r - 1);
      LeaversCameIn(n, log, i, r - 1);
    }
  }

  lemma LeaverCameIn(n: nat, log: seq<Event>, i: nat, r: nat, t: Tid)
    requires LogOk(n, log) && i <= |log| && t in Leavers(log[..i], r)
    ensures t in Entrants(log[..i], r)
  {
    var j :| 0 <= j < i && log[..i][j] == Returned(t, r);
    assert EventOk(n, log[..j], log[j]);
    var k :| 0 <= k < j && log[..j][k] == Entered(t, r);
    assert log[..i][k] == Entered(t, r);
  }

  /** The threads that return from a round are those that came in. */
  lemma LeaversCameIn(n: nat, log: seq<Event>, i: nat, r: nat)
    requires LogOk(n, log) && i <= |log| && |Leavers(log[..i], r)| == n && NoRepeat(log)
    ensures Leavers(log[..i], r) == Entrants(log[..i], r)
  {
    hide LogOk, Entrants, Leavers, Enters, Exits;
    var before := log[..i];
    forall t | t in Leavers(before, r) ensures t in Entrants(before, r) { LeaverCameIn(n, log, i, r, t); }
    EventsAreThreads(before, r);
    AtMost(n, log, i, r);
    NoMore(Leavers(before, r), Entrants(before, r));
    SameSize(Leavers(before, r), Entrants(before, r));
  }

  lemma {:induction false} NoMore(a: set<Tid>, b: set<Tid>)
    requires a <= b
    ensures |a| <= |b|
    decreases |a|
  {
    if x :| x in a { NoMore(a - {x}, b - {x}); }
  }

  /** Never more than `n` threads come in to a round. */
  lemma {:induction false} AtMost(n: nat, log: seq<Event>, i: nat, r: nat)
    requires LogOk(n, log) && i <= |log|
    ensures Enters(log[..i], r) <= n
    decreases i
  {
    if i > 0 {
      AtMost(n, log, i - 1, r);
      assert log[..i] == log[..i - 1] + [log[i - 1]];
      CountAppend(log[..i - 1], log[i - 1]);
      assert EventOk(n, log[..i - 1], log[i - 1]);
    }
  }

  lemma {:induction false} RunSize(n: nat, threads: set<Tid>, schedule: seq<Action>)
    ensures Run(Start(n, threads), schedule).sh.n == n && Run(Start(n, threads), schedule).pc.Keys == threads
    decreases |schedule|
  {
    if schedule != [] { RunSize(n, threads, schedule[..|schedule| - 1]); }
  }

  // ----- exactly n threads -----

  /** The threads that have returned from the current round have completed one call
      more than the others. */
  ghost predicate Even(s: System) {
    && |s.pc.Keys| == s.sh.n
    && forall t :: t in s.pc && t in s.calls ==>
         s.calls[t] == if s.sh.outgoing && !s.pc[t].Inside? then s.round + 1 else s.round
  }

  /** When the last thread comes in, all others are waiting. */
  lemma OthersWait(s: System, t: Tid)
    requires Inv(s) && Even(s) && t in s.pc && !s.pc[t].Inside? && s.sh.k + 1 == s.sh.n
    ensures forall u :: u in s.pc && u != t ==> s.pc[u].Inside?
  {
    var others, waiting := s.pc.Keys - {t}, Waiting(s.pc);
    assert waiting <= others;
    SameSize(waiting, others);
    forall u | u in s.pc && u != t ensures s.pc[u].Inside? { assert u in waiting; }
  }

  lemma {:induction false} SameSize(a: set<Tid>, b: set<Tid>)
    requires a <= b && |a| == |b|
    ensures a == b
    decreases |a|
  {
    if x :| x in a {
      SameSize(a - {x}, b - {x});
      assert a == a - {x} + {x} && b == b - {x} + {x};
    }
  }

  lemma EvenKeeps(s: System, a: Action)
    requires Inv(s) && Even(s)
    ensures Even(Next(s, a))
  {
    hide LogOk, Counts;
    var s' := Next(s, a);
    assert s'.pc.Keys == s.pc.Keys;
    if a.Turn? && Ready(s, a.t) {
      if s.pc[a.t].Arriving? && s.sh.k + 1 == s.sh.n { OthersWait(s, a.t); }
      if s.pc[a.t].Inside? && s.sh.k == 1 { NobodyWaits(s, a.t); }
    }
  }

  lemma NobodyWaits(s: System, t: Tid)
    requires Inv(s) && t in s.pc && s.pc[t].Inside? && s.sh.k == 1
    ensures forall u :: u in s.pc && u != t ==> !s.pc[u].Inside?
  {
    WaitingUpdate(s.pc, t, Idle);
    forall u | u in s.pc && u != t ensures !s.pc[u].Inside? { assert u !in Waiting(s.pc[t := Idle]); }
  }

  /** With exactly `n` threads, no thread is ever more than one call ahead of another. */
  lemma {:induction false} InStep(n: nat, threads: set<Tid>, schedule: seq<Action>)
    requires 2 <= n && |threads| == n
    ensures var s := Run(Start(n, threads), schedule);
            && Even(s) && s.calls.Keys == threads
            && forall t, u :: t in threads && u in threads ==> s.calls[t] <= s.calls[u] + 1
    decreases |schedule|
  {
    if schedule == [] {
      StartInv(n, threads);
      assert Start(n, threads).pc.Keys == threads;
    } else {
      var before := schedule[..|schedule| - 1];
      InStep(n, threads, before);
      RunInv(n, threads, before);
      EvenKeeps(Run(Start(n, threads), before), schedule[|schedule| - 1]);
    }
    RunInv(n, threads, schedule);
    RunSize(n, threads, schedule);
  }

  /** As long as all threads, `n` or more, keep calling, one of them does not spin. */
  lemma SomeoneIsReady(s: System)
    requires Inv(s) && |s.pc.Keys| >= s.sh.n && forall t :: t in s.pc ==> !s.pc[t].Idle?
    ensures exists t :: Ready(s, t)
  {
    var waiting := Waiting(s.pc);
    if s.sh.outgoing {
      var t :| t in waiting;
      assert Ready(s, t);
    } else {
      var others := s.pc.Keys - waiting;
      assert waiting <= s.pc.Keys && others + waiting == s.pc.Keys;
      assert others != {};
      var t :| t in others;
      assert Ready(s, t);
    }
  }

  // ----- progress -----

  /** The turns of a run that are not spinning. */
  function Effective(n: nat, threads: set<Tid>, schedule: seq<Action>): nat
    decreases |schedule|
  {
    if schedule == [] then 0
    else
      var before, a := schedule[..|schedule| - 1], schedule[|schedule| - 1];
      Effective(n, threads, before) + if a.Turn? && Ready(Run(Start(n, threads), before), a.t) then 1 else 0
  }

  /** How many turns the current round has had. */
  function Phase(sh: Shared): int {
    if sh.outgoing then 2 * sh.n - 1 - sh.k else sh.k
  }

  lemma TurnAdvances(s: System, t: Tid)
    requires Inv(s) && Ready(s, t)
    ensures var s' := Next(s, Turn(t));
            (2 * s.sh.n - 1) * s'.round + Phase(s'.sh) == (2 * s.sh.n - 1) * s.round + Phase(s.sh) + 1
  {
    hide LogOk, Counts, Waiting;
    var c := 2 * s.sh.n - 1;
    assert c * (s.round + 1) == c * s.round + c;
  }

  /** A round takes 2n - 1 turns that are not spinning, no more and no fewer, so as long
      as threads do not only spin, rounds are completed. */
  lemma {:induction false} TurnsMakeRounds(n: nat, threads: set<Tid>, schedule: seq<Action>)
    requires 2 <= n
    ensures var s := Run(Start(n, threads), schedule);
            Effective(n, threads, schedule) == (2 * n - 1) * s.round + Phase(s.sh) && 0 <= Phase(s.sh) < 2 * n - 1
    decreases |schedule|
  {
    hide LogOk, Counts, Waiting;
    RunInv(n, threads, schedule);
    RunSize(n, threads, schedule);
    if schedule != [] {
      var before, a := schedule[..|schedule| - 1], schedule[|schedule| - 1];
      TurnsMakeRounds(n, threads, before);
      RunInv(n, threads, before);
      RunSize(n, threads, before);
      var s := Run(Start(n, threads), before);
      if a.Turn? && Ready(s, a.t) { TurnAdvances(s, a.t); }
    }
  }
}
