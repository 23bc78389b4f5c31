/** The dining philosophers, as clients of the lock order: any number of them, each
    with two forks, the first below the second. */
module Philosophers {
  import opened LockOrder

  datatype Forks = Forks(fork1: Id, fork2: Id)

  /** Where a philosopher is in its loop. */
  datatype Pc = Thinking | ReachingSecond | HasSecond | ReachingFirst | Eating | HasFirst

  datatype Table = Table(sys: System, forks: map<Tid, Forks>, pc: map<Tid, Pc>, meals: map<Tid, nat>)

  /** What the philosopher does next, and where it is then. */
  function Action(t: Tid, f: Forks, p: Pc): (LockOrder.Action, Pc) {
    match p
    case Thinking => (Request(t, f.fork2), ReachingSecond)
    case ReachingSecond => (Grant(t), HasSecond)
    case HasSecond => (Request(t, f.fork1), ReachingFirst)
    case ReachingFirst => (Grant(t), Eating)
    case Eating => (Release(t, f.fork2), HasFirst)
    case HasFirst => (Release(t, f.fork1), Thinking)
  }

  ghost predicate Sits(d: Table, t: Tid) {
    t in d.forks && t in d.pc && t in d.meals
  }

  /** A turn of a philosopher; one that waits for a fork somebody holds does nothing. */
  ghost function Turn(d: Table, t: Tid): Table
    requires Sits(d, t)
  {
    var (a, p) := Action(t, d.forks[t], d.pc[t]);
    if !Allowed(d.sys, a) then d
    else Table(Next(d.sys, a), d.forks, d.pc[t := p], if p == Eating then d.meals[t := d.meals[t] + 1] else d.meals)
  }

  /** The locks a philosopher holds and the one it waits for. */
  ghost predicate AtPlace(sys: System, t: Tid, f: Forks, p: Pc) {
    && t in sys.held && f.fork1 in sys.locks && f.fork2 in sys.locks && Below(sys.below, f.fork1, f.fork2)
    && match p
       case Thinking => sys.held[t] == [] && t !in sys.waits
       case ReachingSecond => sys.held[t] == [] && t in sys.waits && sys.waits[t] == f.fork2
       case HasSecond => sys.held[t] == [f.fork2] && t !in sys.waits
       case ReachingFirst => sys.held[t] == [f.fork2] && t in sys.waits && sys.waits[t] == f.fork1
       case Eating => sys.held[t] == [f.fork1, f.fork2] && t !in sys.waits
       case HasFirst => sys.held[t] == [f.fork1] && t !in sys.waits
  }

  /** Only philosophers use the locks. */
  ghost predicate Seated(d: Table) {
    && Disciplined(d.sys) && d.forks.Keys == d.pc.Keys == d.meals.Keys == d.sys.held.Keys
    && forall t :: t in d.forks && t in d.pc ==> AtPlace(d.sys, t, d.forks[t], d.pc[t])
  }

  /** A philosopher obeys the contracts of the locks: it can act unless it waits for a
      fork that is taken. */
  lemma Obeys(d: Table, t: Tid)
    requires Seated(d) && Sits(d, t)
    ensures Allowed(d.sys, Action(t, d.forks[t], d.pc[t]).0) <==> !Blocked(d.sys, t)
  {
    hide Disciplined;
    assert AtPlace(d.sys, t, d.forks[t], d.pc[t]);
  }

  lemma TurnOf(sys: System, t: Tid, f: Forks, p: Pc)
    requires AtPlace(sys, t, f, p) && Disciplined(sys) && Allowed(sys, Action(t, f, p).0)
    ensures AtPlace(Next(sys, Action(t, f, p).0), t, f, Action(t, f, p).1)
  {
    hide Disciplined, Sorted, BelowAll;
    Apart(sys, f);
    assert Remove(f.fork2, [f.fork1, f.fork2]) == [f.fork1];
    assert Remove(f.fork1, [f.fork1]) == [];
  }

  lemma Apart(sys: System, f: Forks)
    requires Disciplined(sys) && Below(sys.below, f.fork1, f.fork2)
    ensures f.fork1 != f.fork2
  { }

  lemma OthersStay(sys: System, t: Tid, f: Forks, p: Pc, u: Tid, g: Forks, q: Pc)
    requires AtPlace(sys, t, f, p) && Allowed(sys, Action(t, f, p).0) && AtPlace(sys, u, g, q) && u != t
    ensures AtPlace(Next(sys, Action(t, f, p).0), u, g, q)
  {
    hide Sorted, BelowAll, Remove;
  }

  lemma TurnKeeps(d: Table, t: Tid)
    requires Seated(d) && Sits(d, t)
    ensures Seated(Turn(d, t))
  {
    hide Disciplined, AtPlace, Allowed;
    var f, p := d.forks[t], d.pc[t];
    var a := Action(t, f, p).0;
    if Allowed(d.sys, a) {
      assert AtPlace(d.sys, t, f, p);
      TurnOf(d.sys, t, f, p);
      NextKeeps(d.sys, a);
      HeldKeys(d.sys, t, f, p);
      var d' := Turn(d, t);
      forall u | u in d'.forks && u in d'.pc ensures AtPlace(d'.sys, u, d'.forks[u], d'.pc[u]) {
        if u != t { OthersStay(d.sys, t, f, p, u, d.forks[u], d.pc[u]); }
      }
    }
  }

  lemma HeldKeys(sys: System, t: Tid, f: Forks, p: Pc)
    requires Allowed(sys, Action(t, f, p).0)
    ensures Next(sys, Action(t, f, p).0).held.Keys == sys.held.Keys
  { }

  // ----- runs -----

  /** A philosopher takes a turn, or one is created: it can run at once. */
  datatype Move = Acts(t: Tid) | Arrives(t: Tid, forks: Forks)

  /** The precondition of `create_philosopher`, for a new thread. */
  ghost predicate CanArrive(d: Table, t: Tid, f: Forks) {
    && Allowed(d.sys, Spawn(t)) && f.fork1 in d.sys.locks && f.fork2 in d.sys.locks
    && Below(d.sys.below, f.fork1, f.fork2)
  }

  ghost function Moved(d: Table, m: Move): Table {
    match m
    case Acts(t) => if Sits(d, t) then Turn(d, t) else d
    case Arrives(t, f) =>
      if CanArrive(d, t, f) then
        Table(Next(d.sys, Spawn(t)), d.forks[t := f], d.pc[t := Thinking], d.meals[t := 0])
      else d
  }

  /** A new philosopher disturbs nobody. */
  lemma ArrivalKeeps(d: Table, t: Tid, f: Forks)
    requires Seated(d) && CanArrive(d, t, f)
    ensures Seated(Moved(d, Arrives(t, f)))
  {
    hide Disciplined;
    var d' := Moved(d, Arrives(t, f));
    SpawnKeeps(d.sys, t);
    NotWaiting(d.sys, t);
    forall u | u in d'.forks && u in d'.pc ensures AtPlace(d'.sys, u, d'.forks[u], d'.pc[u]) {
      if u != t { assert AtPlace(d.sys, u, d.forks[u], d.pc[u]); }
    }
  }

  lemma NotWaiting(sys: System, t: Tid)
    requires Disciplined(sys) && t !in sys.held
    ensures t !in sys.waits
  { }

  lemma SameForks(sys: System, t: Tid, f: Forks, p: Pc)
    requires Allowed(sys, Action(t, f, p).0)
    ensures Next(sys, Action(t, f, p).0).locks == sys.locks && Next(sys, Action(t, f, p).0).below == sys.below
  { }

  ghost function Dine(d: Table, schedule: seq<Move>): Table
    decreases |schedule|
  {
    if schedule == [] then d else Moved(Dine(d, schedule[..|schedule| - 1]), schedule[|schedule| - 1])
  }

  /** Everybody keeps to the order of the forks, whoever came and whatever they do. */
  lemma {:induction false} DineKeeps(d: Table, schedule: seq<Move>)
    requires Seated(d)
    ensures var d' := Dine(d, schedule);
            && Seated(d') && d'.sys.locks == d.sys.locks && d'.sys.below == d.sys.below
            && d.forks.Keys <= d'.forks.Keys && forall t :: t in d.forks ==> t in d'.forks && d'.forks[t] == d.forks[t]
    decreases |schedule|
  {
    if schedule != [] {
      DineKeeps(d, schedule[..|schedule| - 1]);
      MoveKeeps(Dine(d, schedule[..|schedule| - 1]), schedule[|schedule| - 1]);
    }
  }

  lemma MoveKeeps(d: Table, m: Move)
    requires Seated(d)
    ensures var d' := Moved(d, m);
            && Seated(d') && d'.sys.locks == d.sys.locks && d'.sys.below == d.sys.below
            && d.forks.Keys <= d'.forks.Keys && forall t :: t in d.forks ==> t in d'.forks && d'.forks[t] == d.forks[t]
  {
    hide AtPlace, Disciplined;
    match m {
      case Acts(t) =>
        if Sits(d, t) {
          TurnKeeps(d, t);
          if Allowed(d.sys, Action(t, d.forks[t], d.pc[t]).0) { SameForks(d.sys, t, d.forks[t], d.pc[t]); }
        }
      case Arrives(t, f) => if CanArrive(d, t, f) { ArrivalKeeps(d, t, f); }
    }
  }

  /** Whatever the schedule, some philosopher can always act. */
  lemma SomeoneActs(d: Table, schedule: seq<Move>) returns (t: Tid)
    requires Seated(d) && Dine(d, schedule).forks.Keys != {}
    ensures var d' := Dine(d, schedule); Sits(d', t) && Turn(d', t) != d'
  {
    hide AtPlace, Disciplined;
    DineKeeps(d, schedule);
    var d' := Dine(d, schedule);
    t := CanGo(d');
    Obeys(d', t);
    assert Action(t, d'.forks[t], d'.pc[t]).1 != d'.pc[t];
  }

  lemma CanGo(d: Table) returns (t: Tid)
    requires Seated(d) && d.forks.Keys != {}
    ensures Sits(d, t) && !Blocked(d.sys, t)
  {
    if d.sys.holder.Keys == {} {
      t :| t in d.forks.Keys;
    } else {
      t := HolderCanGo(d.sys);
    }
  }

  /** Philosophers who eat at the same time share no fork. */
  lemma ForksAreExclusive(d: Table, schedule: seq<Move>, t: Tid, u: Tid)
    requires Seated(d) && t != u
    ensures var d' := Dine(d, schedule);
            Sits(d', t) && Sits(d', u) && d'.pc[t] == Eating && d'.pc[u] == Eating ==>
              {d'.forks[t].fork1, d'.forks[t].fork2} !! {d'.forks[u].fork1, d'.forks[u].fork2}
  {
    hide Disciplined, AtPlace;
    DineKeeps(d, schedule);
    var d' := Dine(d, schedule);
    if Sits(d', t) && Sits(d', u) && d'.pc[t] == Eating && d'.pc[u] == Eating {
      assert AtPlace(d'.sys, t, d'.forks[t], d'.pc[t]) && AtPlace(d'.sys, u, d'.forks[u], d'.pc[u]);
      EatsAlone(d'.sys, t, d'.forks[t]);
      EatsAlone(d'.sys, u, d'.forks[u]);
    }
  }

  lemma EatsAlone(sys: System, t: Tid, f: Forks)
    requires Disciplined(sys) && AtPlace(sys, t, f, Eating)
    ensures f.fork1 in sys.holder && sys.holder[f.fork1] == t && f.fork2 in sys.holder && sys.holder[f.fork2] == t
  {
    assert sys.held[t][0] == f.fork1 && sys.held[t][1] == f.fork2;
    assert f.fork1 in sys.held[t] && f.fork2 in sys.held[t];
  }

  // ----- meals -----

  /** How many turns a philosopher took since it was last thinking, less six if it has
      eaten since. */
  function Since(p: Pc): int {
    match p
    case Thinking => 0
    case ReachingSecond => 1
    case HasSecond => 2
    case ReachingFirst => 3
    case Eating => -2
    case HasFirst => -1
  }

  function TotalMeals(ts: seq<Tid>, d: Table): nat {
    if ts == [] then 0 else (if ts[0] in d.meals then d.meals[ts[0]] else 0) + TotalMeals(ts[1..], d)
  }

  function TurnsOf(t: Tid, d: Table): int {
    if t in d.meals && t in d.pc then 6 * d.meals[t] + Since(d.pc[t]) else 0
  }

  function TotalTurns(ts: seq<Tid>, d: Table): int {
    if ts == [] then 0 else TurnsOf(ts[0], d) + TotalTurns(ts[1..], d)
  }

  lemma {:induction false} MealsAndTurns(ts: seq<Tid>, d: Table)
    requires d.meals.Keys == d.pc.Keys
    ensures -2 * |ts| <= TotalTurns(ts, d) - 6 * TotalMeals(ts, d) <= 3 * |ts|
    decreases |ts|
  {
    if ts != [] { MealsAndTurns(ts[1..], d); }
  }

  predicate NoDup(ts: seq<Tid>) {
    ts == [] || (ts[0] !in ts[1..] && NoDup(ts[1..]))
  }

  /** A turn that does something counts once. */
  lemma {:induction false} TurnCounts(ts: seq<Tid>, d: Table, t: Tid)
    requires NoDup(ts) && Sits(d, t) && Allowed(d.sys, Action(t, d.forks[t], d.pc[t]).0)
    ensures TotalTurns(ts, Turn(d, t)) == TotalTurns(ts, d) + if t in ts then 1 else 0
    decreases |ts|
  {
    hide Allowed, Next;
    if ts != [] { TurnCounts(ts[1..], d, t); }
  }

  /** Arrivals count nothing. */
  lemma {:induction false} ArrivalCounts(ts: seq<Tid>, d: Table, t: Tid, f: Forks)
    requires CanArrive(d, t, f) && t !in d.meals
    ensures TotalTurns(ts, Moved(d, Arrives(t, f))) == TotalTurns(ts, d)
    decreases |ts|
  {
    hide CanArrive, Next;
    if ts != [] { ArrivalCounts(ts[1..], d, t, f); }
  }

  /** The turns of a schedule that do something. */
  ghost function Effective(d: Table, schedule: seq<Move>): nat {
    if schedule == [] then 0
    else
      var before := schedule[..|schedule| - 1];
      var m := schedule[|schedule| - 1];
      Effective(d, before) + if m.Acts? && Dine(d, schedule) != Dine(d, before) then 1 else 0
  }

  /** As long as somebody acts, meals are eaten: at least one for every six turns that
      do something, up to the start. */
  lemma {:induction false} MealsGoOn(d: Table, ts: seq<Tid>, schedule: seq<Move>)
    requires Seated(d) && NoDup(ts) && forall t :: t in Dine(d, schedule).forks ==> t in ts
    ensures TotalTurns(ts, Dine(d, schedule)) == TotalTurns(ts, d) + Effective(d, schedule)
    ensures Effective(d, schedule) <= 6 * TotalMeals(ts, Dine(d, schedule)) + 5 * |ts|
    decreases |schedule|
  {
    hide TotalTurns, AtPlace, Disciplined, Moved, TotalMeals;
    DineKeeps(d, schedule);
    MealsAndTurns(ts, Dine(d, schedule));
    MealsAndTurns(ts, d);
    if schedule != [] {
      var before := schedule[..|schedule| - 1];
      DineKeeps(d, before);
      MoveKeeps(Dine(d, before), schedule[|schedule| - 1]);
      MealsGoOn(d, ts, before);
      MoveCounts(ts, Dine(d, before), schedule[|schedule| - 1]);
    }
  }

  lemma MoveCounts(ts: seq<Tid>, d: Table, m: Move)
    requires Seated(d) && NoDup(ts) && forall t :: t in d.forks ==> t in ts
    ensures TotalTurns(ts, Moved(d, m)) == TotalTurns(ts, d) + if m.Acts? && Moved(d, m) != d then 1 else 0
  {
    hide TotalTurns, AtPlace, Disciplined, Allowed, Next, CanArrive;
    match m {
      case Acts(t) =>
        if Sits(d, t) && Allowed(d.sys, Action(t, d.forks[t], d.pc[t]).0) {
          TurnCounts(ts, d, t);
          assert Action(t, d.forks[t], d.pc[t]).1 != d.pc[t];
        }
      case Arrives(t, f) =>
        if CanArrive(d, t, f) {
          IsNew(d, t, f);
          ArrivalCounts(ts, d, t, f);
        }
    }
  }

  lemma IsNew(d: Table, t: Tid, f: Forks)
    requires Seated(d) && CanArrive(d, t, f)
    ensures t !in d.meals
  { }

  // ----- the program -----

  /** The locks `main` creates: three forks in order. */
  function LayForks(a: Id, b: Id, c: Id): seq<LockOrder.Action> {
    [Create(a, [], []), Create(b, [a], []), Create(c, [a, b], [])]
  }

  /** The forks of the philosophers `main` creates. */
  function Guests(a: Id, b: Id, c: Id): seq<Forks> {
    [Forks(a, b), Forks(b, c), Forks(a, c)]
  }

  /** The table before anybody is there. */
  ghost function Laid(sys: System): Table {
    Table(sys, map[], map[], map[])
  }

  /** In every run, `main` can create each of its philosophers whatever the earlier ones
      are doing, and all keep to the order. */
  lemma DinnerIsSeated(run: seq<System>, a: Id, b: Id, c: Id, schedule: seq<Move>, i: nat, t: Tid)
    requires IsRun(run, LayForks(a, b, c)) && i < 3
    ensures Seated(Laid(run[3])) && Seated(Dine(Laid(run[3]), schedule))
    ensures t !in Dine(Laid(run[3]), schedule).forks ==>
              CanArrive(Dine(Laid(run[3]), schedule), t, Guests(a, b, c)[i])
  {
    RunKeeps(run, LayForks(a, b, c), 3);
    ForksInOrder(run, a, b, c);
    DineKeeps(Laid(run[3]), schedule);
  }

  function ForkSet(f: Forks): set<Id> {
    {f.fork1, f.fork2}
  }

  /** Each philosopher of `main` has two forks, every two of them compete for exactly
      one, and each fork has exactly two users. */
  lemma GuestsCompete(a: Id, b: Id, c: Id, i: nat, j: nat, fork: Id)
    requires a != b && b != c && a != c && i < j < 3 && fork in {a, b, c}
    ensures var g := Guests(a, b, c);
            && |g| == 3 && |ForkSet(g[i])| == 2 && |ForkSet(g[i]) * ForkSet(g[j])| == 1
            && |set k | 0 <= k < 3 && fork in ForkSet(g[k])| == 2
  {
    var g := Guests(a, b, c);
    var shared := if i == 1 then c else if j == 1 then b else a;
    assert ForkSet(g[i]) * ForkSet(g[j]) == {shared};
    var users := if fork == a then {0, 2} else if fork == b then {0, 1} else {1, 2};
    assert (set k | 0 <= k < 3 && fork in ForkSet(g[k])) == users;
  }

  /** So of the philosophers of `main`, whoever runs when, no two eat at the same time. */
  lemma OneEatsAtATime(run: seq<System>, a: Id, b: Id, c: Id, schedule: seq<Move>, i: nat, j: nat, t: Tid, u: Tid)
    requires IsRun(run, LayForks(a, b, c)) && i < j < 3
    ensures var d := Dine(Laid(run[3]), schedule);
            Sits(d, t) && Sits(d, u) && d.forks[t] == Guests(a, b, c)[i] && d.forks[u] == Guests(a, b, c)[j] ==>
              !(d.pc[t] == Eating && d.pc[u] == Eating)
  {
    hide Seated, Dine, AtPlace;
    ForksInOrder(run, a, b, c);
    DinnerIsSeated(run, a, b, c, schedule, i, t);
    ForksDiffer(run, a, b, c);
    GuestsCompete(a, b, c, i, j, a);
    if t != u { ForksAreExclusive(Laid(run[3]), schedule, t, u); }
  }

  lemma ForksDiffer(run: seq<System>, a: Id, b: Id, c: Id)
    requires IsRun(run, LayForks(a, b, c))
    ensures a != b && b != c && a != c
  {
    RunKeeps(run, LayForks(a, b, c), 3);
    ForksInOrder(run, a, b, c);
  }

  lemma ForksInOrder(run: seq<System>, a: Id, b: Id, c: Id)
    requires IsRun(run, LayForks(a, b, c))
    ensures var s := run[3];
            && Below(s.below, a, b) && Below(s.below, b, c) && Below(s.below, a, c)
            && a in s.locks && b in s.locks && c in s.locks && s.held == map[] && s.waits == map[]
  {
    hide Insert;
    RunKeeps(run, LayForks(a, b, c), 0);
    RunKeeps(run, LayForks(a, b, c), 1);
    RunKeeps(run, LayForks(a, b, c), 2);
    var s0, s1, s2 := run[0], run[1], run[2];
    assert s1 == Next(s0, Create(a, [], [])) && s2 == Next(s1, Create(b, [a], []));
    assert run[3] == Next(s2, Create(c, [a, b], []));
    InsertKeeps(s1.locks, s1.below, b, [a], []);
    InsertKeeps(s2.locks, s2.below, c, [a, b], []);
    AboveAllMeans(s2.below, b, [a]);
    AboveAllMeans(run[3].below, c, [a, b]);
  }

  /** The contracts allow the locks of `main`, whatever identities they get. */
  lemma ForksAreAllowed(a: Id, b: Id, c: Id) returns (run: seq<System>)
    requires a != b && b != c && a != c
    ensures IsRun(run, LayForks(a, b, c))
  {
    hide Insert;
    var s0 := System({}, {}, map[], map[], map[]);
    var s1 := Next(s0, Create(a, [], []));
    AllBelowNone(s1.below, [a]);
    var s2 := Next(s1, Create(b, [a], []));
    AllBelowNone(s2.below, [a, b]);
    var s3 := Next(s2, Create(c, [a, b], []));
    run := [s0, s1, s2, s3];
  }
}
