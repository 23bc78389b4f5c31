/** The lock-order discipline: a thread may only wait for a lock below all those it
    holds, in an order that grows as locks are created. */
module LockOrder {

  type Id = nat
  type Tid = nat
  type Order = set<(Id, Id)>

  // ----- the order, and the functions the contracts use -----

  predicate Below(below: Order, a: Id, b: Id) {
    (a, b) in below
  }

  ghost predicate StrictOrder(locks: set<Id>, below: Order) {
    && (forall a, b :: Below(below, a, b) ==> a in locks && b in locks && a != b)
    && (forall a, b, c :: Below(below, a, b) && Below(below, b, c) ==> Below(below, a, c))
  }

  predicate BelowAll(below: Order, l: Id, ls: seq<Id>) {
    ls == [] || (Below(below, l, ls[0]) && BelowAll(below, l, ls[1..]))
  }

  predicate AllBelowAll(below: Order, ls: seq<Id>, us: seq<Id>) {
    ls == [] || (BelowAll(below, ls[0], us) && AllBelowAll(below, ls[1..], us))
  }

  predicate AboveAll(below: Order, l: Id, ls: seq<Id>) {
    ls == [] || (Below(below, ls[0], l) && AboveAll(below, l, ls[1..]))
  }

  /** Below the lock acquired last, which is the first of the list. */
  predicate BelowTop(below: Order, l: Id, ls: seq<Id>) {
    ls == [] || Below(below, l, ls[0])
  }

  function Remove(l: Id, ls: seq<Id>): seq<Id> {
    if ls == [] then [] else if ls[0] == l then ls[1..] else [ls[0]] + Remove(l, ls[1..])
  }

  lemma {:induction false} BelowAllMeans(below: Order, l: Id, ls: seq<Id>)
    ensures BelowAll(below, l, ls) <==> forall x :: x in ls ==> Below(below, l, x)
    decreases |ls|
  {
    if ls != [] {
      BelowAllMeans(below, l, ls[1..]);
      assert forall x :: x in ls <==> x == ls[0] || x in ls[1..];
    }
  }

  lemma {:induction false} AboveAllMeans(below: Order, l: Id, ls: seq<Id>)
    ensures AboveAll(below, l, ls) <==> forall x :: x in ls ==> Below(below, x, l)
    decreases |ls|
  {
    if ls != [] {
      AboveAllMeans(below, l, ls[1..]);
      assert forall x :: x in ls <==> x == ls[0] || x in ls[1..];
    }
  }

  lemma {:induction false} AllBelowAllMeans(below: Order, ls: seq<Id>, us: seq<Id>, l: Id, u: Id)
    requires AllBelowAll(below, ls, us) && l in ls && u in us
    ensures Below(below, l, u)
    decreases |ls|
  {
    BelowAllMeans(below, ls[0], us);
    if l != ls[0] { AllBelowAllMeans(below, ls[1..], us, l, u); }
  }

  lemma {:induction false} AllBelowNone(below: Order, ls: seq<Id>)
    ensures AllBelowAll(below, ls, [])
    decreases |ls|
  {
    if ls != [] { AllBelowNone(below, ls[1..]); }
  }

  // ----- creating a lock between bounds -----

  ghost predicate Under(below: Order, a: Id, ls: seq<Id>) {
    exists l :: l in ls && (a == l || Below(below, a, l))
  }

  ghost predicate Over(below: Order, b: Id, us: seq<Id>) {
    exists u :: u in us && (u == b || Below(below, u, b))
  }

  /** The order with `l` put above `ls` and everything under them, and below `us` and
      everything over them. */
  ghost function Insert(locks: set<Id>, below: Order, l: Id, ls: seq<Id>, us: seq<Id>): Order {
    below + (set a | a in locks && Under(below, a, ls) :: (a, l)) + (set b | b in locks && Over(below, b, us) :: (l, b))
  }

  lemma InsertMeans(locks: set<Id>, below: Order, l: Id, ls: seq<Id>, us: seq<Id>, a: Id, b: Id)
    requires StrictOrder(locks, below) && l !in locks
    ensures Below(Insert(locks, below, l, ls, us), a, b) <==>
            || Below(below, a, b)
            || (b == l && a in locks && Under(below, a, ls)) || (a == l && b in locks && Over(below, b, us))
  { }

  /** Nothing is ordered that need not be: the new order is part of every strict order
      that has the old one and the new lock between its bounds. */
  lemma InsertIsLeast(locks: set<Id>, below: Order, l: Id, ls: seq<Id>, us: seq<Id>, order: Order)
    requires StrictOrder(locks, below) && l !in locks && StrictOrder(locks + {l}, order) && below <= order
    requires (forall x :: x in ls ==> Below(order, x, l)) && (forall x :: x in us ==> Below(order, l, x))
    ensures Insert(locks, below, l, ls, us) <= order
  {
    forall a, b | (a, b) in Insert(locks, below, l, ls, us) ensures (a, b) in order {
      InsertMeans(locks, below, l, ls, us, a, b);
      assert Below(Insert(locks, below, l, ls, us), a, b);
      if Below(below, a, b) {
      } else if b == l {
        var x :| x in ls && (a == x || Below(below, a, x));
        assert Below(order, x, l) && (a == x || Below(order, a, x));
        assert Below(order, a, l);
      } else {
        var x :| x in us && (x == b || Below(below, x, b));
        assert Below(order, l, x) && (x == b || Below(order, x, b));
        assert Below(order, l, b);
      }
    }
  }

  /** What is under the lower bounds is below what is over the upper bounds. */
  lemma Through(locks: set<Id>, below: Order, ls: seq<Id>, us: seq<Id>, a: Id, b: Id)
    requires StrictOrder(locks, below) && AllBelowAll(below, ls, us) && Under(below, a, ls) && Over(below, b, us)
    ensures Below(below, a, b)
  {
    var l :| l in ls && (a == l || Below(below, a, l));
    var u :| u in us && (u == b || Below(below, u, b));
    AllBelowAllMeans(below, ls, us, l, u);
    assert Below(below, a, u);
  }

  lemma UnderDown(locks: set<Id>, below: Order, ls: seq<Id>, a: Id, b: Id)
    requires StrictOrder(locks, below) && Below(below, a, b) && Under(below, b, ls)
    ensures Under(below, a, ls)
  {
    var l :| l in ls && (b == l || Below(below, b, l));
    assert Below(below, a, l);
  }

  lemma OverUp(locks: set<Id>, below: Order, us: seq<Id>, a: Id, b: Id)
    requires StrictOrder(locks, below) && Below(below, a, b) && Over(below, a, us)
    ensures Over(below, b, us)
  {
    var u :| u in us && (u == a || Below(below, u, a));
    assert Below(below, u, b);
  }

  lemma InsertTransitive(locks: set<Id>, below: Order, l: Id, ls: seq<Id>, us: seq<Id>, a: Id, b: Id, c: Id)
    requires StrictOrder(locks, below) && l !in locks && AllBelowAll(below, ls, us)
    requires Below(Insert(locks, below, l, ls, us), a, b) && Below(Insert(locks, below, l, ls, us), b, c)
    ensures Below(Insert(locks, below, l, ls, us), a, c)
  {
    hide Insert, Under, Over;
    InsertMeans(locks, below, l, ls, us, a, b);
    InsertMeans(locks, below, l, ls, us, b, c);
    InsertMeans(locks, below, l, ls, us, a, c);
    if b == l {
      Through(locks, below, ls, us, a, c);
    } else if c == l && a != l {
      UnderDown(locks, below, ls, a, b);
    } else if a == l && c != l {
      OverUp(locks, below, us, b, c);
    } else if a == l && c == l {
      Through(locks, below, ls, us, b, b);
    }
  }

  /** A new lock between valid bounds keeps the order strict, does not change it between
      old locks, and is above its lower and below its upper bounds. */
  lemma InsertKeeps(locks: set<Id>, below: Order, l: Id, ls: seq<Id>, us: seq<Id>)
    requires StrictOrder(locks, below) && l !in locks && AllBelowAll(below, ls, us)
    requires (forall x :: x in ls ==> x in locks) && forall x :: x in us ==> x in locks
    ensures var below' := Insert(locks, below, l, ls, us);
            && StrictOrder(locks + {l}, below') && AboveAll(below', l, ls) && BelowAll(below', l, us)
            && forall a, b :: a in locks && b in locks ==> (Below(below', a, b) <==> Below(below, a, b))
  {
    hide Insert;
    var below' := Insert(locks, below, l, ls, us);
    forall a, b ensures Below(below', a, b) ==> a in locks + {l} && b in locks + {l} && a != b {
      InsertMeans(locks, below, l, ls, us, a, b);
    }
    forall a, b, c | Below(below', a, b) && Below(below', b, c) ensures Below(below', a, c) {
      InsertTransitive(locks, below, l, ls, us, a, b, c);
    }
    forall x | x in ls ensures Below(below', x, l) { InsertMeans(locks, below, l, ls, us, x, l); }
    forall x | x in us ensures Below(below', l, x) { InsertMeans(locks, below, l, ls, us, l, x); }
    AboveAllMeans(below', l, ls);
    BelowAllMeans(below', l, us);
    forall a, b | a in locks && b in locks ensures Below(below', a, b) <==> Below(below, a, b) {
      InsertMeans(locks, below, l, ls, us, a, b);
    }
  }

  // ----- locksets -----

  predicate Sorted(below: Order, ls: seq<Id>) {
    ls == [] || (BelowAll(below, ls[0], ls[1..]) && Sorted(below, ls[1..]))
  }

  /** Below the top is below all. */
  lemma TopSuffices(locks: set<Id>, below: Order, l: Id, ls: seq<Id>)
    requires StrictOrder(locks, below) && Sorted(below, ls) && BelowTop(below, l, ls)
    ensures BelowAll(below, l, ls)
  {
    if ls != [] {
      BelowAllMeans(below, ls[0], ls[1..]);
      BelowAllMeans(below, l, ls[1..]);
    }
  }

  lemma {:induction false} RemoveMeans(locks: set<Id>, below: Order, l: Id, ls: seq<Id>, x: Id)
    requires StrictOrder(locks, below) && Sorted(below, ls)
    ensures x in Remove(l, ls) <==> x in ls && x != l
    decreases |ls|
  {
    if ls != [] {
      BelowAllMeans(below, ls[0], ls[1..]);
      RemoveMeans(locks, below, l, ls[1..], x);
      assert ls == [ls[0]] + ls[1..];
    }
  }

  /** Releasing in any order keeps the lockset sorted. */
  lemma {:induction false} RemoveSorted(locks: set<Id>, below: Order, l: Id, ls: seq<Id>)
    requires StrictOrder(locks, below) && Sorted(below, ls)
    ensures Sorted(below, Remove(l, ls))
    decreases |ls|
  {
    if ls != [] && ls[0] != l {
      var r := Remove(l, ls[1..]);
      RemoveSorted(locks, below, l, ls[1..]);
      BelowAllMeans(below, ls[0], ls[1..]);
      forall x | x in r ensures Below(below, ls[0], x) { RemoveMeans(locks, below, l, ls[1..], x); }
      BelowAllMeans(below, ls[0], r);
      assert ([ls[0]] + r)[1..] == r;
    }
  }

  lemma {:induction false} SortedStays(locks: set<Id>, below: Order, below': Order, ls: seq<Id>)
    requires Sorted(below, ls) && forall a, b :: Below(below, a, b) ==> Below(below', a, b)
    ensures Sorted(below', ls)
    decreases |ls|
  {
    if ls != [] {
      SortedStays(locks, below, below', ls[1..]);
      BelowAllMeans(below, ls[0], ls[1..]);
      BelowAllMeans(below', ls[0], ls[1..]);
    }
  }

  // ----- threads and locks -----

  /** `held` has the lockset of each thread, the lock acquired last first; `waits` has
      the lock a thread is acquiring. */
  datatype System = System(locks: set<Id>, below: Order, holder: map<Id, Tid>, held: map<Tid, seq<Id>>,
                           waits: map<Tid, Id>)

  datatype Action =
    | Spawn(t: Tid)
    | Create(l: Id, ls: seq<Id>, us: seq<Id>)
    | Request(t: Tid, l: Id)
    | Grant(t: Tid)
    | Release(t: Tid, l: Id)

  /** The preconditions of `create_lock`, `lock_acquire` and `lock_release`; a lock is
      granted when nobody holds it. */
  ghost predicate Allowed(s: System, a: Action) {
    match a
    case Spawn(t) => t !in s.held
    case Create(l, ls, us) =>
      && l !in s.locks && AllBelowAll(s.below, ls, us)
      && (forall x :: x in ls ==> x in s.locks) && (forall x :: x in us ==> x in s.locks)
    case Request(t, l) => t in s.held && t !in s.waits && l in s.locks && BelowTop(s.below, l, s.held[t])
    case Grant(t) => t in s.held && t in s.waits && s.waits[t] !in s.holder
    case Release(t, l) => t in s.held && t !in s.waits && l in s.held[t]
  }

  ghost function Next(s: System, a: Action): System
    requires Allowed(s, a)
  {
    match a
    case Spawn(t) => s.(held := s.held[t := []])
    case Create(l, ls, us) => s.(locks := s.locks + {l}, below := Insert(s.locks, s.below, l, ls, us))
    case Request(t, l) => s.(waits := s.waits[t := l])
    case Grant(t) =>
      s.(holder := s.holder[s.waits[t] := t], held := s.held[t := [s.waits[t]] + s.held[t]], waits := s.waits - {t})
    case Release(t, l) => s.(holder := s.holder - {l}, held := s.held[t := Remove(l, s.held[t])])
  }

  ghost predicate IsRun(run: seq<System>, actions: seq<Action>) {
    && |run| == |actions| + 1 && run[0] == System({}, {}, map[], map[], map[])
    && forall i :: 0 <= i < |actions| ==> Allowed(run[i], actions[i]) && run[i + 1] == Next(run[i], actions[i])
  }

  /** The locksets and the holders agree. */
  ghost predicate HoldersOk(locks: set<Id>, holder: map<Id, Tid>, held: map<Tid, seq<Id>>) {
    && (forall t, l :: t in held && l in held[t] ==> l in holder && holder[l] == t && l in locks)
    && (forall l :: l in holder ==> holder[l] in held && l in held[holder[l]])
  }

  /** Locksets are sorted and agree with the holders; a thread waits for a lock below
      all it holds. */
  ghost predicate Disciplined(s: System) {
    && StrictOrder(s.locks, s.below) && HoldersOk(s.locks, s.holder, s.held)
    && (forall t :: t in s.held ==> Sorted(s.below, s.held[t]))
    && (forall t :: t in s.waits ==> t in s.held && s.waits[t] in s.locks && BelowAll(s.below, s.waits[t], s.held[t]))
  }

  lemma SpawnKeeps(s: System, t: Tid)
    requires Disciplined(s) && Allowed(s, Spawn(t))
    ensures Disciplined(Next(s, Spawn(t)))
  {
    hide HoldersOk, StrictOrder, BelowAll;
    SpawnHolders(s.locks, s.holder, s.held, t);
  }

  lemma SpawnHolders(locks: set<Id>, holder: map<Id, Tid>, held: map<Tid, seq<Id>>, t: Tid)
    requires HoldersOk(locks, holder, held) && t !in held
    ensures HoldersOk(locks, holder, held[t := []])
  { }

  lemma RequestKeeps(s: System, t: Tid, l: Id)
    requires Disciplined(s) && Allowed(s, Request(t, l))
    ensures Disciplined(Next(s, Request(t, l)))
  {
    hide HoldersOk;
    TopSuffices(s.locks, s.below, l, s.held[t]);
  }

  lemma CreateKeeps(s: System, l: Id, ls: seq<Id>, us: seq<Id>)
    requires Disciplined(s) && Allowed(s, Create(l, ls, us))
    ensures Disciplined(Next(s, Create(l, ls, us)))
  {
    hide Insert;
    var below' := Insert(s.locks, s.below, l, ls, us);
    InsertKeeps(s.locks, s.below, l, ls, us);
    forall t | t in s.held ensures Sorted(below', s.held[t]) { SortedStays(s.locks, s.below, below', s.held[t]); }
    forall t | t in s.waits ensures BelowAll(below', s.waits[t], s.held[t]) {
      BelowAllMeans(s.below, s.waits[t], s.held[t]);
      BelowAllMeans(below', s.waits[t], s.held[t]);
    }
  }

  lemma GrantHolders(locks: set<Id>, holder: map<Id, Tid>, held: map<Tid, seq<Id>>, t: Tid, l: Id)
    requires HoldersOk(locks, holder, held) && t in held && l in locks && l !in holder
    ensures HoldersOk(locks, holder[l := t], held[t := [l] + held[t]])
  {
    assert forall x :: x in [l] + held[t] <==> x == l || x in held[t];
  }

  lemma GrantKeeps(s: System, t: Tid)
    requires Disciplined(s) && Allowed(s, Grant(t))
    ensures Disciplined(Next(s, Grant(t)))
  {
    hide HoldersOk, StrictOrder;
    var l := s.waits[t];
    GrantHolders(s.locks, s.holder, s.held, t, l);
    assert ([l] + s.held[t])[1..] == s.held[t];
  }

  lemma ReleaseHolders(locks: set<Id>, holder: map<Id, Tid>, held: map<Tid, seq<Id>>, t: Tid, l: Id, ls: seq<Id>)
    requires HoldersOk(locks, holder, held) && t in held && l in held[t]
    requires forall x :: x in ls <==> x in held[t] && x != l
    ensures HoldersOk(locks, holder - {l}, held[t := ls])
  {
    var holder', held' := holder - {l}, held[t := ls];
    forall u, x | u in held' && x in held'[u] ensures x in holder' && holder'[x] == u && x in locks {
      assert x in held[u] && holder[x] == u && holder[l] == t;
      assert x != l;
    }
    forall x | x in holder' ensures holder'[x] in held' && x in held'[holder'[x]] {
      assert x in held[holder[x]];
    }
  }

  lemma ReleaseKeeps(s: System, t: Tid, l: Id)
    requires Disciplined(s) && Allowed(s, Release(t, l))
    ensures Disciplined(Next(s, Release(t, l)))
  {
    hide HoldersOk, StrictOrder;
    var ls := Remove(l, s.held[t]);
    RemoveSorted(s.locks, s.below, l, s.held[t]);
    forall x ensures x in ls <==> x in s.held[t] && x != l { RemoveMeans(s.locks, s.below, l, s.held[t], x); }
    ReleaseHolders(s.locks, s.holder, s.held, t, l, ls);
  }

  lemma NextKeeps(s: System, a: Action)
    requires Disciplined(s) && Allowed(s, a)
    ensures Disciplined(Next(s, a))
  {
    hide Disciplined, Allowed, Next;
    match a {
      case Spawn(t) => SpawnKeeps(s, t);
      case Create(l, ls, us) => CreateKeeps(s, l, ls, us);
      case Request(t, l) => RequestKeeps(s, t, l);
      case Grant(t) => GrantKeeps(s, t);
      case Release(t, l) => ReleaseKeeps(s, t, l);
    }
  }

  /** The discipline holds in every state of every run. */
  lemma {:induction false} RunKeeps(run: seq<System>, actions: seq<Action>, i: nat)
    requires IsRun(run, actions) && i < |run|
    ensures Disciplined(run[i])
  {
    if i > 0 {
      RunKeeps(run, actions, i - 1);
      NextKeeps(run[i - 1], actions[i - 1]);
    }
  }

  // ----- deadlock freedom -----

  /** A set of locks has one that none of the others is below. */
  lemma {:induction false} Lowest(locks: set<Id>, below: Order, ls: set<Id>) returns (m: Id)
    requires StrictOrder(locks, below) && ls != {}
    ensures m in ls && forall x :: x in ls ==> !Below(below, x, m)
    decreases |ls|
  {
    m :| m in ls;
    var rest := ls - {m};
    if rest != {} {
      var m' := Lowest(locks, below, rest);
      if !Below(below, m, m') {
        m := m';
      } else {
        forall x | x in ls ensures !Below(below, x, m) {
          if x in rest { assert Below(below, x, m) ==> Below(below, x, m'); }
        }
      }
    }
  }

  ghost predicate Blocked(s: System, t: Tid) {
    t in s.waits && s.waits[t] in s.holder
  }

  /** A thread is blocked exactly if it waits and its lock cannot be granted: as long as
      it waits it may do nothing else. */
  lemma BlockedMeans(s: System, t: Tid)
    requires t in s.held
    ensures Blocked(s, t) <==> t in s.waits && !Allowed(s, Grant(t))
    ensures Blocked(s, t) ==> forall l :: !Allowed(s, Request(t, l)) && !Allowed(s, Release(t, l))
  { }

  /** If any lock is held, some thread that holds a lock is not blocked. */
  lemma HolderCanGo(s: System) returns (t: Tid)
    requires Disciplined(s) && s.holder.Keys != {}
    ensures t in s.held && s.held[t] != [] && !Blocked(s, t)
  {
    var m := Lowest(s.locks, s.below, s.holder.Keys);
    t := s.holder[m];
    if t in s.waits { BelowAllMeans(s.below, s.waits[t], s.held[t]); }
  }

  /** No run deadlocks: in every state, a thread that holds a lock and is not blocked
      exists unless nothing is held, and then nobody is blocked. */
  lemma NoDeadlock(run: seq<System>, actions: seq<Action>, i: nat)
    requires IsRun(run, actions) && i < |run|
    ensures var s := run[i];
            if s.holder == map[] then forall t :: !Blocked(s, t)
            else exists t :: t in s.held && s.held[t] != [] && !Blocked(s, t) && (t in s.waits ==> Allowed(s, Grant(t)))
  {
    RunKeeps(run, actions, i);
    if run[i].holder != map[] {
      assert run[i].holder.Keys != {};
      var t := HolderCanGo(run[i]);
      BlockedMeans(run[i], t);
    }
  }

  /** No thread ever waits for a lock it holds itself. */
  lemma NoReentry(run: seq<System>, actions: seq<Action>, i: nat, t: Tid)
    requires IsRun(run, actions) && i < |run| && t in run[i].waits
    ensures t in run[i].held && run[i].waits[t] !in run[i].held[t]
  {
    RunKeeps(run, actions, i);
    BelowAllMeans(run[i].below, run[i].waits[t], run[i].held[t]);
  }
}
