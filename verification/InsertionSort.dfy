/** Insertion sort of a linked list in place. */
module InsertionSort {
  import opened Pointers
  import opened LinkedLists

  // ----- on sequences of nodes -----

  /** Insert before the first node whose value is not smaller. */
  function Insert(value: map<Ptr, int>, sorted: seq<Ptr>, x: Ptr): seq<Ptr> {
    if sorted == [] then [x]
    else if Less(value, sorted[0], x) then [sorted[0]] + Insert(value, sorted[1..], x)
    else [x] + sorted
  }

  predicate Less(value: map<Ptr, int>, a: Ptr, b: Ptr) {
    a in value && b in value && value[a] < value[b]
  }

  function SortFrom(value: map<Ptr, int>, sorted: seq<Ptr>, rest: seq<Ptr>): seq<Ptr>
    decreases |rest|
  {
    if rest == [] then sorted else SortFrom(value, Insert(value, sorted, rest[0]), rest[1..])
  }

  function Sort(value: map<Ptr, int>, nodes: seq<Ptr>): seq<Ptr> {
    SortFrom(value, [], nodes)
  }

  lemma {:induction false} InsertKeeps(value: map<Ptr, int>, sorted: seq<Ptr>, x: Ptr)
    ensures multiset(Insert(value, sorted, x)) == multiset(sorted) + multiset{x}
    ensures |Insert(value, sorted, x)| == |sorted| + 1
    decreases |sorted|
  {
    if sorted != [] {
      InsertKeeps(value, sorted[1..], x);
      assert sorted == [sorted[0]] + sorted[1..];
    }
  }

  lemma {:induction false} SortKeeps(value: map<Ptr, int>, sorted: seq<Ptr>, rest: seq<Ptr>)
    ensures multiset(SortFrom(value, sorted, rest)) == multiset(sorted) + multiset(rest)
    ensures |SortFrom(value, sorted, rest)| == |sorted| + |rest|
    decreases |rest|
  {
    if rest != [] {
      InsertKeeps(value, sorted, rest[0]);
      SortKeeps(value, Insert(value, sorted, rest[0]), rest[1..]);
      assert rest == [rest[0]] + rest[1..];
    }
  }

  /** The index of a node in the input. */
  function Pos(nodes: seq<Ptr>, x: Ptr): nat {
    if nodes == [] || nodes[0] == x then 0 else 1 + Pos(nodes[1..], x)
  }

  /** By value; equal values in reverse of the input order. */
  predicate Precedes(value: map<Ptr, int>, nodes: seq<Ptr>, a: Ptr, b: Ptr) {
    a in value && b in value && (value[a] < value[b] || (value[a] == value[b] && Pos(nodes, a) > Pos(nodes, b)))
  }

  ghost predicate Ordered(value: map<Ptr, int>, nodes: seq<Ptr>, s: seq<Ptr>) {
    s == [] || ((forall b :: b in s[1..] ==> Precedes(value, nodes, s[0], b)) && Ordered(value, nodes, s[1..]))
  }

  lemma {:induction false} InsertIn(value: map<Ptr, int>, sorted: seq<Ptr>, x: Ptr, b: Ptr)
    ensures b in Insert(value, sorted, x) <==> b == x || b in sorted
    decreases |sorted|
  {
    InsertKeeps(value, sorted, x);
    assert b in multiset(Insert(value, sorted, x)) <==> b in Insert(value, sorted, x);
  }

  /** Inserting a node that comes later in the input keeps the order. */
  lemma {:induction false} InsertOrdered(value: map<Ptr, int>, nodes: seq<Ptr>, sorted: seq<Ptr>, x: Ptr)
    requires Ordered(value, nodes, sorted) && x in value
    requires forall b :: b in sorted ==> b in value && Pos(nodes, b) < Pos(nodes, x)
    ensures Ordered(value, nodes, Insert(value, sorted, x))
    decreases |sorted|
  {
    if sorted == [] {
      assert [x][1..] == [];
    } else if Less(value, sorted[0], x) {
      var tail := Insert(value, sorted[1..], x);
      InsertOrdered(value, nodes, sorted[1..], x);
      forall b | b in tail ensures Precedes(value, nodes, sorted[0], b) { InsertIn(value, sorted[1..], x, b); }
      assert ([sorted[0]] + tail)[1..] == tail;
    } else {
      assert ([x] + sorted)[1..] == sorted;
      forall b | b in sorted ensures Precedes(value, nodes, x, b) {
        assert b == sorted[0] || b in sorted[1..];
        assert b != sorted[0] ==> Precedes(value, nodes, sorted[0], b);
      }
    }
  }

  lemma {:induction false} PosAt(nodes: seq<Ptr>, k: nat)
    requires k < |nodes| && Distinct(nodes)
    ensures Pos(nodes, nodes[k]) == k
    decreases k
  {
    if k > 0 {
      assert nodes[1..][k - 1] == nodes[k];
      PosAt(nodes[1..], k - 1);
    }
  }

  lemma {:induction false} SortOrdered(value: map<Ptr, int>, nodes: seq<Ptr>, sorted: seq<Ptr>, k: nat)
    requires Distinct(nodes) && k <= |nodes| && (forall x :: x in nodes ==> x in value)
    requires Ordered(value, nodes, sorted) && multiset(sorted) == multiset(nodes[..k])
    ensures Ordered(value, nodes, SortFrom(value, sorted, nodes[k..]))
    decreases |nodes| - k
  {
    if k < |nodes| {
      var x := nodes[k];
      forall b | b in sorted ensures b in value && Pos(nodes, b) < Pos(nodes, x) {
        assert b in multiset(sorted);
        assert b in nodes[..k];
        var j :| 0 <= j < k && nodes[j] == b;
        PosAt(nodes, j);
        PosAt(nodes, k);
      }
      InsertOrdered(value, nodes, sorted, x);
      InsertKeeps(value, sorted, x);
      assert nodes[..k + 1] == nodes[..k] + [x];
      SortOrdered(value, nodes, Insert(value, sorted, x), k + 1);
      assert nodes[k..][0] == x && nodes[k..][1..] == nodes[k + 1..];
    }
  }

  lemma {:induction false} OrderedAt(value: map<Ptr, int>, nodes: seq<Ptr>, s: seq<Ptr>, i: nat, j: nat)
    requires Ordered(value, nodes, s) && i < j < |s|
    ensures Precedes(value, nodes, s[i], s[j])
    decreases i
  {
    if i == 0 {
      assert s[1..][j - 1] == s[j];
    } else {
      OrderedAt(value, nodes, s[1..], i - 1, j - 1);
    }
  }

  /** Sorting keeps exactly the nodes, puts them in ascending order of their values, and
      those of equal value in reverse of the input order. */
  lemma SortSorts(value: map<Ptr, int>, nodes: seq<Ptr>)
    requires Distinct(nodes) && forall x :: x in nodes ==> x in value
    ensures var s := Sort(value, nodes);
            && multiset(s) == multiset(nodes) && |s| == |nodes|
            && forall i, j :: 0 <= i < j < |s| ==> Precedes(value, nodes, s[i], s[j])
  {
    SortKeeps(value, [], nodes);
    assert nodes[..0] == [] && nodes[0..] == nodes;
    SortOrdered(value, nodes, [], 0);
    var s := Sort(value, nodes);
    forall i, j | 0 <= i < j < |s| ensures Precedes(value, nodes, s[i], s[j]) { OrderedAt(value, nodes, s, i, j); }
  }

  /** Where the node goes when the first `i` are smaller and the next is not. */
  lemma {:induction false} InsertAt(value: map<Ptr, int>, sorted: seq<Ptr>, x: Ptr, i: nat)
    requires i <= |sorted| && (forall j :: 0 <= j < i ==> Less(value, sorted[j], x))
        && (i < |sorted| ==> !Less(value, sorted[i], x))
    ensures Insert(value, sorted, x) == sorted[..i] + [x] + sorted[i..]
    decreases i
  {
    if i > 0 {
      InsertAt(value, sorted[1..], x, i - 1);
      assert sorted[..i] == [sorted[0]] + sorted[1..][..i - 1];
      assert sorted[i..] == sorted[1..][i - 1..];
    } else {
      assert sorted[..0] == [] && sorted[0..] == sorted;
      if sorted == [] { assert [x] + [] == [x]; }
    }
  }

  // ----- in place -----

  /** The list from `first` is `sorted` and then `rest`; `last` is the last of `sorted`. */
  ghost predicate Sorting(next: map<Ptr, Ptr>, first: Ptr, sorted: seq<Ptr>, rest: seq<Ptr>, last: Ptr) {
    && sorted != [] && last == Last(sorted)
    && Linked(next, first, sorted, First(rest)) && Linked(next, First(rest), rest, NULL)
  }

  lemma SortingFacts(next: map<Ptr, Ptr>, first: Ptr, sorted: seq<Ptr>, rest: seq<Ptr>, last: Ptr)
    requires Sorting(next, first, sorted, rest, last)
    ensures Distinct(sorted + rest) && last in next && next[last] == First(rest) && last in sorted
    ensures rest != [] ==> rest[0] in next && rest[0] != NULL && rest[0] !in sorted && rest[0] !in rest[1..]
    ensures rest == [] <==> First(rest) == NULL
  {
    LinkedConcat(next, first, sorted, First(rest), rest, NULL);
    LinkedDistinct(next, first, sorted + rest);
    LinkedLast(next, first, sorted, First(rest));
    assert forall i :: 0 <= i < |sorted| ==> (sorted + rest)[i] == sorted[i];
    assert forall i :: 0 <= i < |rest| ==> (sorted + rest)[|sorted| + i] == rest[i];
  }

  lemma {:induction false} LinkedSplit(next: map<Ptr, Ptr>, first: Ptr, objs: seq<Ptr>, end: Ptr, i: nat)
    requires Linked(next, first, objs, end) && i <= |objs|
    ensures var mid := if i < |objs| then objs[i] else end;
            Linked(next, first, objs[..i], mid) && Linked(next, mid, objs[i..], end)
    decreases i
  {
    if i == 0 {
      assert objs[..0] == [] && objs[0..] == objs;
    } else {
      LinkedSplit(next, next[first], objs[1..], end, i - 1);
      assert objs[..i][1..] == objs[1..][..i - 1] && objs[i..] == objs[1..][i - 1..];
    }
  }

  lemma NextUnsorted(next: map<Ptr, Ptr>, rest: seq<Ptr>)
    requires rest != [] && Linked(next, First(rest), rest, NULL)
    ensures rest[0] in next && rest[0] != NULL && next[rest[0]] == First(rest[1..])
    ensures Linked(next, First(rest[1..]), rest[1..], NULL)
  {
    assert Linked(next, next[rest[0]], rest[1..], NULL);
  }

  /** The first unsorted node is already in its place. */
  lemma TakeNext(next: map<Ptr, Ptr>, first: Ptr, sorted: seq<Ptr>, rest: seq<Ptr>, last: Ptr)
    requires Sorting(next, first, sorted, rest, last) && rest != []
    ensures Sorting(next, first, sorted + [rest[0]], rest[1..], rest[0])
  {
    NextUnsorted(next, rest);
    LinkedAppend(next, first, sorted, rest[0]);
    assert Last(sorted + [rest[0]]) == rest[0];
  }

  /** The `next` fields after moving `x` from behind `last` to behind `prev` (to the
      front if `prev` is null). */
  ghost function Moved(next: map<Ptr, Ptr>, last: Ptr, x: Ptr, prev: Ptr, cursor: Ptr): map<Ptr, Ptr>
    requires x in next
  {
    var next' := next[last := next[x]][x := cursor];
    if prev == NULL then next' else next'[prev := x]
  }

  lemma MovedMeans(next: map<Ptr, Ptr>, last: Ptr, x: Ptr, prev: Ptr, cursor: Ptr)
    requires x in next && last in next && (prev != NULL ==> prev in next) && last != x && prev != x && prev != last
    ensures var next' := Moved(next, last, x, prev, cursor);
            && next'.Keys == next.Keys && next'[x] == cursor && next'[last] == next[x]
            && (prev != NULL ==> next'[prev] == x)
            && forall p :: p in next && p != x && p != last && p != prev ==> next'[p] == next[p]
  { }

  /** What `Move` needs to know about the nodes involved. */
  lemma MoveFacts(next: map<Ptr, Ptr>, first: Ptr, sorted: seq<Ptr>, rest: seq<Ptr>, last: Ptr, i: nat)
    requires Sorting(next, first, sorted, rest, last) && rest != [] && i < |sorted|
    ensures var x, prev, a, b := rest[0], if i == 0 then NULL else sorted[i - 1], sorted[..i], sorted[i..];
            && x in next && last in next && (i > 0 ==> prev in next && prev != NULL) && last != x && prev != x
                && prev != last && x != NULL
            && Last(b) == last && Last(a) == prev && b[0] == sorted[i] && Distinct(a) && Distinct(b)
            && Linked(next, first, a, sorted[i]) && Linked(next, sorted[i], b, x)
            && (forall p :: p in a ==> p != x && p != last) && (forall p :: p in b ==> p != x && p != prev)
            && (forall p :: p in rest[1..] ==> p != x && p != last && p != prev)
  {
    SortingFacts(next, first, sorted, rest, last);
    NextUnsorted(next, rest);
    LinkedSplit(next, first, sorted, rest[0], i);
    Apart(sorted, rest, i);
    var a, b := sorted[..i], sorted[i..];
    assert Last(b) == last && last in b;
    if i > 0 {
      assert Last(a) == sorted[i - 1] && sorted[i - 1] in a;
      LinkedLast(next, first, a, sorted[i]);
    }
    assert forall p :: p in rest[1..] ==> p in rest;
    assert NULL !in b && NULL !in rest by { NotNull(next, first, sorted, rest, last); }
  }

  lemma NotNull(next: map<Ptr, Ptr>, first: Ptr, sorted: seq<Ptr>, rest: seq<Ptr>, last: Ptr)
    requires Sorting(next, first, sorted, rest, last)
    ensures NULL !in sorted && NULL !in rest
  {
    LinkedNotNull(next, first, sorted, First(rest));
    LinkedNotNull(next, First(rest), rest, NULL);
  }

  lemma {:induction false} LinkedNotNull(next: map<Ptr, Ptr>, first: Ptr, objs: seq<Ptr>, end: Ptr)
    requires Linked(next, first, objs, end)
    ensures NULL !in objs && forall p :: p in objs ==> p in next
    decreases |objs|
  {
    if objs != [] { LinkedNotNull(next, next[first], objs[1..], end); }
  }

  /** Moving the first unsorted node into the sorted part. */
  lemma Move(next: map<Ptr, Ptr>, first: Ptr, sorted: seq<Ptr>, rest: seq<Ptr>, last: Ptr, i: nat)
    requires Sorting(next, first, sorted, rest, last) && rest != [] && rest[0] in next && i < |sorted|
    ensures var x, prev := rest[0], if i == 0 then NULL else sorted[i - 1];
            Sorting(Moved(next, last, x, prev, sorted[i]), if i == 0 then x else first, sorted[..i] + [x] + sorted[i..],
                    rest[1..], last)
  {
    hide Moved, Linked, Distinct;
    var x, prev, a, b := rest[0], if i == 0 then NULL else sorted[i - 1], sorted[..i], sorted[i..];
    NextUnsorted(next, rest);
    MoveFacts(next, first, sorted, rest, last, i);
    MovedMeans(next, last, x, prev, sorted[i]);
    var end, next' := First(rest[1..]), Moved(next, last, x, prev, sorted[i]);
    MoveBack(next, next', b, x, end, sorted[i]);
    LinkedFrame(next, next', end, rest[1..], NULL);
    if i == 0 {
      assert a + [x] + b == [x] + b;
    } else {
      MoveFront(next, next', first, a, sorted[i], x);
      LinkedConcat(next', first, a, x, [x] + b, end);
      assert a + ([x] + b) == a + [x] + b;
    }
    assert Last(a + [x] + b) == Last(b);
  }

  /** The parts of the list have no node in common. */
  lemma Apart(sorted: seq<Ptr>, rest: seq<Ptr>, i: nat)
    requires Distinct(sorted + rest) && i < |sorted| && rest != []
    ensures Distinct(sorted[..i]) && Distinct(sorted[i..])
    ensures forall p :: p in sorted[..i] ==> p !in sorted[i..] && p !in rest
    ensures forall p :: p in sorted[i..] ==> p !in rest
    ensures rest[0] !in rest[1..]
  {
    var s := sorted + rest;
    assert forall j :: 0 <= j < |sorted| ==> s[j] == sorted[j];
    assert forall j :: 0 <= j < |rest| ==> s[|sorted| + j] == rest[j];
  }

  lemma MoveBack(next: map<Ptr, Ptr>, next': map<Ptr, Ptr>, b: seq<Ptr>, x: Ptr, end: Ptr, cursor: Ptr)
    requires b != [] && b[0] == cursor && Linked(next, cursor, b, x) && Distinct(b) && x !in b && x != NULL
    requires x in next' && next'[x] == cursor && next'.Keys == next.Keys
    requires forall p :: p in b && p in next ==> next'[p] == if p == Last(b) then end else next[p]
    ensures Linked(next', x, [x] + b, end)
  {
    LinkedLast(next, cursor, b, x);
    LinkedRetarget(next, cursor, b, x, end);
    LinkedFrame(next[Last(b) := end], next', cursor, b, end);
    assert ([x] + b)[1..] == b;
  }

  lemma MoveFront(next: map<Ptr, Ptr>, next': map<Ptr, Ptr>, first: Ptr, a: seq<Ptr>, cursor: Ptr, x: Ptr)
    requires a != [] && Linked(next, first, a, cursor) && Distinct(a) && next'.Keys == next.Keys
    requires forall p :: p in a && p in next ==> next'[p] == if p == Last(a) then x else next[p]
    ensures Linked(next', first, a, x)
  {
    LinkedLast(next, first, a, cursor);
    LinkedRetarget(next, first, a, cursor, x);
    LinkedFrame(next[Last(a) := x], next', first, a, x);
  }

  class List {
    var value: map<Ptr, int>
    var next: map<Ptr, Ptr>

    method Compare(n0: Ptr, n1: Ptr) returns (c: int)
      requires n0 in value && n1 in value
      ensures c < 0 <==> Less(value, n0, n1)
      ensures c > 0 <==> Less(value, n1, n0)
    {
      if value[n0] < value[n1] { return -1; } else if value[n0] > value[n1] { return 1; } else { return 0; }
    }

    /** The inner loop: the node behind which the first unsorted node belongs, or null
        for the front. It is the last sorted node if the node is already in its place. */
    method FindPlace(first: Ptr, last: Ptr, ghost sorted: seq<Ptr>, ghost rest: seq<Ptr>) returns (prev: Ptr)
      requires Sorting(next, first, sorted, rest, last) && rest != [] && Known(value, sorted) && Known(value, rest)
      ensures exists i: nat :: PlaceIs(next, value, first, sorted, rest, last, prev, i)
    {
      hide Linked;
      SortingFacts(next, first, sorted, rest, last);
      StartPlace(next, first, sorted, rest, last);
      var x := next[last];
      prev := NULL;
      ghost var i: nat := 0;
      var comparison := Compare(first, x);
      while prev != last && comparison < 0
        invariant i <= |sorted| && At(next, first, sorted, rest, last, prev, i)
        invariant forall j :: 0 <= j < i ==> Less(value, sorted[j], x)
        invariant i < |sorted| ==> (comparison < 0 <==> Less(value, sorted[i], x))
        decreases |sorted| - i
      {
        NextPlace(next, first, sorted, rest, last, prev, i);
        prev := if prev == NULL then first else next[prev];
        i := i + 1;
        if prev != last {
          comparison := Compare(next[prev], x);
        }
      }
      InsertAt(value, sorted, x, i);
      assert PlaceIs(next, value, first, sorted, rest, last, prev, i);
    }

    /** Move the first unsorted node behind `prev`. */
    method Relink(first: Ptr, last: Ptr, prev: Ptr, ghost sorted: seq<Ptr>, ghost rest: seq<Ptr>, ghost i: nat,
                  ghost nodes: seq<Ptr>) returns (first': Ptr)
      requires Sorting(next, first, sorted, rest, last) && rest != [] && i < |sorted|
          && At(next, first, sorted, rest, last, prev, i)
      requires Within(sorted, nodes) && Within(rest, nodes)
      modifies this`next
      ensures Untouched(old(next), next, nodes)
      ensures Sorting(next, first', sorted[..i] + [rest[0]] + sorted[i..], rest[1..], last)
    {
      hide Linked;
      MoveFacts(next, first, sorted, rest, last, i);
      SortingFacts(next, first, sorted, rest, last);
      Move(next, first, sorted, rest, last, i);
      var firstUnsorted := next[last];
      var cursor := if prev == NULL then first else next[prev];
      next := next[last := next[firstUnsorted]];
      next := next[firstUnsorted := cursor];
      first' := first;
      if prev == NULL { first' := firstUnsorted; } else { next := next[prev := firstUnsorted]; }
    }

    /** One turn of the outer loop: the first unsorted node gets its place. */
    method Place(first: Ptr, last: Ptr, ghost sorted: seq<Ptr>, ghost rest: seq<Ptr>, ghost nodes: seq<Ptr>)
      returns (first': Ptr, last': Ptr)
      requires Sorting(next, first, sorted, rest, last) && rest != [] && Known(value, sorted) && Known(value, rest)
      requires Within(sorted, nodes) && Within(rest, nodes)
      modifies this`next
      ensures Untouched(old(next), next, nodes)
      ensures Sorting(next, first', Insert(value, sorted, rest[0]), rest[1..], last')
    {
      hide Linked;
      SortingFacts(next, first, sorted, rest, last);
      first', last' := first, last;
      var prev := FindPlace(first, last, sorted, rest);
      ghost var i: nat :| PlaceIs(next, value, first, sorted, rest, last, prev, i);
      if prev != last {
        first' := Relink(first, last, prev, sorted, rest, i, nodes);
      } else {
        TakeNext(next, first, sorted, rest, last);
        last' := next[last];
        assert sorted[..i] + [rest[0]] + sorted[i..] == sorted + [rest[0]];
      }
    }

    /** `insertion_sort_core` on the list at `l`. */
    method SortInPlace(l: Ptr, ghost nodes: seq<Ptr>) returns (first: Ptr)
      requires Linked(next, l, nodes, NULL) && Known(value, nodes)
      modifies this`next
      ensures Linked(next, first, Sort(value, nodes), NULL) && Untouched(old(next), next, nodes)
      ensures multiset(Sort(value, nodes)) == multiset(nodes)
      ensures var s := Sort(value, nodes); forall i, j :: 0 <= i < j < |s| ==> Precedes(value, nodes, s[i], s[j])
    {
      hide Linked, Precedes;
      LinkedDistinct(next, l, nodes);
      SortSorts(value, nodes);
      first := l;
      StartSorting(next, value, l, nodes);
      if first == NULL { return; }
      var last := first;
      ghost var sorted, rest := [nodes[0]], nodes[1..];
      SortingFacts(next, first, sorted, rest, last);
      while next[last] != NULL
        invariant Sorting(next, first, sorted, rest, last) && last in next && next[last] == First(rest)
            && (rest == [] <==> First(rest) == NULL)
        invariant Sort(value, nodes) == SortFrom(value, sorted, rest) && Known(value, sorted) && Known(value, rest)
        invariant Within(sorted, nodes) && Within(rest, nodes) && Untouched(old(next), next, nodes)
        decreases |rest|
      {
        first, last := Place(first, last, sorted, rest, nodes);
        InsertKnown(value, sorted, rest[0], nodes);
        sorted, rest := Insert(value, sorted, rest[0]), rest[1..];
        SortingFacts(next, first, sorted, rest, last);
      }
    }
  }

  /** All nodes have values. */
  ghost predicate Known(value: map<Ptr, int>, s: seq<Ptr>) {
    forall x :: x in s ==> x in value
  }

  ghost predicate Within(s: seq<Ptr>, nodes: seq<Ptr>) {
    forall x :: x in s ==> x in nodes
  }

  /** Only `nodes` were relinked. */
  ghost predicate Untouched(next0: map<Ptr, Ptr>, next: map<Ptr, Ptr>, nodes: seq<Ptr>) {
    next.Keys == next0.Keys && forall p :: p in next0 && p !in nodes ==> next[p] == next0[p]
  }

  lemma InsertKnown(value: map<Ptr, int>, sorted: seq<Ptr>, x: Ptr, nodes: seq<Ptr>)
    requires Known(value, sorted) && x in value && Within(sorted, nodes) && x in nodes
    ensures Known(value, Insert(value, sorted, x)) && Within(Insert(value, sorted, x), nodes)
  {
    forall b | b in Insert(value, sorted, x) ensures b in value && b in nodes { InsertIn(value, sorted, x, b); }
  }

  lemma StartSorting(next: map<Ptr, Ptr>, value: map<Ptr, int>, l: Ptr, nodes: seq<Ptr>)
    requires Linked(next, l, nodes, NULL)
    ensures l == NULL <==> nodes == []
    ensures nodes == [] ==> Linked(next, l, Sort(value, nodes), NULL)
    ensures nodes != [] ==> Sorting(next, l, [nodes[0]], nodes[1..], l)
    ensures nodes != [] ==> Sort(value, nodes) == SortFrom(value, [nodes[0]], nodes[1..])
  {
    if nodes != [] {
      assert [nodes[0]][1..] == [];
      assert Linked(next, next[l], nodes[1..], NULL);
      assert Linked(next, l, [nodes[0]], next[l]);
    }
  }

  /** `pn` stands before the `i`-th sorted node, in the `next` field of `prev`. */
  ghost predicate At(next: map<Ptr, Ptr>, first: Ptr, sorted: seq<Ptr>, rest: seq<Ptr>, last: Ptr, prev: Ptr, i: nat)
    requires i <= |sorted|
  {
    && prev == (if i == 0 then NULL else sorted[i - 1]) && (i == |sorted| <==> prev == last)
    && (i > 0 ==> prev != NULL && prev in next)
    && (i < |sorted| ==> (if prev == NULL then first else if prev in next then next[prev] else NULL) == sorted[i])
  }

  /** The first unsorted node belongs before the `i`-th sorted node, behind `prev`. */
  ghost predicate PlaceIs(next: map<Ptr, Ptr>, value: map<Ptr, int>, first: Ptr, sorted: seq<Ptr>, rest: seq<Ptr>,
                          last: Ptr, prev: Ptr, i: nat)
  {
    && i <= |sorted| && rest != [] && At(next, first, sorted, rest, last, prev, i)
    && Insert(value, sorted, rest[0]) == sorted[..i] + [rest[0]] + sorted[i..]
  }

  lemma StartPlace(next: map<Ptr, Ptr>, first: Ptr, sorted: seq<Ptr>, rest: seq<Ptr>, last: Ptr)
    requires Sorting(next, first, sorted, rest, last)
    ensures At(next, first, sorted, rest, last, NULL, 0)
  {
    NotNull(next, first, sorted, rest, last);
    assert last in sorted;
  }

  lemma NextPlace(next: map<Ptr, Ptr>, first: Ptr, sorted: seq<Ptr>, rest: seq<Ptr>, last: Ptr, prev: Ptr, i: nat)
    requires Sorting(next, first, sorted, rest, last) && i < |sorted| && At(next, first, sorted, rest, last, prev, i)
    ensures At(next, first, sorted, rest, last, sorted[i], i + 1)
  {
    NotNull(next, first, sorted, rest, last);
    LinkedNotNull(next, first, sorted, First(rest));
    LinkedSplit(next, first, sorted, First(rest), i);
    assert sorted[i..][1..] == sorted[i + 1..];
    assert Linked(next, next[sorted[i]], sorted[i + 1..], First(rest));
    assert i + 1 < |sorted| ==> sorted[i + 1..][0] == sorted[i + 1];
    SortingFacts(next, first, sorted, rest, last);
    assert forall j :: 0 <= j < |sorted| ==> (sorted + rest)[j] == sorted[j];
  }
}
