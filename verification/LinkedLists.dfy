/** Lists linked through a `next` field. */
module LinkedLists {
  import opened Pointers

  /** Following `next` from `head` goes through `objs` and ends at `end`. */
  ghost predicate Linked(next: map<Ptr, Ptr>, head: Ptr, objs: seq<Ptr>, end: Ptr)
    decreases |objs|
  {
    if objs == [] then head == end
    else head == objs[0] && head != NULL && head in next && Linked(next, next[head], objs[1..], end)
  }

  lemma {:induction false} LinkedFrame(next: map<Ptr, Ptr>, next': map<Ptr, Ptr>, head: Ptr, objs: seq<Ptr>, end: Ptr)
    requires Linked(next, head, objs, end)
    requires forall p :: p in objs && p in next ==> p in next' && next'[p] == next[p]
    ensures Linked(next', head, objs, end)
    decreases |objs|
  {
    if objs != [] { LinkedFrame(next, next', next[head], objs[1..], end); }
  }

  /** Extending a segment by the object it ends at. */
  lemma {:induction false} LinkedAppend(next: map<Ptr, Ptr>, head: Ptr, objs: seq<Ptr>, o: Ptr)
    requires Linked(next, head, objs, o) && o != NULL && o in next
    ensures Linked(next, head, objs + [o], next[o])
    decreases |objs|
  {
    if objs == [] {
      assert (objs + [o])[1..] == [];
    } else {
      LinkedAppend(next, next[head], objs[1..], o);
      assert (objs + [o])[1..] == objs[1..] + [o];
    }
  }

  /** Storing into the last `next` field of a segment moves its end. */
  lemma {:induction false} LinkedRetarget(next: map<Ptr, Ptr>, head: Ptr, objs: seq<Ptr>, end: Ptr, end': Ptr)
    requires objs != [] && Linked(next, head, objs, end) && Distinct(objs)
    ensures Linked(next[objs[|objs| - 1] := end'], head, objs, end')
    decreases |objs|
  {
    var last := objs[|objs| - 1];
    if |objs| > 1 {
      assert objs[1..][|objs| - 2] == last;
      LinkedRetarget(next, next[head], objs[1..], end, end');
    }
  }

  lemma {:induction false} LinkedConcat(next: map<Ptr, Ptr>, head: Ptr, objs: seq<Ptr>, mid: Ptr, objs': seq<Ptr>,
                                        end: Ptr)
    requires Linked(next, head, objs, mid) && Linked(next, mid, objs', end)
    ensures Linked(next, head, objs + objs', end)
    decreases |objs|
  {
    if objs == [] {
      assert objs + objs' == objs';
    } else {
      LinkedConcat(next, next[head], objs[1..], mid, objs', end);
      assert (objs + objs')[1..] == objs[1..] + objs';
    }
  }

  lemma {:induction false} LinkedSuffix(next: map<Ptr, Ptr>, head: Ptr, objs: seq<Ptr>, j: nat)
    requires Linked(next, head, objs, NULL) && j < |objs|
    ensures Linked(next, objs[j], objs[j..], NULL)
    decreases j
  {
    if j == 0 {
      assert objs[0..] == objs;
    } else {
      LinkedSuffix(next, next[head], objs[1..], j - 1);
      assert objs[1..][j - 1..] == objs[j..];
    }
  }

  lemma {:induction false} LinkedUnique(next: map<Ptr, Ptr>, head: Ptr, objs: seq<Ptr>, objs': seq<Ptr>)
    requires Linked(next, head, objs, NULL) && Linked(next, head, objs', NULL)
    ensures |objs| == |objs'|
    decreases |objs|
  {
    if objs != [] && objs' != [] { LinkedUnique(next, next[head], objs[1..], objs'[1..]); }
  }

  /** A list that ends goes through no object twice. */
  lemma {:induction false} LinkedDistinct(next: map<Ptr, Ptr>, head: Ptr, objs: seq<Ptr>)
    requires Linked(next, head, objs, NULL)
    ensures Distinct(objs)
  {
    forall i, j | 0 <= i < j < |objs| ensures objs[i] != objs[j] {
      LinkedSuffix(next, head, objs, i);
      LinkedSuffix(next, head, objs, j);
      if objs[i] == objs[j] { LinkedUnique(next, objs[i], objs[i..], objs[j..]); }
    }
  }

  ghost predicate Distinct(s: seq<Ptr>) {
    forall i, j :: 0 <= i < j < |s| ==> s[i] != s[j]
  }

  lemma {:induction false} LinkedLast(next: map<Ptr, Ptr>, head: Ptr, objs: seq<Ptr>, end: Ptr)
    requires objs != [] && Linked(next, head, objs, end)
    ensures objs[|objs| - 1] in next && next[objs[|objs| - 1]] == end && objs[|objs| - 1] != NULL
    decreases |objs|
  {
    if |objs| > 1 { LinkedLast(next, next[head], objs[1..], end); }
  }

  function First(s: seq<Ptr>): Ptr { if s == [] then NULL else s[0] }

  function Last(s: seq<Ptr>): Ptr { if s == [] then NULL else s[|s| - 1] }
}
