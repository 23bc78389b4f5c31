/** The non-recursive parser of the reference-counted interpreter. Its stack is a
    chain of cells that are not objects yet: each becomes one when its tail is known. */
module RclParser {
  import opened Language
  import opened Syntax
  import opened Pointers
  import opened Objects
  import opened Counting

  /** The cells are the chain from `p`, and no others; `heads` are their heads. */
  ghost predicate Chain(cells: map<Ptr, Cell>, p: Ptr, heads: seq<Ptr>)
    decreases |heads|
  {
    if heads == [] then p == NULL && cells == map[]
    else p != NULL && p in cells && cells[p].head == heads[0] && Chain(cells - {p}, cells[p].tail, heads[1..])
  }

  /** The open pairs that the cells stand for. */
  ghost function Opened(heads: seq<Ptr>, val: map<Ptr, Value>): seq<Partial> {
    if heads == [] then []
    else [if heads[0] == NULL then NeedHead else NeedTail(Look(val, heads[0]))] + Opened(heads[1..], val)
  }

  /** The caller's handles and those in the cells. */
  ghost function Refs(base: multiset<Ptr>, heads: seq<Ptr>): multiset<Ptr> {
    if heads == [] then base
    else if heads[0] == NULL then Refs(base, heads[1..])
    else Also(Refs(base, heads[1..]), heads[0])
  }

  lemma {:induction false} OpenedSame(base: multiset<Ptr>, heads: seq<Ptr>, val0: map<Ptr, Value>, val: map<Ptr, Value>)
    requires Same(Refs(base, heads), val0, val)
    ensures Same(base, val0, val) && Opened(heads, val) == Opened(heads, val0)
    decreases |heads|
  {
    hide Same, Also;
    if heads != [] {
      if heads[0] != NULL { Kept(Refs(base, heads[1..]), heads[0], val0, val); }
      OpenedSame(base, heads[1..], val0, val);
    }
  }

  lemma OpenedTail(heads: seq<Ptr>, val: map<Ptr, Value>)
    requires heads != []
    ensures Opened(heads, val) != [] && Opened(heads, val)[1..] == Opened(heads[1..], val)
    ensures Opened(heads, val)[0] == if heads[0] == NULL then NeedHead else NeedTail(Look(val, heads[0]))
  { }

  /** At the head of the outer loop. */
  ghost predicate Parsing(m: Memory, base: multiset<Ptr>, val0: map<Ptr, Value>, s: State, parent: Ptr,
                          heads: seq<Ptr>) reads m {
    && m.Valid() && m.handles == Refs(base, heads) && Chain(m.cells, parent, heads)
    && Same(base, val0, m.val) && m.Abs() == s
  }

  /** At the head of the inner loop: there is also a handle to `expr`. */
  ghost predicate Attaching(m: Memory, base: multiset<Ptr>, val0: map<Ptr, Value>, s: State, parent: Ptr,
                            heads: seq<Ptr>, expr: Ptr)
    reads m
  {
    && m.Valid() && m.handles == Also(Refs(base, heads), expr) && Chain(m.cells, parent, heads) && expr != NULL
    && Same(base, val0, m.val) && m.Abs() == s
  }

  lemma FillCell(cells: map<Ptr, Cell>, p: Ptr, heads: seq<Ptr>, h: Ptr)
    requires heads != [] && Chain(cells, p, heads)
    ensures Chain(cells[p := Cell(h, cells[p].tail)], p, [h] + heads[1..])
  {
    var cells' := cells[p := Cell(h, cells[p].tail)];
    assert cells' - {p} == cells - {p};
    assert ([h] + heads[1..])[1..] == heads[1..];
  }

  lemma AddCell(cells: map<Ptr, Cell>, p: Ptr, heads: seq<Ptr>, q: Ptr)
    requires Chain(cells, p, heads) && q !in cells && q != NULL
    ensures Chain(cells[q := Cell(NULL, p)], q, [NULL] + heads)
  {
    assert cells[q := Cell(NULL, p)] - {q} == cells;
    assert ([NULL] + heads)[1..] == heads;
  }

  /** A new atom becomes `expr`. */
  method StartAtom(m: Memory, chars: string, ghost base: multiset<Ptr>, ghost val0: map<Ptr, Value>, ghost s: State,
                   ghost parent: Ptr, ghost heads: seq<Ptr>) returns (atom: Ptr)
    requires Parsing(m, base, val0, s, parent, heads)
    modifies m`heap, m`counts, m`handles, m`objs, m`val
    ensures Attaching(m, base, val0, s, parent, heads, atom) && Look(m.val, atom) == Atom(chars)
    ensures Opened(heads, m.val) == Opened(heads, old(m.val))
  {
    hide Balanced, StackValue, Also, Same, Chain, Refs, Opened;
    ghost var val1 := m.val;
    atom := m.CreateAtom(chars);
    OpenedSame(base, heads, val1, m.val);
    SameTrans(base, val0, val1, m.val);
    IsHeld(Refs(base, heads), atom);
    m.Read(atom);
  }

  /** A new cell becomes `parent`. */
  method StartPair(m: Memory, parent: Ptr, ghost base: multiset<Ptr>, ghost val0: map<Ptr, Value>, ghost s: State,
                   ghost heads: seq<Ptr>)
    returns (cell: Ptr)
    requires Parsing(m, base, val0, s, parent, heads)
    modifies m`cells
    ensures Parsing(m, base, val0, s, cell, [NULL] + heads)
    ensures Opened([NULL] + heads, m.val) == [NeedHead] + Opened(heads, m.val)
  {
    hide Balanced, StackValue, Also, Same, Chain;
    cell := m.Malloc();
    AddCell(m.cells, parent, heads, cell);
    m.cells := m.cells[cell := Cell(NULL, parent)];
    assert ([NULL] + heads)[1..] == heads;
  }

  /** `expr` becomes the head of the innermost open pair. */
  method AttachHead(m: Memory, parent: Ptr, expr: Ptr, ghost base: multiset<Ptr>, ghost val0: map<Ptr, Value>,
                    ghost s: State, ghost heads: seq<Ptr>)
    requires Attaching(m, base, val0, s, parent, heads, expr) && heads != [] && heads[0] == NULL
    modifies m`cells
    ensures Parsing(m, base, val0, s, parent, [expr] + heads[1..])
    ensures Opened([expr] + heads[1..], m.val) == [NeedTail(Look(m.val, expr))] + Opened(heads, m.val)[1..]
  {
    hide Balanced, StackValue, Also, Same;
    FillCell(m.cells, parent, heads, expr);
    m.cells := m.cells[parent := Cell(expr, m.cells[parent].tail)];
    assert ([expr] + heads[1..])[1..] == heads[1..];
  }

  /** `expr` becomes the tail of the innermost open pair, which is then an object. */
  method AttachTail(m: Memory, parent: Ptr, expr: Ptr, ghost base: multiset<Ptr>, ghost val0: map<Ptr, Value>,
                    ghost s: State, ghost heads: seq<Ptr>)
    returns (newParent: Ptr)
    requires Attaching(m, base, val0, s, parent, heads, expr) && heads != [] && heads[0] != NULL
    modifies m`heap, m`counts, m`handles, m`objs, m`val, m`cells
    ensures Attaching(m, base, val0, s, newParent, heads[1..], parent)
    ensures Look(m.val, parent) == Cons(Look(old(m.val), heads[0]), Look(old(m.val), expr))
    ensures Opened(heads[1..], m.val) == Opened(heads[1..], old(m.val))
  {
    hide Balanced, StackValue, Same, Also, Opened;
    newParent := m.cells[parent].tail;
    var h := m.cells[parent].head;
    m.cells := m.cells - {parent};
    m.PublishCons(parent, h, expr, Refs(base, heads[1..]));
    OpenedSame(base, heads[1..], old(m.val), m.val);
    SameTrans(base, val0, old(m.val), m.val);
  }

  /** The inner loop: hand `expr` to the innermost open pair until some pair still
      waits for its tail (the result is null) or nothing is open (it is `expr`). */
  method Attach(m: Memory, tokens: seq<Token>, k0: nat, parent0: Ptr, expr0: Ptr, ghost base: multiset<Ptr>,
                ghost val0: map<Ptr, Value>,
                ghost s: State, ghost heads0: seq<Ptr>, ghost spec: Parsed)
    returns (r: Result<Ptr>, k: nat, parent: Ptr, ghost heads: seq<Ptr>)
    requires k0 <= |tokens| && Attaching(m, base, val0, s, parent0, heads0, expr0)
    requires spec == Feed(Opened(heads0, m.val), Look(m.val, expr0), tokens[k0..])
    modifies m`heap, m`counts, m`handles, m`objs, m`val, m`cells
    ensures k0 <= k <= |tokens|
    ensures match r
            case Success(p) =>
              if p == NULL then
                Parsing(m, base, val0, s, parent, heads) && spec == Continue(Opened(heads, m.val), tokens[k..])
              else Attaching(m, base, val0, s, NULL, [], p) && spec == Ok(Look(m.val, p), tokens[k..])
            case Failure(_) => m.Valid() && spec.SyntaxError?
  {
    hide Balanced, StackValue, Also, Same, Opened, Refs, Feed, Continue, Parse;
    var expr := expr0;
    k, parent, heads := k0, parent0, heads0;
    while parent != NULL
      invariant k0 <= k <= |tokens| && Attaching(m, base, val0, s, parent, heads, expr)
      invariant spec == Feed(Opened(heads, m.val), Look(m.val, expr), tokens[k..])
      decreases |heads|
    {
      FeedAt(Opened(heads, m.val), Look(m.val, expr), tokens, k);
      OpenedTail(heads, m.val);
      if m.cells[parent].head == NULL {
        AttachHead(m, parent, expr, base, val0, s, heads);
        return Success(NULL), k, parent, [expr] + heads[1..];
      }
      var newParent := AttachTail(m, parent, expr, base, val0, s, heads);
      expr, parent, heads := parent, newParent, heads[1..];
      if k == |tokens| || tokens[k] != Close { return Failure(Abort), k, parent, heads; }
      k := k + 1;
    }
    FeedAt(Opened(heads, m.val), Look(m.val, expr), tokens, k);
    NothingOpen(m.val);
    return Success(expr), k, NULL, [];
  }

  lemma NothingOpen(val: map<Ptr, Value>)
    ensures Opened([], val) == []
  { }

  /** `parse`: the expression at the front of the tokens, as the grammar says. The
      caller gets one handle, to it. */
  method ParseObject(m: Memory, tokens: seq<Token>) returns (r: Result<Ptr>, rest: seq<Token>)
    requires m.Valid() && m.cells == map[]
    modifies m`heap, m`counts, m`handles, m`objs, m`val, m`cells
    ensures match r
            case Success(p) =>
              && m.Valid() && m.cells == map[] && m.handles == Also(old(m.handles), p) && m.Abs() == old(m.Abs())
              && Same(old(m.handles), old(m.val), m.val) && Parse(tokens) == Ok(Look(m.val, p), rest)
            case Failure(_) => m.Valid() && Parse(tokens).SyntaxError?
  {
    hide Balanced, StackValue, Also, Same, Parse, Continue, Feed;
    ghost var base, val0, s := m.handles, m.val, m.Abs();
    ghost var heads: seq<Ptr> := [];
    var parent: Ptr := NULL;
    var k := 0;
    ContinueParse(tokens);
    SameSelf(base, val0);
    assert tokens[0..] == tokens;
    while k < |tokens|
      invariant 0 <= k <= |tokens| && Parsing(m, base, val0, s, parent, heads)
      invariant Parse(tokens) == Continue(Opened(heads, m.val), tokens[k..])
    {
      var token := tokens[k];
      ContinueAt(Opened(heads, m.val), tokens, k);
      k := k + 1;
      match token {
        case Symbol(chars) =>
          var atom := StartAtom(m, chars, base, val0, s, parent, heads);
          var done, k', parent', heads' := Attach(m, tokens, k, parent, atom, base, val0, s, heads, Parse(tokens));
          if done.Failure? { return done, []; }
          if done.value != NULL { return done, tokens[k'..]; }
          k, parent, heads := k', parent', heads';
        case Open =>
          parent := StartPair(m, parent, base, val0, s, heads);
          heads := [NULL] + heads;
        case _ =>
          return Failure(Abort), [];
      }
    }
    ContinueAt(Opened(heads, m.val), tokens, k);
    return Failure(Abort), [];
  }
}
