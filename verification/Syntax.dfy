/** The concrete syntax: what the parsers accept, a printer, and the proof that
    the two undo each other. */
module Syntax {
  import opened Language

  /** `Other` stands for a number, a bad character or the end of the input. */
  datatype Token = Open | Close | Symbol(chars: string) | Other

  datatype Parsed = Ok(value: Value, rest: seq<Token>) | SyntaxError

  /** Reference grammar: a symbol, or two expressions in parentheses. */
  function Parse(tokens: seq<Token>): (r: Parsed)
    ensures r.Ok? ==> |r.rest| < |tokens|
    decreases |tokens|
  {
    if tokens == [] then SyntaxError
    else match tokens[0]
         case Symbol(s) => Ok(Atom(s), tokens[1..])
         case Open =>
           var h := Parse(tokens[1..]);
           if h.SyntaxError? then h
           else
             var t := Parse(h.rest);
             if t.Ok? && t.rest != [] && t.rest[0] == Close then Ok(Cons(h.value, t.value), t.rest[1..])
             else SyntaxError
         case _ => SyntaxError
  }

  /** Expressions are trees of pairs over atoms. */
  predicate IsExpr(v: Value) {
    v.Atom? || (v.Cons? && IsExpr(v.head) && IsExpr(v.tail))
  }

  function Print(v: Value): seq<Token>
    requires IsExpr(v)
  {
    if v.Atom? then [Symbol(v.chars)] else [Open] + Print(v.head) + Print(v.tail) + [Close]
  }

  /** Parsing what was printed gives the expression back and leaves the rest. */
  lemma {:induction false} ParsePrint(v: Value, rest: seq<Token>)
    requires IsExpr(v)
    ensures Parse(Print(v) + rest) == Ok(v, rest)
    decreases v
  {
    if v.Cons? {
      var rest1 := [Close] + rest;
      var rest2 := Print(v.tail) + rest1;
      ParsePrint(v.tail, rest1);
      ParsePrint(v.head, rest2);
      PrintPair(v.head, v.tail, rest);
      ParsePair([Open] + (Print(v.head) + rest2), Print(v.head) + rest2, rest2, rest1);
      assert rest1[1..] == rest;
    } else {
      assert ([Symbol(v.chars)] + rest)[1..] == rest;
    }
  }

  lemma PrintPair(h: Value, t: Value, rest: seq<Token>)
    requires IsExpr(h) && IsExpr(t)
    ensures Print(Cons(h, t)) + rest == [Open] + (Print(h) + (Print(t) + ([Close] + rest)))
  { }

  lemma ParsePair(tokens: seq<Token>, inner: seq<Token>, afterHead: seq<Token>, afterTail: seq<Token>)
    requires tokens == [Open] + inner
    requires Parse(inner).Ok? && Parse(inner).rest == afterHead
    requires Parse(afterHead).Ok? && Parse(afterHead).rest == afterTail
    requires afterTail != [] && afterTail[0] == Close
    ensures Parse(tokens) == Ok(Cons(Parse(inner).value, Parse(afterHead).value), afterTail[1..])
  {
    assert tokens[1..] == inner;
  }

  /** Whatever is parsed was printed: the consumed tokens are the result's print. */
  lemma {:induction false} PrintParse(tokens: seq<Token>)
    requires Parse(tokens).Ok?
    ensures var r := Parse(tokens); IsExpr(r.value) && tokens == Print(r.value) + r.rest
    decreases |tokens|
  {
    if tokens[0].Open? {
      var h := Parse(tokens[1..]);
      var t := Parse(h.rest);
      PrintParse(tokens[1..]);
      PrintParse(h.rest);
      PrintPair(h.value, t.value, t.rest[1..]);
      assert t.rest == [Close] + t.rest[1..];
      assert tokens == [Open] + tokens[1..];
    }
  }

  /** A pair the iterative parser has opened: waiting for its head, or for its tail. */
  datatype Partial = NeedHead | NeedTail(head: Value)

  /** The outer loop: read an expression into the innermost open pair. */
  function Continue(open: seq<Partial>, tokens: seq<Token>): Parsed
    decreases |tokens|, 0
  {
    var r := Parse(tokens);
    if r.Ok? then Feed(open, r.value, r.rest) else SyntaxError
  }

  /** The inner loop: hand a finished expression to the innermost open pair. */
  function Feed(open: seq<Partial>, expr: Value, tokens: seq<Token>): Parsed
    decreases |tokens|, 1
  {
    if open == [] then Ok(expr, tokens)
    else match open[0]
         case NeedHead => Continue([NeedTail(expr)] + open[1..], tokens)
         case NeedTail(h) =>
           if tokens != [] && tokens[0] == Close then Feed(open[1..], Cons(h, expr), tokens[1..]) else SyntaxError
  }

  /** Opening a pair and reading into it is what the grammar says about `(`. */
  lemma {:induction false} ContinueOpen(open: seq<Partial>, tokens: seq<Token>)
    requires tokens != [] && tokens[0] == Open
    ensures Continue(open, tokens) == Continue([NeedHead] + open, tokens[1..])
  {
    var h := Parse(tokens[1..]);
    if h.Ok? {
      var one := [NeedHead] + open;
      assert one[1..] == open;
      assert Feed(one, h.value, h.rest) == Continue([NeedTail(h.value)] + open, h.rest);
      var two := [NeedTail(h.value)] + open;
      var t := Parse(h.rest);
      assert two[1..] == open;
      if t.Ok? {
        assert Continue(two, h.rest) == Feed(two, t.value, t.rest);
      }
    }
  }

  /** One turn of the inner loop, at index `k` of the tokens. */
  lemma {:induction false} FeedAt(open: seq<Partial>, expr: Value, tokens: seq<Token>, k: nat)
    requires k <= |tokens|
    ensures open == [] ==> Feed(open, expr, tokens[k..]) == Ok(expr, tokens[k..])
    ensures open != [] && open[0] == NeedHead ==>
              Feed(open, expr, tokens[k..]) == Continue([NeedTail(expr)] + open[1..], tokens[k..])
    ensures open != [] && open[0].NeedTail? ==>
              Feed(open, expr, tokens[k..]) ==
              if k < |tokens| && tokens[k] == Close then Feed(open[1..], Cons(open[0].head, expr), tokens[k + 1..])
              else SyntaxError
  {
    if k < |tokens| { assert tokens[k..][1..] == tokens[k + 1..]; }
  }

  /** One turn of the outer loop, at index `k` of the tokens. */
  lemma {:induction false} ContinueAt(open: seq<Partial>, tokens: seq<Token>, k: nat)
    requires k <= |tokens|
    ensures k == |tokens| ==> Continue(open, tokens[k..]) == SyntaxError
    ensures k < |tokens| ==>
              Continue(open, tokens[k..]) ==
              match tokens[k]
              case Symbol(s) => Feed(open, Atom(s), tokens[k + 1..])
              case Open => Continue([NeedHead] + open, tokens[k + 1..])
              case _ => SyntaxError
  {
    if k < |tokens| {
      assert tokens[k..][1..] == tokens[k + 1..];
      if tokens[k] == Open { ContinueOpen(open, tokens[k..]); }
    }
  }

  /** Reading with nothing open is parsing. */
  lemma ContinueParse(tokens: seq<Token>)
    ensures Continue([], tokens) == Parse(tokens)
  { }
}
