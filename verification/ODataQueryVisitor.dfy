/**
 The recursive-descent walk over the tokens of a filter (ODataQueryVisitor.walkTokens).

 Walk is the walk as a function of the cursor.  A call that finds a comma, a symbol or a
 comparison under the cursor calls itself again without moving it, which in Java ends in a
 StackOverflowError; Walk returns that error outright, and WalkIsExact shows that this is
 when, and only when, the literal recursion does not end.
 */
module ODataQueryVisitor {
  import opened Common
  import opened Query
  import opened ODataCompiler
  import T = ODataTokens
  import Z = ODataTokenizer

  type Tokens = seq<T.Token>

  /** The query so far (None is null) and the cursor, or the exception thrown. */
  datatype Parsed = Done(query: Option<Query>, next: nat) | Failed(error: Error)

  function VerbOf(s: string): Verb {
    if s == "eq" then Eq else if s == "ne" then Ne else if s == "lt" then Lt else if s == "gt" then Gt
    else if s == "le" then Le else if s == "ge" then Ge else if s == "any" then Any else All
  }

  function OpOf(s: string): BoolOp { if s == "and" then And else Or }

  predicate Is(ts: Tokens, i: nat, k: T.Kind) { i < |ts| && ts[i].kind == k }

  /** Nothing in walkTokens moves the cursor past such a token. */
  predicate Stuck(ts: Tokens, i: nat) {
    Is(ts, i, T.Comma) || Is(ts, i, T.Symbol) || Is(ts, i, T.BinaryComparison)
  }

  /** parseUnaryTerm: a property, a comparison verb and a value. */
  function ParseUnaryTerm(env: Env, ts: Tokens, i: nat): Result<Query>
    requires Is(ts, i, T.SimpleType)
  {
    if i + 1 >= |ts| then Err(NoSuchElement)
    else if !Is(ts, i + 1, T.BinaryComparison) then Err(TermMismatch)
    else if i + 2 >= |ts| then Err(NoSuchElement)
    else if !Is(ts, i + 2, T.SimpleType) then Err(TermMismatch)
    else CompileAtom(env, ts[i].literal, VerbOf(ts[i + 1].literal), ts[i + 2].literal)
  }

  /** walkTokens, up to and including the opening parenthesis. */
  function Walk(env: Env, ts: Tokens, i: nat, left: Option<Query>): (p: Parsed)
    ensures p.Done? && i < |ts| ==> i < p.next
    ensures p.Done? && i >= |ts| ==> p == Done(None, i)
    decreases if i < |ts| then |ts| - i else 0, 2
  {
    if i >= |ts| then Done(None, i)
    else if Stuck(ts, i) then Failed(EndlessWalk)
    else if Is(ts, i, T.OpenParen) then
      var inner := Walk(env, ts, i + 1, left);
      if inner.Failed? then inner else WalkTerm(env, ts, inner.next, inner.query)
    else WalkTerm(env, ts, i, left)
  }

  /** From the test for a term on. */
  function WalkTerm(env: Env, ts: Tokens, i: nat, left: Option<Query>): (p: Parsed)
    ensures p.Done? ==> i <= p.next
    ensures p.Done? && (Is(ts, i, T.SimpleType) || Is(ts, i, T.CloseParen) || Is(ts, i, T.BinaryOperator)) ==> i < p.next
    decreases if i < |ts| then |ts| - i else 0,
              if Is(ts, i, T.SimpleType) || Is(ts, i, T.CloseParen) || Is(ts, i, T.BinaryOperator) then 1 else 5
  {
    if Is(ts, i, T.SimpleType) then
      var q := ParseUnaryTerm(env, ts, i);
      if q.Err? then Failed(q.error) else WalkClose(env, ts, i + 3, Some(q.value))
    else WalkClose(env, ts, i, left)
  }

  /** From the test for a closing parenthesis on. */
  function WalkClose(env: Env, ts: Tokens, i: nat, left: Option<Query>): (p: Parsed)
    ensures p.Done? ==> i <= p.next
    ensures p.Done? && (Is(ts, i, T.CloseParen) || Is(ts, i, T.BinaryOperator)) ==> i < p.next
    decreases if i < |ts| then |ts| - i else 0,
              if Is(ts, i, T.CloseParen) || Is(ts, i, T.BinaryOperator) then 0 else 4
  {
    if Is(ts, i, T.CloseParen) then Done(left, i + 1)
    else if Is(ts, i, T.BinaryOperator) then
      var right := Walk(env, ts, i + 1, None);
      if right.Failed? then right
      else if left.None? || right.query.None? then Failed(NullPointer)
      else WalkTail(env, ts, right.next, Some(Combine(left.value, OpOf(ts[i].literal), right.query.value)))
    else WalkTail(env, ts, i, left)
  }

  /** The last step: go on while there are tokens. */
  function WalkTail(env: Env, ts: Tokens, i: nat, left: Option<Query>): (p: Parsed)
    ensures p.Done? ==> i <= p.next
    decreases if i < |ts| then |ts| - i else 0, 3
  {
    if i < |ts| then Walk(env, ts, i, left) else Done(left, i)
  }

  /** What becomes of a filter: a query (None is null), or the exception of the tokenizer or of
      the walk. */
  datatype Outcome = Filtered(query: Option<Query>) | BadTokens(lexical: Z.Error) | BadWalk(error: Error)

  function ToQuery(env: Env, wide: char -> bool, filterExp: string): Outcome {
    match Z.Scan(filterExp, 0, wide)
    case Err(e) => BadTokens(e)
    case Ok(ts) =>
      if ts == [] then Filtered(None)
      else match Walk(env, ts, 0, None)
           case Failed(e) => BadWalk(e)
           case Done(q, _) => Filtered(q)
  }

  // ---------- the literal recursion ----------

  /** None: the recursion is deeper than `fuel`. */
  function Literal(env: Env, ts: Tokens, i: nat, left: Option<Query>, fuel: nat): Option<Parsed>
    decreases fuel, 5
  {
    if fuel == 0 then None
    else if i >= |ts| then Some(Done(None, i))
    else if Is(ts, i, T.OpenParen) then
      match Literal(env, ts, i + 1, left, fuel - 1)
      case None => None
      case Some(Failed(e)) => Some(Failed(e))
      case Some(Done(q, j)) => LiteralTerm(env, ts, j, q, fuel)
    else LiteralTerm(env, ts, i, left, fuel)
  }

  function LiteralTerm(env: Env, ts: Tokens, i: nat, left: Option<Query>, fuel: nat): Option<Parsed>
    requires fuel > 0
    decreases fuel, 4
  {
    if Is(ts, i, T.SimpleType) then
      var q := ParseUnaryTerm(env, ts, i);
      if q.Err? then Some(Failed(q.error)) else LiteralClose(env, ts, i + 3, Some(q.value), fuel)
    else LiteralClose(env, ts, i, left, fuel)
  }

  function LiteralClose(env: Env, ts: Tokens, i: nat, left: Option<Query>, fuel: nat): Option<Parsed>
    requires fuel > 0
    decreases fuel, 3
  {
    if Is(ts, i, T.CloseParen) then Some(Done(left, i + 1))
    else if Is(ts, i, T.BinaryOperator) then
      match Literal(env, ts, i + 1, None, fuel - 1)
      case None => None
      case Some(Failed(e)) => Some(Failed(e))
      case Some(Done(right, j)) =>
        if left.None? || right.None? then Some(Failed(NullPointer))
        else LiteralTail(env, ts, j, Some(Combine(left.value, OpOf(ts[i].literal), right.value)), fuel)
    else LiteralTail(env, ts, i, left, fuel)
  }

  function LiteralTail(env: Env, ts: Tokens, i: nat, left: Option<Query>, fuel: nat): Option<Parsed>
    requires fuel > 0
    decreases fuel, 2
  {
    if i < |ts| then Literal(env, ts, i, left, fuel - 1) else Some(Done(left, i))
  }

  lemma {:induction false} StuckForever(env: Env, ts: Tokens, i: nat, left: Option<Query>, fuel: nat)
    requires Stuck(ts, i)
    ensures Literal(env, ts, i, left, fuel).None?
    decreases fuel
  {
    if fuel > 0 {
      assert Literal(env, ts, i, left, fuel) == LiteralTerm(env, ts, i, left, fuel)
          == LiteralClose(env, ts, i, left, fuel) == LiteralTail(env, ts, i, left, fuel);
      StuckForever(env, ts, i, left, fuel - 1);
    }
  }

  /** The literal recursion came back with p: then p is what the walk returns, and not that error. */
  ghost predicate Agrees(l: Option<Parsed>, p: Parsed) {
    l.Some? ==> l.value == p && p != Failed(EndlessWalk)
  }

  lemma {:induction false} LiteralAgrees(env: Env, ts: Tokens, i: nat, left: Option<Query>, fuel: nat)
    ensures Agrees(Literal(env, ts, i, left, fuel), Walk(env, ts, i, left))
    decreases fuel, 5
  {
    if fuel > 0 && i < |ts| {
      if Stuck(ts, i) {
        StuckForever(env, ts, i, left, fuel);
      } else if Is(ts, i, T.OpenParen) {
        LiteralAgrees(env, ts, i + 1, left, fuel - 1);
        var inner := Walk(env, ts, i + 1, left);
        if inner.Done? {
          TermAgrees(env, ts, inner.next, inner.query, fuel);
        }
      } else {
        TermAgrees(env, ts, i, left, fuel);
      }
    }
  }

  lemma {:induction false} TermAgrees(env: Env, ts: Tokens, i: nat, left: Option<Query>, fuel: nat)
    requires fuel > 0
    ensures Agrees(LiteralTerm(env, ts, i, left, fuel), WalkTerm(env, ts, i, left))
    decreases fuel, 4
  {
    if Is(ts, i, T.SimpleType) {
      var q := ParseUnaryTerm(env, ts, i);
      if q.Ok? {
        CloseAgrees(env, ts, i + 3, Some(q.value), fuel);
      }
    } else {
      CloseAgrees(env, ts, i, left, fuel);
    }
  }

  lemma {:induction false} CloseAgrees(env: Env, ts: Tokens, i: nat, left: Option<Query>, fuel: nat)
    requires fuel > 0
    ensures Agrees(LiteralClose(env, ts, i, left, fuel), WalkClose(env, ts, i, left))
    decreases fuel, 3
  {
    if Is(ts, i, T.BinaryOperator) {
      LiteralAgrees(env, ts, i + 1, None, fuel - 1);
      var right := Walk(env, ts, i + 1, None);
      if right.Done? && left.Some? && right.query.Some? {
        TailAgrees(env, ts, right.next, Some(Combine(left.value, OpOf(ts[i].literal), right.query.value)), fuel);
      }
    } else if !Is(ts, i, T.CloseParen) {
      TailAgrees(env, ts, i, left, fuel);
    }
  }

  lemma {:induction false} TailAgrees(env: Env, ts: Tokens, i: nat, left: Option<Query>, fuel: nat)
    requires fuel > 0
    ensures Agrees(LiteralTail(env, ts, i, left, fuel), WalkTail(env, ts, i, left))
    decreases fuel, 2
  {
    if i < |ts| {
      LiteralAgrees(env, ts, i, left, fuel - 1);
    }
  }

  /** As many nested calls as there are tokens left, and one, are enough. */
  function Depth(ts: Tokens, i: nat): nat { if i < |ts| then |ts| - i + 1 else 1 }

  /** What the later steps of a call need when they start at i. */
  function DepthFrom(ts: Tokens, i: nat): nat { Depth(ts, i) + 1 }

  lemma {:induction false} LiteralReturns(env: Env, ts: Tokens, i: nat, left: Option<Query>, fuel: nat)
    requires fuel >= Depth(ts, i) && Walk(env, ts, i, left) != Failed(EndlessWalk)
    ensures Literal(env, ts, i, left, fuel).Some?
    decreases fuel, 5
  {
    if i < |ts| {
      if Is(ts, i, T.OpenParen) {
        LiteralReturns(env, ts, i + 1, left, fuel - 1);
        LiteralAgrees(env, ts, i + 1, left, fuel - 1);
        var inner := Walk(env, ts, i + 1, left);
        if inner.Done? {
          TermReturns(env, ts, inner.next, inner.query, fuel);
        }
      } else {
        TermReturns(env, ts, i, left, fuel);
      }
    }
  }

  lemma {:induction false} TermReturns(env: Env, ts: Tokens, i: nat, left: Option<Query>, fuel: nat)
    requires fuel >= DepthFrom(ts, i)
          || (fuel >= Depth(ts, i)
              && (Is(ts, i, T.SimpleType) || Is(ts, i, T.CloseParen) || Is(ts, i, T.BinaryOperator)))
    requires WalkTerm(env, ts, i, left) != Failed(EndlessWalk)
    ensures LiteralTerm(env, ts, i, left, fuel).Some?
    decreases fuel, 4
  {
    if Is(ts, i, T.SimpleType) {
      var q := ParseUnaryTerm(env, ts, i);
      if q.Ok? {
        CloseReturns(env, ts, i + 3, Some(q.value), fuel);
      }
    } else {
      CloseReturns(env, ts, i, left, fuel);
    }
  }

  lemma {:induction false} CloseReturns(env: Env, ts: Tokens, i: nat, left: Option<Query>, fuel: nat)
    requires fuel >= DepthFrom(ts, i)
          || (fuel >= Depth(ts, i) && (Is(ts, i, T.CloseParen) || Is(ts, i, T.BinaryOperator)))
    requires WalkClose(env, ts, i, left) != Failed(EndlessWalk)
    ensures LiteralClose(env, ts, i, left, fuel).Some?
    decreases fuel, 3
  {
    if Is(ts, i, T.BinaryOperator) {
      LiteralReturns(env, ts, i + 1, None, fuel - 1);
      LiteralAgrees(env, ts, i + 1, None, fuel - 1);
      var right := Walk(env, ts, i + 1, None);
      if right.Done? && left.Some? && right.query.Some? {
        TailReturns(env, ts, right.next, Some(Combine(left.value, OpOf(ts[i].literal), right.query.value)), fuel);
      }
    } else if !Is(ts, i, T.CloseParen) {
      TailReturns(env, ts, i, left, fuel);
    }
  }

  lemma {:induction false} TailReturns(env: Env, ts: Tokens, i: nat, left: Option<Query>, fuel: nat)
    requires fuel >= DepthFrom(ts, i) && WalkTail(env, ts, i, left) != Failed(EndlessWalk)
    ensures LiteralTail(env, ts, i, left, fuel).Some?
    decreases fuel, 2
  {
    if i < |ts| {
      LiteralReturns(env, ts, i, left, fuel - 1);
    }
  }

  /** The literal recursion of walkTokens ends if and only if Walk does not return EndlessWalk;
      then it ends within as many nested calls as there are tokens left and one, and returns
      what Walk returns. */
  lemma WalkIsExact(env: Env, ts: Tokens, i: nat, left: Option<Query>)
    ensures Walk(env, ts, i, left) == Failed(EndlessWalk) <==>
              forall fuel :: Literal(env, ts, i, left, fuel).None?
    ensures Walk(env, ts, i, left) != Failed(EndlessWalk) ==>
              forall fuel :: fuel >= Depth(ts, i) ==> Literal(env, ts, i, left, fuel) == Some(Walk(env, ts, i, left))
  {
    forall fuel: nat
      ensures Agrees(Literal(env, ts, i, left, fuel), Walk(env, ts, i, left))
    {
      LiteralAgrees(env, ts, i, left, fuel);
    }
    if Walk(env, ts, i, left) != Failed(EndlessWalk) {
      forall fuel: nat | fuel >= Depth(ts, i)
        ensures Literal(env, ts, i, left, fuel).Some?
      {
        LiteralReturns(env, ts, i, left, fuel);
      }
      assert Literal(env, ts, i, left, Depth(ts, i)).Some?;
    }
  }

  // ---------- which tokens make the recursion endless ----------

  /** A complete term: a property, a comparison and a value. */
  predicate Triple(ts: Tokens, i: nat) {
    Is(ts, i, T.SimpleType) && Is(ts, i + 1, T.BinaryComparison) && Is(ts, i + 2, T.SimpleType)
  }

  /** A term that is not complete fails: for want of a token if the tokens end where the
      comparison or the value should be, and as a mismatch otherwise. */
  lemma IncompleteTerm(env: Env, ts: Tokens, i: nat, left: Option<Query>)
    requires Is(ts, i, T.SimpleType) && !Triple(ts, i)
    ensures
      var ends := |ts| == i + 1 || (|ts| == i + 2 && ts[i + 1].kind == T.BinaryComparison);
      Walk(env, ts, i, left) == Failed(if ends then NoSuchElement else TermMismatch)
  {
    assert Walk(env, ts, i, left) == WalkTerm(env, ts, i, left);
  }

  /** From i on, stepping over complete terms, a comma, a symbol or a comparison is met. */
  predicate Exposed(ts: Tokens, i: nat)
    decreases if i < |ts| then |ts| - i else 0
  {
    i < |ts| && (Stuck(ts, i) || Exposed(ts, if Triple(ts, i) then i + 3 else i + 1))
  }

  /** The recursion met such a token, or p tells where the walk got without meeting one. */
  ghost predicate MetExposed(ts: Tokens, i: nat, p: Parsed) {
    && (p == Failed(EndlessWalk) ==> Exposed(ts, i))
    && (p.Done? ==> (Exposed(ts, i) <==> Exposed(ts, p.next)))
  }

  /** The walk is endless only if the tokens from i on expose a comma, a symbol or a comparison; and
      a walk that ends at j exposes one before j in no case, so a walk over all tokens had none. */
  lemma {:induction false} EndlessIsExposed(env: Env, ts: Tokens, i: nat, left: Option<Query>)
    ensures MetExposed(ts, i, Walk(env, ts, i, left))
    decreases if i < |ts| then |ts| - i else 0, 2
  {
    if i < |ts| && !Stuck(ts, i) {
      if Is(ts, i, T.OpenParen) {
        EndlessIsExposed(env, ts, i + 1, left);
        var inner := Walk(env, ts, i + 1, left);
        if inner.Done? {
          TermExposed(env, ts, inner.next, inner.query);
        }
      } else {
        TermExposed(env, ts, i, left);
      }
    }
  }

  lemma {:induction false} TermExposed(env: Env, ts: Tokens, i: nat, left: Option<Query>)
    ensures MetExposed(ts, i, WalkTerm(env, ts, i, left))
    decreases if i < |ts| then |ts| - i else 0,
              if Is(ts, i, T.SimpleType) || Is(ts, i, T.CloseParen) || Is(ts, i, T.BinaryOperator) then 1 else 5
  {
    if Is(ts, i, T.SimpleType) {
      var q := ParseUnaryTerm(env, ts, i);
      if q.Ok? {
        assert Triple(ts, i);
        CloseExposed(env, ts, i + 3, Some(q.value));
      }
    } else {
      CloseExposed(env, ts, i, left);
    }
  }

  lemma {:induction false} CloseExposed(env: Env, ts: Tokens, i: nat, left: Option<Query>)
    ensures MetExposed(ts, i, WalkClose(env, ts, i, left))
    decreases if i < |ts| then |ts| - i else 0,
              if Is(ts, i, T.CloseParen) || Is(ts, i, T.BinaryOperator) then 0 else 4
  {
    if Is(ts, i, T.BinaryOperator) {
      EndlessIsExposed(env, ts, i + 1, None);
      var right := Walk(env, ts, i + 1, None);
      if right.Done? && left.Some? && right.query.Some? {
        TailExposed(env, ts, right.next, Some(Combine(left.value, OpOf(ts[i].literal), right.query.value)));
      }
    } else if !Is(ts, i, T.CloseParen) {
      TailExposed(env, ts, i, left);
    }
  }

  lemma {:induction false} TailExposed(env: Env, ts: Tokens, i: nat, left: Option<Query>)
    ensures MetExposed(ts, i, WalkTail(env, ts, i, left))
    decreases if i < |ts| then |ts| - i else 0, 3
  {
    if i < |ts| {
      EndlessIsExposed(env, ts, i, left);
    }
  }

  /** Of the filters that are read without another exception and to their end, or not at all, it
      is exactly those with an exposed token whose recursion is endless. */
  lemma EndlessExactly(env: Env, ts: Tokens, i: nat, left: Option<Query>)
    requires
      var p := Walk(env, ts, i, left);
      if p.Done? then p.next >= |ts| else p.error == EndlessWalk
    ensures (forall fuel :: Literal(env, ts, i, left, fuel).None?) <==> Exposed(ts, i)
  {
    EndlessIsExposed(env, ts, i, left);
    WalkIsExact(env, ts, i, left);
  }
}
