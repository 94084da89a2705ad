/**
 What walkTokens makes of a well-formed filter expression.

 Expressions are chains of primaries joined by `and` and `or`, without precedence; a primary is a
 comparison or a parenthesised expression.  The intended tree is right-associative.  In the walk a
 closing parenthesis only ends the innermost unfinished call, be it the one of a parenthesis or
 the one of a right operand; `Pending` describes the calls left unfinished.
 */
module ODataGrammar {
  import opened Common
  import opened Query
  import opened ODataCompiler
  import opened ODataQueryVisitor
  import P = ODataPrinter
  import T = ODataTokens

  datatype Expr =
    | Comparison(left: P.Lexeme, verb: Verb, right: P.Lexeme)
    | Paren(inner: Expr)
    | Chain(first: Expr, op: BoolOp, rest: Expr)

  function VerbText(v: Verb): string {
    match v
    case Eq => "eq" case Ne => "ne" case Lt => "lt" case Gt => "gt"
    case Le => "le" case Ge => "ge" case Any => "any" case All => "all"
  }

  function OpText(op: BoolOp): string { if op == And then "and" else "or" }

  predicate IsOperand(l: P.Lexeme) { l.Bare? || l.Quoted? }

  /** The first part of a chain is a primary. */
  predicate Grammatical(e: Expr) {
    match e
    case Comparison(l, _, r) => IsOperand(l) && IsOperand(r)
    case Paren(x) => Grammatical(x)
    case Chain(p, _, rest) => !p.Chain? && Grammatical(p) && Grammatical(rest)
  }

  function Lexemes(e: Expr): (ls: seq<P.Lexeme>)
    ensures |ls| > 0
  {
    match e
    case Comparison(l, v, r) => [l, P.Comparison(VerbText(v)), r]
    case Paren(x) => [P.Open] + Lexemes(x) + [P.Close]
    case Chain(p, op, rest) => Lexemes(p) + [P.Operator(OpText(op))] + Lexemes(rest)
  }

  /** The right-associative tree. */
  function Tree(e: Expr): Filter {
    match e
    case Comparison(l, v, r) => Atom(P.TokenText(l), v, P.TokenText(r))
    case Paren(x) => Tree(x)
    case Chain(p, op, rest) => Node(op, Tree(p), Tree(rest))
  }

  // ---------- unfinished calls ----------

  /** A call of walkTokens waiting for an inner one: after an opening parenthesis, or for the
      right operand of an operator whose left operand is known. */
  datatype Frame = Group | Right(left: Filter, op: BoolOp)

  function Push(f: Frame, current: Filter): Filter {
    if f.Group? then current else Node(f.op, f.left, current)
  }

  /** The calls that are unfinished after an expression was read, innermost last. */
  function Frames(e: Expr): seq<Frame> {
    match e
    case Comparison(_, _, _) => []
    case Paren(x) => ([Group] + Frames(x))[..|Frames(x)|]
    case Chain(p, op, rest) => Frames(p) + [Right(Current(p), op)] + Frames(rest)
  }

  /** The query (as a filter) the innermost unfinished call has so far. */
  function Current(e: Expr): Filter {
    match e
    case Comparison(l, v, r) => Atom(P.TokenText(l), v, P.TokenText(r))
    case Paren(x) => Push(([Group] + Frames(x))[|Frames(x)|], Current(x))
    case Chain(p, op, rest) => Current(rest)
  }

  function PopAll(frames: seq<Frame>, current: Filter): Filter {
    if frames == [] then current else PopAll(frames[..|frames| - 1], Push(frames[|frames| - 1], current))
  }

  /** The tree the walk builds. */
  function Built(e: Expr): Filter { PopAll(Frames(e), Current(e)) }

  // ---------- the walk builds that tree ----------

  ghost predicate Reads(ts: Tokens, i: nat, ls: seq<P.Lexeme>) {
    i + |ls| <= |ts|
    && forall k :: 0 <= k < |ls| ==> ts[i + k].kind == P.KindOf(ls[k]) && ts[i + k].literal == P.TokenText(ls[k])
  }

  /** What can follow an expression, or be taken for its end. */
  predicate Boundary(ts: Tokens, j: nat) {
    j >= |ts| || ts[j].kind == T.CloseParen || ts[j].kind == T.BinaryOperator || Stuck(ts, j)
  }

  predicate FilterOk(env: Env, f: Filter) { Compile(env, f).Ok? }

  predicate FrameOk(env: Env, f: Frame) { f.Right? ==> FilterOk(env, f.left) }

  predicate FramesOk(env: Env, fs: seq<Frame>) { forall k :: 0 <= k < |fs| ==> FrameOk(env, fs[k]) }

  /** All comparisons of the expression compile. */
  predicate AtomsOk(env: Env, e: Expr) {
    match e
    case Comparison(l, v, r) => CompileAtom(env, P.TokenText(l), v, P.TokenText(r)).Ok?
    case Paren(x) => AtomsOk(env, x)
    case Chain(p, _, rest) => AtomsOk(env, p) && AtomsOk(env, rest)
  }

  /** The error of the first comparison, in reading order, that does not compile. */
  function FirstError(env: Env, e: Expr): Error
    requires !AtomsOk(env, e)
  {
    match e
    case Comparison(l, v, r) => CompileAtom(env, P.TokenText(l), v, P.TokenText(r)).error
    case Paren(x) => FirstError(env, x)
    case Chain(p, _, rest) => if !AtomsOk(env, p) then FirstError(env, p) else FirstError(env, rest)
  }

  lemma {:induction false} PendingOk(env: Env, e: Expr)
    requires AtomsOk(env, e)
    ensures FramesOk(env, Frames(e)) && FilterOk(env, Current(e))
  {
    match e
    case Comparison(_, _, _) =>
    case Paren(x) =>
      PendingOk(env, x);
      var fs := [Group] + Frames(x);
      assert FramesOk(env, fs);
      assert FrameOk(env, fs[|Frames(x)|]);
    case Chain(p, op, rest) =>
      PendingOk(env, p);
      PendingOk(env, rest);
  }

  function Compiled(env: Env, f: Filter): Query
    requires FilterOk(env, f)
  {
    Compile(env, f).value
  }

  /** An unfinished call goes on with the result of the inner one. */
  function Return(env: Env, ts: Tokens, f: Frame, p: Parsed): Parsed
    requires FrameOk(env, f)
  {
    if p.Failed? then p
    else if f.Group? then WalkTerm(env, ts, p.next, p.query)
    else if p.query.None? then Failed(NullPointer)
    else WalkTail(env, ts, p.next, Some(Combine(Compiled(env, f.left), f.op, p.query.value)))
  }

  function Unwind(env: Env, ts: Tokens, fs: seq<Frame>, p: Parsed): Parsed
    requires FramesOk(env, fs)
  {
    if fs == [] then p else Unwind(env, ts, fs[..|fs| - 1], Return(env, ts, fs[|fs| - 1], p))
  }

  lemma {:induction false} UnwindConcat(env: Env, ts: Tokens, a: seq<Frame>, b: seq<Frame>, p: Parsed)
    requires FramesOk(env, a) && FramesOk(env, b)
    ensures FramesOk(env, a + b)
    ensures Unwind(env, ts, a + b, p) == Unwind(env, ts, a, Unwind(env, ts, b, p))
    decreases |b|
  {
    if b == [] {
      assert a + b == a;
    } else {
      var n := |b| - 1;
      assert (a + b)[..|a| + n] == a + b[..n];
      UnwindConcat(env, ts, a, b[..n], Return(env, ts, b[n], p));
    }
  }

  lemma {:induction false} UnwindFailed(env: Env, ts: Tokens, fs: seq<Frame>, e: Error)
    requires FramesOk(env, fs)
    ensures Unwind(env, ts, fs, Failed(e)) == Failed(e)
  {
    if fs != [] {
      UnwindFailed(env, ts, fs[..|fs| - 1], e);
    }
  }

  lemma UnwindOne(env: Env, ts: Tokens, f: Frame, p: Parsed)
    requires FrameOk(env, f)
    ensures FramesOk(env, [f]) && Unwind(env, ts, [f], p) == Return(env, ts, f, p)
  {
    assert [f][..0] == [];
  }

  /** Where an expression ends, the later steps of the walk agree. */
  lemma AtBoundary(env: Env, ts: Tokens, j: nat, q: Query)
    requires Boundary(ts, j)
    ensures WalkTerm(env, ts, j, Some(q)) == WalkClose(env, ts, j, Some(q))
    ensures WalkTail(env, ts, j, Some(q)) == WalkClose(env, ts, j, Some(q))
    ensures j >= |ts| ==> WalkClose(env, ts, j, Some(q)) == Done(Some(q), j)
  {
  }

  lemma VerbAndOpText(v: Verb, op: BoolOp)
    ensures VerbOf(VerbText(v)) == v && OpOf(OpText(op)) == op
  {
  }

  /** The state of the walk after the expression: its unfinished calls and what they have. */
  function After(env: Env, ts: Tokens, e: Expr, j: nat): Parsed
    requires FramesOk(env, Frames(e)) && FilterOk(env, Current(e))
  {
    Unwind(env, ts, Frames(e), WalkClose(env, ts, j, Some(Compiled(env, Current(e)))))
  }

  lemma ReadsThree(ts: Tokens, i: nat, a: P.Lexeme, b: P.Lexeme, c: P.Lexeme)
    requires Reads(ts, i, [a, b, c])
    ensures i + 2 < |ts|
    ensures ts[i].kind == P.KindOf(a) && ts[i + 1].kind == P.KindOf(b) && ts[i + 2].kind == P.KindOf(c)
    ensures ts[i].literal == P.TokenText(a) && ts[i + 1].literal == P.TokenText(b) && ts[i + 2].literal == P.TokenText(c)
  {
    var ls := [a, b, c];
    assert ls[0] == a && ls[1] == b && ls[2] == c;
    assert ts[i + 0].kind == P.KindOf(ls[0]) && ts[i + 1].kind == P.KindOf(ls[1]) && ts[i + 2].kind == P.KindOf(ls[2]);
  }

  /** A comparison is read as one term. */
  lemma ParsesComparison(env: Env, ts: Tokens, i: nat, e: Expr)
    requires Grammatical(e) && e.Comparison? && Reads(ts, i, Lexemes(e))
    ensures Is(ts, i, T.SimpleType)
    ensures ParseUnaryTerm(env, ts, i) == CompileAtom(env, P.TokenText(e.left), e.verb, P.TokenText(e.right))
  {
    VerbAndOpText(e.verb, And);
    ReadsThree(ts, i, e.left, P.Comparison(VerbText(e.verb)), e.right);
  }

  lemma WalkAtTerm(env: Env, ts: Tokens, i: nat, left: Option<Query>)
    requires Is(ts, i, T.SimpleType)
    ensures
      var q := ParseUnaryTerm(env, ts, i);
      Walk(env, ts, i, left) == if q.Err? then Failed(q.error) else WalkClose(env, ts, i + 3, Some(q.value))
  {
  }

  lemma WalkComparison(env: Env, ts: Tokens, i: nat, left: Option<Query>, e: Expr)
    requires Grammatical(e) && e.Comparison? && AtomsOk(env, e) && Reads(ts, i, Lexemes(e))
    requires FramesOk(env, Frames(e)) && FilterOk(env, Current(e))
    ensures Walk(env, ts, i, left) == After(env, ts, e, i + |Lexemes(e)|)
  {
    assert |Lexemes(e)| == 3;
    ParsesComparison(env, ts, i, e);
    WalkAtTerm(env, ts, i, left);
  }

  lemma ReadsParts(ts: Tokens, i: nat, a: seq<P.Lexeme>, b: seq<P.Lexeme>)
    requires Reads(ts, i, a + b)
    ensures Reads(ts, i, a) && Reads(ts, i + |a|, b)
  {
    forall k | 0 <= k < |a|
      ensures ts[i + k].kind == P.KindOf(a[k]) && ts[i + k].literal == P.TokenText(a[k])
    {
      assert (a + b)[k] == a[k];
    }
    forall k | 0 <= k < |b|
      ensures ts[i + |a| + k].kind == P.KindOf(b[k]) && ts[i + |a| + k].literal == P.TokenText(b[k])
    {
      assert (a + b)[|a| + k] == b[k] && ts[i + (|a| + k)] == ts[i + |a| + k];
    }
  }

  lemma ReadsParen(ts: Tokens, i: nat, x: Expr)
    requires Reads(ts, i, Lexemes(Paren(x)))
    ensures
      var j := i + 1 + |Lexemes(x)|;
      Is(ts, i, T.OpenParen) && Reads(ts, i + 1, Lexemes(x)) && Is(ts, j, T.CloseParen) && |Lexemes(Paren(x))| == |Lexemes(x)| + 2
  {
    var ls := Lexemes(x);
    ReadsParts(ts, i, [P.Open] + ls, [P.Close]);
    ReadsParts(ts, i, [P.Open], ls);
    assert ts[i + 0].kind == P.KindOf([P.Open][0]);
    assert ts[i + 1 + |ls| + 0].kind == P.KindOf([P.Close][0]);
  }

  lemma ReadsChain(ts: Tokens, i: nat, e: Expr)
    requires e.Chain? && Reads(ts, i, Lexemes(e))
    ensures
      var j := i + |Lexemes(e.first)|;
      && Reads(ts, i, Lexemes(e.first))
      && Is(ts, j, T.BinaryOperator) && ts[j].literal == OpText(e.op)
      && Reads(ts, j + 1, Lexemes(e.rest))
      && |Lexemes(e)| == |Lexemes(e.first)| + 1 + |Lexemes(e.rest)|
  {
    var a, o, b := Lexemes(e.first), [P.Operator(OpText(e.op))], Lexemes(e.rest);
    ReadsParts(ts, i, a + o, b);
    ReadsParts(ts, i, a, o);
    assert ts[i + |a| + 0].kind == P.KindOf(o[0]) && ts[i + |a| + 0].literal == P.TokenText(o[0]);
  }

  lemma {:induction false} WalkBuilds(env: Env, ts: Tokens, i: nat, left: Option<Query>, e: Expr)
    requires Grammatical(e) && AtomsOk(env, e)
    requires Reads(ts, i, Lexemes(e)) && Boundary(ts, i + |Lexemes(e)|)
    ensures FramesOk(env, Frames(e)) && FilterOk(env, Current(e))
    ensures Walk(env, ts, i, left) == After(env, ts, e, i + |Lexemes(e)|)
    decreases e, 1
  {
    PendingOk(env, e);
    if e.Comparison? {
      WalkComparison(env, ts, i, left, e);
    } else if e.Paren? {
      WalkParen(env, ts, i, left, e);
    } else {
      WalkChain(env, ts, i, left, e);
    }
  }

  lemma {:induction false} WalkParen(env: Env, ts: Tokens, i: nat, left: Option<Query>, e: Expr)
    requires e.Paren? && Grammatical(e) && AtomsOk(env, e)
    requires Reads(ts, i, Lexemes(e)) && Boundary(ts, i + |Lexemes(e)|)
    requires FramesOk(env, Frames(e)) && FilterOk(env, Current(e))
    ensures Walk(env, ts, i, left) == After(env, ts, e, i + |Lexemes(e)|)
    decreases e, 0
  {
    ReadsParen(ts, i, e.inner);
    var j := i + 1 + |Lexemes(e.inner)|;
    assert i + |Lexemes(e)| == j + 1;
    WalkBuilds(env, ts, i + 1, left, e.inner);
    WalkOpen(env, ts, i, left);
    ParenStep(env, ts, j, e.inner, Walk(env, ts, i + 1, left));
  }

  lemma {:induction false} WalkChain(env: Env, ts: Tokens, i: nat, left: Option<Query>, e: Expr)
    requires e.Chain? && Grammatical(e) && AtomsOk(env, e)
    requires Reads(ts, i, Lexemes(e)) && Boundary(ts, i + |Lexemes(e)|)
    requires FramesOk(env, Frames(e)) && FilterOk(env, Current(e))
    ensures Walk(env, ts, i, left) == After(env, ts, e, i + |Lexemes(e)|)
    decreases e, 0
  {
    ReadsChain(ts, i, e);
    var j := i + |Lexemes(e.first)|;
    WalkBuilds(env, ts, i, left, e.first);
    WalkBuilds(env, ts, j + 1, None, e.rest);
    ChainStep(env, ts, j, i + |Lexemes(e)|, e, Walk(env, ts, i, left), Walk(env, ts, j + 1, None));
  }

  lemma WalkOpen(env: Env, ts: Tokens, i: nat, left: Option<Query>)
    requires Is(ts, i, T.OpenParen)
    ensures Walk(env, ts, i, left) == Return(env, ts, Group, Walk(env, ts, i + 1, left))
  {
  }

  /** A result passes the calls inside a parenthesis from the inside out. */
  lemma PopTop(env: Env, ts: Tokens, inner: seq<Frame>, p: Parsed)
    requires FramesOk(env, inner)
    ensures
      var fs, n := [Group] + inner, |inner|;
      && FramesOk(env, fs) && FramesOk(env, fs[..n])
      && Return(env, ts, Group, Unwind(env, ts, inner, p)) == Unwind(env, ts, fs[..n], Return(env, ts, fs[n], p))
  {
    UnwindOne(env, ts, Group, Unwind(env, ts, inner, p));
    UnwindConcat(env, ts, [Group], inner, p);
  }

  lemma ReturnAtBoundary(env: Env, ts: Tokens, f: Frame, current: Filter, j: nat)
    requires FrameOk(env, f) && FilterOk(env, current) && Boundary(ts, j)
    ensures FilterOk(env, Push(f, current))
    ensures Return(env, ts, f, Done(Some(Compiled(env, current)), j))
         == WalkClose(env, ts, j, Some(Compiled(env, Push(f, current))))
  {
    AtBoundary(env, ts, j, Compiled(env, Push(f, current)));
  }

  lemma ParenStep(env: Env, ts: Tokens, j: nat, x: Expr, w: Parsed)
    requires FramesOk(env, Frames(x)) && FilterOk(env, Current(x))
    requires FramesOk(env, Frames(Paren(x))) && FilterOk(env, Current(Paren(x)))
    requires Is(ts, j, T.CloseParen) && Boundary(ts, j + 1) && w == After(env, ts, x, j)
    ensures Return(env, ts, Group, w) == After(env, ts, Paren(x), j + 1)
  {
    var p := Done(Some(Compiled(env, Current(x))), j + 1);
    assert WalkClose(env, ts, j, Some(Compiled(env, Current(x)))) == p;
    PopTop(env, ts, Frames(x), p);
    ReturnAtBoundary(env, ts, ([Group] + Frames(x))[|Frames(x)|], Current(x), j + 1);
  }

  /** An operator after a left operand starts the call for the right one. */
  lemma CloseAtOperator(env: Env, ts: Tokens, j: nat, left: Filter, op: BoolOp)
    requires FilterOk(env, left) && Is(ts, j, T.BinaryOperator) && ts[j].literal == OpText(op)
    ensures WalkClose(env, ts, j, Some(Compiled(env, left))) == Return(env, ts, Right(left, op), Walk(env, ts, j + 1, None))
  {
    VerbAndOpText(Eq, op);
  }

  /** The unfinished calls of the parts of a chain, one inside the other. */
  lemma UnwindChain(env: Env, ts: Tokens, a: seq<Frame>, f: Frame, b: seq<Frame>, p: Parsed)
    requires FramesOk(env, a) && FrameOk(env, f) && FramesOk(env, b)
    ensures FramesOk(env, a + [f] + b)
    ensures Unwind(env, ts, a, Return(env, ts, f, Unwind(env, ts, b, p))) == Unwind(env, ts, a + [f] + b, p)
  {
    UnwindOne(env, ts, f, Unwind(env, ts, b, p));
    UnwindConcat(env, ts, a, [f], Unwind(env, ts, b, p));
    UnwindConcat(env, ts, a + [f], b, p);
  }

  /** The results of the parts of a chain, put together: w1 of its first part, w2 of the rest. */
  lemma ChainResult(env: Env, ts: Tokens, j: nat, e: Expr, w1: Parsed, w2: Parsed, p: Parsed)
    requires e.Chain? && FramesOk(env, Frames(e.first)) && FilterOk(env, Current(e.first)) && FramesOk(env, Frames(e.rest))
    requires w1 == Unwind(env, ts, Frames(e.first), Return(env, ts, Right(Current(e.first), e.op), w2))
    requires w2 == Unwind(env, ts, Frames(e.rest), p)
    ensures FramesOk(env, Frames(e)) && w1 == Unwind(env, ts, Frames(e), p)
  {
    UnwindChain(env, ts, Frames(e.first), Right(Current(e.first), e.op), Frames(e.rest), p);
  }

  lemma ChainStep(env: Env, ts: Tokens, j: nat, k: nat, e: Expr, w1: Parsed, w2: Parsed)
    requires e.Chain? && FramesOk(env, Frames(e)) && FilterOk(env, Current(e))
    requires FramesOk(env, Frames(e.first)) && FilterOk(env, Current(e.first))
    requires FramesOk(env, Frames(e.rest)) && FilterOk(env, Current(e.rest))
    requires Is(ts, j, T.BinaryOperator) && ts[j].literal == OpText(e.op)
    requires w1 == After(env, ts, e.first, j) && w2 == Walk(env, ts, j + 1, None) == After(env, ts, e.rest, k)
    ensures w1 == After(env, ts, e, k)
  {
    CloseAtOperator(env, ts, j, Current(e.first), e.op);
    ChainResult(env, ts, j, e, w1, w2, WalkClose(env, ts, k, Some(Compiled(env, Current(e.rest)))));
  }

  lemma ComparisonReports(env: Env, ts: Tokens, i: nat, left: Option<Query>, e: Expr)
    requires Grammatical(e) && e.Comparison? && !AtomsOk(env, e) && Reads(ts, i, Lexemes(e))
    ensures Walk(env, ts, i, left) == Failed(FirstError(env, e))
  {
    ParsesComparison(env, ts, i, e);
    WalkAtTerm(env, ts, i, left);
  }

  lemma {:induction false} WalkReports(env: Env, ts: Tokens, i: nat, left: Option<Query>, e: Expr)
    requires Grammatical(e) && !AtomsOk(env, e)
    requires Reads(ts, i, Lexemes(e)) && Boundary(ts, i + |Lexemes(e)|)
    ensures Walk(env, ts, i, left) == Failed(FirstError(env, e))
    decreases e, 1
  {
    match e
    case Comparison(_, _, _) => ComparisonReports(env, ts, i, left, e);
    case Paren(x) =>
      ReadsParen(ts, i, x);
      WalkReports(env, ts, i + 1, left, x);
      WalkOpen(env, ts, i, left);
    case Chain(_, _, _) => ChainReports(env, ts, i, left, e);
  }

  lemma {:induction false} ChainReports(env: Env, ts: Tokens, i: nat, left: Option<Query>, e: Expr)
    requires e.Chain? && Grammatical(e) && !AtomsOk(env, e)
    requires Reads(ts, i, Lexemes(e)) && Boundary(ts, i + |Lexemes(e)|)
    ensures Walk(env, ts, i, left) == Failed(FirstError(env, e))
    decreases e, 0
  {
    ReadsChain(ts, i, e);
    var j := i + |Lexemes(e.first)|;
    if !AtomsOk(env, e.first) {
      WalkReports(env, ts, i, left, e.first);
    } else {
      WalkBuilds(env, ts, i, left, e.first);
      WalkReports(env, ts, j + 1, None, e.rest);
      CloseAtOperator(env, ts, j, Current(e.first), e.op);
      UnwindFailed(env, ts, Frames(e.first), FirstError(env, e.rest));
    }
  }

  /** At the end of the input all unfinished calls return. */
  lemma {:induction false} UnwindEnd(env: Env, ts: Tokens, fs: seq<Frame>, current: Filter)
    requires FramesOk(env, fs) && FilterOk(env, current)
    ensures FilterOk(env, PopAll(fs, current))
    ensures Unwind(env, ts, fs, Done(Some(Compiled(env, current)), |ts|))
         == Done(Some(Compiled(env, PopAll(fs, current))), |ts|)
    decreases |fs|
  {
    if fs != [] {
      var n := |fs| - 1;
      var next := Push(fs[n], current);
      assert FrameOk(env, fs[n]);
      AtBoundary(env, ts, |ts|, Compiled(env, next));
      UnwindEnd(env, ts, fs[..n], next);
    }
  }

  lemma AfterEnds(env: Env, ts: Tokens, e: Expr)
    requires FramesOk(env, Frames(e)) && FilterOk(env, Current(e))
    ensures FilterOk(env, Built(e)) && After(env, ts, e, |ts|) == Done(Some(Compiled(env, Built(e))), |ts|)
  {
    AtBoundary(env, ts, |ts|, Compiled(env, Current(e)));
    UnwindEnd(env, ts, Frames(e), Current(e));
  }

  /** For every grammatical expression the walk consumes all tokens and returns the query of
      the tree `Built`, or the error of the first comparison that does not compile. */
  lemma WalkExactly(env: Env, ts: Tokens, e: Expr)
    requires Grammatical(e) && Reads(ts, 0, Lexemes(e)) && |ts| == |Lexemes(e)|
    ensures AtomsOk(env, e) ==>
              FilterOk(env, Built(e)) && Walk(env, ts, 0, None) == Done(Some(Compiled(env, Built(e))), |ts|)
    ensures !AtomsOk(env, e) ==> Walk(env, ts, 0, None) == Failed(FirstError(env, e))
  {
    if AtomsOk(env, e) {
      WalkBuilds(env, ts, 0, None, e);
      AfterEnds(env, ts, e);
    } else {
      WalkReports(env, ts, 0, None, e);
    }
  }

  lemma StrayTokenFails(env: Env, ts: Tokens, i: nat, left: Option<Query>, e: Expr)
    requires Grammatical(e) && AtomsOk(env, e)
    requires Reads(ts, i, Lexemes(e)) && Stuck(ts, i + |Lexemes(e)|)
    ensures Walk(env, ts, i, left) == Failed(EndlessWalk)
  {
    WalkBuilds(env, ts, i, left, e);
    AtStuck(env, ts, i + |Lexemes(e)|, Compiled(env, Current(e)));
    AfterFails(env, ts, e, i + |Lexemes(e)|, EndlessWalk);
  }

  lemma AtStuck(env: Env, ts: Tokens, j: nat, q: Query)
    requires Stuck(ts, j)
    ensures WalkClose(env, ts, j, Some(q)) == Failed(EndlessWalk)
  {
    assert WalkTail(env, ts, j, Some(q)) == Walk(env, ts, j, Some(q));
  }

  /** What fails after an expression fails the whole walk. */
  lemma AfterFails(env: Env, ts: Tokens, e: Expr, j: nat, error: Error)
    requires FramesOk(env, Frames(e)) && FilterOk(env, Current(e))
    requires WalkClose(env, ts, j, Some(Compiled(env, Current(e)))) == Failed(error)
    ensures After(env, ts, e, j) == Failed(error)
  {
    UnwindFailed(env, ts, Frames(e), error);
  }

  /** An expression whose comparisons compile, followed by a comma, a symbol or a comparison: the
      recursion of walkTokens does not end. */
  lemma StrayTokenIsEndless(env: Env, ts: Tokens, i: nat, left: Option<Query>, e: Expr)
    requires Grammatical(e) && AtomsOk(env, e)
    requires Reads(ts, i, Lexemes(e)) && Stuck(ts, i + |Lexemes(e)|)
    ensures forall fuel :: Literal(env, ts, i, left, fuel).None?
  {
    StrayTokenFails(env, ts, i, left, e);
    WalkIsExact(env, ts, i, left);
  }

  /** An expression whose comparisons compile, followed by an operator whose right operand fails or
      is missing: the error is that of the operand, or a null pointer. */
  lemma RightOperandFails(env: Env, ts: Tokens, i: nat, left: Option<Query>, e: Expr)
    requires Grammatical(e) && AtomsOk(env, e)
    requires Reads(ts, i, Lexemes(e)) && Is(ts, i + |Lexemes(e)|, T.BinaryOperator)
    requires var right := Walk(env, ts, i + |Lexemes(e)| + 1, None); right.Failed? || right.query.None?
    ensures
      var right := Walk(env, ts, i + |Lexemes(e)| + 1, None);
      Walk(env, ts, i, left) == Failed(if right.Failed? then right.error else NullPointer)
  {
    var j := i + |Lexemes(e)|;
    var right := Walk(env, ts, j + 1, None);
    WalkBuilds(env, ts, i, left, e);
    AfterFails(env, ts, e, j, if right.Failed? then right.error else NullPointer);
  }

  /** A filter must not end in an operator. */
  lemma TrailingOperator(env: Env, ts: Tokens, e: Expr)
    requires Grammatical(e) && AtomsOk(env, e)
    requires Reads(ts, 0, Lexemes(e)) && Is(ts, |Lexemes(e)|, T.BinaryOperator) && |ts| == |Lexemes(e)| + 1
    ensures Walk(env, ts, 0, None) == Failed(NullPointer)
  {
    RightOperandFails(env, ts, 0, None, e);
  }

  /** A filter must not begin with an operator. */
  lemma LeadingOperator(env: Env, ts: Tokens)
    requires Is(ts, 0, T.BinaryOperator)
    ensures
      var right := Walk(env, ts, 1, None);
      Walk(env, ts, 0, None) == Failed(if right.Failed? then right.error else NullPointer)
  {
    assert Walk(env, ts, 0, None) == WalkTerm(env, ts, 0, None) == WalkClose(env, ts, 0, None);
  }

  /** After an expression with no unfinished calls a closing parenthesis that was never opened ends
      the walk: the filter is the expression, and whatever follows is ignored. */
  lemma RestIsIgnored(env: Env, ts: Tokens, e: Expr)
    requires Grammatical(e) && AtomsOk(env, e) && Frames(e) == []
    requires Reads(ts, 0, Lexemes(e)) && Is(ts, |Lexemes(e)|, T.CloseParen)
    ensures FilterOk(env, Built(e)) && Walk(env, ts, 0, None) == Done(Some(Compiled(env, Built(e))), |Lexemes(e)| + 1)
  {
    WalkBuilds(env, ts, 0, None, e);
  }
}
