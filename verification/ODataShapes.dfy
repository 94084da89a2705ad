/**
 When the tree that walkTokens builds is the intended, right-associative one.
 */
module ODataShapes {
  import opened Common
  import opened Query
  import opened ODataCompiler
  import opened ODataQueryVisitor
  import opened ODataGrammar

  predicate NoRight(fs: seq<Frame>) { forall k :: 0 <= k < |fs| ==> fs[k].Group? }

  /** No operator finds an operator of its left operand still waiting for its right operand. */
  predicate Settled(e: Expr) {
    match e
    case Comparison(_, _, _) => true
    case Paren(x) => Settled(x)
    case Chain(p, _, rest) => NoRight(Frames(p)) && Settled(p) && Settled(rest)
  }

  lemma {:induction false} PopAllConcat(a: seq<Frame>, b: seq<Frame>, f: Filter)
    ensures PopAll(a + b, f) == PopAll(a, PopAll(b, f))
    decreases |b|
  {
    if b == [] {
      assert a + b == a;
    } else {
      var n := |b| - 1;
      assert (a + b)[..|a| + n] == a + b[..n];
      PopAllConcat(a, b[..n], Push(b[n], f));
    }
  }

  lemma {:induction false} PopAllGroups(fs: seq<Frame>, f: Filter)
    requires NoRight(fs)
    ensures PopAll(fs, f) == f
  {
    if fs != [] {
      PopAllGroups(fs[..|fs| - 1], f);
    }
  }

  lemma BuiltParen(x: Expr)
    ensures Built(Paren(x)) == Built(x)
  {
    var fs := [Group] + Frames(x);
    var n := |Frames(x)|;
    assert PopAll(fs, Current(x)) == PopAll(fs[..n], Push(fs[n], Current(x)));
    PopAllConcat([Group], Frames(x), Current(x));
    PopAllGroups([Group], Built(x));
  }

  lemma BuiltChain(e: Expr)
    requires e.Chain?
    ensures Built(e) == PopAll(Frames(e.first), Node(e.op, Current(e.first), Built(e.rest)))
  {
    var f := Right(Current(e.first), e.op);
    PopAllConcat(Frames(e.first) + [f], Frames(e.rest), Current(e));
    PopAllConcat(Frames(e.first), [f], Built(e.rest));
    assert [f][..0] == [];
  }

  function Leaves(f: Filter): nat {
    match f
    case Atom(_, _, _) => 1
    case Node(_, l, r) => Leaves(l) + Leaves(r)
  }

  function FrameLeaves(fs: seq<Frame>): nat {
    if fs == [] then 0
    else FrameLeaves(fs[..|fs| - 1]) + (if fs[|fs| - 1].Right? then Leaves(fs[|fs| - 1].left) else 0)
  }

  lemma {:induction false} LeavesPositive(f: Filter)
    ensures Leaves(f) >= 1
  {
    if f.Node? {
      LeavesPositive(f.left);
    }
  }

  lemma {:induction false} PopAllLeaves(fs: seq<Frame>, f: Filter)
    ensures Leaves(PopAll(fs, f)) == FrameLeaves(fs) + Leaves(f)
    decreases |fs|
  {
    if fs != [] {
      PopAllLeaves(fs[..|fs| - 1], Push(fs[|fs| - 1], f));
    }
  }

  lemma {:induction false} BuiltLeaves(e: Expr)
    ensures Leaves(Built(e)) == Leaves(Tree(e))
  {
    match e
    case Comparison(_, _, _) =>
    case Paren(x) =>
      BuiltParen(x);
      BuiltLeaves(x);
    case Chain(p, op, rest) =>
      BuiltChain(e);
      BuiltLeaves(p);
      BuiltLeaves(rest);
      PopAllLeaves(Frames(p), Current(p));
      PopAllLeaves(Frames(p), Node(op, Current(p), Built(rest)));
  }

  /** An operator left waiting takes the root: its left operand is less than it should be. */
  lemma {:induction false} StaleRoot(fs: seq<Frame>, f: Filter)
    requires !NoRight(fs)
    ensures PopAll(fs, f).Node? && Leaves(PopAll(fs, f).left) <= FrameLeaves(fs)
    decreases |fs|
  {
    var n := |fs| - 1;
    var front := fs[..n];
    if NoRight(front) {
      assert fs[n].Right? by {
        if fs[n].Group? {
          assert forall k :: 0 <= k < |fs| ==> k == n || fs[k] == front[k];
        }
      }
      PopAllGroups(front, Push(fs[n], f));
    } else {
      StaleRoot(front, Push(fs[n], f));
    }
  }

  /** The walk builds the right-associative tree of an expression if and only if the expression
      is settled. */
  lemma {:induction false} BuiltIsTree(e: Expr)
    ensures Built(e) == Tree(e) <==> Settled(e)
  {
    match e
    case Comparison(_, _, _) =>
    case Paren(x) =>
      BuiltParen(x);
      BuiltIsTree(x);
    case Chain(p, op, rest) =>
      BuiltChain(e);
      BuiltIsTree(p);
      BuiltIsTree(rest);
      var node := Node(op, Current(p), Built(rest));
      if NoRight(Frames(p)) {
        PopAllGroups(Frames(p), node);
        PopAllGroups(Frames(p), Current(p));
      } else {
        StaleRoot(Frames(p), node);
        BuiltLeaves(p);
        PopAllLeaves(Frames(p), Current(p));
        LeavesPositive(Current(p));
      }
  }

  // ---------- the two shapes the source documents ----------

  /** t1 op t2 op ... tn without parentheses. */
  predicate Flat(e: Expr) {
    match e
    case Comparison(_, _, _) => true
    case Paren(_) => false
    case Chain(p, _, rest) => p.Comparison? && Flat(rest)
  }

  /** ((t1 op t2) op t3) ... op tn: only left operands are groups. */
  predicate LeftNested(e: Expr) {
    match e
    case Comparison(_, _, _) => true
    case Paren(x) => LeftNested(x)
    case Chain(p, _, rest) => (p.Comparison? || p.Paren?) && LeftNested(p) && rest.Comparison?
  }

  lemma {:induction false} FlatSettled(e: Expr)
    requires Flat(e)
    ensures Settled(e)
  {
    if e.Chain? {
      FlatSettled(e.rest);
    }
  }

  /** A left-nested group leaves no operator waiting, a left-nested chain only its last one. */
  lemma {:induction false} LeftNestedFrames(e: Expr)
    requires LeftNested(e)
    ensures Settled(e)
    ensures !e.Chain? ==> NoRight(Frames(e))
    ensures e.Chain? ==> Frames(e) != [] && NoRight(Frames(e)[..|Frames(e)| - 1])
  {
    match e
    case Comparison(_, _, _) =>
    case Paren(x) =>
      LeftNestedFrames(x);
      var fs := [Group] + Frames(x);
      var n := |Frames(x)|;
      forall k | 0 <= k < n
        ensures fs[..n][k].Group?
      {
        if k > 0 {
          assert fs[k] == Frames(x)[k - 1];
          if x.Chain? {
            assert Frames(x)[..n - 1][k - 1].Group?;
          }
        }
      }
    case Chain(p, op, rest) =>
      LeftNestedFrames(p);
      assert Frames(e) == Frames(p) + [Right(Current(p), op)];
      assert Frames(e)[..|Frames(e)| - 1] == Frames(p);
  }

  /** Parenthesis-free chains and left-nested parenthesised expressions are parsed as intended. */
  lemma DocumentedShapes(env: Env, ts: Tokens, e: Expr)
    requires Grammatical(e) && (Flat(e) || LeftNested(e)) && AtomsOk(env, e)
    requires Reads(ts, 0, Lexemes(e)) && |ts| == |Lexemes(e)|
    ensures FilterOk(env, Tree(e)) && Walk(env, ts, 0, None) == Done(Some(Compiled(env, Tree(e))), |ts|)
  {
    if Flat(e) {
      FlatSettled(e);
    } else {
      LeftNestedFrames(e);
    }
    BuiltIsTree(e);
    WalkExactly(env, ts, e);
  }

  /** A group leaves its own call unfinished in place of its last operator's. */
  lemma GroupOfTwo(b: Expr, op: BoolOp, c: Expr)
    requires b.Comparison? && c.Comparison?
    ensures Frames(Paren(Chain(b, op, c))) == [Group]
    ensures Current(Paren(Chain(b, op, c))) == Node(op, Tree(b), Tree(c))
  {
    var x := Chain(b, op, c);
    assert Frames(x) == [Right(Tree(b), op)] && Current(x) == Tree(c);
    var fs := [Group] + Frames(x);
    assert fs[..1] == [Group] && fs[1] == Right(Tree(b), op);
  }

  lemma GroupOfGroup(a: Expr, op: BoolOp, g: Expr)
    requires a.Comparison? && Frames(g) == [Group]
    ensures Frames(Paren(Chain(a, op, g))) == [Group, Right(Tree(a), op)]
    ensures Current(Paren(Chain(a, op, g))) == Current(g)
  {
    assert Frames(Chain(a, op, g)) == [Right(Tree(a), op), Group];
    var fs := [Group] + [Right(Tree(a), op), Group];
    assert fs[..2] == [Group, Right(Tree(a), op)];
  }

  /** (a or (b or c)) and d is read as a or ((b or c) and d). */
  lemma RightNestedGroupIsRegrouped(a: Expr, b: Expr, c: Expr, d: Expr)
    requires a.Comparison? && b.Comparison? && c.Comparison? && d.Comparison?
    ensures Built(Chain(Paren(Chain(a, Or, Paren(Chain(b, Or, c)))), And, d))
         == Node(Or, Tree(a), Node(And, Node(Or, Tree(b), Tree(c)), Tree(d)))
  {
    var g := Paren(Chain(b, Or, c));
    GroupOfTwo(b, Or, c);
    GroupOfGroup(a, Or, g);
    BuiltChain(Chain(Paren(Chain(a, Or, g)), And, d));
    var node := Node(And, Node(Or, Tree(b), Tree(c)), Tree(d));
    assert Built(d) == Tree(d);
    PopAllConcat([Group], [Right(Tree(a), Or)], node);
    assert [Group] + [Right(Tree(a), Or)] == [Group, Right(Tree(a), Or)];
    assert [Right(Tree(a), Or)][..0] == [];
    PopAllGroups([Group], Node(Or, Tree(a), node));
  }
}
