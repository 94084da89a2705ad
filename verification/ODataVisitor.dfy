/**
 The visitor at work: it moves a cursor over the tokens and builds and changes query objects
 (ODataQueryVisitor).  Each method is shown to compute the function of the same part: CompileAtom,
 Combine and Walk.
 */
module ODataVisitor {
  import opened Common
  import opened Query
  import opened QueryObjects
  import opened ODataCompiler
  import V = ODataQueryVisitor
  import T = ODataTokens
  import Z = ODataTokenizer
  import Text

  /** What an object stands for; null stands for no query. */
  ghost function ValueOf(q: QueryNode?): Option<Query>
    reads q
  {
    if q == null then None else Some(q.value)
  }

  class Visitor {
    const env: Env

    constructor (env: Env)
      ensures this.env == env
    {
      this.env := env;
    }

    /** The items of an `any` or `all` become clauses. */
    method VisitItems(name: string, verb: Verb, literal: string, q: QueryNode)
      requires q.Valid() && q.Repr == {q} && q.value.body.Empty? && (verb == Any || verb == All)
      modifies q
      ensures q.Valid() && fresh(q.Repr - {q})
      ensures q.value == old(q.value).(body := AsBody(ItemClauses(name, Items(literal), if verb == Any then ShouldOccur else MustOccur)))
    {
      var itemOccurance := MustOccur;
      if verb == Any {
        itemOccurance := ShouldOccur;
      }
      var items := Items(literal);
      for k := 0 to |items|
        invariant q.Valid() && fresh(q.Repr - {q})
        invariant q.value == old(q.value).(body := AsBody(ItemClauses(name, items[..k], itemOccurance)))
      {
        ghost var before := ItemClauses(name, items[..k], itemOccurance);
        var itemClause := new QueryNode(itemOccurance);
        itemClause.SetTerm(ItemTerm(name, items[k]));
        assert ItemClauses(name, items[..k + 1], itemOccurance) == before + [itemClause.value];
        q.AddBooleanClause(itemClause);
      }
      assert items[..|items|] == items;
    }

    method VisitBinaryComparator(name: string, verb: Verb, literal: string) returns (r: Result<QueryNode>)
      ensures r.Ok? ==> r.value.Valid() && fresh(r.value.Repr)
      ensures CompileAtom(env, name, verb, literal) == if r.Err? then Err(r.error) else Ok(r.value.value)
      decreases name == ALL_FIELDS, 1
    {
      if !IsUnfold(env, name, verb, literal) {
        r := VisitPlain(name, verb, literal);
      } else if ALL_FIELDS in env.names {
        r := Err(EndlessUnfold);
      } else {
        var q := new QueryNode(OccuranceOf(verb));
        Unfold(verb, literal, q);
        r := Ok(q);
      }
    }

    /** ALL_FIELDS becomes a clause for each property. */
    method Unfold(verb: Verb, literal: string, q: QueryNode)
      requires q.Valid() && q.Repr == {q} && q.value == Query(OccuranceOf(verb), Empty)
      requires IsUnfold(env, ALL_FIELDS, verb, literal) && ALL_FIELDS !in env.names
      modifies q
      ensures q.Valid() && fresh(q.Repr - {q})
      ensures q.value == Query(OccuranceOf(verb), AsBody(UnfoldClauses(env, env.names, verb, literal)))
      decreases true, 0
    {
      for k := 0 to |env.names|
        invariant q.Valid() && fresh(q.Repr - {q})
        invariant q.value == Query(OccuranceOf(verb), AsBody(UnfoldClauses(env, env.names[..k], verb, literal)))
      {
        assert env.names[..k + 1][..k] == env.names[..k];
        var inner := VisitBinaryComparator(env.names[k], verb, literal);
        var innerQuery := inner.value;
        innerQuery.SetOccurance(ShouldOccur);
        q.AddBooleanClause(innerQuery);
      }
      assert env.names[..|env.names|] == env.names;
    }

    /** A comparison on one property. */
    method VisitPlain(name: string, verb: Verb, literal: string) returns (r: Result<QueryNode>)
      requires !IsUnfold(env, name, verb, literal)
      ensures r.Ok? ==> r.value.Valid() && fresh(r.value.Repr)
      ensures CompileAtom(env, name, verb, literal) == if r.Err? then Err(r.error) else Ok(r.value.value)
    {
      var q := new QueryNode(OccuranceOf(verb));
      if verb == Any || verb == All {
        VisitItems(name, verb, literal, q);
        return Ok(q);
      }
      var matchType := if '*' in name then Some(Wildcard) else None;
      if env.isNumeric(literal) {
        var range := CreateRange(env, literal, verb);
        if range.Err? {
          return Err(range.error);
        }
        q.SetTerm(QueryTerm(name, matchType, None, range.value));
        return Ok(q);
      }
      if matchType.None? {
        matchType := Some(ExactTerm);
      }
      if '*' in literal {
        matchType := Some(Wildcard);
      }
      q.SetTerm(QueryTerm(name, matchType, Some(Text.Without(literal, '\'')), None));
      r := Ok(q);
    }

    /** MUST on both sides unless negative; two negative sides become SHOULD of a negative query. */
    method RewriteAnd(leftSide: QueryNode, rightSide: QueryNode) returns (occurance: Occurance)
      requires leftSide.Valid() && rightSide.Valid() && leftSide.Repr !! rightSide.Repr
      modifies leftSide`occurance, leftSide`value, rightSide`occurance, rightSide`value
      ensures leftSide.Valid() && rightSide.Valid()
      ensures Query(occurance, Clauses([leftSide.value, rightSide.value]))
           == Combine(old(leftSide.value), And, old(rightSide.value))
    {
      occurance := MustOccur;
      if leftSide.occurance != MustNotOccur {
        leftSide.SetOccurance(MustOccur);
      }
      if rightSide.occurance != MustNotOccur {
        rightSide.SetOccurance(MustOccur);
      }
      if leftSide.occurance == MustNotOccur && rightSide.occurance == MustNotOccur {
        occurance := MustNotOccur;
        leftSide.SetOccurance(ShouldOccur);
        rightSide.SetOccurance(ShouldOccur);
      }
    }

    /** SHOULD on both sides unless negative; two negative sides become MUST of a negative query. */
    method RewriteOr(leftSide: QueryNode, rightSide: QueryNode) returns (occurance: Occurance)
      requires leftSide.Valid() && rightSide.Valid() && leftSide.Repr !! rightSide.Repr
      modifies leftSide`occurance, leftSide`value, rightSide`occurance, rightSide`value
      ensures leftSide.Valid() && rightSide.Valid()
      ensures Query(occurance, Clauses([leftSide.value, rightSide.value]))
           == Combine(old(leftSide.value), Or, old(rightSide.value))
    {
      occurance := MustOccur;
      if leftSide.occurance != MustNotOccur {
        leftSide.SetOccurance(ShouldOccur);
      }
      if rightSide.occurance != MustNotOccur {
        rightSide.SetOccurance(ShouldOccur);
      }
      if leftSide.occurance == MustNotOccur && rightSide.occurance == MustNotOccur {
        occurance := MustNotOccur;
        leftSide.SetOccurance(MustOccur);
        rightSide.SetOccurance(MustOccur);
      }
    }

    /** The occurances of both sides are rewritten in place before they become clauses. */
    method VisitBinaryOperator(leftSide: QueryNode, op: BoolOp, rightSide: QueryNode) returns (q: QueryNode)
      requires leftSide.Valid() && rightSide.Valid() && leftSide.Repr !! rightSide.Repr
      modifies leftSide, rightSide
      ensures q.Valid() && fresh(q) && fresh(q.Repr - old(leftSide.Repr) - old(rightSide.Repr))
      ensures q.value == Combine(old(leftSide.value), op, old(rightSide.value))
    {
      var occurance;
      if op == And {
        occurance := RewriteAnd(leftSide, rightSide);
      } else {
        occurance := RewriteOr(leftSide, rightSide);
      }
      q := new QueryNode(occurance);
      q.AddBooleanClause(leftSide);
      q.AddBooleanClause(rightSide);
    }

    method ParseUnaryTerm(tokens: T.TokenList) returns (r: Result<QueryNode>)
      requires V.Is(tokens.tokens, tokens.current, T.SimpleType)
      modifies tokens
      ensures r.Ok? ==> r.value.Valid() && fresh(r.value.Repr) && tokens.current == old(tokens.current) + 3
      ensures V.ParseUnaryTerm(env, tokens.tokens, old(tokens.current)) == if r.Err? then Err(r.error) else Ok(r.value.value)
    {
      var left := tokens.Next();
      var verb := tokens.LookToken();
      if verb.None? {
        return Err(NoSuchElement);
      }
      if verb.value.kind != T.BinaryComparison {
        return Err(TermMismatch);
      }
      tokens.Skip();
      var right := tokens.LookToken();
      if right.None? {
        return Err(NoSuchElement);
      }
      if right.value.kind != T.SimpleType {
        return Err(TermMismatch);
      }
      tokens.Skip();
      r := VisitBinaryComparator(left.value.literal, V.VerbOf(verb.value.literal), right.value.literal);
    }

    /** A result and a cursor, as the function Walk gives them. */
    ghost predicate Agrees(r: Result<QueryNode?>, tokens: T.TokenList, p: V.Parsed)
      reads tokens, if r.Ok? then {r.value} else {}
    {
      p == if r.Err? then V.Failed(r.error) else V.Done(ValueOf(r.value), tokens.current)
    }

    method WalkTokens(tokens: T.TokenList, left: QueryNode?) returns (r: Result<QueryNode?>)
      requires left != null ==> left.Valid()
      modifies tokens, left
      ensures r.Ok? && r.value != null ==> r.value.Valid() && (r.value == left || fresh(r.value))
      ensures r.Ok? && r.value != null ==> fresh(r.value.Repr - if left == null then {} else old(left.Repr))
      ensures Agrees(r, tokens, V.Walk(env, tokens.tokens, old(tokens.current), old(ValueOf(left))))
      decreases if tokens.HasNext() then |tokens.tokens| - tokens.current else 0, 2
    {
      if !tokens.HasNext() {
        return Ok(null);
      }
      if V.Stuck(tokens.tokens, tokens.current) {
        return Err(EndlessWalk);
      }
      if tokens.LookToken().value.kind == T.OpenParen {
        tokens.Skip();
        r := WalkTokens(tokens, left);
        if r.Ok? {
          r := WalkTerm(tokens, r.value);
        }
      } else {
        r := WalkTerm(tokens, left);
      }
    }

    /** walkTokens from the test for a term on. */
    method WalkTerm(tokens: T.TokenList, left: QueryNode?) returns (r: Result<QueryNode?>)
      requires left != null ==> left.Valid()
      modifies tokens, left
      ensures r.Ok? && r.value != null ==> r.value.Valid() && (r.value == left || fresh(r.value))
      ensures r.Ok? && r.value != null ==> fresh(r.value.Repr - if left == null then {} else old(left.Repr))
      ensures Agrees(r, tokens, V.WalkTerm(env, tokens.tokens, old(tokens.current), old(ValueOf(left))))
      decreases if tokens.HasNext() then |tokens.tokens| - tokens.current else 0,
                if V.Is(tokens.tokens, tokens.current, T.SimpleType) || V.Is(tokens.tokens, tokens.current, T.CloseParen)
                   || V.Is(tokens.tokens, tokens.current, T.BinaryOperator) then 1 else 5
    {
      if tokens.HasNext() && tokens.LookToken().value.kind == T.SimpleType {
        var term := ParseUnaryTerm(tokens);
        if term.Err? {
          return Err(term.error);
        }
        r := WalkClose(tokens, term.value);
      } else {
        r := WalkClose(tokens, left);
      }
    }

    /** walkTokens from the test for a closing parenthesis on. */
    method WalkClose(tokens: T.TokenList, left: QueryNode?) returns (r: Result<QueryNode?>)
      requires left != null ==> left.Valid()
      modifies tokens, left
      ensures r.Ok? && r.value != null ==> r.value.Valid() && (r.value == left || fresh(r.value))
      ensures r.Ok? && r.value != null ==> fresh(r.value.Repr - if left == null then {} else old(left.Repr))
      ensures Agrees(r, tokens, V.WalkClose(env, tokens.tokens, old(tokens.current), old(ValueOf(left))))
      decreases if tokens.HasNext() then |tokens.tokens| - tokens.current else 0,
                if V.Is(tokens.tokens, tokens.current, T.CloseParen) || V.Is(tokens.tokens, tokens.current, T.BinaryOperator)
                then 0 else 4
    {
      if tokens.HasNext() && tokens.LookToken().value.kind == T.CloseParen {
        tokens.Skip();
        return Ok(left);
      }
      if tokens.HasNext() && tokens.LookToken().value.kind == T.BinaryOperator {
        var verb := tokens.Next();
        var right := WalkTokens(tokens, null);
        if right.Err? {
          return right;
        }
        if left == null || right.value == null {
          return Err(NullPointer);
        }
        var both := VisitBinaryOperator(left, V.OpOf(verb.value.literal), right.value);
        r := WalkTail(tokens, both);
      } else {
        r := WalkTail(tokens, left);
      }
    }

    /** The end of walkTokens: it calls itself while there are tokens. */
    method WalkTail(tokens: T.TokenList, left: QueryNode?) returns (r: Result<QueryNode?>)
      requires left != null ==> left.Valid()
      modifies tokens, left
      ensures r.Ok? && r.value != null ==> r.value.Valid() && (r.value == left || fresh(r.value))
      ensures r.Ok? && r.value != null ==> fresh(r.value.Repr - if left == null then {} else old(left.Repr))
      ensures Agrees(r, tokens, V.WalkTail(env, tokens.tokens, old(tokens.current), old(ValueOf(left))))
      decreases if tokens.HasNext() then |tokens.tokens| - tokens.current else 0, 3
    {
      if tokens.HasNext() {
        r := WalkTokens(tokens, left);
      } else {
        r := Ok(left);
      }
    }

    method ToQuery(filterExp: string, wide: char -> bool) returns (q: QueryNode?, error: V.Outcome)
      ensures q != null ==> q.Valid() && fresh(q.Repr)
      ensures V.ToQuery(env, wide, filterExp) == if error.Filtered? then V.Filtered(ValueOf(q)) else error
    {
      q := null;
      var tokenizer := new Z.ODataTokenizer(filterExp, wide);
      var lexical := tokenizer.Tokenize();
      if lexical.Some? {
        return null, V.BadTokens(lexical.value);
      }
      error := V.Filtered(None);
      if tokenizer.tokens != [] {
        var tokens := new T.TokenList(tokenizer.tokens);
        var r := WalkTokens(tokens, null);
        if r.Err? {
          return null, V.BadWalk(r.error);
        }
        q := r.value;
      }
    }
  }
}
