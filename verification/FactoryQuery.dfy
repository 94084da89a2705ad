/**
 The query a factory runs for a GET with an OData filter: the filter, the kind of the children and
 their self-link prefix (FactoryService.handleGetOdataCompletion, ODataUtils.toQuery).
 */
module FactoryQuery {
  import opened Common
  import opened Query
  import opened ODataCompiler
  import opened ODataMeaning
  import opened ODataQueryVisitor
  import opened ODataVisitor
  import opened QueryObjects
  import G = ODataGrammar
  import H = ODataShapes
  import P = ODataPrinter
  import T = ODataTokens
  import Z = ODataTokenizer

  const KIND: string := "documentKind"
  const SELF_LINK: string := "documentSelfLink"

  function KindClause(kind: string): Query {
    Query(MustOccur, Term(QueryTerm(KIND, Some(ExactTerm), Some(kind), None)))
  }

  function SelfLinkClause(selfLink: string): Query {
    Query(MustOccur, Term(QueryTerm(SELF_LINK, Some(Prefix), Some(selfLink), None)))
  }

  /** The clause of the filter; None stands for the exception of a filter that is rejected. */
  function FilterPart(env: Env, wide: char -> bool, filter: Option<string>): Option<Query> {
    var spec := Query(MustOccur, Empty);
    if filter.None? then Some(spec)
    else match ToQuery(env, wide, filter.value)
         case Filtered(q) => Some(if q.Some? then WithClause(spec, q.value) else spec)
         case _ => None
  }

  /** The query specification. */
  function Specification(env: Env, wide: char -> bool, filter: Option<string>, kind: string, selfLink: string): Option<Query> {
    var spec := FilterPart(env, wide, filter);
    if spec.None? then None else Some(WithClause(WithClause(spec.value, KindClause(kind)), SelfLinkClause(selfLink)))
  }

  /** A new clause on one property. */
  method NewTerm(term: QueryTerm) returns (q: QueryNode)
    ensures q.Valid() && fresh(q.Repr) && q.value == Query(MustOccur, Term(term))
  {
    q := new QueryNode(MustOccur);
    q.SetTerm(term);
  }

  /** The specification ODataUtils.toQuery starts from; null stands for an exception. */
  method BuildFiltered(env: Env, wide: char -> bool, filter: Option<string>) returns (spec: QueryNode?)
    ensures spec != null ==> spec.Valid() && fresh(spec.Repr)
    ensures FilterPart(env, wide, filter) == if spec == null then None else Some(spec.value)
  {
    spec := new QueryNode(MustOccur);
    if filter.Some? {
      var visitor := new Visitor(env);
      var q, outcome := visitor.ToQuery(filter.value, wide);
      if !outcome.Filtered? {
        return null;
      }
      if q != null {
        spec.AddBooleanClause(q);
      }
    }
  }

  /** The query specification is extended clause by clause. */
  method BuildSpecification(env: Env, wide: char -> bool, filter: Option<string>, kind: string, selfLink: string)
    returns (spec: QueryNode?)
    ensures spec != null ==> spec.Valid() && fresh(spec.Repr)
    ensures Specification(env, wide, filter, kind, selfLink) == if spec == null then None else Some(spec.value)
  {
    spec := BuildFiltered(env, wide, filter);
    if spec == null {
      return;
    }
    var kindClause := NewTerm(QueryTerm(KIND, Some(ExactTerm), Some(kind), None));
    spec.AddBooleanClause(kindClause);
    var selfLinkPrefixClause := NewTerm(QueryTerm(SELF_LINK, Some(Prefix), Some(selfLink), None));
    spec.AddBooleanClause(selfLinkPrefixClause);
  }

  /** A document the factory may list: one of its children. */
  predicate IsChild(d: Document, kind: string, selfLink: string) {
    d.equal("documentKind", kind, ExactTerm) && d.equal("documentSelfLink", selfLink, Prefix)
  }

  // ---------- any filter ----------

  predicate NotShould(q: Option<Query>) { q.Some? ==> !q.value.occurance.ShouldOccur? }

  predicate NeverShould(p: Parsed) { p.Done? ==> NotShould(p.query) }

  lemma {:induction false} WalkNeverShould(env: Env, ts: Tokens, i: nat, left: Option<Query>)
    requires NotShould(left)
    ensures NeverShould(Walk(env, ts, i, left))
    decreases if i < |ts| then |ts| - i else 0, 2
  {
    if i < |ts| && !Stuck(ts, i) {
      if Is(ts, i, T.OpenParen) {
        WalkNeverShould(env, ts, i + 1, left);
        var inner := Walk(env, ts, i + 1, left);
        if inner.Done? {
          TermNeverShould(env, ts, inner.next, inner.query);
        }
      } else {
        TermNeverShould(env, ts, i, left);
      }
    }
  }

  lemma {:induction false} TermNeverShould(env: Env, ts: Tokens, i: nat, left: Option<Query>)
    requires NotShould(left)
    ensures NeverShould(WalkTerm(env, ts, i, left))
    decreases if i < |ts| then |ts| - i else 0,
              if Is(ts, i, T.SimpleType) || Is(ts, i, T.CloseParen) || Is(ts, i, T.BinaryOperator) then 1 else 5
  {
    if Is(ts, i, T.SimpleType) {
      var q := ParseUnaryTerm(env, ts, i);
      if q.Ok? {
        CloseNeverShould(env, ts, i + 3, Some(q.value));
      }
    } else {
      CloseNeverShould(env, ts, i, left);
    }
  }

  lemma {:induction false} CloseNeverShould(env: Env, ts: Tokens, i: nat, left: Option<Query>)
    requires NotShould(left)
    ensures NeverShould(WalkClose(env, ts, i, left))
    decreases if i < |ts| then |ts| - i else 0,
              if Is(ts, i, T.CloseParen) || Is(ts, i, T.BinaryOperator) then 0 else 4
  {
    if Is(ts, i, T.BinaryOperator) {
      var right := Walk(env, ts, i + 1, None);
      if right.Done? && left.Some? && right.query.Some? {
        TailNeverShould(env, ts, right.next, Some(Combine(left.value, OpOf(ts[i].literal), right.query.value)));
      }
    } else if !Is(ts, i, T.CloseParen) {
      TailNeverShould(env, ts, i, left);
    }
  }

  lemma {:induction false} TailNeverShould(env: Env, ts: Tokens, i: nat, left: Option<Query>)
    requires NotShould(left)
    ensures NeverShould(WalkTail(env, ts, i, left))
    decreases if i < |ts| then |ts| - i else 0, 3
  {
    if i < |ts| {
      WalkNeverShould(env, ts, i, left);
    }
  }

  lemma MustPair(d: Document, a: Query, b: Query)
    requires a.occurance.MustOccur? && b.occurance.MustOccur?
    ensures Matches(d, Clauses([a, b])) <==> Matches(d, a.body) && Matches(d, b.body)
  {
    PairMatches(d, a, b);
  }

  /** A clause that is not SHOULD, beside two MUST clauses, counts as what it says by itself. */
  lemma Conjoined(d: Document, q: Query, a: Query, b: Query)
    requires !q.occurance.ShouldOccur? && a.occurance.MustOccur? && b.occurance.MustOccur?
    ensures Matches(d, Clauses([q, a, b])) <==> Holds(d, q) && Matches(d, a.body) && Matches(d, b.body)
  {
    var cs := [q, a, b];
    assert cs[0] == q && cs[1] == a && cs[2] == b;
    assert HasMust(cs);
  }

  /** Whatever string the filter is, the factory lists exactly those of its children for which
      the query made of the filter holds; without a query it lists all of them. */
  lemma FilterIsConjoined(env: Env, wide: char -> bool, filterExp: string, kind: string, selfLink: string, d: Document)
    requires ToQuery(env, wide, filterExp).Filtered?
    ensures
      var spec := Specification(env, wide, Some(filterExp), kind, selfLink);
      var q := ToQuery(env, wide, filterExp).query;
      spec.Some? && (Matches(d, spec.value.body) <==> IsChild(d, kind, selfLink) && (q.Some? ==> Holds(d, q.value)))
  {
    var spec := Specification(env, wide, Some(filterExp), kind, selfLink).value;
    var q := ToQuery(env, wide, filterExp).query;
    var a, b := KindClause(kind), SelfLinkClause(selfLink);
    if q.Some? {
      WalkNeverShould(env, Z.Scan(filterExp, 0, wide).tokens, 0, None);
      assert spec.body.clauses == [q.value, a, b];
      Conjoined(d, q.value, a, b);
    } else {
      assert spec.body.clauses == [a, b];
      MustPair(d, a, b);
    }
  }

  // ---------- printed expressions ----------

  predicate PlainOperand(l: P.Lexeme, wide: char -> bool) {
    l.Quoted? || (l.Bare? && P.IsWord(l.text, wide) && l.text !in T.COMPARISONS && l.text !in T.OPERATORS)
  }

  /** Expressions over quoted literals and bare ones that are not keywords. */
  predicate Writable(e: G.Expr, wide: char -> bool) {
    match e
    case Comparison(l, _, r) => PlainOperand(l, wide) && PlainOperand(r, wide)
    case Paren(x) => Writable(x, wide)
    case Chain(p, _, rest) => !p.Chain? && Writable(p, wide) && Writable(rest, wide)
  }

  /** How an expression may be spaced: a space after every operator, and between two words or two
      quoted literals; elsewhere there may be spaces or not. */
  predicate Spacing(ls: seq<P.Lexeme>, gaps: seq<nat>) {
    && |gaps| == |ls| && P.Apart(ls, gaps)
    && (forall i :: 0 <= i < |ls| && (ls[i].Comparison? || ls[i].Operator?) ==> gaps[i] > 0)
  }

  /** A filter string of an expression. */
  function FilterString(e: G.Expr, gaps: seq<nat>): string
    requires Spacing(G.Lexemes(e), gaps)
  {
    P.Print(G.Lexemes(e), gaps)
  }

  predicate PlainLexeme(l: P.Lexeme, wide: char -> bool) {
    P.WellFormed(l, wide) && (l.Bare? ==> l.text !in T.COMPARISONS && l.text !in T.OPERATORS)
  }

  lemma KeywordTexts(v: Verb, op: BoolOp, wide: char -> bool)
    ensures PlainLexeme(P.Comparison(G.VerbText(v)), wide) && PlainLexeme(P.Operator(G.OpText(op)), wide)
  {
    assert T.COMPARISONS[0] == "eq" && T.COMPARISONS[1] == "ne" && T.COMPARISONS[2] == "lt" && T.COMPARISONS[3] == "gt";
    assert T.COMPARISONS[4] == "le" && T.COMPARISONS[5] == "ge" && T.COMPARISONS[6] == "any" && T.COMPARISONS[7] == "all";
    assert T.OPERATORS[0] == "and" && T.OPERATORS[1] == "or";
  }

  lemma {:induction false} WritableLexemes(e: G.Expr, wide: char -> bool)
    requires Writable(e, wide)
    ensures G.Grammatical(e)
    ensures forall l :: l in G.Lexemes(e) ==> PlainLexeme(l, wide)
  {
    match e
    case Comparison(_, v, _) => KeywordTexts(v, And, wide);
    case Paren(x) => WritableLexemes(x, wide);
    case Chain(p, op, rest) =>
      KeywordTexts(Eq, op, wide);
      WritableLexemes(p, wide);
      WritableLexemes(rest, wide);
  }

  /** A filter string of an expression is read token by token. */
  lemma PrintedReads(e: G.Expr, gaps: seq<nat>, wide: char -> bool)
    requires Writable(e, wide) && Spacing(G.Lexemes(e), gaps)
    ensures
      var ls := G.Lexemes(e);
      var r := Z.Scan(FilterString(e, gaps), 0, wide);
      G.Grammatical(e) && r.Ok? && |r.tokens| == |ls| && G.Reads(r.tokens, 0, ls)
  {
    var ls := G.Lexemes(e);
    WritableLexemes(e, wide);
    PlainIsPrintable(ls, gaps, wide);
    P.KindsComeBack(ls, gaps, wide);
  }

  lemma PlainIsPrintable(ls: seq<P.Lexeme>, gaps: seq<nat>, wide: char -> bool)
    requires Spacing(ls, gaps) && forall l :: l in ls ==> PlainLexeme(l, wide)
    ensures P.AllWellFormed(ls, wide) && P.Printable(ls, gaps)
  {
    assert forall i :: 0 <= i < |ls| ==> ls[i] in ls;
  }

  /** From the string to the query: a filter string of an expression, however it is spaced, gives
      the query of the tree that the walk builds, or the error of its first bad comparison. */
  lemma StringToQuery(env: Env, wide: char -> bool, e: G.Expr, gaps: seq<nat>)
    requires Writable(e, wide) && Spacing(G.Lexemes(e), gaps)
    ensures G.AtomsOk(env, e) ==>
              && Compile(env, G.Built(e)).Ok?
              && ToQuery(env, wide, FilterString(e, gaps)) == Filtered(Some(Compile(env, G.Built(e)).value))
    ensures !G.AtomsOk(env, e) ==> ToQuery(env, wide, FilterString(e, gaps)) == BadWalk(G.FirstError(env, e))
  {
    PrintedReads(e, gaps, wide);
    G.WalkExactly(env, Z.Scan(FilterString(e, gaps), 0, wide).tokens, e);
  }

  /** A blank filter is no filter: all children are listed. */
  lemma BlankFilterListsAll(env: Env, wide: char -> bool, n: nat, kind: string, selfLink: string, d: Document)
    ensures
      var spec := Specification(env, wide, Some(P.Spaces(n)), kind, selfLink);
      spec.Some? && (Matches(d, spec.value.body) <==> IsChild(d, kind, selfLink))
  {
    P.SkipSpaces(n, "", 0, wide);
    assert P.Spaces(n) + "" == P.Spaces(n);
    FilterIsConjoined(env, wide, P.Spaces(n), kind, selfLink, d);
  }

  /** A filter string that breaks off in a quoted literal, or has a character that starts no token,
      is rejected with the error of the tokenizer, whatever was read before. */
  lemma BadStringIsRejected(env: Env, wide: char -> bool, ls: seq<P.Lexeme>, gaps: seq<nat>, t: string, kind: string,
                            selfLink: string)
    requires |gaps| == |ls| && P.AllWellFormed(ls, wide) && P.Fits(ls, gaps, t, wide)
    requires P.OpenQuote(t) || (t != [] && t[0] !in " (),=?'/" && !Z.LiteralChar(t[0], wide))
    ensures
      var s := P.Print(ls, gaps) + t;
      && ToQuery(env, wide, s) == BadTokens(if P.OpenQuote(t) then Z.UndeterminedString else Z.UnknownCharacter)
      && Specification(env, wide, Some(s), kind, selfLink) == None
  {
    if P.OpenQuote(t) {
      P.FailsAtOpenQuote(ls, gaps, t, wide);
    } else {
      P.FailsAtUnknown(ls, gaps, t, wide);
    }
  }

  /** From the string to the documents: for a settled expression of supported comparisons, in
      which no `or` joins sides of different polarity, the factory lists exactly the children
      for which the filter is true. */
  lemma FactoryListsExactly(env: Env, wide: char -> bool, e: G.Expr, gaps: seq<nat>, kind: string, selfLink: string, d: Document)
    requires Writable(e, wide) && Spacing(G.Lexemes(e), gaps) && G.AtomsOk(env, e)
    requires H.Settled(e) && Sound(env, G.Tree(e)) && Uniform(G.Tree(e))
    ensures
      var spec := Specification(env, wide, Some(FilterString(e, gaps)), kind, selfLink);
      spec.Some? && (Matches(d, spec.value.body) <==> IsChild(d, kind, selfLink) && Truth(env, d, G.Tree(e)))
  {
    StringToQuery(env, wide, e, gaps);
    H.BuiltIsTree(e);
    MeansOn(env, G.Tree(e), d);
    FilterIsConjoined(env, wide, FilterString(e, gaps), kind, selfLink, d);
  }
}
