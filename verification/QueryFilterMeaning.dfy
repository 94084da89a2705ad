/**
 What a query filter accepts, and which OData filters survive the conversion to disjunctive
 normal form.
 */
module QueryFilterMeaning {
  import opened Common
  import opened Query
  import opened DisjunctiveNormalForm
  import opened QueryFilter
  import opened ODataCompiler
  import opened ODataMeaning
  import F = FactoryQuery
  import G = ODataGrammar
  import H = ODataShapes

  // ---------- any query ----------

  /** A lookup and a comparison of a term agree on the properties that are looked up. */
  ghost predicate Consistent(ch: Choice, v: View) {
    forall p, x :: ch.flat(p) ==> (v.value(p) == Some(x) <==> v.d.equal(p, x, ExactTerm))
  }

  /** A range is not marked as a term match: such a term would be looked up by its missing value. */
  predicate GoodTerm(t: QueryTerm) { t.matchType == Some(ExactTerm) ==> t.range.None? }

  predicate GoodTerms(b: Body) {
    match b
    case Empty => true
    case Term(t) => GoodTerm(t)
    case Clauses(cs) => forall i :: 0 <= i < |cs| ==> GoodTerms(cs[i].body)
  }

  predicate GoodConjunction(c: Conjunction) { forall i :: 0 <= i < |c| ==> GoodTerm(c[i].term) }

  predicate GoodDnf(dnf: seq<Conjunction>) { forall i :: 0 <= i < |dnf| ==> GoodConjunction(dnf[i]) }

  lemma {:induction false} DnfGood(b: Body, prefixes: seq<Conjunction>, negate: bool)
    requires Complete(b) && GoodTerms(b) && GoodDnf(prefixes)
    ensures GoodDnf(Dnf(b, prefixes, negate))
    decreases b, if b.Clauses? then |b.clauses| + 1 else 0
  {
    match b
    case Term(t) =>
    case Clauses(cs) =>
      ConjoinedGood(b, |cs|, prefixes, negate);
      DisjoinedGood(b, |cs|, Conjoined(b, |cs|, prefixes, negate), negate);
  }

  lemma {:induction false} ConjoinedGood(b: Body, k: nat, prefixes: seq<Conjunction>, negate: bool)
    requires Complete(b) && b.Clauses? && k <= |b.clauses| && GoodTerms(b) && GoodDnf(prefixes)
    ensures GoodDnf(Conjoined(b, k, prefixes, negate))
    decreases b, k
  {
    if k > 0 {
      ConjoinedGood(b, k - 1, prefixes, negate);
      var before := Conjoined(b, k - 1, prefixes, negate);
      DnfGood(b.clauses[k - 1].body, before, false);
      DnfGood(b.clauses[k - 1].body, before, true);
    }
  }

  lemma {:induction false} DisjoinedGood(b: Body, k: nat, prefixes: seq<Conjunction>, negate: bool)
    requires Complete(b) && b.Clauses? && k <= |b.clauses| && GoodTerms(b) && GoodDnf(prefixes)
    ensures GoodDnf(Disjoined(b, k, prefixes, negate))
    decreases b, k
  {
    if k > 0 {
      DisjoinedGood(b, k - 1, prefixes, negate);
      DnfGood(b.clauses[k - 1].body, prefixes, negate && !b.clauses[k - 1].occurance.MustNotOccur?);
    }
  }

  lemma SeenIsHeld(ch: Choice, v: View, x: Literal)
    requires Consistent(ch, v) && GoodTerm(x.term)
    ensures Seen(ch, v, x) <==> LiteralHolds(v.d, x)
  {
  }

  lemma AnySeenIsHeld(ch: Choice, v: View, dnf: seq<Conjunction>)
    requires Consistent(ch, v) && GoodDnf(dnf)
    ensures AnySeen(ch, v, dnf) <==> AnyHolds(v.d, dnf)
  {
    forall i | 0 <= i < |dnf|
      ensures AllSeen(ch, v, dnf[i]) <==> AllHold(v.d, dnf[i])
    {
      forall j | 0 <= j < |dnf[i]|
        ensures Seen(ch, v, dnf[i][j]) <==> LiteralHolds(v.d, dnf[i][j])
      {
        assert GoodConjunction(dnf[i]);
        SeenIsHeld(ch, v, dnf[i][j]);
      }
    }
    assert forall i :: 0 <= i < |dnf| ==> dnf[i] in dnf;
  }

  /** QueryFilter.create and evaluate: the filter of a convertible query accepts exactly the
      documents that match the query. */
  lemma FilterMeansQuery(ch: Choice, v: View, b: Body)
    requires Orders(ch) && Consistent(ch, v)
    requires Complete(b) && Convertible(b, false) && GoodTerms(b)
    ensures Evaluate(v, Disjunction(Create(ch, Dnf(b, [], false)))) <==> Matches(v.d, b)
  {
    var dnf := Dnf(b, [], false);
    DnfGood(b, [], false);
    TreeIsDisjunction(ch, v, dnf);
    AnySeenIsHeld(ch, v, dnf);
    DnfMeans(v.d, b, [], false);
  }

  // ---------- OData filters ----------

  /** No `and` joins two negative sides, and ALL_FIELDS is not negated. */
  predicate Clean(env: Env, f: Filter) {
    match f
    case Atom(name, verb, literal) => !(verb == Ne && IsUnfold(env, name, verb, literal))
    case Node(op, l, r) => Clean(env, l) && Clean(env, r) && !(op == And && Negative(l) && Negative(r))
  }

  lemma {:induction false} ExecutableIsComplete(b: Body)
    requires Executable(b)
    ensures Complete(b)
  {
    match b
    case Term(_) =>
    case Clauses(cs) =>
      forall i | 0 <= i < |cs|
        ensures Complete(cs[i].body)
      {
        ExecutableIsComplete(cs[i].body);
      }
  }

  lemma PlainConvertible(env: Env, name: string, verb: Verb, literal: string, negate: bool)
    requires PlainBody(env, name, verb, literal).Ok? && SoundField(env, verb, literal)
    requires negate ==> verb != Any && verb != All
    ensures Convertible(PlainBody(env, name, verb, literal).value, negate)
  {
    if verb == Any || verb == All {
      SomeCompiledItem(literal);
      var items := Items(literal);
      var cs := ItemClauses(name, items, if verb == Any then ShouldOccur else MustOccur);
      assert cs[0].occurance == if verb == Any then ShouldOccur else MustOccur;
      assert forall i :: 0 <= i < |cs| ==> ClauseConvertible(cs[i], false, AllShould(cs));
    }
  }

  lemma {:induction false} UnfoldConvertible(env: Env, names: seq<string>, verb: Verb, literal: string)
    requires !env.isNumeric(literal) && SoundField(env, verb, literal)
    ensures
      var cs := UnfoldClauses(env, names, verb, literal);
      |cs| == |names| && AllShould(cs) && forall i :: 0 <= i < |cs| ==> Convertible(cs[i].body, false)
  {
    if names != [] {
      UnfoldConvertible(env, names[..|names| - 1], verb, literal);
      PlainConvertible(env, names[|names| - 1], verb, literal, false);
    }
  }

  lemma DisjunctionConvertible(cs: seq<Query>)
    requires cs != [] && AllShould(cs) && forall i :: 0 <= i < |cs| ==> Convertible(cs[i].body, false)
    ensures Convertible(Clauses(cs), false)
  {
    assert forall i :: 0 <= i < |cs| ==> ClauseConvertible(cs[i], false, true);
  }

  lemma AtomConvertible(env: Env, name: string, verb: Verb, literal: string)
    requires CompileAtom(env, name, verb, literal).Ok? && SoundAtom(env, name, verb, literal)
    ensures Convertible(CompileAtom(env, name, verb, literal).value.body, false)
    ensures verb == Ne && !IsUnfold(env, name, verb, literal) ==>
              Convertible(CompileAtom(env, name, verb, literal).value.body, true)
  {
    if IsUnfold(env, name, verb, literal) {
      UnfoldConvertible(env, env.names, verb, literal);
      DisjunctionConvertible(UnfoldClauses(env, env.names, verb, literal));
    } else {
      PlainConvertible(env, name, verb, literal, false);
      if verb == Ne {
        PlainConvertible(env, name, verb, literal, true);
      }
    }
  }

  lemma PairConvertible(a: Query, b: Query, negate: bool)
    requires a.occurance.MustOccur? || b.occurance.MustOccur? || (!negate && a.occurance.ShouldOccur? && b.occurance.ShouldOccur?)
    requires negate ==> !a.occurance.ShouldOccur? && !b.occurance.ShouldOccur?
    requires ClauseConvertible(a, negate, a.occurance.ShouldOccur? && b.occurance.ShouldOccur?)
    requires ClauseConvertible(b, negate, a.occurance.ShouldOccur? && b.occurance.ShouldOccur?)
    ensures Convertible(Clauses([a, b]), negate)
  {
    var cs := [a, b];
    assert cs[0] == a && cs[1] == b;
  }

  /** A clean filter compiles to a query that is convertible as the clause it becomes, and, if
      it is negative, without its negation too. */
  lemma {:induction false} CleanIsConvertible(env: Env, f: Filter)
    requires Compile(env, f).Ok? && Sound(env, f) && Uniform(f) && Clean(env, f)
    ensures
      var q := Compile(env, f).value;
      && Convertible(q.body, false)
      && (Negative(f) ==> Convertible(q.body, true))
      && q.occurance == (if Negative(f) then MustNotOccur else MustOccur)
  {
    CompiledMeansFilter(env, f);
    match f
    case Atom(name, verb, literal) => AtomConvertible(env, name, verb, literal);
    case Node(op, l, r) =>
      CleanIsConvertible(env, l);
      CleanIsConvertible(env, r);
      var q := Compile(env, f).value;
      assert q.body.clauses == [q.body.clauses[0], q.body.clauses[1]];
      PairConvertible(q.body.clauses[0], q.body.clauses[1], false);
      if Negative(f) {
        PairConvertible(q.body.clauses[0], q.body.clauses[1], true);
      }
  }

  /** The disjunctive normal form of the filter, as a clause, means what the filter says. */
  ghost predicate Survives(env: Env, f: Filter)
    requires Compile(env, f).Ok?
  {
    var q := Compile(env, f).value;
    Complete(q.body) && forall d :: AnyHolds(d, Dnf(q.body, [], q.occurance.MustNotOccur?)) <==> Truth(env, d, f)
  }

  ghost predicate EveryPartSurvives(env: Env, f: Filter)
    requires Compile(env, f).Ok?
  {
    Survives(env, f)
    && match f
       case Atom(_, _, _) => true
       case Node(_, l, r) => EveryPartSurvives(env, l) && EveryPartSurvives(env, r)
  }

  lemma CleanSurvives(env: Env, f: Filter)
    requires Compile(env, f).Ok? && Sound(env, f) && Uniform(f) && Clean(env, f)
    ensures Survives(env, f)
  {
    var q := Compile(env, f).value;
    CompiledMeansFilter(env, f);
    ExecutableIsComplete(q.body);
    CleanIsConvertible(env, f);
    forall d
      ensures AnyHolds(d, Dnf(q.body, [], q.occurance.MustNotOccur?)) <==> Truth(env, d, f)
    {
      DnfMeans(d, q.body, [], q.occurance.MustNotOccur?);
    }
  }

  /** A negated disjunction accepts nothing of a document that matches no clause of it. */
  lemma NegatedDisjunctionFails(b: Body)
    requires Complete(b) && b.Clauses? && b.clauses != [] && AllShould(b.clauses)
    requires forall i :: 0 <= i < |b.clauses| ==> Convertible(b.clauses[i].body, false)
    requires forall i :: 0 <= i < |b.clauses| ==> !Matches(Nothing(), b.clauses[i].body)
    ensures !AnyHolds(Nothing(), Dnf(b, [], true))
  {
    assert b.clauses[0].occurance.ShouldOccur?;
    NegatedShouldMeans(Nothing(), b, []);
  }

  lemma NegatedUnfoldFails(env: Env, name: string, literal: string)
    requires CompileAtom(env, name, Ne, literal).Ok? && SoundAtom(env, name, Ne, literal) && IsUnfold(env, name, Ne, literal)
    ensures !Survives(env, Atom(name, Ne, literal))
  {
    var f := Atom(name, Ne, literal);
    var q := Compile(env, f).value;
    CompiledMeansFilter(env, f);
    ExecutableIsComplete(q.body);
    UnfoldConvertible(env, env.names, Ne, literal);
    UnfoldMeans(env, env.names, Ne, literal, Nothing());
    NegatedDisjunctionFails(q.body);
    TruthOfNothing(env, f);
    assert AnyHolds(Nothing(), Dnf(q.body, [], true)) != Truth(env, Nothing(), f);
  }

  lemma NegativeAndFails(env: Env, l: Filter, r: Filter)
    requires Compile(env, l).Ok? && Compile(env, r).Ok?
    requires Sound(env, l) && Sound(env, r) && Uniform(l) && Uniform(r) && Clean(env, l) && Clean(env, r)
    requires Negative(l) && Negative(r)
    ensures !Survives(env, Node(And, l, r))
  {
    var f := Node(And, l, r);
    var q := Compile(env, f).value;
    CompiledMeansFilter(env, f);
    ExecutableIsComplete(q.body);
    CleanIsConvertible(env, l);
    CleanIsConvertible(env, r);
    MeansOn(env, l, Nothing());
    MeansOn(env, r, Nothing());
    TruthOfNothing(env, l);
    TruthOfNothing(env, r);
    TruthOfNothing(env, f);
    NegatedDisjunctionFails(q.body);
    assert AnyHolds(Nothing(), Dnf(q.body, [], true)) != Truth(env, Nothing(), f);
  }

  /** Of the filters that the index evaluates rightly, the conversion keeps the meaning of all
      parts if and only if no `and` joins two negative sides and ALL_FIELDS is not negated. */
  lemma {:induction false} SurvivesExactly(env: Env, f: Filter)
    requires Compile(env, f).Ok? && Sound(env, f) && Uniform(f)
    ensures EveryPartSurvives(env, f) <==> Clean(env, f)
  {
    match f
    case Atom(name, verb, literal) =>
      if Clean(env, f) {
        CleanSurvives(env, f);
      } else {
        NegatedUnfoldFails(env, name, literal);
      }
    case Node(op, l, r) =>
      SurvivesExactly(env, l);
      SurvivesExactly(env, r);
      if Clean(env, l) && Clean(env, r) {
        if Clean(env, f) {
          CleanSurvives(env, f);
        } else {
          NegativeAndFails(env, l, r);
        }
      }
  }

  // ---------- from the filter string to the evaluator tree ----------

  lemma {:induction false} UnfoldGood(env: Env, names: seq<string>, verb: Verb, literal: string)
    requires !env.isNumeric(literal)
    ensures forall c :: c in UnfoldClauses(env, names, verb, literal) ==> GoodTerms(c.body)
  {
    if names != [] {
      UnfoldGood(env, names[..|names| - 1], verb, literal);
    }
  }

  lemma {:induction false} CompiledGood(env: Env, f: Filter)
    requires Compile(env, f).Ok?
    ensures GoodTerms(Compile(env, f).value.body)
  {
    match f
    case Atom(name, verb, literal) =>
      if IsUnfold(env, name, verb, literal) {
        UnfoldGood(env, env.names, verb, literal);
        var cs := UnfoldClauses(env, env.names, verb, literal);
        assert forall i :: 0 <= i < |cs| ==> cs[i] in cs;
      }
    case Node(_, l, r) =>
      CompiledGood(env, l);
      CompiledGood(env, r);
  }

  lemma ThreeConvertible(q: Query, a: Query, b: Query)
    requires !q.occurance.ShouldOccur? && Complete(q.body) && GoodTerms(q.body)
    requires Convertible(q.body, q.occurance.MustNotOccur?)
    requires a.occurance.MustOccur? && a.body.Term? && GoodTerms(a.body)
    requires b.occurance.MustOccur? && b.body.Term? && GoodTerms(b.body)
    ensures
      var list := Clauses([q, a, b]);
      Complete(list) && Convertible(list, false) && GoodTerms(list)
  {
    var cs := [q, a, b];
    assert cs[0] == q && cs[1] == a && cs[2] == b;
    assert HasMust(cs) && !AllShould(cs);
    assert forall i :: 0 <= i < |cs| ==> ClauseConvertible(cs[i], false, false);
  }

  /** The query of a factory for a filter string, used as a query filter: for the settled, clean
      expressions of supported comparisons its evaluator tree accepts exactly the children for
      which the filter is true. */
  lemma FilterOfFactoryQuery(ch: Choice, v: View, env: Env, wide: char -> bool, e: G.Expr, gaps: seq<nat>, kind: string,
                             selfLink: string)
    requires Orders(ch) && Consistent(ch, v)
    requires F.Writable(e, wide) && F.Spacing(G.Lexemes(e), gaps) && G.AtomsOk(env, e) && H.Settled(e)
    requires Sound(env, G.Tree(e)) && Uniform(G.Tree(e)) && Clean(env, G.Tree(e))
    ensures
      var spec := F.Specification(env, wide, Some(F.FilterString(e, gaps)), kind, selfLink);
      && spec.Some? && Complete(spec.value.body)
      && (Evaluate(v, Disjunction(Create(ch, Dnf(spec.value.body, [], false)))) <==>
            F.IsChild(v.d, kind, selfLink) && Truth(env, v.d, G.Tree(e)))
  {
    F.FactoryListsExactly(env, wide, e, gaps, kind, selfLink, v.d);
    SpecificationConvertible(env, wide, e, gaps, kind, selfLink);
    FilterMeansQuery(ch, v, F.Specification(env, wide, Some(F.FilterString(e, gaps)), kind, selfLink).value.body);
  }

  /** The factory's query for such an expression is convertible. */
  lemma SpecificationConvertible(env: Env, wide: char -> bool, e: G.Expr, gaps: seq<nat>, kind: string, selfLink: string)
    requires F.Writable(e, wide) && F.Spacing(G.Lexemes(e), gaps) && G.AtomsOk(env, e) && H.Settled(e)
    requires Sound(env, G.Tree(e)) && Uniform(G.Tree(e)) && Clean(env, G.Tree(e))
    ensures
      var spec := F.Specification(env, wide, Some(F.FilterString(e, gaps)), kind, selfLink);
      spec.Some? && Complete(spec.value.body) && Convertible(spec.value.body, false) && GoodTerms(spec.value.body)
  {
    F.StringToQuery(env, wide, e, gaps);
    H.BuiltIsTree(e);
    var spec := F.Specification(env, wide, Some(F.FilterString(e, gaps)), kind, selfLink).value;
    var q := Compile(env, G.Tree(e)).value;
    FilterClauseConvertible(env, G.Tree(e));
    assert spec.body.clauses == [q, F.KindClause(kind), F.SelfLinkClause(selfLink)];
    ThreeConvertible(q, F.KindClause(kind), F.SelfLinkClause(selfLink));
  }

  lemma FilterClauseConvertible(env: Env, f: Filter)
    requires Compile(env, f).Ok? && Sound(env, f) && Uniform(f) && Clean(env, f)
    ensures
      var q := Compile(env, f).value;
      !q.occurance.ShouldOccur? && Complete(q.body) && GoodTerms(q.body) && Convertible(q.body, q.occurance.MustNotOccur?)
  {
    CleanIsConvertible(env, f);
    CompiledMeansFilter(env, f);
    ExecutableIsComplete(Compile(env, f).value.body);
    CompiledGood(env, f);
  }
}
