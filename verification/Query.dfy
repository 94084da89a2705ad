/**
 Queries (QueryTask.Query) and what they match.

 A document is whatever its terms say: `equal` tells whether a property has a value (exactly or
 as a wildcard pattern), `compare` how a property compares with a numeric literal.
 */
module Query {
  import opened Common

  datatype Occurance = MustOccur | MustNotOccur | ShouldOccur

  datatype MatchType = ExactTerm | Wildcard | Prefix

  /** The comparison verbs of a filter. */
  datatype Verb = Eq | Ne | Lt | Gt | Le | Ge | Any | All

  datatype QueryTerm = QueryTerm(
    propertyName: string,
    matchType: Option<MatchType>,
    matchValue: Option<string>,
    range: Option<(Verb, string)>)

  /** A query without its occurance: neither a term nor clauses yet, a term, or clauses. */
  datatype Body = Empty | Term(term: QueryTerm) | Clauses(clauses: seq<Query>)

  datatype Query = Query(occurance: Occurance, body: Body)

  datatype Document = Document(equal: (string, string, MatchType) -> bool, compare: (string, Verb, string) -> bool)

  predicate TermMatches(d: Document, t: QueryTerm) {
    if t.range.Some? then d.compare(t.propertyName, t.range.value.0, t.range.value.1)
    else t.matchValue.Some?
         && d.equal(t.propertyName, t.matchValue.value, if t.matchType.Some? then t.matchType.value else ExactTerm)
  }

  predicate HasMust(cs: seq<Query>) { exists i :: 0 <= i < |cs| && cs[i].occurance.MustOccur? }

  /** A boolean query: every MUST clause matches, no MUST_NOT clause does, and when there is no
      MUST clause some SHOULD clause matches. */
  predicate Matches(d: Document, b: Body) {
    match b
    case Empty => false
    case Term(t) => TermMatches(d, t)
    case Clauses(cs) =>
      && (forall i :: 0 <= i < |cs| && cs[i].occurance.MustOccur? ==> Matches(d, cs[i].body))
      && (forall i :: 0 <= i < |cs| && cs[i].occurance.MustNotOccur? ==> !Matches(d, cs[i].body))
      && (!HasMust(cs) ==> exists i :: 0 <= i < |cs| && cs[i].occurance.ShouldOccur? && Matches(d, cs[i].body))
  }

  /** What a query says as a clause of its own: MUST_NOT negates. */
  predicate Holds(d: Document, q: Query) {
    if q.occurance.MustNotOccur? then !Matches(d, q.body) else Matches(d, q.body)
  }

  /** The index accepts the query: each term has either a value or a range, and no part of it
      is empty. */
  predicate Executable(b: Body) {
    match b
    case Empty => false
    case Term(t) => t.range.Some? != t.matchValue.Some?
    case Clauses(cs) => cs != [] && forall i :: 0 <= i < |cs| ==> Executable(cs[i].body)
  }

  /** addBooleanClause: the first clause replaces a term. */
  function WithClause(q: Query, c: Query): Query {
    q.(body := Clauses((if q.body.Clauses? then q.body.clauses else []) + [c]))
  }

  // ---------- small clause lists ----------

  lemma PairMatches(d: Document, a: Query, b: Query)
    ensures Matches(d, Clauses([a, b])) <==>
              && (a.occurance.MustOccur? ==> Matches(d, a.body))
              && (b.occurance.MustOccur? ==> Matches(d, b.body))
              && (a.occurance.MustNotOccur? ==> !Matches(d, a.body))
              && (b.occurance.MustNotOccur? ==> !Matches(d, b.body))
              && (a.occurance.MustOccur? || b.occurance.MustOccur?
                  || (a.occurance.ShouldOccur? && Matches(d, a.body)) || (b.occurance.ShouldOccur? && Matches(d, b.body)))
    ensures Executable(Clauses([a, b])) <==> Executable(a.body) && Executable(b.body)
  {
    var cs := [a, b];
    assert cs[0] == a && cs[1] == b;
  }

  lemma ShouldMatches(d: Document, cs: seq<Query>)
    requires cs != [] && forall i :: 0 <= i < |cs| ==> cs[i].occurance.ShouldOccur?
    ensures Matches(d, Clauses(cs)) <==> exists i :: 0 <= i < |cs| && Matches(d, cs[i].body)
  {
  }

  lemma MustMatches(d: Document, cs: seq<Query>)
    requires cs != [] && forall i :: 0 <= i < |cs| ==> cs[i].occurance.MustOccur?
    ensures Matches(d, Clauses(cs)) <==> forall i :: 0 <= i < |cs| ==> Matches(d, cs[i].body)
  {
    assert cs[0].occurance.MustOccur?;
  }
}
