/**
 Turning a query into disjunctive normal form (QueryFilter.createDisjunctiveNormalForm).

 The conversion extends a list of conjunctions; an empty list stands for one empty conjunction.
 */
module DisjunctiveNormalForm {
  import opened Query

  datatype Literal = Literal(term: QueryTerm, negate: bool)

  type Conjunction = seq<Literal>

  predicate LiteralHolds(d: Document, x: Literal) { TermMatches(d, x.term) != x.negate }

  predicate AllHold(d: Document, c: Conjunction) { forall i :: 0 <= i < |c| ==> LiteralHolds(d, c[i]) }

  predicate AnyHolds(d: Document, dnf: seq<Conjunction>) { exists i :: 0 <= i < |dnf| && AllHold(d, dnf[i]) }

  /** What a list of prefixes stands for while it is extended. */
  predicate Under(d: Document, prefixes: seq<Conjunction>) { prefixes == [] || AnyHolds(d, prefixes) }

  /** No part of the query is a query without a term and without clauses, on which the
      conversion throws a NullPointerException. */
  predicate Complete(b: Body) {
    match b
    case Empty => false
    case Term(_) => true
    case Clauses(cs) => forall i :: 0 <= i < |cs| ==> Complete(cs[i].body)
  }

  predicate AllShould(cs: seq<Query>) { forall i :: 0 <= i < |cs| ==> cs[i].occurance.ShouldOccur? }

  predicate NoShould(cs: seq<Query>) { forall i :: 0 <= i < |cs| ==> !cs[i].occurance.ShouldOccur? }

  function Extend(prefixes: seq<Conjunction>, x: Literal): (r: seq<Conjunction>)
    ensures |r| == if prefixes == [] then 1 else |prefixes|
  {
    if prefixes == [] then [[x]] else seq(|prefixes|, i requires 0 <= i < |prefixes| => prefixes[i] + [x])
  }

  function Dnf(b: Body, prefixes: seq<Conjunction>, negate: bool): seq<Conjunction>
    requires Complete(b)
    decreases b, if b.Clauses? then |b.clauses| + 1 else 0
  {
    match b
    case Term(t) => Extend(prefixes, Literal(t, negate))
    case Clauses(cs) =>
      var conjoined := Conjoined(b, |cs|, prefixes, negate);
      if (if negate then NoShould(cs) else AllShould(cs)) then Disjoined(b, |cs|, conjoined, negate) else conjoined
  }

  /** The first k clauses as a conjunction: MUST and MUST_NOT clauses, or, negated, SHOULD
      clauses as they are. */
  function Conjoined(b: Body, k: nat, prefixes: seq<Conjunction>, negate: bool): seq<Conjunction>
    requires Complete(b) && b.Clauses? && k <= |b.clauses|
    decreases b, k
  {
    if k == 0 then prefixes
    else
      var before, c := Conjoined(b, k - 1, prefixes, negate), b.clauses[k - 1];
      match c.occurance
      case MustOccur => if negate then before else Dnf(c.body, before, false)
      case MustNotOccur => if negate then before else Dnf(c.body, before, true)
      case ShouldOccur => if negate then Dnf(c.body, before, false) else before
  }

  /** The first k clauses as a disjunction: each extends the prefixes by itself. */
  function Disjoined(b: Body, k: nat, prefixes: seq<Conjunction>, negate: bool): seq<Conjunction>
    requires Complete(b) && b.Clauses? && k <= |b.clauses|
    decreases b, k
  {
    if k == 0 then []
    else
      var c := b.clauses[k - 1];
      Disjoined(b, k - 1, prefixes, negate) + Dnf(c.body, prefixes, negate && !c.occurance.MustNotOccur?)
  }

  // ---------- the conversion as it runs ----------

  method CreateDisjunctiveNormalForm(b: Body, prefixes0: seq<Conjunction>, negate: bool) returns (prefixes: seq<Conjunction>)
    requires Complete(b)
    ensures prefixes == Dnf(b, prefixes0, negate)
    decreases b
  {
    prefixes := prefixes0;
    if b.Term? {
      var t := Literal(b.term, negate);
      if prefixes == [] {
        prefixes := [[t]];
      } else {
        for i := 0 to |prefixes|
          invariant |prefixes| == |prefixes0|
          invariant forall j :: 0 <= j < |prefixes| ==> prefixes[j] == if j < i then prefixes0[j] + [t] else prefixes0[j]
        {
          prefixes := prefixes[i := prefixes[i] + [t]];
        }
        assert prefixes == Extend(prefixes0, t);
      }
      return;
    }
    var cs := b.clauses;
    var mustClauses, shouldClauses := 0, 0;
    for k := 0 to |cs|
      invariant prefixes == Conjoined(b, k, prefixes0, negate)
      invariant mustClauses + shouldClauses == k
      invariant mustClauses == k <==> forall i :: 0 <= i < k ==> !cs[i].occurance.ShouldOccur?
      invariant shouldClauses == k <==> forall i :: 0 <= i < k ==> cs[i].occurance.ShouldOccur?
      invariant 0 <= mustClauses && 0 <= shouldClauses
    {
      match cs[k].occurance {
        case MustOccur =>
          if !negate {
            prefixes := CreateDisjunctiveNormalForm(cs[k].body, prefixes, false);
          }
          mustClauses := mustClauses + 1;
        case MustNotOccur =>
          if !negate {
            prefixes := CreateDisjunctiveNormalForm(cs[k].body, prefixes, true);
          }
          mustClauses := mustClauses + 1;
        case ShouldOccur =>
          if negate {
            prefixes := CreateDisjunctiveNormalForm(cs[k].body, prefixes, false);
          }
          shouldClauses := shouldClauses + 1;
      }
    }
    if (negate && mustClauses == |cs|) || (!negate && shouldClauses == |cs|) {
      var originalPrefixes := prefixes;
      prefixes := [];
      for k := 0 to |cs|
        invariant prefixes == Disjoined(b, k, originalPrefixes, negate)
      {
        var negateClause := if cs[k].occurance == MustNotOccur then false else negate;
        var clausePrefixes := CreateDisjunctiveNormalForm(cs[k].body, originalPrefixes, negateClause);
        prefixes := prefixes + clausePrefixes;
      }
    }
  }

  // ---------- when the meaning is preserved ----------

  /** A list that is read as it is needs a MUST clause or SHOULD clauses only; one that is read
      negated needs a MUST clause and no SHOULD clause. */
  predicate Convertible(b: Body, negate: bool) {
    match b
    case Empty => false
    case Term(_) => true
    case Clauses(cs) =>
      && cs != []
      && (HasMust(cs) || (!negate && AllShould(cs)))
      && (negate ==> NoShould(cs))
      && (forall i :: 0 <= i < |cs| ==> ClauseConvertible(cs[i], negate, AllShould(cs)))
  }

  predicate ClauseConvertible(c: Query, negate: bool, disjunction: bool) {
    match c.occurance
    case MustOccur => Convertible(c.body, negate)
    case MustNotOccur => Convertible(c.body, !negate)
    case ShouldOccur => disjunction ==> Convertible(c.body, false)
  }

  lemma ExtendMeans(d: Document, prefixes: seq<Conjunction>, x: Literal)
    ensures AnyHolds(d, Extend(prefixes, x)) <==> Under(d, prefixes) && LiteralHolds(d, x)
  {
    var r := Extend(prefixes, x);
    if prefixes == [] {
      assert r[0] == [x] && [x][0] == x;
    } else {
      forall i | 0 <= i < |r|
        ensures AllHold(d, r[i]) <==> AllHold(d, prefixes[i]) && LiteralHolds(d, x)
      {
        var c := prefixes[i];
        assert r[i] == c + [x] && (c + [x])[|c|] == x;
        assert forall j :: 0 <= j < |c| ==> (c + [x])[j] == c[j];
      }
    }
  }

  lemma AnyConcat(d: Document, a: seq<Conjunction>, b: seq<Conjunction>)
    ensures AnyHolds(d, a + b) <==> AnyHolds(d, a) || AnyHolds(d, b)
  {
    if AnyHolds(d, a) {
      var i :| 0 <= i < |a| && AllHold(d, a[i]);
      assert AllHold(d, (a + b)[i]);
    }
    if AnyHolds(d, b) {
      var i :| 0 <= i < |b| && AllHold(d, b[i]);
      assert AllHold(d, (a + b)[|a| + i]);
    }
  }

  /** What a clause asks for in a conjunction. */
  predicate Demands(d: Document, c: Query) {
    match c.occurance
    case MustOccur => Matches(d, c.body)
    case MustNotOccur => !Matches(d, c.body)
    case ShouldOccur => true
  }

  lemma {:induction false} DnfMeans(d: Document, b: Body, prefixes: seq<Conjunction>, negate: bool)
    requires Complete(b) && Convertible(b, negate)
    ensures Dnf(b, prefixes, negate) != []
    ensures AnyHolds(d, Dnf(b, prefixes, negate)) <==> Under(d, prefixes) && Matches(d, b) != negate
    decreases b, if b.Clauses? then |b.clauses| + 1 else 0
  {
    match b
    case Term(t) => ExtendMeans(d, prefixes, Literal(t, negate));
    case Clauses(cs) =>
      if negate {
        NothingConjoined(b, |cs|, prefixes, true);
        DisjoinedMeans(d, b, |cs|, prefixes, true);
      } else if AllShould(cs) {
        NothingConjoined(b, |cs|, prefixes, false);
        DisjoinedMeans(d, b, |cs|, prefixes, false);
      } else {
        ConjoinedMeans(d, b, |cs|, prefixes);
      }
  }

  /** A disjunction leaves the prefixes alone at first. */
  lemma {:induction false} NothingConjoined(b: Body, k: nat, prefixes: seq<Conjunction>, negate: bool)
    requires Complete(b) && b.Clauses? && k <= |b.clauses|
    requires if negate then NoShould(b.clauses) else AllShould(b.clauses)
    ensures Conjoined(b, k, prefixes, negate) == prefixes
  {
    if k > 0 {
      NothingConjoined(b, k - 1, prefixes, negate);
    }
  }

  lemma {:induction false} ConjoinedMeans(d: Document, b: Body, k: nat, prefixes: seq<Conjunction>)
    requires Complete(b) && Convertible(b, false) && b.Clauses? && k <= |b.clauses| && !AllShould(b.clauses)
    ensures
      var r := Conjoined(b, k, prefixes, false);
      && (Under(d, r) <==> Under(d, prefixes) && forall i :: 0 <= i < k ==> Demands(d, b.clauses[i]))
      && (r == [] ==> forall i :: 0 <= i < k ==> b.clauses[i].occurance.ShouldOccur?)
    decreases b, k
  {
    if k > 0 {
      ConjoinedMeans(d, b, k - 1, prefixes);
      var before, c := Conjoined(b, k - 1, prefixes, false), b.clauses[k - 1];
      assert ClauseConvertible(c, false, false);
      if !c.occurance.ShouldOccur? {
        DnfMeans(d, c.body, before, c.occurance.MustNotOccur?);
      }
    }
  }

  /** What a clause offers in a disjunction. */
  predicate Offers(d: Document, c: Query, negate: bool) {
    Matches(d, c.body) != (negate && !c.occurance.MustNotOccur?)
  }

  lemma {:induction false} DisjoinedMeans(d: Document, b: Body, k: nat, prefixes: seq<Conjunction>, negate: bool)
    requires Complete(b) && Convertible(b, negate) && b.Clauses? && k <= |b.clauses|
    requires if negate then NoShould(b.clauses) else AllShould(b.clauses)
    ensures
      var r := Disjoined(b, k, prefixes, negate);
      && (AnyHolds(d, r) <==> Under(d, prefixes) && exists i :: 0 <= i < k && Offers(d, b.clauses[i], negate))
      && (k > 0 ==> r != [])
    decreases b, k
  {
    if k > 0 {
      DisjoinedMeans(d, b, k - 1, prefixes, negate);
      var c := b.clauses[k - 1];
      var negateClause := negate && !c.occurance.MustNotOccur?;
      assert ClauseConvertible(c, negate, AllShould(b.clauses));
      DnfMeans(d, c.body, prefixes, negateClause);
      AnyConcat(d, Disjoined(b, k - 1, prefixes, negate), Dnf(c.body, prefixes, negateClause));
    }
  }

  // ---------- where the other lists go wrong ----------

  lemma {:induction false} SomeConjoined(d: Document, b: Body, k: nat, prefixes: seq<Conjunction>)
    requires Complete(b) && b.Clauses? && k <= |b.clauses|
    requires forall i :: 0 <= i < |b.clauses| && b.clauses[i].occurance.ShouldOccur? ==> Convertible(b.clauses[i].body, false)
    ensures
      var r := Conjoined(b, k, prefixes, true);
      && (Under(d, r) <==>
            Under(d, prefixes) && forall i :: 0 <= i < k && b.clauses[i].occurance.ShouldOccur? ==> Matches(d, b.clauses[i].body))
      && (r == [] ==> forall i :: 0 <= i < k ==> !b.clauses[i].occurance.ShouldOccur?)
    decreases k
  {
    if k > 0 {
      SomeConjoined(d, b, k - 1, prefixes);
      var before, c := Conjoined(b, k - 1, prefixes, true), b.clauses[k - 1];
      if c.occurance.ShouldOccur? {
        DnfMeans(d, c.body, before, false);
      }
    }
  }

  /** A negated list with SHOULD clauses is read as the conjunction of those clauses, which are
      not negated. */
  lemma NegatedShouldMeans(d: Document, b: Body, prefixes: seq<Conjunction>)
    requires Complete(b) && b.Clauses? && !NoShould(b.clauses)
    requires forall i :: 0 <= i < |b.clauses| && b.clauses[i].occurance.ShouldOccur? ==> Convertible(b.clauses[i].body, false)
    ensures AnyHolds(d, Dnf(b, prefixes, true)) <==>
              Under(d, prefixes)
              && forall i :: 0 <= i < |b.clauses| && b.clauses[i].occurance.ShouldOccur? ==> Matches(d, b.clauses[i].body)
  {
    SomeConjoined(d, b, |b.clauses|, prefixes);
  }

  /** A negated disjunction is right exactly on the documents that match some but not all of
      its clauses. */
  lemma NegatedDisjunctionOn(d: Document, b: Body)
    requires Complete(b) && b.Clauses? && b.clauses != [] && AllShould(b.clauses) && Convertible(b, false)
    ensures (AnyHolds(d, Dnf(b, [], true)) <==> !Matches(d, b)) <==>
              && (exists i :: 0 <= i < |b.clauses| && Matches(d, b.clauses[i].body))
              && (exists i :: 0 <= i < |b.clauses| && !Matches(d, b.clauses[i].body))
  {
    assert b.clauses[0].occurance.ShouldOccur?;
    assert forall i :: 0 <= i < |b.clauses| ==> ClauseConvertible(b.clauses[i], false, true);
    NegatedShouldMeans(d, b, []);
    ShouldMatches(d, b.clauses);
  }

  /** Without a MUST clause, SHOULD clauses beside a MUST_NOT clause are dropped: the result is
      right exactly on the documents that match some clause. */
  lemma DroppedShouldOn(d: Document, b: Body)
    requires Complete(b) && b.Clauses? && !HasMust(b.clauses) && !AllShould(b.clauses)
    requires forall i :: 0 <= i < |b.clauses| && b.clauses[i].occurance.MustNotOccur? ==> Convertible(b.clauses[i].body, true)
    ensures (AnyHolds(d, Dnf(b, [], false)) <==> Matches(d, b)) <==>
              exists i :: 0 <= i < |b.clauses| && Matches(d, b.clauses[i].body)
  {
    NotsConjoined(d, b, |b.clauses|, []);
    assert forall i :: 0 <= i < |b.clauses| ==> b.clauses[i].occurance.MustNotOccur? || b.clauses[i].occurance.ShouldOccur?;
  }

  lemma {:induction false} NotsConjoined(d: Document, b: Body, k: nat, prefixes: seq<Conjunction>)
    requires Complete(b) && b.Clauses? && k <= |b.clauses| && !HasMust(b.clauses)
    requires forall i :: 0 <= i < |b.clauses| && b.clauses[i].occurance.MustNotOccur? ==> Convertible(b.clauses[i].body, true)
    ensures
      var r := Conjoined(b, k, prefixes, false);
      && (Under(d, r) <==>
            Under(d, prefixes) && forall i :: 0 <= i < k && b.clauses[i].occurance.MustNotOccur? ==> !Matches(d, b.clauses[i].body))
      && (r == [] ==> forall i :: 0 <= i < k ==> b.clauses[i].occurance.ShouldOccur?)
    decreases k
  {
    if k > 0 {
      NotsConjoined(d, b, k - 1, prefixes);
      var before, c := Conjoined(b, k - 1, prefixes, false), b.clauses[k - 1];
      if c.occurance.MustNotOccur? {
        DnfMeans(d, c.body, before, true);
      }
    }
  }
}
