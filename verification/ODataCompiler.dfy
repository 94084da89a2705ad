/**
 Compiling the parts of an OData filter into queries (visitBinaryComparator and
 visitBinaryOperator of ODataQueryVisitor).
 */
module ODataCompiler {
  import opened Common
  import opened Query
  import Text

  /** The exceptions of the source; both Endless errors are StackOverflowErrors. */
  datatype Error = EndlessWalk | EndlessUnfold | NumberFormat | NullPointer | TermMismatch | NoSuchElement

  datatype Result<+T> = Ok(value: T) | Err(error: Error)

  datatype BoolOp = And | Or

  /** What the visitor is given: the property names to unfold ALL_FIELDS into, in iteration
      order, and how Java reads numbers. */
  datatype Env = Env(names: seq<string>, isNumeric: string -> bool, isLong: string -> bool)

  const ALL_FIELDS: string := "ALL_FIELDS"

  function OccuranceOf(v: Verb): Occurance { if v == Ne then MustNotOccur else MustOccur }

  predicate IsUnfold(env: Env, name: string, verb: Verb, literal: string) {
    name == ALL_FIELDS && (verb == Eq || verb == Ne || verb == All || verb == Any) && !env.isNumeric(literal)
  }

  /** createRange: no range for a verb that is not a comparison of numbers. */
  function CreateRange(env: Env, literal: string, verb: Verb): Result<Option<(Verb, string)>> {
    if '.' !in literal && !env.isLong(literal) then Err(NumberFormat)
    else if verb in {Lt, Le, Gt, Ge, Eq} then Ok(Some((verb, literal)))
    else Ok(None)
  }

  function Items(literal: string): seq<string> { Text.Parts(literal, ';') }

  function ItemTerm(name: string, item: string): QueryTerm {
    QueryTerm(name, Some(if '*' in item then Wildcard else ExactTerm), Some(Text.Trim(Text.Without(item, '\''))), None)
  }

  function ItemClauses(name: string, items: seq<string>, occurance: Occurance): (cs: seq<Query>)
    ensures |cs| == |items|
    ensures forall i :: 0 <= i < |cs| ==> cs[i] == Query(occurance, Term(ItemTerm(name, items[i])))
  {
    seq(|items|, i requires 0 <= i < |items| => Query(occurance, Term(ItemTerm(name, items[i]))))
  }

  function AsBody(cs: seq<Query>): Body { if cs == [] then Empty else Clauses(cs) }

  /** How a string value is matched: as a pattern when the property or the value has a '*'. */
  function ModeOf(name: string, literal: string): MatchType {
    if '*' in name || '*' in literal then Wildcard else ExactTerm
  }

  /** A comparison on one property. */
  function PlainBody(env: Env, name: string, verb: Verb, literal: string): Result<Body> {
    if verb == Any || verb == All then
      Ok(AsBody(ItemClauses(name, Items(literal), if verb == Any then ShouldOccur else MustOccur)))
    else if env.isNumeric(literal) then
      var range := CreateRange(env, literal, verb);
      if range.Err? then Err(range.error)
      else Ok(Term(QueryTerm(name, if '*' in name then Some(Wildcard) else None, None, range.value)))
    else
      Ok(Term(QueryTerm(name, Some(ModeOf(name, literal)), Some(Text.Without(literal, '\'')), None)))
  }

  /** The clauses ALL_FIELDS is unfolded into; a value that is not a number never fails. */
  function UnfoldClauses(env: Env, names: seq<string>, verb: Verb, literal: string): seq<Query>
    requires !env.isNumeric(literal)
  {
    if names == [] then []
    else
      var n := |names| - 1;
      UnfoldClauses(env, names[..n], verb, literal) + [Query(ShouldOccur, PlainBody(env, names[n], verb, literal).value)]
  }

  /** visitBinaryComparator.  Unfolding a name that is itself ALL_FIELDS never ends. */
  function CompileAtom(env: Env, name: string, verb: Verb, literal: string): Result<Query> {
    if IsUnfold(env, name, verb, literal) then
      if ALL_FIELDS in env.names then Err(EndlessUnfold)
      else
        Ok(Query(OccuranceOf(verb), AsBody(UnfoldClauses(env, env.names, verb, literal))))
    else
      var body := PlainBody(env, name, verb, literal);
      if body.Err? then Err(body.error) else Ok(Query(OccuranceOf(verb), body.value))
  }

  // ---------- the literal recursion of the unfolding ----------

  /** visitBinaryComparator as it calls itself, without the test for ALL_FIELDS among the names;
      None: the recursion is deeper than `fuel`. */
  function CompileLiteral(env: Env, name: string, verb: Verb, literal: string, fuel: nat): Option<Result<Query>>
    decreases fuel, 0
  {
    if fuel == 0 then None
    else if IsUnfold(env, name, verb, literal) then
      match UnfoldLiteral(env, |env.names|, verb, literal, fuel - 1)
      case None => None
      case Some(Err(e)) => Some(Err(e))
      case Some(Ok(cs)) => Some(Ok(Query(OccuranceOf(verb), AsBody(cs))))
    else
      var body := PlainBody(env, name, verb, literal);
      Some(if body.Err? then Err(body.error) else Ok(Query(OccuranceOf(verb), body.value)))
  }

  /** The clauses of the first k names. */
  function UnfoldLiteral(env: Env, k: nat, verb: Verb, literal: string, fuel: nat): Option<Result<seq<Query>>>
    requires k <= |env.names|
    decreases fuel, k + 1
  {
    if k == 0 then Some(Ok([]))
    else
      match UnfoldLiteral(env, k - 1, verb, literal, fuel)
      case None => None
      case Some(Err(e)) => Some(Err(e))
      case Some(Ok(cs)) =>
        match CompileLiteral(env, env.names[k - 1], verb, literal, fuel)
        case None => None
        case Some(Err(e)) => Some(Err(e))
        case Some(Ok(q)) => Some(Ok(cs + [q.(occurance := ShouldOccur)]))
  }

  lemma PlainNeverFails(env: Env, name: string, verb: Verb, literal: string)
    requires !env.isNumeric(literal)
    ensures PlainBody(env, name, verb, literal).Ok?
  {
  }

  /** With ALL_FIELDS among the names no depth is enough. */
  lemma {:induction false} UnfoldForever(env: Env, verb: Verb, literal: string, fuel: nat)
    requires IsUnfold(env, ALL_FIELDS, verb, literal) && ALL_FIELDS in env.names
    ensures CompileLiteral(env, ALL_FIELDS, verb, literal, fuel).None?
    decreases fuel, 0
  {
    if fuel > 0 {
      var x :| 0 <= x < |env.names| && env.names[x] == ALL_FIELDS;
      StopsAt(env, x, |env.names|, verb, literal, fuel - 1);
    }
  }

  lemma {:induction false} StopsAt(env: Env, x: nat, k: nat, verb: Verb, literal: string, fuel: nat)
    requires IsUnfold(env, ALL_FIELDS, verb, literal) && x < k <= |env.names| && env.names[x] == ALL_FIELDS
    ensures UnfoldLiteral(env, k, verb, literal, fuel).None?
    decreases fuel, k + 1
  {
    if x < k - 1 {
      StopsAt(env, x, k - 1, verb, literal, fuel);
    } else {
      UnfoldForever(env, verb, literal, fuel);
      UnfoldReturns(env, k - 1, verb, literal, fuel);
      assert env.names[k - 1] == ALL_FIELDS;
    }
  }

  /** Names before it are compiled, or do not come back either; none of them fails. */
  lemma {:induction false} UnfoldReturns(env: Env, k: nat, verb: Verb, literal: string, fuel: nat)
    requires k <= |env.names| && !env.isNumeric(literal)
    ensures
      var r := UnfoldLiteral(env, k, verb, literal, fuel);
      r.Some? ==> r.value.Ok?
    decreases fuel, k + 1
  {
    if k > 0 {
      UnfoldReturns(env, k - 1, verb, literal, fuel);
      PlainNeverFails(env, env.names[k - 1], verb, literal);
      if fuel > 0 {
        UnfoldReturns(env, |env.names|, verb, literal, fuel - 1);
      }
    }
  }

  /** Without ALL_FIELDS among the names one call for each name is enough. */
  lemma {:induction false} UnfoldEnds(env: Env, k: nat, verb: Verb, literal: string, fuel: nat)
    requires k <= |env.names| && fuel > 0 && !env.isNumeric(literal) && ALL_FIELDS !in env.names
    ensures UnfoldLiteral(env, k, verb, literal, fuel) == Some(Ok(UnfoldClauses(env, env.names[..k], verb, literal)))
    decreases k
  {
    if k > 0 {
      UnfoldEnds(env, k - 1, verb, literal, fuel);
      PlainNeverFails(env, env.names[k - 1], verb, literal);
      assert env.names[..k][..k - 1] == env.names[..k - 1];
    }
  }

  ghost predicate NeverReturns(env: Env, name: string, verb: Verb, literal: string) {
    forall fuel: nat :: CompileLiteral(env, name, verb, literal, fuel).None?
  }

  /** The recursion of visitBinaryComparator does not end if and only if ALL_FIELDS is unfolded
      and is one of the names it is unfolded into; otherwise two nested calls are enough, and the
      result is that of CompileAtom. */
  lemma UnfoldIsExact(env: Env, name: string, verb: Verb, literal: string)
    ensures NeverReturns(env, name, verb, literal) <==>
              IsUnfold(env, name, verb, literal) && ALL_FIELDS in env.names
    ensures CompileAtom(env, name, verb, literal) == Err(EndlessUnfold) <==>
              IsUnfold(env, name, verb, literal) && ALL_FIELDS in env.names
    ensures !(IsUnfold(env, name, verb, literal) && ALL_FIELDS in env.names) ==>
              forall fuel :: fuel >= 2 ==>
                CompileLiteral(env, name, verb, literal, fuel) == Some(CompileAtom(env, name, verb, literal))
  {
    if IsUnfold(env, name, verb, literal) && ALL_FIELDS in env.names {
      forall fuel: nat
        ensures CompileLiteral(env, name, verb, literal, fuel).None?
      {
        UnfoldForever(env, verb, literal, fuel);
      }
    } else {
      forall fuel: nat | fuel >= 2
        ensures CompileLiteral(env, name, verb, literal, fuel) == Some(CompileAtom(env, name, verb, literal))
      {
        if IsUnfold(env, name, verb, literal) {
          UnfoldEnds(env, |env.names|, verb, literal, fuel - 1);
          assert env.names[..|env.names|] == env.names;
        }
      }
      var enough := |env.names| + 2;
      assert CompileLiteral(env, name, verb, literal, enough).Some?;
      assert !NeverReturns(env, name, verb, literal);
    }
  }

  /** A comparison is rejected exactly when it is with a number that is neither a double nor a long,
      or unfolds ALL_FIELDS into itself; otherwise its query is negative exactly for `ne`. */
  lemma CompilesExactly(env: Env, name: string, verb: Verb, literal: string)
    ensures
      var q := CompileAtom(env, name, verb, literal);
      && (q == Err(NumberFormat) <==>
            env.isNumeric(literal) && verb != Any && verb != All && '.' !in literal && !env.isLong(literal))
      && (q == Err(EndlessUnfold) <==>
            !env.isNumeric(literal) && verb in {Eq, Ne, Any, All} && name == "ALL_FIELDS" && "ALL_FIELDS" in env.names)
      && (q.Err? ==> q.error == NumberFormat || q.error == EndlessUnfold)
      && (q.Ok? ==> q.value.occurance == if verb == Ne then MustNotOccur else MustOccur)
  {
    if !env.isNumeric(literal) {
      PlainNeverFails(env, name, verb, literal);
    }
  }

  /** A comparison with a number is a range, and a wildcard term exactly if the name has a '*'; `ne`
      has no range, so its term asks for nothing. */
  lemma NumberIsRange(env: Env, name: string, verb: Verb, literal: string)
    requires env.isNumeric(literal) && verb != Any && verb != All && CompileAtom(env, name, verb, literal).Ok?
    ensures
      var body := CompileAtom(env, name, verb, literal).value.body;
      && body.Term? && body.term.propertyName == name && body.term.matchValue.None?
      && (body.term.matchType == Some(Wildcard) <==> '*' in name)
      && (body.term.matchType.None? <==> '*' !in name)
      && (verb == Ne <==> body.term.range.None?)
      && (verb != Ne ==> body.term.range == Some((verb, literal)))
  {
  }

  // ---------- combining two queries ----------

  function Positive(q: Query, o: Occurance): Query {
    if q.occurance.MustNotOccur? then q else q.(occurance := o)
  }

  /** visitBinaryOperator on values: the sides become MUST (and) or SHOULD (or) unless negative;
      two negative sides are rewritten by De Morgan under a negative query. */
  function Combine(l: Query, op: BoolOp, r: Query): Query {
    var positive, negative := if op == And then MustOccur else ShouldOccur, if op == And then ShouldOccur else MustOccur;
    if l.occurance.MustNotOccur? && r.occurance.MustNotOccur? then
      Query(MustNotOccur, Clauses([l.(occurance := negative), r.(occurance := negative)]))
    else
      Query(MustOccur, Clauses([Positive(l, positive), Positive(r, positive)]))
  }

  // ---------- filters ----------

  datatype Filter =
    | Atom(name: string, verb: Verb, literal: string)
    | Node(op: BoolOp, left: Filter, right: Filter)

  function Compile(env: Env, f: Filter): Result<Query> {
    match f
    case Atom(name, verb, literal) => CompileAtom(env, name, verb, literal)
    case Node(op, l, r) =>
      var left, right := Compile(env, l), Compile(env, r);
      if left.Err? then left else if right.Err? then right else Ok(Combine(left.value, op, right.value))
  }
}
