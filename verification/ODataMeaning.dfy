/**
 A compiled filter means what the filter says.

 `Truth` is the meaning of a filter, defined on what its literals stand for; the theorems say when
 the compiled query has that meaning on every document.
 */
module ODataMeaning {
  import opened Query
  import opened ODataCompiler
  import opened ODataLiterals
  import Text

  // ---------- the meaning of a filter ----------

  function Fields(env: Env, name: string, verb: Verb, literal: string): seq<string> {
    if name == "ALL_FIELDS" && verb in {Eq, Ne, Any, All} && !env.isNumeric(literal) then env.names else [name]
  }

  predicate FieldEquals(env: Env, d: Document, name: string, literal: string) {
    if env.isNumeric(literal) then d.compare(name, Eq, literal)
    else d.equal(name, Content(literal), if '*' in name || '*' in Content(literal) then Wildcard else ExactTerm)
  }

  predicate HasItem(d: Document, name: string, item: string) {
    d.equal(name, Text.Trim(item), if '*' in item then Wildcard else ExactTerm)
  }

  predicate HasAny(d: Document, name: string, items: seq<string>) {
    exists item :: item in items && HasItem(d, name, item)
  }

  predicate HasAll(d: Document, name: string, items: seq<string>) {
    forall item :: item in items ==> HasItem(d, name, item)
  }

  /** What a verb says of one property; `ne` is the negation of what is said here. */
  predicate FieldTruth(env: Env, d: Document, name: string, verb: Verb, literal: string) {
    match verb
    case Eq => FieldEquals(env, d, name, literal)
    case Ne => FieldEquals(env, d, name, literal)
    case Any => HasAny(d, name, ContentItems(literal))
    case All => HasAll(d, name, ContentItems(literal))
    case _ => d.compare(name, verb, literal)
  }

  predicate SomeField(env: Env, d: Document, fields: seq<string>, verb: Verb, literal: string) {
    exists i :: 0 <= i < |fields| && FieldTruth(env, d, fields[i], verb, literal)
  }

  predicate Truth(env: Env, d: Document, f: Filter) {
    match f
    case Atom(name, verb, literal) =>
      SomeField(env, d, Fields(env, name, verb, literal), verb, literal) != (verb == Ne)
    case Node(op, l, r) =>
      if op == And then Truth(env, d, l) && Truth(env, d, r) else Truth(env, d, l) || Truth(env, d, r)
  }

  /** The polarity of a filter: it is compiled to a MUST_NOT query. */
  predicate Negative(f: Filter) {
    match f
    case Atom(_, verb, _) => verb == Ne
    case Node(_, l, r) => Negative(l) && Negative(r)
  }

  predicate Uniform(f: Filter) {
    match f
    case Atom(_, _, _) => true
    case Node(op, l, r) => Uniform(l) && Uniform(r) && (op == Or ==> Negative(l) == Negative(r))
  }

  /** A list of items the compiler supports: no quotes inside, at least one item, and no empty item
      at an edge of a quoted list, unless a blank item is in the list anyway. */
  predicate SoundItems(literal: string) {
    && '\'' !in Content(literal)
    && ContentItems(literal) != []
    && (Ragged(literal) ==> exists item :: item in ContentItems(literal) && Text.Trim(item) == [])
  }

  /** The comparisons the compiler supports on one property: no quotes inside a text, no `ne`
      against a number, order comparisons only against numbers, and supported lists of items. */
  predicate SoundField(env: Env, verb: Verb, literal: string) {
    && (verb == Eq && !env.isNumeric(literal) ==> '\'' !in Content(literal))
    && (verb == Ne ==> !env.isNumeric(literal) && '\'' !in Content(literal))
    && (verb in {Lt, Le, Gt, Ge} ==> env.isNumeric(literal))
    && (verb == Any || verb == All ==> SoundItems(literal))
  }

  /** The supported atoms: ALL_FIELDS stands for at least one property. */
  predicate SoundAtom(env: Env, name: string, verb: Verb, literal: string) {
    SoundField(env, verb, literal) && (IsUnfold(env, name, verb, literal) ==> env.names != [])
  }

  predicate Sound(env: Env, f: Filter) {
    match f
    case Atom(name, verb, literal) => SoundAtom(env, name, verb, literal)
    case Node(_, l, r) => Sound(env, l) && Sound(env, r)
  }

  /** The query is one the index accepts and means the same as the filter on every document. */
  ghost predicate Means(env: Env, q: Query, f: Filter) {
    Executable(q.body) && forall d :: Holds(d, q) == Truth(env, d, f)
  }

  // ---------- atoms ----------

  /** A clause matches what its item asks for, without the quotes. */
  lemma ClauseMatches(name: string, items: seq<string>, occurance: Occurance, i: nat, d: Document)
    requires i < |items|
    ensures Matches(d, ItemClauses(name, items, occurance)[i].body) == HasItem(d, name, Text.Without(items[i], '\''))
  {
    WithoutMembers(items[i], '\'', '*');
  }

  /** The i-th item of the compiler, without its quotes. */
  function CompiledItem(literal: string, i: nat): string
    requires i < |Items(literal)|
  {
    Text.Without(Items(literal)[i], '\'')
  }

  lemma CompiledItemIs(literal: string, i: nat)
    requires i < |Items(literal)|
    ensures IsCompiledItem(literal, CompiledItem(literal, i))
  {
    assert Items(literal)[i] in Items(literal);
  }

  lemma IsCompiledItemAt(literal: string, v: string) returns (i: nat)
    requires IsCompiledItem(literal, v)
    ensures i < |Items(literal)| && v == CompiledItem(literal, i)
  {
    var p :| p in Items(literal) && v == Text.Without(p, '\'');
    i :| 0 <= i < |Items(literal)| && Items(literal)[i] == p;
  }

  /** What the clauses of a list match: the items of the compiler, without their quotes. */
  lemma AnyClauses(name: string, literal: string, d: Document)
    requires Items(literal) != []
    ensures Matches(d, Clauses(ItemClauses(name, Items(literal), ShouldOccur))) <==>
              exists v :: IsCompiledItem(literal, v) && HasItem(d, name, v)
  {
    var cs := ItemClauses(name, Items(literal), ShouldOccur);
    ShouldMatches(d, cs);
    if exists i :: 0 <= i < |cs| && Matches(d, cs[i].body) {
      var i :| 0 <= i < |cs| && Matches(d, cs[i].body);
      ClauseMatches(name, Items(literal), ShouldOccur, i, d);
      CompiledItemIs(literal, i);
    }
    if exists v :: IsCompiledItem(literal, v) && HasItem(d, name, v) {
      var v :| IsCompiledItem(literal, v) && HasItem(d, name, v);
      var i := IsCompiledItemAt(literal, v);
      ClauseMatches(name, Items(literal), ShouldOccur, i, d);
      assert Matches(d, cs[i].body);
    }
  }

  lemma AllClauses(name: string, literal: string, d: Document)
    requires Items(literal) != []
    ensures Matches(d, Clauses(ItemClauses(name, Items(literal), MustOccur))) <==>
              forall v :: IsCompiledItem(literal, v) ==> HasItem(d, name, v)
  {
    var cs := ItemClauses(name, Items(literal), MustOccur);
    MustMatches(d, cs);
    if forall v :: IsCompiledItem(literal, v) ==> HasItem(d, name, v) {
      forall i | 0 <= i < |cs|
        ensures Matches(d, cs[i].body)
      {
        CompiledItemIs(literal, i);
        ClauseMatches(name, Items(literal), MustOccur, i, d);
      }
    }
    if forall i :: 0 <= i < |cs| ==> Matches(d, cs[i].body) {
      forall v | IsCompiledItem(literal, v)
        ensures HasItem(d, name, v)
      {
        var i := IsCompiledItemAt(literal, v);
        assert Matches(d, cs[i].body);
        ClauseMatches(name, Items(literal), MustOccur, i, d);
      }
    }
  }

  lemma ClausesMatch(name: string, verb: Verb, literal: string, d: Document)
    requires (verb == Any || verb == All) && Items(literal) != []
    ensures
      var body := AsBody(ItemClauses(name, Items(literal), if verb == Any then ShouldOccur else MustOccur));
      Executable(body)
      && (Matches(d, body) <==>
            if verb == Any then exists v :: IsCompiledItem(literal, v) && HasItem(d, name, v)
            else forall v :: IsCompiledItem(literal, v) ==> HasItem(d, name, v))
  {
    if verb == Any {
      AnyClauses(name, literal, d);
    } else {
      AllClauses(name, literal, d);
    }
  }

  lemma BlankHolds(d: Document, name: string, item: string)
    requires Text.Trim(item) == [] && '*' !in item
    ensures HasItem(d, name, item) <==> HasItem(d, name, [])
  {
    assert Text.Trim("") == "";
  }

  lemma {:induction false} TrimKeeps(s: string, c: char)
    requires c in s && c > ' '
    ensures c in Text.Trim(s)
  {
    TrimLeftKeeps(s, c);
    TrimRightKeeps(Text.TrimLeft(s), c);
  }

  lemma {:induction false} TrimLeftKeeps(s: string, c: char)
    requires c in s && c > ' '
    ensures c in Text.TrimLeft(s)
  {
    if s[0] <= ' ' {
      TrimLeftKeeps(s[1..], c);
    }
  }

  lemma {:induction false} TrimRightKeeps(s: string, c: char)
    requires c in s && c > ' '
    ensures c in Text.TrimRight(s)
  {
    if s[|s| - 1] <= ' ' {
      TrimRightKeeps(s[..|s| - 1], c);
    }
  }

  lemma BlankIsExact(item: string)
    requires Text.Trim(item) == []
    ensures '*' !in item
  {
    if '*' in item {
      TrimKeeps(item, '*');
    }
  }

  lemma SomeCompiledItem(literal: string)
    requires '\'' !in Content(literal) && (ContentItems(literal) != [] || Ragged(literal))
    ensures Items(literal) != []
  {
    if ContentItems(literal) != [] {
      CompiledItems(literal, ContentItems(literal)[0]);
    } else {
      CompiledItems(literal, []);
    }
  }

  lemma ItemsMean(name: string, verb: Verb, literal: string, d: Document)
    requires (verb == Any || verb == All) && SoundItems(literal)
    ensures Items(literal) != []
    ensures
      var body := AsBody(ItemClauses(name, Items(literal), if verb == Any then ShouldOccur else MustOccur));
      Executable(body)
      && (Matches(d, body) <==>
            if verb == Any then HasAny(d, name, ContentItems(literal)) else HasAll(d, name, ContentItems(literal)))
  {
    SomeCompiledItem(literal);
    ClausesMatch(name, verb, literal, d);
    forall v
      ensures IsCompiledItem(literal, v) <==> v in ContentItems(literal) || (v == [] && Ragged(literal))
    {
      CompiledItems(literal, v);
    }
    if Ragged(literal) {
      var blank :| blank in ContentItems(literal) && Text.Trim(blank) == [];
      BlankIsExact(blank);
      BlankHolds(d, name, blank);
    }
  }

  // ---------- documents to tell queries apart ----------

  /** A document that equals what the predicate says, under every name, and compares with nothing. */
  function Equals(p: string -> bool): Document { Document((n, v, m) => p(v), (n, v, l) => false) }

  /** A document that equals everything and compares with nothing. */
  function EqualOnly(): Document { Equals(v => true) }

  /** A document that matches no term. */
  function Nothing(): Document { Equals(v => false) }

  /** Documents with exactly the values that have a quote, that have none, the empty one, the others. */
  function WithQuote(): Document { Equals(v => '\'' in v) }
  function WithoutQuote(): Document { Equals(v => '\'' !in v) }
  function EmptyValue(): Document { Equals(v => v == []) }
  function NonEmptyValue(): Document { Equals(v => v != []) }

  lemma PlainMeans(env: Env, name: string, verb: Verb, literal: string, d: Document)
    requires PlainBody(env, name, verb, literal).Ok? && SoundField(env, verb, literal)
    ensures
      var body := PlainBody(env, name, verb, literal).value;
      Executable(body) && Matches(d, body) == FieldTruth(env, d, name, verb, literal)
  {
    WithoutIsContent(literal);
    ContentMembers(literal, '*');
    if verb == Any || verb == All {
      ItemsMean(name, verb, literal, d);
    }
  }

  /** The document on which an unsupported comparison fails, whatever the property. */
  function Counterexample(env: Env, verb: Verb, literal: string): Document {
    match verb
    case Eq => WithQuote()
    case Ne => WithQuote()
    case Any => if '\'' in Content(literal) then WithQuote() else EmptyValue()
    case All => if '\'' in Content(literal) then WithoutQuote() else NonEmptyValue()
    case _ => EqualOnly()
  }

  lemma {:induction false} TrimAddsNothing(s: string, c: char)
    requires c in Text.Trim(s)
    ensures c in s
  {
    TrimRightWithin(Text.TrimLeft(s), c);
    TrimLeftWithin(s, c);
  }

  lemma {:induction false} TrimLeftWithin(s: string, c: char)
    requires c in Text.TrimLeft(s)
    ensures c in s
  {
    if s != [] && s[0] <= ' ' {
      TrimLeftWithin(s[1..], c);
    }
  }

  lemma {:induction false} TrimRightWithin(s: string, c: char)
    requires c in Text.TrimRight(s)
    ensures c in s
  {
    if s != [] && s[|s| - 1] <= ' ' {
      TrimRightWithin(s[..|s| - 1], c);
    }
  }

  /** With a quote in the list: an item with a quote is asked for, and none is compiled. */
  lemma QuotedItemsFail(name: string, verb: Verb, literal: string)
    requires (verb == Any || verb == All) && Items(literal) != [] && '\'' in Content(literal)
    ensures
      var body := AsBody(ItemClauses(name, Items(literal), if verb == Any then ShouldOccur else MustOccur));
      var d := if verb == Any then WithQuote() else WithoutQuote();
      Matches(d, body) != if verb == Any then HasAny(d, name, ContentItems(literal)) else HasAll(d, name, ContentItems(literal))
  {
    var d := if verb == Any then WithQuote() else WithoutQuote();
    ClausesMatch(name, verb, literal, d);
    PartsHasQuote(Content(literal), "");
    var item :| item in ContentItems(literal) && '\'' in item;
    TrimKeeps(item, '\'');
    forall v | IsCompiledItem(literal, v)
      ensures '\'' !in Text.Trim(v)
    {
      var p :| p in Items(literal) && v == Text.Without(p, '\'');
      WithoutMembers(p, '\'', '\'');
      if '\'' in Text.Trim(v) {
        TrimAddsNothing(v, '\'');
      }
    }
    assert HasItem(d, name, item) == (verb == Any);
  }

  /** With an empty item at an edge and no blank one: the empty value is compiled, and not asked for. */
  lemma RaggedItemsFail(name: string, verb: Verb, literal: string)
    requires (verb == Any || verb == All) && '\'' !in Content(literal) && Ragged(literal)
    requires forall item :: item in ContentItems(literal) ==> Text.Trim(item) != []
    ensures Items(literal) != []
    ensures
      var body := AsBody(ItemClauses(name, Items(literal), if verb == Any then ShouldOccur else MustOccur));
      var d := if verb == Any then EmptyValue() else NonEmptyValue();
      Matches(d, body) != if verb == Any then HasAny(d, name, ContentItems(literal)) else HasAll(d, name, ContentItems(literal))
  {
    var d := if verb == Any then EmptyValue() else NonEmptyValue();
    SomeCompiledItem(literal);
    ClausesMatch(name, verb, literal, d);
    CompiledItems(literal, []);
    assert Text.Trim("") == "";
    assert HasItem(d, name, []) == (verb == Any);
  }

  lemma NoItemsWithoutEdge(literal: string)
    requires '\'' !in Content(literal) && ContentItems(literal) == [] && !Ragged(literal)
    ensures Items(literal) == []
  {
    if IsQuoted(literal) {
      PartsNotEmpty(Content(literal), "");
    }
  }

  /** An unsupported comparison gives a query the index rejects, or one that is wrong on a document. */
  lemma PlainFails(env: Env, name: string, verb: Verb, literal: string)
    requires PlainBody(env, name, verb, literal).Ok? && !SoundField(env, verb, literal)
    ensures
      var body, d := PlainBody(env, name, verb, literal).value, Counterexample(env, verb, literal);
      !Executable(body) || Matches(d, body) != FieldTruth(env, d, name, verb, literal)
  {
    WithoutMembers(literal, '\'', '\'');
    if (verb == Any || verb == All) && Items(literal) != [] {
      if '\'' in Content(literal) {
        QuotedItemsFail(name, verb, literal);
      } else {
        if !Ragged(literal) {
          NoItemsWithoutEdge(literal);
        }
        RaggedItemsFail(name, verb, literal);
      }
    }
  }

  lemma {:induction false} UnfoldMeans(env: Env, names: seq<string>, verb: Verb, literal: string, d: Document)
    requires !env.isNumeric(literal) && SoundField(env, verb, literal)
    ensures
      var cs := UnfoldClauses(env, names, verb, literal);
      && |cs| == |names|
      && (forall i :: 0 <= i < |cs| ==>
            cs[i].occurance.ShouldOccur? && Executable(cs[i].body)
            && Matches(d, cs[i].body) == FieldTruth(env, d, names[i], verb, literal))
  {
    if names != [] {
      var n := |names| - 1;
      UnfoldMeans(env, names[..n], verb, literal, d);
      PlainMeans(env, names[n], verb, literal, d);
    }
  }

  lemma UnfoldedMeans(env: Env, names: seq<string>, verb: Verb, literal: string, d: Document)
    requires names != [] && !env.isNumeric(literal) && SoundField(env, verb, literal)
    ensures
      var cs := UnfoldClauses(env, names, verb, literal);
      cs != [] && Executable(Clauses(cs)) && Matches(d, Clauses(cs)) == SomeField(env, d, names, verb, literal)
  {
    UnfoldMeans(env, names, verb, literal, d);
    ShouldMatches(d, UnfoldClauses(env, names, verb, literal));
  }

  lemma AtomMeansOn(env: Env, name: string, verb: Verb, literal: string, d: Document)
    requires CompileAtom(env, name, verb, literal).Ok? && SoundAtom(env, name, verb, literal)
    ensures
      var q := CompileAtom(env, name, verb, literal).value;
      Executable(q.body) && Holds(d, q) == Truth(env, d, Atom(name, verb, literal))
  {
    var q := CompileAtom(env, name, verb, literal).value;
    if IsUnfold(env, name, verb, literal) {
      UnfoldedMeans(env, env.names, verb, literal, d);
    } else {
      PlainMeans(env, name, verb, literal, d);
      OneField(env, d, name, verb, literal);
    }
  }

  /** On a document that does not tell names apart all properties fare alike. */
  lemma NamesAlike(env: Env, a: string, b: string, verb: Verb, literal: string, p: string -> bool)
    requires !env.isNumeric(literal)
    ensures FieldTruth(env, Equals(p), a, verb, literal) == FieldTruth(env, Equals(p), b, verb, literal)
    ensures Matches(Equals(p), PlainBody(env, a, verb, literal).value) == Matches(Equals(p), PlainBody(env, b, verb, literal).value)
  {
    var d := Equals(p);
    assert forall item :: HasItem(d, a, item) == HasItem(d, b, item);
    if (verb == Any || verb == All) && Items(literal) != [] {
      ClausesMatch(a, verb, literal, d);
      ClausesMatch(b, verb, literal, d);
    }
  }

  lemma {:induction false} UnfoldBodies(env: Env, names: seq<string>, verb: Verb, literal: string)
    requires !env.isNumeric(literal)
    ensures
      var cs := UnfoldClauses(env, names, verb, literal);
      |cs| == |names|
      && forall i :: 0 <= i < |cs| ==> cs[i] == Query(ShouldOccur, PlainBody(env, names[i], verb, literal).value)
  {
    if names != [] {
      UnfoldBodies(env, names[..|names| - 1], verb, literal);
    }
  }

  lemma UnfoldedFails(env: Env, name: string, verb: Verb, literal: string)
    requires CompileAtom(env, name, verb, literal).Ok? && IsUnfold(env, name, verb, literal)
    requires env.names != [] && !SoundField(env, verb, literal)
    ensures
      var q, d := CompileAtom(env, name, verb, literal).value, Counterexample(env, verb, literal);
      !Executable(q.body) || Holds(d, q) != Truth(env, d, Atom(name, verb, literal))
  {
    var q, d := CompileAtom(env, name, verb, literal).value, Counterexample(env, verb, literal);
    var names, cs := env.names, UnfoldClauses(env, env.names, verb, literal);
    UnfoldBodies(env, names, verb, literal);
    assert q.body == Clauses(cs);
    PlainFails(env, names[0], verb, literal);
    if Executable(q.body) {
      assert Executable(cs[0].body);
      ShouldMatches(d, cs);
      forall i | 0 <= i < |cs|
        ensures Matches(d, cs[i].body) == Matches(d, cs[0].body)
        ensures FieldTruth(env, d, names[i], verb, literal) == FieldTruth(env, d, names[0], verb, literal)
      {
        AlikeOnCounterexample(env, names[i], names[0], verb, literal);
      }
    }
  }

  lemma AlikeOnCounterexample(env: Env, a: string, b: string, verb: Verb, literal: string)
    requires !env.isNumeric(literal)
    ensures
      var d := Counterexample(env, verb, literal);
      && FieldTruth(env, d, a, verb, literal) == FieldTruth(env, d, b, verb, literal)
      && Matches(d, PlainBody(env, a, verb, literal).value) == Matches(d, PlainBody(env, b, verb, literal).value)
  {
    NamesAlike(env, a, b, verb, literal, v => true);
    NamesAlike(env, a, b, verb, literal, v => '\'' in v);
    NamesAlike(env, a, b, verb, literal, v => '\'' !in v);
    NamesAlike(env, a, b, verb, literal, v => v == []);
    NamesAlike(env, a, b, verb, literal, v => v != []);
  }

  lemma OneField(env: Env, d: Document, name: string, verb: Verb, literal: string)
    ensures SomeField(env, d, [name], verb, literal) == FieldTruth(env, d, name, verb, literal)
  {
    assert [name][0] == name;
  }

  /** Every unsupported atom gives a query the index rejects, or one that is wrong on a document. */
  lemma AtomFails(env: Env, name: string, verb: Verb, literal: string)
    requires CompileAtom(env, name, verb, literal).Ok? && !SoundAtom(env, name, verb, literal)
    ensures
      var q, d := CompileAtom(env, name, verb, literal).value, Counterexample(env, verb, literal);
      !Executable(q.body) || Holds(d, q) != Truth(env, d, Atom(name, verb, literal))
  {
    if IsUnfold(env, name, verb, literal) {
      if env.names != [] {
        UnfoldedFails(env, name, verb, literal);
      }
    } else {
      PlainFails(env, name, verb, literal);
      OneField(env, Counterexample(env, verb, literal), name, verb, literal);
    }
  }

  // ---------- operators ----------

  /** One combination step: keeps the meaning of its sides unless it is a mixed `or`. */
  lemma CombineMeans(d: Document, l: Query, op: BoolOp, r: Query)
    requires !l.occurance.ShouldOccur? && !r.occurance.ShouldOccur?
    ensures
      var q := Combine(l, op, r);
      && !q.occurance.ShouldOccur?
      && (q.occurance.MustNotOccur? <==> l.occurance.MustNotOccur? && r.occurance.MustNotOccur?)
      && (Executable(q.body) <==> Executable(l.body) && Executable(r.body))
      && Holds(d, q) == if op == And || l.occurance != r.occurance
                        then Holds(d, l) && Holds(d, r) else Holds(d, l) || Holds(d, r)
  {
    var q := Combine(l, op, r);
    PairMatches(d, q.body.clauses[0], q.body.clauses[1]);
    assert q.body.clauses == [q.body.clauses[0], q.body.clauses[1]];
  }

  lemma {:induction false} MeansOn(env: Env, f: Filter, d: Document)
    requires Compile(env, f).Ok? && Sound(env, f) && Uniform(f)
    ensures
      var q := Compile(env, f).value;
      && Executable(q.body)
      && Holds(d, q) == Truth(env, d, f)
      && q.occurance == (if Negative(f) then MustNotOccur else MustOccur)
  {
    match f
    case Atom(name, verb, literal) => AtomMeansOn(env, name, verb, literal, d);
    case Node(op, l, r) =>
      MeansOn(env, l, d);
      MeansOn(env, r, d);
      CombineMeans(d, Compile(env, l).value, op, Compile(env, r).value);
  }

  /** A filter of supported atoms in which the two sides of each `or` have the same polarity
      compiles to a query that means the same on every document. */
  lemma CompiledMeansFilter(env: Env, f: Filter)
    requires Compile(env, f).Ok? && Sound(env, f) && Uniform(f)
    ensures Means(env, Compile(env, f).value, f)
    ensures Compile(env, f).value.occurance == (if Negative(f) then MustNotOccur else MustOccur)
  {
    forall d
      ensures Executable(Compile(env, f).value.body) && Holds(d, Compile(env, f).value) == Truth(env, d, f)
      ensures Compile(env, f).value.occurance == (if Negative(f) then MustNotOccur else MustOccur)
    {
      MeansOn(env, f, d);
    }
    MeansOn(env, f, Nothing());
  }

  // ---------- exactly when ----------

  /** The filter and all its parts keep their meaning. */
  ghost predicate EveryPartMeans(env: Env, f: Filter)
    requires Compile(env, f).Ok?
  {
    Means(env, Compile(env, f).value, f)
    && match f
       case Atom(_, _, _) => true
       case Node(_, l, r) => EveryPartMeans(env, l) && EveryPartMeans(env, r)
  }

  /** On the document that matches no term, a filter is true exactly when it is negative. */
  lemma {:induction false} TruthOfNothing(env: Env, f: Filter)
    requires Sound(env, f) && Uniform(f)
    ensures Truth(env, Nothing(), f) == Negative(f)
  {
    match f
    case Atom(name, verb, literal) =>
      var fields := Fields(env, name, verb, literal);
      forall i | 0 <= i < |fields|
        ensures !FieldTruth(env, Nothing(), fields[i], verb, literal)
      {
        if verb == All {
          assert ContentItems(literal)[0] in ContentItems(literal);
          assert !HasItem(Nothing(), fields[i], ContentItems(literal)[0]);
        }
      }
    case Node(op, l, r) =>
      TruthOfNothing(env, l);
      TruthOfNothing(env, r);
  }

  /** Compiling keeps the meaning of a filter and of all its parts if and only if its atoms are
      supported and no `or` joins a negative side with a positive one. */
  lemma {:induction false} MeaningExactly(env: Env, f: Filter)
    requires Compile(env, f).Ok?
    ensures EveryPartMeans(env, f) <==> Sound(env, f) && Uniform(f)
  {
    match f
    case Atom(name, verb, literal) =>
      if SoundAtom(env, name, verb, literal) {
        CompiledMeansFilter(env, f);
      } else {
        AtomFails(env, name, verb, literal);
      }
    case Node(op, l, r) =>
      MeaningExactly(env, l);
      MeaningExactly(env, r);
      if Sound(env, f) && Uniform(l) && Uniform(r) {
        if Uniform(f) {
          CompiledMeansFilter(env, f);
        } else {
          MixedOrFails(env, l, r);
        }
      }
  }

  lemma MixedOrFails(env: Env, l: Filter, r: Filter)
    requires Compile(env, l).Ok? && Compile(env, r).Ok?
    requires Sound(env, l) && Sound(env, r) && Uniform(l) && Uniform(r) && Negative(l) != Negative(r)
    ensures Compile(env, Node(Or, l, r)).Ok?
    ensures !Means(env, Compile(env, Node(Or, l, r)).value, Node(Or, l, r))
  {
    var d := Nothing();
    MeansOn(env, l, d);
    MeansOn(env, r, d);
    TruthOfNothing(env, l);
    TruthOfNothing(env, r);
    CombineMeans(d, Compile(env, l).value, Or, Compile(env, r).value);
    assert Holds(d, Compile(env, Node(Or, l, r)).value) != Truth(env, d, Node(Or, l, r));
  }

  /** Where exactly a mixed `or` goes wrong: on the documents where its two sides disagree. */
  lemma MixedOrOn(env: Env, l: Filter, r: Filter, d: Document)
    requires Compile(env, l).Ok? && Compile(env, r).Ok?
    requires Sound(env, l) && Sound(env, r) && Uniform(l) && Uniform(r) && Negative(l) != Negative(r)
    ensures Compile(env, Node(Or, l, r)).Ok?
    ensures Holds(d, Compile(env, Node(Or, l, r)).value) == Truth(env, d, Node(Or, l, r)) <==>
              Truth(env, d, l) == Truth(env, d, r)
  {
    MeansOn(env, l, d);
    MeansOn(env, r, d);
    CombineMeans(d, Compile(env, l).value, Or, Compile(env, r).value);
  }

  // ---------- no list of MUST_NOT clauses alone ----------

  predicate NeverOnlyNegative(b: Body) {
    match b
    case Clauses(cs) =>
      && (exists i :: 0 <= i < |cs| && !cs[i].occurance.MustNotOccur?)
      && (forall i :: 0 <= i < |cs| ==> NeverOnlyNegative(cs[i].body))
    case _ => true
  }

  ghost predicate ShouldClauses(cs: seq<Query>) {
    forall c :: c in cs ==> c.occurance.ShouldOccur? && NeverOnlyNegative(c.body)
  }

  lemma {:induction false} UnfoldNeverNegative(env: Env, names: seq<string>, verb: Verb, literal: string)
    requires !env.isNumeric(literal)
    ensures ShouldClauses(UnfoldClauses(env, names, verb, literal))
  {
    if names != [] {
      var n := |names| - 1;
      UnfoldNeverNegative(env, names[..n], verb, literal);
      PlainNeverNegative(env, names[n], verb, literal);
    }
  }

  lemma PlainNeverNegative(env: Env, name: string, verb: Verb, literal: string)
    requires PlainBody(env, name, verb, literal).Ok?
    ensures NeverOnlyNegative(PlainBody(env, name, verb, literal).value)
  {
    if verb == Any || verb == All {
      var items := Items(literal);
      var cs := ItemClauses(name, items, if verb == Any then ShouldOccur else MustOccur);
      assert items != [] ==> !cs[0].occurance.MustNotOccur?;
    }
  }

  /** For every filter, no clause list of its query holds only MUST_NOT clauses, and the query
      itself is never SHOULD. */
  lemma {:induction false} CompiledShape(env: Env, f: Filter)
    requires Compile(env, f).Ok?
    ensures NeverOnlyNegative(Compile(env, f).value.body) && !Compile(env, f).value.occurance.ShouldOccur?
  {
    match f
    case Atom(name, verb, literal) =>
      if IsUnfold(env, name, verb, literal) {
        UnfoldNeverNegative(env, env.names, verb, literal);
        var cs := UnfoldClauses(env, env.names, verb, literal);
        assert forall i :: 0 <= i < |cs| ==> cs[i] in cs;
      } else {
        PlainNeverNegative(env, name, verb, literal);
      }
    case Node(op, l, r) =>
      CompiledShape(env, l);
      CompiledShape(env, r);
      var q := Compile(env, f).value;
      assert !q.body.clauses[0].occurance.MustNotOccur? || !q.body.clauses[1].occurance.MustNotOccur?;
  }
}
