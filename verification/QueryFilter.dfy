/**
 The evaluator tree of a query filter (QueryFilter): conjunctions that fix a property to a value
 are found through a table instead of being tried one by one.
 */
module QueryFilter {
  import opened Common
  import opened Query
  import opened DisjunctiveNormalForm

  /** Which property names have a single part, and in which order a hash map holds names. */
  datatype Choice = Choice(flat: string -> bool, order: set<string> -> seq<string>)

  /** A document and the values that tables are looked up with (None is null). */
  datatype View = View(d: Document, value: string -> Option<string>)

  datatype Evaluator =
    | Always
    | Terms(terms: Conjunction)
    | Dispatch(property: string, table: map<Option<string>, Evaluator>)
    | Disjunction(evaluators: seq<Evaluator>)

  /** Positive, not nested, and to be matched as a whole term. */
  predicate Eligible(ch: Choice, x: Literal) {
    !x.negate && x.term.matchType == Some(ExactTerm) && ch.flat(x.term.propertyName)
  }

  predicate On(ch: Choice, x: Literal, p: string) { Eligible(ch, x) && x.term.propertyName == p }

  predicate Handles(ch: Choice, c: Conjunction, p: string) { exists i :: 0 <= i < |c| && On(ch, c[i], p) }

  predicate SomeHandles(ch: Choice, dnf: seq<Conjunction>, p: string) { exists c :: c in dnf && Handles(ch, c, p) }

  predicate HasEligible(ch: Choice, c: Conjunction) { exists i :: 0 <= i < |c| && Eligible(ch, c[i]) }

  predicate SomeEligible(ch: Choice, dnf: seq<Conjunction>) { exists i :: 0 <= i < |dnf| && HasEligible(ch, dnf[i]) }

  /** The order of a set holds its members. */
  ghost predicate Orders(ch: Choice) {
    forall names, x :: x in ch.order(names) <==> x in names
  }

  // ---------- the property to dispatch on ----------

  /** The terms of all conjunctions. */
  function Flat(dnf: seq<Conjunction>): seq<Literal> {
    if dnf == [] then [] else Flat(dnf[..|dnf| - 1]) + dnf[|dnf| - 1]
  }

  /** How often each property is constrained by an eligible term. */
  function Tally(ch: Choice, xs: seq<Literal>): map<string, nat> {
    if xs == [] then map[]
    else
      var before, x := Tally(ch, xs[..|xs| - 1]), xs[|xs| - 1];
      var p := x.term.propertyName;
      if Eligible(ch, x) then before[p := (if p in before then before[p] else 0) + 1] else before
  }

  /** The last of the names with the highest count. */
  function LastMost(counts: map<string, nat>, names: seq<string>): (p: string)
    requires names != [] && forall x :: x in names ==> x in counts
    ensures p in names && forall x :: x in names ==> counts[x] <= counts[p]
    ensures exists k :: LastAt(counts, names, p, k)
  {
    if |names| == 1 then
      assert LastAt(counts, names, names[0], 0);
      names[0]
    else
      var last := names[|names| - 1];
      var best := LastMost(counts, names[..|names| - 1]);
      assert forall x :: x in names ==> x == last || x in names[..|names| - 1];
      if counts[best] <= counts[last] then
        assert LastAt(counts, names, last, |names| - 1);
        last
      else
        assert exists k :: LastAt(counts, names, best, k) by {
          var k :| LastAt(counts, names[..|names| - 1], best, k);
          assert LastAt(counts, names, best, k);
        }
        best
  }

  /** The name is at k, and after it only names that are counted less often. */
  predicate LastAt(counts: map<string, nat>, names: seq<string>, p: string, k: int)
    requires p in counts && forall x :: x in names ==> x in counts
  {
    0 <= k < |names| && names[k] == p && forall j :: k < j < |names| ==> counts[names[j]] < counts[p]
  }

  /** The places at which a list constrains a property. */
  function Places(ch: Choice, xs: seq<Literal>, p: string): set<int> { set i | 0 <= i < |xs| && On(ch, xs[i], p) }

  /** A property is counted as often as it is constrained. */
  lemma {:induction false} TallyCounts(ch: Choice, xs: seq<Literal>, p: string)
    ensures (if p in Tally(ch, xs) then Tally(ch, xs)[p] else 0) == |Places(ch, xs, p)|
  {
    if xs != [] {
      var n := |xs| - 1;
      TallyCounts(ch, xs[..n], p);
      OnePlace(ch, xs, p);
    }
  }

  lemma OnePlace(ch: Choice, xs: seq<Literal>, p: string)
    requires xs != []
    ensures |Places(ch, xs, p)| == |Places(ch, xs[..|xs| - 1], p)| + if On(ch, xs[|xs| - 1], p) then 1 else 0
  {
    var n := |xs| - 1;
    var before := Places(ch, xs[..n], p);
    assert n !in before;
    assert Places(ch, xs, p) == before + if On(ch, xs[n], p) then {n} else {};
  }

  lemma {:induction false} TallyHas(ch: Choice, xs: seq<Literal>, p: string)
    ensures p in Tally(ch, xs) <==> exists x :: x in xs && On(ch, x, p)
  {
    if xs != [] {
      var front, x := xs[..|xs| - 1], xs[|xs| - 1];
      TallyHas(ch, front, p);
      assert xs == front + [x];
      assert forall y :: y in xs <==> y in front || y == x;
      assert p in Tally(ch, xs) <==> p in Tally(ch, front) || On(ch, x, p);
    }
  }

  lemma {:induction false} FlatHas(dnf: seq<Conjunction>, x: Literal)
    ensures x in Flat(dnf) <==> exists c :: c in dnf && x in c
  {
    if dnf != [] {
      var front, last := dnf[..|dnf| - 1], dnf[|dnf| - 1];
      FlatHas(front, x);
      assert dnf == front + [last];
    }
  }

  function Counts(ch: Choice, dnf: seq<Conjunction>): map<string, nat> { Tally(ch, Flat(dnf)) }

  /** A property is counted exactly when some conjunction has an eligible term on it. */
  lemma CountsHas(ch: Choice, dnf: seq<Conjunction>, p: string)
    ensures p in Counts(ch, dnf) <==> SomeHandles(ch, dnf, p)
  {
    TallyHas(ch, Flat(dnf), p);
    if p in Counts(ch, dnf) {
      var x :| x in Flat(dnf) && On(ch, x, p);
      FlatHas(dnf, x);
      var c :| c in dnf && x in c;
      var i :| 0 <= i < |c| && c[i] == x;
      assert Handles(ch, c, p);
    }
    if SomeHandles(ch, dnf, p) {
      var c :| c in dnf && Handles(ch, c, p);
      var i :| 0 <= i < |c| && On(ch, c[i], p);
      FlatHas(dnf, c[i]);
    }
  }

  lemma EligibleIsCounted(ch: Choice, dnf: seq<Conjunction>)
    ensures SomeEligible(ch, dnf) <==> Counts(ch, dnf).Keys != {}
  {
    if SomeEligible(ch, dnf) {
      var i :| 0 <= i < |dnf| && HasEligible(ch, dnf[i]);
      var k :| 0 <= k < |dnf[i]| && Eligible(ch, dnf[i][k]);
      var p := dnf[i][k].term.propertyName;
      assert On(ch, dnf[i][k], p) && dnf[i] in dnf && Handles(ch, dnf[i], p);
      CountsHas(ch, dnf, p);
    }
    if Counts(ch, dnf).Keys != {} {
      var p :| p in Counts(ch, dnf);
      CountsHas(ch, dnf, p);
      var c :| c in dnf && Handles(ch, c, p);
      assert HasEligible(ch, c);
    }
  }

  lemma OrderedNames(ch: Choice, names: set<string>)
    requires Orders(ch) && names != {}
    ensures ch.order(names) != [] && forall x :: x in ch.order(names) <==> x in names
  {
    var p :| p in names;
    assert p in ch.order(names);
  }

  /** findTopPropertyForDispatch: the names are sorted by their counts, and the last is taken. */
  function Top(ch: Choice, dnf: seq<Conjunction>): (p: string)
    requires Orders(ch) && SomeEligible(ch, dnf)
    ensures SomeHandles(ch, dnf, p)
    ensures forall x :: x in Counts(ch, dnf) ==> p in Counts(ch, dnf) && Counts(ch, dnf)[x] <= Counts(ch, dnf)[p]
  {
    EligibleIsCounted(ch, dnf);
    var counts := Counts(ch, dnf);
    var names := ch.order(counts.Keys);
    OrderedNames(ch, counts.Keys);
    var p := LastMost(counts, names);
    CountsHas(ch, dnf, p);
    assert forall x :: x in counts ==> x in names;
    p
  }

  /** The first term of a conjunction on a property. */
  function First(ch: Choice, c: Conjunction, p: string): (k: nat)
    requires Handles(ch, c, p)
    ensures k < |c| && On(ch, c[k], p) && forall i :: 0 <= i < k ==> !On(ch, c[i], p)
  {
    if On(ch, c[0], p) then 0
    else
      assert exists i :: 0 <= i < |c[1..]| && On(ch, c[1..][i], p) by {
        var i :| 0 <= i < |c| && On(ch, c[i], p);
        assert c[1..][i - 1] == c[i];
      }
      1 + First(ch, c[1..], p)
  }

  function Key(ch: Choice, c: Conjunction, p: string): Option<string>
    requires Handles(ch, c, p)
  {
    c[First(ch, c, p)].term.matchValue
  }

  /** The conjunction with that term skipped. */
  function Rest(ch: Choice, c: Conjunction, p: string): Conjunction
    requires Handles(ch, c, p)
  {
    c[..First(ch, c, p)] + c[First(ch, c, p) + 1..]
  }

  function Eligibles(ch: Choice, c: Conjunction): nat {
    if c == [] then 0 else Eligibles(ch, c[..|c| - 1]) + (if Eligible(ch, c[|c| - 1]) then 1 else 0)
  }

  function Weight(ch: Choice, dnf: seq<Conjunction>): nat {
    if dnf == [] then 0 else Weight(ch, dnf[..|dnf| - 1]) + Eligibles(ch, dnf[|dnf| - 1])
  }

  lemma {:induction false} EligiblesConcat(ch: Choice, a: Conjunction, b: Conjunction)
    ensures Eligibles(ch, a + b) == Eligibles(ch, a) + Eligibles(ch, b)
  {
    if b == [] {
      assert a + b == a;
    } else {
      var n := |b| - 1;
      assert (a + b)[..|a| + n] == a + b[..n];
      EligiblesConcat(ch, a, b[..n]);
    }
  }

  lemma RestIsLighter(ch: Choice, c: Conjunction, p: string)
    requires Handles(ch, c, p)
    ensures Eligibles(ch, Rest(ch, c, p)) + 1 == Eligibles(ch, c)
  {
    var k := First(ch, c, p);
    assert c == c[..k] + ([c[k]] + c[k + 1..]);
    EligiblesConcat(ch, c[..k], [c[k]] + c[k + 1..]);
    EligiblesConcat(ch, [c[k]], c[k + 1..]);
    EligiblesConcat(ch, c[..k], c[k + 1..]);
    assert [c[k]][..0] == [];
  }

  /** The conjunctions a dispatch on p leaves over. */
  function Unhandled(ch: Choice, dnf: seq<Conjunction>, p: string): (r: seq<Conjunction>)
    ensures Weight(ch, r) + |dnf| - |r| <= Weight(ch, dnf)
    ensures |r| <= |dnf| && (SomeHandles(ch, dnf, p) ==> |r| < |dnf|)
  {
    if dnf == [] then []
    else
      var before, c := Unhandled(ch, dnf[..|dnf| - 1], p), dnf[|dnf| - 1];
      if Handles(ch, c, p) then
        RestIsLighter(ch, c, p);
        before
      else
        before + [c]
  }

  /** The rests of the conjunctions that fix p to the given value. */
  function Entry(ch: Choice, dnf: seq<Conjunction>, p: string, key: Option<string>): (r: seq<Conjunction>)
    ensures Weight(ch, r) + |r| <= Weight(ch, dnf)
    ensures key in Keys(ch, dnf, p) ==> r != []
  {
    if dnf == [] then []
    else
      var before, c := Entry(ch, dnf[..|dnf| - 1], p, key), dnf[|dnf| - 1];
      if Handles(ch, c, p) && Key(ch, c, p) == key then
        RestIsLighter(ch, c, p);
        before + [Rest(ch, c, p)]
      else
        before
  }

  function Keys(ch: Choice, dnf: seq<Conjunction>, p: string): set<Option<string>> {
    set c | c in dnf && Handles(ch, c, p) :: Key(ch, c, p)
  }

  function AsTerms(c: Conjunction): Evaluator { if c == [] then Always else Terms(c) }

  /** The evaluators of DisjunctionEvaluator.create: dispatch tables as long as there is a
      property to dispatch on, then what is left, one by one. */
  function Create(ch: Choice, dnf: seq<Conjunction>): seq<Evaluator>
    requires Orders(ch)
    decreases Weight(ch, dnf), 1
  {
    if SomeEligible(ch, dnf) then
      var p := Top(ch, dnf);
      [Dispatch(p, Table(ch, dnf, p))] + Create(ch, Unhandled(ch, dnf, p))
    else
      seq(|dnf|, i requires 0 <= i < |dnf| => AsTerms(dnf[i]))
  }

  function Table(ch: Choice, dnf: seq<Conjunction>, p: string): map<Option<string>, Evaluator>
    requires Orders(ch)
    decreases Weight(ch, dnf), 0
  {
    map key | key in Keys(ch, dnf, p) :: Disjunction(Create(ch, Entry(ch, dnf, p, key)))
  }

  // ---------- the tree as it is built ----------

  lemma {:induction false} FlatTake(dnf: seq<Conjunction>, i: nat)
    requires i < |dnf|
    ensures Flat(dnf[..i + 1]) == Flat(dnf[..i]) + dnf[i]
  {
    assert dnf[..i + 1][..i] == dnf[..i];
  }

  lemma TallyTake(ch: Choice, before: seq<Literal>, c: Conjunction, k: nat)
    requires k < |c|
    ensures
      var m, x := Tally(ch, before + c[..k]), c[k];
      var p := x.term.propertyName;
      Tally(ch, before + c[..k + 1]) == if Eligible(ch, x) then m[p := (if p in m then m[p] else 0) + 1] else m
  {
    var xs := before + c[..k + 1];
    assert xs[..|xs| - 1] == before + c[..k];
  }

  /** Counts the eligible terms by their property. */
  method CountTerms(ch: Choice, dnf: seq<Conjunction>) returns (counts: map<string, nat>)
    ensures counts == Counts(ch, dnf)
  {
    counts := map[];
    for i := 0 to |dnf|
      invariant counts == Tally(ch, Flat(dnf[..i]))
    {
      var c := dnf[i];
      ghost var before := Flat(dnf[..i]);
      assert before + c[..0] == before;
      for k := 0 to |c|
        invariant counts == Tally(ch, before + c[..k])
      {
        TallyTake(ch, before, c, k);
        if Eligible(ch, c[k]) {
          var p := c[k].term.propertyName;
          counts := counts[p := (if p in counts then counts[p] else 0) + 1];
        }
      }
      assert c[..|c|] == c;
      FlatTake(dnf, i);
    }
    assert dnf[..|dnf|] == dnf;
  }

  /** Sorts by count and takes the last, which is the last of those with the highest count. */
  method PickLast(counts: map<string, nat>, names: seq<string>) returns (best: string)
    requires names != [] && forall x :: x in names ==> x in counts
    ensures best == LastMost(counts, names)
  {
    best := names[0];
    for k := 1 to |names|
      invariant best == LastMost(counts, names[..k])
    {
      assert names[..k + 1][..k] == names[..k];
      assert forall x :: x in names[..k + 1] ==> x in names;
      if counts[best] <= counts[names[k]] {
        best := names[k];
      }
    }
    assert names[..|names|] == names;
  }

  /** A property is found exactly when some term is eligible, and no other is constrained more often. */
  method FindTopPropertyForDispatch(ch: Choice, dnf: seq<Conjunction>) returns (key: Option<string>)
    requires Orders(ch)
    ensures key == if SomeEligible(ch, dnf) then Some(Top(ch, dnf)) else None
  {
    var counts := CountTerms(ch, dnf);
    EligibleIsCounted(ch, dnf);
    if counts.Keys == {} {
      return None;
    }
    OrderedNames(ch, counts.Keys);
    var best := PickLast(counts, ch.order(counts.Keys));
    key := Some(best);
  }

  method CreateDisjunction(ch: Choice, dnf0: seq<Conjunction>) returns (evaluators: seq<Evaluator>)
    requires Orders(ch)
    ensures evaluators == Create(ch, dnf0)
    decreases Weight(ch, dnf0), 2
  {
    evaluators := [];
    var dnf := dnf0;
    while dnf != []
      invariant evaluators + Create(ch, dnf) == Create(ch, dnf0)
      invariant Weight(ch, dnf) <= Weight(ch, dnf0)
      decreases Weight(ch, dnf)
    {
      var key := FindTopPropertyForDispatch(ch, dnf);
      if key.None? {
        break;
      }
      var e, unhandled := CreateDispatch(ch, key.value, dnf);
      Assoc(evaluators, [e], Create(ch, unhandled));
      evaluators, dnf := evaluators + [e], unhandled;
    }
    evaluators := evaluators + seq(|dnf|, i requires 0 <= i < |dnf| => AsTerms(dnf[i]));
  }

  lemma Assoc(a: seq<Evaluator>, b: seq<Evaluator>, c: seq<Evaluator>)
    ensures a + (b + c) == a + b + c
  {
  }

  lemma TakeOne(ch: Choice, dnf: seq<Conjunction>, p: string, k: nat)
    requires k < |dnf|
    ensures
      var c, before, after := dnf[k], dnf[..k], dnf[..k + 1];
      && Keys(ch, after, p) == Keys(ch, before, p) + (if Handles(ch, c, p) then {Key(ch, c, p)} else {})
      && Unhandled(ch, after, p) == Unhandled(ch, before, p) + (if Handles(ch, c, p) then [] else [c])
  {
    assert dnf[..k + 1] == dnf[..k] + [dnf[k]];
    assert dnf[..k + 1][..k] == dnf[..k];
  }

  lemma TakeOneEntry(ch: Choice, dnf: seq<Conjunction>, p: string, k: nat, key: Option<string>)
    requires k < |dnf|
    ensures Entry(ch, dnf[..k + 1], p, key)
         == Entry(ch, dnf[..k], p, key)
            + if Handles(ch, dnf[k], p) && Key(ch, dnf[k], p) == key then [Rest(ch, dnf[k], p)] else []
  {
    assert dnf[..k + 1][..k] == dnf[..k];
  }

  ghost predicate Filled(ch: Choice, table: map<Option<string>, seq<Conjunction>>, dnf: seq<Conjunction>, p: string) {
    table.Keys == Keys(ch, dnf, p) && forall key :: key in table ==> table[key] == Entry(ch, dnf, p, key)
  }

  lemma FiledAt(ch: Choice, p: string, dnf: seq<Conjunction>, k: nat, table: map<Option<string>, seq<Conjunction>>,
                key: Option<string>)
    requires k < |dnf| && Filled(ch, table, dnf[..k], p)
    ensures
      var mine := Handles(ch, dnf[k], p) && Key(ch, dnf[k], p) == key;
      Entry(ch, dnf[..k + 1], p, key)
      == (if key in table then table[key] else []) + if mine then [Rest(ch, dnf[k], p)] else []
  {
    TakeOneEntry(ch, dnf, p, k, key);
    if key !in table {
      NoEntry(ch, dnf[..k], p, key);
    }
  }

  /** One conjunction goes to the entry of its key. */
  function Filed(ch: Choice, table: map<Option<string>, seq<Conjunction>>, c: Conjunction, p: string)
    : map<Option<string>, seq<Conjunction>>
    requires Handles(ch, c, p)
  {
    var key := Key(ch, c, p);
    table[key := (if key in table then table[key] else []) + [Rest(ch, c, p)]]
  }

  lemma FiledOne(ch: Choice, p: string, dnf: seq<Conjunction>, k: nat, table: map<Option<string>, seq<Conjunction>>)
    requires k < |dnf| && Handles(ch, dnf[k], p) && Filled(ch, table, dnf[..k], p)
    ensures Filled(ch, Filed(ch, table, dnf[k], p), dnf[..k + 1], p)
  {
    var after := Filed(ch, table, dnf[k], p);
    TakeOne(ch, dnf, p, k);
    assert after.Keys == Keys(ch, dnf[..k + 1], p);
    forall key | key in after
      ensures after[key] == Entry(ch, dnf[..k + 1], p, key)
    {
      FiledAt(ch, p, dnf, k, table, key);
    }
  }

  lemma FiledNone(ch: Choice, p: string, dnf: seq<Conjunction>, k: nat, table: map<Option<string>, seq<Conjunction>>)
    requires k < |dnf| && !Handles(ch, dnf[k], p) && Filled(ch, table, dnf[..k], p)
    ensures Filled(ch, table, dnf[..k + 1], p)
  {
    TakeOne(ch, dnf, p, k);
    assert table.Keys == Keys(ch, dnf[..k + 1], p);
    forall key | key in table
      ensures table[key] == Entry(ch, dnf[..k + 1], p, key)
    {
      TakeOneEntry(ch, dnf, p, k, key);
    }
  }

  /** The entry of the key is made if there is none, and the rest of the conjunction added to it. */
  method File(ch: Choice, table0: map<Option<string>, seq<Conjunction>>, c: Conjunction, p: string)
    returns (table: map<Option<string>, seq<Conjunction>>)
    requires Handles(ch, c, p)
    ensures table == Filed(ch, table0, c, p)
  {
    table := table0;
    var key := Key(ch, c, p);
    if key !in table {
      table := table[key := []];
    }
    table := table[key := table[key] + [Rest(ch, c, p)]];
  }

  method Distribute(ch: Choice, p: string, dnf: seq<Conjunction>)
    returns (table: map<Option<string>, seq<Conjunction>>, unhandled: seq<Conjunction>)
    ensures Filled(ch, table, dnf, p) && unhandled == Unhandled(ch, dnf, p)
  {
    table, unhandled := map[], [];
    for k := 0 to |dnf|
      invariant unhandled == Unhandled(ch, dnf[..k], p)
      invariant Filled(ch, table, dnf[..k], p)
    {
      TakeOne(ch, dnf, p, k);
      if Handles(ch, dnf[k], p) {
        FiledOne(ch, p, dnf, k, table);
        table := File(ch, table, dnf[k], p);
      } else {
        FiledNone(ch, p, dnf, k, table);
        unhandled := unhandled + [dnf[k]];
      }
    }
    assert dnf[..|dnf|] == dnf;
  }

  /** `all` maps the keys of the table to the evaluators of their entries. */
  ghost predicate IsTable(ch: Choice, table: map<Option<string>, seq<Conjunction>>, all: map<Option<string>, Evaluator>, bound: nat)
    requires Orders(ch)
  {
    && all.Keys == table.Keys
    && (forall key :: key in table ==> Weight(ch, table[key]) < bound && all[key] == Disjunction(Create(ch, table[key])))
  }

  lemma FilledIsTable(ch: Choice, dnf: seq<Conjunction>, p: string, table: map<Option<string>, seq<Conjunction>>)
    requires Orders(ch) && Filled(ch, table, dnf, p)
    ensures IsTable(ch, table, Table(ch, dnf, p), Weight(ch, dnf))
  {
    var all := Table(ch, dnf, p);
    forall key | key in table
      ensures Weight(ch, table[key]) < Weight(ch, dnf) && all[key] == Disjunction(Create(ch, table[key]))
    {
      assert table[key] == Entry(ch, dnf, p, key);
    }
  }

  /** Builds the table of a property; the conjunctions it does not handle stay in the list. */
  method CreateDispatch(ch: Choice, p: string, dnf: seq<Conjunction>) returns (e: Evaluator, unhandled: seq<Conjunction>)
    requires Orders(ch)
    ensures e == Dispatch(p, Table(ch, dnf, p)) && unhandled == Unhandled(ch, dnf, p)
    decreases Weight(ch, dnf), 1
  {
    var table;
    table, unhandled := Distribute(ch, p, dnf);
    FilledIsTable(ch, dnf, p, table);
    var evaluatorTable := CreateTable(ch, table, Table(ch, dnf, p), Weight(ch, dnf));
    e := Dispatch(p, evaluatorTable);
  }

  /** The part of a map outside of some keys. */
  ghost function Restricted(all: map<Option<string>, Evaluator>, keys: set<Option<string>>): map<Option<string>, Evaluator> {
    all - keys
  }

  lemma RestrictedLess(all: map<Option<string>, Evaluator>, keys: set<Option<string>>, key: Option<string>)
    requires key in keys && key in all
    ensures Restricted(all, keys - {key}) == Restricted(all, keys)[key := all[key]]
  {
  }

  /** The evaluators of the entries. */
  method CreateTable(ch: Choice, table: map<Option<string>, seq<Conjunction>>, ghost all: map<Option<string>, Evaluator>,
                     ghost bound: nat)
    returns (evaluatorTable: map<Option<string>, Evaluator>)
    requires Orders(ch) && IsTable(ch, table, all, bound)
    ensures evaluatorTable == all
    decreases bound, 0
  {
    evaluatorTable := map[];
    var keys := table.Keys;
    while keys != {}
      invariant keys <= table.Keys && evaluatorTable == Restricted(all, keys)
      decreases keys
    {
      var key :| key in keys;
      var es := CreateDisjunction(ch, table[key]);
      RestrictedLess(all, keys, key);
      evaluatorTable, keys := evaluatorTable[key := Disjunction(es)], keys - {key};
    }
  }

  // ---------- evaluation ----------

  predicate Evaluate(v: View, e: Evaluator) {
    match e
    case Always => true
    case Terms(ts) => AllHold(v.d, ts)
    case Dispatch(p, table) => v.value(p).Some? && v.value(p) in table && Evaluate(v, table[v.value(p)])
    case Disjunction(es) => exists i :: 0 <= i < |es| && Evaluate(v, es[i])
  }

  predicate SomeEvaluates(v: View, es: seq<Evaluator>) { exists i :: 0 <= i < |es| && Evaluate(v, es[i]) }

  /** What a literal asks of a document: an eligible one is looked up. */
  predicate Seen(ch: Choice, v: View, x: Literal) {
    if Eligible(ch, x) then x.term.matchValue.Some? && v.value(x.term.propertyName) == x.term.matchValue
    else LiteralHolds(v.d, x)
  }

  predicate AllSeen(ch: Choice, v: View, c: Conjunction) { forall i :: 0 <= i < |c| ==> Seen(ch, v, c[i]) }

  predicate AnySeen(ch: Choice, v: View, dnf: seq<Conjunction>) { exists c :: c in dnf && AllSeen(ch, v, c) }

  /** A conjunction on p is met exactly when the value of p is its key and the rest is met. */
  lemma HandledSeen(ch: Choice, v: View, c: Conjunction, p: string)
    requires Handles(ch, c, p)
    ensures AllSeen(ch, v, c) <==>
              v.value(p).Some? && Key(ch, c, p) == v.value(p) && AllSeen(ch, v, Rest(ch, c, p))
  {
    var k, r := First(ch, c, p), Rest(ch, c, p);
    if AllSeen(ch, v, c) {
      assert Seen(ch, v, c[k]);
      assert forall i :: 0 <= i < |r| ==> r[i] == if i < k then c[i] else c[i + 1];
    }
    if Seen(ch, v, c[k]) && AllSeen(ch, v, r) {
      forall i | 0 <= i < |c|
        ensures Seen(ch, v, c[i])
      {
        if i < k {
          assert r[i] == c[i];
        } else if i > k {
          assert r[i - 1] == c[i];
        }
      }
    }
  }

  lemma AnySeenSnoc(ch: Choice, v: View, dnf: seq<Conjunction>, c: Conjunction)
    ensures AnySeen(ch, v, dnf + [c]) <==> AnySeen(ch, v, dnf) || AllSeen(ch, v, c)
  {
    assert c in dnf + [c];
  }

  /** A dispatch splits a list: a conjunction is met if one that is left over is, or one in the
      entry of the document's value. */
  lemma {:induction false} Split(ch: Choice, v: View, dnf: seq<Conjunction>, p: string)
    ensures AnySeen(ch, v, dnf) <==>
              || AnySeen(ch, v, Unhandled(ch, dnf, p))
              || (v.value(p).Some? && AnySeen(ch, v, Entry(ch, dnf, p, v.value(p))))
  {
    if dnf != [] {
      var front, c := dnf[..|dnf| - 1], dnf[|dnf| - 1];
      Split(ch, v, front, p);
      assert dnf == front + [c];
      AnySeenSnoc(ch, v, front, c);
      if Handles(ch, c, p) {
        HandledSeen(ch, v, c, p);
        AnySeenSnoc(ch, v, Entry(ch, front, p, v.value(p)), Rest(ch, c, p));
      } else {
        AnySeenSnoc(ch, v, Unhandled(ch, front, p), c);
      }
    }
  }

  lemma {:induction false} NoEntry(ch: Choice, dnf: seq<Conjunction>, p: string, key: Option<string>)
    requires key !in Keys(ch, dnf, p)
    ensures Entry(ch, dnf, p, key) == []
  {
    if dnf != [] {
      var front, c := dnf[..|dnf| - 1], dnf[|dnf| - 1];
      assert c in dnf;
      NoEntry(ch, front, p, key);
    }
  }

  /** Once nothing is eligible, terms are evaluated as they are. */
  lemma TermsSeen(ch: Choice, v: View, c: Conjunction)
    requires !HasEligible(ch, c)
    ensures Evaluate(v, AsTerms(c)) <==> AllSeen(ch, v, c)
  {
    assert forall i :: 0 <= i < |c| ==> !Eligible(ch, c[i]);
  }

  lemma ConsEvaluates(v: View, e: Evaluator, es: seq<Evaluator>)
    ensures SomeEvaluates(v, [e] + es) <==> Evaluate(v, e) || SomeEvaluates(v, es)
  {
    var all := [e] + es;
    assert all[0] == e;
    if SomeEvaluates(v, es) {
      var i :| 0 <= i < |es| && Evaluate(v, es[i]);
      assert all[i + 1] == es[i];
    }
  }

  /** Whatever property each list is dispatched on, the evaluator tree accepts exactly the
      documents that meet some conjunction. */
  lemma {:induction false} TreeIsDisjunction(ch: Choice, v: View, dnf: seq<Conjunction>)
    requires Orders(ch)
    ensures SomeEvaluates(v, Create(ch, dnf)) <==> AnySeen(ch, v, dnf)
    decreases Weight(ch, dnf), 1
  {
    if SomeEligible(ch, dnf) {
      var p := Top(ch, dnf);
      var left := Unhandled(ch, dnf, p);
      TreeIsDisjunction(ch, v, left);
      TableIsEntry(ch, v, dnf, p);
      Split(ch, v, dnf, p);
      ConsEvaluates(v, Dispatch(p, Table(ch, dnf, p)), Create(ch, left));
    } else {
      forall i | 0 <= i < |dnf|
        ensures Evaluate(v, Create(ch, dnf)[i]) <==> AllSeen(ch, v, dnf[i])
      {
        TermsSeen(ch, v, dnf[i]);
      }
      assert forall i :: 0 <= i < |dnf| ==> dnf[i] in dnf;
    }
  }

  lemma LookedUp(v: View, p: string, table: map<Option<string>, Evaluator>, es: seq<Evaluator>)
    requires v.value(p) in table && table[v.value(p)] == Disjunction(es)
    ensures Evaluate(v, Dispatch(p, table)) <==> v.value(p).Some? && SomeEvaluates(v, es)
  {
  }

  lemma {:induction false} TableIsEntry(ch: Choice, v: View, dnf: seq<Conjunction>, p: string)
    requires Orders(ch)
    ensures Evaluate(v, Dispatch(p, Table(ch, dnf, p))) <==>
              v.value(p).Some? && AnySeen(ch, v, Entry(ch, dnf, p, v.value(p)))
    decreases Weight(ch, dnf), 0
  {
    var key, table := v.value(p), Table(ch, dnf, p);
    if key in Keys(ch, dnf, p) {
      var entry := Entry(ch, dnf, p, key);
      TreeIsDisjunction(ch, v, entry);
      LookedUp(v, p, table, Create(ch, entry));
    } else {
      NoEntry(ch, dnf, p, key);
    }
  }

  // ---------- what the tables take over ----------

  /** No conjunction that is evaluated term by term fixes a flat property to a whole value, at any
      depth of the tree. */
  predicate Exhausted(ch: Choice, e: Evaluator) {
    match e
    case Always => true
    case Terms(ts) =>
      forall i :: 0 <= i < |ts| ==>
        ts[i].negate || ts[i].term.matchType != Some(ExactTerm) || !ch.flat(ts[i].term.propertyName)
    case Dispatch(_, table) => forall key :: key in table ==> Exhausted(ch, table[key])
    case Disjunction(es) => forall i :: 0 <= i < |es| ==> Exhausted(ch, es[i])
  }

  /** Every term that can be looked up in a table is. */
  lemma {:induction false} TablesTakeAll(ch: Choice, dnf: seq<Conjunction>)
    requires Orders(ch)
    ensures Exhausted(ch, Disjunction(Create(ch, dnf)))
    decreases Weight(ch, dnf), 1
  {
    if SomeEligible(ch, dnf) {
      var p := Top(ch, dnf);
      var left := Unhandled(ch, dnf, p);
      TablesTakeAll(ch, left);
      TableTakesAll(ch, dnf, p);
      assert forall i :: 0 < i < |Create(ch, dnf)| ==> Create(ch, dnf)[i] == Create(ch, left)[i - 1];
    } else {
      forall i | 0 <= i < |dnf|
        ensures Exhausted(ch, Create(ch, dnf)[i])
      {
        assert !HasEligible(ch, dnf[i]);
        assert forall k :: 0 <= k < |dnf[i]| ==> !Eligible(ch, dnf[i][k]);
      }
    }
  }

  lemma {:induction false} TableTakesAll(ch: Choice, dnf: seq<Conjunction>, p: string)
    requires Orders(ch)
    ensures Exhausted(ch, Dispatch(p, Table(ch, dnf, p)))
    decreases Weight(ch, dnf), 0
  {
    var table := Table(ch, dnf, p);
    forall key | key in table
      ensures Exhausted(ch, table[key])
    {
      TablesTakeAll(ch, Entry(ch, dnf, p, key));
    }
  }
}
