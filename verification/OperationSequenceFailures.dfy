/**
 Which failures of earlier levels a cumulative handler is given (OperationSequence.getAllFailures).

 The nearest failure map that exists is extended in place and handed to the handler, so only that
 map is emptied by a handler that leaves no failure; the maps above it keep theirs.
 */
module OperationSequenceFailures {
  import opened Common
  import opened OperationSequence
  import J = OperationJoin

  /** Emptying the map it was given, the handler of level m empties the map of level j: its own
      map, or for a cumulative handler the nearest above if no level in between failed. */
  predicate Empties(ls: seq<Level>, joins: seq<J.State>, m: nat, j: nat)
    requires j <= m < |ls| == |joins|
  {
    ls[m].hasHandler
    && (m == j || (ls[m].cumulative && forall l :: j < l <= m ==> !J.AnyFailed(joins[l].phase)))
  }

  /** The failures of level j were taken away before level i finished. */
  predicate Emptied(ls: seq<Level>, joins: seq<J.State>, j: nat, i: nat)
    requires j <= i <= |ls| == |joins|
  {
    exists m :: j <= m < i && Empties(ls, joins, m, j)
  }

  /** The failure map object of level j when the levels before i have finished and none of them
      stopped the chain. */
  ghost function Kept(ls: seq<Level>, joins: seq<J.State>, j: nat, i: nat): Option<FailureMap>
    requires j <= i <= |ls| == |joins| && j < |ls| && joins[j].fired != []
  {
    if !J.AnyFailed(joins[j].phase) then None
    else Some(if Emptied(ls, joins, j, i) then map[] else Lift(j, joins[j].fired[0]))
  }

  /** The levels before n have finished, and no other. */
  ghost predicate Frontier(ls: seq<Level>, s: State, n: nat) {
    && Shape(ls, s) && n <= |ls|
    && (forall j :: 0 <= j < n ==> Finished(s, j))
    && (forall j :: n <= j < |ls| ==> !Finished(s, j))
  }

  ghost predicate KeptAt(ls: seq<Level>, s: State, j: nat, n: nat)
    requires Frontier(ls, s, n) && j < |ls|
  {
    s.residue[j] == if j < n then assert Finished(s, j); Kept(ls, s.joins, j, n) else None
  }

  ghost predicate KeptUpTo(ls: seq<Level>, s: State, n: nat) {
    Frontier(ls, s, n) && forall j :: 0 <= j < |ls| ==> KeptAt(ls, s, j, n)
  }

  ghost predicate KeptInv(ls: seq<Level>, s: State) {
    Shape(ls, s) && (Live(s) ==> exists n: nat :: KeptUpTo(ls, s, n))
  }

  // ---------- outcomes do not change once a level has finished ----------

  lemma EmptiedSame(ls: seq<Level>, x: seq<J.State>, y: seq<J.State>, j: nat, i: nat)
    requires j <= i <= |ls| == |x| == |y|
    requires forall l :: j <= l < i ==> SameOutcome(x[l], y[l])
    ensures Emptied(ls, x, j, i) <==> Emptied(ls, y, j, i)
  {
    forall m | j <= m < i
      ensures Empties(ls, x, m, j) <==> Empties(ls, y, m, j)
    {
      assert forall l :: j < l <= m ==> SameOutcome(x[l], y[l]);
    }
  }

  lemma KeptSame(ls: seq<Level>, x: seq<J.State>, y: seq<J.State>, j: nat, i: nat)
    requires j < i <= |ls| == |x| == |y| && x[j].fired != []
    requires forall l :: j <= l < i ==> SameOutcome(x[l], y[l])
    ensures y[j].fired != [] && Kept(ls, x, j, i) == Kept(ls, y, j, i)
  {
    assert SameOutcome(x[j], y[j]);
    EmptiedSame(ls, x, y, j, i);
  }

  // ---------- one level finishes ----------

  lemma FrontierAt(ls: seq<Level>, s: State, i: nat)
    requires ChainInv(ls, s) && i < |ls| && s.started[i] && !Finished(s, i)
    ensures Frontier(ls, s, i)
  {
    forall j | 0 <= j < |ls|
      ensures Finished(s, j) <==> j < i
    {
      assert LevelInv(ls, s, j);
      if j < i {
        StartedAbove(ls, s, i, j);
      } else if i < j && s.started[j] {
        StartedAbove(ls, s, j, i);
      }
    }
  }

  lemma FrontierUnique(ls: seq<Level>, s: State, m: nat, n: nat)
    requires Frontier(ls, s, m) && Frontier(ls, s, n)
    ensures m == n
  {
    assert m < |ls| ==> !Finished(s, m);
    assert n < |ls| ==> !Finished(s, n);
  }

  lemma EmptiedNext(ls: seq<Level>, joins: seq<J.State>, j: nat, i: nat)
    requires j <= i < |ls| == |joins|
    ensures Emptied(ls, joins, j, i + 1) <==> Emptied(ls, joins, j, i) || Empties(ls, joins, i, j)
  {
    if Empties(ls, joins, i, j) {
      assert j <= i < i + 1;
    }
  }

  /** The maps before the handler of level i is called. */
  ghost predicate Before(ls: seq<Level>, r: seq<Option<FailureMap>>, joins: seq<J.State>, i: nat) {
    && i < |ls| == |r| == |joins|
    && (forall j :: 0 <= j <= i ==> joins[j].fired != [])
    && (forall j :: 0 <= j <= i ==> r[j] == Kept(ls, joins, j, i))
  }

  lemma NotYetEmptied(ls: seq<Level>, joins: seq<J.State>, i: nat)
    requires i < |ls| == |joins|
    ensures !Emptied(ls, joins, i, i)
  {
  }

  /** A map is emptied by the handler of level i exactly if it is the one handed to it. */
  lemma HandedEmpties(ls: seq<Level>, r: seq<Option<FailureMap>>, joins: seq<J.State>, i: nat, j: nat)
    requires Before(ls, r, joins, i) && j <= i && J.AnyFailed(joins[j].phase) && ls[i].hasHandler
    ensures Handed(ls, r, i) == Some(j) <==> Empties(ls, joins, i, j)
  {
    assert r[j].Some?;
    assert forall l :: 0 <= l <= i ==> (r[l].Some? <==> J.AnyFailed(joins[l].phase));
  }

  /** The maps after a handler that left no failure, or after a level without a handler. */
  lemma KeptNext(ls: seq<Level>, r: seq<Option<FailureMap>>, joins: seq<J.State>, i: nat, j: nat)
    requires Before(ls, r, joins, i) && j <= i
    ensures
      var emptied := ls[i].hasHandler && Handed(ls, r, i) == Some(j);
      Kept(ls, joins, j, i + 1) == if emptied then Some(map[]) else r[j]
  {
    EmptiedNext(ls, joins, j, i);
    if J.AnyFailed(joins[j].phase) && ls[i].hasHandler {
      HandedEmpties(ls, r, joins, i, j);
    } else {
      assert Handed(ls, r, i) == Some(j) ==> r[j].Some?;
    }
  }

  lemma KeptHomed(ls: seq<Level>, r: seq<Option<FailureMap>>, joins: seq<J.State>, i: nat)
    requires Before(ls, r, joins, i) && forall j :: i < j < |r| ==> r[j].None?
    ensures Homed(r)
  {
    forall j, op | 0 <= j < |r| && r[j].Some? && op in r[j].value
      ensures op.level == j
    {
      assert j <= i;
    }
  }

  /** What the handler of a level sees of an earlier one. */
  ghost predicate SeesEarlier(ls: seq<Level>, joins: seq<J.State>, v: Option<FailureMap>, i: nat, j: nat)
    requires j < i < |ls| == |joins|
  {
    joins[j].fired != []
    && forall k: nat :: ErrorIn(v, Op(j, k)) == if Emptied(ls, joins, j, i) then None else Lookup(joins[j].fired[0], k)
  }

  lemma LiftHas(j: nat, m: map<nat, int>, k: nat)
    ensures ErrorIn(Some(Lift(j, m)), Op(j, k)) == Lookup(m, k)
  {
    assert Op(j, k) in Lift(j, m) <==> k in m;
  }

  lemma ViewOfEarlier(ls: seq<Level>, r: seq<Option<FailureMap>>, joins: seq<J.State>, i: nat, j: nat)
    requires Before(ls, r, joins, i) && (forall l :: i < l < |r| ==> r[l].None?) && j < i
    requires joins[j].fired[0] != map[] <==> J.AnyFailed(joins[j].phase)
    ensures SeesEarlier(ls, joins, Merged(r, i + 1), i, j)
  {
    KeptHomed(ls, r, joins, i);
    forall k: nat
      ensures ErrorIn(Merged(r, i + 1), Op(j, k)) == if Emptied(ls, joins, j, i) then None else Lookup(joins[j].fired[0], k)
    {
      MergedOwn(r, i + 1, Op(j, k));
      LiftHas(j, joins[j].fired[0], k);
      assert r[j] == Kept(ls, joins, j, i);
    }
  }

  // ---------- every run ----------

  lemma KeptCarries(ls: seq<Level>, s: State, t: State, n: nat)
    requires KeptUpTo(ls, s, n) && Shape(ls, t) && t.residue == s.residue
    requires forall l :: 0 <= l < n ==> SameOutcome(s.joins[l], t.joins[l])
    requires forall l :: n <= l < |ls| ==> t.joins[l].fired == []
    ensures KeptUpTo(ls, t, n)
  {
    forall j | 0 <= j < n
      ensures Finished(t, j)
    {
      assert Finished(s, j) && SameOutcome(s.joins[j], t.joins[j]);
    }
    assert Frontier(ls, t, n);
    forall j | 0 <= j < |ls|
      ensures KeptAt(ls, t, j, n)
    {
      assert KeptAt(ls, s, j, n);
      if j < n {
        assert Finished(s, j);
        KeptSame(ls, s.joins, t.joins, j, n);
      }
    }
  }

  lemma InLevelKept(ls: seq<Level>, s: State, a: Action)
    requires Inv(ls, s) && KeptInv(ls, s) && Enabled(ls, s, a) && a.InLevel?
    ensures KeptInv(ls, Step(ls, s, a))
  {
    var t := Step(ls, s, a);
    QuietStep(ls[a.i].config, s.joins[a.i], a.a);
    assert Shape(ls, t) && (Live(t) ==> Live(s));
    if Live(s) {
      var n: nat :| KeptUpTo(ls, s, n);
      forall l | 0 <= l < |ls|
        ensures l < n ==> SameOutcome(s.joins[l], t.joins[l])
        ensures l >= n ==> t.joins[l].fired == []
      {
        if l < n {
          StepKeeps(ls, s, a, l);
        } else {
          assert !Finished(s, l);
        }
      }
      KeptCarries(ls, s, t, n);
    }
  }

  lemma FinishFrontier(ls: seq<Level>, s: State, a: Action)
    requires Inv(ls, s) && KeptInv(ls, s) && Enabled(ls, s, a) && a.Finish?
    ensures KeptUpTo(ls, s, a.i) && Frontier(ls, Step(ls, s, a), a.i + 1)
    ensures Step(ls, s, a).joins[a.i].fired == [s.joins[a.i].failures]
    ensures s.joins[a.i].failures != map[] <==> J.AnyFailed(Step(ls, s, a).joins[a.i].phase)
  {
    var i, t := a.i, Step(ls, s, a);
    FireStep(ls[i].config, s.joins[i], a.k);
    LiveBefore(ls, s, i);
    FrontierAt(ls, s, i);
    var n: nat :| KeptUpTo(ls, s, n);
    FrontierUnique(ls, s, n, i);
    forall j | 0 <= j < |ls|
      ensures Finished(t, j) <==> j < i + 1
    {
      assert Finished(s, j) <==> j < i;
    }
  }

  /** When level i finishes, the maps are those kept, and its own. */
  lemma FinishBefore(ls: seq<Level>, s: State, a: Action)
    requires Inv(ls, s) && KeptInv(ls, s) && Enabled(ls, s, a) && a.Finish?
    ensures
      var r, t := s.residue[a.i := Own(a.i, s.joins[a.i].failures)], Step(ls, s, a);
      && Frontier(ls, t, a.i + 1)
      && Before(ls, r, t.joins, a.i)
      && (forall l :: a.i < l < |r| ==> r[l].None?)
  {
    FinishFrontier(ls, s, a);
    OwnIsKept(ls, s, Step(ls, s, a).joins, a.i);
  }

  lemma OwnIsKept(ls: seq<Level>, s: State, joins: seq<J.State>, i: nat)
    requires KeptUpTo(ls, s, i) && i < |ls| == |joins| && joins == s.joins[i := joins[i]]
    requires joins[i].fired == [s.joins[i].failures] && (s.joins[i].failures != map[] <==> J.AnyFailed(joins[i].phase))
    ensures
      var r := s.residue[i := Own(i, s.joins[i].failures)];
      Before(ls, r, joins, i) && forall l :: i < l < |r| ==> r[l].None?
  {
    var r := s.residue[i := Own(i, s.joins[i].failures)];
    forall j | 0 <= j <= i
      ensures joins[j].fired != [] && r[j] == Kept(ls, joins, j, i)
    {
      if j < i {
        assert Finished(s, j) && KeptAt(ls, s, j, i);
        KeptSame(ls, s.joins, joins, j, i);
      } else {
        NotYetEmptied(ls, joins, i);
      }
    }
    forall l | i < l < |r|
      ensures r[l].None?
    {
      assert KeptAt(ls, s, l, i);
    }
  }

  /** The map of each level after the completion proxy of level i went on. */
  lemma NextResidue(ls: seq<Level>, r: seq<Option<FailureMap>>, joins: seq<J.State>, i: nat, after: FailureMap, j: nat)
    requires Before(ls, r, joins, i) && Proceeds(Proxy(ls, r, i, after)) && j < |ls| && (j > i ==> r[j].None?)
    ensures
      var handed := Proxy(ls, r, i, after).called && Handed(ls, r, i).Some?;
      var r' := if handed then r[Handed(ls, r, i).value := Some(after)] else r;
      r'[j] == if j <= i then Kept(ls, joins, j, i + 1) else None
  {
    if j <= i {
      KeptNext(ls, r, joins, i, j);
    }
  }

  lemma KeptAfter(ls: seq<Level>, r: seq<Option<FailureMap>>, t: State, i: nat, after: FailureMap)
    requires i < |ls| && Frontier(ls, t, i + 1) && Before(ls, r, t.joins, i) && Proceeds(Proxy(ls, r, i, after))
    requires forall l :: i < l < |r| ==> r[l].None?
    requires
      var handed := Proxy(ls, r, i, after).called && Handed(ls, r, i).Some?;
      t.residue == if handed then r[Handed(ls, r, i).value := Some(after)] else r
    ensures KeptUpTo(ls, t, i + 1)
  {
    var n := i + 1;
    forall j | 0 <= j < |ls|
      ensures KeptAt(ls, t, j, n)
    {
      NextResidue(ls, r, t.joins, i, after, j);
    }
  }

  lemma FinishKept(ls: seq<Level>, s: State, a: Action)
    requires Inv(ls, s) && KeptInv(ls, s) && Enabled(ls, s, a) && a.Finish?
    ensures KeptInv(ls, Step(ls, s, a))
  {
    var i, t := a.i, Step(ls, s, a);
    var r := s.residue[i := Own(i, s.joins[i].failures)];
    FinishBefore(ls, s, a);
    if Live(t) {
      assert Proceeds(t.verdict[i]);
      KeptAfter(ls, r, t, i, a.after);
    }
  }

  lemma StepKept(ls: seq<Level>, s: State, a: Action)
    requires Inv(ls, s) && KeptInv(ls, s) && Enabled(ls, s, a)
    ensures KeptInv(ls, Step(ls, s, a))
  {
    if a.InLevel? {
      InLevelKept(ls, s, a);
    } else {
      FinishKept(ls, s, a);
    }
  }

  ghost predicate Cumulates(ls: seq<Level>, s: State, i: nat)
    requires Shape(ls, s) && i < |ls|
  {
    ls[i].cumulative && s.verdict[i].Returned? && s.verdict[i].called
  }

  ghost predicate EarlierInv(ls: seq<Level>, s: State) {
    && Shape(ls, s)
    && (forall i, j :: 0 <= j < i < |ls| && Cumulates(ls, s, i) ==> SeesEarlier(ls, s.joins, s.verdict[i].failures, i, j))
  }

  lemma SeesSame(ls: seq<Level>, x: seq<J.State>, y: seq<J.State>, v: Option<FailureMap>, i: nat, j: nat)
    requires j < i < |ls| == |x| == |y| && SeesEarlier(ls, x, v, i, j)
    requires forall l :: j <= l < i ==> SameOutcome(x[l], y[l])
    ensures SeesEarlier(ls, y, v, i, j)
  {
    assert SameOutcome(x[j], y[j]);
    EmptiedSame(ls, x, y, j, i);
  }

  lemma AllBelowFinished(ls: seq<Level>, s: State, i: nat, l: nat)
    requires ChainInv(ls, s) && l < i < |ls| && s.verdict[i].Returned?
    ensures Finished(s, l)
  {
    assert LevelInv(ls, s, i);
    StartedAbove(ls, s, i, l);
  }

  /** What was seen stays what it was. */
  lemma SeenStays(ls: seq<Level>, s: State, a: Action, i: nat, j: nat)
    requires Inv(ls, s) && Enabled(ls, s, a) && j < i < |ls| && s.verdict[i].Returned?
    requires SeesEarlier(ls, s.joins, s.verdict[i].failures, i, j)
    ensures
      var t := Step(ls, s, a);
      Shape(ls, t) && SeesEarlier(ls, t.joins, s.verdict[i].failures, i, j)
  {
    var x, y := s.joins, Step(ls, s, a).joins;
    forall l | j <= l < i
      ensures SameOutcome(x[l], y[l])
    {
      AllBelowFinished(ls, s, i, l);
      StepKeeps(ls, s, a, l);
    }
    SeesSame(ls, x, y, s.verdict[i].failures, i, j);
  }

  lemma FailuresExactly(ls: seq<Level>, s: State, j: nat)
    requires JoinsInv(ls, s) && j < |ls| && Finished(s, j)
    ensures s.joins[j].fired[0] != map[] <==> J.AnyFailed(s.joins[j].phase)
  {
    assert s.joins[j].fired[0] in s.joins[j].fired;
    J.FiringFailures(s.joins[j]);
  }

  lemma FailedBefore(ls: seq<Level>, s: State, a: Action, j: nat)
    requires JoinsInv(ls, s) && Enabled(ls, s, a) && a.Finish? && j < a.i && Finished(Step(ls, s, a), j)
    ensures Step(ls, s, a).joins[j].fired[0] != map[] <==> J.AnyFailed(Step(ls, s, a).joins[j].phase)
  {
    JoinsStep(ls, s, a);
    FailuresExactly(ls, Step(ls, s, a), j);
  }

  lemma FinishSees(ls: seq<Level>, s: State, a: Action, j: nat)
    requires Inv(ls, s) && KeptInv(ls, s) && Enabled(ls, s, a) && a.Finish? && j < a.i
    requires Shape(ls, Step(ls, s, a)) && Cumulates(ls, Step(ls, s, a), a.i)
    ensures SeesEarlier(ls, Step(ls, s, a).joins, Step(ls, s, a).verdict[a.i].failures, a.i, j)
  {
    var i, t := a.i, Step(ls, s, a);
    FinishBefore(ls, s, a);
    FailedBefore(ls, s, a, j);
    ViewOfEarlier(ls, s.residue[i := Own(i, s.joins[i].failures)], t.joins, i, j);
  }

  lemma StepEarlier(ls: seq<Level>, s: State, a: Action)
    requires Inv(ls, s) && KeptInv(ls, s) && EarlierInv(ls, s) && Enabled(ls, s, a)
    ensures EarlierInv(ls, Step(ls, s, a))
  {
    var t := Step(ls, s, a);
    forall i, j | 0 <= j < i < |ls| && Cumulates(ls, t, i)
      ensures SeesEarlier(ls, t.joins, t.verdict[i].failures, i, j)
    {
      if a.Finish? && a.i == i {
        FinishSees(ls, s, a, j);
      } else {
        assert Cumulates(ls, s, i);
        SeenStays(ls, s, a, i, j);
      }
    }
  }

  lemma InitKept(ls: seq<Level>)
    requires Valid(ls)
    ensures KeptInv(ls, Init(ls)) && EarlierInv(ls, Init(ls))
  {
    var s := Init(ls);
    assert Frontier(ls, s, 0);
    assert KeptUpTo(ls, s, 0);
  }

  lemma {:induction false} RunEarlier(ls: seq<Level>, s: State, run: seq<Action>)
    requires Inv(ls, s) && KeptInv(ls, s) && EarlierInv(ls, s) && Legal(ls, s, run)
    ensures EarlierInv(ls, Exec(ls, s, run))
    decreases |run|
  {
    if run != [] {
      StepKept(ls, s, run[0]);
      StepEarlier(ls, s, run[0]);
      StepInv(ls, s, run[0]);
      RunEarlier(ls, Step(ls, s, run[0]), run[1..]);
    }
  }

  /** The failure map a cumulative handler of level i is given names an operation of an earlier
      level j, with its error, if and only if it failed and no handler in between emptied the map of
      level j: neither the handler of level j, nor a cumulative one with no failed level between. */
  lemma CumulativeFailures(ls: seq<Level>, run: seq<Action>, i: nat, j: nat, k: nat)
    requires Valid(ls) && Legal(ls, Init(ls), run) && j < i < |ls| && k < ls[j].config.count
    requires Shape(ls, Exec(ls, Init(ls), run)) && Cumulates(ls, Exec(ls, Init(ls), run), i)
    ensures
      var s := Exec(ls, Init(ls), run);
      && k < |s.joins[j].phase|
      && ErrorIn(s.verdict[i].failures, Op(j, k))
         == if Emptied(ls, s.joins, j, i) then None else ErrorOf(s.joins[j].phase[k])
  {
    InitInv(ls);
    InitKept(ls);
    RunInv(ls, Init(ls), run);
    RunEarlier(ls, Init(ls), run);
    var s := Exec(ls, Init(ls), run);
    assert SeesEarlier(ls, s.joins, s.verdict[i].failures, i, j);
    FiredExactly(ls[j].config, s.joins[j], k);
  }

  /** What a level that finished did, for what its handler made of the failure map it was given: it
      returned early exactly when one of its operations failed and a later level asks to abort;
      otherwise it called its handler if it has one, and failures are left exactly if the handler
      had a map, of its own level or for a cumulative one of any level so far, and left some. */
  ghost predicate Decided(ls: seq<Level>, t: State, i: nat, after: FailureMap)
    requires Shape(ls, t) && i < |ls|
  {
    var failed := J.AnyFailed(t.joins[i].phase);
    var given := failed || (ls[i].cumulative && exists j :: 0 <= j < i && J.AnyFailed(t.joins[j].phase));
    var aborts := failed && exists j :: i < j < |ls| && ls[j].abort;
    var leaves := ls[i].hasHandler && given && after != map[];
    && (t.verdict[i].Aborted? <==> aborts)
    && (t.verdict[i].Returned? <==> !aborts)
    && (!aborts ==> t.verdict[i].called == ls[i].hasHandler && t.verdict[i].left == leaves)
    && (i + 1 < |ls| ==> (t.started[i + 1] <==> !aborts && !leaves))
  }

  /** Whatever happened before, the step in which a level finishes decides about its handler and
      about the next level as `Decided` says. */
  lemma FinishExactly(ls: seq<Level>, run: seq<Action>, a: Action)
    requires Valid(ls) && Legal(ls, Init(ls), run) && Enabled(ls, Exec(ls, Init(ls), run), a) && a.Finish?
    ensures
      var t := Step(ls, Exec(ls, Init(ls), run), a);
      Shape(ls, t) && Decided(ls, t, a.i, a.after)
  {
    InitInv(ls);
    InitKept(ls);
    RunInv(ls, Init(ls), run);
    RunKept(ls, Init(ls), run);
    FinishVerdict(ls, Exec(ls, Init(ls), run), a);
  }

  lemma {:induction false} RunKept(ls: seq<Level>, s: State, run: seq<Action>)
    requires Inv(ls, s) && KeptInv(ls, s) && Legal(ls, s, run)
    ensures KeptInv(ls, Exec(ls, s, run))
    decreases |run|
  {
    if run != [] {
      StepKept(ls, s, run[0]);
      StepInv(ls, s, run[0]);
      RunKept(ls, Step(ls, s, run[0]), run[1..]);
    }
  }

  /** A handler is handed a map exactly when a level whose failures it is given failed. */
  lemma HandedExactly(ls: seq<Level>, r: seq<Option<FailureMap>>, joins: seq<J.State>, i: nat)
    requires Before(ls, r, joins, i)
    ensures Handed(ls, r, i).Some? <==>
              J.AnyFailed(joins[i].phase) || (ls[i].cumulative && exists j :: 0 <= j < i && J.AnyFailed(joins[j].phase))
    ensures r[i].Some? && r[i].value != map[] <==> J.AnyFailed(joins[i].phase) && joins[i].fired[0] != map[]
  {
    assert forall l :: 0 <= l <= i ==> (r[l].Some? <==> J.AnyFailed(joins[l].phase));
    NotYetEmptied(ls, joins, i);
    LiftEmpty(i, joins[i].fired[0]);
  }

  lemma FinishVerdict(ls: seq<Level>, s: State, a: Action)
    requires Inv(ls, s) && KeptInv(ls, s) && Enabled(ls, s, a) && a.Finish?
    ensures
      var t := Step(ls, s, a);
      Shape(ls, t) && Decided(ls, t, a.i, a.after)
  {
    var i, t := a.i, Step(ls, s, a);
    var r := s.residue[i := Own(i, s.joins[i].failures)];
    FinishFrontier(ls, s, a);
    FinishBefore(ls, s, a);
    StepInv(ls, s, a);
    HandedExactly(ls, r, t.joins, i);
    assert t.verdict[i] == Proxy(ls, r, i, a.after);
  }

  /** A failure that the handler of level 1 was given, and took out of its map, is given to the
      handler of level 2 again: it is still in the map of level 0, which has no handler. */
  lemma FailureComesBack(ls: seq<Level>, run: seq<Action>, k: nat)
    requires |ls| == 3 && Valid(ls) && Legal(ls, Init(ls), run) && k < ls[0].config.count
    requires !ls[0].hasHandler && ls[1].cumulative
    requires
      var s := Exec(ls, Init(ls), run);
      && Shape(ls, s) && Cumulates(ls, s, 1) && Cumulates(ls, s, 2)
      && k < |s.joins[0].phase| && J.FailedPhase(s.joins[0].phase[k]) && J.AnyFailed(s.joins[1].phase)
    ensures
      var s := Exec(ls, Init(ls), run);
      && ErrorIn(s.verdict[1].failures, Op(0, k)) == ErrorOf(s.joins[0].phase[k])
      && ErrorIn(s.verdict[2].failures, Op(0, k)) == ErrorOf(s.joins[0].phase[k])
  {
    CumulativeFailures(ls, run, 1, 0, k);
    CumulativeFailures(ls, run, 2, 0, k);
  }

  /** Three levels of one operation each: the first without a handler, the others cumulative. */
  function ThreeLevels(): seq<Level> {
    [Level(ONE, false, false, false), Level(ONE, true, true, false), Level(ONE, true, true, false)]
  }

  /** The chain when level i has just failed and finished, leaving no failure. */
  ghost predicate FailedUpTo(s: State, i: nat) {
    && Shape(ThreeLevels(), s) && i < 3
    && (forall l :: 0 <= l <= i ==>
          && |s.joins[l].phase| == 1 && J.FailedPhase(s.joins[l].phase[0])
          && s.verdict[l].Returned? && s.verdict[l].called == (l > 0))
    && (i < 2 ==> s.started[i + 1])
    && (forall l :: i < l < 3 ==> s.joins[l] == J.Init(ONE))
  }

  /** One more level fails and finishes. */
  lemma NextFails(s: State, i: nat, error: int)
    requires Shape(ThreeLevels(), s) && i < 3 && s.started[i] && s.joins[i] == J.Init(ONE)
    requires i > 0 ==> FailedUpTo(s, i - 1)
    requires i == 0 ==> forall l :: 0 <= l < 3 ==> s.joins[l] == J.Init(ONE)
    ensures
      var m, a := With(s, i, FailedJoin(error)), Finish(i, 0, map[]);
      Enabled(ThreeLevels(), m, a) && FailedUpTo(Step(ThreeLevels(), m, a), i)
  {
    var ls := ThreeLevels();
    assert forall l :: 0 <= l < 3 ==> !ls[l].abort && ls[l].config == ONE && ls[l].hasHandler == (l > 0);
    FinishFailed(ls, With(s, i, FailedJoin(error)), i, error);
  }

  /** The levels from i on fail one after the other. */
  lemma {:induction false} RestFails(s: State, i: nat, errors: seq<int>) returns (run: seq<Action>)
    requires |errors| == 3 && Shape(ThreeLevels(), s) && i < 3 && s.started[i]
    requires i > 0 ==> FailedUpTo(s, i - 1)
    requires i == 0 ==> forall l :: 0 <= l < 3 ==> s.joins[l] == J.Init(ONE)
    ensures Legal(ThreeLevels(), s, run) && FailedUpTo(Exec(ThreeLevels(), s, run), 2)
    decreases 3 - i
  {
    var ls := ThreeLevels();
    var m, a := With(s, i, FailedJoin(errors[i])), Finish(i, 0, map[]);
    assert s.joins[i] == J.Init(ONE) && ls[i].config == ONE;
    NextFails(s, i, errors[i]);
    run := [];
    if i < 2 {
      run := RestFails(Step(ls, m, a), i + 1, errors);
    }
    LegalCons(ls, m, a, run);
    run := LevelFails(ls, s, i, errors[i], [a] + run);
  }

  /** The witness for FailureComesBack: a run of three levels whose operations all fail. */
  lemma FailureComesBackRun(errors: seq<int>) returns (run: seq<Action>)
    requires |errors| == 3
    ensures Valid(ThreeLevels()) && Legal(ThreeLevels(), Init(ThreeLevels()), run)
    ensures
      var s := Exec(ThreeLevels(), Init(ThreeLevels()), run);
      && Shape(ThreeLevels(), s) && s.verdict[1].Returned? && s.verdict[2].Returned?
      && ErrorIn(s.verdict[1].failures, Op(0, 0)).Some?
      && ErrorIn(s.verdict[2].failures, Op(0, 0)).Some?
  {
    var ls := ThreeLevels();
    run := RestFails(Init(ls), 0, errors);
    assert J.FailedPhase(Exec(ls, Init(ls), run).joins[1].phase[0]);
    FailureComesBack(ls, run, 0);
  }
}
