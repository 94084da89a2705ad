/**
 Chaining joins in levels (OperationSequence).

 The sequence is a linear chain, so a level is an index: its parent is the level before
 it and its child the level after it.  A run interleaves the
 atomic actions of all levels that were sent; the action that fires the join of a
 level also runs its completion proxy, which may call the level's handler and
 send the child level.
 */
module OperationSequence {
  import opened Common
  import J = OperationJoin

  datatype Op = Op(level: nat, index: nat)

  type FailureMap = map<Op, int>

  /** `config` is the level's join; `hasHandler` tells whether setCompletion was called. */
  datatype Level = Level(config: J.Config, hasHandler: bool, cumulative: bool, abort: bool)

  /** What the completion proxy of a level did: not run yet, returned early because a
      later level asks to abort, or returned after the handler (if any) was called with
      `ops` and `failures`; `left` tells whether the handler left failures behind. */
  datatype Verdict =
    | Waiting
    | Aborted
    | Returned(called: bool, ops: set<Op>, failures: Option<FailureMap>, left: bool)

  datatype State = State(
    joins: seq<J.State>,
    started: seq<bool>,
    residue: seq<Option<FailureMap>>,  // the failure map object of each level; None is null
    verdict: seq<Verdict>)

  /** `after` is what the user's handler makes of the failure map it is given. */
  datatype Action =
    | InLevel(i: nat, a: J.Action)
    | Finish(i: nat, k: nat, after: FailureMap)

  ghost predicate Valid(ls: seq<Level>) {
    ls != [] && forall i :: 0 <= i < |ls| ==> ls[i].config.Valid()
  }

  function Init(ls: seq<Level>): State {
    State(seq(|ls|, i requires 0 <= i < |ls| => J.Init(ls[i].config)),
          seq(|ls|, i => i == 0),
          seq(|ls|, _ => None),
          seq(|ls|, _ => Waiting))
  }

  predicate Shape(ls: seq<Level>, s: State) {
    |s.joins| == |s.started| == |s.residue| == |s.verdict| == |ls|
  }

  predicate Enabled(ls: seq<Level>, s: State, a: Action) {
    && Shape(ls, s)
    && a.i < |ls|
    && s.started[a.i]
    && match a
       case InLevel(i, b) => !b.Fire? && J.Enabled(ls[i].config, s.joins[i], b)
       case Finish(i, k, _) => J.Enabled(ls[i].config, s.joins[i], J.Fire(k))
  }

  // ---------- the completion proxy ----------

  /** hasAbortOnFirstFailureInChildSequences: only strictly later levels are asked. */
  predicate AbortLater(ls: seq<Level>, i: nat) {
    exists j :: i < j < |ls| && ls[j].abort
  }

  function OwnOps(ls: seq<Level>, i: nat): set<Op>
    requires i < |ls|
  {
    set k | 0 <= k < ls[i].config.count :: Op(i, k)
  }

  /** The operations of levels 0..i. */
  function OpsUpTo(ls: seq<Level>, i: nat): set<Op>
    requires i < |ls|
  {
    OwnOps(ls, i) + (if i == 0 then {} else OpsUpTo(ls, i - 1))
  }

  /** The nearest of the levels before `n` whose failure map is not null. */
  function Owner(r: seq<Option<FailureMap>>, n: nat): (j: Option<nat>)
    requires n <= |r|
    ensures j.Some? ==> j.value < n && r[j.value].Some? && forall k :: j.value < k < n ==> r[k].None?
    ensures j.None? ==> forall k :: 0 <= k < n ==> r[k].None?
  {
    if n == 0 then None else if r[n - 1].Some? then Some(n - 1) else Owner(r, n - 1)
  }

  function Append(a: Option<FailureMap>, b: Option<FailureMap>): Option<FailureMap> {
    if a.None? then b else if b.None? then a else Some(a.value + b.value)
  }

  /** The union of the failure maps of the levels before `n`, null when all of them are. */
  function Merged(r: seq<Option<FailureMap>>, n: nat): Option<FailureMap>
    requires n <= |r|
  {
    if n == 0 then None else Append(r[n - 1], Merged(r, n - 1))
  }

  function Lift(i: nat, m: map<nat, int>): FailureMap {
    map k | k in m :: Op(i, k) := m[k]
  }

  /** The failure map object of a level: allocated on the first failure only. */
  function Own(i: nat, m: map<nat, int>): Option<FailureMap> {
    if m == map[] then None else Some(Lift(i, m))
  }

  /** The failure map object handed to the handler, as the level whose object it is. */
  function Handed(ls: seq<Level>, r: seq<Option<FailureMap>>, i: nat): Option<nat>
    requires i < |ls| == |r|
  {
    if ls[i].cumulative then Owner(r, i + 1) else if r[i].Some? then Some(i) else None
  }

  function View(ls: seq<Level>, r: seq<Option<FailureMap>>, i: nat): Option<FailureMap>
    requires i < |ls| == |r|
  {
    if ls[i].cumulative then Merged(r, i + 1) else r[i]
  }

  function Proxy(ls: seq<Level>, r: seq<Option<FailureMap>>, i: nat, after: FailureMap): Verdict
    requires i < |ls| == |r|
  {
    if r[i].Some? && r[i].value != map[] && AbortLater(ls, i) then Aborted
    else if !ls[i].hasHandler then Returned(false, {}, None, false)
    else Returned(true, if ls[i].cumulative then OpsUpTo(ls, i) else OwnOps(ls, i), View(ls, r, i),
                  Handed(ls, r, i).Some? && after != map[])
  }

  predicate Proceeds(v: Verdict) { v.Returned? && !v.left }

  function Step(ls: seq<Level>, s: State, a: Action): State
    requires Enabled(ls, s, a)
  {
    match a
    case InLevel(i, b) =>
      s.(joins := s.joins[i := J.Step(ls[i].config, s.joins[i], b)])
    case Finish(i, k, after) =>
      var r := s.residue[i := Own(i, s.joins[i].failures)];
      var v := Proxy(ls, r, i, after);
      State(
        s.joins[i := J.Step(ls[i].config, s.joins[i], J.Fire(k))],
        if Proceeds(v) && i + 1 < |ls| then s.started[i + 1 := true] else s.started,
        if v.Returned? && v.called && Handed(ls, r, i).Some? then r[Handed(ls, r, i).value := Some(after)] else r,
        s.verdict[i := v])
  }

  predicate Legal(ls: seq<Level>, s: State, run: seq<Action>)
    decreases |run|
  {
    run == [] || (Enabled(ls, s, run[0]) && Legal(ls, Step(ls, s, run[0]), run[1..]))
  }

  function Exec(ls: seq<Level>, s: State, run: seq<Action>): State
    requires Legal(ls, s, run)
    decreases |run|
  {
    if run == [] then s else Exec(ls, Step(ls, s, run[0]), run[1..])
  }

  // ---------- the invariant ----------

  predicate Finished(s: State, i: nat)
    requires i < |s.joins|
  {
    s.joins[i].fired != []
  }

  /** What is known about level `i` besides the invariant of its join. */
  ghost predicate LevelInv(ls: seq<Level>, s: State, i: nat)
    requires Shape(ls, s) && i < |ls|
  {
    && (!s.started[i] ==> s.joins[i] == J.Init(ls[i].config))
    && (Finished(s, i) <==> !s.verdict[i].Waiting?)
    && (s.verdict[i].Aborted? <==> Finished(s, i) && J.AnyFailed(s.joins[i].phase) && AbortLater(ls, i))
    && (s.verdict[i].Returned? ==> s.verdict[i].called == ls[i].hasHandler)
    && (s.verdict[i].Returned? && s.verdict[i].called ==>
          s.verdict[i].ops == if ls[i].cumulative then OpsUpTo(ls, i) else OwnOps(ls, i))
  }

  ghost predicate JoinsInv(ls: seq<Level>, s: State) {
    Valid(ls) && Shape(ls, s) && forall i :: 0 <= i < |ls| ==> J.Inv(ls[i].config, s.joins[i])
  }

  ghost predicate ChainInv(ls: seq<Level>, s: State) {
    && Valid(ls)
    && Shape(ls, s)
    && (forall i :: 0 <= i < |ls| ==> LevelInv(ls, s, i))
    && s.started[0]
    && (forall i :: 0 < i < |ls| ==> (s.started[i] <==> Proceeds(s.verdict[i - 1])))
  }

  ghost predicate Inv(ls: seq<Level>, s: State) { JoinsInv(ls, s) && ChainInv(ls, s) }

  lemma InitInv(ls: seq<Level>)
    requires Valid(ls)
    ensures Inv(ls, Init(ls))
  {
    forall i | 0 <= i < |ls|
      ensures J.Inv(ls[i].config, Init(ls).joins[i])
    {
      J.InitInv(ls[i].config);
    }
  }

  lemma LiftEmpty(i: nat, m: map<nat, int>)
    ensures Lift(i, m) == map[] <==> m == map[]
  {
    if m != map[] {
      var k :| k in m;
      assert Op(i, k) in Lift(i, m);
    }
  }

  lemma JoinsUpdate(ls: seq<Level>, s: State, t: State, i: nat, j: J.State)
    requires JoinsInv(ls, s) && Shape(ls, t) && i < |ls| && t.joins == s.joins[i := j] && J.Inv(ls[i].config, j)
    ensures JoinsInv(ls, t)
  {
  }

  lemma JoinsStep(ls: seq<Level>, s: State, a: Action)
    requires JoinsInv(ls, s) && Enabled(ls, s, a)
    ensures JoinsInv(ls, Step(ls, s, a))
  {
    var b := if a.InLevel? then a.a else J.Fire(a.k);
    J.StepInv(ls[a.i].config, s.joins[a.i], b);
    JoinsUpdate(ls, s, Step(ls, s, a), a.i, J.Step(ls[a.i].config, s.joins[a.i], b));
  }

  /** An action inside a level neither fires its join nor changes the outcomes of a fired one. */
  lemma QuietStep(c: J.Config, s: J.State, a: J.Action)
    requires J.Inv(c, s) && J.Enabled(c, s, a) && !a.Fire?
    ensures J.Step(c, s, a).fired == s.fired
    ensures s.fired != [] ==> J.Step(c, s, a).phase == s.phase
  {
    if !a.Count? {
      J.NotFiredYet(c, s, a);
    }
  }

  lemma InLevelInv(ls: seq<Level>, s: State, a: Action)
    requires ChainInv(ls, s) && Enabled(ls, s, a) && a.InLevel?
    requires J.Step(ls[a.i].config, s.joins[a.i], a.a).fired == s.joins[a.i].fired
    requires s.joins[a.i].fired != [] ==> J.Step(ls[a.i].config, s.joins[a.i], a.a).phase == s.joins[a.i].phase
    ensures ChainInv(ls, Step(ls, s, a))
  {
    var t := Step(ls, s, a);
    forall i | 0 <= i < |ls|
      ensures LevelInv(ls, t, i)
    {
      assert LevelInv(ls, s, i);
    }
  }

  /** The join of a level fires once, with every operation ended. */
  lemma FireStep(c: J.Config, s: J.State, k: nat)
    requires J.Inv(c, s) && J.Enabled(c, s, J.Fire(k))
    ensures s.fired == [] && J.Step(c, s, J.Fire(k)).fired == [s.failures]
    ensures s.failures != map[] <==> J.AnyFailed(J.Step(c, s, J.Fire(k)).phase)
  {
    J.NotFiredYet(c, s, J.Fire(k));
    J.AllEnded(c, s, k);
    J.StepBlamed(c, s, J.Fire(k));
    J.FiringFailures(J.Step(c, s, J.Fire(k)));
  }

  lemma FinishInv(ls: seq<Level>, s: State, a: Action)
    requires ChainInv(ls, s) && Enabled(ls, s, a) && a.Finish?
    requires !Finished(s, a.i) && J.Step(ls[a.i].config, s.joins[a.i], J.Fire(a.k)).fired != []
    requires s.joins[a.i].failures != map[]
        <==> J.AnyFailed(J.Step(ls[a.i].config, s.joins[a.i], J.Fire(a.k)).phase)
    ensures ChainInv(ls, Step(ls, s, a))
  {
    var t := Step(ls, s, a);
    assert LevelInv(ls, s, a.i);
    LiftEmpty(a.i, s.joins[a.i].failures);
    forall i | 0 <= i < |ls|
      ensures LevelInv(ls, t, i)
    {
      assert LevelInv(ls, s, i);
    }
  }

  lemma StepInv(ls: seq<Level>, s: State, a: Action)
    requires Inv(ls, s) && Enabled(ls, s, a)
    ensures Inv(ls, Step(ls, s, a))
  {
    JoinsStep(ls, s, a);
    if a.InLevel? {
      QuietStep(ls[a.i].config, s.joins[a.i], a.a);
      InLevelInv(ls, s, a);
    } else {
      FireStep(ls[a.i].config, s.joins[a.i], a.k);
      FinishInv(ls, s, a);
    }
  }

  lemma {:induction false} RunInv(ls: seq<Level>, s: State, run: seq<Action>)
    requires Inv(ls, s) && Legal(ls, s, run)
    ensures Inv(ls, Exec(ls, s, run))
    decreases |run|
  {
    if run != [] {
      StepInv(ls, s, run[0]);
      RunInv(ls, Step(ls, s, run[0]), run[1..]);
    }
  }

  // ---------- order and stopping ----------

  /** No operation of a level is sent until every operation of every earlier level
      completed and the handler of that level, if it has one, returned leaving no failure. */
  lemma LevelOrder(ls: seq<Level>, run: seq<Action>, i: nat, j: nat)
    requires Valid(ls) && Legal(ls, Init(ls), run)
    requires j < i < |ls| == |Exec(ls, Init(ls), run).joins|
    requires Exec(ls, Init(ls), run).joins[i].sends != []
    ensures
      var s := Exec(ls, Init(ls), run);
      && Shape(ls, s)
      && |s.joins[j].fired| == 1
      && (forall k :: 0 <= k < ls[j].config.count ==> k < |s.joins[j].phase| && J.Is(J.Ended, s.joins[j].phase[k]))
      && Proceeds(s.verdict[j])
      && s.verdict[j].called == ls[j].hasHandler
  {
    InitInv(ls);
    RunInv(ls, Init(ls), run);
    var s := Exec(ls, Init(ls), run);
    assert LevelInv(ls, s, i);
    StartedAbove(ls, s, i, j);
    assert LevelInv(ls, s, j);
    FiredMeans(ls[j].config, s.joins[j]);
  }

  lemma FiredMeans(c: J.Config, s: J.State)
    requires J.Inv(c, s) && s.fired != []
    ensures |s.fired| == 1 && |s.phase| == c.count
    ensures forall k :: 0 <= k < c.count ==> J.Is(J.Ended, s.phase[k])
  {
  }

  lemma {:induction false} StartedAbove(ls: seq<Level>, s: State, i: nat, j: nat)
    requires ChainInv(ls, s) && j < i < |ls| && s.started[i]
    ensures s.started[j] && Finished(s, j) && Proceeds(s.verdict[j])
  {
    assert LevelInv(ls, s, i - 1);
    if j < i - 1 {
      StartedAbove(ls, s, i - 1, j);
    }
  }

  ghost predicate Stopped(ls: seq<Level>, s: State, i: nat)
    requires Shape(ls, s) && i < |ls|
  {
    Finished(s, i) && ((J.AnyFailed(s.joins[i].phase) && AbortLater(ls, i)) || (s.verdict[i].Returned? && s.verdict[i].left))
  }

  lemma {:induction false} NothingBelow(ls: seq<Level>, s: State, i: nat, j: nat)
    requires ChainInv(ls, s) && i < j < |ls| && Stopped(ls, s, i)
    ensures s.joins[j] == J.Init(ls[j].config)
  {
    assert LevelInv(ls, s, i) && LevelInv(ls, s, j);
    if s.started[j] {
      StartedAbove(ls, s, j, i);
    }
  }

  predicate SameOutcome(s: J.State, t: J.State) { t.phase == s.phase && t.fired == s.fired }

  /** Once a level has finished nothing changes its outcome and its verdict. */
  lemma StepKeeps(ls: seq<Level>, s: State, a: Action, l: nat)
    requires Inv(ls, s) && Enabled(ls, s, a) && l < |ls| && Finished(s, l)
    ensures Shape(ls, Step(ls, s, a)) && SameOutcome(s.joins[l], Step(ls, s, a).joins[l])
    ensures Step(ls, s, a).verdict[l] == s.verdict[l]
  {
    if a.i == l {
      if a.InLevel? {
        QuietStep(ls[l].config, s.joins[l], a.a);
      } else {
        FireStep(ls[l].config, s.joins[l], a.k);
      }
    }
  }

  lemma StoppedSame(ls: seq<Level>, s: State, t: State, i: nat)
    requires Shape(ls, s) && Shape(ls, t) && i < |ls| && Stopped(ls, s, i)
    requires SameOutcome(s.joins[i], t.joins[i]) && t.verdict[i] == s.verdict[i]
    ensures Stopped(ls, t, i)
  {
  }

  lemma StaysStopped(ls: seq<Level>, s: State, a: Action, i: nat)
    requires Inv(ls, s) && Enabled(ls, s, a) && i < |ls| && Stopped(ls, s, i)
    ensures Shape(ls, Step(ls, s, a)) && Stopped(ls, Step(ls, s, a), i)
  {
    StepKeeps(ls, s, a, i);
    StoppedSame(ls, s, Step(ls, s, a), i);
  }

  lemma {:induction false} RunStaysStopped(ls: seq<Level>, s: State, run: seq<Action>, i: nat)
    requires Inv(ls, s) && Legal(ls, s, run) && i < |ls| && Stopped(ls, s, i)
    ensures Shape(ls, Exec(ls, s, run)) && Stopped(ls, Exec(ls, s, run), i)
    decreases |run|
  {
    if run != [] {
      StaysStopped(ls, s, run[0], i);
      StepInv(ls, s, run[0]);
      RunStaysStopped(ls, Step(ls, s, run[0]), run[1..], i);
    }
  }

  lemma FirstAndRest(run: seq<Action>, more: seq<Action>)
    requires run != []
    ensures run + more == [run[0]] + (run[1..] + more)
  {
  }

  lemma {:induction false} ExecSplit(ls: seq<Level>, s: State, run: seq<Action>, more: seq<Action>)
    requires Legal(ls, s, run) && Legal(ls, Exec(ls, s, run), more)
    ensures Legal(ls, s, run + more) && Exec(ls, s, run + more) == Exec(ls, Exec(ls, s, run), more)
    decreases |run|
  {
    if run == [] {
      assert run + more == more;
    } else {
      ExecSplit(ls, Step(ls, s, run[0]), run[1..], more);
      LegalCons(ls, s, run[0], run[1..] + more);
      FirstAndRest(run, more);
    }
  }

  /** Once a level finished with failures left by its handler, or with any failure while a
      later level has the abort flag, no operation of a later level is ever sent. */
  lemma ChainStops(ls: seq<Level>, run: seq<Action>, more: seq<Action>, i: nat, j: nat)
    requires Valid(ls) && Legal(ls, Init(ls), run)
    requires Shape(ls, Exec(ls, Init(ls), run)) && i < j < |ls| && Stopped(ls, Exec(ls, Init(ls), run), i)
    requires Legal(ls, Exec(ls, Init(ls), run), more)
    ensures
      && Legal(ls, Init(ls), run + more)
      && Shape(ls, Exec(ls, Init(ls), run + more))
      && Exec(ls, Init(ls), run + more).joins[j].sends == []
  {
    InitInv(ls);
    RunInv(ls, Init(ls), run);
    var s := Exec(ls, Init(ls), run);
    RunInv(ls, s, more);
    RunStaysStopped(ls, s, more, i);
    ExecSplit(ls, Init(ls), run, more);
    NothingBelow(ls, Exec(ls, s, more), i, j);
  }

  /** The child level is sent exactly when the level finished, no later level vetoes its
      failures, and its handler left none: a level without a handler lets failures through. */
  lemma ChildSentExactly(ls: seq<Level>, run: seq<Action>, i: nat)
    requires Valid(ls) && Legal(ls, Init(ls), run)
    requires i + 1 < |ls|
    ensures
      var s := Exec(ls, Init(ls), run);
      && Shape(ls, s)
      && (s.started[i + 1] <==>
            && Finished(s, i)
            && !(J.AnyFailed(s.joins[i].phase) && AbortLater(ls, i))
            && (ls[i].hasHandler ==> !s.verdict[i].Returned? || !s.verdict[i].left))
  {
    InitInv(ls);
    RunInv(ls, Init(ls), run);
    assert LevelInv(ls, Exec(ls, Init(ls), run), i);
    LeftNeedsHandler(ls, Init(ls), run, i);
  }

  ghost predicate LeftOnlyByHandler(ls: seq<Level>, s: State, i: nat)
    requires Shape(ls, s) && i < |ls|
  {
    !ls[i].hasHandler && s.verdict[i].Returned? ==> !s.verdict[i].left
  }

  lemma LeftStep(ls: seq<Level>, s: State, a: Action, i: nat)
    requires Shape(ls, s) && Enabled(ls, s, a) && i < |ls| && LeftOnlyByHandler(ls, s, i)
    ensures Shape(ls, Step(ls, s, a)) && LeftOnlyByHandler(ls, Step(ls, s, a), i)
  {
  }

  lemma {:induction false} LeftNeedsHandler(ls: seq<Level>, s: State, run: seq<Action>, i: nat)
    requires Shape(ls, s) && Legal(ls, s, run) && i < |ls| && LeftOnlyByHandler(ls, s, i)
    ensures Shape(ls, Exec(ls, s, run)) && LeftOnlyByHandler(ls, Exec(ls, s, run), i)
    decreases |run|
  {
    if run != [] {
      LeftStep(ls, s, run[0], i);
      LeftNeedsHandler(ls, Step(ls, s, run[0]), run[1..], i);
    }
  }

  /** When a level with a handler has finished, its handler was not called if and only if one of
      its operations failed and a strictly later level has the abort flag; the flag on the
      level itself decides nothing. */
  lemma HandlerSuppressedExactly(ls: seq<Level>, run: seq<Action>, i: nat)
    requires Valid(ls) && Legal(ls, Init(ls), run) && i < |ls|
    ensures
      var s := Exec(ls, Init(ls), run);
      && Shape(ls, s)
      && (Finished(s, i) && ls[i].hasHandler ==>
            (!(s.verdict[i].Returned? && s.verdict[i].called) <==> J.AnyFailed(s.joins[i].phase) && AbortLater(ls, i)))
  {
    InitInv(ls);
    RunInv(ls, Init(ls), run);
    assert LevelInv(ls, Exec(ls, Init(ls), run), i);
  }

  lemma LegalCons(ls: seq<Level>, s: State, a: Action, rest: seq<Action>)
    requires Enabled(ls, s, a) && Legal(ls, Step(ls, s, a), rest)
    ensures Legal(ls, s, [a] + rest) && Exec(ls, s, [a] + rest) == Exec(ls, Step(ls, s, a), rest)
  {
    assert ([a] + rest)[1..] == rest;
  }

  const ONE: J.Config := J.Config(1, 1, 0)

  /** The join of one operation, sent and counted. */
  function OneJoin(phase: J.Phase, guard: int, pending: int, failures: map<nat, int>): J.State {
    J.State([phase], 1, 1, false, guard, pending, failures, [0], [], false)
  }

  /** The join of one operation that failed, about to fire. */
  function FailedJoin(error: int): J.State {
    OneJoin(J.Firing(J.Failed(error), false), -1, 0, map[0 := error])
  }

  /** The chain with the join of level i in the given state. */
  function With(s: State, i: nat, j: J.State): State
    requires i < |s.joins|
  {
    s.(joins := s.joins[i := j])
  }

  lemma LevelStep(ls: seq<Level>, s: State, i: nat, j: J.State, a: J.Action, k: J.State, rest: seq<Action>)
    requires Shape(ls, s) && i < |ls| && ls[i].config == ONE && s.started[i]
    requires !a.Fire? && J.Enabled(ONE, j, a) && J.Step(ONE, j, a) == k && Legal(ls, With(s, i, k), rest)
    ensures Legal(ls, With(s, i, j), [InLevel(i, a)] + rest)
    ensures Exec(ls, With(s, i, j), [InLevel(i, a)] + rest) == Exec(ls, With(s, i, k), rest)
  {
    assert Step(ls, With(s, i, j), InLevel(i, a)) == With(s, i, k);
    LegalCons(ls, With(s, i, j), InLevel(i, a), rest);
  }

  lemma LevelCompletes(ls: seq<Level>, s: State, i: nat, error: int, rest: seq<Action>) returns (run: seq<Action>)
    requires Shape(ls, s) && i < |ls| && ls[i].config == ONE && s.started[i]
    requires Legal(ls, With(s, i, FailedJoin(error)), rest)
    ensures Legal(ls, With(s, i, OneJoin(J.InFlight, 0, 1, map[])), run)
    ensures Exec(ls, With(s, i, OneJoin(J.InFlight, 0, 1, map[])), run) == Exec(ls, With(s, i, FailedJoin(error)), rest)
  {
    var f, m := J.Failed(error), map[0 := error];
    LevelStep(ls, s, i, OneJoin(J.Draining(f, false), -1, 1, m), J.Drain(0), FailedJoin(error), rest);
    run := [InLevel(i, J.Drain(0))] + rest;
    LevelStep(ls, s, i, OneJoin(J.Released(f), -1, 1, m), J.Take(0), OneJoin(J.Draining(f, false), -1, 1, m), run);
    run := [InLevel(i, J.Take(0))] + run;
    LevelStep(ls, s, i, OneJoin(J.Recorded(f), 0, 1, m), J.Release(0), OneJoin(J.Released(f), -1, 1, m), run);
    run := [InLevel(i, J.Release(0))] + run;
    LevelStep(ls, s, i, OneJoin(J.Began(f), 0, 1, map[]), J.Record(0), OneJoin(J.Recorded(f), 0, 1, m), run);
    run := [InLevel(i, J.Record(0))] + run;
    LevelStep(ls, s, i, OneJoin(J.InFlight, 0, 1, map[]), J.Complete(0, f), OneJoin(J.Began(f), 0, 1, map[]), run);
    run := [InLevel(i, J.Complete(0, f))] + run;
  }

  /** A level of one operation, from its start until its operation failed. */
  lemma LevelFails(ls: seq<Level>, s: State, i: nat, error: int, rest: seq<Action>) returns (run: seq<Action>)
    requires Shape(ls, s) && i < |ls| && ls[i].config == ONE && s.started[i] && s.joins[i] == J.Init(ONE)
    requires Legal(ls, With(s, i, FailedJoin(error)), rest)
    ensures Legal(ls, s, run) && Exec(ls, s, run) == Exec(ls, With(s, i, FailedJoin(error)), rest)
  {
    run := LevelCompletes(ls, s, i, error, rest);
    var sent := J.State([J.InFlight], 1, 0, true, 0, 1, map[], [0], [], false);
    LevelStep(ls, s, i, sent, J.Count, OneJoin(J.InFlight, 0, 1, map[]), run);
    run := [InLevel(i, J.Count)] + run;
    LevelStep(ls, s, i, J.Init(ONE), J.Send, sent, run);
    run := [InLevel(i, J.Send)] + run;
    assert With(s, i, J.Init(ONE)) == s;
  }

  lemma ProxyCalls(ls: seq<Level>, r: seq<Option<FailureMap>>, i: nat)
    requires i < |ls| == |r| && !AbortLater(ls, i)
    ensures
      var v := Proxy(ls, r, i, map[]);
      Proceeds(v) && v.called == ls[i].hasHandler && (v.called ==> v.failures == View(ls, r, i))
  {
  }

  /** The level of a failed operation finishes; its handler leaves no failure. */
  lemma FinishFailed(ls: seq<Level>, s: State, i: nat, error: int)
    requires Shape(ls, s) && i < |ls| && ls[i].config == ONE && s.started[i] && !AbortLater(ls, i)
    requires s.joins[i] == FailedJoin(error)
    ensures Enabled(ls, s, Finish(i, 0, map[]))
    ensures
      var t, r := Step(ls, s, Finish(i, 0, map[])), s.residue[i := Own(i, map[0 := error])];
      && Shape(ls, t)
      && (forall l :: 0 <= l < |ls| && l != i ==> t.joins[l] == s.joins[l] && t.verdict[l] == s.verdict[l])
      && |t.joins[i].phase| == 1 && J.FailedPhase(t.joins[i].phase[0])
      && t.verdict[i].Returned? && t.verdict[i].called == ls[i].hasHandler
      && (t.verdict[i].called ==> t.verdict[i].failures == View(ls, r, i))
      && (i + 1 < |ls| ==> t.started[i + 1])
  {
    ProxyCalls(ls, s.residue[i := Own(i, s.joins[i].failures)], i);
  }

  lemma LiftOne(error: int)
    ensures Own(0, map[0 := error]) == Some(map[Op(0, 0) := error])
  {
    var m: map<nat, int> := map[0 := error];
    assert 0 in m && Op(0, 0) in Lift(0, m);
    assert Lift(0, m) == map[Op(0, 0) := error];
  }

  /** The witness: one level with the flag set, whose only operation fails; its handler is called,
      with the failure. */
  lemma FlagOnTheFailingLevel(error: int) returns (ls: seq<Level>, run: seq<Action>)
    ensures |ls| == 1 && Valid(ls) && ls[0].abort && Legal(ls, Init(ls), run)
    ensures
      var s := Exec(ls, Init(ls), run);
      && |s.joins| == |s.verdict| == 1
      && J.AnyFailed(s.joins[0].phase)
      && s.verdict[0].Returned? && s.verdict[0].called && s.verdict[0].failures == Some(map[Op(0, 0) := error])
  {
    ls := [Level(ONE, true, false, true)];
    var s, a := With(Init(ls), 0, FailedJoin(error)), Finish(0, 0, map[]);
    FinishFailed(ls, s, 0, error);
    LiftOne(error);
    LegalCons(ls, s, a, []);
    run := LevelFails(ls, Init(ls), 0, error, [a] + []);
  }

  /** The flag on the last level suppresses nothing. */
  lemma LastLevelNeverAborts(ls: seq<Level>, run: seq<Action>)
    requires Valid(ls) && Legal(ls, Init(ls), run)
    ensures
      var s := Exec(ls, Init(ls), run);
      && Shape(ls, s)
      && !s.verdict[|ls| - 1].Aborted?
      && (Finished(s, |ls| - 1) && ls[|ls| - 1].hasHandler ==>
            s.verdict[|ls| - 1].Returned? && s.verdict[|ls| - 1].called)
  {
    InitInv(ls);
    RunInv(ls, Init(ls), run);
    assert LevelInv(ls, Exec(ls, Init(ls), run), |ls| - 1);
  }

  // ---------- what a cumulative handler sees ----------

  lemma {:induction false} OpsUpToMembers(ls: seq<Level>, i: nat, op: Op)
    requires i < |ls|
    ensures op in OpsUpTo(ls, i) <==> op.level <= i && op.index < ls[op.level].config.count
  {
    if i > 0 {
      OpsUpToMembers(ls, i - 1, op);
    }
  }

  lemma CompletedUpTo(ls: seq<Level>, s: State, i: nat, j: nat)
    requires Inv(ls, s) && j <= i < |ls| && Finished(s, i)
    ensures |s.joins[j].phase| == ls[j].config.count
    ensures forall k :: 0 <= k < ls[j].config.count ==> J.Is(J.Ended, s.joins[j].phase[k])
  {
    assert LevelInv(ls, s, i);
    if j < i {
      StartedAbove(ls, s, i, j);
    }
    FiredMeans(ls[j].config, s.joins[j]);
  }

  /** A cumulative handler is given exactly the operations of levels 0..i, all of them completed. */
  lemma CumulativeView(ls: seq<Level>, run: seq<Action>, i: nat, op: Op)
    requires Valid(ls) && Legal(ls, Init(ls), run)
    requires i < |ls| == |Exec(ls, Init(ls), run).verdict|
    requires var v := Exec(ls, Init(ls), run).verdict[i]; v.Returned? && v.called && ls[i].cumulative
    ensures
      var s := Exec(ls, Init(ls), run);
      && Shape(ls, s)
      && (op in s.verdict[i].ops <==> op.level <= i && op.index < ls[op.level].config.count)
      && (op in s.verdict[i].ops ==>
            op.index < |s.joins[op.level].phase| && J.Is(J.Ended, s.joins[op.level].phase[op.index]))
  {
    InitInv(ls);
    RunInv(ls, Init(ls), run);
    var s := Exec(ls, Init(ls), run);
    assert LevelInv(ls, s, i);
    OpsUpToMembers(ls, i, op);
    if op.level <= i {
      CompletedUpTo(ls, s, i, op.level);
    }
  }

  /** No level stopped the chain so far. */
  ghost predicate Live(s: State) {
    forall j :: 0 <= j < |s.verdict| ==> s.verdict[j].Waiting? || Proceeds(s.verdict[j])
  }

  /** The failures of an operation are filed in the map of its own level. */
  ghost predicate Homed(r: seq<Option<FailureMap>>) {
    forall j, op :: 0 <= j < |r| && r[j].Some? && op in r[j].value ==> op.level == j
  }

  /** The error a failure map has for an operation. */
  function ErrorIn(v: Option<FailureMap>, op: Op): Option<int> {
    if v.Some? && op in v.value then Some(v.value[op]) else None
  }

  function Lookup(m: map<nat, int>, k: nat): Option<int> { if k in m then Some(m[k]) else None }

  /** The error an operation ended with. */
  function ErrorOf(p: J.Phase): Option<int> { if J.FailedPhase(p) then Some(p.outcome.error) else None }

  ghost predicate Sees(v: Option<FailureMap>, i: nat, m: map<nat, int>) {
    forall k: nat :: ErrorIn(v, Op(i, k)) == Lookup(m, k)
  }

  /** The failures given are those of level i alone. */
  ghost predicate OnlyOwn(v: Option<FailureMap>, i: nat) {
    v.Some? ==> forall op :: op in v.value ==> op.level == i
  }

  ghost predicate ViewInv(ls: seq<Level>, s: State) {
    && Shape(ls, s)
    && (Live(s) ==> Homed(s.residue))
    && (forall i :: 0 <= i < |ls| && s.verdict[i].Returned? && s.verdict[i].called ==>
          && s.joins[i].fired != [] && Sees(s.verdict[i].failures, i, s.joins[i].fired[0])
          && (!ls[i].cumulative ==> OnlyOwn(s.verdict[i].failures, i)))
  }

  lemma {:induction false} MergedOwn(r: seq<Option<FailureMap>>, n: nat, op: Op)
    requires n <= |r| && Homed(r)
    ensures ErrorIn(Merged(r, n), op) == if op.level < n then ErrorIn(r[op.level], op) else None
  {
    if n > 0 {
      MergedOwn(r, n - 1, op);
    }
  }

  lemma LiveBefore(ls: seq<Level>, s: State, i: nat)
    requires ChainInv(ls, s) && i < |ls| && s.started[i] && !Finished(s, i)
    ensures Live(s)
  {
    forall j | 0 <= j < |ls|
      ensures s.verdict[j].Waiting? || Proceeds(s.verdict[j])
    {
      assert LevelInv(ls, s, j) && LevelInv(ls, s, i);
      if j < i {
        StartedAbove(ls, s, i, j);
      } else if i < j && s.started[j] {
        StartedAbove(ls, s, j, i);
      }
    }
  }

  lemma OwnSees(i: nat, m: map<nat, int>, k: nat)
    ensures ErrorIn(Own(i, m), Op(i, k)) == Lookup(m, k)
  {
    assert k in m <==> Op(i, k) in Lift(i, m);
  }

  lemma FinishView(ls: seq<Level>, s: State, a: Action)
    requires ViewInv(ls, s) && Live(s) && Enabled(ls, s, a) && a.Finish?
    requires J.Step(ls[a.i].config, s.joins[a.i], J.Fire(a.k)).fired == [s.joins[a.i].failures]
    ensures ViewInv(ls, Step(ls, s, a))
  {
    var i, m := a.i, s.joins[a.i].failures;
    var r := s.residue[i := Own(i, m)];
    assert Homed(r);
    forall k: nat
      ensures ErrorIn(View(ls, r, i), Op(i, k)) == Lookup(m, k)
    {
      MergedOwn(r, i + 1, Op(i, k));
      OwnSees(i, m, k);
    }
    var t := Step(ls, s, a);
    if Live(t) {
      assert t.verdict[i].Waiting? || Proceeds(t.verdict[i]);
      assert Homed(t.residue);
    }
  }

  lemma StepView(ls: seq<Level>, s: State, a: Action)
    requires Inv(ls, s) && ViewInv(ls, s) && Enabled(ls, s, a)
    ensures ViewInv(ls, Step(ls, s, a))
  {
    if a.Finish? {
      FireStep(ls[a.i].config, s.joins[a.i], a.k);
      LiveBefore(ls, s, a.i);
      FinishView(ls, s, a);
    } else {
      QuietStep(ls[a.i].config, s.joins[a.i], a.a);
    }
  }

  lemma {:induction false} RunView(ls: seq<Level>, s: State, run: seq<Action>)
    requires Inv(ls, s) && ViewInv(ls, s) && Legal(ls, s, run)
    ensures ViewInv(ls, Exec(ls, s, run))
    decreases |run|
  {
    if run != [] {
      StepView(ls, s, run[0]);
      StepInv(ls, s, run[0]);
      RunView(ls, Step(ls, s, run[0]), run[1..]);
    }
  }

  /** Cumulative or not, a handler's failure map names an operation of its own level exactly when
      that operation failed, and with the error it failed with. */
  lemma HandlerSeesOwnFailures(ls: seq<Level>, run: seq<Action>, i: nat, k: nat)
    requires Valid(ls) && Legal(ls, Init(ls), run)
    requires i < |ls| == |Exec(ls, Init(ls), run).verdict| && k < ls[i].config.count
    requires var v := Exec(ls, Init(ls), run).verdict[i]; v.Returned? && v.called
    ensures
      var s := Exec(ls, Init(ls), run);
      && Shape(ls, s)
      && k < |s.joins[i].phase|
      && ErrorIn(s.verdict[i].failures, Op(i, k)) == ErrorOf(s.joins[i].phase[k])
  {
    InitInv(ls);
    RunInv(ls, Init(ls), run);
    RunView(ls, Init(ls), run);
    SeenExactly(ls, Exec(ls, Init(ls), run), i, k);
  }

  lemma SeenExactly(ls: seq<Level>, s: State, i: nat, k: nat)
    requires JoinsInv(ls, s) && ViewInv(ls, s) && i < |ls| && k < ls[i].config.count
    requires s.verdict[i].Returned? && s.verdict[i].called
    ensures k < |s.joins[i].phase|
    ensures ErrorIn(s.verdict[i].failures, Op(i, k)) == ErrorOf(s.joins[i].phase[k])
  {
    assert Sees(s.verdict[i].failures, i, s.joins[i].fired[0]);
    FiredExactly(ls[i].config, s.joins[i], k);
  }

  lemma FiredExactly(c: J.Config, s: J.State, k: nat)
    requires J.Inv(c, s) && s.fired != [] && k < c.count
    ensures Lookup(s.fired[0], k) == ErrorOf(s.phase[k])
  {
    assert s.fired[0] in s.fired;
    assert J.Is(J.Ended, s.phase[k]);
  }

  /** A handler that is not cumulative is given the operations of its own level and no other, and
      failures of no other. */
  lemma OwnViewOnly(ls: seq<Level>, run: seq<Action>, i: nat, op: Op)
    requires Valid(ls) && Legal(ls, Init(ls), run)
    requires i < |ls| == |Exec(ls, Init(ls), run).verdict|
    requires var v := Exec(ls, Init(ls), run).verdict[i]; v.Returned? && v.called && !ls[i].cumulative
    ensures
      var v := Exec(ls, Init(ls), run).verdict[i];
      && (op in v.ops <==> op.level == i && op.index < ls[i].config.count)
      && (ErrorIn(v.failures, op).Some? ==> op in v.ops)
  {
    InitInv(ls);
    RunInv(ls, Init(ls), run);
    RunView(ls, Init(ls), run);
    OwnOnly(ls, Exec(ls, Init(ls), run), i, op);
  }

  lemma OwnOnly(ls: seq<Level>, s: State, i: nat, op: Op)
    requires Inv(ls, s) && ViewInv(ls, s) && i < |ls|
    requires s.verdict[i].Returned? && s.verdict[i].called && !ls[i].cumulative
    ensures op in s.verdict[i].ops <==> op.level == i && op.index < ls[i].config.count
    ensures ErrorIn(s.verdict[i].failures, op).Some? ==> op in s.verdict[i].ops
  {
    var m := s.joins[i].fired[0];
    assert LevelInv(ls, s, i) && Sees(s.verdict[i].failures, i, m);
    if ErrorIn(s.verdict[i].failures, op).Some? {
      assert op.level == i && op == Op(i, op.index);
      assert m in s.joins[i].fired && op.index in m;
    }
  }

  // ---------- the loops that walk the chain ----------

  method HasAbortOnFirstFailureInChildSequences(ls: seq<Level>, i: nat) returns (found: bool)
    requires i < |ls|
    ensures found <==> AbortLater(ls, i)
  {
    var child := i + 1;
    while child < |ls|
      invariant i < child <= |ls|
      invariant forall j :: i < j < child ==> !ls[j].abort
    {
      if ls[child].abort {
        return true;
      }
      child := child + 1;
    }
    return false;
  }

  method GetAllCompletedOperations(ls: seq<Level>, i: nat) returns (ops: set<Op>)
    requires i < |ls|
    ensures forall op :: op in ops <==> op.level <= i && op.index < ls[op.level].config.count
  {
    ops := {};
    var current := i + 1;
    while current > 0
      invariant current <= i + 1
      invariant forall op :: op in ops <==> current <= op.level <= i && op.index < ls[op.level].config.count
    {
      current := current - 1;
      ops := ops + OwnOps(ls, current);
    }
  }

  lemma AppendAssociative(a: Option<FailureMap>, b: Option<FailureMap>, c: Option<FailureMap>)
    ensures Append(Append(a, b), c) == Append(a, Append(b, c))
  {
    if a.Some? && b.Some? && c.Some? {
      assert a.value + b.value + c.value == a.value + (b.value + c.value);
    }
  }

  /** The first non-null map found walking up is extended in place with the maps above it. */
  method GetAllFailures(r: seq<Option<FailureMap>>, i: nat) returns (owner: Option<nat>, failures: Option<FailureMap>)
    requires i < |r|
    ensures owner == Owner(r, i + 1) && failures == Merged(r, i + 1)
    ensures failures.None? <==> forall j :: 0 <= j <= i ==> r[j].None?
  {
    owner, failures := None, None;
    var current: nat := i + 1;
    while current > 0
      invariant current <= i + 1
      invariant owner.Some? <==> failures.Some?
      invariant owner.None? <==> forall j :: current <= j <= i ==> r[j].None?
      invariant Owner(r, i + 1) == if owner.Some? then owner else Owner(r, current)
      invariant Merged(r, i + 1) == Append(failures, Merged(r, current))
    {
      current := current - 1;
      AppendAssociative(failures, r[current], Merged(r, current));
      if r[current].Some? {
        if failures.None? {
          owner, failures := Some(current), r[current];
        } else {
          failures := Some(failures.value + r[current].value);
        }
      }
    }
  }
}
