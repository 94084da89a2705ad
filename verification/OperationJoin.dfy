/**
 Joining several operations (OperationJoin).

 The callbacks of a join run on arbitrary threads and share an iterator, two
 atomic counters and a failure map.  They are modelled as a state machine whose
 actions are the atomic accesses of the source, so a run is any interleaving of
 the sending thread with the completions of the operations it sent.

 Operations are identified by their position in the shared iterator.
 */
module OperationJoin {

  datatype Outcome = Succeeded | Failed(error: int)

  /** Where one operation is: not sent, in flight, or inside parentCompletion.
      `took` remembers whether sendNext found an operation in the iterator. */
  datatype Phase =
    | Unsent
    | InFlight
    | Began(outcome: Outcome)
    | Recorded(outcome: Outcome)
    | Released(outcome: Outcome)
    | Holding(outcome: Outcome, next: nat)
    | Sending(outcome: Outcome, next: nat)
    | Draining(outcome: Outcome, took: bool)
    | Firing(outcome: Outcome, took: bool)
    | Done(outcome: Outcome, took: bool)

  /** `count` distinct operations; `prepared` calls of prepareOperation put them
      there, more than `count` when an id was repeated.  Batch size 0 is "no limit". */
  datatype Config = Config(count: nat, prepared: nat, batchSize: nat) {
    ghost predicate Valid() {
      1 <= count <= prepared
    }

    /** How many operations sendWithBatch moves to its local list. */
    function Window(): nat {
      if 0 < batchSize < count then batchSize else count
    }
  }

  datatype State = State(
    phase: seq<Phase>,
    next: nat,               // iterator position
    issued: nat,             // local batch: sent and counted
    uncounted: bool,         // local batch: one more sent, guard not yet incremented
    guard: int,              // batchSizeGuard
    pending: int,            // pendingCount
    failures: map<nat, int>,
    sends: seq<nat>,         // calls of sendOperation, in order
    fired: seq<map<nat, int>>, // failure maps passed to the joined handler
    violated: bool)          // "batch limit violated" was thrown

  datatype Action =
    | Send
    | Count
    | Complete(i: nat, outcome: Outcome)
    | Record(i: nat)
    | Release(i: nat)
    | Take(i: nat)
    | Reserve(i: nat)
    | SendNext(i: nat)
    | Drain(i: nat)
    | Fire(i: nat)

  function Init(c: Config): State {
    State(seq(c.count, _ => Unsent), c.Window(), 0, false, 0, c.prepared, map[], [], [], false)
  }

  /** Whether the next atomic access of some thread is `a`. */
  predicate Enabled(c: Config, s: State, a: Action) {
    match a
    case Send => !s.uncounted && s.issued < c.Window() && s.issued < |s.phase|
    case Count => s.uncounted
    case Complete(i, _) => i < |s.phase| && s.phase[i].InFlight?
    case Record(i) => i < |s.phase| && s.phase[i].Began?
    case Release(i) => i < |s.phase| && s.phase[i].Recorded?
    case Take(i) => i < |s.phase| && s.phase[i].Released?
    case Reserve(i) => i < |s.phase| && s.phase[i].Holding?
    case SendNext(i) => i < |s.phase| && s.phase[i].Sending? && s.phase[i].next < |s.phase|
    case Drain(i) => i < |s.phase| && s.phase[i].Draining?
    case Fire(i) => i < |s.phase| && s.phase[i].Firing?
  }

  function Step(c: Config, s: State, a: Action): State
    requires Enabled(c, s, a)
  {
    match a
    case Send =>
      s.(phase := s.phase[s.issued := InFlight], sends := s.sends + [s.issued], uncounted := true)
    case Count =>
      var guard := if c.batchSize > 0 then s.guard + 1 else s.guard;
      s.(issued := s.issued + 1, uncounted := false, guard := guard,
         violated := s.violated || (c.batchSize > 0 && guard > c.batchSize))
    case Complete(i, outcome) =>
      s.(phase := s.phase[i := Began(outcome)])
    case Record(i) =>
      var outcome := s.phase[i].outcome;
      s.(phase := s.phase[i := Recorded(outcome)],
         failures := if outcome.Failed? then s.failures[i := outcome.error] else s.failures)
    case Release(i) =>
      s.(phase := s.phase[i := Released(s.phase[i].outcome)], guard := s.guard - 1)
    case Take(i) =>
      var outcome := s.phase[i].outcome;
      if s.next < c.count then
        s.(phase := s.phase[i := Holding(outcome, s.next)], next := s.next + 1)
      else
        s.(phase := s.phase[i := Draining(outcome, false)])
    case Reserve(i) =>
      var guard := if c.batchSize > 0 then s.guard + 1 else s.guard;
      s.(phase := s.phase[i := Sending(s.phase[i].outcome, s.phase[i].next)], guard := guard,
         violated := s.violated || (c.batchSize > 0 && guard > c.batchSize))
    case SendNext(i) =>
      var k := s.phase[i].next;
      s.(phase := s.phase[i := Draining(s.phase[i].outcome, true)][k := InFlight], sends := s.sends + [k])
    case Drain(i) =>
      var p := s.phase[i];
      s.(pending := s.pending - 1,
         phase := s.phase[i := if s.pending == 1 then Firing(p.outcome, p.took) else Done(p.outcome, p.took)])
    case Fire(i) =>
      s.(phase := s.phase[i := Done(s.phase[i].outcome, s.phase[i].took)], fired := s.fired + [s.failures])
  }

  predicate Legal(c: Config, s: State, run: seq<Action>)
    decreases |run|
  {
    run == [] || (Enabled(c, s, run[0]) && Legal(c, Step(c, s, run[0]), run[1..]))
  }

  function Exec(c: Config, s: State, run: seq<Action>): State
    requires Legal(c, s, run)
    decreases |run|
  {
    if run == [] then s else Exec(c, Step(c, s, run[0]), run[1..])
  }

  // ---------- counting phases ----------

  datatype Class = Sent | Flying | Owing | Took | SentNext | Ended | Fires | Active

  /** Classes of phases.  `Owing`: the guard was decremented for this operation and
      nothing took its place yet.  `SentNext`: its completion sent another operation.
      `Active`: sent, and its completion did not yet send another one, or find none. */
  predicate Is(f: Class, p: Phase) {
    match f
    case Sent => !p.Unsent?
    case Flying => p.InFlight?
    case Owing => p.Released? || p.Holding? || ((p.Draining? || p.Firing? || p.Done?) && !p.took)
    case Took => p.Holding? || p.Sending? || ((p.Draining? || p.Firing? || p.Done?) && p.took)
    case SentNext => (p.Draining? || p.Firing? || p.Done?) && p.took
    case Ended => p.Firing? || p.Done?
    case Fires => p.Firing?
    case Active => p.InFlight? || p.Began? || p.Recorded? || p.Released? || p.Holding? || p.Sending?
  }

  function Bit(b: bool): nat { if b then 1 else 0 }

  function Tally(s: seq<Phase>, f: Class): nat {
    if s == [] then 0 else Tally(s[..|s| - 1], f) + Bit(Is(f, s[|s| - 1]))
  }

  lemma {:induction false} TallyUpdate(s: seq<Phase>, i: nat, p: Phase, f: Class)
    requires i < |s|
    ensures Tally(s[i := p], f) == Tally(s, f) + Shift(f, s[i], p)
  {
    var n := |s| - 1;
    if i < n {
      assert s[i := p][..n] == s[..n][i := p];
      TallyUpdate(s[..n], i, p, f);
    } else {
      assert s[i := p][..n] == s[..n];
    }
  }

  lemma {:induction false} TallyNone(s: seq<Phase>, f: Class)
    requires forall i :: 0 <= i < |s| ==> !Is(f, s[i])
    ensures Tally(s, f) == 0
  {
    if s != [] {
      TallyNone(s[..|s| - 1], f);
    }
  }

  lemma {:induction false} TallyBound(s: seq<Phase>, f: Class)
    ensures Tally(s, f) <= |s|
    ensures Tally(s, f) == |s| <==> forall i :: 0 <= i < |s| ==> Is(f, s[i])
    ensures Tally(s, f) == 0 ==> forall i :: 0 <= i < |s| ==> !Is(f, s[i])
  {
    if s != [] {
      var t := s[..|s| - 1];
      TallyBound(t, f);
      assert forall i :: 0 <= i < |t| ==> s[i] == t[i];
    }
  }

  /** Operations in flight, plus those whose completion sent another one, are all sent. */
  lemma {:induction false} TallyFlying(s: seq<Phase>)
    ensures Tally(s, Flying) + Tally(s, SentNext) <= Tally(s, Sent)
  {
    if s != [] {
      TallyFlying(s[..|s| - 1]);
    }
  }

  lemma {:induction false} TallyPrefix(s: seq<Phase>, k: nat, f: Class)
    requires k <= |s|
    requires forall i :: 0 <= i < k ==> Is(f, s[i])
    requires forall i :: k <= i < |s| ==> !Is(f, s[i])
    ensures Tally(s, f) == k
  {
    if k < |s| {
      TallyPrefix(s[..|s| - 1], k, f);
    } else {
      TallyBound(s, f);
    }
  }

  /** How the tally of `f` moves when one phase goes from p to q. */
  function Shift(f: Class, p: Phase, q: Phase): int { Bit(Is(f, q)) - Bit(Is(f, p)) }

  // ---------- the invariant ----------

  ghost predicate Shape(c: Config, s: State) {
    && c.Valid()
    && |s.phase| == c.count
    && c.Window() <= s.next <= c.count
    && s.issued <= c.Window()
    && (s.uncounted ==> s.issued < c.Window())
  }

  /** The completion of `i` took `k` from the iterator and has not sent it yet. */
  ghost predicate Carries(phase: seq<Phase>, i: int, k: int) {
    0 <= i < |phase| && (phase[i].Holding? || phase[i].Sending?) && phase[i].next == k
  }

  /** The counters are the tallies they stand for, up to `lag` operations about to be sent. */
  ghost predicate Counted(c: Config, s: State, lag: int) {
    && (c.batchSize > 0 ==> s.guard == s.issued - Tally(s.phase, Owing))
    && Tally(s.phase, Took) == s.next - c.Window()
    && Tally(s.phase, Sent) == s.issued + Bit(s.uncounted) + Tally(s.phase, SentNext) - lag
    && s.pending == c.prepared - Tally(s.phase, Ended)
    && |s.fired| + Tally(s.phase, Fires) == Bit(s.pending == 0)
    && !s.violated
  }

  /** Every operation before the iterator is sent or in the hands of exactly one thread. */
  ghost predicate Placed(c: Config, s: State) {
    && |s.phase| == c.count
    && s.next <= c.count
    && (forall k :: 0 <= k < c.Window() && k < |s.phase| ==>
          (Is(Sent, s.phase[k]) <==> k < s.issued + Bit(s.uncounted)))
    && (forall k :: s.next <= k < |s.phase| ==> s.phase[k].Unsent?)
    && (forall i, k :: Carries(s.phase, i, k) ==> c.Window() <= k < s.next && s.phase[k].Unsent?)
    && (forall i, j, k :: Carries(s.phase, i, k) && Carries(s.phase, j, k) ==> i == j)
    && (forall k :: c.Window() <= k < s.next && s.phase[k].Unsent? ==> exists i :: Carries(s.phase, i, k))
    && (forall i :: 0 <= i < |s.phase| && Lone(s.phase[i]) ==> s.next == c.count)
  }

  /** This completion found the iterator empty. */
  predicate Lone(p: Phase) { (p.Draining? || p.Firing? || p.Done?) && !p.took }

  predicate HasRecorded(p: Phase) { !p.Unsent? && !p.InFlight? && !p.Began? }

  /** The failure map holds exactly the failed operations whose completion passed the recording. */
  ghost predicate Blamed(s: State) {
    && (forall i :: i in s.failures ==> i < |s.phase|)
    && (forall i :: 0 <= i < |s.phase| ==>
          (i in s.failures <==> HasRecorded(s.phase[i]) && s.phase[i].outcome.Failed?))
    && (forall i :: 0 <= i < |s.phase| && i in s.failures ==>
          HasRecorded(s.phase[i]) && s.phase[i].outcome == Failed(s.failures[i]))
    && (forall m :: m in s.fired ==> m == s.failures)
    && (s.fired != [] ==> forall i :: 0 <= i < |s.phase| ==> Is(Ended, s.phase[i]))
  }

  /** sendOperation was called once for each operation that left Unsent, and for no other. */
  ghost predicate Logged(s: State) {
    && (forall x :: 0 <= x < |s.sends| ==> s.sends[x] < |s.phase|)
    && (forall x, y :: 0 <= x < y < |s.sends| ==> s.sends[x] != s.sends[y])
    && (forall k :: 0 <= k < |s.phase| ==> (k in s.sends <==> Is(Sent, s.phase[k])))
  }

  ghost predicate Inv(c: Config, s: State) {
    Shape(c, s) && Counted(c, s, 0) && Placed(c, s) && Blamed(s) && Logged(s)
  }

  lemma InitInv(c: Config)
    requires c.Valid()
    ensures Inv(c, Init(c))
  {
    var s := Init(c);
    TallyNone(s.phase, Owing);
    TallyNone(s.phase, Took);
    TallyNone(s.phase, Sent);
    TallyNone(s.phase, SentNext);
    TallyNone(s.phase, Ended);
    TallyNone(s.phase, Fires);
  }

  /** Moving one phase keeps the counters right when they move by the same amounts. */
  lemma CountedMove(c: Config, s: State, t: State, i: nat, q: Phase, lag: int, lag': int)
    requires Counted(c, s, lag) && i < |s.phase| && t.phase == s.phase[i := q]
    requires c.batchSize > 0 ==> t.guard - s.guard == t.issued - s.issued - Shift(Owing, s.phase[i], q)
    requires t.next - s.next == Shift(Took, s.phase[i], q)
    requires Shift(Sent, s.phase[i], q) - Shift(SentNext, s.phase[i], q)
          == t.issued - s.issued + Bit(t.uncounted) - Bit(s.uncounted) + lag - lag'
    requires t.pending - s.pending == -Shift(Ended, s.phase[i], q)
    requires |t.fired| - |s.fired| + Shift(Fires, s.phase[i], q) == Bit(t.pending == 0) - Bit(s.pending == 0)
    requires !t.violated
    ensures Counted(c, t, lag')
  {
    TallyUpdate(s.phase, i, q, Owing);
    TallyUpdate(s.phase, i, q, Took);
    TallyUpdate(s.phase, i, q, Sent);
    TallyUpdate(s.phase, i, q, SentNext);
    TallyUpdate(s.phase, i, q, Ended);
    TallyUpdate(s.phase, i, q, Fires);
  }

  lemma CountedSender(c: Config, s: State, a: Action)
    requires Shape(c, s) && Counted(c, s, 0) && Enabled(c, s, a) && (a.Send? || a.Count?)
    requires a.Send? ==> s.phase[s.issued].Unsent?
    ensures Shape(c, Step(c, s, a)) && Counted(c, Step(c, s, a), 0)
  {
    if a.Send? {
      CountedMove(c, s, Step(c, s, a), s.issued, InFlight, 0, 0);
    }
  }

  lemma CountedCompletion(c: Config, s: State, a: Action)
    requires Shape(c, s) && Counted(c, s, 0) && Enabled(c, s, a)
    requires a.Complete? || a.Record? || a.Release? || a.Take?
    ensures Shape(c, Step(c, s, a)) && Counted(c, Step(c, s, a), 0)
  {
    CountedMove(c, s, Step(c, s, a), a.i, Step(c, s, a).phase[a.i], 0, 0);
  }

  lemma CountedReserve(c: Config, s: State, i: nat)
    requires Shape(c, s) && Counted(c, s, 0) && Enabled(c, s, Reserve(i))
    ensures Shape(c, Step(c, s, Reserve(i))) && Counted(c, Step(c, s, Reserve(i)), 0)
  {
    var q := Sending(s.phase[i].outcome, s.phase[i].next);
    TallyUpdate(s.phase, i, q, Owing);
    CountedMove(c, s, Step(c, s, Reserve(i)), i, q, 0, 0);
  }

  lemma CountedSendNext(c: Config, s: State, i: nat)
    requires Shape(c, s) && Counted(c, s, 0) && Enabled(c, s, SendNext(i))
    requires s.phase[s.phase[i].next].Unsent?
    ensures Shape(c, Step(c, s, SendNext(i))) && Counted(c, Step(c, s, SendNext(i)), 0)
  {
    var q := Draining(s.phase[i].outcome, true);
    var u := s.(phase := s.phase[i := q]);
    CountedMove(c, s, u, i, q, 0, 1);
    CountedMove(c, u, Step(c, s, SendNext(i)), s.phase[i].next, InFlight, 1, 0);
  }

  lemma StillPending(c: Config, s: State, i: nat)
    requires Shape(c, s) && Counted(c, s, 0) && i < |s.phase| && !Is(Ended, s.phase[i])
    ensures s.pending >= 1
  {
    TallyBound(s.phase, Ended);
  }

  lemma CountedLatch(c: Config, s: State, a: Action)
    requires Shape(c, s) && Counted(c, s, 0) && Enabled(c, s, a) && (a.Drain? || a.Fire?)
    requires a.Drain? ==> s.pending >= 1
    ensures Shape(c, Step(c, s, a)) && Counted(c, Step(c, s, a), 0)
  {
    CountedMove(c, s, Step(c, s, a), a.i, Step(c, s, a).phase[a.i], 0, 0);
  }

  lemma StepCounted(c: Config, s: State, a: Action)
    requires Inv(c, s) && Enabled(c, s, a)
    ensures Shape(c, Step(c, s, a)) && Counted(c, Step(c, s, a), 0)
  {
    if a.Send? || a.Count? {
      CountedSender(c, s, a);
    } else if a.SendNext? {
      assert Carries(s.phase, a.i, s.phase[a.i].next);
      CountedSendNext(c, s, a.i);
    } else if a.Drain? {
      StillPending(c, s, a.i);
      CountedLatch(c, s, a);
    } else if a.Fire? {
      CountedLatch(c, s, a);
    } else if a.Reserve? {
      CountedReserve(c, s, a.i);
    } else {
      CountedCompletion(c, s, a);
    }
  }

  /** An action that leaves the set of carried and of unsent operations alone keeps their placement. */
  lemma PlacedStill(c: Config, s: State, t: State, i: nat)
    requires Shape(c, s) && Placed(c, s) && i < |s.phase|
    requires t.next == s.next && t.issued == s.issued && t.uncounted == s.uncounted
    requires |t.phase| == |s.phase| && t.phase == s.phase[i := t.phase[i]]
    requires Is(Sent, t.phase[i]) == Is(Sent, s.phase[i])
    requires forall k :: Carries(t.phase, i, k) == Carries(s.phase, i, k)
    requires Lone(t.phase[i]) ==> s.next == c.count
    ensures Placed(c, t)
  {
    assert forall j, k :: Carries(t.phase, j, k) <==> Carries(s.phase, j, k);
  }

  lemma PlacedSender(c: Config, s: State, a: Action)
    requires Shape(c, s) && Placed(c, s) && Enabled(c, s, a) && (a.Send? || a.Count?)
    ensures Placed(c, Step(c, s, a))
  {
    var t := Step(c, s, a);
    assert forall j, k :: Carries(t.phase, j, k) <==> Carries(s.phase, j, k);
  }

  lemma PlacedTake(c: Config, s: State, i: nat)
    requires Shape(c, s) && Placed(c, s) && Enabled(c, s, Take(i)) && s.next < c.count
    ensures Placed(c, Step(c, s, Take(i)))
  {
    var t := Step(c, s, Take(i));
    assert forall j, k :: Carries(t.phase, j, k) <==> Carries(s.phase, j, k) || (j == i && k == s.next);
    assert Carries(t.phase, i, s.next);
  }

  lemma PlacedSendNext(c: Config, s: State, i: nat)
    requires Shape(c, s) && Placed(c, s) && Enabled(c, s, SendNext(i))
    ensures Placed(c, Step(c, s, SendNext(i)))
  {
    var t := Step(c, s, SendNext(i));
    assert Carries(s.phase, i, s.phase[i].next);
    assert forall j, k :: Carries(t.phase, j, k) <==> Carries(s.phase, j, k) && j != i;
  }

  lemma StepPlaced(c: Config, s: State, a: Action)
    requires Shape(c, s) && Placed(c, s) && Enabled(c, s, a)
    ensures Placed(c, Step(c, s, a))
  {
    if a.Send? || a.Count? {
      PlacedSender(c, s, a);
    } else if a.SendNext? {
      PlacedSendNext(c, s, a.i);
    } else if a.Take? && s.next < c.count {
      PlacedTake(c, s, a.i);
    } else {
      PlacedStill(c, s, Step(c, s, a), a.i);
    }
  }

  /** Moving an operation that stays on its side of the recording keeps the blame right. */
  lemma BlamedStill(s: State, t: State, i: nat, q: Phase)
    requires Blamed(s) && i < |s.phase| && t.phase == s.phase[i := q]
    requires HasRecorded(q) == HasRecorded(s.phase[i])
    requires HasRecorded(q) ==> q.outcome == s.phase[i].outcome
    requires s.fired != [] ==> Is(Ended, q)
    requires t.failures == s.failures && t.fired == s.fired
    ensures Blamed(t)
  {
  }

  lemma BlamedRecord(c: Config, s: State, i: nat)
    requires Shape(c, s) && Blamed(s) && Enabled(c, s, Record(i))
    ensures Blamed(Step(c, s, Record(i)))
  {
  }

  lemma BlamedFire(c: Config, s: State, i: nat)
    requires Shape(c, s) && Blamed(s) && Enabled(c, s, Fire(i))
    requires forall j :: 0 <= j < |s.phase| ==> Is(Ended, s.phase[j])
    ensures Blamed(Step(c, s, Fire(i)))
  {
  }

  lemma AllEnded(c: Config, s: State, i: nat)
    requires Shape(c, s) && Counted(c, s, 0) && i < |s.phase| && s.phase[i].Firing?
    ensures forall j :: 0 <= j < |s.phase| ==> Is(Ended, s.phase[j])
  {
    TallyBound(s.phase, Fires);
    TallyBound(s.phase, Ended);
  }

  /** Once the handler was called, only the sending thread may still have to count an operation. */
  lemma NotFiredYet(c: Config, s: State, a: Action)
    requires Inv(c, s) && Enabled(c, s, a) && !a.Count?
    ensures s.fired == []
  {
    if a.Send? {
      assert !Is(Ended, s.phase[s.issued]);
    } else if a.Fire? {
      TallyBound(s.phase, Fires);
    } else {
      assert !Is(Ended, s.phase[a.i]);
    }
  }

  predicate FailedPhase(p: Phase) { !p.Unsent? && !p.InFlight? && p.outcome.Failed? }

  predicate AnyFailed(phase: seq<Phase>) { exists k :: 0 <= k < |phase| && FailedPhase(phase[k]) }

  /** The map passed to the joined handler is non-empty exactly when an operation failed. */
  lemma FiringFailures(s: State)
    requires Blamed(s) && forall j :: 0 <= j < |s.phase| ==> Is(Ended, s.phase[j])
    ensures s.failures != map[] <==> AnyFailed(s.phase)
  {
    if s.failures != map[] {
      var i :| i in s.failures;
      assert FailedPhase(s.phase[i]);
    }
    if AnyFailed(s.phase) {
      var i :| 0 <= i < |s.phase| && FailedPhase(s.phase[i]);
      assert Is(Ended, s.phase[i]) && i in s.failures;
    }
  }

  lemma StepBlamed(c: Config, s: State, a: Action)
    requires Inv(c, s) && Enabled(c, s, a)
    ensures Blamed(Step(c, s, a))
  {
    var t := Step(c, s, a);
    if a.Fire? {
      AllEnded(c, s, a.i);
      BlamedFire(c, s, a.i);
    } else if a.Record? {
      BlamedRecord(c, s, a.i);
    } else if a.SendNext? {
      var q := Draining(s.phase[a.i].outcome, true);
      var u := s.(phase := s.phase[a.i := q]);
      assert Carries(s.phase, a.i, s.phase[a.i].next);
      BlamedStill(s, u, a.i, q);
      BlamedStill(u, t, s.phase[a.i].next, InFlight);
    } else if a.Send? {
      BlamedStill(s, t, s.issued, InFlight);
    } else if !a.Count? {
      BlamedStill(s, t, a.i, t.phase[a.i]);
    }
  }

  lemma LoggedSend(s: State, t: State, k: nat)
    requires Logged(s) && k < |s.phase| && s.phase[k].Unsent?
    requires t.sends == s.sends + [k] && |t.phase| == |s.phase| && t.phase[k].InFlight?
    requires forall j :: 0 <= j < |s.phase| && j != k ==> Is(Sent, t.phase[j]) == Is(Sent, s.phase[j])
    ensures Logged(t)
  {
    assert k !in s.sends;
  }

  lemma LoggedStill(s: State, t: State)
    requires Logged(s) && t.sends == s.sends && |t.phase| == |s.phase|
    requires forall j :: 0 <= j < |s.phase| ==> Is(Sent, t.phase[j]) == Is(Sent, s.phase[j])
    ensures Logged(t)
  {
  }

  lemma StepLogged(c: Config, s: State, a: Action)
    requires Shape(c, s) && Placed(c, s) && Logged(s) && Enabled(c, s, a)
    ensures Logged(Step(c, s, a))
  {
    if a.SendNext? {
      assert Carries(s.phase, a.i, s.phase[a.i].next);
      LoggedSend(s, Step(c, s, a), s.phase[a.i].next);
    } else if a.Send? {
      LoggedSend(s, Step(c, s, a), s.issued);
    } else {
      LoggedStill(s, Step(c, s, a));
    }
  }

  lemma StepInv(c: Config, s: State, a: Action)
    requires Inv(c, s) && Enabled(c, s, a)
    ensures Inv(c, Step(c, s, a))
  {
    StepCounted(c, s, a);
    StepPlaced(c, s, a);
    StepBlamed(c, s, a);
    StepLogged(c, s, a);
  }

  lemma {:induction false} RunInv(c: Config, s: State, run: seq<Action>)
    requires Inv(c, s) && Legal(c, s, run)
    ensures Inv(c, Exec(c, s, run))
    decreases |run|
  {
    if run != [] {
      StepInv(c, s, run[0]);
      RunInv(c, Step(c, s, run[0]), run[1..]);
    }
  }

  // ---------- safety ----------

  ghost predicate Safe(c: Config, s: State) {
    && |s.phase| == c.count
    && !s.violated
    && (c.batchSize > 0 ==> Tally(s.phase, Flying) <= c.batchSize && s.guard <= c.batchSize)
    && (forall x, y :: 0 <= x < y < |s.sends| ==> s.sends[x] != s.sends[y])
    && (forall k :: 0 <= k < c.count ==> (k in s.sends <==> Is(Sent, s.phase[k])))
    && |s.fired| <= 1
    && (s.fired != [] ==>
          && (forall i :: 0 <= i < c.count ==> Is(Ended, s.phase[i]))
          && (forall i :: i in s.fired[0] ==> i < c.count)
          && (forall i :: 0 <= i < c.count ==> (i in s.fired[0] <==> s.phase[i].outcome.Failed?))
          && (forall i :: 0 <= i < c.count && i in s.fired[0] ==> s.phase[i].outcome == Failed(s.fired[0][i])))
  }

  lemma InvIsSafe(c: Config, s: State)
    requires Inv(c, s)
    ensures Safe(c, s)
  {
    TallyFlying(s.phase);
    if s.fired != [] {
      assert s.fired[0] in s.fired;
    }
  }

  /** In every interleaving: no operation is sent twice, at most batchSize are in
      flight, the batch limit is never violated, and the joined handler has run
      at most once, only after every operation completed, with exactly the
      failed operations in the failure map. */
  lemma JoinSafety(c: Config, run: seq<Action>)
    requires c.Valid() && Legal(c, Init(c), run)
    ensures Safe(c, Exec(c, Init(c), run))
  {
    InitInv(c);
    RunInv(c, Init(c), run);
    InvIsSafe(c, Exec(c, Init(c), run));
  }

  // ---------- the batch window is used ----------

  /** The sending thread is done. */
  predicate SenderDone(c: Config, s: State) { !Enabled(c, s, Action.Send) && !Enabled(c, s, Action.Count) }

  /** Only the sending thread moved: the first operations, in order, are in flight. */
  ghost predicate OnlySent(c: Config, s: State) {
    && Shape(c, s)
    && |s.sends| == s.issued + Bit(s.uncounted)
    && (forall k :: 0 <= k < |s.sends| ==> s.sends[k] == k)
    && (forall k :: 0 <= k < c.count ==> s.phase[k] == if k < |s.sends| then InFlight else Unsent)
  }

  lemma {:induction false} RunOnlySends(c: Config, s: State, run: seq<Action>)
    requires OnlySent(c, s) && Legal(c, s, run)
    requires forall i :: 0 <= i < |run| ==> !run[i].Complete?
    ensures OnlySent(c, Exec(c, s, run))
    decreases |run|
  {
    if run != [] {
      var t := Step(c, s, run[0]);
      assert run[0].Send? || run[0].Count?;
      assert OnlySent(c, t);
      RunOnlySends(c, t, run[1..]);
    }
  }

  /** As long as nothing completes, the sending thread sends the first operations in order: all of
      them, or as many as the batch size says. */
  lemma SentUpFront(c: Config, run: seq<Action>)
    requires c.Valid() && Legal(c, Init(c), run)
    requires forall i :: 0 <= i < |run| ==> !run[i].Complete?
    requires SenderDone(c, Exec(c, Init(c), run))
    ensures
      var n := if c.batchSize == 0 || c.batchSize >= c.count then c.count else c.batchSize;
      Exec(c, Init(c), run).sends == seq(n, k => k)
  {
    assert OnlySent(c, Init(c));
    RunOnlySends(c, Init(c), run);
  }

  lemma {:induction false} TallySplit(s: seq<Phase>)
    requires forall i :: 0 <= i < |s| ==> !Lone(s[i])
    ensures Tally(s, Sent) == Tally(s, Active) + Tally(s, SentNext)
  {
    if s != [] {
      TallySplit(s[..|s| - 1]);
    }
  }

  /** In every interleaving, once the sending thread is done and while the iterator has operations
      left, the batch window is full: exactly that many operations are sent and have not yet
      sent another one. */
  lemma WindowIsFull(c: Config, run: seq<Action>)
    requires c.Valid() && Legal(c, Init(c), run)
    requires SenderDone(c, Exec(c, Init(c), run)) && Exec(c, Init(c), run).next < c.count
    ensures
      var n := if c.batchSize == 0 || c.batchSize >= c.count then c.count else c.batchSize;
      Tally(Exec(c, Init(c), run).phase, Active) == n
  {
    InitInv(c);
    RunInv(c, Init(c), run);
    TallySplit(Exec(c, Init(c), run).phase);
  }

  // ---------- progress ----------

  ghost predicate Quiescent(c: Config, s: State) {
    forall a :: !Enabled(c, s, a)
  }

  lemma QuiescentPhase(c: Config, s: State, i: nat)
    requires Inv(c, s) && Quiescent(c, s) && i < c.count
    ensures s.phase[i].Unsent? || s.phase[i].Done?
  {
    assert !Enabled(c, s, Complete(i, Succeeded));
    assert !Enabled(c, s, Record(i));
    assert !Enabled(c, s, Release(i));
    assert !Enabled(c, s, Take(i));
    assert !Enabled(c, s, Reserve(i));
    assert !Enabled(c, s, Drain(i));
    assert !Enabled(c, s, Fire(i));
    assert !Enabled(c, s, SendNext(i));
    assert s.phase[i].Sending? ==> Carries(s.phase, i, s.phase[i].next);
  }

  /** A state with no enabled action has drained the iterator: the batch window never stalls. */
  lemma NoStall(c: Config, s: State)
    requires Inv(c, s) && Quiescent(c, s)
    ensures forall i :: 0 <= i < c.count ==> s.phase[i].Done?
  {
    assert !Enabled(c, s, Action.Send);
    assert !Enabled(c, s, Action.Count);
    forall i | 0 <= i < c.count
      ensures s.phase[i].Unsent? || s.phase[i].Done?
    {
      QuiescentPhase(c, s, i);
    }
    assert s.issued == c.Window();
    assert forall k :: 0 <= k < s.next ==> s.phase[k].Done?;
    if s.next < c.count {
      assert forall i :: 0 <= i < s.next ==> Is(Took, s.phase[i]);
      TallyPrefix(s.phase, s.next, Took);
      assert false;
    }
  }

  /** When nothing is enabled any more, every operation was sent and completed; the
      handler has fired (once) exactly when no id was prepared twice. */
  lemma JoinCompletes(c: Config, run: seq<Action>)
    requires c.Valid() && Legal(c, Init(c), run)
    requires Quiescent(c, Exec(c, Init(c), run))
    ensures
      var s := Exec(c, Init(c), run);
      && |s.phase| == c.count
      && (forall i :: 0 <= i < c.count ==> s.phase[i].Done? && i in s.sends)
      && (|s.fired| == 1 <==> c.prepared == c.count)
      && (|s.fired| == 0 <==> c.prepared > c.count)
  {
    InitInv(c);
    RunInv(c, Init(c), run);
    var s := Exec(c, Init(c), run);
    NoStall(c, s);
    TallyBound(s.phase, Ended);
    TallyNone(s.phase, Fires);
  }

  function Weight(p: Phase): nat {
    match p
    case Unsent => 9
    case InFlight => 8
    case Began(_) => 7
    case Recorded(_) => 6
    case Released(_) => 5
    case Holding(_, _) => 4
    case Sending(_, _) => 3
    case Draining(_, _) => 2
    case Firing(_, _) => 1
    case Done(_, _) => 0
  }

  function Load(s: seq<Phase>): nat {
    if s == [] then 0 else Load(s[..|s| - 1]) + Weight(s[|s| - 1])
  }

  lemma {:induction false} LoadUpdate(s: seq<Phase>, i: nat, p: Phase)
    requires i < |s|
    ensures Load(s[i := p]) == Load(s) - Weight(s[i]) + Weight(p)
  {
    var n := |s| - 1;
    if i < n {
      assert s[i := p][..n] == s[..n][i := p];
      LoadUpdate(s[..n], i, p);
    } else {
      assert s[i := p][..n] == s[..n];
    }
  }

  lemma {:induction false} LoadBound(s: seq<Phase>)
    ensures Load(s) <= 9 * |s|
  {
    if s != [] {
      LoadBound(s[..|s| - 1]);
    }
  }

  function Rank(c: Config, s: State): int {
    Load(s.phase) + c.Window() - s.issued
  }

  lemma RankSendNext(c: Config, s: State, i: nat)
    requires Shape(c, s) && Placed(c, s) && Enabled(c, s, SendNext(i))
    ensures Rank(c, Step(c, s, SendNext(i))) < Rank(c, s)
  {
    var q := Draining(s.phase[i].outcome, true);
    assert Carries(s.phase, i, s.phase[i].next);
    LoadUpdate(s.phase, i, q);
    LoadUpdate(s.phase[i := q], s.phase[i].next, InFlight);
  }

  lemma RankPhase(c: Config, s: State, t: State, i: nat)
    requires i < |s.phase| == |t.phase| && t.phase == s.phase[i := t.phase[i]] && t.issued >= s.issued
    requires Weight(t.phase[i]) < Weight(s.phase[i])
    ensures Rank(c, t) < Rank(c, s)
  {
    LoadUpdate(s.phase, i, t.phase[i]);
  }

  lemma StepRank(c: Config, s: State, a: Action)
    requires Shape(c, s) && Placed(c, s) && Enabled(c, s, a)
    ensures Rank(c, Step(c, s, a)) < Rank(c, s)
  {
    if a.SendNext? {
      RankSendNext(c, s, a.i);
    } else if a.Send? {
      RankPhase(c, s, Step(c, s, a), s.issued);
    } else if !a.Count? {
      RankPhase(c, s, Step(c, s, a), a.i);
    }
  }

  lemma {:induction false} RunRank(c: Config, s: State, run: seq<Action>)
    requires Inv(c, s) && Legal(c, s, run)
    ensures |run| <= Rank(c, s)
    decreases |run|
  {
    if run != [] {
      StepInv(c, s, run[0]);
      StepRank(c, s, run[0]);
      RunRank(c, Step(c, s, run[0]), run[1..]);
    }
  }

  /** No run is longer than ten actions per operation, so every run reaches the
      quiescent state of JoinCompletes. */
  lemma JoinTerminates(c: Config, run: seq<Action>)
    requires c.Valid() && Legal(c, Init(c), run)
    ensures |run| <= 10 * c.count
  {
    InitInv(c);
    RunRank(c, Init(c), run);
    LoadBound(Init(c).phase);
  }

  /** The local list of sendWithBatch: up to batchSize operations, all of them when there is no limit. */
  method CollectBatch(c: Config) returns (batch: seq<nat>, next: nat)
    requires c.Valid()
    ensures next == |batch| == if c.batchSize == 0 || c.batchSize >= c.count then c.count else c.batchSize
    ensures forall k :: 0 <= k < |batch| ==> batch[k] == k
  {
    batch, next := [], 0;
    while next < c.count
      invariant next == |batch| <= c.Window()
      invariant c.batchSize > 0 ==> |batch| < c.batchSize
      invariant forall k :: 0 <= k < |batch| ==> batch[k] == k
    {
      batch := batch + [next];
      next := next + 1;
      if c.batchSize > 0 && |batch| == c.batchSize {
        break;
      }
    }
  }
}
