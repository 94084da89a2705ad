/**
 Retrying forwarded operations (ForwardRequestFilter.retryOrFailRequest and the retry map of
 OperationTracker).

 A failed forward is queued under the current time; the maintenance of the tracker hands it back
 for a fresh attempt once as many seconds have passed as the operation was retried.  One clock
 that never goes back stands for the two clocks of the source.
 */
module ForwardRetry {

  const INTERVAL_MICROS: int := 1_000_000

  datatype Status = InFlight | Queued(time: int) | Failed

  /** `base` is the retry count the operation came with, `queued` the times it was queued at. */
  datatype Op = Op(expiration: int, forwarded: bool, base: nat, retryCount: nat, queued: seq<int>, status: Status)

  datatype State = State(ops: map<nat, Op>, pending: map<int, nat>, clock: int)

  /** How a forward failed: the error body asks for a retry, or the I/O timed out. */
  datatype Failure = Failure(bodySaysRetry: bool, timedOut: bool)

  datatype Action =
    | Fail(id: nat, failure: Failure, now: int)
    | Maintain(now: int)

  predicate ShouldRetry(o: Op, f: Failure) { (f.bodySaysRetry || f.timedOut) && !o.forwarded }

  /** retryOrFailRequest, and trackOperationForRetry when it decides to retry. */
  function AfterFailure(o: Op, f: Failure, now: int): Op {
    if o.expiration < now then o.(status := Failed)
    else if !ShouldRetry(o, f) then o.(status := Failed)
    else o.(retryCount := o.retryCount + 1, queued := o.queued + [now], status := Queued(now))
  }

  predicate Due(s: State, time: int, now: int)
    requires time in s.pending && s.pending[time] in s.ops
  {
    BackOffOver(time, s.ops[s.pending[time]].retryCount, now)
  }

  ghost predicate Consistent(s: State) {
    && (forall t :: t in s.pending ==> s.pending[t] in s.ops && s.ops[s.pending[t]].status == Queued(t))
    && (forall i :: i in s.ops && s.ops[i].status.Queued? ==>
          s.ops[i].status.time in s.pending && s.pending[s.ops[i].status.time] == i)
  }

  function Released(s: State, now: int): State
    requires forall t :: t in s.pending ==> s.pending[t] in s.ops
  {
    State(
      map i | i in s.ops ::
        if s.ops[i].status.Queued? && s.ops[i].status.time in s.pending && s.pending[s.ops[i].status.time] == i
           && Due(s, s.ops[i].status.time, now)
        then s.ops[i].(status := InFlight) else s.ops[i],
      map t | t in s.pending && !Due(s, t, now) :: s.pending[t],
      s.clock)
  }

  ghost predicate Enabled(s: State, a: Action) {
    match a
    case Fail(id, _, now) => now >= s.clock && now !in s.pending && id in s.ops && s.ops[id].status == InFlight
    case Maintain(now) => now >= s.clock
  }

  ghost function Step(s: State, a: Action): State
    requires Consistent(s) && Enabled(s, a)
  {
    match a
    case Fail(id, f, now) =>
      var o := AfterFailure(s.ops[id], f, now);
      State(s.ops[id := o], if o.status.Queued? then s.pending[now := id] else s.pending, now)
    case Maintain(now) => Released(s, now).(clock := now)
  }

  // ---------- the invariant ----------

  /** The k-th gap between two queueings is at least k seconds. */
  ghost predicate Spaced(queued: seq<int>) {
    forall k :: 0 < k < |queued| ==> Gap(queued, k) >= k * INTERVAL_MICROS
  }

  function Gap(queued: seq<int>, k: int): int
    requires 0 < k < |queued|
  {
    queued[k] - queued[k - 1]
  }

  ghost predicate OpInv(o: Op, clock: int) {
    && o.retryCount == o.base + |o.queued|
    && Spaced(o.queued)
    && (forall k :: 0 <= k < |o.queued| ==> o.queued[k] <= o.expiration && o.queued[k] <= clock)
    && (o.status.Queued? ==> o.queued != [] && o.status.time == o.queued[|o.queued| - 1])
    && (o.status == InFlight && o.queued != [] ==>
          o.queued[|o.queued| - 1] + |o.queued| * INTERVAL_MICROS <= clock)
  }

  ghost predicate Inv(s: State) {
    Consistent(s) && forall i :: i in s.ops ==> OpInv(s.ops[i], s.clock)
  }

  lemma QueueAgain(queued: seq<int>, now: int)
    requires Spaced(queued)
    requires queued != [] ==> queued[|queued| - 1] + |queued| * INTERVAL_MICROS <= now
    ensures Spaced(queued + [now])
  {
    var q := queued + [now];
    forall k | 0 < k < |q|
      ensures Gap(q, k) >= k * INTERVAL_MICROS
    {
      if k < |queued| {
        assert Gap(q, k) == Gap(queued, k);
      }
    }
  }

  lemma FailInv(s: State, id: nat, f: Failure, now: int)
    requires Inv(s) && Enabled(s, Fail(id, f, now))
    ensures Inv(Step(s, Fail(id, f, now)))
  {
    var o := s.ops[id];
    var t := Step(s, Fail(id, f, now));
    assert OpInv(o, s.clock);
    QueueAgain(o.queued, now);
    assert OpInv(t.ops[id], now);
    forall i | i in t.ops
      ensures OpInv(t.ops[i], t.clock)
    {
      if i != id {
        assert OpInv(s.ops[i], s.clock);
      }
    }
  }

  lemma MaintainInv(s: State, now: int)
    requires Inv(s) && Enabled(s, Maintain(now))
    ensures Inv(Step(s, Maintain(now)))
  {
    var t := Step(s, Maintain(now));
    forall i | i in t.ops
      ensures OpInv(t.ops[i], t.clock)
    {
      assert OpInv(s.ops[i], s.clock);
    }
  }

  lemma StepInv(s: State, a: Action)
    requires Inv(s) && Enabled(s, a)
    ensures Inv(Step(s, a))
  {
    match a
    case Fail(id, f, now) => FailInv(s, id, f, now);
    case Maintain(now) => MaintainInv(s, now);
  }

  ghost predicate Legal(s: State, run: seq<Action>)
    decreases |run|
  {
    run == [] || (Consistent(s) && Enabled(s, run[0]) && Legal(Step(s, run[0]), run[1..]))
  }

  ghost function Exec(s: State, run: seq<Action>): State
    requires Legal(s, run)
    decreases |run|
  {
    if run == [] then s else Exec(Step(s, run[0]), run[1..])
  }

  lemma {:induction false} RunInv(s: State, run: seq<Action>)
    requires Inv(s) && Legal(s, run)
    ensures Inv(Exec(s, run))
    decreases |run|
  {
    if run != [] {
      StepInv(s, run[0]);
      RunInv(Step(s, run[0]), run[1..]);
    }
  }

  /** A failed forward is queued, once more and under the current time, if and only if the operation
      has not expired, was not forwarded to this node, and the failure asks for a retry or was a
      timeout; otherwise it is failed for good and nothing is queued. */
  lemma RetriedExactly(s: State, id: nat, f: Failure, now: int)
    requires Consistent(s) && Enabled(s, Fail(id, f, now))
    ensures
      var o, t := s.ops[id], Step(s, Fail(id, f, now));
      var retried := o.expiration >= now && !o.forwarded && (f.bodySaysRetry || f.timedOut);
      && id in t.ops
      && t.ops == s.ops[id := t.ops[id]]
      && (retried ==>
            && t.ops[id].status == Queued(now) && t.ops[id].queued == o.queued + [now]
            && t.ops[id].retryCount == o.retryCount + 1 && t.pending == s.pending[now := id])
      && (!retried ==>
            && t.ops[id].status == Failed && t.ops[id].queued == o.queued
            && t.ops[id].retryCount == o.retryCount && t.pending == s.pending)
      && t.ops[id].expiration == o.expiration && t.ops[id].forwarded == o.forwarded
  {
  }

  /** The same in every run: what is enabled in a reachable state is decided by the operation alone. */
  lemma RetriedInEveryRun(s: State, run: seq<Action>, id: nat, f: Failure, now: int)
    requires Fresh(s) && Legal(s, run) && Enabled(Exec(s, run), Fail(id, f, now))
    ensures Consistent(Exec(s, run))
    ensures
      var x := Exec(s, run);
      var o := x.ops[id];
      Step(x, Fail(id, f, now)).ops[id].status ==
        if o.expiration >= now && !o.forwarded && (f.bodySaysRetry || f.timedOut) then Queued(now) else Failed
  {
    RunInv(s, run);
    RetriedExactly(Exec(s, run), id, f, now);
  }

  // ---------- the quadratic bound ----------

  lemma {:induction false} SpacedGrows(queued: seq<int>, k: nat)
    requires Spaced(queued) && k < |queued|
    ensures 2 * (queued[k] - queued[0]) >= k * (k + 1) * INTERVAL_MICROS
  {
    if k > 0 {
      SpacedGrows(queued, k - 1);
      assert Gap(queued, k) >= k * INTERVAL_MICROS;
      assert k * (k + 1) == (k - 1) * k + 2 * k;
    }
  }

  /** A state in which no operation was queued yet. */
  ghost predicate Fresh(s: State) {
    s.pending == map[] && forall i :: i in s.ops ==>
      s.ops[i].status == InFlight && s.ops[i].queued == [] && s.ops[i].retryCount == s.ops[i].base
  }

  /** In every run the k-th queueing of an operation comes at least k(k-1)/2 seconds after the
      first, so an operation that expires T after it was first queued is queued at most k
      times with k(k-1)/2 seconds not more than T. */
  lemma RetriesAreQuadraticallyBounded(s: State, run: seq<Action>, id: nat, k: nat)
    requires Fresh(s) && Legal(s, run) && id in Exec(s, run).ops
    requires 1 <= k <= |Exec(s, run).ops[id].queued|
    ensures
      var o := Exec(s, run).ops[id];
      && 2 * (o.queued[k - 1] - o.queued[0]) >= k * (k - 1) * 1_000_000
      && |o.queued| * (|o.queued| - 1) * 1_000_000 <= 2 * (o.expiration - o.queued[0])
  {
    RunInv(s, run);
    var o := Exec(s, run).ops[id];
    assert OpInv(o, Exec(s, run).clock);
    SpacedGrows(o.queued, k - 1);
    assert (k - 1) * (k - 1 + 1) == k * (k - 1);
    var n := |o.queued|;
    SpacedGrows(o.queued, n - 1);
    assert (n - 1) * (n - 1 + 1) == n * (n - 1);
    assert o.queued[n - 1] <= o.expiration;
  }

  /** A queued operation is never lost: it is in the retry map until a maintenance that comes
      late enough hands it back, and that maintenance does. */
  lemma QueuedUntilDue(s: State, run: seq<Action>, id: nat, now: int)
    requires Fresh(s) && Legal(s, run) && id in Exec(s, run).ops
    requires Exec(s, run).ops[id].status.Queued? && Enabled(Exec(s, run), Maintain(now))
    ensures
      var x := Exec(s, run);
      && Consistent(x)
      && x.ops[id].status.time in x.pending && x.pending[x.ops[id].status.time] == id
      && (Step(x, Maintain(now)).ops[id].status == InFlight <==>
            x.ops[id].status.time + x.ops[id].retryCount * 1_000_000 <= now)
  {
    RunInv(s, run);
  }

  // ---------- the retry loop ----------

  lemma SomeTime(times: set<int>)
    ensures times == {} || exists t :: t in times
  {
    if forall t: int :: t !in times {
      assert times == {};
    }
  }

  /** The linear back-off of an operation queued at `time` is over. */
  predicate BackOffOver(time: int, retries: nat, now: int) { retries * INTERVAL_MICROS + time <= now }

  lemma Together(a: map<int, nat>, b: map<int, nat>, all: map<int, nat>)
    requires forall t :: t in all <==> t in a || t in b
    requires forall t :: t in a ==> a[t] == all[t]
    requires forall t :: t in b ==> b[t] == all[t]
    ensures a + b == all
  {
    var ab := a + b;
    assert forall t :: t in ab <==> t in all;
    assert forall t :: t in ab ==> ab[t] == all[t];
  }

  class OperationTracker {
    var pendingOperationsForRetry: map<int, nat>
    var retryCount: map<nat, nat>  // of the operations; one that is not here was not retried

    constructor ()
      ensures pendingOperationsForRetry == map[] && retryCount == map[]
    {
      pendingOperationsForRetry, retryCount := map[], map[];
    }

    function Retries(id: nat): nat
      reads this`retryCount
    {
      if id in retryCount then retryCount[id] else 0
    }

    predicate IsDue(entries: map<int, nat>, time: int, now: int)
      requires time in entries
      reads this`retryCount
    {
      BackOffOver(time, Retries(entries[time]), now)
    }

    method TrackOperationForRetry(queueTime: int, id: nat)
      modifies this
      ensures retryCount == old(retryCount)[id := old(Retries(id)) + 1]
      ensures pendingOperationsForRetry == old(pendingOperationsForRetry)[queueTime := id]
    {
      retryCount := retryCount[id := Retries(id) + 1];
      pendingOperationsForRetry := pendingOperationsForRetry[queueTime := id];
    }

    /** Hands back the operations whose back-off is over and keeps the others.  When the host is
        stopping, one operation (if there is any) is failed and the map is left alone. */
    method PerformMaintenance(now: int, stopping: bool) returns (handled: map<int, nat>, failed: set<nat>)
      modifies this`pendingOperationsForRetry
      ensures stopping ==>
                && pendingOperationsForRetry == old(pendingOperationsForRetry) && handled == map[]
                && (old(pendingOperationsForRetry) == map[] ==> failed == {})
                && (old(pendingOperationsForRetry) != map[] ==>
                      exists t :: t in old(pendingOperationsForRetry) && failed == {old(pendingOperationsForRetry)[t]})
      ensures !stopping ==> failed == {}
      ensures !stopping ==> forall t :: t in pendingOperationsForRetry <==>
                t in old(pendingOperationsForRetry) && !IsDue(old(pendingOperationsForRetry), t, now)
      ensures !stopping ==> forall t :: t in handled <==>
                t in old(pendingOperationsForRetry) && IsDue(old(pendingOperationsForRetry), t, now)
      ensures pendingOperationsForRetry + handled == old(pendingOperationsForRetry)
    {
      handled, failed := map[], {};
      var entries := pendingOperationsForRetry;
      var rest := entries.Keys;
      while rest != {}
        invariant rest <= entries.Keys && entries == old(pendingOperationsForRetry) && failed == {}
        invariant stopping ==> pendingOperationsForRetry == entries && handled == map[] && rest == entries.Keys
        invariant forall t :: t in pendingOperationsForRetry <==> t in entries && (t in rest || !IsDue(entries, t, now))
        invariant forall t :: t in handled <==> t in entries && t !in rest && IsDue(entries, t, now)
        invariant forall t :: t in pendingOperationsForRetry ==> pendingOperationsForRetry[t] == entries[t]
        invariant forall t :: t in handled ==> handled[t] == entries[t]
        decreases rest
      {
        SomeTime(rest);
        var time :| time in rest;
        var o := entries[time];
        if stopping {
          failed := {o};
          assert entries + handled == entries;
          return;
        }
        rest := rest - {time};
        if Retries(o) * INTERVAL_MICROS + time <= now {
          pendingOperationsForRetry := pendingOperationsForRetry - {time};
          handled := handled[time := o];
        }
      }
      assert forall t :: t in entries <==> t in pendingOperationsForRetry || t in handled;
      Together(pendingOperationsForRetry, handled, entries);
    }
  }
}
