/**
 Scheduling of periodic service maintenance (ServiceMaintenanceTracker).

 Two indexes are kept: trackedServices maps a link to its expiration, nextExpiration maps
 an expiration to a bucket of links.  The synchronized blocks of the source are the atomic
 steps; one maintenance thread polls buckets and visits their links, while any thread may
 schedule a service; a link that is handed on, to its maintenance or first to the check of its
 ownership, is scheduled again when that ends.

 Time is read from more than one clock, so no order of the readings is presumed: the theorems
 say what has to hold of the expirations, and that a clock that never goes back makes it hold.
 */
module ServiceMaintenanceTracker {
  import opened Common

  const SCHEDULING_EPSILON_MICROS: int := 10_000

  /** `visiting` is what is left of the bucket polled last (with key `visited`); `performing`
      are the links whose maintenance was started and will schedule them again. */
  datatype State = State(
    tracked: map<string, int>,
    buckets: map<int, set<string>>,
    visited: int,
    visiting: set<string>,
    performing: set<(string, int)>,
    clock: int,
    closed: bool,
    nullPointer: bool)

  datatype Action =
    | Schedule(link: string, now: int, interval: int)
    | Poll(now: int)
    | Visit(link: string, skip: bool)
    | Reschedule(link: string, expiration: int, now: int, interval: int)
    | Close

  function Init(): State { State(map[], map[], 0, {}, {}, 0, false, false) }

  function Expiration(now: int, interval: int): int {
    Max(now, now + interval - SCHEDULING_EPSILON_MICROS)
  }

  lemma SomeKey(keys: set<int>)
    ensures keys == {} || exists x :: x in keys
  {
    if forall x: int :: x !in keys {
      assert keys == {};
    }
  }

  lemma {:induction false} EarliestExists(keys: set<int>) returns (k: int)
    requires keys != {}
    ensures k in keys && forall x :: x in keys ==> k <= x
  {
    SomeKey(keys);
    k :| k in keys;
    var rest := keys - {k};
    assert forall x :: x in keys <==> x == k || x in rest;
    if rest != {} {
      var m := EarliestExists(rest);
      k := if k <= m then k else m;
    }
  }

  function Earliest(keys: set<int>): (k: int)
    requires keys != {}
    ensures k in keys && forall x :: x in keys ==> k <= x
  {
    assert exists k :: k in keys && forall x :: x in keys ==> k <= x by {
      var k := EarliestExists(keys);
    }
    var k :| k in keys && forall x :: x in keys ==> k <= x;
    k
  }

  // ---------- the atomic steps ----------

  function WithoutLink(s: State, link: string): map<int, set<string>> {
    if link in s.tracked && s.tracked[link] in s.buckets
    then s.buckets[s.tracked[link] := s.buckets[s.tracked[link]] - {link}]
    else s.buckets
  }

  function Scheduled(s: State, link: string, expiration: int): State {
    var buckets := WithoutLink(s, link);
    var bucket := if expiration in buckets then buckets[expiration] else {};
    s.(tracked := s.tracked[link := expiration], buckets := buckets[expiration := bucket + {link}])
  }

  function Polled(s: State, now: int): State {
    if s.buckets.Keys == {} || Earliest(s.buckets.Keys) >= now then s
    else
      var e := Earliest(s.buckets.Keys);
      s.(buckets := s.buckets - {e}, visited := e, visiting := s.buckets[e])
  }

  /** checkAndRemoveFromMaintenance; looking up an untracked link yields null. */
  function Removed(s: State, link: string, expiration: int): State {
    if link !in s.tracked then s.(nullPointer := true)
    else if s.tracked[link] == expiration then s.(tracked := s.tracked - {link})
    else s
  }

  predicate InBucket(s: State, link: string, e: int) {
    e in s.buckets && link in s.buckets[e]
  }

  predicate InFlight(s: State, link: string, e: int) {
    (link in s.visiting && e == s.visited) || (link, e) in s.performing
  }

  /** Some link of the bucket with key e is still being visited or maintained. */
  ghost predicate KeyInFlight(s: State, e: int) { exists link :: InFlight(s, link, e) }

  /** The state when the maintenance of a link has ended. */
  function Ended(s: State, link: string, expiration: int): State {
    s.(performing := s.performing - {(link, expiration)})
  }

  /** A schedule must not reuse the key of a bucket that is in flight. */
  ghost predicate Enabled(s: State, a: Action) {
    match a
    case Schedule(_, now, interval) => !KeyInFlight(s, Expiration(now, interval))
    case Poll(now) => s.visiting == {}
    case Visit(link, _) => link in s.visiting
    case Reschedule(link, expiration, now, interval) =>
      (link, expiration) in s.performing && !KeyInFlight(Ended(s, link, expiration), Expiration(now, interval))
    case Close => true
  }

  function Step(s: State, a: Action): State {
    match a
    case Schedule(link, now, interval) =>
      Scheduled(s, link, Expiration(now, interval)).(clock := now)
    case Poll(now) => Polled(s, now).(clock := now)
    case Visit(link, skip) =>
      var t := if skip then Removed(s, link, s.visited)
               else s.(performing := s.performing + {(link, s.visited)});
      t.(visiting := s.visiting - {link})
    case Reschedule(link, expiration, now, interval) =>
      Scheduled(Ended(s, link, expiration), link, Expiration(now, interval)).(clock := now)
    case Close => s.(tracked := map[], buckets := map[], closed := true)
  }

  ghost predicate Legal(s: State, run: seq<Action>)
    decreases |run|
  {
    run == [] || (Enabled(s, run[0]) && Legal(Step(s, run[0]), run[1..]))
  }

  function Exec(s: State, run: seq<Action>): State
    decreases |run|
  {
    if run == [] then s else Exec(Step(s, run[0]), run[1..])
  }

  // ---------- the two indexes agree ----------

  ghost predicate Agree(s: State) {
    && (forall link, e :: InBucket(s, link, e) ==> link in s.tracked && s.tracked[link] == e)
    && (forall link :: link in s.tracked ==>
          InBucket(s, link, s.tracked[link]) || InFlight(s, link, s.tracked[link]))
  }

  ghost predicate Inv(s: State) {
    && Agree(s)
    && (forall link, e :: InFlight(s, link, e) ==> e !in s.buckets)
    && (!s.closed ==> !s.nullPointer && forall link :: link in s.visiting ==> link in s.tracked)
  }

  /** A schedule keeps the indexes in agreement if and only if its expiration is not the key of
      a bucket that is in flight. */
  lemma ScheduledInv(s: State, link: string, e: int)
    requires Inv(s)
    ensures Inv(Scheduled(s, link, e)) <==> !KeyInFlight(s, e)
    ensures InBucket(Scheduled(s, link, e), link, e)
  {
    var t := Scheduled(s, link, e);
    forall l, x | InBucket(t, l, x)
      ensures l in t.tracked && t.tracked[l] == x
    {
      if l != link || x != e {
        assert InBucket(s, l, x);
      }
    }
    forall l | l in t.tracked
      ensures InBucket(t, l, t.tracked[l]) || InFlight(t, l, t.tracked[l])
    {
      if l != link {
        assert InBucket(s, l, s.tracked[l]) ==> InBucket(t, l, s.tracked[l]);
      }
    }
    assert forall l, x :: InFlight(t, l, x) <==> InFlight(s, l, x);
  }

  /** A schedule moves its link to the bucket of its expiration and no other link. */
  lemma ScheduleMoves(s: State, link: string, e: int)
    requires Inv(s)
    ensures
      var t := Scheduled(s, link, e);
      && t.tracked == s.tracked[link := e]
      && (forall l, x :: InBucket(t, l, x) <==> if l == link then x == e else InBucket(s, l, x))
      && (forall l, x :: InFlight(t, l, x) <==> InFlight(s, l, x))
  {
    var t := Scheduled(s, link, e);
    forall l, x
      ensures InBucket(t, l, x) <==> if l == link then x == e else InBucket(s, l, x)
    {
      assert InBucket(s, link, x) ==> s.tracked[link] == x;
    }
  }

  /** A poll takes out the bucket that expired first, if one has expired. */
  lemma PolledExactly(s: State, now: int, e: int)
    requires e in s.buckets && forall x :: x in s.buckets ==> e <= x
    ensures e < now ==> Polled(s, now) == s.(buckets := s.buckets - {e}, visited := e, visiting := s.buckets[e])
    ensures e >= now ==> Polled(s, now) == s
  {
    assert e in s.buckets.Keys;
  }

  /** An action that does not schedule the link and polls no later than at `e`. */
  predicate Quiet(a: Action, link: string, e: int) {
    match a
    case Schedule(l, _, _) => l != link
    case Poll(now) => now <= e
    case Visit(_, _) => true
    case Reschedule(l, _, _, _) => l != link
    case Close => false
  }

  lemma {:induction false} StaysInBucket(s: State, run: seq<Action>, link: string, e: int)
    requires InBucket(s, link, e)
    requires forall i :: 0 <= i < |run| ==> Quiet(run[i], link, e)
    ensures InBucket(Exec(s, run), link, e)
    decreases |run|
  {
    if run != [] {
      assert Quiet(run[0], link, e);
      StaysInBucket(Step(s, run[0]), run[1..], link, e);
    }
  }

  /** A link scheduled with an interval is not due before the interval, less ten milliseconds,
      has passed: whatever else is scheduled, visited or polled until then leaves it in its bucket. */
  lemma NotDueEarly(s: State, link: string, now: int, interval: int, run: seq<Action>)
    requires var e := if interval > 10_000 then now + interval - 10_000 else now;
             forall i :: 0 <= i < |run| ==> Quiet(run[i], link, e)
    ensures var e := if interval > 10_000 then now + interval - 10_000 else now;
            InBucket(Exec(Step(s, Schedule(link, now, interval)), run), link, e)
  {
    var e := if interval > 10_000 then now + interval - 10_000 else now;
    StaysInBucket(Step(s, Schedule(link, now, interval)), run, link, e);
  }

  /** A schedule made while its link is being visited is lost if and only if the link is skipped
      and the schedule has the expiration of the bucket being visited. */
  lemma ScheduleLostExactly(s: State, link: string, e: int, skip: bool)
    requires Inv(s) && link in s.visiting
    ensures
      var t := Step(Scheduled(s, link, e), Visit(link, skip));
      (link in t.tracked && t.tracked[link] == e) <==> !(skip && e == s.visited)
  {
  }

  lemma PolledInv(s: State, now: int)
    requires Inv(s) && s.visiting == {}
    ensures Inv(Polled(s, now).(clock := now))
  {
    var t := Polled(s, now).(clock := now);
    if s.buckets.Keys != {} && Earliest(s.buckets.Keys) < now {
      var e := Earliest(s.buckets.Keys);
      assert forall l, x :: InBucket(t, l, x) <==> InBucket(s, l, x) && x != e;
      assert forall l, x :: InFlight(t, l, x) <==> InFlight(s, l, x) || (InBucket(s, l, e) && x == e);
      forall l | l in t.visiting
        ensures l in t.tracked
      {
        assert InBucket(s, l, e);
      }
    } else {
      assert forall l, x :: InBucket(t, l, x) <==> InBucket(s, l, x);
      assert forall l, x :: InFlight(t, l, x) <==> InFlight(s, l, x);
    }
  }

  lemma VisitInv(s: State, link: string, skip: bool)
    requires Inv(s) && link in s.visiting
    ensures Inv(Step(s, Visit(link, skip)))
  {
    var t := Step(s, Visit(link, skip));
    assert InFlight(s, link, s.visited);
    assert forall l, x :: InBucket(t, l, x) <==> InBucket(s, l, x);
    assert forall l, x :: InFlight(t, l, x) ==> InFlight(s, l, x);
    forall l | l in t.tracked
      ensures InBucket(t, l, t.tracked[l]) || InFlight(t, l, t.tracked[l])
    {
      assert l != link && InFlight(s, l, s.tracked[l]) ==> InFlight(t, l, s.tracked[l]);
      assert l == link && InFlight(s, l, s.tracked[l]) && s.tracked[l] != s.visited ==> InFlight(t, l, s.tracked[l]);
    }
  }

  /** Ending the maintenance of a link that is scheduled at once keeps the rest in agreement. */
  lemma RescheduleInv(s: State, link: string, e: int, x: int)
    requires Inv(s) && (link, e) in s.performing && !KeyInFlight(Ended(s, link, e), x)
    ensures Inv(Scheduled(Ended(s, link, e), link, x))
  {
    var u := Ended(s, link, e);
    var t := Scheduled(u, link, x);
    forall l, y | InBucket(t, l, y)
      ensures l in t.tracked && t.tracked[l] == y
    {
      if l != link || y != x {
        assert InBucket(s, l, y);
      }
    }
    assert forall l, y :: InFlight(t, l, y) <==> InFlight(u, l, y);
    assert forall l, y :: InFlight(u, l, y) ==> InFlight(s, l, y);
    forall l | l in t.tracked
      ensures InBucket(t, l, t.tracked[l]) || InFlight(t, l, t.tracked[l])
    {
      if l != link {
        assert InBucket(s, l, s.tracked[l]) ==> InBucket(t, l, s.tracked[l]);
        assert InFlight(s, l, s.tracked[l]) ==> InFlight(t, l, s.tracked[l]);
      } else {
        assert InBucket(t, l, x);
      }
    }
  }

  /** The clock says nothing about the indexes. */
  lemma ClockIsFree(s: State, now: int)
    ensures Inv(s.(clock := now)) <==> Inv(s)
  {
    var t := s.(clock := now);
    assert forall l, x :: InBucket(t, l, x) <==> InBucket(s, l, x);
    assert forall l, x :: InFlight(t, l, x) <==> InFlight(s, l, x);
  }

  lemma StepInv(s: State, a: Action)
    requires Inv(s) && Enabled(s, a)
    ensures Inv(Step(s, a))
  {
    match a
    case Schedule(link, now, interval) =>
      ScheduledInv(s, link, Expiration(now, interval));
      ClockIsFree(Scheduled(s, link, Expiration(now, interval)), now);
    case Poll(now) => PolledInv(s, now);
    case Visit(link, skip) => VisitInv(s, link, skip);
    case Reschedule(link, e, now, interval) =>
      RescheduleInv(s, link, e, Expiration(now, interval));
      ClockIsFree(Scheduled(Ended(s, link, e), link, Expiration(now, interval)), now);
    case Close =>
      var t := Step(s, a);
      assert forall l, x :: InFlight(t, l, x) <==> InFlight(s, l, x);
      assert forall l, x :: !InBucket(t, l, x);
  }

  lemma {:induction false} RunInv(s: State, run: seq<Action>)
    requires Inv(s) && Legal(s, run)
    ensures Inv(Exec(s, run))
    decreases |run|
  {
    if run != [] {
      StepInv(s, run[0]);
      RunInv(Step(s, run[0]), run[1..]);
    }
  }

  ghost predicate IndexAgreement(s: State) {
    && (forall link, e :: InBucket(s, link, e) ==> link in s.tracked && s.tracked[link] == e)
    && (forall link, e, f :: InBucket(s, link, e) && InBucket(s, link, f) ==> e == f)
    && (forall link :: link in s.tracked ==>
          InBucket(s, link, s.tracked[link]) || InFlight(s, link, s.tracked[link]))
    && (!s.closed ==> !s.nullPointer)
  }

  /** In every run in which no schedule reuses the key of a bucket in flight, a link is in at most
      one bucket, the one trackedServices names, and every tracked link is in its bucket or
      in flight.  Unless the tracker was closed, no lookup of a visited link finds null. */
  lemma IndexesAgree(run: seq<Action>)
    requires Legal(Init(), run)
    ensures IndexAgreement(Exec(Init(), run))
  {
    RunInv(Init(), run);
  }

  // ---------- a clock that never goes back ----------

  /** The reading an action is made with. */
  function Reading(s: State, a: Action): int {
    match a
    case Schedule(_, now, _) => now
    case Poll(now) => now
    case Reschedule(_, _, now, _) => now
    case _ => s.clock
  }

  /** One thread visits the links of one bucket after the other, and no reading is earlier than
      the one before. */
  predicate Timely(s: State, run: seq<Action>)
    decreases |run|
  {
    run == [] ||
    (var a := run[0];
     && Reading(s, a) >= s.clock
     && (a.Poll? ==> s.visiting == {})
     && (a.Visit? ==> a.link in s.visiting)
     && (a.Reschedule? ==> (a.link, a.expiration) in s.performing)
     && Timely(Step(s, a), run[1..]))
  }

  /** Buckets in flight were due. */
  ghost predicate Due(s: State) { forall link, e :: InFlight(s, link, e) ==> e < s.clock }

  lemma TimelyStep(s: State, a: Action)
    requires Due(s) && Timely(s, [a])
    ensures Enabled(s, a) && Due(Step(s, a))
  {
    var t := Step(s, a);
    match a
    case Schedule(link, now, interval) =>
      assert forall l, x :: InFlight(t, l, x) <==> InFlight(s, l, x);
    case Poll(now) =>
      assert forall l, x :: InFlight(t, l, x) ==> InFlight(s, l, x) || x == Earliest(s.buckets.Keys) < now;
    case Visit(link, skip) =>
      assert InFlight(s, link, s.visited);
      assert forall l, x :: InFlight(t, l, x) ==> InFlight(s, l, x);
    case Reschedule(link, e, now, interval) =>
      assert forall l, x :: InFlight(Ended(s, link, e), l, x) ==> InFlight(s, l, x);
      assert forall l, x :: InFlight(t, l, x) ==> InFlight(s, l, x);
    case Close =>
      assert forall l, x :: InFlight(t, l, x) <==> InFlight(s, l, x);
  }

  lemma {:induction false} TimelyIsLegal(s: State, run: seq<Action>)
    requires Due(s) && Timely(s, run)
    ensures Legal(s, run)
    decreases |run|
  {
    if run != [] {
      assert [run[0]][1..] == [];
      TimelyStep(s, run[0]);
      TimelyIsLegal(Step(s, run[0]), run[1..]);
    }
  }

  /** With a clock that never goes back the indexes agree in every reachable state. */
  lemma IndexesAgreeInTime(run: seq<Action>)
    requires Timely(Init(), run)
    ensures IndexAgreement(Exec(Init(), run))
  {
    TimelyIsLegal(Init(), run);
    IndexesAgree(run);
  }

  /** Visiting a link, skipped or not, never drops a schedule made since its bucket was polled. */
  lemma VisitKeepsNewerSchedule(run: seq<Action>, visit: Action, link: string, e: int)
    requires Legal(Init(), run) && visit.Visit? && Enabled(Exec(Init(), run), visit)
    requires InBucket(Exec(Init(), run), link, e)
    ensures
      var t := Step(Exec(Init(), run), visit);
      InBucket(t, link, e) && link in t.tracked && t.tracked[link] == e
  {
    RunInv(Init(), run);
    var s := Exec(Init(), run);
    StepInv(s, visit);
    assert InBucket(Step(s, visit), link, e);
  }

  /** The witness, with a clock that goes back: the key of the bucket being visited is used again
      and skipping the link drops the newer schedule. */
  lemma ClockMustNotGoBack()
    ensures
      var s := Step(Step(Init(), Schedule("a", 5, 0)), Poll(9));
      var t := Step(Step(s, Schedule("a", 5, 0)), Visit("a", true));
      && !Enabled(s, Schedule("a", 5, 0))
      && InBucket(t, "a", 5)
      && "a" !in t.tracked
  {
    var s := Step(Init(), Schedule("a", 5, 0));
    assert {} + {"a"} == {"a"};
    assert WithoutLink(Init(), "a") == map[];
    assert s.buckets == map[5 := {"a"}];
    assert s.buckets.Keys == {5};
    var u := Step(s, Poll(9));
    assert u.buckets == map[] && u.visiting == {"a"};
    assert InFlight(u, "a", 5);
  }

  /** Two states that differ only in the key of a bucket with nothing left to visit. */
  lemma SameRound(s: State, t: State)
    requires Inv(t) && s.visiting == t.visiting == {}
    requires s == t.(visited := s.visited)
    ensures Inv(s)
  {
    assert forall l, x :: InBucket(s, l, x) <==> InBucket(t, l, x);
    assert forall l, x :: InFlight(s, l, x) <==> InFlight(t, l, x);
  }

  // ---------- the tracker object ----------

  type Buckets = map<int, set<string>>

  /** Expired at one of the readings. */
  predicate Expired(readings: seq<int>, e: int) { exists k :: 0 <= k < |readings| && e < readings[k] }

  /** A bucket that a maintenance pass took out of the index. */
  predicate Passed(before: Buckets, after: Buckets, e: int) { e in before && e !in after }

  ghost predicate Handed(before: Buckets, after: Buckets, link: string) {
    exists e :: Passed(before, after, e) && link in before[e]
  }

  /** A pass takes out expired buckets, earliest first, and leaves the others alone; the links of
      those taken out are due unless their service is gone. */
  ghost predicate Passage(before: Buckets, after: Buckets, readings: seq<int>, due: set<string>, gone: string -> bool) {
    && (forall e :: e in after ==> e in before && after[e] == before[e])
    && (forall e :: Passed(before, after, e) ==> Expired(readings, e))
    && (forall e, f :: Passed(before, after, e) && f in after ==> e < f)
    && (forall link :: link in due <==> !gone(link) && Handed(before, after, link))
  }

  lemma OneMorePassed(before: Buckets, mid: Buckets, readings: seq<int>, due: set<string>, gone: string -> bool)
    requires Passage(before, mid, readings, due, gone) && mid.Keys != {} && Expired(readings, Earliest(mid.Keys))
    ensures
      var e := Earliest(mid.Keys);
      Passage(before, mid - {e}, readings, due + (set link | link in mid[e] && !gone(link)), gone)
  {
    var e := Earliest(mid.Keys);
    var after := mid - {e};
    assert forall x :: Passed(before, after, x) <==> x == e || Passed(before, mid, x);
    assert forall link :: Handed(before, after, link) <==> Handed(before, mid, link) || link in mid[e];
  }

  class Tracker {
    var trackedServices: map<string, int>
    var nextExpiration: map<int, set<string>>
    ghost var performing: set<(string, int)>

    /** Between maintenance rounds no bucket is being visited. */
    ghost function Value(): State
      reads this
    {
      At(0, {})
    }

    ghost predicate Valid()
      reads this
    {
      Inv(Value())
    }

    constructor ()
      ensures Valid() && Value() == Init()
    {
      trackedServices, nextExpiration, performing := map[], map[], {};
    }

    /** The indexes agree afterwards if and only if the expiration is no key in flight. */
    method Schedule(link: string, now: int, interval: int)
      requires Valid()
      modifies this`trackedServices, this`nextExpiration
      ensures
        var e := if interval > 10_000 then now + interval - 10_000 else now;
        && Value() == Scheduled(old(Value()), link, e)
        && InBucket(Value(), link, e)
        && (Valid() <==> !KeyInFlight(old(Value()), e))
    {
      ghost var before := Value();
      var nextExpirationMicros := Max(now, now + interval - SCHEDULING_EPSILON_MICROS);
      ScheduledInv(before, link, nextExpirationMicros);
      if link in trackedServices {
        var expiration := trackedServices[link];
        if expiration in nextExpiration {
          nextExpiration := nextExpiration[expiration := nextExpiration[expiration] - {link}];
        }
      }
      trackedServices := trackedServices[link := nextExpirationMicros];
      var services := if nextExpirationMicros in nextExpiration then nextExpiration[nextExpirationMicros] else {};
      nextExpiration := nextExpiration[nextExpirationMicros := services + {link}];
      assert Value() == Scheduled(before, link, nextExpirationMicros);
    }

    /** One bucket, if one has expired: the links whose service is gone are dropped, the
        others are handed on.  Returns the links handed on. */
    method MaintainOneBucket(now: int, gone: string -> bool) returns (due: set<string>, found: bool)
      requires Valid()
      modifies this
      ensures Valid()
      ensures found <==> exists e :: e in old(nextExpiration) && e < now
      ensures !found ==> due == {} && Value() == old(Value())
      ensures found ==>
                var e := Earliest(old(nextExpiration).Keys);
                && nextExpiration == old(nextExpiration) - {e}
                && due == (set link | link in old(nextExpiration)[e] && !gone(link))
                && trackedServices == old(trackedServices) - (old(nextExpiration)[e] - due)
                && performing == old(performing) + (set link | link in due :: (link, e))
    {
      due, found := {}, false;
      ghost var s := Value();
      PolledInv(s, now);
      if nextExpiration.Keys == {} || Earliest(nextExpiration.Keys) >= now {
        return;
      }
      found := true;
      var expiration := Earliest(nextExpiration.Keys);
      var services := nextExpiration[expiration];
      assert forall link :: link in services ==> InBucket(s, link, expiration);
      nextExpiration := nextExpiration - {expiration};
      ClockIsFree(At(expiration, services), now);
      due := VisitBucket(expiration, services, gone);
      SameRound(Value(), At(expiration, {}));
    }

    /** The rounds of one maintenance pass: at least one expired bucket regardless of the
        deadline, then more until none is expired, the clock reaches the deadline or the host
        stops.  `readings` are what the system clock returns, in any order, `stopping` whether
        the host is stopping when a round begins. */
    method PerformMaintenance(readings: seq<int>, stopping: nat -> bool, deadline: int, gone: string -> bool)
        returns (due: set<string>, now: int, cancelled: bool)
      requires Valid() && readings != [] && readings[|readings| - 1] >= deadline
      modifies this
      ensures Valid()
      ensures cancelled || now >= deadline || forall e :: e in nextExpiration ==> e >= now
      ensures cancelled ==> exists k :: 0 <= k < |readings| && stopping(k)
      ensures Passage(old(nextExpiration), nextExpiration, readings, due, gone)
      ensures !stopping(0) && (exists e :: e in old(nextExpiration) && e < readings[0]) ==>
                Earliest(old(nextExpiration).Keys) !in nextExpiration
    {
      due, cancelled := {}, false;
      var k := 0;
      now := readings[0];
      while true
        invariant 0 <= k < |readings| && now == readings[k] && !cancelled
        invariant Valid()
        invariant k > 0 && (exists e :: e in old(nextExpiration) && e < readings[0]) ==>
                    Earliest(old(nextExpiration).Keys) !in nextExpiration
        invariant k == 0 ==> nextExpiration == old(nextExpiration)
        invariant Passage(old(nextExpiration), nextExpiration, readings, due, gone)
        decreases |readings| - k
      {
        if stopping(k) {
          cancelled := true;
          return;
        }
        ghost var before := nextExpiration;
        var links, found := MaintainOneBucket(now, gone);
        if !found {
          return;
        }
        assert Expired(readings, Earliest(before.Keys));
        OneMorePassed(old(nextExpiration), before, readings, due, gone);
        due := due + links;
        if k == |readings| - 1 {
          return;
        }
        k := k + 1;
        now := readings[k];
        if now >= deadline {
          return;
        }
      }
    }

    method VisitBucket(expiration: int, services: set<string>, gone: string -> bool) returns (due: set<string>)
      requires Inv(At(expiration, services))
      modifies this`trackedServices, this`performing
      ensures Inv(At(expiration, {}))
      ensures due == set link | link in services && !gone(link)
      ensures performing == old(performing) + (set link | link in due :: (link, expiration))
      ensures forall link :: link in trackedServices <==>
                link in old(trackedServices) && !(link in services && gone(link) && old(trackedServices)[link] == expiration)
      ensures forall link :: link in trackedServices ==> trackedServices[link] == old(trackedServices)[link]
    {
      due := {};
      var rest := services;
      while rest != {}
        invariant rest <= services
        invariant due == set link | link in services && link !in rest && !gone(link)
        invariant performing == old(performing) + (set link | link in due :: (link, expiration))
        invariant forall link :: link in trackedServices <==>
                    link in old(trackedServices)
                    && !(link in services && link !in rest && gone(link) && old(trackedServices)[link] == expiration)
        invariant forall link :: link in trackedServices ==> trackedServices[link] == old(trackedServices)[link]
        invariant Inv(At(expiration, rest))
        decreases rest
      {
        var link :| link in rest;
        ghost var before := At(expiration, rest);
        VisitInv(before, link, gone(link));
        if gone(link) {
          // a visited link is still tracked
          if trackedServices[link] == expiration {
            trackedServices := trackedServices - {link};
          }
        } else {
          due := due + {link};
          performing := performing + {(link, expiration)};
        }
        rest := rest - {link};
        assert At(expiration, rest) == Step(before, Visit(link, gone(link)));
      }
    }

    /** The state in the middle of a round. */
    ghost function At(expiration: int, rest: set<string>): State
      reads this
    {
      State(trackedServices, nextExpiration, expiration, rest, performing, 0, false, false)
    }
  }
}
