/**
 Round-robin service of keyed operation queues (RoundRobinOperationQueue).

 The class follows the source; its methods are proved against the functions Offered
 and Polled, about which conservation, order and fairness are proved for every run.
 */
module RoundRobinOperationQueue {
  import opened Common
  import opened StringOrder

  type Operation = nat

  datatype State = State(
    queues: map<string, seq<Operation>>,  // the sorted map; emptied queues stay until poll meets them
    activeKey: string,
    totalCount: int,
    limit: int)

  datatype Event =
    | Accepted(key: string, op: Operation)
    | Rejected(key: string, op: Operation)
    | Served(key: string, op: Operation)
    | Nothing

  datatype Call = Offer(key: string, op: Operation) | Poll

  function Content(s: State, k: string): seq<Operation> {
    if k in s.queues then s.queues[k] else []
  }

  function Offered(s: State, key: string, op: Operation): State {
    if s.totalCount >= s.limit then s
    else s.(queues := s.queues[key := Content(s, key) + [op]], totalCount := s.totalCount + 1)
  }

  /** higherEntry of the active key, or firstEntry when there is none. */
  function NextKey(queues: map<string, seq<Operation>>, active: string): (k: string)
    requires queues.Keys != {}
    ensures k in queues
  {
    var higher := set x | x in queues && Less(active, x);
    if higher != {} then Least(higher) else Least(queues.Keys)
  }

  function Polled(s: State): (State, Event)
    decreases s.queues.Keys
  {
    if s.queues.Keys == {} then (s, Nothing)
    else
      var k := NextKey(s.queues, s.activeKey);
      var q := s.queues[k];
      if q != [] then
        (s.(queues := s.queues[k := q[1..]], activeKey := k, totalCount := s.totalCount - 1), Served(k, q[0]))
      else
        Polled(s.(queues := s.queues - {k}, activeKey := k))
  }

  class RoundRobinQueue {
    var queues: map<string, seq<Operation>>
    var activeKey: string
    var totalCount: int
    const limit: int

    function Value(): State
      reads this
    {
      State(queues, activeKey, totalCount, limit)
    }

    constructor (limit: int)
      ensures Value() == Initial(limit) && Inv(Value())
    {
      this.queues, this.activeKey, this.totalCount, this.limit := map[], "", 0, limit;
    }

    method Offer(key: string, op: Operation) returns (accepted: bool)
      modifies this
      ensures Value() == Offered(old(Value()), key, op)
      ensures accepted <==> old(totalCount) < limit
    {
      if totalCount >= limit {
        return false;
      }
      if key !in queues {
        queues := queues[key := []];
      }
      queues := queues[key := queues[key] + [op]];
      totalCount := totalCount + 1;
      return true;
    }

    method Poll() returns (op: Option<Operation>)
      modifies this
      ensures Value() == Polled(old(Value())).0
      ensures op == match Polled(old(Value())).1 case Served(_, o) => Some(o) case _ => None
    {
      ghost var start := Value();
      while queues.Keys != {}
        invariant Polled(Value()) == Polled(start)
        decreases queues.Keys
      {
        var next := NextKey(queues, activeKey);
        activeKey := next;
        var q := queues[next];
        if q != [] {
          queues := queues[next := q[1..]];
          totalCount := totalCount - 1;
          return Some(q[0]);
        }
        queues := queues - {next};
      }
      return None;
    }
  }

  function Initial(limit: int): State {
    State(map[], "", 0, limit)
  }

  // ---------- conservation ----------

  function Sum(queues: map<string, seq<Operation>>): nat
    decreases queues.Keys
  {
    if queues.Keys == {} then 0
    else
      var k := Least(queues.Keys);
      |queues[k]| + Sum(queues - {k})
  }

  lemma {:induction false} SumRemove(queues: map<string, seq<Operation>>, k: string)
    requires k in queues
    ensures Sum(queues) == |queues[k]| + Sum(queues - {k})
    decreases queues.Keys
  {
    var m := Least(queues.Keys);
    if k != m {
      SumRemove(queues - {m}, k);
      var rest := queues - {k};
      assert m in rest && IsLeast(m, rest.Keys);
      Ordered(m, Least(rest.Keys), m);
      assert rest - {m} == queues - {m} - {k};
    }
  }

  lemma SumUpdate(queues: map<string, seq<Operation>>, k: string, q: seq<Operation>)
    ensures Sum(queues[k := q]) == Sum(queues) - (if k in queues then |queues[k]| else 0) + |q|
  {
    SumRemove(queues[k := q], k);
    assert queues[k := q] - {k} == queues - {k};
    if k in queues {
      SumRemove(queues, k);
    } else {
      assert queues - {k} == queues;
    }
  }

  /** totalCount is the number of queued operations and stays within the limit. */
  ghost predicate Inv(s: State) {
    s.totalCount == Sum(s.queues) && (s.totalCount <= s.limit || s.totalCount == 0)
  }

  /** A queue as constructed: the theorems about runs from any such state are about it. */
  lemma InitialInv(limit: int)
    ensures Inv(Initial(limit))
  {
  }

  lemma OfferedInv(s: State, key: string, op: Operation)
    requires Inv(s)
    ensures Inv(Offered(s, key, op))
  {
    SumUpdate(s.queues, key, Content(s, key) + [op]);
  }

  /** poll takes the head of one queue, or finds every queue empty; nothing else changes. */
  lemma {:induction false} PolledTakesHead(s: State)
    requires Inv(s)
    ensures
      var (t, e) := Polled(s);
      && Inv(t) && t.limit == s.limit
      && (e.Served? || e.Nothing?)
      && (e.Nothing? <==> s.totalCount == 0)
      && (e.Nothing? <==> forall k :: Content(s, k) == [])
      && (e.Served? ==>
            && Content(s, e.key) == [e.op] + Content(t, e.key)
            && t.activeKey == e.key
            && t.totalCount == s.totalCount - 1)
      && (forall k :: !(e.Served? && k == e.key) ==> Content(t, k) == Content(s, k))
    decreases s.queues.Keys
  {
    if s.queues.Keys != {} {
      var k := NextKey(s.queues, s.activeKey);
      var q := s.queues[k];
      SumRemove(s.queues, k);
      if q != [] {
        SumUpdate(s.queues, k, q[1..]);
        assert Content(s, k) != [];
      } else {
        var u := s.(queues := s.queues - {k}, activeKey := k);
        PolledTakesHead(u);
        assert forall x :: Content(u, x) == Content(s, x);
      }
    }
  }

  /** A key that has something queued and comes after the active one. */
  predicate Above(s: State, x: string) { Content(s, x) != [] && Less(s.activeKey, x) }

  /** The least key above the active one that has something queued, or the least of all that have. */
  ghost predicate Follows(s: State, k: string) {
    && Content(s, k) != []
    && (if exists x :: Above(s, x) then Above(s, k) && forall x :: Above(s, x) ==> x == k || Less(k, x)
        else forall x :: Content(s, x) != [] ==> x == k || Less(k, x))
  }

  /** An emptied queue that is met is passed over. */
  lemma PassedOver(s: State, k: string, x: string)
    requires s.queues.Keys != {} && k == NextKey(s.queues, s.activeKey) && s.queues[k] == []
    ensures
      var t := s.(queues := s.queues - {k}, activeKey := k);
      var higher := set x | x in s.queues && Less(s.activeKey, x);
      && Content(t, x) == Content(s, x)
      && (Above(t, x) <==> if higher != {} then Above(s, x) else Content(s, x) != [])
  {
    var higher := set x | x in s.queues && Less(s.activeKey, x);
    Ordered(s.activeKey, k, x);
    Ordered(k, x, k);
    assert x in higher <==> x in s.queues && Less(s.activeKey, x);
    if higher != {} {
      assert IsLeast(k, higher);
    } else {
      assert IsLeast(k, s.queues.Keys);
    }
  }

  /** poll serves the next key, going up from the active one and around, that has something queued. */
  lemma {:induction false} ServesTheNext(s: State)
    requires Polled(s).1.Served?
    ensures Follows(s, Polled(s).1.key)
    decreases s.queues.Keys
  {
    var k := NextKey(s.queues, s.activeKey);
    var higher := set x | x in s.queues && Less(s.activeKey, x);
    if s.queues[k] != [] {
      ServesFirst(s, k);
    } else {
      var t := s.(queues := s.queues - {k}, activeKey := k);
      ServesTheNext(t);
      forall x {
        PassedOver(s, k, x);
      }
      if higher == {} {
        assert forall x :: Above(s, x) ==> x in higher;
      }
    }
  }

  lemma ServesFirst(s: State, k: string)
    requires s.queues.Keys != {} && k == NextKey(s.queues, s.activeKey) && s.queues[k] != []
    ensures Follows(s, k)
  {
    var higher := set x | x in s.queues && Less(s.activeKey, x);
    assert forall x :: Above(s, x) ==> x in higher;
    if higher != {} {
      assert IsLeast(k, higher);
      assert Above(s, k);
    } else {
      assert IsLeast(k, s.queues.Keys);
    }
  }

  /** An offer is accepted exactly while fewer operations than the limit are queued, and then
      it is put at the end of the queue of its key; no other queue changes. */
  lemma OfferedExactly(s: State, key: string, op: Operation, k: string)
    requires Inv(s)
    ensures
      var t := Offered(s, key, op);
      && Content(t, k) == Content(s, k) + (if k == key && Sum(s.queues) < s.limit then [op] else [])
      && t.activeKey == s.activeKey
  {
  }

  // ---------- runs ----------

  function Does(s: State, c: Call): (State, Event) {
    match c
    case Offer(key, op) =>
      (Offered(s, key, op), if s.totalCount >= s.limit then Rejected(key, op) else Accepted(key, op))
    case Poll => Polled(s)
  }

  function Trace(s: State, calls: seq<Call>): (events: seq<Event>)
    ensures |events| == |calls|
    decreases |calls|
  {
    if calls == [] then [] else [Does(s, calls[0]).1] + Trace(Does(s, calls[0]).0, calls[1..])
  }

  function After(s: State, calls: seq<Call>): State
    decreases |calls|
  {
    if calls == [] then s else After(Does(s, calls[0]).0, calls[1..])
  }

  function ServedTo(events: seq<Event>, k: string): seq<Operation> {
    if events == [] then []
    else (if events[0].Served? && events[0].key == k then [events[0].op] else []) + ServedTo(events[1..], k)
  }

  function AcceptedFor(events: seq<Event>, k: string): seq<Operation> {
    if events == [] then []
    else (if events[0].Accepted? && events[0].key == k then [events[0].op] else []) + AcceptedFor(events[1..], k)
  }

  lemma DoesOne(s: State, c: Call, k: string)
    requires Inv(s)
    ensures
      var (t, e) := Does(s, c);
      && Inv(t)
      && t.limit == s.limit
      && ServedTo([e], k) + Content(t, k) == Content(s, k) + AcceptedFor([e], k)
  {
    match c
    case Offer(key, op) => OfferedInv(s, key, op);
    case Poll => PolledTakesHead(s);
  }

  /** In every run each key is served first-in first-out and nothing is lost: what was served
      for a key, followed by what is still queued, is what was queued at the start followed
      by what was accepted since.  totalCount counts the queued operations throughout. */
  lemma {:induction false} FifoAndConservation(s: State, calls: seq<Call>, k: string)
    requires Inv(s)
    ensures Inv(After(s, calls)) && After(s, calls).limit == s.limit
    ensures ServedTo(Trace(s, calls), k) + Content(After(s, calls), k)
         == Content(s, k) + AcceptedFor(Trace(s, calls), k)
    decreases |calls|
  {
    if calls != [] {
      DoesOne(s, calls[0], k);
      var (t, e) := Does(s, calls[0]);
      FifoAndConservation(t, calls[1..], k);
      Chain(ServedTo([e], k), ServedTo(Trace(t, calls[1..]), k), Content(After(t, calls[1..]), k),
            Content(t, k), AcceptedFor(Trace(t, calls[1..]), k), Content(s, k), AcceptedFor([e], k));
      TraceStep(s, calls, k);
    }
  }

  lemma TraceStep(s: State, calls: seq<Call>, k: string)
    requires calls != []
    ensures
      var (t, e) := Does(s, calls[0]);
      && ServedTo(Trace(s, calls), k) == ServedTo([e], k) + ServedTo(Trace(t, calls[1..]), k)
      && AcceptedFor(Trace(s, calls), k) == AcceptedFor([e], k) + AcceptedFor(Trace(t, calls[1..]), k)
  {
    EventStep(Does(s, calls[0]).1, Trace(Does(s, calls[0]).0, calls[1..]), k);
  }

  lemma EventStep(e: Event, rest: seq<Event>, k: string)
    ensures ServedTo([e] + rest, k) == ServedTo([e], k) + ServedTo(rest, k)
    ensures AcceptedFor([e] + rest, k) == AcceptedFor([e], k) + AcceptedFor(rest, k)
  {
    assert ([e] + rest)[1..] == rest;
    assert [e][1..] == [];
  }

  lemma Chain(s1: seq<Operation>, s2: seq<Operation>, last: seq<Operation>, mid: seq<Operation>,
              a2: seq<Operation>, first: seq<Operation>, a1: seq<Operation>)
    requires s2 + last == mid + a2 && s1 + mid == first + a1
    ensures s1 + s2 + last == first + (a1 + a2)
  {
    assert s1 + s2 + last == s1 + (s2 + last);
    assert s1 + (mid + a2) == (s1 + mid) + a2;
    assert (first + a1) + a2 == first + (a1 + a2);
  }

  // ---------- fairness ----------

  /** `a` lies on the arc that starts at `k` and ends just before `j`, going up and around. */
  predicate InArc(k: string, a: string, j: string) {
    if Less(k, j) then !Less(a, k) && Less(a, j) else !Less(a, k) || Less(a, j)
  }

  /** The next key from inside the arc does not jump over `j` and does not return to `k`. */
  lemma NextInArc(queues: map<string, seq<Operation>>, active: string, k: string, j: string)
    requires k != j && j in queues && InArc(k, active, j)
    ensures var n := NextKey(queues, active); n == j || (n != k && InArc(k, n, j))
  {
    var n := NextKey(queues, active);
    var higher := set x | x in queues && Less(active, x);
    assert j in higher <==> Less(active, j);
    Ordered(active, k, n);
    Ordered(k, active, n);
    Ordered(active, n, k);
    Ordered(k, n, active);
    Ordered(n, k, active);
    Ordered(n, j, k);
    Ordered(j, n, k);
    Ordered(n, k, j);
    Ordered(k, n, j);
    Ordered(k, j, n);
    Ordered(j, k, n);
    Ordered(j, active, k);
    Ordered(active, j, k);
    if higher != {} {
      assert IsLeast(n, higher);
    } else {
      assert IsLeast(n, queues.Keys);
    }
  }

  lemma {:induction false} PolledInArc(s: State, k: string, j: string)
    requires k != j && Content(s, j) != [] && InArc(k, s.activeKey, j)
    ensures
      var (t, e) := Polled(s);
      e.Served? && (e.key == j || (e.key != k && t.activeKey == e.key && InArc(k, t.activeKey, j)))
    decreases s.queues.Keys
  {
    NextInArc(s.queues, s.activeKey, k, j);
    var n := NextKey(s.queues, s.activeKey);
    if s.queues[n] == [] {
      PolledInArc(s.(queues := s.queues - {n}, activeKey := n), k, j);
    }
  }

  ghost predicate Serves(events: seq<Event>, k: string) {
    exists i :: 0 <= i < |events| && events[i].Served? && events[i].key == k
  }

  lemma ServesStep(s: State, calls: seq<Call>, k: string)
    requires calls != []
    ensures
      var (t, e) := Does(s, calls[0]);
      Serves(Trace(s, calls), k) <==> (e.Served? && e.key == k) || Serves(Trace(t, calls[1..]), k)
  {
    var (t, e) := Does(s, calls[0]);
    var all, rest := Trace(s, calls), Trace(t, calls[1..]);
    assert all == [e] + rest;
    if e.Served? && e.key == k {
      assert all[0].Served? && all[0].key == k;
    }
    if Serves(rest, k) {
      var i :| 0 <= i < |rest| && rest[i].Served? && rest[i].key == k;
      assert all[i + 1].Served? && all[i + 1].key == k;
    }
    if Serves(all, k) {
      var i :| 0 <= i < |all| && all[i].Served? && all[i].key == k;
      assert i > 0 ==> rest[i - 1] == all[i];
    }
  }

  lemma {:induction false} NotAgainBefore(s: State, calls: seq<Call>, k: string, j: string)
    requires Inv(s) && k != j && Content(s, j) != [] && InArc(k, s.activeKey, j)
    requires !Serves(Trace(s, calls), j)
    ensures !Serves(Trace(s, calls), k)
    decreases |calls|
  {
    if calls != [] {
      var (t, e) := Does(s, calls[0]);
      DoesOne(s, calls[0], j);
      if calls[0].Poll? {
        PolledInArc(s, k, j);
      }
      ServesStep(s, calls, j);
      NotAgainBefore(t, calls[1..], k, j);
      ServesStep(s, calls, k);
    }
  }

  lemma ServesBefore(events: seq<Event>, k: string, j: string)
    requires events != [] && k != j && Serves(events, j)
    requires events[|events| - 1].Served? && events[|events| - 1].key == k
    ensures Serves(events[..|events| - 1], j)
  {
    var i :| 0 <= i < |events| && events[i].Served? && events[i].key == j;
    assert events[..|events| - 1][i] == events[i];
  }

  lemma FairFrom(t: State, calls: seq<Call>, k: string, j: string)
    requires Inv(t) && k != j && Content(t, j) != [] && t.activeKey == k
    requires Serves(Trace(t, calls), k)
    ensures Serves(Trace(t, calls), j)
  {
    Ordered(k, j, k);
    if !Serves(Trace(t, calls), j) {
      NotAgainBefore(t, calls, k, j);
    }
  }

  /** While the queue of `j` is non-empty, between two polls that return from another key
      `k` there is a poll that returns from `j`. */
  lemma RoundRobinFair(s: State, calls: seq<Call>, k: string, j: string)
    requires Inv(s) && k != j && calls != []
    requires Polled(s).1.Served? && Polled(s).1.key == k
    requires Content(Polled(s).0, j) != []
    requires var last := Trace(Polled(s).0, calls)[|calls| - 1]; last.Served? && last.key == k
    ensures Serves(Trace(Polled(s).0, calls)[..|calls| - 1], j)
  {
    PolledTakesHead(s);
    FairFrom(Polled(s).0, calls, k, j);
    ServesBefore(Trace(Polled(s).0, calls), k, j);
  }
}
