/**
 The bounded operation queue of a service (OperationQueue).

 The sign of `limit` tells FIFO from LIFO.  elementCount is a separate counter that clear and
 transferAll do not reset, so it is an upper bound of the queue's length rather than equal to it.
 */
module OperationQueue {
  import opened Common

  type Operation = nat

  datatype State = State(limit: int, elementCount: int, store: seq<Operation>)

  datatype Call = Offer(op: Operation) | Poll | Clear | Size | SetLimit(limit: int)

  datatype Event = Accepted(op: Operation) | Rejected(op: Operation) | Polled(op: Operation) | Nothing

  function Abs(x: int): int { if x < 0 then -x else x }

  function Does(s: State, c: Call): (State, Event) {
    match c
    case Offer(op) =>
      if s.elementCount >= Abs(s.limit) then (s, Rejected(op))
      else (s.(store := if s.limit < 0 then [op] + s.store else s.store + [op], elementCount := s.elementCount + 1),
            Accepted(op))
    case Poll =>
      if s.store == [] then (s, Nothing)
      else (s.(store := s.store[1..], elementCount := s.elementCount - 1), Polled(s.store[0]))
    case Clear => (s.(store := []), Nothing)
    case Size => (s.(elementCount := |s.store|), Nothing)
    case SetLimit(limit) =>
      if limit <= 0 then (s, Nothing) else (s.(limit := if s.limit < 0 then -limit else limit), Nothing)
  }

  ghost predicate Inv(s: State) { s.elementCount >= |s.store| }

  class Queue {
    var limit: int
    var elementCount: int
    var store: seq<Operation>

    function Value(): State
      reads this
    {
      State(limit, elementCount, store)
    }

    ghost predicate Valid()
      reads this
    {
      Inv(Value())
    }

    /** createFifo is called with the limit, createLifo with its negation. */
    constructor (limit: int)
      ensures Valid() && Value() == State(limit, 0, [])
    {
      this.limit, this.elementCount, this.store := limit, 0, [];
    }

    method Offer(op: Operation) returns (accepted: bool)
      requires Valid()
      modifies this
      ensures Valid() && Value() == Does(old(Value()), Call.Offer(op)).0
      ensures accepted <==> Does(old(Value()), Call.Offer(op)).1.Accepted?
    {
      if limit < 0 {
        if elementCount >= -limit {
          return false;
        }
        store := [op] + store;
        elementCount := elementCount + 1;
        return true;
      } else {
        if elementCount >= limit {
          return false;
        }
        store := store + [op];
        elementCount := elementCount + 1;
        return true;
      }
    }

    /** `negative` is the "elementCount is negative" exception: it is never thrown. */
    method Poll() returns (op: Option<Operation>, negative: bool)
      requires Valid()
      modifies this
      ensures Valid() && Value() == Does(old(Value()), Call.Poll).0
      ensures !negative
      ensures op == if old(store) == [] then None else Some(old(store)[0])
    {
      if store == [] {
        return None, false;
      }
      op := Some(store[0]);
      store := store[1..];
      elementCount := elementCount - 1;
      negative := elementCount < 0;
    }

    method TransferAll(pending: seq<Operation>) returns (all: seq<Operation>)
      requires Valid()
      modifies this
      ensures Valid() && Value() == Does(old(Value()), Call.Clear).0
      ensures all == pending + old(store)
    {
      all := pending + store;
      store := [];
    }

    method Clear()
      requires Valid()
      modifies this
      ensures Valid() && Value() == Does(old(Value()), Call.Clear).0
    {
      store := [];
    }

    method Size() returns (n: int)
      requires Valid()
      modifies this
      ensures Valid() && Value() == Does(old(Value()), Call.Size).0
      ensures n == |old(store)|
    {
      elementCount := |store|;
      n := elementCount;
    }

    method SetLimit(limit: int) returns (ok: bool)
      requires Valid()
      modifies this
      ensures Valid() && Value() == Does(old(Value()), Call.SetLimit(limit)).0
      ensures ok <==> limit > 0
    {
      if limit <= 0 {
        return false;
      }
      this.limit := if this.limit < 0 then -limit else limit;
      return true;
    }
  }

  // ---------- runs ----------

  function After(s: State, calls: seq<Call>): State
    decreases |calls|
  {
    if calls == [] then s else After(Does(s, calls[0]).0, calls[1..])
  }

  function Trace(s: State, calls: seq<Call>): seq<Event>
    decreases |calls|
  {
    if calls == [] then [] else [Does(s, calls[0]).1] + Trace(Does(s, calls[0]).0, calls[1..])
  }

  function Ins(events: seq<Event>): seq<Operation> {
    if events == [] then [] else In(events[0]) + Ins(events[1..])
  }

  function Outs(events: seq<Event>): seq<Operation> {
    if events == [] then [] else Out(events[0]) + Outs(events[1..])
  }

  predicate NoClear(calls: seq<Call>) { forall i :: 0 <= i < |calls| ==> !calls[i].Clear? }

  /** elementCount never falls below the number of queued operations, whatever is called. */
  lemma {:induction false} CountIsEnough(s: State, calls: seq<Call>)
    requires Inv(s)
    ensures Inv(After(s, calls))
    decreases |calls|
  {
    if calls != [] {
      CountIsEnough(Does(s, calls[0]).0, calls[1..]);
    }
  }

  /** A FIFO queue that is not cleared hands out what it accepted, in order, and loses nothing. */
  lemma {:induction false} FifoOrder(s: State, calls: seq<Call>)
    requires s.limit >= 0 && NoClear(calls)
    ensures Outs(Trace(s, calls)) + After(s, calls).store == s.store + Ins(Trace(s, calls))
    decreases |calls|
  {
    if calls != [] {
      var (t, e) := Does(s, calls[0]);
      FifoOrder(t, calls[1..]);
      var rest := Trace(t, calls[1..]);
      assert ([e] + rest)[1..] == rest;
      Balance(In(e), Out(e), s.store, t.store, Ins(rest), Outs(rest), After(t, calls[1..]).store);
    }
  }

  function In(e: Event): seq<Operation> { if e.Accepted? then [e.op] else [] }

  function Out(e: Event): seq<Operation> { if e.Polled? then [e.op] else [] }

  lemma Assoc(a: seq<Operation>, b: seq<Operation>, c: seq<Operation>)
    ensures a + b + c == a + (b + c)
  {
  }

  /** One step at the front of a trace keeps the balance of what came in and what went out. */
  lemma Balance(came: seq<Operation>, went: seq<Operation>, s: seq<Operation>, t: seq<Operation>,
                ins: seq<Operation>, outs: seq<Operation>, last: seq<Operation>)
    requires went + t == s + came && outs + last == t + ins
    ensures went + outs + last == s + (came + ins)
  {
    Assoc(went, outs, last);
    Assoc(went, t, ins);
    Assoc(s, came, ins);
  }

  // ---------- last in, first out ----------

  /** From `depth` accepted and not yet polled operations on, polls never take more than were
      accepted, and at the end all were taken. */
  predicate Nested(events: seq<Event>, depth: nat) {
    if events == [] then depth == 0
    else if events[0].Accepted? then Nested(events[1..], depth + 1)
    else if events[0].Polled? then depth > 0 && Nested(events[1..], depth - 1)
    else Nested(events[1..], depth)
  }

  /** One call of such a run changes what is on top. */
  lemma LifoStep(s: State, c: Call, top: seq<Operation>, base: seq<Operation>) returns (top': seq<Operation>)
    requires s.limit < 0 && !c.Clear? && s.store == top + base && (Does(s, c).1.Polled? ==> top != [])
    ensures
      var (t, e) := Does(s, c);
      && t.store == top' + base && t.limit < 0
      && |top'| == if e.Accepted? then |top| + 1 else if e.Polled? then |top| - 1 else |top|
  {
    var e := Does(s, c).1;
    top' := if e.Accepted? then [e.op] + top else if e.Polled? then top[1..] else top;
    if e.Accepted? {
      Assoc([e.op], top, base);
    } else if e.Polled? {
      PopTop(top, base);
    }
  }

  lemma PopTop(top: seq<Operation>, base: seq<Operation>)
    requires top != []
    ensures (top + base)[1..] == top[1..] + base
  {
  }

  /** A balanced run of a LIFO queue works on top of what was queued before and leaves that alone. */
  lemma {:induction false} LifoKeepsBase(s: State, calls: seq<Call>, top: seq<Operation>, base: seq<Operation>)
    requires s.limit < 0 && NoClear(calls) && s.store == top + base
    requires Nested(Trace(s, calls), |top|)
    ensures After(s, calls).store == base && After(s, calls).limit < 0
    decreases |calls|
  {
    if calls != [] {
      var (t, e) := Does(s, calls[0]);
      assert Trace(s, calls) == [e] + Trace(t, calls[1..]);
      assert Trace(s, calls)[1..] == Trace(t, calls[1..]);
      var top' := LifoStep(s, calls[0], top, base);
      LifoKeepsBase(t, calls[1..], top', base);
    }
  }

  /** In a LIFO queue, after an accepted offer and any run whose later accepted operations have all
      been polled again, the next poll returns that operation, and what is left is what was
      queued before it. */
  lemma LifoOrder(s: State, op: Operation, calls: seq<Call>)
    requires s.limit < 0 && Does(s, Offer(op)).1.Accepted? && NoClear(calls)
    requires Nested(Trace(Does(s, Offer(op)).0, calls), 0)
    ensures
      var t := After(Does(s, Offer(op)).0, calls);
      Does(t, Poll).1 == Polled(op) && Does(t, Poll).0.store == s.store
  {
    var u := Does(s, Offer(op)).0;
    assert [] + u.store == u.store;
    LifoKeepsBase(u, calls, [], u.store);
  }

  // ---------- room ----------

  /** How many operations clear and transferAll dropped since size was called last, when `lost`
      were at the start. */
  function Lost(s: State, calls: seq<Call>, lost: nat): nat
    decreases |calls|
  {
    if calls == [] then lost
    else
      Lost(Does(s, calls[0]).0, calls[1..],
           match calls[0] case Clear => lost + |s.store| case Size => 0 case _ => lost)
  }

  /** In every run the counter is the number of queued operations and of those lost. */
  lemma {:induction false} CountIsStoreAndLost(s: State, calls: seq<Call>, lost: nat)
    requires s.elementCount == |s.store| + lost
    ensures After(s, calls).elementCount == |After(s, calls).store| + Lost(s, calls, lost)
    decreases |calls|
  {
    if calls != [] {
      var lost' := match calls[0] case Clear => lost + |s.store| case Size => 0 case _ => lost;
      CountIsStoreAndLost(Does(s, calls[0]).0, calls[1..], lost');
    }
  }

  /** The last positive limit that was set, or the one at the start. */
  function LastLimit(calls: seq<Call>, start: int): int
    decreases |calls|
  {
    if calls == [] then start
    else LastLimit(calls[1..], if calls[0].SetLimit? && calls[0].limit > 0 then calls[0].limit else start)
  }

  /** The size of the limit is the last one set; its sign never changes. */
  lemma {:induction false} LimitIsLastSet(s: State, calls: seq<Call>)
    ensures s.limit >= 0 ==> After(s, calls).limit == LastLimit(calls, s.limit)
    ensures s.limit < 0 ==> After(s, calls).limit == -LastLimit(calls, -s.limit)
    ensures s.limit >= 0 <==> After(s, calls).limit >= 0
    decreases |calls|
  {
    if calls != [] {
      LimitIsLastSet(Does(s, calls[0]).0, calls[1..]);
    }
  }

  /** After any run, an offer is accepted while the limit set last is not reached, and only then,
      if and only if the lost operations still leave room or the queue is full without them. */
  lemma RoomExactly(s: State, calls: seq<Call>, op: Operation)
    requires s.elementCount == |s.store|
    ensures
      var t, lost := After(s, calls), Lost(s, calls, 0);
      var limit := LastLimit(calls, if s.limit < 0 then -s.limit else s.limit);
      && (Does(t, Offer(op)).1.Accepted? <==> |t.store| + lost < limit)
      && ((Does(t, Offer(op)).1.Accepted? <==> |t.store| < limit) <==>
            |t.store| + lost < limit || |t.store| >= limit)
  {
    CountIsStoreAndLost(s, calls, 0);
    LimitIsLastSet(s, calls);
  }

  lemma {:induction false} NothingLost(s: State, calls: seq<Call>)
    requires NoClear(calls)
    ensures Lost(s, calls, 0) == 0
    decreases |calls|
  {
    if calls != [] {
      NothingLost(Does(s, calls[0]).0, calls[1..]);
    }
  }

  /** In a queue that is never cleared an offer is accepted exactly while the limit is not reached. */
  lemma RoomWhenCountIsExact(s: State, calls: seq<Call>, op: Operation)
    requires s.elementCount == |s.store| && NoClear(calls)
    ensures
      var t := After(s, calls);
      && t.elementCount == |t.store|
      && (Does(t, Offer(op)).1.Accepted? <==> |t.store| < LastLimit(calls, if s.limit < 0 then -s.limit else s.limit))
  {
    CountIsStoreAndLost(s, calls, 0);
    LimitIsLastSet(s, calls);
    NothingLost(s, calls);
  }

  /** The witness: a queue that was full when it was cleared refuses until size is called. */
  lemma ClearedQueueStaysFull(s: State, op: Operation)
    requires s.elementCount >= Abs(s.limit) > 0
    ensures
      var t := Does(s, Clear).0;
      t.store == [] && Does(t, Offer(op)).1 == Rejected(op) && Does(Does(t, Size).0, Offer(op)).1 == Accepted(op)
  {
  }
}
