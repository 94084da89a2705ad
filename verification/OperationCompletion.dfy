/**
 The stack of completion handlers of an operation (Operation).

 A completion handler is a closure in the source; here it is a value that names
 the user's handler and the completion it captured.  Each user handler is taken to
 complete the operation again, with a signal that may depend on what it was given.
 */
module OperationCompletion {

  /** The second argument of a handler: null, or the failure. */
  datatype Signal = Ok | Fail(error: int)

  datatype Completion =
    | Null
    | User(h: nat)
    | Nested(h: nat, existing: Completion)         // nestCompletion(CompletionHandler)
    | NestedSuccess(h: nat, existing: Completion)  // nestCompletion(Consumer)
    | Appended(h: nat, existing: Completion)       // appendCompletion on a non-null completion

  /** The signal each user handler completes the operation with. */
  datatype Behaviour = Behaviour(onAny: (nat, Signal) -> Signal, onSuccess: nat -> Signal)

  datatype Event = Event(h: nat, seen: Signal)

  function Size(c: Completion): nat {
    match c
    case Null => 0
    case User(_) => 1
    case Nested(_, existing) => 1 + Size(existing)
    case NestedSuccess(_, existing) => 1 + Size(existing)
    case Appended(_, existing) => 2 + Size(existing)
  }

  /** The handler calls made by running the closure `c` while the completion field holds `field`. */
  function Handled(b: Behaviour, c: Completion, field: Completion, e: Signal): seq<Event>
    decreases Size(c) + Size(field), 0
  {
    match c
    case Null => []
    case User(h) => [Event(h, e)] + Completed(b, field, b.onAny(h, e))
    case Nested(h, existing) => [Event(h, e)] + Completed(b, existing, b.onAny(h, e))
    case NestedSuccess(h, existing) =>
      if e.Fail? then Completed(b, existing, e)
      else [Event(h, e)] + Completed(b, existing, b.onSuccess(h))
    case Appended(h, existing) => Handled(b, existing, Nested(h, field), e)
  }

  /** The handler calls made by completing an operation whose completion field holds `c`. */
  function Completed(b: Behaviour, c: Completion, e: Signal): seq<Event>
    decreases Size(c), 1
  {
    if c.Null? then [] else Handled(b, c, Null, e)
  }

  /** appendCompletion wraps a closure only when there is one. */
  predicate Proper(c: Completion) {
    match c
    case Null => true
    case User(_) => true
    case Nested(_, existing) => Proper(existing)
    case NestedSuccess(_, existing) => Proper(existing)
    case Appended(_, existing) => !existing.Null? && Proper(existing)
  }

  class Operation {
    var completion: Completion
    var calls: seq<Event>

    constructor ()
      ensures completion == Null && calls == []
    {
      completion := Null;
      calls := [];
    }

    method SetCompletion(h: nat)
      requires Proper(completion)
      modifies this`completion
      ensures Proper(completion) && completion == Apply(old(completion), Set(h))
    {
      completion := User(h);
    }

    method NestCompletion(h: nat)
      requires Proper(completion)
      modifies this`completion
      ensures Proper(completion) && completion == Apply(old(completion), Nest(h, false))
    {
      var existing := completion;
      completion := Nested(h, existing);
    }

    method NestSuccessCompletion(h: nat)
      requires Proper(completion)
      modifies this`completion
      ensures Proper(completion) && completion == Apply(old(completion), Nest(h, true))
    {
      var existing := completion;
      completion := NestedSuccess(h, existing);
    }

    method AppendCompletion(h: nat)
      requires Proper(completion)
      modifies this`completion
      ensures Proper(completion) && completion == Apply(old(completion), Append(h))
    {
      var existing := completion;
      if existing.Null? {
        completion := User(h);
      } else {
        completion := Appended(h, existing);
      }
    }

    /** The completion is taken out of the field before it is run, so a second
        completion finds null and does nothing. */
    method CompleteOrFail(b: Behaviour, e: Signal)
      requires Proper(completion)
      modifies this
      ensures completion.Null?
      ensures calls == old(calls) + Completed(b, old(completion), e)
      decreases Size(completion), 1
    {
      var c := completion;
      if c.Null? {
        return;
      }
      completion := Null;
      Handle(b, c, e);
    }

    /** The body of the closure `c`. */
    method Handle(b: Behaviour, c: Completion, e: Signal)
      requires !c.Null? && Proper(c) && Proper(completion)
      modifies this
      ensures completion.Null?
      ensures calls == old(calls) + Handled(b, c, old(completion), e)
      decreases Size(c) + Size(completion), 0
    {
      match c
      case User(h) =>
        calls := calls + [Event(h, e)];
        CompleteOrFail(b, b.onAny(h, e));
      case Nested(h, existing) =>
        completion := existing;
        calls := calls + [Event(h, e)];
        CompleteOrFail(b, b.onAny(h, e));
      case NestedSuccess(h, existing) =>
        completion := existing;
        if e.Fail? {
          CompleteOrFail(b, e);
        } else {
          calls := calls + [Event(h, e)];
          CompleteOrFail(b, b.onSuccess(h));
        }
      case Appended(h, existing) =>
        NestCompletion(h);
        Handle(b, existing, e);
    }
  }

  // ---------- registrations ----------

  datatype Registration = Set(h: nat) | Append(h: nat) | Nest(h: nat, successOnly: bool)

  function Apply(c: Completion, r: Registration): Completion
  {
    match r
    case Set(h) => User(h)
    case Nest(h, successOnly) => if successOnly then NestedSuccess(h, c) else Nested(h, c)
    case Append(h) => if c.Null? then User(h) else Appended(h, c)
  }

  function Build(rs: seq<Registration>): Completion {
    if rs == [] then Null else Apply(Build(rs[..|rs| - 1]), rs[|rs| - 1])
  }

  // ---------- the order of calls ----------

  datatype Item = Item(h: nat, successOnly: bool)

  /** Running a list of handlers one after the other: each is given the signal the one
      before it completed with, and a success-only handler is passed over by a failure. */
  function Deliver(b: Behaviour, items: seq<Item>, e: Signal): seq<Event> {
    if items == [] then []
    else if items[0].successOnly && e.Fail? then Deliver(b, items[1..], e)
    else [Event(items[0].h, e)]
         + Deliver(b, items[1..], if items[0].successOnly then b.onSuccess(items[0].h) else b.onAny(items[0].h, e))
  }

  predicate Plain(rs: seq<Registration>) {
    forall i :: 0 <= i < |rs| ==> !rs[i].Set?
  }

  predicate HasNest(rs: seq<Registration>) {
    exists i :: 0 <= i < |rs| && rs[i].Nest?
  }

  /** The nested handlers, last registered first. */
  function Nests(rs: seq<Registration>): seq<Item> {
    if rs == [] then []
    else
      var r := rs[|rs| - 1];
      (if r.Nest? then [Item(r.h, r.successOnly)] else []) + Nests(rs[..|rs| - 1])
  }

  /** The appended handlers that were registered before the first nested one. */
  function EarlyAppends(rs: seq<Registration>): seq<Item> {
    if rs == [] then []
    else
      var r := rs[|rs| - 1];
      EarlyAppends(rs[..|rs| - 1]) + (if r.Append? && !HasNest(rs[..|rs| - 1]) then [Item(r.h, false)] else [])
  }

  /** The handlers a closure calls, when the completion field holds `field`. */
  function Order(c: Completion, field: Completion): seq<Item>
    decreases Size(c) + Size(field)
  {
    match c
    case Null => []
    case User(h) => [Item(h, false)] + Order(field, Null)
    case Nested(h, existing) => [Item(h, false)] + Order(existing, Null)
    case NestedSuccess(h, existing) => [Item(h, true)] + Order(existing, Null)
    case Appended(h, existing) => Order(existing, Nested(h, field))
  }

  lemma {:induction false} HandledInOrder(b: Behaviour, c: Completion, field: Completion, e: Signal)
    ensures Handled(b, c, field, e) == Deliver(b, Order(c, field), e)
    decreases Size(c) + Size(field)
  {
    match c
    case Null =>
    case User(h) => HandledInOrder(b, field, Null, b.onAny(h, e));
    case Nested(h, existing) => HandledInOrder(b, existing, Null, b.onAny(h, e));
    case NestedSuccess(h, existing) =>
      HandledInOrder(b, existing, Null, e);
      HandledInOrder(b, existing, Null, b.onSuccess(h));
    case Appended(h, existing) => HandledInOrder(b, existing, Nested(h, field), e);
  }

  lemma SplitLast(org: nat, rs: seq<Registration>)
    requires rs != []
    ensures ([Set(org)] + rs)[..|rs|] == [Set(org)] + rs[..|rs| - 1]
    ensures ([Set(org)] + rs)[|rs|] == rs[|rs| - 1]
  {
  }

  lemma HasNestStep(rs: seq<Registration>)
    requires rs != []
    ensures HasNest(rs) <==> HasNest(rs[..|rs| - 1]) || rs[|rs| - 1].Nest?
  {
    var front := rs[..|rs| - 1];
    if HasNest(front) {
      var i :| 0 <= i < |front| && front[i].Nest?;
      assert rs[i].Nest?;
    }
  }

  /** What is run when `base` was run before the registrations `rs`. */
  function Expected(base: seq<Item>, rs: seq<Registration>): seq<Item> {
    Nests(rs) + base + EarlyAppends(rs)
  }

  lemma ExpectedNest(base: seq<Item>, front: seq<Registration>, r: Registration)
    requires r.Nest?
    ensures Expected(base, front + [r]) == [Item(r.h, r.successOnly)] + Expected(base, front)
  {
    assert (front + [r])[..|front|] == front;
    assert Nests(front + [r]) == [Item(r.h, r.successOnly)] + Nests(front);
    assert EarlyAppends(front + [r]) == EarlyAppends(front);
  }

  lemma ExpectedAppend(base: seq<Item>, front: seq<Registration>, r: Registration)
    requires r.Append?
    ensures Expected(base, front + [r]) == Expected(base, front) + (if HasNest(front) then [] else [Item(r.h, false)])
  {
    assert (front + [r])[..|front|] == front;
    assert Nests(front + [r]) == Nests(front);
    assert EarlyAppends(front + [r]) == EarlyAppends(front) + (if HasNest(front) then [] else [Item(r.h, false)]);
  }

  /** What the field adds at the end: nothing once a nested closure overwrote it. */
  function Tail(rs: seq<Registration>, field: Completion): seq<Item> {
    if HasNest(rs) then [] else Order(field, Null)
  }

  lemma OneBetween(a: seq<Item>, x: Item, b: seq<Item>)
    ensures a + ([x] + b) == a + [x] + b
  {
  }

  lemma NoneMore(a: seq<Item>)
    ensures a + [] == a
  {
  }

  lemma OrderBuiltNest(base: seq<Item>, front: seq<Registration>, r: Registration, built: Completion, field: Completion)
    requires r.Nest? && Order(built, Null) == Expected(base, front)
    ensures Order(if r.successOnly then NestedSuccess(r.h, built) else Nested(r.h, built), field) == Expected(base, front + [r])
  {
    ExpectedNest(base, front, r);
  }

  lemma OrderBuiltAppend(base: seq<Item>, front: seq<Registration>, r: Registration, built: Completion, field: Completion)
    requires r.Append? && Order(built, Nested(r.h, field)) == Expected(base, front) + Tail(front, Nested(r.h, field))
    ensures Order(Appended(r.h, built), field) == Expected(base, front + [r]) + Tail(front, field)
  {
    ExpectedAppend(base, front, r);
    if HasNest(front) {
      NoneMore(Expected(base, front));
    } else {
      OneBetween(Expected(base, front), Item(r.h, false), Order(field, Null));
    }
  }

  /** One registration on top of a completion that is built already. */
  lemma OrderBuiltOn(base: seq<Item>, front: seq<Registration>, r: Registration, built: Completion, field: Completion)
    requires !r.Set? && !built.Null?
    requires forall f :: Order(built, f) == Expected(base, front) + Tail(front, f)
    ensures Order(Apply(built, r), field) == Expected(base, front + [r]) + Tail(front + [r], field)
  {
    assert (front + [r])[..|front|] == front;
    HasNestStep(front + [r]);
    if r.Nest? {
      assert Tail(front, Null) == [];
      OrderBuiltNest(base, front, r, built, field);
    } else {
      OrderBuiltAppend(base, front, r, built, field);
    }
  }

  lemma {:induction false} OrderBuilt(org: nat, rs: seq<Registration>, field: Completion)
    requires Plain(rs)
    ensures Order(Build([Set(org)] + rs), field) == Expected([Item(org, false)], rs) + Tail(rs, field)
    decreases |rs|
  {
    if rs == [] {
      assert Build([Set(org)][..0]) == Null;
      assert [Set(org)] + rs == [Set(org)];
    } else {
      var r, front := rs[|rs| - 1], rs[..|rs| - 1];
      assert rs == front + [r];
      SplitLast(org, rs);
      forall f {
        OrderBuilt(org, front, f);
      }
      OrderBuiltOn([Item(org, false)], front, r, Build([Set(org)] + front), field);
    }
  }

  lemma {:induction false} OrderBuiltPlain(rs: seq<Registration>, field: Completion)
    requires Plain(rs) && rs != []
    ensures Order(Build(rs), field) == Expected([], rs) + Tail(rs, field)
    decreases |rs|
  {
    var r, front := rs[|rs| - 1], rs[..|rs| - 1];
    assert rs == front + [r];
    if front == [] {
      HasNestStep(rs);
      assert Build(front) == Null && Build(rs) == Apply(Null, r);
      if r.Nest? {
        assert Nests(rs) == [Item(r.h, r.successOnly)] + Nests(front) && EarlyAppends(rs) == [] + [];
      } else {
        assert Nests(rs) == [] + Nests(front) && EarlyAppends(rs) == [] + [Item(r.h, false)];
        assert Expected([], rs) == [Item(r.h, false)];
      }
    } else {
      forall f {
        OrderBuiltPlain(front, f);
      }
      OrderBuiltOn([], front, r, Build(front), field);
    }
  }

  /** setCompletion(org) followed by any mix of appends and nests: completing the operation
      runs the nested handlers last-to-first, then the original, then the handlers
      appended before the first nest first-to-last; handlers appended later are lost. */
  lemma CallOrder(b: Behaviour, org: nat, rs: seq<Registration>, e: Signal)
    requires Plain(rs)
    ensures Completed(b, Build([Set(org)] + rs), e)
         == Deliver(b, Nests(rs) + [Item(org, false)] + EarlyAppends(rs), e)
  {
    HandledInOrder(b, Build([Set(org)] + rs), Null, e);
    OrderBuilt(org, rs, Null);
    assert Order(Build([Set(org)] + rs), Null) == Expected([Item(org, false)], rs);
  }

  lemma OnlyRegistered(rs: seq<Registration>)
    ensures Expected([], rs) + Tail(rs, Null) == Nests(rs) + EarlyAppends(rs)
  {
    assert Nests(rs) + [] == Nests(rs) && Tail(rs, Null) == [];
    NoneMore(Nests(rs) + EarlyAppends(rs));
  }

  /** The same for an operation whose completion was never set: the first handler appended
      takes the place of the original one. */
  lemma CallOrderWithoutSet(b: Behaviour, rs: seq<Registration>, e: Signal)
    requires Plain(rs)
    ensures Completed(b, Build(rs), e) == Deliver(b, Nests(rs) + EarlyAppends(rs), e)
  {
    if rs != [] {
      HandledInOrder(b, Build(rs), Null, e);
      OrderBuiltPlain(rs, Null);
      OnlyRegistered(rs);
    }
  }

  // ---------- which handlers run ----------

  predicate NoLateAppend(rs: seq<Registration>) {
    forall i, j :: 0 <= i < j < |rs| && rs[i].Nest? ==> !rs[j].Append?
  }

  /** The handlers appended after a nested one. */
  function LateAppends(rs: seq<Registration>): seq<Item> {
    if rs == [] then []
    else
      var r := rs[|rs| - 1];
      LateAppends(rs[..|rs| - 1]) + (if r.Append? && HasNest(rs[..|rs| - 1]) then [Item(r.h, false)] else [])
  }

  function Handlers(items: seq<Item>): multiset<nat> {
    multiset(Names(items))
  }

  function Names(items: seq<Item>): seq<nat> { seq(|items|, i requires 0 <= i < |items| => items[i].h) }

  function Registered(rs: seq<Registration>): multiset<nat> {
    if rs == [] then multiset{} else Registered(rs[..|rs| - 1]) + multiset{rs[|rs| - 1].h}
  }

  function Called(events: seq<Event>): multiset<nat> {
    if events == [] then multiset{} else multiset{events[0].h} + Called(events[1..])
  }

  lemma HandlersConcat(a: seq<Item>, b: seq<Item>)
    ensures Handlers(a + b) == Handlers(a) + Handlers(b)
  {
    assert Names(a + b) == Names(a) + Names(b);
  }

  lemma HandlersOne(x: Item)
    ensures Handlers([x]) == multiset{x.h}
  {
    assert Names([x]) == [x.h];
  }

  lemma HandlersSize(items: seq<Item>)
    ensures |Handlers(items)| == |items|
  {
  }

  /** Every registered handler is nested, appended early or appended late. */
  lemma {:induction false} SortedOut(rs: seq<Registration>)
    requires Plain(rs)
    ensures Registered(rs) == Handlers(Nests(rs)) + Handlers(EarlyAppends(rs)) + Handlers(LateAppends(rs))
  {
    if rs == [] {
      assert Nests(rs) == [] && EarlyAppends(rs) == [] && LateAppends(rs) == [];
    } else {
      var r, front := rs[|rs| - 1], rs[..|rs| - 1];
      assert rs == front + [r];
      SortedOut(front);
      SortedOutStep(front, r);
    }
  }

  lemma OneMore(g: multiset<nat>, a: multiset<nat>, b: multiset<nat>, c: multiset<nat>,
                h: multiset<nat>, x: multiset<nat>, y: multiset<nat>, z: multiset<nat>)
    requires g == a + b + c && h == x + y + z
    ensures g + h == (a + x) + (b + y) + (c + z)
  {
  }

  lemma SortedOutStep(front: seq<Registration>, r: Registration)
    requires !r.Set?
    requires Registered(front) == Handlers(Nests(front)) + Handlers(EarlyAppends(front)) + Handlers(LateAppends(front))
    ensures Registered(front + [r])
         == Handlers(Nests(front + [r])) + Handlers(EarlyAppends(front + [r])) + Handlers(LateAppends(front + [r]))
  {
    var x, y, z := One(r, r.Nest?), One(r, r.Append? && !HasNest(front)), One(r, r.Append? && HasNest(front));
    assert multiset{r.h} == x + y + z;
    OneMore(Registered(front), Handlers(Nests(front)), Handlers(EarlyAppends(front)), Handlers(LateAppends(front)),
            multiset{r.h}, x, y, z);
    RegisteredStep(front, r);
    NestsStep(front, r);
    EarlyStep(front, r);
    LateStep(front, r);
  }

  /** The handler of a registration, if the registration is of the given sort. */
  function One(r: Registration, sort: bool): multiset<nat> { if sort then multiset{r.h} else multiset{} }

  lemma HandlersSnoc(a: seq<Item>, x: Item)
    ensures Handlers(a + [x]) == Handlers(a) + multiset{x.h}
  {
    HandlersConcat(a, [x]);
    HandlersOne(x);
  }

  lemma HandlersCons(x: Item, a: seq<Item>)
    ensures Handlers([x] + a) == Handlers(a) + multiset{x.h}
  {
    HandlersConcat([x], a);
    HandlersOne(x);
  }

  lemma NestsSnoc(front: seq<Registration>, r: Registration)
    ensures Nests(front + [r]) == (if r.Nest? then [Item(r.h, r.successOnly)] else []) + Nests(front)
  {
    assert (front + [r])[..|front|] == front;
  }

  lemma EarlySnoc(front: seq<Registration>, r: Registration)
    ensures EarlyAppends(front + [r]) == EarlyAppends(front) + if r.Append? && !HasNest(front) then [Item(r.h, false)] else []
  {
    assert (front + [r])[..|front|] == front;
  }

  lemma LateSnoc(front: seq<Registration>, r: Registration)
    ensures LateAppends(front + [r]) == LateAppends(front) + if r.Append? && HasNest(front) then [Item(r.h, false)] else []
  {
    assert (front + [r])[..|front|] == front;
  }

  /** A handler more, or not. */
  lemma HandlersMaybe(items: seq<Item>, r: Registration, x: Item, sort: bool)
    requires x.h == r.h
    ensures Handlers(items + if sort then [x] else []) == Handlers(items) + One(r, sort)
    ensures Handlers((if sort then [x] else []) + items) == Handlers(items) + One(r, sort)
  {
    if sort {
      HandlersSnoc(items, x);
      HandlersCons(x, items);
    } else {
      assert items + [] == items && [] + items == items;
    }
  }

  lemma NestsStep(front: seq<Registration>, r: Registration)
    ensures Handlers(Nests(front + [r])) == Handlers(Nests(front)) + One(r, r.Nest?)
  {
    NestsSnoc(front, r);
    HandlersMaybe(Nests(front), r, Item(r.h, r.Nest? && r.successOnly), r.Nest?);
  }

  lemma EarlyStep(front: seq<Registration>, r: Registration)
    ensures Handlers(EarlyAppends(front + [r])) == Handlers(EarlyAppends(front)) + One(r, r.Append? && !HasNest(front))
  {
    EarlySnoc(front, r);
    HandlersMaybe(EarlyAppends(front), r, Item(r.h, false), r.Append? && !HasNest(front));
  }

  lemma LateStep(front: seq<Registration>, r: Registration)
    ensures Handlers(LateAppends(front + [r])) == Handlers(LateAppends(front)) + One(r, r.Append? && HasNest(front))
  {
    LateSnoc(front, r);
    HandlersMaybe(LateAppends(front), r, Item(r.h, false), r.Append? && HasNest(front));
  }

  lemma RegisteredStep(front: seq<Registration>, r: Registration)
    ensures Registered(front + [r]) == Registered(front) + multiset{r.h}
  {
    assert (front + [r])[..|front|] == front;
  }

  lemma {:induction false} LateAppendsExactly(rs: seq<Registration>)
    requires Plain(rs)
    ensures LateAppends(rs) == [] <==> NoLateAppend(rs)
  {
    if rs != [] {
      LateAppendsExactly(rs[..|rs| - 1]);
      LateAppendStep(rs);
    }
  }

  lemma LateAppendStep(rs: seq<Registration>)
    requires rs != [] && Plain(rs)
    ensures NoLateAppend(rs) <==>
              NoLateAppend(rs[..|rs| - 1]) && !(rs[|rs| - 1].Append? && HasNest(rs[..|rs| - 1]))
  {
    var n := |rs| - 1;
    var r, front := rs[n], rs[..n];
    if NoLateAppend(rs) {
      assert forall i, j :: 0 <= i < j < |front| && front[i].Nest? ==> rs[i].Nest? && front[j] == rs[j];
      if HasNest(front) {
        var i :| 0 <= i < |front| && front[i].Nest?;
        assert rs[i].Nest?;
      }
    }
    if NoLateAppend(front) && !(r.Append? && HasNest(front)) {
      forall i, j | 0 <= i < j < |rs| && rs[i].Nest?
        ensures !rs[j].Append?
      {
        assert front[i].Nest?;
        if j < n {
          assert front[j] == rs[j];
        }
      }
    }
  }

  lemma CalledConcat(x: Event, events: seq<Event>)
    ensures Called([x] + events) == multiset{x.h} + Called(events)
  {
    assert ([x] + events)[1..] == events;
  }

  /** What a handler passes on: a success-only handler passes a failure on unchanged. */
  function Next(b: Behaviour, item: Item, e: Signal): Signal {
    if !item.successOnly then b.onAny(item.h, e) else if e.Fail? then e else b.onSuccess(item.h)
  }

  /** The signal that reaches handler number k. */
  function Reaching(b: Behaviour, items: seq<Item>, e: Signal, k: nat): Signal
    requires k < |items|
    decreases k
  {
    if k == 0 then e else Reaching(b, items[1..], Next(b, items[0], e), k - 1)
  }

  /** A handler runs unless it is success-only and a failure reaches it. */
  predicate Runs(b: Behaviour, items: seq<Item>, e: Signal, k: nat)
    requires k < |items|
  {
    items[k].successOnly ==> Reaching(b, items, e, k) == Ok
  }

  /** The handlers that run, each with the signal that reaches it. */
  function Running(b: Behaviour, items: seq<Item>, e: Signal, k: nat): seq<Event>
    requires k <= |items|
    decreases |items| - k
  {
    if k == |items| then []
    else (if Runs(b, items, e, k) then [Event(items[k].h, Reaching(b, items, e, k))] else []) + Running(b, items, e, k + 1)
  }

  lemma {:induction false} RunningLater(b: Behaviour, items: seq<Item>, e: Signal, k: nat)
    requires 1 <= k <= |items|
    ensures Running(b, items, e, k) == Running(b, items[1..], Next(b, items[0], e), k - 1)
    decreases |items| - k
  {
    if k < |items| {
      RunningLater(b, items, e, k + 1);
    }
  }

  /** Each handler is called exactly when it runs, in order, with the signal that reaches it. */
  lemma {:induction false} DeliveredExactly(b: Behaviour, items: seq<Item>, e: Signal)
    ensures Deliver(b, items, e) == Running(b, items, e, 0)
  {
    if items != [] {
      DeliveredExactly(b, items[1..], Next(b, items[0], e));
      RunningLater(b, items, e, 1);
    }
  }

  predicate AllRun(b: Behaviour, items: seq<Item>, e: Signal) {
    forall k :: 0 <= k < |items| ==> Runs(b, items, e, k)
  }

  lemma AllRunStep(b: Behaviour, items: seq<Item>, e: Signal)
    requires items != []
    ensures AllRun(b, items, e) <==> Runs(b, items, e, 0) && AllRun(b, items[1..], Next(b, items[0], e))
  {
    var rest, e' := items[1..], Next(b, items[0], e);
    assert forall k :: 0 <= k < |rest| ==> Runs(b, rest, e', k) == Runs(b, items, e, k + 1);
    if Runs(b, items, e, 0) && AllRun(b, rest, e') {
      forall k | 0 <= k < |items|
        ensures Runs(b, items, e, k)
      {
        assert k > 0 ==> Runs(b, rest, e', k - 1);
      }
    }
  }

  /** The calls are of handlers of the list, and of all of them exactly when all run. */
  lemma {:induction false} DeliveredHandlers(b: Behaviour, items: seq<Item>, e: Signal)
    ensures |Called(Deliver(b, items, e))| <= |items|
    ensures AllRun(b, items, e) ==> Called(Deliver(b, items, e)) == Handlers(items)
    ensures !AllRun(b, items, e) ==> |Called(Deliver(b, items, e))| < |items|
  {
    if items != [] {
      var first, rest := items[0], items[1..];
      var e' := Next(b, first, e);
      assert items == [first] + rest;
      DeliveredHandlers(b, rest, e');
      AllRunStep(b, items, e);
      HandlersConcat([first], rest);
      HandlersOne(first);
      if Runs(b, items, e, 0) {
        CalledConcat(Event(first.h, e), Deliver(b, rest, e'));
      }
    }
  }

  lemma {:induction false} ExpectedHandlers(org: nat, rs: seq<Registration>)
    requires Plain(rs)
    ensures Handlers(Expected([Item(org, false)], rs)) + Handlers(LateAppends(rs)) == Registered(rs) + multiset{org}
  {
    HandlersConcat(Nests(rs) + [Item(org, false)], EarlyAppends(rs));
    HandlersConcat(Nests(rs), [Item(org, false)]);
    HandlersOne(Item(org, false));
    SortedOut(rs);
  }

  /** Whatever the handlers complete the operation with, and whatever it starts with: each
      registered handler runs exactly once if and only if nothing was appended after a nested
      handler and every success-only handler is reached by a success. */
  lemma EveryHandlerRunsOnce(b: Behaviour, org: nat, rs: seq<Registration>, e: Signal)
    requires Plain(rs)
    ensures Called(Completed(b, Build([Set(org)] + rs), e)) == Registered(rs) + multiset{org}
       <==> NoLateAppend(rs) && AllRun(b, Expected([Item(org, false)], rs), e)
  {
    var items := Expected([Item(org, false)], rs);
    CallOrder(b, org, rs, e);
    DeliveredHandlers(b, items, e);
    ExpectedHandlers(org, rs);
    HandlersSize(items);
    HandlersSize(LateAppends(rs));
    LateAppendsExactly(rs);
    assert |Registered(rs) + multiset{org}| == |items| + |LateAppends(rs)|;
  }

  predicate NoSuccessOnly(rs: seq<Registration>) {
    forall i :: 0 <= i < |rs| && rs[i].Nest? ==> !rs[i].successOnly
  }

  lemma {:induction false} ExpectedAnySignal(org: nat, rs: seq<Registration>)
    requires Plain(rs) && NoSuccessOnly(rs)
    ensures forall k :: 0 <= k < |Expected([Item(org, false)], rs)| ==> !Expected([Item(org, false)], rs)[k].successOnly
  {
    if rs != [] {
      var front, r := rs[..|rs| - 1], rs[|rs| - 1];
      assert rs == front + [r];
      ExpectedAnySignal(org, front);
      if r.Nest? {
        ExpectedNest([Item(org, false)], front, r);
      } else {
        ExpectedAppend([Item(org, false)], front, r);
      }
    }
  }

  /** Without success-only handlers each handler runs exactly once, through all failures, if and
      only if nothing was appended after a nested handler. */
  lemma EveryHandlerRunsOnceRegardless(b: Behaviour, org: nat, rs: seq<Registration>, e: Signal)
    requires Plain(rs) && NoSuccessOnly(rs)
    ensures Called(Completed(b, Build([Set(org)] + rs), e)) == Registered(rs) + multiset{org} <==> NoLateAppend(rs)
  {
    ExpectedAnySignal(org, rs);
    EveryHandlerRunsOnce(b, org, rs, e);
  }

  /** A handler appended after a nested one is never called. */
  lemma LateAppendIsLost(b: Behaviour, e: Signal)
    ensures Completed(b, Build([Set(0), Nest(1, false), Append(2)]), e) == [Event(1, e), Event(0, b.onAny(1, e))]
  {
    var rs := [Nest(1, false), Append(2)];
    assert [Set(0)] + rs == [Set(0), Nest(1, false), Append(2)];
    assert rs[..1] == [Nest(1, false)] && rs[..1][..0] == [];
    assert rs[..1][0].Nest?;
    assert Nests(rs[..1]) == [Item(1, false)];
    assert EarlyAppends(rs[..1]) == [];
    assert Nests(rs) == [Item(1, false)] && EarlyAppends(rs) == [];
    CallOrder(b, 0, rs, e);
    assert Nests(rs) + [Item(0, false)] + EarlyAppends(rs) == [Item(1, false), Item(0, false)];
    assert [Item(1, false), Item(0, false)][1..] == [Item(0, false)];
  }

  /** A failure passes unchanged through any number of success-only nested handlers. */
  lemma {:induction false} FailurePassesThrough(b: Behaviour, org: nat, rs: seq<Registration>, only: seq<Registration>, error: int)
    requires Plain(rs)
    requires forall i :: 0 <= i < |only| ==> only[i].Nest? && only[i].successOnly
    ensures Completed(b, Build([Set(org)] + rs + only), Fail(error)) == Completed(b, Build([Set(org)] + rs), Fail(error))
    decreases |only|
  {
    if only == [] {
      assert [Set(org)] + rs + only == [Set(org)] + rs;
    } else {
      var n := |only| - 1;
      var all := [Set(org)] + rs + only;
      assert all[..|all| - 1] == [Set(org)] + rs + only[..n];
      assert all[|all| - 1] == only[n];
      FailurePassesThrough(b, org, rs, only[..n], error);
    }
  }
}
