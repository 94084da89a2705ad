/**
 The service state cache (ServiceResourceTracker).

 The shared state of each attached service lives in its AttachedServiceInfo, the states seen by
 open transactions in a second map.  The theorems say what a read returns in terms of the
 history of updates, resets and clears.
 */
module ServiceResourceTracker {
  import opened Common

  datatype Doc = Doc(version: int, expirationTime: int, content: nat)

  datatype Info = Info(cachedState: Option<Doc>, lastAccessTime: int)

  /** The parts of a service and an operation the cache looks at; `tx` is None when the
      operation is not transactional. */
  datatype Service = Service(link: string, indexed: bool)
  datatype Operation = Operation(tx: Option<string>, fromReplication: bool, synchronizeOwner: bool)

  predicate Cacheable(s: Service, op: Operation, caching: bool) {
    !s.indexed || ((!op.fromReplication || op.synchronizeOwner) && caching)
  }

  /** An existing state of a higher version wins over an update. */
  function Newer(existing: Option<Doc>, st: Doc): Doc {
    if existing.Some? && existing.value.version > st.version then existing.value else st
  }

  datatype State = State(
    attached: map<string, Info>,
    transactional: map<(string, string), Doc>,
    caching: bool)

  datatype Event =
    | Attach(link: string)
    | Detach(link: string)
    | Update(s: Service, st: Doc, op: Operation, checkVersion: bool, now: int)
    | Clear(link: string, tx: Option<string>)

  function Apply(x: State, e: Event): State {
    match e
    case Attach(link) => x.(attached := x.attached[link := Info(None, 0)])
    case Detach(link) => x.(attached := x.attached - {link})
    case Update(s, st, op, checkVersion, now) =>
      if s.link !in x.attached then x
      else
        var info := x.attached[s.link];
        if !Cacheable(s, op, x.caching) then
          if s.indexed then x.(attached := x.attached[s.link := info.(lastAccessTime := now)]) else x
        else if op.tx.None? then
          if checkVersion && info.cachedState.Some? && info.cachedState.value.version > st.version then x
          else x.(attached := x.attached[s.link := Info(Some(st), if s.indexed then now else info.lastAccessTime)])
        else
          var key := (s.link, op.tx.value);
          var existing := if key in x.transactional then Some(x.transactional[key]) else None;
          x.(transactional := x.transactional[key := Newer(existing, st)])
    case Clear(link, tx) =>
      if tx.Some? then x.(transactional := x.transactional - {(link, tx.value)})
      else if link in x.attached then x.(attached := x.attached[link := Info(None, 0)])
      else x
  }

  /** The state getCachedServiceState finds, before it looks at the expiration. */
  function Lookup(x: State, link: string, tx: Option<string>): Option<Doc> {
    if tx.Some? && (link, tx.value) in x.transactional then Some(x.transactional[(link, tx.value)])
    else if link in x.attached then x.attached[link].cachedState
    else None
  }

  class Tracker {
    var attachedServices: map<string, Info>
    var cachedTransactionalServiceStates: map<(string, string), Doc>
    var isServiceStateCaching: bool

    function Value(): State
      reads this
    {
      State(attachedServices, cachedTransactionalServiceStates, isServiceStateCaching)
    }

    constructor (caching: bool)
      ensures Value() == State(map[], map[], caching)
    {
      attachedServices, cachedTransactionalServiceStates, isServiceStateCaching := map[], map[], caching;
    }

    method UpdateCachedServiceState(s: Service, st: Doc, op: Operation, checkVersion: bool, now: int)
      modifies this
      ensures Value() == Apply(old(Value()), Update(s, st, op, checkVersion, now))
    {
      if s.link !in attachedServices {
        return;
      }
      var info := attachedServices[s.link];
      var cacheState := !s.indexed;
      cacheState := cacheState || ((!op.fromReplication || op.synchronizeOwner) && isServiceStateCaching);
      if !cacheState {
        if s.indexed {
          attachedServices := attachedServices[s.link := info.(lastAccessTime := now)];
        }
        return;
      }
      if op.tx.None? {
        var cachedState := info.cachedState;
        if checkVersion && cachedState.Some? && cachedState.value.version > st.version {
          return;
        }
        info := info.(cachedState := Some(st));
        if s.indexed {
          info := info.(lastAccessTime := now);
        }
        attachedServices := attachedServices[s.link := info];
        return;
      }
      var key := (s.link, op.tx.value);
      if key in cachedTransactionalServiceStates && cachedTransactionalServiceStates[key].version > st.version {
        return;
      }
      cachedTransactionalServiceStates := cachedTransactionalServiceStates[key := st];
    }

    /** The result is what the lookup finds unless it has expired; the states are untouched,
        a shared read of an indexed service is noted as an access, and for an expired state
        the service is deleted. */
    method GetCachedServiceState(s: Service, op: Operation, now: int) returns (state: Option<Doc>, deletes: bool)
      modifies this`attachedServices
      ensures
        var found := Lookup(old(Value()), s.link, op.tx);
        && (deletes <==> found.Some? && 0 < found.value.expirationTime < now)
        && state == (if deletes then None else found)
      ensures state.Some? && s.indexed && op.tx.None? ==>
                && s.link in old(attachedServices)
                && attachedServices == old(attachedServices)[s.link := Info(state, now)]
      ensures !(state.Some? && s.indexed && op.tx.None?) ==> attachedServices == old(attachedServices)
    {
      state, deletes := None, false;
      if op.tx.Some? && (s.link, op.tx.value) in cachedTransactionalServiceStates {
        state := Some(cachedTransactionalServiceStates[(s.link, op.tx.value)]);
      }
      if state.None? && s.link in attachedServices {
        state := attachedServices[s.link].cachedState;
      }
      if state.None? {
        return;
      }
      if state.value.expirationTime > 0 && state.value.expirationTime < now {
        state, deletes := None, true;
        return;
      }
      if s.indexed && op.tx.None? {
        attachedServices := attachedServices[s.link := attachedServices[s.link].(lastAccessTime := now)];
      }
    }

    method ClearCachedServiceState(link: string, tx: Option<string>)
      modifies this
      ensures Value() == Apply(old(Value()), Clear(link, tx))
    {
      if tx.None? {
        if link in attachedServices {
          attachedServices := attachedServices[link := Info(None, 0)];
        }
        return;
      }
      cachedTransactionalServiceStates := cachedTransactionalServiceStates - {(link, tx.value)};
    }
  }

  // ---------- histories ----------

  function Run(x: State, es: seq<Event>): State {
    if es == [] then x else Apply(Run(x, es[..|es| - 1]), es[|es| - 1])
  }

  function Start(caching: bool): State { State(map[], map[], caching) }

  function Attached(es: seq<Event>, link: string): bool {
    if es == [] then false
    else match es[|es| - 1]
         case Attach(l) => l == link || Attached(es[..|es| - 1], link)
         case Detach(l) => l != link && Attached(es[..|es| - 1], link)
         case _ => Attached(es[..|es| - 1], link)
  }

  /** The shared updates of a service that arrived since it was attached, last reset or last
      cleared; a reset is the first of them. */
  function SharedUpdates(es: seq<Event>, link: string, caching: bool): seq<Doc> {
    if es == [] then []
    else
      var before := SharedUpdates(es[..|es| - 1], link, caching);
      match es[|es| - 1]
      case Attach(l) => if l == link then [] else before
      case Detach(l) => if l == link then [] else before
      case Clear(l, tx) => if l == link && tx.None? then [] else before
      case Update(s, st, op, checkVersion, _) =>
        if s.link == link && op.tx.None? && Attached(es[..|es| - 1], link)
           && (!s.indexed || (caching && !(op.fromReplication && !op.synchronizeOwner)))
        then (if checkVersion then before else []) + [st]
        else before
  }

  /** The updates of a transaction on a service since its entry was last cleared. */
  function OwnUpdates(es: seq<Event>, link: string, tx: string, caching: bool): seq<Doc> {
    if es == [] then []
    else
      var before := OwnUpdates(es[..|es| - 1], link, tx, caching);
      match es[|es| - 1]
      case Clear(l, t) => if l == link && t == Some(tx) then [] else before
      case Update(s, st, op, _, _) =>
        if s.link == link && op.tx == Some(tx) && Attached(es[..|es| - 1], link)
           && (!s.indexed || (caching && !(op.fromReplication && !op.synchronizeOwner)))
        then before + [st]
        else before
      case _ => before
  }

  /** `d` is the last to arrive among the documents of the highest version. */
  ghost predicate LastHighest(ds: seq<Doc>, d: Option<Doc>) {
    if ds == [] then d.None?
    else d.Some? && exists i :: LastHighestAt(ds, d.value, i)
  }

  ghost predicate LastHighestAt(ds: seq<Doc>, d: Doc, i: int) {
    && 0 <= i < |ds| && ds[i] == d
    && (forall j :: 0 <= j < |ds| ==> ds[j].version <= d.version)
    && (forall j :: i < j < |ds| ==> ds[j].version < d.version)
  }

  lemma LastHighestStep(ds: seq<Doc>, d: Option<Doc>, st: Doc)
    requires LastHighest(ds, d)
    ensures LastHighest(ds + [st], Some(Newer(d, st)))
  {
    if ds == [] || d.value.version <= st.version {
      assert LastHighestAt(ds + [st], st, |ds|);
    } else {
      var i :| LastHighestAt(ds, d.value, i);
      assert LastHighestAt(ds + [st], d.value, i);
    }
  }

  lemma {:induction false} AttachedRefines(es: seq<Event>, link: string, caching: bool)
    ensures
      var x := Run(Start(caching), es);
      x.caching == caching && (link in x.attached <==> Attached(es, link))
  {
    if es != [] {
      AttachedRefines(es[..|es| - 1], link, caching);
    }
  }

  function SharedOf(x: State, link: string): Option<Doc> {
    if link in x.attached then x.attached[link].cachedState else None
  }

  function OwnOf(x: State, link: string, tx: string): Option<Doc> {
    if (link, tx) in x.transactional then Some(x.transactional[(link, tx)]) else None
  }

  lemma {:induction false} SharedRefines(es: seq<Event>, link: string, caching: bool)
    ensures LastHighest(SharedUpdates(es, link, caching), SharedOf(Run(Start(caching), es), link))
  {
    if es != [] {
      var front, e := es[..|es| - 1], es[|es| - 1];
      var x := Run(Start(caching), front);
      SharedRefines(front, link, caching);
      AttachedRefines(front, link, caching);
      if e.Update? {
        if e.s.link == link {
          LastHighestStep(SharedUpdates(front, link, caching), SharedOf(x, link), e.st);
          LastHighestStep([], None, e.st);
        } else {
          OtherLink(x, e, link);
        }
      }
    }
  }

  lemma {:induction false} OwnRefines(es: seq<Event>, link: string, tx: string, caching: bool)
    ensures LastHighest(OwnUpdates(es, link, tx, caching), OwnOf(Run(Start(caching), es), link, tx))
  {
    if es != [] {
      var front, e := es[..|es| - 1], es[|es| - 1];
      OwnRefines(front, link, tx, caching);
      AttachedRefines(front, link, caching);
      if e.Update? && e.s.link == link {
        LastHighestStep(OwnUpdates(front, link, tx, caching), OwnOf(Run(Start(caching), front), link, tx), e.st);
      }
    }
  }

  /** The cache refines its history: the shared state of an attached service is the last-arriving
      highest-version update since the last reset or clear, and the entry of a transaction is
      the last-arriving highest-version update made under it since it was cleared. */
  lemma CacheRefinesHistory(es: seq<Event>, link: string, tx: string, caching: bool)
    ensures
      var x := Run(Start(caching), es);
      && x.caching == caching
      && (link in x.attached <==> Attached(es, link))
      && LastHighest(SharedUpdates(es, link, caching), SharedOf(x, link))
      && LastHighest(OwnUpdates(es, link, tx, caching), OwnOf(x, link, tx))
  {
    AttachedRefines(es, link, caching);
    SharedRefines(es, link, caching);
    OwnRefines(es, link, tx, caching);
  }

  /** A read sees the transaction's own entry if it has one and the shared state otherwise. */
  lemma ReadSeesOwnOrShared(es: seq<Event>, link: string, tx: Option<string>, caching: bool)
    ensures
      var shared, found := SharedUpdates(es, link, caching), Lookup(Run(Start(caching), es), link, tx);
      if tx.Some? && OwnUpdates(es, link, tx.value, caching) != []
      then LastHighest(OwnUpdates(es, link, tx.value, caching), found)
      else LastHighest(shared, found)
  {
    CacheRefinesHistory(es, link, if tx.Some? then tx.value else "", caching);
  }

  /** The access time is moved by the updates of an indexed service that are not cached, and by
      the shared ones that are not outdated; no other access time changes. */
  lemma AccessTimeAfterUpdate(x: State, s: Service, st: Doc, op: Operation, checkVersion: bool, now: int, link: string)
    requires link in x.attached
    ensures
      var t := Apply(x, Update(s, st, op, checkVersion, now));
      var shared := SharedOf(x, link);
      var outdated := checkVersion && shared.Some? && shared.value.version > st.version;
      var cached := x.caching && (!op.fromReplication || op.synchronizeOwner);
      && link in t.attached
      && t.attached[link].lastAccessTime ==
           if s.link == link && s.indexed && !(cached && (op.tx.Some? || outdated)) then now
           else x.attached[link].lastAccessTime
  {
  }

  /** A service that is attached or cleared has no state and was never accessed. */
  lemma AccessTimeAfterClear(x: State, link: string)
    ensures Apply(x, Attach(link)).attached == x.attached[link := Info(None, 0)]
    ensures link in x.attached ==> Apply(x, Clear(link, None)).attached == x.attached[link := Info(None, 0)]
    ensures link !in x.attached ==> Apply(x, Clear(link, None)) == x
  {
  }

  predicate Foreign(e: Event, link: string, tx: Option<string>) {
    match e
    case Update(s, _, op, _, _) => s.link == link && op.tx.Some? && op.tx != tx
    case Clear(l, t) => l == link && t.Some? && t != tx
    case _ => false
  }

  /** The history without what other transactions did to the service. */
  function Own(es: seq<Event>, link: string, tx: Option<string>): seq<Event> {
    if es == [] then []
    else Own(es[..|es| - 1], link, tx) + (if Foreign(es[|es| - 1], link, tx) then [] else [es[|es| - 1]])
  }

  ghost predicate SameView(x: State, y: State, link: string, tx: Option<string>) {
    && x.caching == y.caching
    && (link in x.attached <==> link in y.attached)
    && SharedOf(x, link) == SharedOf(y, link)
    && (tx.Some? ==> OwnOf(x, link, tx.value) == OwnOf(y, link, tx.value))
  }

  lemma RunAppend(x: State, es: seq<Event>, e: Event)
    ensures Run(x, es + [e]) == Apply(Run(x, es), e)
  {
    assert (es + [e])[..|es|] == es;
  }

  lemma ForeignIsInvisible(x: State, link: string, tx: Option<string>, e: Event)
    requires Foreign(e, link, tx)
    ensures SameView(Apply(x, e), x, link, tx)
  {
  }

  lemma {:induction false} OthersKeepView(es: seq<Event>, link: string, tx: Option<string>, caching: bool)
    ensures SameView(Run(Start(caching), es), Run(Start(caching), Own(es, link, tx)), link, tx)
  {
    if es != [] {
      var front, e := es[..|es| - 1], es[|es| - 1];
      var x, y := Run(Start(caching), front), Run(Start(caching), Own(front, link, tx));
      OthersKeepView(front, link, tx, caching);
      if !Foreign(e, link, tx) {
        RunAppend(Start(caching), Own(front, link, tx), e);
        ApplySameView(x, y, link, tx, e);
      } else {
        ForeignIsInvisible(x, link, tx, e);
        assert Own(es, link, tx) == Own(front, link, tx);
      }
    }
  }

  /** What other transactions do to the service never changes what a read returns. */
  lemma OthersAreInvisible(es: seq<Event>, link: string, tx: Option<string>, caching: bool)
    ensures Lookup(Run(Start(caching), es), link, tx) == Lookup(Run(Start(caching), Own(es, link, tx)), link, tx)
  {
    OthersKeepView(es, link, tx, caching);
  }

  lemma ApplySameShared(x: State, y: State, link: string, e: Event)
    requires x.caching == y.caching && (link in x.attached <==> link in y.attached) && SharedOf(x, link) == SharedOf(y, link)
    ensures
      var x', y' := Apply(x, e), Apply(y, e);
      x'.caching == y'.caching && (link in x'.attached <==> link in y'.attached) && SharedOf(x', link) == SharedOf(y', link)
  {
    if e.Update? && e.s.link != link {
      OtherLink(x, e, link);
      OtherLink(y, e, link);
    }
  }

  lemma OtherLink(x: State, e: Event, link: string)
    requires e.Update? && e.s.link != link
    ensures
      var x' := Apply(x, e);
      x'.caching == x.caching && (link in x'.attached <==> link in x.attached) && SharedOf(x', link) == SharedOf(x, link)
  {
  }

  lemma ApplySameOwn(x: State, y: State, link: string, tx: string, e: Event)
    requires x.caching == y.caching && (link in x.attached <==> link in y.attached) && OwnOf(x, link, tx) == OwnOf(y, link, tx)
    ensures OwnOf(Apply(x, e), link, tx) == OwnOf(Apply(y, e), link, tx)
  {
  }

  lemma ApplySameView(x: State, y: State, link: string, tx: Option<string>, e: Event)
    requires SameView(x, y, link, tx)
    ensures SameView(Apply(x, e), Apply(y, e), link, tx)
  {
    ApplySameShared(x, y, link, e);
    if tx.Some? {
      ApplySameOwn(x, y, link, tx.value, e);
    }
  }
}
