/**
 Comparing replicas of a document (ServiceDocument.compare) and choosing among them
 (the best-state selection of NodeSelectorSynchronizationService).

 Time differences are 64-bit in the source, so they wrap here too.
 */
module ServiceDocument {
  import opened Common

  const TWO_63: int := 0x8000_0000_0000_0000

  function ToLong(x: int): int { (x + 0x8000_0000_0000_0000) % 0x1_0000_0000_0000_0000 - 0x8000_0000_0000_0000 }

  /** Math.abs on long: the least value has no positive counterpart. */
  function AbsLong(x: int): int { if x < 0 && x != -TWO_63 then -x else x }

  /** `content` stands for the fields compared by ServiceDocument.equals. */
  datatype Document = Document(epoch: Option<int>, version: int, updateTime: int, content: int) {
    function Epoch(): int { if epoch.Some? then epoch.value else 0 }
  }

  datatype Relationship =
    | NewerVersion | EqualVersion | EqualTime | NewerUpdateTime | InConflict | Preferred

  function Compare(a: Document, b: Option<Document>, epsilon: int): set<Relationship> {
    if b.None? then {Preferred}
    else
      var b := b.value;
      var newer := a.Epoch() > b.Epoch() || (a.Epoch() == b.Epoch() && a.version > b.version);
      var equal := a.Epoch() == b.Epoch() && a.version == b.version;
      var difference := ToLong(a.updateTime - b.updateTime);
      var close := AbsLong(difference) < epsilon;
      (if newer then {NewerVersion} else if equal then {EqualVersion} else {})
      + (if difference == 0 then {EqualTime} else if difference > 0 then {NewerUpdateTime} else {})
      + (if equal && close && a.content != b.content then {InConflict} else {})
      + (if newer || (equal && !close && difference > 0) then {Preferred} else {})
  }

  predicate PreferredTo(a: Document, b: Document, epsilon: int) {
    Preferred in Compare(a, Some(b), epsilon)
  }

  predicate IsLong(x: int) { -TWO_63 <= x < TWO_63 }

  /** The difference of the two update times does not overflow, in either order. */
  predicate Fits(a: Document, b: Document) {
    IsLong(a.updateTime) && IsLong(b.updateTime) && -TWO_63 < a.updateTime - b.updateTime < TWO_63
  }

  predicate VersionAbove(a: Document, b: Document) {
    a.Epoch() > b.Epoch() || (a.Epoch() == b.Epoch() && a.version > b.version)
  }

  predicate SameVersion(a: Document, b: Document) {
    a.Epoch() == b.Epoch() && a.version == b.version
  }

  /** Updated later, by at least epsilon. */
  predicate LaterBy(a: Document, b: Document, epsilon: int) {
    a.updateTime > b.updateTime && a.updateTime - b.updateTime >= epsilon
  }

  /** What PREFERRED means: a higher (epoch, version), or the same one updated later by at
      least epsilon. */
  lemma PreferredMeans(a: Document, b: Document, epsilon: int)
    requires Fits(a, b)
    ensures PreferredTo(a, b, epsilon) <==> VersionAbove(a, b) || (SameVersion(a, b) && LaterBy(a, b, epsilon))
    ensures InConflict in Compare(a, Some(b), epsilon) <==>
              SameVersion(a, b) && a.content != b.content && -epsilon < a.updateTime - b.updateTime < epsilon
  {
  }

  /** What the other relations mean; against no document at all there is only PREFERRED. */
  lemma RelationsMean(a: Document, b: Document, epsilon: int)
    requires Fits(a, b)
    ensures
      var r := Compare(a, Some(b), epsilon);
      && (NewerVersion in r <==> VersionAbove(a, b))
      && (EqualVersion in r <==> SameVersion(a, b))
      && (EqualTime in r <==> a.updateTime == b.updateTime)
      && (NewerUpdateTime in r <==> a.updateTime > b.updateTime)
    ensures Compare(a, None, epsilon) == {Preferred}
  {
  }

  /** A document without an epoch counts as one of epoch 0. */
  lemma NoEpochIsZero(a: Document, b: Document, epsilon: int)
    ensures Compare(a.(epoch := None), Some(b), epsilon) == Compare(a.(epoch := Some(0)), Some(b), epsilon)
    ensures Compare(b, Some(a.(epoch := None)), epsilon) == Compare(b, Some(a.(epoch := Some(0))), epsilon)
  {
  }

  /** Of two documents of the same version PREFERRED, in both directions, is "later by at least
      epsilon" if and only if the time difference does not overflow. */
  lemma PreferredExactly(a: Document, b: Document, epsilon: int)
    requires IsLong(a.updateTime) && IsLong(b.updateTime) && SameVersion(a, b) && 0 <= epsilon < TWO_63
    ensures Fits(a, b) <==>
              && (PreferredTo(a, b, epsilon) <==> LaterBy(a, b, epsilon))
              && (PreferredTo(b, a, epsilon) <==> LaterBy(b, a, epsilon))
  {
  }

  /** PREFERRED is a strict partial order, whatever the epsilon, on documents whose time
      differences do not overflow. */
  lemma PreferredIsStrictOrder(a: Document, b: Document, c: Document, epsilon: int)
    requires Fits(a, b) && Fits(b, c) && Fits(a, c)
    ensures !PreferredTo(a, a, epsilon)
    ensures PreferredTo(a, b, epsilon) ==> !PreferredTo(b, a, epsilon)
    ensures PreferredTo(a, b, epsilon) && PreferredTo(b, c, epsilon) ==> PreferredTo(a, c, epsilon)
  {
    PreferredMeans(a, a, epsilon);
    PreferredMeans(a, b, epsilon);
    PreferredMeans(b, a, epsilon);
    PreferredMeans(b, c, epsilon);
    PreferredMeans(a, c, epsilon);
  }

  /** With a difference that overflows PREFERRED can run in a circle. */
  lemma OverflowMakesACircle()
    ensures
      var a := Document(None, 0, -6_000_000_000_000_000_000, 0);
      var b := Document(None, 0, 0, 0);
      var c := Document(None, 0, 6_000_000_000_000_000_000, 0);
      PreferredTo(b, a, 1) && PreferredTo(c, b, 1) && PreferredTo(a, c, 1) && !Fits(a, c)
  {
    assert ToLong(6_000_000_000_000_000_000) == 6_000_000_000_000_000_000;
    assert ToLong(-12_000_000_000_000_000_000) > 0;
  }

  // ---------- replace if preferred ----------

  function Settle(current: Document, replicas: seq<Document>, epsilon: int): Document
    decreases |replicas|
  {
    if replicas == [] then current
    else Settle(if PreferredTo(replicas[0], current, epsilon) then replicas[0] else current, replicas[1..], epsilon)
  }

  /** No two of the documents have times whose difference overflows. */
  ghost predicate Comparable(ds: set<Document>) { forall a, b :: a in ds && b in ds ==> Fits(a, b) }

  /** The documents of a list and one more. */
  function All(current: Document, replicas: seq<Document>): set<Document> { {current} + set d | d in replicas }

  /** Replacing the current state by every preferred replica, in any order, ends at one of
      the states, and none of them is preferred to it. */
  lemma {:induction false} SettleIsMaximal(current: Document, replicas: seq<Document>, epsilon: int)
    requires Comparable(All(current, replicas))
    ensures
      var best := Settle(current, replicas, epsilon);
      && best in All(current, replicas)
      && (best == current || PreferredTo(best, current, epsilon))
      && (forall r :: r in All(current, replicas) ==> !PreferredTo(r, best, epsilon))
    decreases |replicas|
  {
    PreferredIsStrictOrder(current, current, current, epsilon);
    if replicas != [] {
      var first, rest := replicas[0], replicas[1..];
      var kept := if PreferredTo(first, current, epsilon) then first else current;
      assert All(current, replicas) == All(kept, rest) + {first, current};
      assert Comparable(All(kept, rest));
      SettleIsMaximal(kept, rest, epsilon);
      var best := Settle(kept, rest, epsilon);
      assert kept in All(kept, rest);
      PreferredIsStrictOrder(best, kept, current, epsilon);
      PreferredIsStrictOrder(current, best, kept, epsilon);
      PreferredIsStrictOrder(first, best, kept, epsilon);
      PreferredIsStrictOrder(first, best, current, epsilon);
    }
  }

  /** Two orders of the same replicas end at states of the same epoch and version whose update
      times are closer than epsilon (or equal): they are the same or in conflict. */
  lemma OrdersAgree(c1: Document, r1: seq<Document>, c2: Document, r2: seq<Document>, epsilon: int)
    requires Comparable(All(c1, r1)) && All(c1, r1) == All(c2, r2)
    ensures
      var a, b := Settle(c1, r1, epsilon), Settle(c2, r2, epsilon);
      && SameVersion(a, b)
      && (a.updateTime == b.updateTime || -epsilon < a.updateTime - b.updateTime < epsilon)
  {
    SettleIsMaximal(c1, r1, epsilon);
    SettleIsMaximal(c2, r2, epsilon);
    var a, b := Settle(c1, r1, epsilon), Settle(c2, r2, epsilon);
    PreferredMeans(a, b, epsilon);
    PreferredMeans(b, a, epsilon);
  }

  // ---------- the choice made by synchronization ----------

  /** Number k is the first of the peer states with the highest epoch and, in it, the highest version. */
  ghost predicate FirstBest(peers: seq<Document>, k: int) {
    && 0 <= k < |peers|
    && (forall i :: 0 <= i < |peers| ==> !VersionAbove(peers[i], peers[k]))
    && (forall i :: 0 <= i < k ==> VersionAbove(peers[k], peers[i]))
  }

  method BestPeer(peers: seq<Document>) returns (best: Option<Document>)
    ensures peers == [] <==> best.None?
    ensures best.Some? ==> exists k :: FirstBest(peers, k) && best.value == peers[k]
  {
    best := None;
    var i := 0;
    ghost var k := 0;
    while i < |peers|
      invariant 0 <= i <= |peers|
      invariant i == 0 <==> best.None?
      invariant best.Some? ==> 0 <= k < i && best.value == peers[k]
      invariant best.Some? ==> forall j :: 0 <= j < i ==> !VersionAbove(peers[j], peers[k])
      invariant best.Some? ==> forall j :: 0 <= j < k ==> VersionAbove(peers[k], peers[j])
    {
      if best.None? || VersionAbove(peers[i], best.value) {
        best := Some(peers[i]);
        k := i;
      }
      i := i + 1;
    }
    assert best.Some? ==> FirstBest(peers, k);
  }

  /** Whether the local state is kept against the first best peer: it is ahead in version, or
      later by at least epsilon. */
  predicate KeepsLocal(local: Document, best: Document, epsilon: int) {
    VersionAbove(local, best) || (SameVersion(local, best) && LaterBy(local, best, epsilon))
  }

  /** What synchronization ends with: a state, or one of its two failures. */
  datatype Outcome = Chosen(state: Document) | NotFound | InvalidState

  /** The state kept.  Without a given version a conflict is settled for the peer, otherwise the
      local state is kept when it is ahead; with one, the peers are not compared with the local
      state.  -1 is the version of an owner that has no document.  A state without a valid version
      or epoch is not broadcast. */
  method ChooseState(local: Document, peers: seq<Document>, epsilon: int, versionGiven: bool) returns (outcome: Outcome)
    requires Comparable(All(local, peers))
    ensures peers == [] ==>
              outcome == if local.version == -1 || versionGiven then NotFound
                         else if local.version >= 0 && local.Epoch() >= 0 then Chosen(local) else InvalidState
    ensures peers != [] ==>
              exists k :: FirstBest(peers, k)
                && var d := if !versionGiven && KeepsLocal(local, peers[k], epsilon) then local else peers[k];
                   outcome == if d.version >= 0 && d.Epoch() >= 0 then Chosen(d) else InvalidState
  {
    var best := BestPeer(peers);
    var results: set<Relationship> := {};
    if !versionGiven {
      if best.None? || local.Epoch() > best.value.Epoch() {
        results := {Preferred};
      } else if local.Epoch() == best.value.Epoch() {
        results := Compare(local, Some(best.value), epsilon);
      }
    }
    if best.None? && (local.version == -1 || versionGiven) {
      return NotFound;
    }
    if best.Some? {
      assert best.value in All(local, peers) && local in All(local, peers);
      PreferredMeans(local, best.value, epsilon);
    }
    var chosen := best;
    if InConflict in results {
      // settled for the peer
    } else if Preferred in results {
      chosen := Some(local);
    }
    if chosen.None? {
      chosen := Some(local);
    }
    var d := chosen.value;
    outcome := if d.version < 0 || d.Epoch() < 0 then InvalidState else Chosen(d);
  }

  /** The choice is one of the states, no version is above it and the local state is not
      preferred to it; no peer is preferred to it either if and only if no peer of its version
      was updated later by at least epsilon. */
  lemma ChoiceIsMaximalExactly(local: Document, peers: seq<Document>, epsilon: int, k: nat)
    requires Comparable(All(local, peers)) && FirstBest(peers, k)
    ensures
      var chosen := if KeepsLocal(local, peers[k], epsilon) then local else peers[k];
      && chosen in All(local, peers)
      && (forall d :: d in All(local, peers) ==> !VersionAbove(d, chosen))
      && !PreferredTo(local, chosen, epsilon)
      && ((forall i :: 0 <= i < |peers| ==> !PreferredTo(peers[i], chosen, epsilon)) <==>
            (forall i :: 0 <= i < |peers| && SameVersion(peers[i], chosen) ==> !LaterBy(peers[i], chosen, epsilon)))
  {
    var chosen := if KeepsLocal(local, peers[k], epsilon) then local else peers[k];
    assert peers[k] in All(local, peers) && local in All(local, peers);
    PreferredMeans(local, chosen, epsilon);
    forall i | 0 <= i < |peers|
      ensures !VersionAbove(peers[i], chosen)
      ensures PreferredTo(peers[i], chosen, epsilon) <==> SameVersion(peers[i], chosen) && LaterBy(peers[i], chosen, epsilon)
    {
      assert peers[i] in All(local, peers);
      PreferredMeans(peers[i], chosen, epsilon);
    }
  }

  /** A later peer of the same version than the first one found is passed over. */
  lemma LaterPeerIsPassedOver(epsilon: int)
    requires 0 < epsilon < TWO_63
    ensures
      var local, first, later := Document(None, 0, 0, 0), Document(None, 1, 0, 0), Document(None, 1, epsilon, 1);
      FirstBest([first, later], 0) && !KeepsLocal(local, first, epsilon) && PreferredTo(later, first, epsilon)
  {
    var local, first, later := Document(None, 0, 0, 0), Document(None, 1, 0, 0), Document(None, 1, epsilon, 1);
    assert [first, later][0] == first && [first, later][1] == later;
    PreferredMeans(later, first, epsilon);
  }
}
