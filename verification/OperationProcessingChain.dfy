/**
 Passing an operation through a chain of filters (OperationProcessingChain).

 A filter is whatever answers it gives: `f(k, i)` is what the k-th filter call, made on
 filter i, returns.  A suspended operation is resumed later, or from inside the suspend
 consumer; the methods are given the codes of the resumes made inside, and are shown to make
 the same calls as if each of them came later.
 */
module OperationProcessingChain {
  import opened Common

  datatype Code = Continue | Resume | FailedStop | SuccessStop | Suspend

  /** A filter's return code, and whether it called setSuspendConsumer. */
  datatype Answer = Answer(code: Code, setsConsumer: bool)

  type Filters = (nat, nat) -> Answer

  /** One filter call: the filter's index, what it returned and, if it suspended the operation,
      the code it was resumed with. */
  datatype Entry = Entry(index: nat, answer: Code, resumed: Option<Code>)

  datatype Mode = Fresh | Suspended | Stopped | Thrown | Done

  datatype State = State(
    count: nat,           // number of filters
    position: int,        // currentFilterPosition
    consumerSet: bool,    // suspendConsumer != null
    entries: seq<Entry>,
    mode: Mode,
    consumed: nat,        // calls of operationConsumer.accept
    hasConsumer: bool)    // operationConsumer != null

  function Init(count: nat): State { State(count, -1, false, [], Fresh, 0, false) }

  /** processRequest first puts the operation consumer into the context. */
  function Started(count: nat): State { Init(count).(hasConsumer := true) }

  /** The filter loop from index i on, and the call of the operation consumer when it ends
      with CONTINUE_PROCESSING.  RESUME_PROCESSING falls into the default branch, which only
      logs, so the loop goes on. */
  function Loop(f: Filters, s: State, i: nat): State
    decreases s.count - i
  {
    if i >= s.count then (if s.hasConsumer then s.(mode := Done, consumed := s.consumed + 1) else s.(mode := Thrown))
    else
      var a := f(|s.entries|, i);
      var armed := s.consumerSet || a.setsConsumer;
      var t := s.(position := i, entries := s.entries + [Entry(i, a.code, None)], consumerSet := armed);
      match a.code
      case Continue => Loop(f, t, i + 1)
      case Resume => Loop(f, t, i + 1)
      case FailedStop => t.(mode := Stopped)
      case SuccessStop => t.(mode := Stopped)
      case Suspend => if armed then t.(mode := Suspended, consumerSet := false) else t.(mode := Thrown)
  }

  /** The entry of the filter called last is marked with the code; position -1 is no index. */
  function Resumed(f: Filters, s: State, code: Code): State {
    var t := s.(entries := Marked(s.entries, code), mode := Stopped);
    match code
    case Continue => Loop(f, t, if s.position < 0 then 0 else s.position + 1)
    case Resume => if s.position < 0 then t.(mode := Thrown) else Loop(f, t, s.position)
    case _ => t
  }

  function Marked(entries: seq<Entry>, code: Code): seq<Entry> {
    if entries == [] then [] else entries[|entries| - 1 := entries[|entries| - 1].(resumed := Some(code))]
  }

  /** The suspend consumers resume with the given codes, one after the other, while there is a
      suspension to resume; the state, and the codes not used. */
  function Resumes(f: Filters, s: State, codes: seq<Code>): (State, seq<Code>)
    decreases |codes|
  {
    if s.mode == Suspended && codes != [] then Resumes(f, Resumed(f, s, codes[0]), codes[1..]) else (s, codes)
  }

  class OperationProcessingContext {
    const count: nat
    var currentFilterPosition: int
    var suspendConsumer: bool
    var entries: seq<Entry>
    var mode: Mode
    var consumed: nat
    var operationConsumer: bool

    function Value(): State
      reads this
    {
      State(count, currentFilterPosition, suspendConsumer, entries, mode, consumed, operationConsumer)
    }

    constructor (count: nat)
      ensures Value() == Init(count)
    {
      this.count, currentFilterPosition, suspendConsumer := count, -1, false;
      entries, mode, consumed, operationConsumer := [], Fresh, 0, false;
    }

    /** One filter call, and the switch on its return code. */
    method CallFilter(f: Filters, i: nat) returns (goOn: bool)
      requires i < count
      modifies this
      ensures goOn ==> Loop(f, old(Value()), i) == Loop(f, Value(), i + 1)
      ensures !goOn ==> Loop(f, old(Value()), i) == Value()
    {
      var a := f(|entries|, i);
      currentFilterPosition := i;
      suspendConsumer := suspendConsumer || a.setsConsumer;
      entries := entries + [Entry(i, a.code, None)];
      match a.code {
        case Continue => goOn := true;
        case Resume => goOn := true;
        case SuccessStop =>
          mode := Stopped;
          goOn := false;
        case FailedStop =>
          mode := Stopped;
          goOn := false;
        case Suspend =>
          goOn := false;
          if !suspendConsumer {
            mode := Thrown;
          } else {
            suspendConsumer := false;
            mode := Suspended;
          }
      }
    }

    /** The filter loop up to a suspension, or the operation consumer at its end. */
    method RunFilters(f: Filters, startIndex: nat)
      modifies this
      ensures Value() == Loop(f, old(Value()), startIndex)
    {
      ghost var start := Value();
      var i := startIndex;
      while i < count
        invariant Loop(f, Value(), i) == Loop(f, start, startIndex)
        decreases count - i
      {
        var goOn := CallFilter(f, i);
        if !goOn {
          return;
        }
        i := i + 1;
      }
      if operationConsumer {
        mode := Done;
        consumed := consumed + 1;
      } else {
        mode := Thrown;
      }
    }

    /** The private processRequest, followed by what both its callers do with its result.
        `codes` are what the suspend consumers called from here resume with. */
    method ProcessFrom(f: Filters, startIndex: nat, codes: seq<Code>) returns (rest: seq<Code>)
      modifies this
      ensures (Value(), rest) == Resumes(f, Loop(f, old(Value()), startIndex), codes)
      decreases |codes|, 1
    {
      RunFilters(f, startIndex);
      rest := codes;
      if mode == Suspended {
        rest := AcceptSuspended(f, codes);
      }
    }

    /** The suspend consumer: it resumes the operation right away if there is a code to resume
        with.  What the caller does afterwards is to return. */
    method AcceptSuspended(f: Filters, codes: seq<Code>) returns (rest: seq<Code>)
      requires mode == Suspended
      modifies this
      ensures (Value(), rest) == Resumes(f, old(Value()), codes)
      decreases |codes|, 0
    {
      if codes == [] {
        return codes;
      }
      rest := ResumeProcessingRequest(f, codes[0], codes[1..]);
    }

    method ProcessRequest(f: Filters, codes: seq<Code>) returns (rest: seq<Code>)
      modifies this
      ensures (Value(), rest) == Resumes(f, Loop(f, old(Value()).(hasConsumer := true), 0), codes)
    {
      operationConsumer := true;
      rest := ProcessFrom(f, 0, codes);
    }

    /** Nothing keeps a caller from resuming twice, or before any filter was called. */
    method ResumeProcessingRequest(f: Filters, code: Code, codes: seq<Code>) returns (rest: seq<Code>)
      modifies this
      ensures (Value(), rest) == Resumes(f, Resumed(f, old(Value()), code), codes)
      decreases |codes|, 2
    {
      entries := Marked(entries, code);
      mode := Stopped;
      if code != Continue && code != Resume {
        return codes;
      }
      var next := if code == Resume then currentFilterPosition else currentFilterPosition + 1;
      if next < 0 {
        if code == Resume {
          mode := Thrown;
          return codes;
        }
        next := 0;
      }
      rest := ProcessFrom(f, next, codes);
    }
  }

  // ---------- runs ----------

  /** Each suspension is resumed at most once. */
  predicate Legal(f: Filters, s: State, codes: seq<Code>)
    decreases |codes|
  {
    codes == [] || (s.mode == Suspended && Legal(f, Resumed(f, s, codes[0]), codes[1..]))
  }

  function Exec(f: Filters, s: State, codes: seq<Code>): State
    requires Legal(f, s, codes)
    decreases |codes|
  {
    if codes == [] then s else Exec(f, Resumed(f, s, codes[0]), codes[1..])
  }

  /** Resumes made from inside the suspend consumers are a legal run like any other. */
  lemma {:induction false} ResumesAreARun(f: Filters, s: State, codes: seq<Code>)
    ensures
      var (t, rest) := Resumes(f, s, codes);
      && |rest| <= |codes| && rest == codes[|codes| - |rest|..]
      && Legal(f, s, codes[..|codes| - |rest|]) && t == Exec(f, s, codes[..|codes| - |rest|])
    decreases |codes|
  {
    if s.mode == Suspended && codes != [] {
      ResumesAreARun(f, Resumed(f, s, codes[0]), codes[1..]);
      var used := codes[..|codes| - |Resumes(f, s, codes).1|];
      assert used[1..] == codes[1..][..|used| - 1];
    } else {
      assert codes[0..] == codes;
    }
  }

  /** The filter let the operation go on to the next one. */
  predicate LetsThrough(e: Entry) {
    e.answer == Continue || e.answer == Resume || (e.answer == Suspend && e.resumed == Some(Continue))
  }

  /** The filter asked to be called again. */
  predicate Retries(e: Entry) { e.answer == Suspend && e.resumed == Some(Resume) }

  predicate Follows(e: Entry, i: nat) {
    (LetsThrough(e) && i == e.index + 1) || (Retries(e) && i == e.index)
  }

  /** Filters are entered one after the other, starting with the first: the same one again after
      a RESUME, the next one after it let the operation through. */
  ghost predicate InOrder(entries: seq<Entry>) {
    && (entries != [] ==> entries[0].index == 0)
    && (forall k :: 0 < k < |entries| ==> Follows(entries[k - 1], entries[k].index))
  }

  /** The entry ends the run: it returned, or was resumed with, a code that stops it. */
  predicate Stops(e: Entry) {
    || e.answer == FailedStop || e.answer == SuccessStop
    || (e.answer == Suspend && e.resumed.Some? && e.resumed.value != Continue && e.resumed.value != Resume)
  }

  predicate Waits(e: Entry) { e.answer == Suspend && e.resumed.None? }

  ghost predicate Inv(s: State) {
    && InOrder(s.entries)
    && (forall k :: 0 <= k < |s.entries| ==> s.entries[k].index < s.count)
    && s.hasConsumer
    && s.consumed == (if s.mode == Done then 1 else 0)
    && (s.mode == Done <==> Reaches(s.entries, s.count))
    && (s.mode == Stopped <==> s.entries != [] && Stops(s.entries[|s.entries| - 1]))
    && (s.mode == Suspended || s.mode == Thrown <==> s.entries != [] && Waits(s.entries[|s.entries| - 1]))
    && (s.mode == Suspended ==> s.position == s.entries[|s.entries| - 1].index)
    && s.mode != Fresh
  }

  /** The next filter to enter is number i. */
  ghost predicate Reaches(entries: seq<Entry>, i: nat) {
    if entries == [] then i == 0 else Follows(entries[|entries| - 1], i)
  }

  lemma OneMoreEntry(entries: seq<Entry>, e: Entry, count: nat)
    requires InOrder(entries) && Reaches(entries, e.index) && e.index < count
    requires forall k :: 0 <= k < |entries| ==> entries[k].index < count
    ensures InOrder(entries + [e]) && forall k :: 0 <= k < |entries + [e]| ==> (entries + [e])[k].index < count
  {
    var all := entries + [e];
    forall k | 0 < k < |all|
      ensures Follows(all[k - 1], all[k].index)
    {
      assert k < |entries| ==> Follows(entries[k - 1], entries[k].index);
    }
  }

  lemma {:induction false} LoopInv(f: Filters, s: State, i: nat)
    requires InOrder(s.entries) && Reaches(s.entries, i) && i <= s.count && s.consumed == 0 && s.hasConsumer
    requires forall k :: 0 <= k < |s.entries| ==> s.entries[k].index < s.count
    ensures Inv(Loop(f, s, i)) && Loop(f, s, i).count == s.count
    decreases s.count - i
  {
    if i < s.count {
      var a := f(|s.entries|, i);
      var t := s.(position := i, entries := s.entries + [Entry(i, a.code, None)],
                  consumerSet := s.consumerSet || a.setsConsumer);
      OneMoreEntry(s.entries, Entry(i, a.code, None), s.count);
      if a.code == Continue || a.code == Resume {
        LoopInv(f, t, i + 1);
      }
    }
  }

  lemma ResumedInv(f: Filters, s: State, code: Code)
    requires Inv(s) && s.mode == Suspended
    ensures Inv(Resumed(f, s, code)) && Resumed(f, s, code).count == s.count
  {
    var last := |s.entries| - 1;
    var t := s.(entries := Marked(s.entries, code), mode := Stopped);
    forall k | 0 < k < |t.entries|
      ensures Follows(t.entries[k - 1], t.entries[k].index)
    {
      assert Follows(s.entries[k - 1], s.entries[k].index);
    }
    if code == Continue {
      LoopInv(f, t, s.position + 1);
    } else if code == Resume {
      LoopInv(f, t, s.position);
    }
  }

  lemma {:induction false} RunInv(f: Filters, s: State, codes: seq<Code>)
    requires Inv(s) && Legal(f, s, codes)
    ensures Inv(Exec(f, s, codes)) && Exec(f, s, codes).count == s.count
    decreases |codes|
  {
    if codes != [] {
      ResumedInv(f, s, codes[0]);
      RunInv(f, Resumed(f, s, codes[0]), codes[1..]);
    }
  }

  /** Filter i let the operation through. */
  ghost predicate LetThrough(entries: seq<Entry>, i: nat) {
    exists k :: 0 <= k < |entries| && entries[k].index == i && LetsThrough(entries[k])
  }

  /** In an ordered run that reached filter n, each earlier filter let the operation through. */
  lemma {:induction false} AllLetThrough(entries: seq<Entry>, n: nat, i: nat)
    requires InOrder(entries) && Reaches(entries, n) && i < n
    ensures LetThrough(entries, i)
    decreases |entries|
  {
    var last := |entries| - 1;
    var e := entries[last];
    if LetsThrough(e) && e.index == i {
      assert entries[last].index == i;
    } else {
      var front := entries[..last];
      assert forall k :: 0 <= k < |front| ==> front[k] == entries[k];
      assert Reaches(front, e.index);
      AllLetThrough(front, e.index, i);
      var k :| 0 <= k < |front| && front[k].index == i && LetsThrough(front[k]);
      assert entries[k] == front[k];
    }
  }

  /** For any filters, and any suspensions each resumed at most once: filters are entered only
      at the same or the next index, and the operation consumer runs at most once and only
      after every filter let the operation through. */
  lemma ChainSafety(f: Filters, count: nat, codes: seq<Code>)
    requires Legal(f, Loop(f, Started(count), 0), codes)
    ensures
      var s := Exec(f, Loop(f, Started(count), 0), codes);
      && (forall k :: 0 < k < |s.entries| ==>
            s.entries[k].index == s.entries[k - 1].index || s.entries[k].index == s.entries[k - 1].index + 1)
      && (s.entries != [] ==> s.entries[0].index == 0)
      && s.consumed <= 1
      && (s.consumed == 1 ==> forall i :: 0 <= i < count ==> LetThrough(s.entries, i))
  {
    LoopInv(f, Started(count), 0);
    RunInv(f, Loop(f, Started(count), 0), codes);
    var s := Exec(f, Loop(f, Started(count), 0), codes);
    forall k | 0 < k < |s.entries|
      ensures s.entries[k].index == s.entries[k - 1].index || s.entries[k].index == s.entries[k - 1].index + 1
    {
      assert Follows(s.entries[k - 1], s.entries[k].index);
    }
    if s.consumed == 1 {
      forall i | 0 <= i < count
        ensures LetThrough(s.entries, i)
      {
        AllLetThrough(s.entries, count, i);
      }
    }
  }

  /** The operation consumer has run exactly when there is no filter, or the filter entered last
      is the last one and let the operation through. */
  lemma ConsumedExactly(f: Filters, count: nat, codes: seq<Code>)
    requires Legal(f, Loop(f, Started(count), 0), codes)
    ensures
      var s := Exec(f, Loop(f, Started(count), 0), codes);
      && s.consumed == (if s.mode == Done then 1 else 0)
      && (s.consumed == 1 <==>
            if s.entries == [] then count == 0
            else s.entries[|s.entries| - 1].index == count - 1 && LetsThrough(s.entries[|s.entries| - 1]))
  {
    LoopInv(f, Started(count), 0);
    RunInv(f, Loop(f, Started(count), 0), codes);
  }

  /** After an entry that lets the operation through only later filters are entered. */
  lemma {:induction false} IndexesGrow(entries: seq<Entry>, k: nat, m: nat)
    requires InOrder(entries) && k < m < |entries| && LetsThrough(entries[k])
    ensures entries[k].index < entries[m].index
    decreases m
  {
    assert Follows(entries[m - 1], entries[m].index);
    if k < m - 1 {
      IndexesGrow(entries, k, m - 1);
    }
  }

  /** Filter i passed the operation with CONTINUE_PROCESSING, returned or resumed with. */
  predicate Continues(e: Entry) { e.answer == Continue || (e.answer == Suspend && e.resumed == Some(Continue)) }

  ghost predicate Continued(entries: seq<Entry>, i: nat) {
    exists k :: 0 <= k < |entries| && entries[k].index == i && Continues(entries[k])
  }

  lemma ResumeShutsOutContinue(entries: seq<Entry>, k: nat)
    requires InOrder(entries) && k < |entries| && entries[k].answer == Resume
    ensures !Continued(entries, entries[k].index)
  {
    forall m | 0 <= m < |entries| && Continues(entries[m])
      ensures entries[m].index != entries[k].index
    {
      if k < m {
        IndexesGrow(entries, k, m);
      } else {
        IndexesGrow(entries, m, k);
      }
    }
  }

  /** In every run in which the operation consumer ran, it ran only after every filter passed the
      operation with CONTINUE_PROCESSING if and only if no filter returned RESUME_PROCESSING. */
  lemma ContinueExactly(f: Filters, count: nat, codes: seq<Code>)
    requires Legal(f, Loop(f, Started(count), 0), codes)
    requires Exec(f, Loop(f, Started(count), 0), codes).consumed == 1
    ensures
      var s := Exec(f, Loop(f, Started(count), 0), codes);
      (forall i :: 0 <= i < count ==> Continued(s.entries, i)) <==>
      (forall k :: 0 <= k < |s.entries| ==> s.entries[k].answer != Resume)
  {
    LoopInv(f, Started(count), 0);
    RunInv(f, Loop(f, Started(count), 0), codes);
    var s := Exec(f, Loop(f, Started(count), 0), codes);
    forall k | 0 <= k < |s.entries| && s.entries[k].answer == Resume
      ensures !Continued(s.entries, s.entries[k].index)
    {
      ResumeShutsOutContinue(s.entries, k);
    }
    if forall k :: 0 <= k < |s.entries| ==> s.entries[k].answer != Resume {
      forall i | 0 <= i < count
        ensures Continued(s.entries, i)
      {
        AllLetThrough(s.entries, count, i);
      }
    }
  }

  /** Progress: after a filter that let the operation through the next one is entered, if there is
      one, and a filter resumed with RESUME_PROCESSING is entered again; the run is stopped if and
      only if the filter entered last returned, or was resumed with, a stop code. */
  lemma ChainProgress(f: Filters, count: nat, codes: seq<Code>, k: nat)
    requires Legal(f, Loop(f, Started(count), 0), codes)
    requires k < |Exec(f, Loop(f, Started(count), 0), codes).entries|
    ensures
      var s := Exec(f, Loop(f, Started(count), 0), codes);
      && (LetsThrough(s.entries[k]) && s.entries[k].index + 1 < count ==>
            k + 1 < |s.entries| && s.entries[k + 1].index == s.entries[k].index + 1)
      && (Retries(s.entries[k]) ==> k + 1 < |s.entries| && s.entries[k + 1].index == s.entries[k].index)
      && (s.mode == Stopped <==> Stops(s.entries[|s.entries| - 1]))
      && (count > 0 ==> s.entries[0].index == 0)
  {
    LoopInv(f, Started(count), 0);
    RunInv(f, Loop(f, Started(count), 0), codes);
    var s := Exec(f, Loop(f, Started(count), 0), codes);
    if k + 1 < |s.entries| {
      assert Follows(s.entries[k], s.entries[k + 1].index);
    } else {
      assert s.entries[k] == s.entries[|s.entries| - 1];
    }
  }

  lemma {:induction false} LoopContinues(f: Filters, s: State, i: nat)
    requires i <= s.count && |s.entries| == i
    requires forall k, j :: f(k, j).code == Continue
    requires forall k :: 0 <= k < i ==> s.entries[k].index == k
    ensures
      var t := Loop(f, s, i);
      && t.consumed == s.consumed + (if s.hasConsumer then 1 else 0) && t.mode == (if s.hasConsumer then Done else Thrown)
      && |t.entries| == s.count && forall k :: 0 <= k < s.count ==> t.entries[k].index == k
    decreases s.count - i
  {
    if i < s.count {
      var a := f(|s.entries|, i);
      LoopContinues(f, s.(position := i, entries := s.entries + [Entry(i, a.code, None)],
                          consumerSet := s.consumerSet || a.setsConsumer), i + 1);
    }
  }

  /** Filters that all return CONTINUE_PROCESSING are entered one after the other, each once, and
      then the operation consumer runs. */
  lemma AllContinue(f: Filters, count: nat)
    requires forall k, j :: f(k, j).code == Continue
    ensures
      var s := Loop(f, Started(count), 0);
      s.consumed == 1 && |s.entries| == count && forall k :: 0 <= k < count ==> s.entries[k].index == k
  {
    LoopContinues(f, Started(count), 0);
  }

  /** A context that was never given a request: RESUME_PROCESSING finds no filter to enter again, and
      CONTINUE_PROCESSING starts with the first filter, but there is no operation consumer to
      run at the end. */
  lemma ResumedBeforeStart(f: Filters, count: nat)
    ensures Resumed(f, Init(count), Resume) == Init(count).(mode := Thrown)
    ensures
      var s := Resumed(f, Init(count), Continue);
      && s.consumed == 0 && !s.mode.Done?
      && (count > 0 ==> s.entries != [] && s.entries[0].index == 0)
      && ((forall k, j :: f(k, j).code == Continue) ==>
            s.mode == Thrown && |s.entries| == count && forall k :: 0 <= k < count ==> s.entries[k].index == k)
  {
    LoopWithoutConsumer(f, Init(count).(mode := Stopped), 0);
    if forall k, j :: f(k, j).code == Continue {
      LoopContinues(f, Init(count).(mode := Stopped), 0);
    }
  }

  lemma {:induction false} LoopWithoutConsumer(f: Filters, s: State, i: nat)
    requires !s.hasConsumer && !s.mode.Done? && i <= s.count
    ensures
      var t := Loop(f, s, i);
      && t.consumed == s.consumed && !t.mode.Done? && |t.entries| >= |s.entries| && t.entries[..|s.entries|] == s.entries
      && (i < s.count ==> |t.entries| > |s.entries| && t.entries[|s.entries|].index == i)
    decreases s.count - i
  {
    if i < s.count {
      var a := f(|s.entries|, i);
      var t := s.(position := i, entries := s.entries + [Entry(i, a.code, None)],
                  consumerSet := s.consumerSet || a.setsConsumer);
      LoopWithoutConsumer(f, t, i + 1);
      var u := Loop(f, t, i + 1);
      assert u.entries[..|s.entries|] == u.entries[..|t.entries|][..|s.entries|];
      assert u.entries[|s.entries|] == u.entries[..|t.entries|][|s.entries|];
    }
  }

  // ---------- the suspend consumer ----------

  /** A suspend consumer was set by the entry called last, or before it since the last suspension. */
  predicate Armed(f: Filters, entries: seq<Entry>) {
    entries != []
    && var k := |entries| - 1;
       f(k, entries[k].index).setsConsumer || (k > 0 && entries[k - 1].answer != Suspend && Armed(f, entries[..k]))
  }

  /** The entries are what the filters answered, and the field tells whether a consumer is set. */
  ghost predicate Recorded(f: Filters, s: State) {
    && (forall k :: 0 <= k < |s.entries| ==> s.entries[k].answer == f(k, s.entries[k].index).code)
    && (s.consumerSet <==> s.entries != [] && s.entries[|s.entries| - 1].answer != Suspend && Armed(f, s.entries))
  }

  ghost predicate EndedRight(f: Filters, s: State) {
    && (forall k :: 0 <= k < |s.entries| ==> s.entries[k].answer == f(k, s.entries[k].index).code)
    && (s.mode == Suspended ==> Recorded(f, s) && Armed(f, s.entries))
    && (s.mode == Thrown ==> !Armed(f, s.entries))
  }

  lemma ArmedSnoc(f: Filters, entries: seq<Entry>, e: Entry)
    ensures Armed(f, entries + [e]) <==>
              || f(|entries|, e.index).setsConsumer
              || (entries != [] && entries[|entries| - 1].answer != Suspend && Armed(f, entries))
  {
    assert (entries + [e])[..|entries|] == entries;
  }

  lemma AnswersSnoc(f: Filters, entries: seq<Entry>, e: Entry)
    requires forall k :: 0 <= k < |entries| ==> entries[k].answer == f(k, entries[k].index).code
    requires e.answer == f(|entries|, e.index).code
    ensures forall k :: 0 <= k < |entries + [e]| ==> (entries + [e])[k].answer == f(k, (entries + [e])[k].index).code
  {
  }

  /** One filter call is recorded, before a suspension takes the consumer out of the field. */
  lemma CallRecorded(f: Filters, s: State, e: Entry)
    requires Recorded(f, s) && e.answer == f(|s.entries|, e.index).code
    ensures
      var entries := s.entries + [e];
      && (forall k :: 0 <= k < |entries| ==> entries[k].answer == f(k, entries[k].index).code)
      && (s.consumerSet || f(|s.entries|, e.index).setsConsumer <==> Armed(f, entries))
  {
    ArmedSnoc(f, s.entries, e);
    AnswersSnoc(f, s.entries, e);
  }

  lemma {:induction false} LoopRecords(f: Filters, s: State, i: nat)
    requires Recorded(f, s) && s.hasConsumer
    ensures EndedRight(f, Loop(f, s, i))
    decreases s.count - i
  {
    if i < s.count {
      var a := f(|s.entries|, i);
      var t := s.(position := i, entries := s.entries + [Entry(i, a.code, None)],
                  consumerSet := s.consumerSet || a.setsConsumer);
      CallRecorded(f, s, Entry(i, a.code, None));
      if a.code == Continue || a.code == Resume {
        assert Recorded(f, t);
        LoopRecords(f, t, i + 1);
      }
    }
  }

  lemma {:induction false} ArmedMarked(f: Filters, a: seq<Entry>, b: seq<Entry>)
    requires |a| == |b| && forall k :: 0 <= k < |a| ==> a[k].index == b[k].index && a[k].answer == b[k].answer
    ensures Armed(f, a) == Armed(f, b)
  {
    if |a| > 1 {
      ArmedMarked(f, a[..|a| - 1], b[..|b| - 1]);
    }
  }

  lemma ResumedRecords(f: Filters, s: State, code: Code)
    requires Inv(s) && s.mode == Suspended && EndedRight(f, s)
    ensures EndedRight(f, Resumed(f, s, code))
  {
    var t := s.(entries := Marked(s.entries, code), mode := Stopped);
    ArmedMarked(f, s.entries, t.entries);
    assert Recorded(f, t);
    if code == Continue {
      LoopRecords(f, t, s.position + 1);
    } else if code == Resume {
      LoopRecords(f, t, s.position);
    }
  }

  lemma {:induction false} RunRecords(f: Filters, s: State, codes: seq<Code>)
    requires Inv(s) && EndedRight(f, s) && Legal(f, s, codes)
    ensures EndedRight(f, Exec(f, s, codes))
    decreases |codes|
  {
    if codes != [] {
      ResumedInv(f, s, codes[0]);
      ResumedRecords(f, s, codes[0]);
      RunRecords(f, Resumed(f, s, codes[0]), codes[1..]);
    }
  }

  /** A filter that suspends the operation, and was not resumed, leaves it suspended if a suspend
      consumer was set since the last suspension, and is an error otherwise. */
  lemma SuspendNeedsConsumer(f: Filters, count: nat, codes: seq<Code>)
    requires Legal(f, Loop(f, Started(count), 0), codes)
    ensures
      var s := Exec(f, Loop(f, Started(count), 0), codes);
      && (forall k :: 0 <= k < |s.entries| ==> s.entries[k].answer == f(k, s.entries[k].index).code)
      && (s.entries != [] && Waits(s.entries[|s.entries| - 1]) ==>
            s.mode == if Armed(f, s.entries) then Suspended else Thrown)
  {
    LoopInv(f, Started(count), 0);
    LoopRecords(f, Started(count), 0);
    RunInv(f, Loop(f, Started(count), 0), codes);
    RunRecords(f, Loop(f, Started(count), 0), codes);
  }

  /** The witness: one filter that returns RESUME_PROCESSING; the consumer runs, although the
      message logged for the filter says that processing stops. */
  lemma UnexpectedCodeGoesOn()
    ensures
      var s := Loop((k, i) => Answer(Resume, false), Started(1), 0);
      s.consumed == 1 && !Continued(s.entries, 0)
  {
  }

  /** Resuming one suspension twice runs the operation consumer twice. */
  lemma DoubleResumeConsumesTwice()
    ensures
      var f: Filters := (k, i) => Answer(Suspend, true);
      var s := Loop(f, Started(1), 0);
      s.mode == Suspended && Resumed(f, Resumed(f, s, Continue), Continue).consumed == 2
  {
  }
}
