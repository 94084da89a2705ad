/**
 The upload of a file as its callbacks run (FileUtils.putChunks): chunks are sent in rounds, the
 completion of the tenth chunk of a round starts the next round, and the completions come in any
 order, also between two sends.
 */
module ChunkUpload {
  import opened Common
  import opened ContentRange

  datatype State = State(
    range: Range,           // the range of the loop
    inRound: nat,           // chunksInFlight, the loop's counter
    open: bool,             // the loop is running
    restart: Option<nat>,   // the chunk whose completion is about to start a round
    sent: seq<Range>,
    inFlight: set<nat>,     // chunks sent and not completed, by their number
    starters: set<nat>,     // chunks sent with startNextChunk
    pending: int,           // completionCount
    done: bool,             // fileIsDone[0]
    log: seq<nat>,          // completions, in order
    completes: nat,         // calls of put.complete(), each after the channel was closed
    failed: nat)            // reads on the closed channel

  datatype Action = Issue | Complete(k: nat) | Restart

  function Init(fileLength: nat): State {
    State(RoundStart(fileLength, 0), 0, true, None, [], {}, {}, 0, false, [], 0, 0)
  }

  predicate Enabled(s: State, a: Action) {
    match a
    case Issue => s.open
    case Complete(k) => k in s.inFlight
    case Restart => s.restart.Some? && s.restart.value < |s.sent|
  }

  /** Once the upload was completed the channel is closed: a chunk that is still issued is counted,
      but its read fails and nothing is sent. */
  function Step(fileLength: nat, s: State, a: Action): State
    requires Enabled(s, a)
  {
    match a
    case Issue =>
      var k, last := |s.sent|, IsDone(s.range);
      var t := s.(pending := s.pending + 1, done := last, range := NextChunk(s.range), inRound := s.inRound + 1,
                  open := !last && s.inRound + 1 < MAX_IN_FLIGHT_CHUNKS);
      if s.completes > 0 then t.(failed := s.failed + 1)
      else t.(sent := s.sent + [s.range], inFlight := s.inFlight + {k},
              starters := if s.inRound == MAX_IN_FLIGHT_CHUNKS - 1 then s.starters + {k} else s.starters)
    case Complete(k) =>
      var t := s.(inFlight := s.inFlight - {k}, pending := s.pending - 1, log := s.log + [k]);
      if t.pending == 0 && t.done then t.(completes := t.completes + 1)
      else if k in t.starters then t.(restart := Some(k))
      else t
    case Restart =>
      s.(restart := None, open := true, inRound := 0,
         range := RoundStart(fileLength, NextChunk(s.sent[s.restart.value]).start))
  }

  predicate Legal(fileLength: nat, s: State, run: seq<Action>)
    decreases |run|
  {
    run == [] || (Enabled(s, run[0]) && Legal(fileLength, Step(fileLength, s, run[0]), run[1..]))
  }

  function Exec(fileLength: nat, s: State, run: seq<Action>): State
    requires Legal(fileLength, s, run)
    decreases |run|
  {
    if run == [] then s else Exec(fileLength, Step(fileLength, s, run[0]), run[1..])
  }

  // ---------- the invariant ----------

  /** Of the n chunks of the file the last one completed before another. */
  predicate Overtook(log: seq<nat>, n: nat) {
    exists x :: 0 <= x < |log| && log[x] == n - 1 && x < n - 1
  }

  ghost predicate Counted(s: State) {
    && s.pending == |s.inFlight| + s.failed
    && |s.log| + |s.inFlight| == |s.sent|
    && (forall k :: k in s.inFlight ==> k < |s.sent| && k !in s.log)
    && (forall k :: k in s.log || k in s.starters ==> k < |s.sent|)
    && (forall k :: k in s.inFlight ==> (k in s.starters <==> k % 10 == 9))
    && (forall k :: k in s.inFlight && k % 10 == 9 ==> !s.open && s.restart.None? && k == |s.sent| - 1)
  }

  /** A range after m others is, or was, to be sent. */
  ghost predicate Due(m: nat, n: nat, log: seq<nat>) {
    m < n || (m == n && n % 10 == 0 && Overtook(log, n))
  }

  /** How many chunks were issued, those with a failed read included. */
  function Issued(s: State): nat { |s.sent| + s.failed }

  ghost predicate Rounds(fileLength: nat, s: State) {
    var n, m := Count(fileLength), Issued(s);
    && s.sent == First(fileLength, |s.sent|) && m <= n + 1
    && (s.failed > 0 ==> m == n + 1 && s.failed == 1)
    && (s.open ==> s.restart.None? && s.range == Nth(fileLength, m) && s.inRound == m % 10 && Due(m, n, s.log))
    && (s.restart.Some? ==> !s.open && m > 0 && s.restart.value == m - 1 && m % 10 == 0 && Due(m, n, s.log))
    && (!s.open && s.restart.None? && m < n ==> m % 10 == 0 && m - 1 in s.inFlight)
    && (m == n + 1 ==> n % 10 == 0 && Overtook(s.log, n) && !s.open && s.restart.None?)
    && (n % 10 == 0 && Overtook(s.log, n) ==> m == n + 1 || (m == n && (s.open || s.restart.Some?)))
  }

  ghost predicate Ending(n: nat, s: State) {
    && (s.done <==> Issued(s) >= n)
    && (Issued(s) < n ==> s.completes == 0)
    && (Issued(s) >= n ==> s.completes == if s.inFlight == {} then 1 else 0)
    && (s.failed > 0 ==> s.inFlight == {})
  }

  ghost predicate Inv(fileLength: nat, s: State) {
    Counted(s) && Rounds(fileLength, s) && Ending(Count(fileLength), s)
  }

  predicate Fits(fileLength: nat) { fileLength + CHUNK_SIZE <= TWO_31 }

  lemma InitInv(fileLength: nat)
    requires Fits(fileLength)
    ensures Inv(fileLength, Init(fileLength))
  {
  }

  lemma OvertookSnoc(log: seq<nat>, k: nat, n: nat)
    ensures Overtook(log + [k], n) <==> Overtook(log, n) || (k == n - 1 && |log| < n - 1)
  {
    var all := log + [k];
    if Overtook(log, n) {
      var x :| 0 <= x < |log| && log[x] == n - 1 && x < n - 1;
      assert all[x] == n - 1;
    }
    if k == n - 1 && |log| < n - 1 {
      assert all[|log|] == n - 1;
    }
  }

  lemma FirstNext(fileLength: nat, m: nat)
    ensures First(fileLength, m) + [Nth(fileLength, m)] == First(fileLength, m + 1)
  {
  }

  /** Which range is the last one. */
  lemma DoneAt(fileLength: nat, m: nat)
    requires Fits(fileLength) && (m < Count(fileLength) || (m == Count(fileLength) && m % 10 == 0))
    ensures IsDone(Nth(fileLength, m)) <==> m >= Count(fileLength) - 1
  {
    if m < Count(fileLength) {
      NthFits(fileLength, m);
    } else {
      AfterTheEnd(fileLength);
    }
  }

  lemma IssueCounted(fileLength: nat, s: State)
    requires Counted(s) && Rounds(fileLength, s) && s.open
    ensures Counted(Step(fileLength, s, Issue))
  {
    var k := |s.sent|;
    assert k !in s.inFlight && k !in s.log && k !in s.starters;
    if s.completes == 0 {
      assert |s.inFlight + {k}| == |s.inFlight| + 1;
    }
  }

  /** The loop's counter goes on within a round. */
  lemma NextInRound(m: nat)
    ensures m % 10 < 9 ==> (m + 1) % 10 == m % 10 + 1
    ensures m % 10 == 9 ==> (m + 1) % 10 == 0
    ensures 0 <= m % 10 <= 9
  {
  }

  /** A chunk of the file. */
  lemma IssueInside(fileLength: nat, s: State)
    requires Fits(fileLength) && Inv(fileLength, s) && s.open && |s.sent| < Count(fileLength) && s.failed == 0
    ensures Rounds(fileLength, Step(fileLength, s, Issue))
  {
    FirstNext(fileLength, |s.sent|);
    DoneAt(fileLength, |s.sent|);
    NextInRound(|s.sent|);
  }

  /** The chunk after the end. */
  lemma IssueAfterEnd(fileLength: nat, s: State)
    requires Fits(fileLength) && Inv(fileLength, s) && s.open && |s.sent| == Count(fileLength) && s.failed == 0
    ensures Rounds(fileLength, Step(fileLength, s, Issue))
  {
    FirstNext(fileLength, |s.sent|);
    DoneAt(fileLength, |s.sent|);
  }

  lemma IssueRounds(fileLength: nat, s: State)
    requires Fits(fileLength) && Inv(fileLength, s) && s.open
    ensures Rounds(fileLength, Step(fileLength, s, Issue))
  {
    if |s.sent| < Count(fileLength) {
      IssueInside(fileLength, s);
    } else {
      IssueAfterEnd(fileLength, s);
    }
  }

  lemma CompleteCounted(fileLength: nat, s: State, k: nat)
    requires Counted(s) && k in s.inFlight
    ensures Counted(Step(fileLength, s, Complete(k)))
  {
    assert |s.inFlight - {k}| == |s.inFlight| - 1;
  }

  lemma CompleteRounds(fileLength: nat, s: State, k: nat)
    requires Inv(fileLength, s) && k in s.inFlight
    ensures Rounds(fileLength, Step(fileLength, s, Complete(k)))
  {
    OvertookSnoc(s.log, k, Count(fileLength));
  }

  lemma RestartRounds(fileLength: nat, s: State)
    requires Rounds(fileLength, s) && Enabled(s, Restart)
    ensures Rounds(fileLength, Step(fileLength, s, Restart))
  {
    RoundGoesOn(fileLength, |s.sent|);
  }

  lemma StepEnding(fileLength: nat, s: State, a: Action)
    requires Fits(fileLength) && Inv(fileLength, s) && Enabled(s, a)
    ensures Ending(Count(fileLength), Step(fileLength, s, a))
  {
    if a.Issue? {
      DoneAt(fileLength, |s.sent|);
      assert |s.sent| in s.inFlight + {|s.sent|};
    } else if a.Complete? {
      var rest := s.inFlight - {a.k};
      assert |rest| == |s.inFlight| - 1;
      assert rest == {} <==> |rest| == 0;
    }
  }

  lemma StepInv(fileLength: nat, s: State, a: Action)
    requires Fits(fileLength) && Inv(fileLength, s) && Enabled(s, a)
    ensures Inv(fileLength, Step(fileLength, s, a))
  {
    StepEnding(fileLength, s, a);
    match a
    case Issue =>
      IssueCounted(fileLength, s);
      IssueRounds(fileLength, s);
    case Complete(k) =>
      CompleteCounted(fileLength, s, k);
      CompleteRounds(fileLength, s, k);
    case Restart => RestartRounds(fileLength, s);
  }

  lemma {:induction false} RunInv(fileLength: nat, s: State, run: seq<Action>)
    requires Fits(fileLength) && Inv(fileLength, s) && Legal(fileLength, s, run)
    ensures Inv(fileLength, Exec(fileLength, s, run))
    decreases |run|
  {
    if run != [] {
      StepInv(fileLength, s, run[0]);
      RunInv(fileLength, Step(fileLength, s, run[0]), run[1..]);
    }
  }

  ghost predicate Quiescent(s: State) { forall a :: !Enabled(s, a) }

  /** In every order of completions the ranges sent are, in this order, those that cover the file,
      and one more, an empty one at its end, at most. */
  lemma RangesSent(fileLength: nat, run: seq<Action>)
    requires Fits(fileLength) && Legal(fileLength, Init(fileLength), run)
    ensures
      var s := Exec(fileLength, Init(fileLength), run);
      && s.sent == First(fileLength, |s.sent|)
      && |s.sent| <= Count(fileLength) + 1
      && ExactCover(fileLength, Count(fileLength))
      && (|s.sent| == Count(fileLength) + 1 ==> s.sent[Count(fileLength)] == Range(fileLength, fileLength, fileLength))
  {
    InitInv(fileLength);
    RunInv(fileLength, Init(fileLength), run);
    FitsCovers(fileLength);
    if |Exec(fileLength, Init(fileLength), run).sent| == Count(fileLength) + 1 {
      AfterTheEnd(fileLength);
    }
  }

  /** When nothing is left to do the whole file was sent and the upload was completed exactly once;
      one more, empty chunk was issued if and only if the number of chunks is a multiple of ten
      and the last chunk completed before another: it was sent, or its read failed when the
      upload was completed before. */
  lemma ExtraRangeExactly(fileLength: nat, run: seq<Action>)
    requires Fits(fileLength) && Legal(fileLength, Init(fileLength), run)
    requires Quiescent(Exec(fileLength, Init(fileLength), run))
    ensures
      var s, n := Exec(fileLength, Init(fileLength), run), Count(fileLength);
      && |s.sent| + s.failed == n + (if n % 10 == 0 && Overtook(s.log, n) then 1 else 0)
      && n <= |s.sent| == |s.log|
      && s.completes == 1
  {
    InitInv(fileLength);
    RunInv(fileLength, Init(fileLength), run);
    var s := Exec(fileLength, Init(fileLength), run);
    assert !Enabled(s, Issue) && !Enabled(s, Restart);
    assert forall k: nat :: k in s.inFlight ==> Enabled(s, Complete(k));
    assert s.inFlight == {};
  }
}
