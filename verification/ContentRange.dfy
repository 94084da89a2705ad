/**
 Splitting a file into chunks (FileUtils.ContentRange and putChunks).

 Offsets go through 32-bit ints in the source, so every cast and addition wraps here too.
 */
module ContentRange {

  const CHUNK_SIZE: int := 524288
  const MAX_IN_FLIGHT_CHUNKS: int := 10
  const TWO_31: int := 0x8000_0000

  /** The narrowing cast to int. */
  function ToInt(x: int): int {
    if -0x8000_0000 <= x < 0x8000_0000 then x else (x + 0x8000_0000) % 0x1_0000_0000 - 0x8000_0000
  }

  function Min(a: int, b: int): int { if a <= b then a else b }

  /** The half-open byte range start..end of a file. */
  datatype Range = Range(start: int, end: int, fileSize: int)

  function Make(start: int, end: int, fileSize: int): Range { Range(start, Min(end, fileSize), fileSize) }

  function NextChunk(r: Range): Range {
    Make(ToInt(r.end), ToInt(ToInt(r.end) + CHUNK_SIZE), ToInt(r.fileSize))
  }

  predicate IsDone(r: Range) { r.end >= r.fileSize }

  /** The range a round of putChunks starts with. */
  function RoundStart(fileLength: int, off: int): Range {
    Make(off, ToInt(off + CHUNK_SIZE), ToInt(fileLength))
  }

  /** The k-th range of an upload. */
  function Nth(fileLength: nat, k: nat): Range {
    if k == 0 then RoundStart(fileLength, 0) else NextChunk(Nth(fileLength, k - 1))
  }

  /** Range k + 1 starts where range k ends. */
  predicate Abuts(fileLength: nat, k: nat) { Nth(fileLength, k + 1).start == Nth(fileLength, k).end }

  /** The first n ranges, the last of which is the first that is done, are contiguous, none
      is longer than a chunk, and together they are the whole file. */
  ghost predicate ExactCover(fileLength: nat, n: nat) {
    && n > 0
    && IsDone(Nth(fileLength, n - 1))
    && (forall k :: 0 <= k < n - 1 ==> !IsDone(Nth(fileLength, k)))
    && Nth(fileLength, 0).start == 0
    && (forall k :: 0 <= k < n - 1 ==> Abuts(fileLength, k))
    && (forall k :: 0 <= k < n ==> 0 <= Nth(fileLength, k).end - Nth(fileLength, k).start <= CHUNK_SIZE)
    && Nth(fileLength, n - 1).end == fileLength
  }

  /** The number of chunks of a file; an empty file has one, which is empty. */
  function Count(fileLength: nat): (n: nat)
    ensures n >= 1 && fileLength <= n * 524288 && ((n - 1) * 524288 < fileLength || fileLength == 0)
  {
    if fileLength <= 524288 then 1 else 1 + Count(fileLength - 524288)
  }

  lemma {:induction false} NthIs(fileLength: nat, k: nat)
    requires k * CHUNK_SIZE <= fileLength < TWO_31 && k * CHUNK_SIZE + CHUNK_SIZE < TWO_31
    ensures Nth(fileLength, k) == Range(k * CHUNK_SIZE, Min(k * CHUNK_SIZE + CHUNK_SIZE, fileLength), fileLength)
  {
    if k > 0 {
      NthIs(fileLength, k - 1);
    }
  }

  lemma NthFits(fileLength: nat, k: nat)
    requires fileLength + CHUNK_SIZE <= TWO_31 && k < Count(fileLength)
    ensures Nth(fileLength, k) == Range(k * CHUNK_SIZE, Min(k * CHUNK_SIZE + CHUNK_SIZE, fileLength), fileLength)
    ensures IsDone(Nth(fileLength, k)) <==> k == Count(fileLength) - 1
    ensures k * CHUNK_SIZE < fileLength || fileLength == k == 0
  {
    NthIs(fileLength, k);
  }

  lemma FitsCovers(fileLength: nat)
    requires fileLength + CHUNK_SIZE <= TWO_31
    ensures ExactCover(fileLength, Count(fileLength))
  {
    var n := Count(fileLength);
    forall k | 0 <= k < n
      ensures Nth(fileLength, k) == Range(k * CHUNK_SIZE, Min(k * CHUNK_SIZE + CHUNK_SIZE, fileLength), fileLength)
      ensures IsDone(Nth(fileLength, k)) <==> k == n - 1
      ensures k * CHUNK_SIZE < fileLength || fileLength == k == 0
    {
      NthFits(fileLength, k);
    }
    forall k | 0 <= k < n - 1
      ensures Abuts(fileLength, k)
    {
      NthFits(fileLength, k);
      NthFits(fileLength, k + 1);
    }
  }

  lemma EndWithinSize(fileLength: nat, k: nat)
    ensures Nth(fileLength, k).end <= Nth(fileLength, k).fileSize == ToInt(fileLength)
  {
    if k > 0 {
      EndWithinSize(fileLength, k - 1);
    }
  }

  const LAST: nat := 4095

  lemma NotDoneBefore(fileLength: nat, k: nat)
    requires TWO_31 - CHUNK_SIZE < fileLength < TWO_31 && k < LAST
    ensures !IsDone(Nth(fileLength, k)) && Nth(fileLength, k).end == (k + 1) * CHUNK_SIZE
    ensures Nth(fileLength, k).fileSize == fileLength
  {
    NthIs(fileLength, k);
  }

  /** The chunk that would end at 2^31 ends at -2^31 instead. */
  lemma WrapsAround(fileLength: nat, last: nat)
    requires TWO_31 - CHUNK_SIZE < fileLength < TWO_31 && last == LAST
    ensures !IsDone(Nth(fileLength, last))
    ensures Nth(fileLength, last) == Range(last * CHUNK_SIZE, -TWO_31, fileLength)
  {
    NotDoneBefore(fileLength, last - 1);
    assert Nth(fileLength, last) == NextChunk(Nth(fileLength, last - 1));
  }

  lemma NeverCovers(fileLength: nat, n: nat, last: nat)
    requires fileLength + CHUNK_SIZE > TWO_31 && last == LAST
    ensures !ExactCover(fileLength, n)
  {
    if n > 0 {
      EndWithinSize(fileLength, n - 1);
      if fileLength < TWO_31 {
        WrapsAround(fileLength, last);
        if n > last {
          assert Nth(fileLength, last).end < Nth(fileLength, last).start;
        } else {
          NotDoneBefore(fileLength, n - 1);
        }
      }
    }
  }

  /** The chunks of an upload cover the file exactly if and only if the file ends at least
      one chunk below 2^31. */
  lemma CoversExactlyWhenItFits(fileLength: nat)
    ensures (exists n :: ExactCover(fileLength, n)) <==> fileLength + CHUNK_SIZE <= TWO_31
  {
    if fileLength + CHUNK_SIZE <= TWO_31 {
      FitsCovers(fileLength);
    } else {
      forall n: nat
        ensures !ExactCover(fileLength, n)
      {
        NeverCovers(fileLength, n, LAST);
      }
    }
  }

  /** Each byte of the file is in exactly one of the ranges. */
  lemma EachByteOnce(fileLength: nat, b: nat, k: nat)
    requires fileLength + CHUNK_SIZE <= TWO_31 && b < fileLength && k < Count(fileLength)
    ensures Nth(fileLength, k).start <= b < Nth(fileLength, k).end <==> k == b / CHUNK_SIZE
    ensures b / CHUNK_SIZE < Count(fileLength)
  {
    NthFits(fileLength, k);
  }

  // ---------- the loop, in rounds of ten ----------

  method PutChunks(fileLength: nat, off: int) returns (ranges: seq<Range>, done: bool, next: int)
    ensures IsRound(fileLength, off, ranges, done, next)
  {
    var range := RoundStart(fileLength, off);
    ranges, done, next := [], false, 0;
    for chunksInFlight := 0 to MAX_IN_FLIGHT_CHUNKS
      invariant |ranges| == chunksInFlight
      invariant range == if ranges == [] then RoundStart(fileLength, off) else NextChunk(ranges[|ranges| - 1])
      invariant ranges != [] ==> ranges[0] == RoundStart(fileLength, off)
      invariant forall k :: 0 < k < |ranges| ==> Consecutive(ranges, k)
      invariant forall k :: 0 <= k < |ranges| ==> !IsDone(ranges[k])
      invariant !done && (ranges != [] ==> next == range.start)
    {
      ghost var before := ranges;
      ranges := ranges + [range];
      assert forall k :: 0 < k < |before| ==> Consecutive(before, k) ==> Consecutive(ranges, k);
      done := IsDone(range);
      next := NextChunk(range).start;
      if done {
        return;
      }
      range := NextChunk(range);
    }
  }

  /** The offset a round is started with after m ranges. */
  function OffAt(fileLength: nat, m: nat): int {
    if m == 0 then 0 else NextChunk(Nth(fileLength, m - 1)).start
  }

  /** The first n ranges of an upload. */
  function First(fileLength: nat, n: nat): (ranges: seq<Range>)
    ensures |ranges| == n
    ensures forall k :: 0 <= k < n ==> ranges[k] == Nth(fileLength, k)
  {
    seq(n, k requires 0 <= k => Nth(fileLength, k))
  }

  /** A new round goes on where the previous one ended. */
  lemma RoundGoesOn(fileLength: nat, m: nat)
    ensures RoundStart(fileLength, OffAt(fileLength, m)) == Nth(fileLength, m)
  {
    if m > 0 {
      EndWithinSize(fileLength, m - 1);
      NextFrom(fileLength, Nth(fileLength, m - 1));
    }
  }

  lemma NextFrom(fileLength: nat, r: Range)
    requires r.fileSize == ToInt(fileLength)
    ensures RoundStart(fileLength, NextChunk(r).start) == NextChunk(r)
  {
  }

  lemma EndOfTens(fileLength: nat)
    requires fileLength + CHUNK_SIZE <= TWO_31 && Count(fileLength) % 10 == 0
    ensures Count(fileLength) > 0 && fileLength <= Count(fileLength) * CHUNK_SIZE && fileLength + CHUNK_SIZE < TWO_31
  {
    var n := Count(fileLength);
    assert n <= 4095;
    assert fileLength <= n * 524288;
  }

  lemma NextAtEnd(r: Range)
    requires 0 <= r.end == r.fileSize && r.end + CHUNK_SIZE < TWO_31
    ensures NextChunk(r) == Range(r.end, r.end, r.end)
  {
  }

  /** The range after the last one, which a further round would start with, holds nothing. */
  lemma AfterTheEnd(fileLength: nat)
    requires fileLength + CHUNK_SIZE <= TWO_31 && Count(fileLength) % 10 == 0
    ensures Nth(fileLength, Count(fileLength)) == Range(fileLength, fileLength, fileLength)
  {
    var last := Nth(fileLength, Count(fileLength) - 1);
    EndOfTens(fileLength);
    NthFits(fileLength, Count(fileLength) - 1);
    EndWithinSize(fileLength, Count(fileLength) - 1);
    assert last.fileSize == fileLength == last.end;
    NextAtEnd(last);
  }

  predicate Consecutive(round: seq<Range>, k: int)
    requires 0 < k < |round|
  {
    round[k] == NextChunk(round[k - 1])
  }

  /** What one pass of putChunks sends and returns. */
  ghost predicate IsRound(fileLength: nat, off: int, round: seq<Range>, done: bool, next: int) {
    && 1 <= |round| <= 10
    && round[0] == RoundStart(fileLength, off)
    && (forall k :: 0 < k < |round| ==> Consecutive(round, k))
    && (forall k :: 0 <= k < |round| - 1 ==> !IsDone(round[k]))
    && done == IsDone(round[|round| - 1])
    && (!done ==> |round| == 10)
    && next == NextChunk(round[|round| - 1]).start
  }

  /** A round that starts after m ranges adds the next ones to them. */
  ghost predicate Extends(fileLength: nat, m: nat, round: seq<Range>, done: bool, next: int) {
    && First(fileLength, m) + round == First(fileLength, m + |round|)
    && (done <==> m + |round| >= Count(fileLength))
    && next == OffAt(fileLength, m + |round|)
  }

  /** The ranges of a round inside the file. */
  lemma RoundRanges(fileLength: nat, m: nat, round: seq<Range>, done: bool, next: int)
    requires fileLength + CHUNK_SIZE <= TWO_31 && m < Count(fileLength)
    requires IsRound(fileLength, OffAt(fileLength, m), round, done, next)
    ensures m + |round| <= Count(fileLength)
    ensures forall k :: 0 <= k < |round| ==> round[k] == Nth(fileLength, m + k)
  {
    RoundGoesOn(fileLength, m);
    RoundIs(fileLength, round, m);
  }

  lemma RoundSize(n: nat, m: nat, size: nat, done: bool)
    requires 1 <= size <= 10 && m + size <= n && (done <==> m + size == n) && (!done ==> size == 10)
    ensures size == Min(10, n - m) && (done <==> m + size >= n)
  {
  }

  lemma RoundExtends(fileLength: nat, m: nat, round: seq<Range>, done: bool, next: int)
    requires fileLength + CHUNK_SIZE <= TWO_31 && round != [] && m + |round| <= Count(fileLength)
    requires forall k :: 0 <= k < |round| ==> round[k] == Nth(fileLength, m + k)
    requires done == IsDone(round[|round| - 1]) && next == NextChunk(round[|round| - 1]).start
    ensures First(fileLength, m) + round == First(fileLength, m + |round|)
    ensures (done <==> m + |round| == Count(fileLength)) && next == OffAt(fileLength, m + |round|)
  {
    FirstGrows(fileLength, round, m);
    RoundDone(fileLength, round, m);
  }

  lemma RoundInside(fileLength: nat, m: nat, round: seq<Range>, done: bool, next: int)
    requires fileLength + CHUNK_SIZE <= TWO_31 && m < Count(fileLength)
    requires IsRound(fileLength, OffAt(fileLength, m), round, done, next)
    ensures Extends(fileLength, m, round, done, next)
  {
    RoundRanges(fileLength, m, round, done, next);
    RoundExtends(fileLength, m, round, done, next);
  }

  lemma RoundInsideSize(fileLength: nat, m: nat, round: seq<Range>, done: bool, next: int)
    requires fileLength + CHUNK_SIZE <= TWO_31 && m < Count(fileLength)
    requires IsRound(fileLength, OffAt(fileLength, m), round, done, next)
    ensures |round| == Min(10, Count(fileLength) - m)
  {
    RoundRanges(fileLength, m, round, done, next);
    RoundDone(fileLength, round, m);
    RoundSize(Count(fileLength), m, |round|, done);
  }

  lemma RoundAfterEnd(fileLength: nat, round: seq<Range>, done: bool, next: int)
    requires fileLength + CHUNK_SIZE <= TWO_31 && Count(fileLength) % 10 == 0
    requires IsRound(fileLength, OffAt(fileLength, Count(fileLength)), round, done, next)
    ensures |round| == 1 && Extends(fileLength, Count(fileLength), round, done, next)
  {
    var n := Count(fileLength);
    RoundGoesOn(fileLength, n);
    AfterTheEnd(fileLength);
    assert IsDone(round[0]);
    assert forall k :: 0 <= k < |round| ==> k == 0 && round[k] == Nth(fileLength, n + k);
    FirstGrows(fileLength, round, n);
  }

  /** One round: ten ranges, fewer when the file ends, or the empty one after its end. */
  method PutRound(fileLength: nat, off: int, ghost m: nat) returns (round: seq<Range>, done: bool, next: int)
    requires fileLength + CHUNK_SIZE <= TWO_31 && off == OffAt(fileLength, m)
    requires m < Count(fileLength) || (m == Count(fileLength) && m % 10 == 0)
    ensures |round| == if m == Count(fileLength) then 1 else Min(10, Count(fileLength) - m)
    ensures Extends(fileLength, m, round, done, next)
  {
    round, done, next := PutChunks(fileLength, off);
    if m == Count(fileLength) {
      RoundAfterEnd(fileLength, round, done, next);
    } else {
      RoundInside(fileLength, m, round, done, next);
      RoundInsideSize(fileLength, m, round, done, next);
    }
  }

  lemma Glue(a: seq<Range>, b: seq<Range>, all: seq<Range>)
    requires |all| == |a| + |b|
    requires forall k :: 0 <= k < |a| ==> a[k] == all[k]
    requires forall k :: 0 <= k < |b| ==> b[k] == all[|a| + k]
    ensures a + b == all
  {
  }

  lemma FirstGrows(fileLength: nat, round: seq<Range>, m: nat)
    requires forall k :: 0 <= k < |round| ==> round[k] == Nth(fileLength, m + k)
    ensures First(fileLength, m) + round == First(fileLength, m + |round|)
  {
    var all := First(fileLength, m + |round|);
    forall k | 0 <= k < |round|
      ensures round[k] == all[m + k]
    {
    }
    Glue(First(fileLength, m), round, all);
  }

  lemma RoundDone(fileLength: nat, round: seq<Range>, m: nat)
    requires fileLength + CHUNK_SIZE <= TWO_31 && round != [] && m + |round| <= Count(fileLength)
    requires forall k :: 0 <= k < |round| ==> round[k] == Nth(fileLength, m + k)
    ensures IsDone(round[|round| - 1]) <==> m + |round| == Count(fileLength)
    ensures NextChunk(round[|round| - 1]).start == OffAt(fileLength, m + |round|)
  {
    var last := |round| - 1;
    assert round[last] == Nth(fileLength, m + last);
    NthFits(fileLength, m + last);
  }

  /** How many ranges an upload of n chunks sends: one more when the last chunk is the tenth of its
      round and does not complete last. */
  function Sent(n: nat, lastToComplete: nat -> bool): nat
    requires n > 0
  {
    if n % 10 == 0 && !lastToComplete(n / 10 - 1) then n + 1 else n
  }

  lemma SentAfterRounds(n: nat, lastToComplete: nat -> bool, r: nat)
    requires 10 * r <= n && n > 0
    ensures 10 * r == n ==> r > 0 && Sent(n, lastToComplete) == if lastToComplete(r - 1) then n else n + 1
    ensures 10 * r < n < 10 * r + 10 ==> Sent(n, lastToComplete) == n
  {
  }

  /** The rounds of an upload.  When the tenth chunk of round r completes, another round is
      started unless the file is done and nothing else is in flight; `lastToComplete(r)` says
      whether nothing else is. */
  method PutFile(fileLength: nat, lastToComplete: nat -> bool) returns (ranges: seq<Range>)
    requires fileLength + CHUNK_SIZE <= TWO_31
    ensures ranges == First(fileLength, |ranges|) && |ranges| == Sent(Count(fileLength), lastToComplete)
    ensures ExactCover(fileLength, Count(fileLength))
    ensures |ranges| > Count(fileLength) ==> ranges[Count(fileLength)] == Range(fileLength, fileLength, fileLength)
  {
    ranges := PutRounds(fileLength, lastToComplete);
    FitsCovers(fileLength);
    if |ranges| > Count(fileLength) {
      AfterTheEnd(fileLength);
    }
  }

  method PutRounds(fileLength: nat, lastToComplete: nat -> bool) returns (ranges: seq<Range>)
    requires fileLength + CHUNK_SIZE <= TWO_31
    ensures ranges == First(fileLength, |ranges|) && |ranges| == Sent(Count(fileLength), lastToComplete)
  {
    ghost var n := Count(fileLength);
    var done, off, round, r := false, 0, [], 0;
    ranges := [];
    while true
      invariant |ranges| == 10 * r <= n
      invariant ranges == First(fileLength, |ranges|)
      invariant off == OffAt(fileLength, |ranges|)
      invariant |ranges| == n ==> r > 0 && !lastToComplete(r - 1)
      decreases n + 1 - |ranges|
    {
      SentAfterRounds(n, lastToComplete, r);
      round, done, off := PutRound(fileLength, off, |ranges|);
      ranges := ranges + round;
      if |round| < MAX_IN_FLIGHT_CHUNKS {
        return;
      }
      SentAfterRounds(n, lastToComplete, r + 1);
      if done && lastToComplete(r) {
        return;
      }
      r := r + 1;
    }
  }

  /** The ranges of a round are the next ranges of the upload, and do not go past its end. */
  lemma RoundIs(fileLength: nat, round: seq<Range>, m: nat)
    requires fileLength + CHUNK_SIZE <= TWO_31 && m < Count(fileLength)
    requires round != [] && round[0] == Nth(fileLength, m)
    requires forall k :: 0 < k < |round| ==> Consecutive(round, k)
    requires forall k :: 0 <= k < |round| - 1 ==> !IsDone(round[k])
    ensures m + |round| <= Count(fileLength)
    ensures forall k :: 0 <= k < |round| ==> round[k] == Nth(fileLength, m + k)
    decreases |round|
  {
    if |round| > 1 {
      NthFits(fileLength, m);
      assert Consecutive(round, 1);
      assert round[1] == Nth(fileLength, m + 1);
      var rest := round[1..];
      forall k | 0 < k < |rest|
        ensures Consecutive(rest, k)
      {
        assert Consecutive(round, k + 1);
      }
      RoundIs(fileLength, rest, m + 1);
      forall k | 0 <= k < |round|
        ensures round[k] == Nth(fileLength, m + k)
      {
        assert k > 0 ==> round[k] == rest[k - 1];
      }
    }
  }
}
