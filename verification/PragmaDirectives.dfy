/**
 Pragma directives of an operation, kept in one header string (Operation).

 The methods follow the source on strings; the theorem is that the string refines a set.
 */
module PragmaDirectives {
  import opened Common
  import opened Text

  const SEPARATOR: char := ';'
  const CR_LF: string := "\r\n"

  /** String.indexOf(target, from): the least position at or after `from`, or -1. */
  function IndexOf(s: string, target: string, from: nat): (r: int)
    ensures -1 <= r
    ensures r >= 0 ==> from <= r && r + |target| <= |s| && s[r..r + |target|] == target
    decreases |s| - from
  {
    if from + |target| > |s| then -1
    else if s[from..from + |target|] == target then from
    else IndexOf(s, target, from + 1)
  }

  lemma {:induction false} IndexOfSkips(s: string, target: string, from: nat, j: nat)
    requires from <= j && j + |target| <= |s| && s[j..j + |target|] == target
    ensures 0 <= IndexOf(s, target, from) <= j
    decreases |s| - from
  {
    if s[from..from + |target|] != target {
      IndexOfSkips(s, target, from + 1, j);
    }
  }

  /** The directive occurs at `j` and the occurrence ends a segment. */
  predicate Hit(s: string, d: string, j: int) {
    0 <= j && j + |d| <= |s| && s[j..j + |d|] == d && (j + |d| == |s| || s[j + |d|] == SEPARATOR)
  }

  /** The first hit, as a value. */
  function Find(s: string, d: string, from: nat): (r: int)
    ensures -1 <= r && (r >= 0 ==> Hit(s, d, r))
    ensures r == -1 ==> forall j :: from <= j ==> !Hit(s, d, j)
    ensures r >= 0 ==> from <= r && forall j :: from <= j < r ==> !Hit(s, d, j)
    decreases |s| - from
  {
    if from + |d| > |s| then -1 else if Hit(s, d, from) then from else Find(s, d, from + 1)
  }

  ghost predicate FirstHit(s: string, d: string, r: int) {
    && (r == -1 ==> forall j :: !Hit(s, d, j))
    && (r != -1 ==> Hit(s, d, r) && forall j :: 0 <= j < r ==> !Hit(s, d, j))
  }

  /** Nothing is hit before `r`, or anywhere when `r` is -1. */
  ghost predicate ClearBefore(s: string, d: string, r: int) {
    forall j :: r == -1 || j < r ==> !Hit(s, d, j)
  }

  lemma ClearStep(s: string, d: string, from: nat)
    requires ClearBefore(s, d, from)
    ensures ClearBefore(s, d, IndexOf(s, d, from))
  {
    var i := IndexOf(s, d, from);
    forall j | i == -1 || j < i
      ensures !Hit(s, d, j)
    {
      if from <= j && Hit(s, d, j) {
        IndexOfSkips(s, d, from, j);
      }
    }
  }

  lemma NoHitAt(s: string, d: string, at: nat)
    requires ClearBefore(s, d, at) && at + |d| < |s| && s[at + |d|] != SEPARATOR
    ensures ClearBefore(s, d, at + 1)
  {
    assert !Hit(s, d, at);
  }

  lemma FirstHitIsFind(s: string, d: string, r: int)
    requires FirstHit(s, d, r)
    ensures r == Find(s, d, 0)
  {
    var f := Find(s, d, 0);
    assert f >= 0 ==> Hit(s, d, f);
    assert r != -1 ==> Hit(s, d, r) && r >= 0;
  }

  method IndexOfPragmaDirective(existing: string, directive: string) returns (r: int)
    ensures FirstHit(existing, directive, r)
    ensures r == Find(existing, directive, 0)
  {
    r := FindFirst(existing, directive);
    FirstHitIsFind(existing, directive, r);
  }

  /** The loop of indexOfPragmaDirective. */
  method FindFirst(existing: string, directive: string) returns (r: int)
    ensures FirstHit(existing, directive, r)
  {
    r := IndexOf(existing, directive, 0);
    ClearStep(existing, directive, 0);
    while r != -1
      invariant -1 <= r <= |existing|
      invariant r != -1 ==> r + |directive| <= |existing| && existing[r..r + |directive|] == directive
      invariant ClearBefore(existing, directive, r)
      decreases if r == -1 then 0 else |existing| + 1 - r
    {
      if r + |directive| == |existing| || existing[r + |directive|] == SEPARATOR {
        return;
      }
      ghost var at: nat := r;
      NoHitAt(existing, directive, at);
      r := IndexOf(existing, directive, r + 1);
      ClearStep(existing, directive, at + 1);
    }
  }

  // ---------- normalization of header values ----------

  /** removeString: the search continues where the last occurrence was cut out. */
  function RemoveString(value: string, from: nat): string
    decreases |value|, 1
  {
    CutAt(value, IndexOf(value, CR_LF, from))
  }

  function CutAt(value: string, i: int): string
    requires i == -1 || 0 <= i <= |value| - 2
    decreases |value|, 0
  {
    if i == -1 then value else RemoveString(value[..i] + value[i + 2..], i)
  }

  function Normalized(s: string): string {
    Trim(RemoveString(s, 0))
  }

  /** A directive: non-empty, no separator or line break, no white space at its ends. */
  predicate Proper(d: string) {
    d != [] && SEPARATOR !in d && '\r' !in d && '\n' !in d && d[0] > ' ' && d[|d| - 1] > ' '
  }

  lemma {:induction false} NoLineBreak(s: string, from: nat)
    requires '\r' !in s
    ensures IndexOf(s, CR_LF, from) == -1
    decreases |s| - from
  {
    if from + 2 <= |s| {
      assert s[from..from + 2][0] == s[from];
      NoLineBreak(s, from + 1);
    }
  }

  lemma NormalizedSame(s: string)
    requires '\r' !in s && (s == [] || (s[0] > ' ' && s[|s| - 1] > ' '))
    ensures Normalized(s) == s
  {
    NoLineBreak(s, 0);
    assert RemoveString(s, 0) == CutAt(s, -1);
  }

  /** The line breaks are left out, from left to right; what is left may form new ones. */
  function WithoutBreaks(s: string): string {
    if s == [] then []
    else if |s| >= 2 && s[0] == '\r' && s[1] == '\n' then WithoutBreaks(s[2..])
    else [s[0]] + WithoutBreaks(s[1..])
  }

  predicate BreakAt(s: string, j: nat) { j + 2 <= |s| && s[j] == '\r' && s[j + 1] == '\n' }

  lemma BreakIs(s: string, j: nat)
    requires j + 2 <= |s|
    ensures s[j..j + 2] == CR_LF <==> BreakAt(s, j)
  {
    assert s[j..j + 2][0] == s[j] && s[j..j + 2][1] == s[j + 1];
  }

  /** The search goes on one character further, or cuts out the line break it is at. */
  lemma RemovesHere(s: string, from: nat, t: string)
    requires from < |s| && t == s[..from] + if BreakAt(s, from) then s[from + 2..] else s[from..]
    ensures RemoveString(s, from) == if BreakAt(s, from) then RemoveString(t, from) else RemoveString(s, from + 1)
  {
    if from + 2 <= |s| {
      BreakIs(s, from);
    }
    var i := IndexOf(s, CR_LF, from);
    assert RemoveString(s, from) == CutAt(s, i);
    if !BreakAt(s, from) {
      assert i == IndexOf(s, CR_LF, from + 1);
      assert RemoveString(s, from + 1) == CutAt(s, i);
    }
  }

  lemma OneMore(s: string, from: nat, w: string)
    requires from < |s|
    ensures s[..from + 1] + w == s[..from] + ([s[from]] + w)
  {
  }

  lemma AfterCut(s: string, from: nat) returns (t: string)
    requires from + 2 <= |s|
    ensures t == s[..from] + s[from + 2..] && t[..from] == s[..from] && t[from..] == s[from..][2..] && |t| == |s| - 2
  {
    t := s[..from] + s[from + 2..];
  }

  lemma {:induction false} RemovesBreaks(s: string, from: nat)
    requires from <= |s|
    ensures RemoveString(s, from) == s[..from] + WithoutBreaks(s[from..])
    decreases |s| - from
  {
    if from == |s| {
      assert RemoveString(s, from) == CutAt(s, -1) == s;
    } else if BreakAt(s, from) {
      var t := AfterCut(s, from);
      RemovesHere(s, from, t);
      RemovesBreaks(t, from);
    } else {
      RemovesHere(s, from, s[..from] + s[from..]);
      RemovesBreaks(s, from + 1);
      OneMore(s, from, WithoutBreaks(s[from + 1..]));
      assert s[from..][1..] == s[from + 1..];
    }
  }

  /** Normalizing leaves out the line breaks, and the white space at both ends. */
  lemma NormalizedExactly(s: string)
    ensures Normalized(s) == Trim(WithoutBreaks(s))
  {
    RemovesBreaks(s, 0);
    assert s[0..] == s && s[..0] + WithoutBreaks(s) == WithoutBreaks(s);
  }

  // ---------- the header ----------

  datatype Action = Add(d: string) | Remove(d: string)

  /** The header after addPragmaDirective, given where the directive was found. */
  function Added(h: Option<string>, d: string, i: int): Option<string> {
    if h.None? then Some(Normalized(d))
    else if i != -1 then h
    else Some(Normalized(h.value + [SEPARATOR] + d))
  }

  /** The header after removePragmaDirective, given where the directive was found. */
  function Removed(h: Option<string>, d: string, i: int): Option<string>
    requires h.Some? ==> i == -1 || (0 <= i && i + |d| <= |h.value|)
  {
    if h.None? || i == -1 then h
    else if i == 0 then Some(h.value[|d|..])
    else Some(h.value[..i - 1] + h.value[i + |d|..])
  }

  function Do(h: Option<string>, a: Action): Option<string> {
    var i := if h.Some? then Find(h.value, a.d, 0) else -1;
    if a.Add? then Added(h, a.d, i) else Removed(h, a.d, i)
  }

  predicate Has(h: Option<string>, d: string) {
    h.Some? && Find(h.value, d, 0) != -1
  }

  class PragmaHeader {
    var header: Option<string>

    constructor ()
      ensures header == None
    {
      header := None;
    }

    method AddPragmaDirective(d: string)
      modifies this
      ensures header == Do(old(header), Add(d))
    {
      var directive := d;
      if header.Some? {
        var i := IndexOfPragmaDirective(header.value, directive);
        if i != -1 {
          return;
        }
        directive := header.value + [SEPARATOR] + directive;
      }
      header := Some(Normalized(directive));
    }

    method HasPragmaDirective(d: string) returns (found: bool)
      ensures found == Has(header, d)
      ensures found <==> header.Some? && exists j :: Hit(header.value, d, j)
    {
      if header.None? {
        return false;
      }
      var i := IndexOfPragmaDirective(header.value, d);
      assert i != -1 ==> Hit(header.value, d, i);
      return i != -1;
    }

    method RemovePragmaDirective(d: string)
      modifies this
      ensures header == Do(old(header), Remove(d))
    {
      if header.Some? {
        var i := IndexOfPragmaDirective(header.value, d);
        if i == -1 {
          return;
        }
        if i == 0 {
          header := Some(header.value[|d|..]);
        } else {
          header := Some(header.value[..i - 1] + header.value[i + |d|..]);
        }
      }
    }
  }

  // ---------- segments ----------

  function Join(segs: seq<string>): string
    requires segs != []
  {
    if |segs| == 1 then segs[0] else Join(segs[..|segs| - 1]) + [SEPARATOR] + segs[|segs| - 1]
  }

  function Offset(segs: seq<string>, x: nat): nat
    requires x < |segs|
  {
    if x == 0 then 0 else |Join(segs[..x])| + 1
  }

  predicate ProperSuffix(a: string, b: string) {
    |a| < |b| && b[|b| - |a|..] == a
  }

  ghost predicate Segmented(segs: seq<string>) {
    segs != [] && forall x :: 0 <= x < |segs| ==> SEPARATOR !in segs[x]
  }

  /** In the last segment an occurrence is a hit exactly when it is the whole segment. */
  lemma HitInLast(f: string, l: string, d: string, j: int)
    requires d != [] && SEPARATOR !in l && !ProperSuffix(d, l) && j > |f|
    ensures Hit(f + [SEPARATOR] + l, d, j) <==> d == l && j == |f| + 1
  {
    var s := f + [SEPARATOR] + l;
    var k := j - |f| - 1;
    assert s[|f| + 1..] == l;
    assert j <= |s| ==> s[j..] == l[k..];
    HitOnly(l, d, k);
    if j + |d| <= |s| {
      assert s[j..j + |d|] == l[k..k + |d|];
      assert j + |d| < |s| ==> s[j + |d|] == l[k + |d|];
    }
  }

  /** Before it an occurrence is a hit exactly when it is one without the last segment. */
  lemma HitBeforeLast(f: string, l: string, d: string, j: int)
    requires d != [] && SEPARATOR !in d && 0 <= j <= |f|
    ensures Hit(f + [SEPARATOR] + l, d, j) <==> Hit(f, d, j)
  {
    var s := f + [SEPARATOR] + l;
    assert s[|f|] == SEPARATOR;
    if j + |d| <= |f| {
      assert s[j..j + |d|] == f[j..j + |d|];
      assert j + |d| < |f| ==> s[j + |d|] == f[j + |d|];
    } else if j + |d| <= |s| {
      assert s[j..j + |d|][|f| - j] == SEPARATOR;
    }
  }

  lemma HitLast(f: string, l: string, d: string, j: int)
    requires d != [] && SEPARATOR !in d && SEPARATOR !in l && !ProperSuffix(d, l)
    ensures j > |f| ==> (Hit(f + [SEPARATOR] + l, d, j) <==> d == l && j == |f| + 1)
    ensures j <= |f| ==> (Hit(f + [SEPARATOR] + l, d, j) <==> Hit(f, d, j))
  {
    if j > |f| {
      HitInLast(f, l, d, j);
    } else if 0 <= j {
      HitBeforeLast(f, l, d, j);
    }
  }

  lemma HitOnly(l: string, d: string, j: int)
    requires d != [] && SEPARATOR !in l && !ProperSuffix(d, l)
    ensures Hit(l, d, j) <==> l == d && j == 0
  {
    assert forall k :: 0 <= k < |l| ==> l[k] != SEPARATOR;
    if Hit(l, d, j) {
      assert l[|l| - |d|..] == d;
    }
  }

  ghost predicate SegmentAt(segs: seq<string>, d: string, j: int) {
    exists x :: 0 <= x < |segs| && segs[x] == d && j == Offset(segs, x)
  }

  /** A segment is the last one or one of those in front. */
  lemma SegmentSplit(segs: seq<string>, d: string, j: int)
    requires |segs| > 1
    ensures
      var n := |segs| - 1;
      SegmentAt(segs, d, j) <==> SegmentAt(segs[..n], d, j) || (segs[n] == d && j == |Join(segs[..n])| + 1)
    ensures SegmentAt(segs[..|segs| - 1], d, j) ==> j <= |Join(segs[..|segs| - 1])|
  {
    var n := |segs| - 1;
    var front := segs[..n];
    OffsetsInFront(segs);
    if SegmentAt(front, d, j) {
      var x :| 0 <= x < n && front[x] == d && j == Offset(front, x);
      assert segs[x] == d && j == Offset(segs, x);
    }
    if segs[n] == d && j == |Join(front)| + 1 {
      assert j == Offset(segs, n);
    }
    if SegmentAt(segs, d, j) {
      var x :| 0 <= x < |segs| && segs[x] == d && j == Offset(segs, x);
      assert x < n ==> front[x] == d && j == Offset(front, x);
    }
  }

  lemma {:induction false} HitIffSegment(segs: seq<string>, d: string, j: int)
    requires Segmented(segs) && d != [] && SEPARATOR !in d
    requires forall x :: 0 <= x < |segs| ==> !ProperSuffix(d, segs[x])
    ensures Hit(Join(segs), d, j) <==> SegmentAt(segs, d, j)
    decreases |segs|
  {
    var n := |segs| - 1;
    var l := segs[n];
    if n == 0 {
      HitOnly(l, d, j);
      assert l == d ==> segs[0] == d && Offset(segs, 0) == 0;
    } else {
      HitIffSegment(segs[..n], d, j);
      HitLast(Join(segs[..n]), l, d, j);
      SegmentSplit(segs, d, j);
    }
  }

  lemma OffsetsInFront(segs: seq<string>)
    requires |segs| > 1
    ensures var front := segs[..|segs| - 1];
      && (forall x :: 0 <= x < |front| ==> Offset(front, x) == Offset(segs, x) <= |Join(front)|)
      && Offset(segs, |segs| - 1) == |Join(front)| + 1
  {
    var front := segs[..|segs| - 1];
    forall x | 0 <= x < |front|
      ensures Offset(front, x) == Offset(segs, x) <= |Join(front)|
    {
      assert front[..x] == segs[..x];
      if x > 0 {
        JoinSplit(front[..x], front[x..]);
        assert front[..x] + front[x..] == front;
      }
    }
  }

  lemma {:induction false} JoinSplit(a: seq<string>, b: seq<string>)
    requires a != [] && b != []
    ensures Join(a + b) == Join(a) + [SEPARATOR] + Join(b)
    decreases |b|
  {
    var n := |b| - 1;
    assert (a + b)[..|a| + n] == a + b[..n];
    if n == 0 {
      assert a + b[..n] == a;
    } else {
      JoinSplit(a, b[..n]);
    }
  }

  // ---------- the string refines a set ----------

  ghost predicate SuffixFree(vocabulary: set<string>) {
    forall a, b :: a in vocabulary && b in vocabulary ==> !ProperSuffix(a, b)
  }

  ghost predicate Vocabulary(v: set<string>) {
    forall d :: d in v ==> Proper(d)
  }

  /** The segments are distinct directives of the set, except for one empty segment that a
      removal at the front leaves behind. */
  ghost predicate Represents(v: set<string>, h: Option<string>, segs: seq<string>, ds: set<string>) {
    if h.None? then segs == [] && ds == {}
    else
      && segs != [] && h.value == Join(segs)
      && (forall x :: 0 <= x < |segs| ==> segs[x] in v || (x == 0 && segs[x] == []))
      && (forall x, y :: 0 <= x < y < |segs| ==> segs[x] != segs[y])
      && (forall d :: d in ds <==> d in segs && d != [])
  }

  /** `d` is found exactly when it is in the set, and then at the offset of its segment. */
  lemma FoundExactly(v: set<string>, h: Option<string>, segs: seq<string>, ds: set<string>, d: string)
    requires Vocabulary(v) && SuffixFree(v) && Represents(v, h, segs, ds) && d in v && h.Some?
    ensures forall j :: Hit(h.value, d, j) <==> exists x :: 0 <= x < |segs| && segs[x] == d && j == Offset(segs, x)
    ensures (exists j :: Hit(h.value, d, j)) <==> d in ds
  {
    forall x | 0 <= x < |segs|
      ensures SEPARATOR !in segs[x] && !ProperSuffix(d, segs[x])
    {
    }
    forall j
      ensures Hit(h.value, d, j) <==> exists x :: 0 <= x < |segs| && segs[x] == d && j == Offset(segs, x)
    {
      HitIffSegment(segs, d, j);
    }
    if d in ds {
      var x :| 0 <= x < |segs| && segs[x] == d;
      assert Hit(h.value, d, Offset(segs, x));
    }
  }

  lemma {:induction false} JoinEdges(v: set<string>, segs: seq<string>)
    requires Vocabulary(v) && segs != []
    requires forall x :: 0 <= x < |segs| ==> segs[x] in v || (x == 0 && segs[x] == [])
    ensures '\r' !in Join(segs)
    ensures Join(segs) != [] ==> Join(segs)[0] > ' '
    ensures |segs| > 1 || segs[0] != [] ==> Join(segs) != [] && Join(segs)[|Join(segs)| - 1] > ' '
    decreases |segs|
  {
    if |segs| > 1 {
      var n := |segs| - 1;
      JoinEdges(v, segs[..n]);
      var f := Join(segs[..n]);
      assert Join(segs) == f + [SEPARATOR] + segs[n];
      assert Join(segs)[0] == if f == [] then SEPARATOR else f[0];
      assert Join(segs)[|Join(segs)| - 1] == segs[n][|segs[n]| - 1];
    }
  }

  lemma AddRefines(v: set<string>, h: Option<string>, segs: seq<string>, ds: set<string>, d: string, i: int)
      returns (segs': seq<string>)
    requires Vocabulary(v) && SuffixFree(v) && Represents(v, h, segs, ds) && d in v
    requires h.Some? ==> FirstHit(h.value, d, i)
    ensures Represents(v, Added(h, d, i), segs', ds + {d})
  {
    if h.None? {
      segs' := [d];
      NormalizedSame(d);
      assert d in segs';
    } else {
      FoundExactly(v, h, segs, ds, d);
      if i != -1 {
        assert Hit(h.value, d, i);
        segs' := segs;
        assert ds + {d} == ds;
      } else {
        segs' := segs + [d];
        assert segs'[..|segs|] == segs;
        assert d !in segs;
        JoinEdges(v, segs');
        NormalizedSame(Join(segs'));
      }
    }
  }

  lemma RemoveFirst(segs: seq<string>)
    requires segs != []
    ensures |segs[0]| <= |Join(segs)| && Join(segs)[|segs[0]|..] == Join([[]] + segs[1..])
  {
    var d, after := segs[0], segs[1..];
    assert segs == [d] + after;
    if after != [] {
      JoinSplit([d], after);
      JoinSplit([[]], after);
    }
  }

  lemma RemoveLast(before: seq<string>, d: string)
    requires before != []
    ensures
      var s, i := Join(before + [d]), |Join(before)| + 1;
      i + |d| == |s| && s[..i - 1] + s[i + |d|..] == Join(before)
  {
    JoinSplit(before, [d]);
    var f := Join(before);
    assert (f + [SEPARATOR] + d)[..|f|] == f;
  }

  lemma RemoveMiddle(before: seq<string>, d: string, after: seq<string>)
    requires before != [] && after != []
    ensures
      var s, i := Join(before + ([d] + after)), |Join(before)| + 1;
      i + |d| <= |s| && s[..i - 1] + s[i + |d|..] == Join(before + after)
  {
    JoinSplit(before, [d] + after);
    JoinSplit([d], after);
    JoinSplit(before, after);
    Cut(Join(before), d, Join(after));
  }

  lemma Cut(f: string, d: string, t: string)
    ensures
      var s := f + [SEPARATOR] + (d + [SEPARATOR] + t);
      s[..|f|] + s[|f| + 1 + |d|..] == f + [SEPARATOR] + t
  {
  }

  lemma RemoveRefines(v: set<string>, h: Option<string>, segs: seq<string>, ds: set<string>, d: string, i: int)
      returns (segs': seq<string>)
    requires Vocabulary(v) && SuffixFree(v) && Represents(v, h, segs, ds) && d in v
    requires h.Some? ==> FirstHit(h.value, d, i)
    ensures Represents(v, Removed(h, d, i), segs', ds - {d})
  {
    segs' := segs;
    if h.Some? {
      FoundExactly(v, h, segs, ds, d);
      if i == -1 {
        assert ds - {d} == ds;
      } else {
        assert Hit(h.value, d, i);
        var x :| 0 <= x < |segs| && segs[x] == d && i == Offset(segs, x);
        segs' := Dropped(segs, x);
        RemovedString(h.value, segs, x);
        DroppedOne(segs, x);
        RemovedSet(v, segs, x, ds);
      }
    }
  }

  lemma RemovedString(value: string, segs: seq<string>, x: nat)
    requires x < |segs| && value == Join(segs) && segs[x] != []
    ensures Offset(segs, x) + |segs[x]| <= |value|
    ensures Removed(Some(value), segs[x], Offset(segs, x)) == Some(Join(Dropped(segs, x)))
  {
    if x == 0 {
      RemoveFirst(segs);
    } else {
      RemovedLater(value, segs, segs[..x], segs[x], segs[x + 1..]);
    }
  }

  lemma RemovedLater(value: string, segs: seq<string>, before: seq<string>, d: string, after: seq<string>)
    requires before != [] && segs == before + [d] + after && value == Join(segs)
    ensures
      var i := |Join(before)| + 1;
      i + |d| <= |value| && value[..i - 1] + value[i + |d|..] == Join(before + after)
  {
    if after == [] {
      assert segs == before + [d];
      assert before + after == before;
      RemoveLast(before, d);
    } else {
      assert segs == before + ([d] + after);
      RemoveMiddle(before, d, after);
    }
  }

  lemma RemovedSet(v: set<string>, segs: seq<string>, x: nat, ds: set<string>)
    requires x < |segs| && segs[x] != []
    requires forall y :: 0 <= y < |segs| ==> segs[y] in v || (y == 0 && segs[y] == [])
    requires forall d :: d in ds <==> d in segs && d != []
    requires forall e :: e != [] ==> (e in Dropped(segs, x) <==> e in segs && e != segs[x])
    ensures forall y :: 0 <= y < |Dropped(segs, x)| ==> Dropped(segs, x)[y] in v || (y == 0 && Dropped(segs, x)[y] == [])
    ensures forall d :: d in ds - {segs[x]} <==> d in Dropped(segs, x) && d != []
  {
  }

  /** The segments after removing number `x`: at the front an empty one stays. */
  function Dropped(segs: seq<string>, x: nat): seq<string>
    requires x < |segs|
  {
    if x == 0 then [[]] + segs[1..] else segs[..x] + segs[x + 1..]
  }

  lemma DroppedOne(segs: seq<string>, x: nat)
    requires x < |segs| && segs[x] != []
    requires forall y, z :: 0 <= y < z < |segs| ==> segs[y] != segs[z]
    requires forall y :: 0 < y < |segs| ==> segs[y] != []
    ensures forall e :: e != [] ==> (e in Dropped(segs, x) <==> e in segs && e != segs[x])
    ensures forall y, z :: 0 <= y < z < |Dropped(segs, x)| ==> Dropped(segs, x)[y] != Dropped(segs, x)[z]
  {
    var segs', d := Dropped(segs, x), segs[x];
    forall e | e != []
      ensures e in segs' <==> e in segs && e != d
    {
      if e in segs && e != d {
        var y :| 0 <= y < |segs| && segs[y] == e;
        assert segs'[if x > 0 && y > x then y - 1 else y] == e;
      }
      if e in segs' {
        var y :| 0 <= y < |segs'| && segs'[y] == e;
        assert segs[if x > 0 && y >= x then y + 1 else y] == e;
      }
    }
  }

  // ---------- runs ----------

  function Run(h: Option<string>, acts: seq<Action>): Option<string>
    decreases |acts|
  {
    if acts == [] then h else Run(Do(h, acts[0]), acts[1..])
  }

  function Members(ds: set<string>, acts: seq<Action>): set<string>
    decreases |acts|
  {
    if acts == [] then ds
    else Members(if acts[0].Add? then ds + {acts[0].d} else ds - {acts[0].d}, acts[1..])
  }

  predicate Over(v: set<string>, acts: seq<Action>) {
    forall k :: 0 <= k < |acts| ==> acts[k].d in v
  }

  lemma {:induction false} RunRefines(v: set<string>, h: Option<string>, segs: seq<string>, ds: set<string>, acts: seq<Action>, d: string)
    requires Vocabulary(v) && SuffixFree(v) && Represents(v, h, segs, ds) && Over(v, acts) && d in v
    ensures Has(Run(h, acts), d) <==> d in Members(ds, acts)
    decreases |acts|
  {
    if acts == [] {
      if h.Some? {
        FoundExactly(v, h, segs, ds, d);
      }
    } else {
      var a := acts[0];
      var i := if h.Some? then Find(h.value, a.d, 0) else -1;
      if a.Add? {
        var segs' := AddRefines(v, h, segs, ds, a.d, i);
        RunRefines(v, Do(h, a), segs', ds + {a.d}, acts[1..], d);
      } else {
        var segs' := RemoveRefines(v, h, segs, ds, a.d, i);
        RunRefines(v, Do(h, a), segs', ds - {a.d}, acts[1..], d);
      }
    }
  }

  /** For a vocabulary of proper directives, the header string behaves as a set of directives
      in every run of adds and removes if and only if no directive is a proper suffix of another. */
  lemma HeaderIsASet(v: set<string>)
    requires Vocabulary(v)
    ensures SuffixFree(v) <==>
              forall acts, d :: Over(v, acts) && d in v ==> (Has(Run(None, acts), d) <==> d in Members({}, acts))
  {
    if SuffixFree(v) {
      forall acts, d | Over(v, acts) && d in v
        ensures Has(Run(None, acts), d) <==> d in Members({}, acts)
      {
        RunRefines(v, None, [], {}, acts, d);
      }
    } else {
      var a, b :| a in v && b in v && ProperSuffix(a, b);
      SuffixFoolsHeader(v, a, b);
    }
  }

  /** Adding `b` alone makes any proper suffix of it appear present. */
  lemma SuffixFoolsHeader(v: set<string>, a: string, b: string)
    requires Vocabulary(v) && a in v && b in v && ProperSuffix(a, b)
    ensures Over(v, [Add(b)]) && Has(Run(None, [Add(b)]), a) && a !in Members({}, [Add(b)])
  {
    var acts := [Add(b)];
    assert acts[1..] == [];
    NormalizedSame(b);
    assert Run(None, acts) == Do(None, acts[0]) == Some(b);
    assert Hit(b, a, |b| - |a|);
    assert Members({}, acts) == {} + {b};
  }

  lemma NotASuffix(a: string, b: string)
    requires SEPARATOR !in a && !(|b| <= |a| && a[|a| - |b|..] == b)
    ensures Find(a, b, 0) == -1
  {
    assert |b| <= |a| ==> a[|a| - |b|..|a|] == a[|a| - |b|..];
  }

  /** Two directives are kept with a semicolon between them. */
  lemma TwoDirectives(a: string, b: string)
    requires Proper(a) && Proper(b) && !(|b| <= |a| && a[|a| - |b|..] == b)
    ensures Do(Do(None, Add(a)), Add(b)) == Some(a + ";" + b)
  {
    NormalizedSame(a);
    NotASuffix(a, b);
    PairNormalized(a, ";", b);
  }

  lemma PairNormalized(a: string, c: string, b: string)
    requires Proper(a) && Proper(b) && '\r' !in c
    ensures Normalized(a + c + b) == a + c + b
  {
    var h := a + c + b;
    assert h[0] == a[0] && h[|h| - 1] == b[|b| - 1];
    NormalizedSame(h);
  }
}
