/** The string operations of java.lang.String that the models share. */
module Text {

  function TrimLeft(s: string): string {
    if s != [] && s[0] <= ' ' then TrimLeft(s[1..]) else s
  }

  function TrimRight(s: string): string {
    if s != [] && s[|s| - 1] <= ' ' then TrimRight(s[..|s| - 1]) else s
  }

  function Trim(s: string): string { TrimRight(TrimLeft(s)) }

  /** What is left when the white space at both ends is taken away. */
  lemma {:induction false} TrimExactly(s: string, a: nat, b: nat)
    requires a <= b <= |s| && (a < b ==> s[a] > ' ' && s[b - 1] > ' ')
    requires forall i :: 0 <= i < a || b <= i < |s| ==> s[i] <= ' '
    ensures Trim(s) == s[a..b]
  {
    if a < b {
      TrimLeftIs(s, a);
      TrimRightIs(s[a..], b - a);
      assert s[a..][..b - a] == s[a..b];
    } else {
      TrimLeftIs(s, |s|);
    }
  }

  lemma {:induction false} TrimLeftIs(s: string, a: nat)
    requires a <= |s| && (a < |s| ==> s[a] > ' ') && forall i :: 0 <= i < a ==> s[i] <= ' '
    ensures TrimLeft(s) == s[a..]
  {
    if a > 0 {
      TrimLeftIs(s[1..], a - 1);
    }
  }

  lemma {:induction false} TrimRightIs(s: string, b: nat)
    requires b <= |s| && (b > 0 ==> s[b - 1] > ' ') && forall i :: b <= i < |s| ==> s[i] <= ' '
    ensures TrimRight(s) == s[..b]
    decreases |s|
  {
    if b < |s| {
      TrimRightIs(s[..|s| - 1], b);
      assert s[..|s| - 1][..b] == s[..b];
    }
  }

  /** s.replace(c, "") */
  function Without(s: string, c: char): string {
    if s == [] then [] else (if s[0] == c then [] else [s[0]]) + Without(s[1..], c)
  }

  /** The non-empty parts of s between separators. */
  function Parts(s: string, separator: char): seq<string> {
    PartsFrom(s, separator, "")
  }

  function PartsFrom(s: string, separator: char, current: string): seq<string>
    decreases |s|
  {
    var done := if current == [] then [] else [current];
    if s == [] then done
    else if s[0] == separator then done + PartsFrom(s[1..], separator, "")
    else PartsFrom(s[1..], separator, current + [s[0]])
  }

  /** The segments with a separator between each two. */
  function Joined(segments: seq<string>, separator: char): string {
    if segments == [] then []
    else if |segments| == 1 then segments[0]
    else segments[0] + [separator] + Joined(segments[1..], separator)
  }

  function NonEmpty(segments: seq<string>): seq<string> {
    if segments == [] then [] else (if segments[0] == [] then [] else [segments[0]]) + NonEmpty(segments[1..])
  }

  /** Whatever the segments are, as long as the separator is in none of them, the parts of the
      joined string are those of them that are not empty. */
  lemma {:induction false} PartsExactly(segments: seq<string>, separator: char)
    requires forall x :: x in segments ==> separator !in x
    ensures Parts(Joined(segments, separator), separator) == NonEmpty(segments)
    decreases |segments|
  {
    if segments != [] {
      var first, rest := segments[0], segments[1..];
      if rest == [] {
        assert segments == [first] && first + "" == first && "" + first == first;
        assert NonEmpty(rest) == [];
        PartsOfSegment(first, "", separator, "");
      } else {
        var tail := Joined(rest, separator);
        assert first + [separator] + tail == first + ([separator] + tail);
        PartsOfSegment(first, [separator] + tail, separator, "");
        assert "" + first == first && ([separator] + tail)[0] == separator && ([separator] + tail)[1..] == tail;
        PartsExactly(rest, separator);
      }
    }
  }

  lemma {:induction false} PartsOfSegment(segment: string, tail: string, separator: char, current: string)
    requires separator !in segment
    ensures PartsFrom(segment + tail, separator, current) == PartsFrom(tail, separator, current + segment)
    decreases |segment|
  {
    if segment == [] {
      assert segment + tail == tail && current + segment == current;
    } else {
      assert (segment + tail)[1..] == segment[1..] + tail;
      PartsOfSegment(segment[1..], tail, separator, current + [segment[0]]);
      assert current + [segment[0]] + segment[1..] == current + segment;
    }
  }
}
