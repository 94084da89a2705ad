/** The order of String.compareTo, as used by the sorted maps of the source. */
module StringOrder {

  predicate Less(a: string, b: string) {
    |b| > 0 && (|a| == 0 || a[0] < b[0] || (a[0] == b[0] && Less(a[1..], b[1..])))
  }

  /** The strings agree up to n, where the first ends or has the smaller character. */
  predicate Parts(a: string, b: string, n: int) {
    && 0 <= n <= |a| && n < |b| && a[..n] == b[..n]
    && (n < |a| ==> a[n] < b[n])
  }

  /** A string is less than another exactly when it is a proper prefix of it or has the smaller
      character where they differ first. */
  lemma {:induction false} LessExactly(a: string, b: string)
    ensures Less(a, b) <==> exists n :: Parts(a, b, n)
  {
    if |b| > 0 && (|a| == 0 || a[0] < b[0]) {
      assert Parts(a, b, 0);
    } else if |a| > 0 && |b| > 0 && a[0] == b[0] {
      LessExactly(a[1..], b[1..]);
      if Less(a[1..], b[1..]) {
        var n :| Parts(a[1..], b[1..], n);
        assert a[..n + 1] == [a[0]] + a[1..][..n] && b[..n + 1] == [b[0]] + b[1..][..n];
        assert Parts(a, b, n + 1);
      }
      if n :| Parts(a, b, n) {
        assert n > 0;
        assert a[1..][..n - 1] == a[..n][1..] && b[1..][..n - 1] == b[..n][1..];
        assert Parts(a[1..], b[1..], n - 1);
      }
    } else {
      forall n
        ensures !Parts(a, b, n)
      {
        if 0 < n <= |a| && n < |b| {
          assert a[..n][0] == a[0] && b[..n][0] == b[0];
        }
      }
    }
  }

  lemma {:induction false} LessIrreflexive(a: string)
    ensures !Less(a, a)
  {
    if a != [] {
      LessIrreflexive(a[1..]);
    }
  }

  lemma {:induction false} LessTransitive(a: string, b: string, c: string)
    requires Less(a, b) && Less(b, c)
    ensures Less(a, c)
  {
    if |a| > 0 && a[0] == b[0] == c[0] {
      LessTransitive(a[1..], b[1..], c[1..]);
    }
  }

  lemma {:induction false} LessTotal(a: string, b: string)
    ensures a == b || Less(a, b) || Less(b, a)
  {
    if |a| > 0 && |b| > 0 && a[0] == b[0] {
      LessTotal(a[1..], b[1..]);
      if a[1..] == b[1..] {
        assert a == [a[0]] + a[1..] && b == [b[0]] + b[1..];
      }
    }
  }

  /** The three laws for the keys a proof talks about. */
  lemma Ordered(a: string, b: string, c: string)
    ensures !Less(a, a)
    ensures a == b || Less(a, b) || Less(b, a)
    ensures !(Less(a, b) && Less(b, a))
    ensures Less(a, b) && Less(b, c) ==> Less(a, c)
  {
    LessIrreflexive(a);
    LessTotal(a, b);
    if Less(a, b) {
      if Less(b, a) {
        LessTransitive(a, b, a);
      }
      if Less(b, c) {
        LessTransitive(a, b, c);
      }
    }
  }

  predicate IsLeast(k: string, keys: set<string>) {
    k in keys && forall x :: x in keys && x != k ==> Less(k, x)
  }

  lemma {:induction false} LeastExists(keys: set<string>) returns (k: string)
    requires keys != {}
    ensures IsLeast(k, keys)
  {
    k :| k in keys;
    var rest := keys - {k};
    assert forall x :: x in keys <==> x == k || x in rest;
    if rest != {} {
      var m := LeastExists(rest);
      forall x | x in keys
        ensures (x != k && Less(k, m) ==> Less(k, x)) && (x != m && !Less(k, m) ==> Less(m, x))
      {
        Ordered(k, m, x);
        Ordered(m, k, x);
      }
      k := if Less(k, m) then k else m;
    }
  }

  /** firstKey of a non-empty sorted map. */
  function Least(keys: set<string>): (k: string)
    requires keys != {}
    ensures IsLeast(k, keys)
  {
    assert exists k :: IsLeast(k, keys) by {
      var k := LeastExists(keys);
    }
    assert forall a, b :: IsLeast(a, keys) && IsLeast(b, keys) ==> a == b by {
      forall a, b | IsLeast(a, keys) && IsLeast(b, keys)
        ensures a == b
      {
        Ordered(a, b, a);
      }
    }
    var k :| IsLeast(k, keys);
    k
  }
}
