/// The byte order of strings, as Rust sorts them.
module Strings {
  predicate LexLeq(a: string, b: string) {
    a == "" || (b != "" && (a[0] < b[0] || (a[0] == b[0] && LexLeq(a[1..], b[1..]))))
  }

  lemma LexTotal(a: string, b: string)
    ensures LexLeq(a, b) || LexLeq(b, a)
  {
  }

  lemma LexTransitive(a: string, b: string, c: string)
    requires LexLeq(a, b) && LexLeq(b, c)
    ensures LexLeq(a, c)
  {
  }

  lemma LexAntisymmetric(a: string, b: string)
    requires LexLeq(a, b) && LexLeq(b, a)
    ensures a == b
  {
    if a != "" {
      LexAntisymmetric(a[1..], b[1..]);
      assert a == [a[0]] + a[1..] && b == [b[0]] + b[1..];
    }
  }

  lemma {:induction false} PrefixIsLeq(a: string, b: string)
    requires a <= b
    ensures LexLeq(a, b)
  {
    if a != "" { PrefixIsLeq(a[1..], b[1..]); }
  }

  lemma {:induction false} LexAfter(p: string, a: string, b: string)
    requires LexLeq(a, b)
    ensures LexLeq(p + a, p + b)
  {
    if p == "" {
      assert p + a == a && p + b == b;
    } else {
      LexAfter(p[1..], a, b);
      assert (p + a)[1..] == p[1..] + a && (p + b)[1..] == p[1..] + b;
    }
  }

  /** A proper beginning comes first, and otherwise the first difference decides. */
  predicate SortsBefore(a: string, b: string) {
    a < b || exists k :: 0 <= k < |a| && k < |b| && a[..k] == b[..k] && a[k] < b[k]
  }

  lemma {:induction false} LexMeans(a: string, b: string)
    ensures LexLeq(a, b) <==> a == b || SortsBefore(a, b)
  {
    if a != "" && b != "" && a[0] == b[0] {
      LexMeans(a[1..], b[1..]);
      assert a == [a[0]] + a[1..] && b == [b[0]] + b[1..];
      if k :| 0 <= k < |a[1..]| && k < |b[1..]| && a[1..][..k] == b[1..][..k] && a[1..][k] < b[1..][k] {
        assert a[..k+1] == [a[0]] + a[1..][..k] && b[..k+1] == [b[0]] + b[1..][..k];
        assert a[k+1] < b[k+1];
      }
      if k :| 0 <= k < |a| && k < |b| && a[..k] == b[..k] && a[k] < b[k] {
        assert a[1..][..k-1] == a[..k][1..] && b[1..][..k-1] == b[..k][1..];
        assert a[1..][k-1] < b[1..][k-1];
      }
    } else if a != "" && b != "" {
      assert a[..0] == b[..0];
      forall k | 0 < k < |a| && k < |b| ensures a[..k] != b[..k] {
        assert a[..k][0] == a[0] && b[..k][0] == b[0];
      }
    }
  }

  /** The order of paths: component by component. */
  predicate ComponentsLeq(a: seq<string>, b: seq<string>) {
    a == [] || (b != [] && (if a[0] != b[0] then LexLeq(a[0], b[0]) else ComponentsLeq(a[1..], b[1..])))
  }

  lemma {:induction false} ComponentsTotal(a: seq<string>, b: seq<string>)
    ensures ComponentsLeq(a, b) || ComponentsLeq(b, a)
  {
    if a != [] && b != [] {
      LexTotal(a[0], b[0]);
      ComponentsTotal(a[1..], b[1..]);
    }
  }

  lemma {:induction false} ComponentsTransitive(a: seq<string>, b: seq<string>, c: seq<string>)
    requires ComponentsLeq(a, b) && ComponentsLeq(b, c)
    ensures ComponentsLeq(a, c)
  {
    if a != [] {
      if a[0] == b[0] == c[0] {
        ComponentsTransitive(a[1..], b[1..], c[1..]);
      } else if a[0] != b[0] && b[0] != c[0] {
        LexTransitive(a[0], b[0], c[0]);
        if a[0] == c[0] { LexAntisymmetric(a[0], b[0]); }
      }
    }
  }

  lemma {:induction false} ComponentsAntisymmetric(a: seq<string>, b: seq<string>)
    requires ComponentsLeq(a, b) && ComponentsLeq(b, a)
    ensures a == b
  {
    if a != [] {
      if a[0] != b[0] { LexAntisymmetric(a[0], b[0]); }
      ComponentsAntisymmetric(a[1..], b[1..]);
      assert a == [a[0]] + a[1..] && b == [b[0]] + b[1..];
    }
  }

  lemma {:induction false} ComponentsAfter(p: seq<string>, a: seq<string>, b: seq<string>)
    ensures ComponentsLeq(p + a, p + b) <==> ComponentsLeq(a, b)
  {
    if p == [] {
      assert p + a == a && p + b == b;
    } else {
      ComponentsAfter(p[1..], a, b);
      assert (p + a)[1..] == p[1..] + a && (p + b)[1..] == p[1..] + b;
    }
  }
}
