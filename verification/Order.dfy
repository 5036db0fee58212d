/** The lexicographic order on strings. */
module Order {

  /** `a` comes strictly before `b`. */
  predicate Before(a: string, b: string) {
    b != [] && (a == [] || a[0] < b[0] || (a[0] == b[0] && Before(a[1..], b[1..])))
  }

  predicate AtMost(a: string, b: string) {
    a == b || Before(a, b)
  }

  lemma {:induction false} BeforeIsStrict(a: string)
    ensures !Before(a, a)
  {
    if a != [] {
      BeforeIsStrict(a[1..]);
    }
  }

  lemma {:induction false} BeforeIsTotal(a: string, b: string)
    ensures Before(a, b) || a == b || Before(b, a)
    decreases |a|
  {
    if a != [] && b != [] && a[0] == b[0] {
      BeforeIsTotal(a[1..], b[1..]);
      assert a == [a[0]] + a[1..] && b == [b[0]] + b[1..];
    }
  }

  lemma {:induction false} BeforeIsTransitive(a: string, b: string, c: string)
    requires Before(a, b) && Before(b, c)
    ensures Before(a, c)
    decreases |a|
  {
    if a != [] && a[0] == b[0] && b[0] == c[0] {
      BeforeIsTransitive(a[1..], b[1..], c[1..]);
    }
  }

  lemma BeforeIsAsymmetric(a: string, b: string)
    requires Before(a, b)
    ensures !Before(b, a) && a != b
  {
    BeforeIsStrict(a);
    if Before(b, a) {
      BeforeIsTransitive(a, b, a);
    }
  }

  lemma AtMostIsTransitive(a: string, b: string, c: string)
    requires AtMost(a, b) && AtMost(b, c)
    ensures AtMost(a, c)
  {
    hide Before;
    if a != b && b != c {
      BeforeIsTransitive(a, b, c);
    }
  }

  lemma AtMostIsTotal(a: string, b: string)
    ensures AtMost(a, b) || AtMost(b, a)
  {
    hide Before;
    BeforeIsTotal(a, b);
  }

  /** A common beginning does not matter. */
  lemma {:induction false} BeforeBehind(p: string, a: string, b: string)
    ensures Before(p + a, p + b) <==> Before(a, b)
  {
    if p == [] {
      assert p + a == a && p + b == b;
    } else {
      assert (p + a)[1..] == p[1..] + a && (p + b)[1..] == p[1..] + b;
      BeforeBehind(p[1..], a, b);
    }
  }

  /** Strings that differ at `i` for the first time are ordered by what they hold there. */
  lemma {:induction false} BeforeAt(a: string, b: string, i: nat)
    requires i < |a| && i < |b| && a[..i] == b[..i] && a[i] < b[i]
    ensures Before(a, b)
  {
    if i > 0 {
      assert a[1..][..i - 1] == a[..i][1..] && b[1..][..i - 1] == b[..i][1..];
      assert a[0] == a[..i][0] == b[..i][0] == b[0];
      BeforeAt(a[1..], b[1..], i - 1);
    }
  }

  /** An element that a list holds once stands at one place only. */
  lemma NotTwice<T>(s: seq<T>, i: nat, j: nat)
    requires i < j < |s| && multiset(s)[s[i]] <= 1
    ensures s[i] != s[j]
  {
    assert s == s[..j] + [s[j]] + s[j + 1..];
    assert s[..j] == s[..i] + [s[i]] + s[i + 1..j];
  }
}
