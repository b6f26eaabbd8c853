/**
 * The order of java.lang.String#compareTo, restricted to what the model
 * needs: revision ids are fixed-width timestamp strings, so this order is
 * also their chronological order.  Characters are compared by their code
 * (Java compares UTF-16 code units; the two agree below U+10000).
 */
module LexOrder {

  /** `a` sorts strictly before `b`: first differing character, else the shorter one. */
  predicate Less(a: string, b: string)
    decreases |a|
  {
    if |a| == 0 then |b| > 0
    else if |b| == 0 then false
    else if a[0] != b[0] then a[0] < b[0]
    else Less(a[1..], b[1..])
  }

  lemma {:induction false} Irreflexive(a: string)
    ensures !Less(a, a)
    decreases |a|
  {
    if |a| > 0 {
      Irreflexive(a[1..]);
    }
  }

  lemma {:induction false} Asymmetric(a: string, b: string)
    ensures Less(a, b) ==> !Less(b, a)
    decreases |a|
  {
    if |a| > 0 && |b| > 0 && a[0] == b[0] {
      Asymmetric(a[1..], b[1..]);
    }
  }

  lemma {:induction false} Transitive(a: string, b: string, c: string)
    requires Less(a, b) && Less(b, c)
    ensures Less(a, c)
    decreases |a|
  {
    if |a| > 0 && a[0] == b[0] && b[0] == c[0] {
      Transitive(a[1..], b[1..], c[1..]);
    }
  }

  lemma {:induction false} Connected(a: string, b: string)
    ensures a == b || Less(a, b) || Less(b, a)
    decreases |a|
  {
    if |a| > 0 && |b| > 0 && a[0] == b[0] {
      Connected(a[1..], b[1..]);
      if a[1..] == b[1..] {
        assert a == [a[0]] + a[1..] && b == [b[0]] + b[1..];
      }
    }
  }

  /** `m` is greater than or equal to every element of `s`. */
  predicate IsMax(m: string, s: set<string>) {
    forall y | y in s :: y == m || Less(y, m)
  }

  lemma {:induction false} MaxExists(s: set<string>)
    requires s != {}
    ensures exists m :: m in s && IsMax(m, s)
    decreases |s|
  {
    var x :| x in s;
    if s - {x} == {} {
      assert s == {x};
      assert IsMax(x, s);
    } else {
      MaxExists(s - {x});
      var m :| m in s - {x} && IsMax(m, s - {x});
      Connected(x, m);
      if Less(x, m) {
        assert IsMax(m, s);
      } else {
        forall y | y in s
          ensures y == x || Less(y, x)
        {
          if y != x && y != m {
            Transitive(y, m, x);
          }
        }
        assert IsMax(x, s);
      }
    }
  }

  /** A set has at most one maximum. */
  lemma MaxUnique(s: set<string>)
    ensures forall m1, m2 | m1 in s && IsMax(m1, s) && m2 in s && IsMax(m2, s) :: m1 == m2
  {
    forall m1, m2 | m1 in s && IsMax(m1, s) && m2 in s && IsMax(m2, s)
      ensures m1 == m2
    {
      Asymmetric(m1, m2);
    }
  }

  /** The greatest element of a non-empty set. */
  function Max(s: set<string>): (m: string)
    requires s != {}
    ensures m in s && IsMax(m, s)
  {
    MaxExists(s);
    MaxUnique(s);
    var m :| m in s && IsMax(m, s);
    m
  }

  /** Strictly decreasing: every element sorts after all later ones. */
  predicate StrictlyDescending(xs: seq<string>) {
    forall i, j | 0 <= i < j < |xs| :: Less(xs[j], xs[i])
  }

  /**
   * The elements of `s`, greatest first: what `Arrays.sort(..., reverseOrder())`
   * produces from a directory listing of distinct names.
   */
  function Descending(s: set<string>): (xs: seq<string>)
    ensures |xs| == |s|
    ensures forall x :: x in xs <==> x in s
    ensures StrictlyDescending(xs)
    decreases |s|
  {
    if s == {} then []
    else
      var m := Max(s);
      var rest := Descending(s - {m});
      assert forall j | 0 <= j < |rest| :: rest[j] in s - {m};
      [m] + rest
  }

  /** The elements of `s` that sort after `x`: for revision ids, the newer revisions. */
  function Newer(s: set<string>, x: string): set<string> {
    set y | y in s && Less(x, y)
  }

  /** Nothing is newer than the maximum. */
  lemma NewerThanMax(s: set<string>, m: string)
    requires m in s && IsMax(m, s)
    ensures Newer(s, m) == {}
  {
    forall y | y in s
      ensures !Less(m, y)
    {
      Irreflexive(m);
      if y != m {
        Asymmetric(y, m);
      }
    }
  }

  /** Removing the maximum removes exactly it from the newer elements of anything below it. */
  lemma NewerWithoutMax(s: set<string>, m: string, x: string)
    requires m in s && x in s && Less(x, m)
    ensures Newer(s, x) == Newer(s - {m}, x) + {m}
  {
  }

  /** Position `i` of the descending order holds the element with exactly `i` newer ones. */
  lemma {:induction false} DescendingRank(s: set<string>, i: nat)
    requires i < |s|
    ensures |Newer(s, Descending(s)[i])| == i
    decreases |s|
  {
    var m := Max(s);
    var rest := Descending(s - {m});
    assert Descending(s) == [m] + rest;
    if i == 0 {
      NewerThanMax(s, m);
    } else {
      var x := rest[i - 1];
      assert x in s - {m};
      DescendingRank(s - {m}, i - 1);
      NewerWithoutMax(s, m, x);
    }
  }
}
