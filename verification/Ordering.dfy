/** The byte order of strings, in which ordered maps and sets are traversed. */
module Ordering {

  /** Strictly smaller, comparing code points from the left (the order of the UTF-8 bytes). */
  predicate Precedes(a: string, b: string)
  {
    b != "" && (a == "" || a[0] < b[0] || (a[0] == b[0] && Precedes(a[1..], b[1..])))
  }

  lemma {:induction false} PrecedesTotal(a: string, b: string)
    ensures a == b || Precedes(a, b) || Precedes(b, a)
  {
    if a != "" && b != "" && a[0] == b[0] {
      PrecedesTotal(a[1..], b[1..]);
      assert a == [a[0]] + a[1..] && b == [b[0]] + b[1..];
    }
  }

  lemma {:induction false} PrecedesTransitive(a: string, b: string, c: string)
    requires Precedes(a, b) && Precedes(b, c)
    ensures Precedes(a, c)
  {
    if a != "" && a[0] == b[0] && b[0] == c[0] {
      PrecedesTransitive(a[1..], b[1..], c[1..]);
    }
  }

  lemma {:induction false} PrecedesIrreflexive(a: string)
    ensures !Precedes(a, a)
  {
    if a != "" {
      PrecedesIrreflexive(a[1..]);
    }
  }

  /** Pointwise smaller or equal strings of the same length come no later in the order. */
  lemma {:induction false} PointwisePrecedes(a: string, b: string)
    requires |a| == |b| && forall i :: 0 <= i < |a| ==> a[i] <= b[i]
    ensures a == b || Precedes(a, b)
  {
    if a != "" {
      PointwisePrecedes(a[1..], b[1..]);
      assert a == [a[0]] + a[1..] && b == [b[0]] + b[1..];
    }
  }

  ghost predicate IsLeast(m: string, s: set<string>)
  {
    m in s && forall x :: x in s ==> x == m || Precedes(m, x)
  }

  ghost predicate IsGreatest(m: string, s: set<string>)
  {
    m in s && forall x :: x in s ==> x == m || Precedes(x, m)
  }

  lemma {:induction false} LeastExists(s: set<string>)
    requires s != {}
    ensures exists m :: IsLeast(m, s)
    decreases |s|
  {
    var x :| x in s;
    if s == {x} {
      assert IsLeast(x, s);
    } else {
      var rest := s - {x};
      LeastExists(rest);
      var m :| IsLeast(m, rest);
      PrecedesTotal(x, m);
      if Precedes(x, m) {
        forall y | y in s ensures y == x || Precedes(x, y) {
          if y != x && y != m { PrecedesTransitive(x, m, y); }
        }
        assert IsLeast(x, s);
      } else {
        assert IsLeast(m, s);
      }
    }
  }

  ghost function Least(s: set<string>): (m: string)
    requires s != {}
    ensures IsLeast(m, s)
  {
    LeastExists(s);
    var m :| IsLeast(m, s);
    m
  }

  lemma LeastUnique(a: string, b: string, s: set<string>)
    requires IsLeast(a, s) && IsLeast(b, s)
    ensures a == b
  {
    if a != b {
      PrecedesTransitive(a, b, a);
      PrecedesIrreflexive(a);
    }
  }

  lemma GreatestUnique(a: string, b: string, s: set<string>)
    requires IsGreatest(a, s) && IsGreatest(b, s)
    ensures a == b
  {
    if a != b {
      PrecedesTransitive(a, b, a);
      PrecedesIrreflexive(a);
    }
  }

  predicate InOrder(q: seq<string>, i: int, j: int)
  {
    0 <= i < j < |q| ==> Precedes(q[i], q[j])
  }

  ghost predicate Increasing(q: seq<string>)
  {
    forall i, j :: InOrder(q, i, j)
  }

  /** `q` lists exactly the elements of `s`, in traversal order. */
  ghost predicate Lists(q: seq<string>, s: set<string>)
  {
    Increasing(q) && forall x :: x in q <==> x in s
  }

  /** The elements of a set in traversal order. */
  ghost function Sorted(s: set<string>): (q: seq<string>)
    ensures Lists(q, s) && |q| == |s|
    decreases |s|
  {
    if s == {} then [] else
      var m := Least(s);
      IncreasingPush(m, Sorted(s - {m}));
      [m] + Sorted(s - {m})
  }

  lemma IncreasingPush(m: string, q: seq<string>)
    requires Increasing(q) && forall x :: x in q ==> Precedes(m, x)
    ensures Increasing([m] + q)
  {
    var q' := [m] + q;
    forall i, j ensures InOrder(q', i, j) {
      assert InOrder(q, i - 1, j - 1);
      assert 0 <= i < j < |q'| ==> q'[j] in q;
    }
  }

  /** Traversal of an ordered set: repeatedly take the least remaining element. */
  method Traverse(s: set<string>) returns (q: seq<string>)
    ensures q == Sorted(s)
  {
    q := [];
    var rest := s;
    while rest != {}
      invariant q + Sorted(rest) == Sorted(s)
      decreases |rest|
    {
      LeastExists(rest);
      var m :| m in rest && forall x :: x in rest ==> x == m || Precedes(m, x);
      SortedStep(rest, m, q);
      q, rest := q + [m], rest - {m};
    }
  }

  lemma SortedStep(rest: set<string>, m: string, q: seq<string>)
    requires IsLeast(m, rest)
    ensures q + Sorted(rest) == q + [m] + Sorted(rest - {m})
  {
    LeastUnique(m, Least(rest), rest);
  }

  /** An element that no later position repeats is the greatest of those with its property. */
  lemma LastIsGreatest(q: seq<string>, s: set<string>, kept: set<string>, i: nat)
    requires Lists(q, s) && kept <= s && i < |q| && q[i] in kept
    requires forall j :: i < j < |q| ==> q[j] !in kept
    ensures IsGreatest(q[i], kept)
  {
    forall x | x in kept ensures x == q[i] || Precedes(x, q[i]) {
      assert x in q;
      var j :| 0 <= j < |q| && q[j] == x;
      assert InOrder(q, j, i);
    }
  }
}
