/** Sums over a list, and their independence of its order. */
module Totals {

  function Total<T(!new)>(s: seq<T>, f: T -> nat): nat
  {
    if s == [] then 0 else f(s[0]) + Total(s[1..], f)
  }

  lemma {:induction false} TotalConcat<T(!new)>(a: seq<T>, b: seq<T>, f: T -> nat)
    ensures Total(a + b, f) == Total(a, f) + Total(b, f)
  {
    if a == [] {
      assert a + b == b;
    } else {
      assert (a + b)[1..] == a[1..] + b;
      TotalConcat(a[1..], b, f);
    }
  }

  lemma TotalPush<T(!new)>(s: seq<T>, i: nat, f: T -> nat)
    requires i < |s|
    ensures Total(s[..i + 1], f) == Total(s[..i], f) + f(s[i])
  {
    assert s[..i + 1] == s[..i] + [s[i]];
    TotalConcat(s[..i], [s[i]], f);
  }

  lemma {:induction false} TotalBounds<T(!new)>(s: seq<T>, f: T -> nat, low: nat, high: nat)
    requires forall x :: x in s ==> low <= f(x) <= high
    ensures low * |s| <= Total(s, f) <= high * |s|
  {
    if s != [] {
      TotalBounds(s[1..], f, low, high);
      assert low * |s| == low + low * (|s| - 1) && high * |s| == high + high * (|s| - 1);
    }
  }

  lemma {:induction false} TotalMonotone<T(!new)>(s: seq<T>, f: T -> nat, g: T -> nat)
    requires forall x :: x in s ==> f(x) <= g(x)
    ensures Total(s, f) <= Total(s, g)
  {
    if s != [] {
      TotalMonotone(s[1..], f, g);
    }
  }

  lemma TotalRemove<T(!new)>(s: seq<T>, i: nat, f: T -> nat)
    requires i < |s|
    ensures Total(s, f) == f(s[i]) + Total(s[..i] + s[i + 1..], f)
  {
    TotalConcat(s[..i], s[i..], f);
    TotalConcat(s[..i], s[i + 1..], f);
    assert s == s[..i] + s[i..];
  }

  lemma MultisetRemove<T>(s: seq<T>, i: nat)
    requires i < |s|
    ensures multiset(s[..i] + s[i + 1..]) == multiset(s) - multiset{s[i]}
  {
    assert s == s[..i] + [s[i]] + s[i + 1..];
  }

  /** Where the first element of one list sits in a permutation of it. */
  lemma Locate<T>(s: seq<T>, t: seq<T>) returns (i: nat)
    requires s != [] && multiset(s) == multiset(t)
    ensures i < |t| && t[i] == s[0] && multiset(s[1..]) == multiset(t[..i] + t[i + 1..])
  {
    assert s[0] in multiset(t);
    i :| i < |t| && t[i] == s[0];
    assert multiset(s[1..]) == multiset(s) - multiset{s[0]} by {
      MultisetRemove(s, 0);
      assert s[..0] + s[1..] == s[1..];
    }
    MultisetRemove(t, i);
  }

  /** A total depends on the elements, not on their order. */
  lemma {:induction false} TotalOfMultiset<T(!new)>(s: seq<T>, t: seq<T>, f: T -> nat)
    requires multiset(s) == multiset(t)
    ensures Total(s, f) == Total(t, f)
    decreases |s|
  {
    if s == [] {
      assert |multiset(t)| == 0;
    } else {
      var i := Locate(s, t);
      TotalOfMultiset(s[1..], t[..i] + t[i + 1..], f);
      TotalRemove(t, i, f);
    }
  }

  lemma SameSize<T>(s: seq<T>, t: seq<T>)
    requires multiset(s) == multiset(t)
    ensures |s| == |t|
  {
    assert |multiset(s)| == |s| && |multiset(t)| == |t|;
  }
}
