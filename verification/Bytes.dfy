/** Machine words and their big-endian byte encodings. */
module Bytes {

  type byte = x: int | 0 <= x < 256

  const TWO_64: nat := 0x1_0000_0000_0000_0000

  type u64 = x: int | 0 <= x < TWO_64

  /** 256 to the power n: the number of distinct n-byte strings. */
  function Pow256(n: nat): (p: nat)
    ensures p > 0
  {
    if n == 0 then 1 else 256 * Pow256(n - 1)
  }

  /** The `width`-byte big-endian encoding of `n`. */
  function ToBe(n: nat, width: nat): (bs: seq<byte>)
    requires n < Pow256(width)
    ensures |bs| == width
  {
    if width == 0 then [] else ToBe(n / 256, width - 1) + [n % 256]
  }

  /** The number a big-endian byte string denotes. */
  function FromBe(bs: seq<byte>): (n: nat)
    ensures n < Pow256(|bs|)
  {
    if bs == [] then 0 else 256 * FromBe(bs[..|bs| - 1]) + bs[|bs| - 1]
  }

  /** Decoding undoes encoding at every width. */
  lemma {:induction false} FromBeToBe(n: nat, width: nat)
    requires n < Pow256(width)
    ensures FromBe(ToBe(n, width)) == n
  {
    if width != 0 {
      FromBeToBe(n / 256, width - 1);
      assert ToBe(n, width)[..width - 1] == ToBe(n / 256, width - 1);
    }
  }

  /** Encoding undoes decoding, so the two are mutually inverse bijections. */
  lemma {:induction false} ToBeFromBe(bs: seq<byte>)
    ensures ToBe(FromBe(bs), |bs|) == bs
  {
    if bs != [] {
      ToBeFromBe(bs[..|bs| - 1]);
    }
  }

  lemma {:induction false} ZeroBytes(bs: seq<byte>)
    requires forall i :: 0 <= i < |bs| ==> bs[i] == 0
    ensures FromBe(bs) == 0
  {
    if bs != [] {
      ZeroBytes(bs[..|bs| - 1]);
    }
  }

  lemma Pow256Of8()
    ensures Pow256(8) == TWO_64
  {
    assert Pow256(4) == 0x1_0000_0000;
    assert Pow256(8) == 256 * (256 * (256 * (256 * Pow256(4))));
  }

  predicate FirstLess(a: seq<byte>, b: seq<byte>, i: int)
  {
    && 0 <= i <= |a| && i < |b|
    && (forall k :: 0 <= k < i ==> a[k] == b[k])
    && (i == |a| || a[i] < b[i])
  }

  /** Byte strings compared from the left, as a key-value store orders its keys. */
  ghost predicate BytesBefore(a: seq<byte>, b: seq<byte>)
  {
    exists i :: FirstLess(a, b, i)
  }

  /** Equally long leading parts decide, and on a tie the remaining parts do. */
  lemma BeforeConcat(a: seq<byte>, b: seq<byte>, x: seq<byte>, y: seq<byte>)
    requires |a| == |b| && |x| == |y|
    ensures BytesBefore(a + x, b + y) <==> BytesBefore(a, b) || (a == b && BytesBefore(x, y))
  {
    if i :| FirstLess(a + x, b + y, i) {
      if i < |a| {
        assert forall k :: 0 <= k < i ==> (a + x)[k] == a[k] && (b + y)[k] == b[k];
        assert FirstLess(a, b, i);
      } else {
        TailLess(a, b, x, y, i - |a|);
      }
    }
    if i :| FirstLess(a, b, i) {
      assert FirstLess(a + x, b + y, i);
    }
    if i :| a == b && FirstLess(x, y, i) {
      assert FirstLess(a + x, b + y, |a| + i);
    }
  }

  lemma TailLess(a: seq<byte>, b: seq<byte>, x: seq<byte>, y: seq<byte>, i: nat)
    requires |a| == |b| && |x| == |y| && FirstLess(a + x, b + y, |a| + i)
    ensures a == b && FirstLess(x, y, i)
  {
    forall k | 0 <= k < |a| ensures a[k] == b[k] {
      assert (a + x)[k] == (b + y)[k];
    }
    forall k | 0 <= k < i ensures x[k] == y[k] {
      assert (a + x)[|a| + k] == (b + y)[|a| + k];
    }
  }

  lemma BeforeSingle(x: byte, y: byte)
    ensures BytesBefore([x], [y]) <==> x < y
  {
    if x < y {
      assert FirstLess([x], [y], 0);
    }
  }

  /** Among equally long byte strings the left-to-right order is the numeric order. */
  lemma {:induction false} BigEndianOrder(a: seq<byte>, b: seq<byte>)
    requires |a| == |b|
    ensures BytesBefore(a, b) <==> FromBe(a) < FromBe(b)
  {
    if a != [] {
      var n := |a| - 1;
      BigEndianOrder(a[..n], b[..n]);
      BeforeConcat(a[..n], b[..n], [a[n]], [b[n]]);
      BeforeSingle(a[n], b[n]);
      assert a == a[..n] + [a[n]] && b == b[..n] + [b[n]];
      SameNumberSameBytes(a[..n], b[..n]);
    }
  }

  lemma SameNumberSameBytes(a: seq<byte>, b: seq<byte>)
    requires |a| == |b|
    ensures FromBe(a) == FromBe(b) <==> a == b
  {
    ToBeFromBe(a);
    ToBeFromBe(b);
  }
}
