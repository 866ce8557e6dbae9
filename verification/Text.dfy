/** Strings as the Rust standard library treats them, for the operations the repository uses. */
module Text {
  import opened Bytes
  import opened Options

  // ---- case folding ----

  function LowerChar(c: char): (r: char)
    ensures !('A' <= r <= 'Z') && c <= r
  {
    if 'A' <= c <= 'Z' then (c as int + 32) as char else c
  }

  /** ASCII lower-casing, which is also what Unicode lower-casing does to an ASCII string. */
  function Lower(s: string): (r: string)
    ensures |r| == |s|
    ensures forall i :: 0 <= i < |s| ==> r[i] == LowerChar(s[i])
  {
    seq(|s|, i requires 0 <= i < |s| => LowerChar(s[i]))
  }

  predicate IsAscii(s: string)
  {
    forall i :: 0 <= i < |s| ==> s[i] < 128 as char
  }

  lemma LowerIdempotent(s: string)
    ensures Lower(Lower(s)) == Lower(s)
  {}

  lemma LowerConcat(a: string, b: string)
    ensures Lower(a + b) == Lower(a) + Lower(b)
  {}

  // ---- length in bytes ----

  function Utf8Width(c: char): (w: nat)
    ensures 1 <= w <= 4
  {
    var n := c as int;
    if n < 0x80 then 1 else if n < 0x800 then 2 else if n < 0x1_0000 then 3 else 4
  }

  /** The length `str::len` reports: bytes of the UTF-8 form. */
  function Utf8Len(s: string): (n: nat)
    ensures n >= |s|
  {
    if s == "" then 0 else Utf8Width(s[0]) + Utf8Len(s[1..])
  }

  lemma {:induction false} Utf8LenAscii(s: string)
    requires IsAscii(s)
    ensures Utf8Len(s) == |s|
  {
    if s != "" {
      Utf8LenAscii(s[1..]);
    }
  }

  lemma {:induction false} Utf8LenConcat(a: string, b: string)
    ensures Utf8Len(a + b) == Utf8Len(a) + Utf8Len(b)
  {
    if a == "" {
      assert a + b == b;
    } else {
      assert (a + b)[1..] == a[1..] + b;
      Utf8LenConcat(a[1..], b);
    }
  }

  // ---- splitting ----

  /** `str::split_once`: the parts around the first separator. */
  function SplitOnce(s: string, sep: char): (r: Option<(string, string)>)
    ensures r.None? <==> sep !in s
    ensures r.Some? ==> s == r.value.0 + [sep] + r.value.1 && sep !in r.value.0
  {
    if s == "" then None
    else if s[0] == sep then Some(("", s[1..]))
    else match SplitOnce(s[1..], sep)
      case None => None
      case Some((a, b)) => Some(([s[0]] + a, b))
  }

  /** A separator-free prefix is what `split_once` returns. */
  lemma {:induction false} SplitOnceAt(a: string, sep: char, b: string)
    requires sep !in a
    ensures SplitOnce(a + [sep] + b, sep) == Some((a, b))
  {
    var s := a + [sep] + b;
    if a == "" {
      assert s[1..] == b;
    } else {
      assert s[0] == a[0] && s[1..] == a[1..] + [sep] + b && a == [a[0]] + a[1..];
      SplitOnceAt(a[1..], sep, b);
    }
  }

  /** `str::split`: every piece between separators, empty ones included. */
  function Split(s: string, sep: char): (pieces: seq<string>)
    ensures |pieces| >= 1
    ensures forall p :: p in pieces ==> sep !in p
    decreases |s|
  {
    match SplitOnce(s, sep)
      case None => [s]
      case Some((a, b)) => [a] + Split(b, sep)
  }

  lemma SplitFirst(a: string, sep: char, b: string)
    requires sep !in a
    ensures Split(a + [sep] + b, sep) == [a] + Split(b, sep)
  {
    SplitOnceAt(a, sep, b);
  }

  /** The number of separators is one less than the number of pieces. */
  function Count(s: string, c: char): nat
  {
    if s == "" then 0 else (if s[0] == c then 1 else 0) + Count(s[1..], c)
  }

  lemma {:induction false} CountConcat(a: string, b: string, c: char)
    ensures Count(a + b, c) == Count(a, c) + Count(b, c)
  {
    if a == "" {
      assert a + b == b;
    } else {
      assert (a + b)[1..] == a[1..] + b;
      CountConcat(a[1..], b, c);
    }
  }

  lemma {:induction false} CountZero(s: string, c: char)
    ensures Count(s, c) == 0 <==> c !in s
  {
    if s != "" {
      CountZero(s[1..], c);
    }
  }

  // ---- white space ----

  /** The characters with the Unicode White_Space property. */
  predicate IsSpace(c: char)
  {
    var n := c as int;
    0x9 <= n <= 0xD || n == 0x20 || n == 0x85 || n == 0xA0 || n == 0x1680 || 0x2000 <= n <= 0x200A
    || n == 0x2028 || n == 0x2029 || n == 0x202F || n == 0x205F || n == 0x3000
  }

  predicate AllSpace(s: string)
  {
    forall i :: 0 <= i < |s| ==> IsSpace(s[i])
  }

  predicate Trimmed(s: string)
  {
    s == "" || (!IsSpace(s[0]) && !IsSpace(s[|s| - 1]))
  }

  function TrimStart(s: string): (r: string)
    ensures r == "" || !IsSpace(r[0])
    ensures |r| <= |s| && r == s[|s| - |r|..]
  {
    if s != "" && IsSpace(s[0]) then TrimStart(s[1..]) else s
  }

  function TrimEnd(s: string): (r: string)
    ensures r == "" || !IsSpace(r[|r| - 1])
    ensures r <= s
  {
    if s != "" && IsSpace(s[|s| - 1]) then TrimEnd(s[..|s| - 1]) else s
  }

  /** `str::trim`: the longest part that neither starts nor ends with white space. */
  function Trim(s: string): (r: string)
    ensures Trimmed(r)
    ensures Trimmed(s) ==> r == s
    ensures forall c :: c in r ==> c in s
  {
    TrimEnd(TrimStart(s))
  }

  lemma AllSpaceConcat(a: string, b: string)
    requires AllSpace(a) && AllSpace(b)
    ensures AllSpace(a + b)
  {}

  lemma {:induction false} TrimStartCuts(s: string)
    ensures AllSpace(s[..|s| - |TrimStart(s)|])
  {
    if s != "" && IsSpace(s[0]) {
      var n := |s| - |TrimStart(s)|;
      TrimStartCuts(s[1..]);
      AllSpaceConcat([s[0]], s[1..][..n - 1]);
      assert s[..n] == [s[0]] + s[1..][..n - 1];
    }
  }

  lemma {:induction false} TrimEndCuts(s: string)
    ensures AllSpace(s[|TrimEnd(s)|..])
  {
    if s != "" && IsSpace(s[|s| - 1]) {
      var m, n := |TrimEnd(s)|, |s| - 1;
      TrimEndCuts(s[..n]);
      AllSpaceConcat(s[..n][m..], [s[n]]);
      assert s[m..] == s[..n][m..] + [s[n]];
    }
  }

  /** Only white space is cut, at both ends. */
  lemma TrimCuts(s: string) returns (lead: string, tail: string)
    ensures s == lead + Trim(s) + tail
    ensures AllSpace(lead) && AllSpace(tail)
  {
    TrimStartCuts(s);
    TrimEndCuts(TrimStart(s));
    lead, tail := ThreeParts(s, TrimStart(s), Trim(s));
  }

  lemma ThreeParts(s: string, rest: string, middle: string) returns (lead: string, tail: string)
    requires |rest| <= |s| && rest == s[|s| - |rest|..] && middle <= rest
    ensures lead == s[..|s| - |rest|] && tail == rest[|middle|..] && s == lead + middle + tail
  {
    lead, tail := s[..|s| - |rest|], rest[|middle|..];
    assert s == lead + rest && rest == middle + tail;
  }

  // ---- decimal numbers ----

  predicate IsDigit(c: char) { '0' <= c <= '9' }

  predicate AllDigits(s: string)
  {
    forall i :: 0 <= i < |s| ==> IsDigit(s[i])
  }

  function DigitValue(c: char): nat
    requires IsDigit(c)
  {
    c as int - '0' as int
  }

  /** The number a digit string denotes; the empty string denotes 0. */
  function DecimalValue(s: string): nat
    requires AllDigits(s)
  {
    if s == "" then 0 else 10 * DecimalValue(s[..|s| - 1]) + DigitValue(s[|s| - 1])
  }

  /** `u64::from_str`: an optional plus sign and at least one digit, denoting less than 2^64. */
  function ParseU64(s: string): (r: Option<u64>)
  {
    var digits := if s != "" && s[0] == '+' then s[1..] else s;
    if digits != "" && AllDigits(digits) && DecimalValue(digits) < TWO_64
    then Some(DecimalValue(digits)) else None
  }

  /** Decimal text without leading zeros, as `Display` prints an unsigned integer. */
  function PrintNat(n: nat): (s: string)
    ensures s != "" && AllDigits(s)
  {
    var last := ['0' + (n % 10) as char];
    if n < 10 then last else PrintNat(n / 10) + last
  }

  lemma {:induction false} DecimalValuePrint(n: nat)
    ensures DecimalValue(PrintNat(n)) == n
  {
    var s := PrintNat(n);
    if n < 10 {
      assert s[..|s| - 1] == "";
    } else {
      DecimalValuePrint(n / 10);
      assert s[..|s| - 1] == PrintNat(n / 10);
    }
  }

  /** Parsing undoes printing for every u64. */
  lemma ParsePrint(n: u64)
    ensures ParseU64(PrintNat(n)) == Some(n)
  {
    DecimalValuePrint(n);
  }
}
