/** Service identifiers: their storage keys and their textual form (crates/auth/src/types.rs). */
module ServiceIds {
  import opened Bytes
  import opened Options
  import opened Text

  datatype ServiceId = ServiceId(main: u64, sub: u64)

  datatype ParseError = ParseInt | Malformed

  /** The order the derived `Ord` gives: main id first, then sub-service id. */
  predicate IdBefore(a: ServiceId, b: ServiceId)
  {
    a.main < b.main || (a.main == b.main && a.sub < b.sub)
  }

  /** The 16-byte storage key. */
  function Key(id: ServiceId): (bs: seq<byte>)
    ensures |bs| == 16
  {
    Pow256Of8();
    ToBe(id.main, 8) + ToBe(id.sub, 8)
  }

  function FromKey(bs: seq<byte>): ServiceId
    requires |bs| == 16
  {
    Pow256Of8();
    ServiceId(FromBe(bs[..8]), FromBe(bs[8..]))
  }

  method ToBeBytes(id: ServiceId) returns (bytes: array<byte>)
    ensures fresh(bytes) && bytes[..] == Key(id)
  {
    Pow256Of8();
    bytes := new byte[16](_ => 0);
    var hi, lo := ToBe(id.main, 8), ToBe(id.sub, 8);
    var i := 0;
    while i < 8
      invariant 0 <= i <= 8
      invariant forall k :: 0 <= k < i ==> bytes[k] == hi[k] && bytes[k + 8] == lo[k]
    {
      bytes[i] := hi[i];
      bytes[i + 8] := lo[i];
      i := i + 1;
    }
    assert bytes[..8] == hi && bytes[8..] == lo;
  }

  method FromBeBytes(bytes: array<byte>) returns (id: ServiceId)
    requires bytes.Length == 16
    ensures Key(id) == bytes[..]
  {
    var hi := new byte[8](_ => 0);
    var lo := new byte[8](_ => 0);
    var i := 0;
    while i < 8
      invariant 0 <= i <= 8
      invariant forall k :: 0 <= k < i ==> hi[k] == bytes[k] && lo[k] == bytes[k + 8]
    {
      hi[i] := bytes[i];
      lo[i] := bytes[i + 8];
      i := i + 1;
    }
    assert bytes[..8] == hi[..] && bytes[8..] == lo[..];
    assert bytes[..] == hi[..] + lo[..];
    KeyOfParts(hi[..], lo[..]);
    id := ServiceId(FromBe(hi[..]), FromBe(lo[..]));
  }

  lemma KeyOfParts(hi: seq<byte>, lo: seq<byte>)
    requires |hi| == 8 && |lo| == 8
    ensures FromBe(hi) < TWO_64 && FromBe(lo) < TWO_64
    ensures Key(ServiceId(FromBe(hi), FromBe(lo))) == hi + lo
  {
    Pow256Of8();
    ToBeFromBe(hi);
    ToBeFromBe(lo);
  }

  /** Ids and 16-byte strings correspond one to one. */
  lemma KeyBijection(id: ServiceId, bs: seq<byte>)
    requires |bs| == 16
    ensures FromKey(Key(id)) == id
    ensures Key(FromKey(bs)) == bs
  {
    Pow256Of8();
    FromBeToBe(id.main, 8);
    FromBeToBe(id.sub, 8);
    assert Key(id)[..8] == ToBe(id.main, 8) && Key(id)[8..] == ToBe(id.sub, 8);
    KeyOfParts(bs[..8], bs[8..]);
    assert bs == bs[..8] + bs[8..];
  }

  /** Iterating a table by key visits services in (main, sub) order. */
  lemma KeyOrder(a: ServiceId, b: ServiceId)
    ensures BytesBefore(Key(a), Key(b)) <==> IdBefore(a, b)
  {
    Pow256Of8();
    BeforeConcat(ToBe(a.main, 8), ToBe(b.main, 8), ToBe(a.sub, 8), ToBe(b.sub, 8));
    HalfOrder(a.main, b.main);
    HalfOrder(a.sub, b.sub);
  }

  lemma HalfOrder(m: u64, n: u64)
    requires Pow256(8) == TWO_64
    ensures BytesBefore(ToBe(m, 8), ToBe(n, 8)) <==> m < n
    ensures ToBe(m, 8) == ToBe(n, 8) <==> m == n
  {
    BigEndianOrder(ToBe(m, 8), ToBe(n, 8));
    FromBeToBe(m, 8);
    FromBeToBe(n, 8);
  }

  /** `FromStr`: `main` or `main:sub`. */
  function Parse(s: string): (r: Result<ServiceId, ParseError>)
  {
    var parts := Split(s, ':');
    if |parts| > 2 then Err(Malformed)
    else match ParseU64(parts[0])
      case None => Err(ParseInt)
      case Some(main) =>
        if |parts| == 1 then Ok(ServiceId(main, 0))
        else match ParseU64(parts[1])
          case None => Err(ParseInt)
          case Some(sub) => Ok(ServiceId(main, sub))
  }

  function Print(id: ServiceId): string
  {
    PrintNat(id.main) + ":" + PrintNat(id.sub)
  }

  /** Parsing undoes printing for every pair of u64 values. */
  lemma ParsePrintId(id: ServiceId)
    ensures Parse(Print(id)) == Ok(id)
  {
    var a, b := PrintNat(id.main), PrintNat(id.sub);
    assert Print(id) == a + [':'] + b;
    SplitFirst(a, ':', b);
    assert Split(b, ':') == [b];
    ParsePrint(id.main);
    ParsePrint(id.sub);
  }

  /** Exactly the texts `main` and `main:sub` of two u64 numbers are accepted. */
  lemma ParseAccepts(s: string, id: ServiceId)
    ensures Parse(s) == Ok(id) <==>
            || (ParseU64(s) == Some(id.main) && id.sub == 0)
            || (':' in s && var (a, b) := SplitOnce(s, ':').value; ParseU64(a) == Some(id.main) && ParseU64(b) == Some(id.sub))
  {
    match SplitOnce(s, ':') {
      case None =>
        assert Split(s, ':') == [s];
      case Some((a, b)) =>
        SplitFirst(a, ':', b);
        if ParseU64(s).Some? { NumberHasNoColon(s); }
        if ParseU64(b).Some? { NumberHasNoColon(b); }
        if ':' !in b {
          assert Split(b, ':') == [b];
        } else {
          assert |Split(s, ':')| > 2;
        }
    }
  }

  lemma NumberHasNoColon(s: string)
    requires ParseU64(s).Some?
    ensures ':' !in s
  {
    var digits := if s[0] == '+' then s[1..] else s;
    forall c | c in digits ensures IsDigit(c) {}
    if s[0] == '+' {
      assert s == ['+'] + digits;
    }
  }
}
