/**
 Unpadded base64 with the URL-safe alphabet (section 5 of RFC 4648),
 the encoding behind every credential of crates/auth.
 */
module Base64 {
  import opened Bytes
  import opened Options

  type sextet = x: int | 0 <= x < 64

  predicate IsSymbol(c: char)
  {
    'A' <= c <= 'Z' || 'a' <= c <= 'z' || '0' <= c <= '9' || c == '-' || c == '_'
  }

  function SymbolValue(c: char): sextet
    requires IsSymbol(c)
  {
    var n := c as int;
    if 'A' <= c <= 'Z' then n - 'A' as int
    else if 'a' <= c <= 'z' then n - 'a' as int + 26
    else if '0' <= c <= '9' then n - '0' as int + 52
    else if c == '-' then 62
    else 63
  }

  function Symbol(x: sextet): (c: char)
    ensures IsSymbol(c) && SymbolValue(c) == x
  {
    if x < 26 then (x + 'A' as int) as char
    else if x < 52 then (x - 26 + 'a' as int) as char
    else if x < 62 then (x - 52 + '0' as int) as char
    else if x == 62 then '-'
    else '_'
  }

  /** The bits of a byte string regrouped by six, zero-filled at the end. */
  function Pack(bs: seq<byte>): (vs: seq<sextet>)
    ensures |vs| == (|bs| * 4 + 2) / 3
  {
    if |bs| == 0 then []
    else if |bs| == 1 then [bs[0] / 4, bs[0] % 4 * 16]
    else if |bs| == 2 then [bs[0] / 4, bs[0] % 4 * 16 + bs[1] / 16, bs[1] % 16 * 4]
    else [bs[0] / 4, bs[0] % 4 * 16 + bs[1] / 16, bs[1] % 16 * 4 + bs[2] / 64, bs[2] % 64] + Pack(bs[3..])
  }

  function Join2(a: int, b: int): (r: byte)
    requires 0 <= a < 64 && 0 <= b < 64
  {
    a * 4 + b / 16
  }

  function Join3(b: int, c: int): (r: byte)
    requires 0 <= b < 64 && 0 <= c < 64
  {
    b % 16 * 16 + c / 4
  }

  function Join4(c: int, d: int): (r: byte)
    requires 0 <= c < 64 && 0 <= d < 64
  {
    c % 4 * 64 + d
  }

  /** The inverse regrouping; a lone trailing sextet and non-zero filler bits are rejected. */
  function Unpack(vs: seq<sextet>): Option<seq<byte>>
  {
    if |vs| == 0 then Some([])
    else if |vs| == 1 then None
    else if |vs| == 2 then
      if vs[1] % 16 != 0 then None else Some([Join2(vs[0], vs[1])])
    else if |vs| == 3 then
      if vs[2] % 4 != 0 then None else Some([Join2(vs[0], vs[1]), Join3(vs[1], vs[2])])
    else match Unpack(vs[4..])
      case None => None
      case Some(rest) => Some([Join2(vs[0], vs[1]), Join3(vs[1], vs[2]), Join4(vs[2], vs[3])] + rest)
  }

  function Encode(bs: seq<byte>): (s: string)
    ensures |s| == (|bs| * 4 + 2) / 3
    ensures forall i :: 0 <= i < |s| ==> IsSymbol(s[i])
  {
    var vs := Pack(bs);
    seq(|vs|, i requires 0 <= i < |vs| => Symbol(vs[i]))
  }

  function Decode(s: string): Option<seq<byte>>
  {
    if forall i :: 0 <= i < |s| ==> IsSymbol(s[i])
    then Unpack(seq(|s|, i requires 0 <= i < |s| => SymbolValue(s[i])))
    else None
  }

  /** Three bytes survive their regrouping into four sextets. */
  lemma JoinSplit(x: byte, y: byte, z: byte)
    ensures Join2(x / 4, x % 4 * 16 + y / 16) == x
    ensures Join3(x % 4 * 16 + y / 16, y % 16 * 4 + z / 64) == y
    ensures Join4(y % 16 * 4 + z / 64, z % 64) == z
  {}

  lemma {:induction false} UnpackPack(bs: seq<byte>)
    ensures Unpack(Pack(bs)) == Some(bs)
  {
    if |bs| >= 3 {
      UnpackPack(bs[3..]);
      UnpackGroup(bs, Pack(bs));
    } else if |bs| == 2 {
      UnpackTwo(bs, Pack(bs));
    } else if |bs| == 1 {
      UnpackOne(bs, Pack(bs));
    }
  }

  lemma UnpackGroup(bs: seq<byte>, vs: seq<sextet>)
    requires |bs| >= 3 && vs == Pack(bs) && Unpack(Pack(bs[3..])) == Some(bs[3..])
    ensures Unpack(vs) == Some(bs)
  {
    JoinSplit(bs[0], bs[1], bs[2]);
    assert vs[4..] == Pack(bs[3..]);
    assert bs == [bs[0], bs[1], bs[2]] + bs[3..];
  }

  lemma JoinTwo(x: byte, y: byte)
    ensures Join2(x / 4, x % 4 * 16 + y / 16) == x
    ensures Join3(x % 4 * 16 + y / 16, y % 16 * 4) == y && y % 16 * 4 % 4 == 0
  {}

  lemma UnpackTwo(bs: seq<byte>, vs: seq<sextet>)
    requires |bs| == 2 && vs == Pack(bs)
    ensures Unpack(vs) == Some(bs)
  {
    JoinTwo(bs[0], bs[1]);
    assert bs == [Join2(vs[0], vs[1]), Join3(vs[1], vs[2])];
  }

  lemma JoinOne(x: byte)
    ensures Join2(x / 4, x % 4 * 16) == x && x % 4 * 16 % 16 == 0
  {}

  lemma UnpackOne(bs: seq<byte>, vs: seq<sextet>)
    requires |bs| == 1 && vs == Pack(bs)
    ensures Unpack(vs) == Some(bs)
  {
    JoinOne(bs[0]);
    assert bs == [Join2(vs[0], vs[1])];
  }

  /** Decoding undoes encoding for every byte string. */
  lemma DecodeEncode(bs: seq<byte>)
    ensures Decode(Encode(bs)) == Some(bs)
  {
    var s := Encode(bs);
    assert seq(|s|, i requires 0 <= i < |s| => SymbolValue(s[i])) == Pack(bs);
    UnpackPack(bs);
  }

  lemma EncodeInjective(a: seq<byte>, b: seq<byte>)
    requires Encode(a) == Encode(b)
    ensures a == b
  {
    DecodeEncode(a);
    DecodeEncode(b);
  }

  /** The URL-safe alphabet, table 2 of RFC 4648. */
  lemma AlphabetTable(x: sextet)
    ensures x < 26 ==> Symbol(x) == "ABCDEFGHIJKLMNOPQRSTUVWXYZ"[x]
    ensures 26 <= x < 52 ==> Symbol(x) == "abcdefghijklmnopqrstuvwxyz"[x - 26]
    ensures 52 <= x < 62 ==> Symbol(x) == "0123456789"[x - 52]
    ensures x == 62 ==> Symbol(x) == '-'
    ensures x == 63 ==> Symbol(x) == '_'
  {}

  /** The test vectors of section 10 of RFC 4648, without padding. */
  lemma TestVectors()
    ensures Encode([0x66]) == "Zg"
    ensures Encode([0x66, 0x6f]) == "Zm8"
    ensures Encode([0x66, 0x6f, 0x6f]) == "Zm9v"
  {
    assert Pack([0x66]) == [25, 32];
    assert Pack([0x66, 0x6f]) == [25, 38, 60];
    var foo: seq<byte> := [0x66, 0x6f, 0x6f];
    assert foo[3..] == [];
    assert Pack(foo) == [25, 38, 61, 47];
  }
}
