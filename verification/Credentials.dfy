/**
 Credentials handed to clients and the way requests are told apart
 (crates/auth/src/api_keys.rs, api_tokens.rs, auth_token.rs, models.rs).
 Keccak-256 and CRC-32 are parameters.
 */
module Credentials {
  import opened Bytes
  import opened Options
  import opened Text
  import Base64

  datatype ApiToken = ApiToken(id: u64, token: string)

  datatype ParseApiTokenError = MalformedToken | InvalidTokenId

  datatype AuthToken = Legacy(token: ApiToken) | ApiKey(key: string)

  datatype AuthTokenError = InvalidFormat | LegacyToken(error: ParseApiTokenError)

  type Digest = string -> seq<byte>

  /** The form in which digests are stored and compared. */
  function StoredHash(keccak: Digest, text: string): string
  {
    Base64.Encode(keccak(text))
  }

  // ---- API keys: prefix + id + "." + secret ----

  datatype GeneratedKey = GeneratedKey(keyId: string, fullKey: string)

  function GenerateKey(prefix: string, secret: seq<byte>): GeneratedKey
    requires |secret| == 32
  {
    var keyId := prefix + Base64.Encode(secret[..8]);
    GeneratedKey(keyId, keyId + "." + Base64.Encode(secret[8..]))
  }

  /** `ApiKeyModel::validates_key` against the stored id and hash. */
  predicate ValidatesKey(keccak: Digest, keyId: string, keyHash: string, fullKey: string)
  {
    match SplitOnce(fullKey, '.')
      case None => false
      case Some((idPart, _)) => idPart == keyId && keyHash == StoredHash(keccak, fullKey)
  }

  // ---- legacy tokens: id + "|" + prefix + random part ----

  datatype GeneratedToken = GeneratedToken(plaintext: string, hash: string)

  function GenerateToken(keccak: Digest, crc: seq<byte> -> seq<byte>, prefix: string, random: seq<byte>): GeneratedToken
    requires |random| == 40 && |crc(random)| == 4
  {
    var text := prefix + Base64.Encode(random + crc(random));
    GeneratedToken(text, StoredHash(keccak, text))
  }

  function Plaintext(token: GeneratedToken, id: u64): string
  {
    PrintNat(id) + "|" + token.plaintext
  }

  function PrintToken(t: ApiToken): string
  {
    PrintNat(t.id) + "|" + t.token
  }

  predicate TokenIs(keccak: Digest, storedHash: string, text: string)
  {
    storedHash == StoredHash(keccak, text)
  }

  function ParseApiToken(s: string): Result<ApiToken, ParseApiTokenError>
  {
    if Utf8Len(s) > 512 then Err(MalformedToken)
    else if Count(s, '|') != 1 then Err(MalformedToken)
    else match SplitOnce(s, '|')
      case None => Err(MalformedToken)
      case Some((idPart, tokenPart)) =>
        match ParseU64(idPart)
        case None => Err(InvalidTokenId)
        case Some(id) => if tokenPart == "" then Err(MalformedToken) else Ok(ApiToken(id, tokenPart))
  }

  /** `AuthToken::parse`: Paseto tokens are left to their own manager, then legacy, then API keys. */
  function ParseAuthToken(s: string): Result<AuthToken, AuthTokenError>
  {
    if "v4.local." <= s then Err(InvalidFormat)
    else if '|' in s then
      match ParseApiToken(s) case Ok(t) => Ok(Legacy(t)) case Err(e) => Err(LegacyToken(e))
    else if '.' in s then Ok(ApiKey(s))
    else Err(InvalidFormat)
  }

  /** What sort of credential a text is taken for. */
  lemma AuthTokenKinds(s: string)
    ensures ParseAuthToken(s) == Ok(ApiKey(s)) <==> '.' in s && '|' !in s && !(|s| >= 9 && s[..9] == "v4.local.")
    ensures forall t :: ParseAuthToken(s) == Ok(Legacy(t)) <==>
              '|' in s && !(|s| >= 9 && s[..9] == "v4.local.") && ParseApiToken(s) == Ok(t)
    ensures ParseAuthToken(s) == Err(InvalidFormat) <==> (|s| >= 9 && s[..9] == "v4.local.") || ('|' !in s && '.' !in s)
  {}

  // ---- what a client receives is what the proxy accepts ----

  lemma EncodedHas(bs: seq<byte>)
    ensures '.' !in Base64.Encode(bs) && '|' !in Base64.Encode(bs)
    ensures IsAscii(Base64.Encode(bs))
  {
    var s := Base64.Encode(bs);
    forall c | c in s ensures Base64.IsSymbol(c) {}
  }

  /** A generated key reaches the API-key handler, names its own record and validates against it. */
  predicate KeyUsable(keccak: Digest, key: GeneratedKey)
  {
    && ParseAuthToken(key.fullKey) == Ok(ApiKey(key.fullKey))
    && SplitOnce(key.fullKey, '.').Some?
    && SplitOnce(key.fullKey, '.').value.0 == key.keyId
    && ValidatesKey(keccak, key.keyId, StoredHash(keccak, key.fullKey), key.fullKey)
  }

  /** Exactly the prefixes without a dot and without a bar give usable keys. */
  lemma GeneratedKeyUsable(keccak: Digest, prefix: string, secret: seq<byte>)
    requires |secret| == 32
    ensures KeyUsable(keccak, GenerateKey(prefix, secret)) <==> '.' !in prefix && '|' !in prefix
  {
    var key := GenerateKey(prefix, secret);
    var a, b := Base64.Encode(secret[..8]), Base64.Encode(secret[8..]);
    EncodedHas(secret[..8]);
    EncodedHas(secret[8..]);
    assert key.fullKey == key.keyId + ['.'] + b;
    if '.' !in prefix && '|' !in prefix {
      SplitOnceAt(key.keyId, '.', b);
      assert key.fullKey[2] == key.keyId[2] != "v4.local."[2];
    } else if '|' in prefix {
      assert '|' in key.fullKey;
    } else {
      assert '.' in key.keyId;
    }
  }

  /** The key id is the prefix and the first eight random bytes; the other twenty-four follow the dot. */
  lemma KeyParts(prefix: string, secret: seq<byte>)
    requires |secret| == 32
    ensures var key := GenerateKey(prefix, secret);
            && prefix <= key.keyId && Base64.Decode(key.keyId[|prefix|..]) == Some(secret[..8])
            && key.keyId + "." <= key.fullKey && Base64.Decode(key.fullKey[|key.keyId| + 1..]) == Some(secret[8..])
  {
    var key := GenerateKey(prefix, secret);
    Base64.DecodeEncode(secret[..8]);
    Base64.DecodeEncode(secret[8..]);
    assert key.keyId[|prefix|..] == Base64.Encode(secret[..8]);
    assert key.fullKey[|key.keyId| + 1..] == Base64.Encode(secret[8..]);
  }

  /** Different random bytes give different keys, and the key id alone does not tell them apart. */
  lemma KeysDiffer(prefix: string, secret: seq<byte>, other: seq<byte>)
    requires |secret| == 32 && |other| == 32
    ensures GenerateKey(prefix, secret).fullKey == GenerateKey(prefix, other).fullKey <==> secret == other
    ensures GenerateKey(prefix, secret).keyId == GenerateKey(prefix, other).keyId <==> secret[..8] == other[..8]
  {
    KeyParts(prefix, secret);
    KeyParts(prefix, other);
    var key, key' := GenerateKey(prefix, secret), GenerateKey(prefix, other);
    assert |key.keyId| == |key'.keyId|;
    if key.fullKey == key'.fullKey {
      assert key.keyId == key.fullKey[..|key.keyId|] && key'.keyId == key'.fullKey[..|key'.keyId|];
      assert secret == secret[..8] + secret[8..] && other == other[..8] + other[8..];
    }
  }

  /** A legacy token is the prefix, the forty random bytes and their checksum; different bytes give different tokens. */
  lemma TokenParts(keccak: Digest, crc: seq<byte> -> seq<byte>, prefix: string, random: seq<byte>)
    requires |random| == 40 && |crc(random)| == 4
    ensures var text := GenerateToken(keccak, crc, prefix, random).plaintext;
            && prefix <= text && Base64.Decode(text[|prefix|..]) == Some(random + crc(random))
  {
    var text := GenerateToken(keccak, crc, prefix, random).plaintext;
    Base64.DecodeEncode(random + crc(random));
    assert text[|prefix|..] == Base64.Encode(random + crc(random));
  }

  /** Nothing but a key with the same digest and the same id validates against a stored key. */
  lemma ValidatesOnly(keccak: Digest, key: GeneratedKey, presented: string)
    requires ValidatesKey(keccak, key.keyId, StoredHash(keccak, key.fullKey), presented)
    ensures keccak(presented) == keccak(key.fullKey)
    ensures SplitOnce(presented, '.').value.0 == key.keyId
  {
    Base64.EncodeInjective(keccak(presented), keccak(key.fullKey));
  }

  /** Printing then parsing a legacy token gives it back exactly when it fits the format's limits. */
  lemma PrintedTokenParses(t: ApiToken)
    ensures ParseApiToken(PrintToken(t)) == Ok(t) <==>
            t.token != "" && '|' !in t.token && |PrintNat(t.id)| + 1 + Utf8Len(t.token) <= 512
  {
    var id, s := PrintNat(t.id), PrintToken(t);
    DigitsAreAscii(id);
    assert s == id + (['|'] + t.token) == id + ['|'] + t.token;
    Utf8LenConcat(id, ['|'] + t.token);
    Utf8LenConcat(['|'], t.token);
    Utf8LenAscii(id);
    Utf8LenAscii(['|']);
    CountConcat(id, ['|'] + t.token, '|');
    CountConcat(['|'], t.token, '|');
    CountZero(id, '|');
    CountZero(t.token, '|');
    SplitOnceAt(id, '|', t.token);
    ParsePrint(t.id);
  }

  lemma DigitsAreAscii(s: string)
    requires AllDigits(s)
    ensures IsAscii(s) && '|' !in s && '.' !in s
  {
    forall c | c in s ensures IsDigit(c) {}
  }

  /** A legacy plaintext is recognised as its own id and token, and that token matches the stored hash. */
  predicate TokenUsable(keccak: Digest, token: GeneratedToken, id: u64)
  {
    && ParseAuthToken(Plaintext(token, id)) == Ok(Legacy(ApiToken(id, token.plaintext)))
    && TokenIs(keccak, token.hash, token.plaintext)
  }

  /** Exactly the bar-free prefixes short enough for the 512-byte limit give usable legacy tokens. */
  lemma GeneratedTokenUsable(keccak: Digest, crc: seq<byte> -> seq<byte>, prefix: string, random: seq<byte>, id: u64)
    requires |random| == 40 && |crc(random)| == 4
    ensures TokenUsable(keccak, GenerateToken(keccak, crc, prefix, random), id) <==>
            '|' !in prefix && |PrintNat(id)| + Utf8Len(prefix) + 60 <= 512
  {
    var token := GenerateToken(keccak, crc, prefix, random);
    var tail := Base64.Encode(random + crc(random));
    EncodedHas(random + crc(random));
    Utf8LenConcat(prefix, tail);
    Utf8LenAscii(tail);
    PrintedTokenParses(ApiToken(id, token.plaintext));
    var s := Plaintext(token, id);
    assert s[|PrintNat(id)|] == '|';
    assert s[0] == PrintNat(id)[0] && IsDigit(s[0]);
    assert "v4.local."[0] == 'v';
  }
}
