/**
 Validation and privacy protection of the headers a credential carries
 (crates/auth/src/validation.rs). Unicode lower-casing and the user-id digest are parameters.
 */
module HeaderValidation {
  import opened Options
  import opened Ordering
  import opened Text

  type Headers = map<string, string>

  const MAX_HEADERS: nat := 8
  const MAX_HEADER_NAME_LEN: nat := 256
  const MAX_HEADER_VALUE_LEN: nat := 512

  /** Hop-by-hop headers that must not be forwarded. */
  const FORBIDDEN_HEADERS: set<string> :=
    {"connection", "keep-alive", "proxy-authenticate", "proxy-authorization", "te", "trailer",
     "transfer-encoding", "upgrade", "host", "content-length"}

  /** What validation consults: the lower-casing of names, and the names refused. */
  datatype Rules = Rules(lower: string -> string, forbidden: set<string>)

  function StandardRules(lower: string -> string): Rules
  {
    Rules(lower, FORBIDDEN_HEADERS)
  }

  datatype ValidationError =
    | TooManyHeaders(max: nat, provided: nat)
    | ForbiddenHeader(header: string)
    | HeaderNameTooLong(header: string, max: nat)
    | HeaderValueTooLong(header: string, max: nat)
    | InvalidHeaderName(header: string)
    | InvalidHeaderValue(header: string, value: string)

  predicate NameChar(c: char)
  {
    'a' <= c <= 'z' || 'A' <= c <= 'Z' || '0' <= c <= '9' || c == '-' || c == '_'
  }

  predicate ValidName(name: string)
  {
    name != "" && forall i :: 0 <= i < |name| ==> NameChar(name[i])
  }

  predicate ValueChar(c: char)
  {
    32 as char <= c < 127 as char || c == '\t'
  }

  predicate ValidValue(value: string)
  {
    forall i :: 0 <= i < |value| ==> ValueChar(value[i])
  }

  /** A lower-casing that does to ASCII strings what Unicode prescribes. */
  ghost predicate FoldsAscii(rules: Rules)
  {
    forall s :: IsAscii(s) ==> rules.lower(s) == Lower(s)
  }

  /** The checks on one entry, in the order they are made. */
  function CheckEntry(rules: Rules, name: string, value: string): Option<ValidationError>
  {
    if rules.lower(name) in rules.forbidden then Some(ForbiddenHeader(name))
    else if Utf8Len(name) > MAX_HEADER_NAME_LEN then Some(HeaderNameTooLong(name, MAX_HEADER_NAME_LEN))
    else if Utf8Len(value) > MAX_HEADER_VALUE_LEN then Some(HeaderValueTooLong(name, MAX_HEADER_VALUE_LEN))
    else if !ValidName(name) then Some(InvalidHeaderName(name))
    else if !ValidValue(value) then Some(InvalidHeaderValue(name, value))
    else None
  }

  /** The entries processed in the given order: the first error, or the folded map so far. */
  ghost function Process(rules: Rules, headers: Headers, names: seq<string>): Result<Headers, ValidationError>
    requires forall n :: n in names ==> n in headers
  {
    if names == [] then Ok(map[])
    else
      var last := names[|names| - 1];
      match Process(rules, headers, names[..|names| - 1])
      case Err(e) => Err(e)
      case Ok(done) =>
        match CheckEntry(rules, last, headers[last])
        case Some(e) => Err(e)
        case None => Ok(done[rules.lower(last) := headers[last]])
  }

  /** What `validate_headers` answers. */
  ghost function Validate(rules: Rules, headers: Headers): Result<Headers, ValidationError>
  {
    Limited(Process(rules, headers, Sorted(headers.Keys)))
  }

  method ValidateHeaders(rules: Rules, headers: Headers) returns (r: Result<Headers, ValidationError>)
    ensures r == Validate(rules, headers)
  {
    var names := Traverse(headers.Keys);
    r := ValidateInOrder(rules, headers, names);
  }

  ghost function Limited(r: Result<Headers, ValidationError>): Result<Headers, ValidationError>
  {
    match r
    case Err(e) => Err(e)
    case Ok(done) => if |done| > MAX_HEADERS then Err(TooManyHeaders(MAX_HEADERS, |done|)) else Ok(done)
  }

  /** The loop over the entries in traversal order, and the final count. */
  method ValidateInOrder(rules: Rules, headers: Headers, names: seq<string>) returns (r: Result<Headers, ValidationError>)
    requires forall n :: n in names ==> n in headers
    ensures r == Limited(Process(rules, headers, names))
  {
    var validated: Headers := map[];
    for i := 0 to |names|
      invariant Process(rules, headers, names[..i]) == Ok(validated)
    {
      var name := names[i];
      assert names[..i + 1][..i] == names[..i];
      match CheckEntry(rules, name, headers[name]) {
        case Some(e) =>
          ProcessStops(rules, headers, names, i + 1);
          return Err(e);
        case None =>
          validated := validated[rules.lower(name) := headers[name]];
      }
    }
    assert names[..|names|] == names;
    return if |validated| > MAX_HEADERS then Err(TooManyHeaders(MAX_HEADERS, |validated|)) else Ok(validated);
  }

  lemma {:induction false} ProcessStops(rules: Rules, headers: Headers, names: seq<string>, i: nat)
    requires forall n :: n in names ==> n in headers
    requires i <= |names| && Process(rules, headers, names[..i]).Err?
    ensures Process(rules, headers, names) == Process(rules, headers, names[..i])
    decreases |names|
  {
    if i == |names| {
      assert names[..i] == names;
    } else {
      var front := names[..|names| - 1];
      assert front[..i] == names[..i];
      ProcessStops(rules, headers, front, i);
    }
  }

  // ---- the answer, said without an order of processing ----

  /** An entry that may be stored. */
  predicate EntryOk(rules: Rules, name: string, value: string)
  {
    && ValidName(name) && ValidValue(value)
    && |name| <= MAX_HEADER_NAME_LEN && |value| <= MAX_HEADER_VALUE_LEN
    && Lower(name) !in rules.forbidden
  }

  ghost predicate AllEntriesOk(rules: Rules, headers: Headers)
  {
    forall n :: n in headers ==> EntryOk(rules, n, headers[n])
  }

  /** The names of `headers` that fold to `f`. */
  ghost function Spellings(headers: Headers, f: string): set<string>
  {
    set n | n in headers && Lower(n) == f
  }

  ghost function FoldedNames(headers: Headers): set<string>
  {
    set n | n in headers :: Lower(n)
  }

  lemma EntryCheck(rules: Rules, name: string, value: string)
    requires FoldsAscii(rules)
    ensures CheckEntry(rules, name, value).None? <==> EntryOk(rules, name, value)
    ensures EntryOk(rules, name, value) ==> rules.lower(name) == Lower(name)
  {
    if ValidName(name) {
      assert IsAscii(name);
      Utf8LenAscii(name);
    }
    if ValidValue(value) {
      assert IsAscii(value);
      Utf8LenAscii(value);
    }
  }

  /** Insertions under the folded names, in the given order. */
  ghost function Fold(headers: Headers, names: seq<string>): Headers
    requires forall n :: n in names ==> n in headers
  {
    if names == [] then map[]
    else
      var last := names[|names| - 1];
      Fold(headers, names[..|names| - 1])[Lower(last) := headers[last]]
  }

  lemma {:induction false} ProcessFolds(rules: Rules, headers: Headers, names: seq<string>)
    requires FoldsAscii(rules) && AllEntriesOk(rules, headers)
    requires forall n :: n in names ==> n in headers
    ensures Process(rules, headers, names) == Ok(Fold(headers, names))
  {
    if names != [] {
      var last := names[|names| - 1];
      ProcessFolds(rules, headers, names[..|names| - 1]);
      EntryCheck(rules, last, headers[last]);
    }
  }

  /** After the insertions a folded name holds the value of its last spelling, at index i, if it has one. */
  lemma {:induction false} FoldKeepsLast(headers: Headers, names: seq<string>, f: string) returns (i: int)
    requires forall n :: n in names ==> n in headers
    ensures -1 <= i < |names|
    ensures f in Fold(headers, names) <==> i >= 0
    ensures i >= 0 ==> Lower(names[i]) == f && Fold(headers, names)[f] == headers[names[i]]
    ensures forall j :: i < j < |names| ==> Lower(names[j]) != f
  {
    if names == [] {
      i := -1;
    } else if Lower(names[|names| - 1]) == f {
      i := |names| - 1;
    } else {
      i := FoldKeepsLast(headers, names[..|names| - 1], f);
    }
  }

  /** The folded map of all headers: greatest spellings, one entry for each folded name. */
  lemma FoldAll(headers: Headers, names: seq<string>, f: string)
    requires Lists(names, headers.Keys)
    ensures f in Fold(headers, names) <==> f in FoldedNames(headers)
    ensures f in FoldedNames(headers) ==>
              exists n :: IsGreatest(n, Spellings(headers, f)) && Fold(headers, names)[f] == headers[n]
  {
    var i := FoldKeepsLast(headers, names, f);
    if i >= 0 {
      assert names[i] in headers.Keys;
      LastIsGreatest(names, headers.Keys, Spellings(headers, f), i);
    }
  }

  lemma FoldNames(headers: Headers, names: seq<string>)
    requires Lists(names, headers.Keys)
    ensures Fold(headers, names).Keys == FoldedNames(headers)
  {
    forall f ensures f in Fold(headers, names) <==> f in FoldedNames(headers) {
      FoldAll(headers, names, f);
    }
  }

  /** The checks of one entry come out in favour of every earlier entry. */
  ghost predicate FirstFailure(rules: Rules, headers: Headers, names: seq<string>, i: int, e: ValidationError)
    requires forall n :: n in names ==> n in headers
  {
    && 0 <= i < |names| && CheckEntry(rules, names[i], headers[names[i]]) == Some(e)
    && forall j :: 0 <= j < i ==> CheckEntry(rules, names[j], headers[names[j]]).None?
  }

  lemma {:induction false} ProcessFails(rules: Rules, headers: Headers, names: seq<string>, k: nat)
    requires forall n :: n in names ==> n in headers
    requires k < |names| && CheckEntry(rules, names[k], headers[names[k]]).Some?
    ensures Process(rules, headers, names).Err?
    ensures exists i :: FirstFailure(rules, headers, names, i, Process(rules, headers, names).error)
  {
    var n := |names| - 1;
    var front := names[..n];
    if j :| 0 <= j < n && CheckEntry(rules, names[j], headers[names[j]]).Some? {
      assert front[j] == names[j];
      ProcessFails(rules, headers, front, j);
      var i :| FirstFailure(rules, headers, front, i, Process(rules, headers, front).error);
      assert FirstFailure(rules, headers, names, i, Process(rules, headers, names).error);
    } else {
      ProcessPasses(rules, headers, front);
      assert FirstFailure(rules, headers, names, n, Process(rules, headers, names).error);
    }
  }

  lemma {:induction false} ProcessPasses(rules: Rules, headers: Headers, names: seq<string>)
    requires forall n :: n in names ==> n in headers
    requires forall i :: 0 <= i < |names| ==> CheckEntry(rules, names[i], headers[names[i]]).None?
    ensures Process(rules, headers, names).Ok?
  {
    if names != [] {
      ProcessPasses(rules, headers, names[..|names| - 1]);
    }
  }

  /** All entries acceptable: the answer is the folded map, or the count of folded names if above eight. */
  lemma ValidateGood(rules: Rules, headers: Headers) returns (names: seq<string>)
    requires FoldsAscii(rules) && AllEntriesOk(rules, headers)
    ensures Lists(names, headers.Keys)
    ensures Fold(headers, names).Keys == FoldedNames(headers)
    ensures Validate(rules, headers) ==
            if |FoldedNames(headers)| <= MAX_HEADERS then Ok(Fold(headers, names))
            else Err(TooManyHeaders(MAX_HEADERS, |FoldedNames(headers)|))
  {
    names := Sorted(headers.Keys);
    ProcessFolds(rules, headers, names);
    FoldNames(headers, names);
    assert |Fold(headers, names)| == |Fold(headers, names).Keys|;
  }

  /** Some entry unacceptable: the answer is the failure of the first such entry in byte order. */
  lemma ValidateBad(rules: Rules, headers: Headers, bad: string)
    requires FoldsAscii(rules) && bad in headers && !EntryOk(rules, bad, headers[bad])
    ensures Validate(rules, headers).Err?
    ensures exists i :: FirstFailure(rules, headers, Sorted(headers.Keys), i, Validate(rules, headers).error)
  {
    var names := Sorted(headers.Keys);
    assert bad in names;
    var k :| 0 <= k < |names| && names[k] == bad;
    EntryCheck(rules, bad, headers[bad]);
    ProcessFails(rules, headers, names, k);
  }

  /** Validation succeeds exactly on acceptable entries with at most eight folded names. */
  lemma ValidateSucceeds(rules: Rules, headers: Headers)
    requires FoldsAscii(rules)
    ensures Validate(rules, headers).Ok? <==> AllEntriesOk(rules, headers) && |FoldedNames(headers)| <= MAX_HEADERS
  {
    if AllEntriesOk(rules, headers) {
      var _ := ValidateGood(rules, headers);
    } else {
      var bad :| bad in headers && !EntryOk(rules, bad, headers[bad]);
      ValidateBad(rules, headers, bad);
    }
  }

  /** A header that may be stored with a credential, spelled out. */
  ghost predicate Storable(name: string, value: string)
  {
    && 1 <= |name| <= 256 && |value| <= 512
    && (forall c :: c in name ==> 'a' <= c <= 'z' || 'A' <= c <= 'Z' || '0' <= c <= '9' || c == '-' || c == '_')
    && (forall c :: c in value ==> c == '\t' || ' ' <= c <= '~')
    && Lower(name) !in ["connection", "keep-alive", "proxy-authenticate", "proxy-authorization", "te", "trailer",
                        "transfer-encoding", "upgrade", "host", "content-length"]
  }

  lemma StorableName(name: string)
    ensures ValidName(name) <==>
            name != "" && forall c :: c in name ==> 'a' <= c <= 'z' || 'A' <= c <= 'Z' || '0' <= c <= '9' || c == '-' || c == '_'
  {
    forall i | 0 <= i < |name| ensures name[i] in name {}
    forall c | c in name && ValidName(name) ensures NameChar(c) {}
  }

  lemma StorableValue(value: string)
    ensures ValidValue(value) <==> forall c :: c in value ==> c == '\t' || ' ' <= c <= '~'
  {
    forall i | 0 <= i < |value| ensures value[i] in value {}
    forall c | c in value && ValidValue(value) ensures ValueChar(c) {}
  }

  lemma StandardForbidden(f: string)
    ensures f in FORBIDDEN_HEADERS <==>
            f in ["connection", "keep-alive", "proxy-authenticate", "proxy-authorization", "te", "trailer",
                  "transfer-encoding", "upgrade", "host", "content-length"]
  {}

  lemma StorableIff(lower: string -> string, name: string, value: string)
    ensures EntryOk(StandardRules(lower), name, value) <==> Storable(name, value)
  {
    StorableName(name);
    StorableValue(value);
    StandardForbidden(Lower(name));
  }

  /** With the proxy's own rules, exactly up to eight distinct storable headers validate. */
  lemma ValidateStandardIff(lower: string -> string, headers: Headers)
    requires FoldsAscii(StandardRules(lower))
    ensures Validate(StandardRules(lower), headers).Ok? <==>
            (forall n :: n in headers ==> Storable(n, headers[n])) && |FoldedNames(headers)| <= 8
  {
    ValidateSucceeds(StandardRules(lower), headers);
    forall n | n in headers ensures EntryOk(StandardRules(lower), n, headers[n]) <==> Storable(n, headers[n]) {
      StorableIff(lower, n, headers[n]);
    }
  }

  /** Each folded name, and no other, keeps the value of its greatest spelling. */
  lemma ValidatedValues(rules: Rules, headers: Headers, f: string)
    requires FoldsAscii(rules) && Validate(rules, headers).Ok?
    ensures f in Validate(rules, headers).value <==> f in FoldedNames(headers)
    ensures f in FoldedNames(headers) ==>
              exists n :: IsGreatest(n, Spellings(headers, f)) && Validate(rules, headers).value[f] == headers[n]
  {
    ValidateSucceeds(rules, headers);
    var names := ValidateGood(rules, headers);
    FoldAll(headers, names, f);
  }

  /** When an all-lower-case spelling is present, its value is the one kept. */
  lemma LowerCaseWins(rules: Rules, headers: Headers, f: string)
    requires FoldsAscii(rules) && Validate(rules, headers).Ok?
    requires f in headers && Lower(f) == f
    ensures f in Validate(rules, headers).value && Validate(rules, headers).value[f] == headers[f]
  {
    forall n | n in Spellings(headers, f) ensures n == f || Precedes(n, f) {
      PointwisePrecedes(n, f);
    }
    ValidatedValues(rules, headers, f);
    assert f in FoldedNames(headers);
    var n :| IsGreatest(n, Spellings(headers, f)) && Validate(rules, headers).value[f] == headers[n];
    GreatestUnique(n, f, Spellings(headers, f));
  }

  /** Headers that validation would return unchanged: folded, acceptable and few enough. */
  ghost predicate Canonical(rules: Rules, headers: Headers)
  {
    && AllEntriesOk(rules, headers)
    && |headers.Keys| <= MAX_HEADERS
    && forall n :: n in headers ==> Lower(n) == n
  }

  lemma ValidatedCanonical(rules: Rules, headers: Headers)
    requires FoldsAscii(rules) && Validate(rules, headers).Ok?
    ensures Canonical(rules, Validate(rules, headers).value)
  {
    var r := Validate(rules, headers).value;
    ValidateSucceeds(rules, headers);
    var names := ValidateGood(rules, headers);
    forall f | f in r ensures EntryOk(rules, f, r[f]) && Lower(f) == f {
      FoldAll(headers, names, f);
      var n :| IsGreatest(n, Spellings(headers, f)) && r[f] == headers[n];
      LowerIdempotent(n);
      FoldedNameOk(rules, n, headers[n]);
    }
  }

  lemma FoldedNameOk(rules: Rules, name: string, value: string)
    requires EntryOk(rules, name, value)
    ensures EntryOk(rules, Lower(name), value)
  {
    LowerIdempotent(name);
    forall i | 0 <= i < |name| ensures NameChar(Lower(name)[i]) {
      assert NameChar(name[i]);
    }
  }

  lemma CanonicalNames(rules: Rules, headers: Headers)
    requires Canonical(rules, headers)
    ensures FoldedNames(headers) == headers.Keys
  {
    forall f ensures f in FoldedNames(headers) <==> f in headers {
      if f in headers { assert Lower(f) == f; }
    }
  }

  /** Validation leaves canonical headers alone. */
  lemma ValidateCanonical(rules: Rules, headers: Headers)
    requires FoldsAscii(rules) && Canonical(rules, headers)
    ensures Validate(rules, headers) == Ok(headers)
  {
    CanonicalNames(rules, headers);
    ValidateSucceeds(rules, headers);
    SameNames(rules, headers);
    var v := Validate(rules, headers).value;
    forall f | f in v ensures v[f] == headers[f] {
      LowerCaseWins(rules, headers, f);
    }
    assert v == headers;
  }

  lemma SameNames(rules: Rules, headers: Headers)
    requires FoldsAscii(rules) && Validate(rules, headers).Ok?
    ensures Validate(rules, headers).value.Keys == FoldedNames(headers)
  {
    forall f ensures f in Validate(rules, headers).value <==> f in FoldedNames(headers) {
      ValidatedValues(rules, headers, f);
    }
  }

  /** Validating twice is validating once. */
  lemma Revalidate(rules: Rules, headers: Headers)
    requires FoldsAscii(rules) && Validate(rules, headers).Ok?
    ensures Validate(rules, Validate(rules, headers).value) == Validate(rules, headers)
  {
    ValidatedCanonical(rules, headers);
    ValidateCanonical(rules, Validate(rules, headers).value);
  }

  // ---- protection of personal data ----

  predicate IsHexDigit(c: char)
  {
    '0' <= c <= '9' || 'a' <= c <= 'f' || 'A' <= c <= 'F'
  }

  predicate LooksHashed(value: string)
  {
    Utf8Len(value) == 32 && forall i :: 0 <= i < |value| ==> IsHexDigit(value[i])
  }

  /** The digest prints 16 bytes in hexadecimal. */
  ghost predicate HashesToHex(hash: string -> string)
  {
    forall v :: |hash(v)| == 32 && forall i :: 0 <= i < 32 ==> IsHexDigit(hash(v)[i])
  }

  predicate IsPersonal(name: string)
  {
    name in {"x-user-id", "x-user-email", "x-customer-email"}
  }

  function ProtectedValue(hash: string -> string, name: string, value: string): string
  {
    if IsPersonal(name) then hash(value)
    else if name == "x-tenant-id" then
      if '@' in value then hash(value)
      else if LooksHashed(value) then value
      else hash(value)
    else value
  }

  function MapValues(f: (string, string) -> string, headers: Headers): Headers
  {
    map n | n in headers :: f(n, headers[n])
  }

  function Protect(hash: string -> string, headers: Headers): Headers
  {
    MapValues((n, v) => ProtectedValue(hash, n, v), headers)
  }

  method ProtectHeaders(hash: string -> string, headers: Headers) returns (processed: Headers)
    ensures processed == Protect(hash, headers)
    ensures HashesToHex(hash) ==>
              processed.Keys == headers.Keys && forall n :: n in headers ==> Shields(hash, n, headers[n], processed[n])
  {
    var names := Traverse(headers.Keys);
    processed := RebuildWith((n, v) => ProtectedValue(hash, n, v), headers, names);
    if HashesToHex(hash) {
      forall n | n in headers ensures Shields(hash, n, headers[n], processed[n]) {
        ProtectShields(hash, headers, n);
      }
    }
  }

  /** Rebuilds a map entry by entry, each value replaced. */
  method RebuildWith(f: (string, string) -> string, headers: Headers, names: seq<string>) returns (processed: Headers)
    requires Lists(names, headers.Keys)
    ensures processed == MapValues(f, headers)
  {
    processed := map[];
    for i := 0 to |names|
      invariant forall n :: n in processed <==> n in names[..i]
      invariant forall n :: n in processed ==> n in headers && processed[n] == f(n, headers[n])
    {
      assert names[..i + 1] == names[..i] + [names[i]];
      processed := processed[names[i] := f(names[i], headers[names[i]])];
    }
    assert names[..|names|] == names;
  }

  lemma HashLooksHashed(hash: string -> string, v: string)
    requires HashesToHex(hash)
    ensures LooksHashed(hash(v)) && '@' !in hash(v) && ValidValue(hash(v))
  {
    var h := hash(v);
    assert IsAscii(h);
    Utf8LenAscii(h);
  }

  /** Thirty-two hexadecimal digits. */
  predicate IsDigest(value: string)
  {
    |value| == 32 && forall c :: c in value ==> c in "0123456789abcdefABCDEF"
  }

  /** What the protection of a header must make of its value. */
  ghost predicate Shields(hash: string -> string, name: string, value: string, shielded: string)
  {
    if name == "x-user-id" || name == "x-user-email" || name == "x-customer-email" then
      shielded == hash(value) && IsDigest(shielded)
    else if name == "x-tenant-id" then
      && IsDigest(shielded)
      && (if IsDigest(value) then shielded == value else shielded == hash(value))
    else shielded == value
  }

  lemma HexDigits(value: string)
    ensures IsDigest(value) <==> |value| == 32 && forall i :: 0 <= i < |value| ==> IsHexDigit(value[i])
  {
    assert forall c: char :: c in "0123456789abcdefABCDEF" <==> IsHexDigit(c);
  }

  lemma LooksHashedIff(value: string)
    ensures LooksHashed(value) <==> IsDigest(value)
  {
    HexDigits(value);
    if forall i :: 0 <= i < |value| ==> IsHexDigit(value[i]) {
      Utf8LenAscii(value);
    }
  }

  /** Every entry of the protected map is shielded, and every entry of the map has one. */
  lemma ProtectShields(hash: string -> string, headers: Headers, n: string)
    requires HashesToHex(hash)
    ensures n in Protect(hash, headers) <==> n in headers
    ensures n in headers ==> Shields(hash, n, headers[n], Protect(hash, headers)[n])
  {
    if n in headers {
      var v := headers[n];
      HashLooksHashed(hash, v);
      LooksHashedIff(hash(v));
      LooksHashedIff(v);
      if '@' in v { assert !IsDigest(v); }
    }
  }

  /** Under the tenant name the value stays itself exactly when it already is a digest or its own hash. */
  lemma TenantKeptIff(hash: string -> string, headers: Headers)
    requires HashesToHex(hash) && "x-tenant-id" in headers
    ensures var v := headers["x-tenant-id"];
            Protect(hash, headers)["x-tenant-id"] == v <==> IsDigest(v) || hash(v) == v
  {
    ProtectShields(hash, headers, "x-tenant-id");
  }

  /** A protected value is protected once more only if it is a personal one. */
  lemma ProtectedValueTwice(hash: string -> string, name: string, value: string)
    requires HashesToHex(hash)
    ensures var once := ProtectedValue(hash, name, value);
            ProtectedValue(hash, name, once) == if IsPersonal(name) then hash(hash(value)) else once
  {
    HashLooksHashed(hash, value);
  }

  /** A second pass is a no-op exactly when it does not re-hash a personal value to something else. */
  lemma ProtectTwice(hash: string -> string, headers: Headers)
    requires HashesToHex(hash)
    ensures Protect(hash, Protect(hash, headers)) == Protect(hash, headers) <==>
            forall n :: n in headers && IsPersonal(n) ==> hash(hash(headers[n])) == hash(headers[n])
    ensures forall n :: n in headers && !IsPersonal(n) ==>
              Protect(hash, Protect(hash, headers))[n] == Protect(hash, headers)[n]
  {
    var once := Protect(hash, headers);
    var twice := Protect(hash, once);
    forall n | n in headers ensures twice[n] == if IsPersonal(n) then hash(hash(headers[n])) else once[n] {
      ProtectedValueTwice(hash, n, headers[n]);
    }
  }

  /** With a digest that moves its own outputs, a second pass is a no-op exactly when no personal header is present. */
  lemma ProtectTwiceIff(hash: string -> string, headers: Headers)
    requires HashesToHex(hash) && forall v :: hash(hash(v)) != hash(v)
    ensures Protect(hash, Protect(hash, headers)) == Protect(hash, headers) <==> forall n :: n in headers ==> !IsPersonal(n)
  {
    ProtectTwice(hash, headers);
  }

  lemma ProtectCanonical(rules: Rules, hash: string -> string, v: Headers)
    requires HashesToHex(hash) && Canonical(rules, v)
    ensures Canonical(rules, Protect(hash, v))
  {
    var stored := Protect(hash, v);
    assert stored.Keys == v.Keys;
    forall n | n in stored ensures EntryOk(rules, n, stored[n]) {
      assert EntryOk(rules, n, v[n]);
      HashLooksHashed(hash, v[n]);
    }
  }

  /** What is stored with a key always re-validates unchanged. */
  lemma ProtectedRevalidates(rules: Rules, hash: string -> string, headers: Headers)
    requires FoldsAscii(rules) && HashesToHex(hash) && Validate(rules, headers).Ok?
    ensures var stored := Protect(hash, Validate(rules, headers).value); Validate(rules, stored) == Ok(stored)
  {
    var v := Validate(rules, headers).value;
    ValidatedCanonical(rules, headers);
    ProtectCanonical(rules, hash, v);
    ValidateCanonical(rules, Protect(hash, v));
  }

  /** The headers of an exchanged access token: stored ones overridden by the request's, validated and protected. */
  ghost function Exchanged(rules: Rules, hash: string -> string, stored: Headers, extra: Headers)
    : Result<Headers, ValidationError>
  {
    match Validate(rules, stored + extra)
    case Err(e) => Err(e)
    case Ok(v) => Ok(Protect(hash, v))
  }

  /**
   An exchange passes every stored header on under its name unless the caller overrides it: with its stored
   value, or, for a personal header, with the digest of the stored digest.
   */
  lemma ExchangeKeeps(rules: Rules, hash: string -> string, issued: Headers, extra: Headers, name: string)
    requires FoldsAscii(rules) && HashesToHex(hash)
    requires name in issued && Lower(name) == name && name !in extra
    requires Exchanged(rules, hash, Protect(hash, issued), extra).Ok?
    ensures var stored := Protect(hash, issued);
            var out := Exchanged(rules, hash, stored, extra).value;
            name in out && out[name] == if IsPersonal(name) then hash(hash(issued[name])) else stored[name]
  {
    var merged := Protect(hash, issued) + extra;
    LowerCaseWins(rules, merged, name);
    ProtectedValueTwice(hash, name, issued[name]);
  }
}
