/**
 The header work of the reverse proxy: clients' authentication headers are stripped and the headers
 a credential carries are injected (crates/auth/src/proxy.rs). A header map has lower-case names and
 lists of values. The HTTP library's checks of names and values are parameters.
 */
module HeaderPipeline {
  import opened HeaderValidation
  import opened Options
  import opened Ordering
  import opened Text

  type HeaderMap = map<string, seq<string>>

  /** The HTTP library: which names and values it accepts, and the size limit for binary metadata. */
  datatype Http = Http(validName: string -> bool, validValue: string -> bool, maxBinary: nat)

  predicate EndsWith(s: string, suffix: string)
  {
    |suffix| <= |s| && s[|s| - |suffix|..] == suffix
  }

  // ---- classes of header names, all on lower-case names ----

  predicate IsForbidden(name: string)
  {
    name in {"host", "content-length", "transfer-encoding", "connection", "upgrade", "proxy-authorization",
             "proxy-authenticate", "x-forwarded-host", "x-real-ip", "x-forwarded-for", "x-forwarded-proto", "forwarded"}
  }

  predicate IsTenant(name: string)
  {
    "x-tenant-" <= name
  }

  predicate IsScope(name: string)
  {
    name == "x-scope" || name == "x-scopes"
  }

  predicate IsAuth(name: string)
  {
    name == "authorization" || IsTenant(name) || IsScope(name)
  }

  predicate IsGrpcRequired(name: string)
  {
    name in {"content-type", "te", "grpc-encoding", "grpc-accept-encoding"}
  }

  predicate IsInjectable(name: string)
  {
    IsTenant(name) || IsScope(name) || name in {"x-request-id", "x-trace-id", "user-agent"} || "grpc-" <= name
  }

  predicate Base64Char(c: char)
  {
    'a' <= c <= 'z' || 'A' <= c <= 'Z' || '0' <= c <= '9' || c in "+/=-_"
  }

  predicate ValidBinary(http: Http, name: string, value: string)
  {
    EndsWith(name, "-bin") && Utf8Len(value) <= http.maxBinary && forall c :: c in value ==> Base64Char(c)
  }

  /** The header is one that must come from the credential or not at all. */
  predicate IsGuarded(name: string)
  {
    IsAuth(name) || IsForbidden(name)
  }

  predicate Strips(grpc: bool, name: string)
  {
    IsGuarded(name) && !(grpc && IsGrpcRequired(name))
  }

  predicate Allowed(grpc: bool, name: string)
  {
    || !IsAuth(name)
    || (grpc && IsGrpcRequired(name))
    || IsTenant(name)
    || IsScope(name)
    || (grpc && IsInjectable(name))
  }

  /** A credential's header passes every check on its way into the request. */
  predicate Accepts(http: Http, grpc: bool, name: string, value: string)
  {
    var lower := Lower(name);
    && !IsForbidden(lower)
    && Allowed(grpc, lower)
    && http.validName(name)
    && http.validValue(value)
    && (grpc && EndsWith(lower, "-bin") ==> ValidBinary(http, lower, value))
    && '\r' !in value && '\n' !in value
  }

  // ---- what stripping and injecting compute ----

  function Stripped(strips: string -> bool, headers: HeaderMap): HeaderMap
  {
    map n | n in headers && !strips(n) :: headers[n]
  }

  /** Insertions of the accepted headers in the given order; an insertion replaces all values of its name. */
  function Injected(accepts: (string, string) -> bool, headers: HeaderMap, extra: Headers, names: seq<string>): HeaderMap
    requires forall n :: n in names ==> n in extra
  {
    if names == [] then headers
    else
      var last := names[|names| - 1];
      var before := Injected(accepts, headers, extra, names[..|names| - 1]);
      if accepts(last, extra[last]) then before[Lower(last) := [extra[last]]] else before
  }

  ghost function Forwarded(http: Http, grpc: bool, inbound: HeaderMap, extra: Headers): HeaderMap
  {
    Injected((n, v) => Accepts(http, grpc, n, v), Stripped(n => Strips(grpc, n), inbound), extra, Sorted(extra.Keys))
  }

  // ---- the mode of a request ----

  /** The first value of a header, if it is plain text. */
  function FirstText(headers: HeaderMap, name: string): Option<string>
  {
    if name in headers && headers[name] != [] && ValidValue(headers[name][0]) then Some(headers[name][0]) else None
  }

  /** gRPC is recognised by two of the client's own headers and the protocol version. */
  predicate IsGrpcRequest(inbound: HeaderMap, http2: bool)
  {
    var contentType, te := FirstText(inbound, "content-type"), FirstText(inbound, "te");
    && contentType.Some? && "application/grpc" <= Lower(contentType.value)
    && te.Some? && Lower(te.value) == "trailers"
    && http2
  }

  /** What the upstream is sent for a request with these headers and this protocol version. */
  ghost function Proxied(http: Http, inbound: HeaderMap, http2: bool, extra: Headers): HeaderMap
  {
    Forwarded(http, IsGrpcRequest(inbound, http2), inbound, extra)
  }

  class Request {
    var headers: HeaderMap

    /** Collects the names to strip, then removes them. */
    method Sanitize(grpc: bool)
      modifies this
      ensures headers == Stripped(n => Strips(grpc, n), old(headers))
    {
      StripNames(n => Strips(grpc, n));
    }

    method StripNames(strips: string -> bool)
      modifies this
      ensures headers == Stripped(strips, old(headers))
    {
      var toRemove := NamesToStrip(strips);
      RemoveAll(toRemove);
    }

    method NamesToStrip(strips: string -> bool) returns (names: seq<string>)
      ensures forall n :: n in names <==> n in headers && strips(n)
    {
      names := [];
      var pending := headers.Keys;
      while pending != {}
        invariant pending <= headers.Keys
        invariant forall n :: n in names <==> n in headers && n !in pending && strips(n)
        decreases |pending|
      {
        var name :| name in pending;
        if strips(name) {
          names := names + [name];
        }
        pending := pending - {name};
      }
    }

    method RemoveAll(names: seq<string>)
      modifies this
      ensures headers == map n | n in old(headers) && n !in names :: old(headers)[n]
    {
      for i := 0 to |names|
        invariant headers == map n | n in old(headers) && n !in names[..i] :: old(headers)[n]
      {
        assert names[..i + 1] == names[..i] + [names[i]];
        headers := headers - {names[i]};
      }
      assert names[..|names|] == names;
    }

    /** Inserts the credential's headers in the order of their names. */
    method Apply(http: Http, grpc: bool, extra: Headers)
      modifies this
      ensures headers == Injected((n, v) => Accepts(http, grpc, n, v), old(headers), extra, Sorted(extra.Keys))
    {
      var names := Traverse(extra.Keys);
      InjectInOrder((n, v) => Accepts(http, grpc, n, v), extra, names);
    }

    method InjectInOrder(accepts: (string, string) -> bool, extra: Headers, names: seq<string>)
      requires forall n :: n in names ==> n in extra
      modifies this
      ensures headers == Injected(accepts, old(headers), extra, names)
    {
      for i := 0 to |names|
        invariant headers == Injected(accepts, old(headers), extra, names[..i])
      {
        assert names[..i + 1][..i] == names[..i];
        if accepts(names[i], extra[names[i]]) {
          headers := headers[Lower(names[i]) := [extra[names[i]]]];
        }
      }
      assert names[..|names|] == names;
    }

    /** Both, as the proxy does before forwarding. */
    method Forward(http: Http, grpc: bool, extra: Headers)
      modifies this
      ensures headers == Forwarded(http, grpc, old(headers), extra)
    {
      Sanitize(grpc);
      Apply(http, grpc, extra);
    }

    /** The whole treatment: the mode is read off the request before its headers change. */
    method Proxy(http: Http, http2: bool, extra: Headers)
      modifies this
      ensures headers == Proxied(http, old(headers), http2, extra)
    {
      var grpc := IsGrpcRequest(headers, http2);
      Forward(http, grpc, extra);
    }
  }

  // ---- the forwarded headers, name by name ----

  lemma {:induction false} InjectedAt(accepts: (string, string) -> bool, headers: HeaderMap, extra: Headers,
                                      names: seq<string>, f: string) returns (i: int)
    requires forall n :: n in names ==> n in extra
    ensures -1 <= i < |names|
    ensures i >= 0 ==> Lower(names[i]) == f && accepts(names[i], extra[names[i]])
    ensures forall j :: i < j < |names| && Lower(names[j]) == f ==> !accepts(names[j], extra[names[j]])
    ensures var r := Injected(accepts, headers, extra, names);
            if i >= 0 then f in r && r[f] == [extra[names[i]]]
            else (f in r <==> f in headers) && (f in headers ==> r[f] == headers[f])
  {
    if names == [] {
      i := -1;
    } else {
      var last := names[|names| - 1];
      if Lower(last) == f && accepts(last, extra[last]) {
        i := |names| - 1;
      } else {
        i := InjectedAt(accepts, headers, extra, names[..|names| - 1], f);
      }
    }
  }

  /** The spellings of `f` among the credential's headers that pass every check. */
  ghost function Accepted(accepts: (string, string) -> bool, extra: Headers, f: string): set<string>
  {
    set n | n in extra && Lower(n) == f && accepts(n, extra[n])
  }

  /** A header that passes is taken from its greatest spelling; any other name is as it was. */
  lemma InjectedValue(accepts: (string, string) -> bool, headers: HeaderMap, extra: Headers, names: seq<string>, f: string)
    requires Lists(names, extra.Keys)
    ensures var r := Injected(accepts, headers, extra, names);
            if Accepted(accepts, extra, f) == {} then
              (f in r <==> f in headers) && (f in headers ==> r[f] == headers[f])
            else
              exists n :: IsGreatest(n, Accepted(accepts, extra, f)) && f in r && r[f] == [extra[n]]
  {
    var i := InjectedAt(accepts, headers, extra, names, f);
    if i >= 0 {
      assert names[i] in extra.Keys;
      LastIsGreatest(names, extra.Keys, Accepted(accepts, extra, f), i);
    } else {
      forall n | n in extra && Lower(n) == f ensures !accepts(n, extra[n]) {
        assert n in names;
      }
    }
  }

  ghost function AcceptedFor(http: Http, grpc: bool, extra: Headers, f: string): set<string>
  {
    Accepted((n, v) => Accepts(http, grpc, n, v), extra, f)
  }

  /** Stripping spares no guarded name in either mode. */
  lemma StripsAllGuarded(grpc: bool, name: string)
    ensures Strips(grpc, name) <==> IsGuarded(name)
  {
    if IsGrpcRequired(name) {
      GrpcNotGuarded(name);
    }
  }

  lemma GrpcNotGuarded(name: string)
    requires IsGrpcRequired(name)
    ensures !IsGuarded(name)
  {
    assert name[0] == 'c' || name[0] == 't' || name[0] == 'g';
    assert |name| == 12 || |name| == 2 || |name| == 13 || |name| == 20;
    assert "content-length"[0] == 'c' && |"content-length"| == 14 && |"connection"| == 10;
    assert |"transfer-encoding"| == 17;
  }

  /** What the upstream sees under each name. */
  lemma ForwardedValue(http: Http, grpc: bool, inbound: HeaderMap, extra: Headers, f: string)
    ensures var out := Forwarded(http, grpc, inbound, extra);
            if AcceptedFor(http, grpc, extra, f) != {} then
              exists n :: IsGreatest(n, AcceptedFor(http, grpc, extra, f)) && f in out && out[f] == [extra[n]]
            else if f in inbound && !IsGuarded(f) then f in out && out[f] == inbound[f]
            else f !in out
  {
    StripsAllGuarded(grpc, f);
    InjectedValue((n, v) => Accepts(http, grpc, n, v), Stripped(n => Strips(grpc, n), inbound), extra, Sorted(extra.Keys), f);
  }

  /** The two header maps agree on the name. */
  ghost predicate SameAt(out: HeaderMap, out': HeaderMap, f: string)
  {
    (f in out <==> f in out') && (f in out ==> out[f] == out'[f])
  }

  /** Within one mode guarded headers depend on the credential alone: two inbound requests give the same ones. */
  lemma GuardedSameMode(http: Http, grpc: bool, inbound: HeaderMap, other: HeaderMap, extra: Headers, f: string)
    requires IsGuarded(f)
    ensures SameAt(Forwarded(http, grpc, inbound, extra), Forwarded(http, grpc, other, extra), f)
  {
    ForwardedValue(http, grpc, inbound, extra, f);
    ForwardedValue(http, grpc, other, extra, f);
    var s := AcceptedFor(http, grpc, extra, f);
    if s != {} {
      var out, out' := Forwarded(http, grpc, inbound, extra), Forwarded(http, grpc, other, extra);
      var n :| IsGreatest(n, s) && out[f] == [extra[n]];
      var n' :| IsGreatest(n', s) && out'[f] == [extra[n']];
      GreatestUnique(n, n', s);
    }
  }

  // ---- guarded headers across modes ----

  /** A value gRPC accepts as binary metadata, or a name that is none. */
  predicate PassesAsMetadata(http: Http, f: string, value: string)
  {
    EndsWith(f, "-bin") ==> ValidBinary(http, f, value)
  }

  lemma AllowedAlike(name: string)
    ensures Allowed(true, name) <==> Allowed(false, name)
  {
    if IsAuth(name) && !IsTenant(name) && !IsScope(name) {
      AuthorizationNotAllowed(true);
    }
  }

  /** gRPC accepts what plain HTTP accepts, less the malformed binary metadata. */
  lemma AcceptsInGrpc(http: Http, name: string, value: string)
    ensures Accepts(http, true, name, value) <==>
            Accepts(http, false, name, value) && PassesAsMetadata(http, Lower(name), value)
  {
    AllowedAlike(Lower(name));
  }

  /** The value plain HTTP would forward for the name passes as binary metadata. */
  ghost predicate WinnerPasses(http: Http, extra: Headers, f: string)
  {
    forall n :: IsGreatest(n, AcceptedFor(http, false, extra, f)) ==> PassesAsMetadata(http, f, extra[n])
  }

  /** Both modes then forward the same; otherwise they differ. */
  lemma ModesAgreeIff(http: Http, inbound: HeaderMap, other: HeaderMap, extra: Headers, f: string)
    requires IsGuarded(f)
    ensures SameAt(Forwarded(http, false, inbound, extra), Forwarded(http, true, other, extra), f) <==>
            WinnerPasses(http, extra, f)
  {
    var plain, grpc := AcceptedFor(http, false, extra, f), AcceptedFor(http, true, extra, f);
    ForwardedValue(http, false, inbound, extra, f);
    ForwardedValue(http, true, other, extra, f);
    forall n | n in extra && Lower(n) == f ensures n in grpc <==> n in plain && PassesAsMetadata(http, f, extra[n]) {
      AcceptsInGrpc(http, n, extra[n]);
    }
    if plain != {} {
      var out := Forwarded(http, false, inbound, extra);
      var n :| IsGreatest(n, plain) && out[f] == [extra[n]];
      forall n' | IsGreatest(n', plain) ensures n' == n { GreatestUnique(n, n', plain); }
      if n in grpc {
        forall n' | IsGreatest(n', grpc) ensures n' == n { GreatestUnique(n, n', grpc); }
      }
    }
  }

  /** Two requests with the same credential, of any mode, get the same value forwarded under the name. */
  ghost predicate ClientHasNoSay(http: Http, extra: Headers, f: string)
  {
    forall inbound, http2, other, http2' ::
      SameAt(Proxied(http, inbound, http2, extra), Proxied(http, other, http2', extra), f)
  }

  /**
   Under a guarded name the client has no say exactly when the value plain HTTP would forward passes as
   binary metadata: the client chooses the mode, and gRPC drops malformed binary metadata.
   */
  lemma GuardedIndependentIff(http: Http, extra: Headers, f: string)
    requires IsGuarded(f)
    ensures ClientHasNoSay(http, extra, f) <==> WinnerPasses(http, extra, f)
  {
    if WinnerPasses(http, extra, f) {
      forall inbound, http2, other, http2'
        ensures SameAt(Proxied(http, inbound, http2, extra), Proxied(http, other, http2', extra), f)
      {
        ProxiedAlike(http, inbound, http2, other, http2', extra, f);
      }
    } else {
      var grpc := GrpcHeaders();
      ModesAgreeIff(http, map[], grpc, extra, f);
      assert !SameAt(Proxied(http, map[], false, extra), Proxied(http, grpc, true, extra), f);
    }
  }

  lemma ProxiedAlike(http: Http, inbound: HeaderMap, http2: bool, other: HeaderMap, http2': bool, extra: Headers, f: string)
    requires IsGuarded(f) && WinnerPasses(http, extra, f)
    ensures SameAt(Proxied(http, inbound, http2, extra), Proxied(http, other, http2', extra), f)
  {
    var a, b := IsGrpcRequest(inbound, http2), IsGrpcRequest(other, http2');
    if a == b {
      GuardedSameMode(http, a, inbound, other, extra, f);
    } else if b {
      ModesAgreeIff(http, inbound, other, extra, f);
    } else {
      ModesAgreeIff(http, other, inbound, extra, f);
    }
  }

  /** The headers that make an HTTP/2 request a gRPC one. */
  lemma GrpcHeaders() returns (inbound: HeaderMap)
    ensures IsGrpcRequest(inbound, true)
  {
    var contentType, te := "application/grpc", "trailers";
    assert Lower(contentType) == contentType && Lower(te) == te;
    inbound := map["content-type" := [contentType], "te" := [te]];
    assert "content-type"[0] == 'c' && "te"[0] == 't';
    assert FirstText(inbound, "content-type") == Some(contentType) && FirstText(inbound, "te") == Some(te);
  }

  /** Under every guarded name that is not binary metadata the client has no say, whatever the credential. */
  lemma GuardedIndependent(http: Http, extra: Headers, f: string)
    requires IsGuarded(f) && !EndsWith(f, "-bin")
    ensures ClientHasNoSay(http, extra, f)
  {
    GuardedIndependentIff(http, extra, f);
  }

  /** Any credential with malformed binary metadata under a tenant name is one where the client has a say. */
  lemma MalformedMetadata(http: Http, f: string, value: string)
    requires IsTenant(f) && EndsWith(f, "-bin") && Lower(f) == f && !IsForbidden(f)
    requires http.validName(f) && http.validValue(value) && '\r' !in value && '\n' !in value
    requires !ValidBinary(http, f, value)
    ensures !ClientHasNoSay(http, map[f := value], f)
  {
    var extra: Headers := map[f := value];
    assert Accepts(http, false, f, value);
    assert AcceptedFor(http, false, extra, f) == {f};
    assert IsGreatest(f, AcceptedFor(http, false, extra, f));
    GuardedIndependentIff(http, extra, f);
  }

  const METADATA: string := "x-tenant-a-bin"

  lemma MetadataName()
    ensures IsTenant(METADATA) && EndsWith(METADATA, "-bin") && Lower(METADATA) == METADATA
    ensures ValidName(METADATA) && |METADATA| == 14 && METADATA[0] == 'x'
  {
    assert METADATA[10..] == "-bin";
  }

  lemma MetadataNotForbidden()
    ensures !IsForbidden(METADATA)
  {
    MetadataName();
    assert |"host"| == 4 && "content-length"[0] == 'c' && |"transfer-encoding"| == 17 && |"connection"| == 10;
    assert |"upgrade"| == 7 && |"proxy-authorization"| == 19 && |"proxy-authenticate"| == 18;
    assert |"x-forwarded-host"| == 16 && |"x-real-ip"| == 9 && |"x-forwarded-for"| == 15;
    assert |"x-forwarded-proto"| == 17 && |"forwarded"| == 9;
  }

  lemma MetadataStorable()
    ensures METADATA !in FORBIDDEN_HEADERS
  {
    MetadataName();
    assert |"connection"| == 10 && |"keep-alive"| == 10 && |"proxy-authenticate"| == 18 && |"proxy-authorization"| == 19;
    assert |"te"| == 2 && |"trailer"| == 7 && |"transfer-encoding"| == 17 && |"upgrade"| == 7 && |"host"| == 4;
    assert "content-length"[0] == 'c';
  }

  lemma SpaceNotBinary(http: Http)
    ensures ValidValue("a b") && !ValidBinary(http, METADATA, "a b") && '\r' !in "a b" && '\n' !in "a b"
  {
    assert "a b"[1] == ' ' && !Base64Char(' ');
  }

  /** One such credential: it passes validation unchanged, so a key can carry it. */
  lemma TenantMetadataDropped(lower: string -> string, http: Http)
    requires FoldsAscii(StandardRules(lower)) && http.validName(METADATA) && http.validValue("a b")
    ensures IsGuarded(METADATA) && Validate(StandardRules(lower), map[METADATA := "a b"]) == Ok(map[METADATA := "a b"])
    ensures !ClientHasNoSay(http, map[METADATA := "a b"], METADATA)
  {
    MetadataName();
    MetadataNotForbidden();
    SpaceNotBinary(http);
    MalformedMetadata(http, METADATA, "a b");
    MetadataValidates(lower, "a b");
  }

  lemma MetadataValidates(lower: string -> string, value: string)
    requires FoldsAscii(StandardRules(lower)) && ValidValue(value) && |value| <= MAX_HEADER_VALUE_LEN
    ensures Validate(StandardRules(lower), map[METADATA := value]) == Ok(map[METADATA := value])
  {
    MetadataName();
    MetadataStorable();
    var headers: Headers := map[METADATA := value];
    assert headers.Keys == {METADATA};
    ValidateCanonical(StandardRules(lower), headers);
  }

  /** Forbidden headers and `authorization` never reach the upstream. */
  lemma NeverForwarded(http: Http, grpc: bool, inbound: HeaderMap, extra: Headers, f: string)
    requires IsForbidden(f) || f == "authorization"
    ensures f !in Forwarded(http, grpc, inbound, extra)
  {
    forall n | n in extra && Lower(n) == f ensures !Accepts(http, grpc, n, extra[n]) {
      if f == "authorization" { AuthorizationNotAllowed(grpc); }
    }
    assert AcceptedFor(http, grpc, extra, f) == {};
    ForwardedValue(http, grpc, inbound, extra, f);
  }

  lemma AuthorizationNotAllowed(grpc: bool)
    ensures !Allowed(grpc, "authorization")
  {
    assert "authorization"[0] == 'a';
    assert "x-tenant-"[0] == 'x' && "grpc-"[0] == 'g';
    assert "x-scope"[0] == 'x' && "x-scopes"[0] == 'x';
  }

  // ---- the names spelled out ----

  lemma ForbiddenNames(f: string)
    ensures IsForbidden(f) <==>
            f in ["host", "content-length", "transfer-encoding", "connection", "upgrade", "proxy-authorization",
                  "proxy-authenticate", "x-forwarded-host", "x-real-ip", "x-forwarded-for", "x-forwarded-proto", "forwarded"]
  {}

  /** Twelve names and `authorization` never reach the upstream, whoever sends them and in whatever mode. */
  lemma NamesWithheld(http: Http, inbound: HeaderMap, http2: bool, extra: Headers, f: string)
    requires f == "authorization" ||
             f in ["host", "content-length", "transfer-encoding", "connection", "upgrade", "proxy-authorization",
                   "proxy-authenticate", "x-forwarded-host", "x-real-ip", "x-forwarded-for", "x-forwarded-proto", "forwarded"]
    ensures f !in Proxied(http, inbound, http2, extra)
  {
    ForbiddenNames(f);
    NeverForwarded(http, IsGrpcRequest(inbound, http2), inbound, extra, f);
  }

  /** The credential has no header of this name in any spelling. */
  predicate Unclaimed(extra: Headers, f: string)
  {
    forall n :: n in extra ==> Lower(n) != f
  }

  /** Tenant and scope names come from the credential or not at all. */
  lemma TenantAndScopesFromCredential(http: Http, inbound: HeaderMap, http2: bool, extra: Headers, f: string)
    requires ("x-tenant-" <= f || f == "x-scope" || f == "x-scopes") && Unclaimed(extra, f)
    ensures f !in Proxied(http, inbound, http2, extra)
  {
    ForwardedValue(http, IsGrpcRequest(inbound, http2), inbound, extra, f);
  }

  /** Every other name that the credential does not claim passes through with the client's values. */
  lemma OthersPassThrough(http: Http, inbound: HeaderMap, http2: bool, extra: Headers, f: string)
    requires f != "authorization" && !("x-tenant-" <= f) && f != "x-scope" && f != "x-scopes" && Unclaimed(extra, f)
    requires f !in ["host", "content-length", "transfer-encoding", "connection", "upgrade", "proxy-authorization",
                    "proxy-authenticate", "x-forwarded-host", "x-real-ip", "x-forwarded-for", "x-forwarded-proto", "forwarded"]
    ensures SameAt(Proxied(http, inbound, http2, extra), inbound, f)
  {
    ForbiddenNames(f);
    ForwardedValue(http, IsGrpcRequest(inbound, http2), inbound, extra, f);
  }

  /** What the credential's own header must satisfy to be forwarded. */
  ghost predicate Deliverable(http: Http, grpc: bool, f: string, value: string)
  {
    && f != "authorization"
    && f !in ["host", "content-length", "transfer-encoding", "connection", "upgrade", "proxy-authorization",
              "proxy-authenticate", "x-forwarded-host", "x-real-ip", "x-forwarded-for", "x-forwarded-proto", "forwarded"]
    && http.validName(f) && http.validValue(value) && '\r' !in value && '\n' !in value
    && (grpc && |f| >= 4 && f[|f| - 4..] == "-bin" ==>
          && Utf8Len(value) <= http.maxBinary
          && forall c :: c in value ==> 'A' <= c <= 'Z' || 'a' <= c <= 'z' || '0' <= c <= '9' || c in ['+', '/', '=', '-', '_'])
  }

  lemma DeliverableIff(http: Http, grpc: bool, f: string, value: string)
    requires Lower(f) == f
    ensures Accepts(http, grpc, f, value) <==> Deliverable(http, grpc, f, value)
  {
    ForbiddenNames(f);
    AllowedIff(grpc, f);
    assert forall c: char :: c in "+/=-_" <==> c in ['+', '/', '=', '-', '_'];
  }

  lemma AllowedIff(grpc: bool, f: string)
    ensures Allowed(grpc, f) <==> f != "authorization"
  {
    AuthorizationNotAllowed(grpc);
  }

  /** A header the credential names in lower case only is forwarded exactly when it is deliverable, else ignored. */
  lemma CredentialDelivered(http: Http, inbound: HeaderMap, http2: bool, extra: Headers, f: string)
    requires f in extra && Lower(f) == f && forall n :: n in extra && Lower(n) == f ==> n == f
    ensures var out := Proxied(http, inbound, http2, extra);
            if Deliverable(http, IsGrpcRequest(inbound, http2), f, extra[f]) then f in out && out[f] == [extra[f]]
            else SameAt(out, Proxied(http, inbound, http2, extra - {f}), f)
  {
    var grpc := IsGrpcRequest(inbound, http2);
    DeliverableIff(http, grpc, f, extra[f]);
    ForwardedValue(http, grpc, inbound, extra, f);
    ForwardedValue(http, grpc, inbound, extra - {f}, f);
    var s := AcceptedFor(http, grpc, extra, f);
    assert forall n :: n in s ==> n == f;
    assert AcceptedFor(http, grpc, extra - {f}, f) == {};
    if Accepts(http, grpc, f, extra[f]) {
      assert f in s;
    }
  }

  /** gRPC takes HTTP/2, a content type of that family and the trailers token, in any letter case. */
  lemma GrpcRequestIff(contentType: string, te: string, rest: HeaderMap, http2: bool)
    requires ValidValue(contentType) && ValidValue(te)
    ensures var inbound := rest["content-type" := [contentType]]["te" := [te]];
            IsGrpcRequest(inbound, http2) <==>
            http2 && |contentType| >= 16 && Lower(contentType[..16]) == "application/grpc" && Lower(te) == "trailers"
    ensures !IsGrpcRequest(rest - {"te"}, http2) && !IsGrpcRequest(rest - {"content-type"}, http2)
  {
    var inbound := rest["content-type" := [contentType]]["te" := [te]];
    assert "content-type"[0] == 'c' && "te"[0] == 't';
    assert FirstText(inbound, "content-type") == Some(contentType) && FirstText(inbound, "te") == Some(te);
    if |contentType| >= 16 {
      assert Lower(contentType)[..16] == Lower(contentType[..16]);
    }
  }
}
