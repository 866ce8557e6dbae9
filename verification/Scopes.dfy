/**
 Scopes from access-token claims to the upstream's view of them: canonicalised into `x-scopes`,
 forwarded by the proxy, parsed back (crates/auth/src/proxy.rs, request_auth.rs).
 */
module Scopes {
  import opened HeaderPipeline
  import opened HeaderValidation
  import opened Options
  import opened Ordering
  import opened Text

  /** `[..].join(" ")`. */
  function Join(parts: seq<string>): string
  {
    if parts == [] then ""
    else if |parts| == 1 then parts[0]
    else parts[0] + " " + Join(parts[1..])
  }

  /** The non-empty pieces between spaces, lower-cased. */
  function ParseScopes(s: string): (words: seq<string>)
  {
    LowerWords(Split(s, ' '))
  }

  function LowerWords(pieces: seq<string>): (words: seq<string>)
    ensures forall w :: w in words <==> exists p :: p in pieces && p != "" && w == Lower(p)
  {
    if pieces == [] then []
    else (if pieces[0] == "" then [] else [Lower(pieces[0])]) + LowerWords(pieces[1..])
  }

  /** The words of a scope string: what a space-separated reading of it grants. */
  ghost predicate HasWord(s: string, w: string)
  {
    w in ParseScopes(s)
  }

  /** Characters i to j form a longest non-empty run without a space. */
  predicate IsRun(s: string, i: int, j: int)
  {
    && 0 <= i < j <= |s| && (forall k :: i <= k < j ==> s[k] != ' ')
    && (i == 0 || s[i - 1] == ' ') && (j == |s| || s[j] == ' ')
  }

  lemma WholeRun(s: string, i: int, j: int)
    requires ' ' !in s
    ensures IsRun(s, i, j) <==> s != "" && i == 0 && j == |s|
  {
    assert forall k :: 0 <= k < |s| ==> s[k] in s;
  }

  lemma FirstRun(s: string, a: string, b: string, i: int, j: int)
    requires s == a + [' '] + b && ' ' !in a && i <= |a|
    ensures IsRun(s, i, j) <==> a != "" && i == 0 && j == |a|
  {
    assert s[|a|] == ' ';
    assert forall k :: 0 <= k < |a| ==> s[k] == a[k] && a[k] in a;
  }

  lemma LaterRun(s: string, a: string, b: string, i: int, j: int)
    requires s == a + [' '] + b && i > |a|
    ensures IsRun(s, i, j) <==> IsRun(b, i - |a| - 1, j - |a| - 1)
  {
    var n := |a| + 1;
    assert s[|a|] == ' ' && |s| == n + |b|;
    if IsRun(s, i, j) {
      forall k | i - n <= k < j - n ensures b[k] != ' ' { assert s[n + k] != ' '; }
    }
    if IsRun(b, i - n, j - n) {
      forall k | i <= k < j ensures s[k] != ' ' { assert b[k - n] != ' '; }
    }
  }

  lemma LaterSlice(s: string, a: string, b: string, i: int, j: int)
    requires s == a + [' '] + b && |a| < i <= j <= |s|
    ensures s[i..j] == b[i - |a| - 1..j - |a| - 1]
  {}

  lemma {:induction false} PieceIsRun(s: string, p: string) returns (i: int, j: int)
    requires p in Split(s, ' ') && p != ""
    ensures IsRun(s, i, j) && s[i..j] == p
    decreases |s|
  {
    match SplitOnce(s, ' ') {
      case None =>
        i, j := 0, |s|;
        WholeRun(s, i, j);
      case Some((a, b)) =>
        if p == a {
          i, j := 0, |a|;
          FirstRun(s, a, b, i, j);
        } else {
          i, j := PieceIsRun(b, p);
          i, j := |a| + 1 + i, |a| + 1 + j;
          LaterRun(s, a, b, i, j);
          LaterSlice(s, a, b, i, j);
        }
    }
  }

  lemma {:induction false} RunIsPiece(s: string, i: int, j: int, p: string)
    requires IsRun(s, i, j) && p == s[i..j]
    ensures p in Split(s, ' ')
    decreases |s|
  {
    match SplitOnce(s, ' ') {
      case None =>
        WholeRun(s, i, j);
        assert p == s;
      case Some((a, b)) =>
        if i <= |a| {
          FirstRun(s, a, b, i, j);
          assert p == a;
        } else {
          LaterRun(s, a, b, i, j);
          LaterSlice(s, a, b, i, j);
          RunIsPiece(b, i - |a| - 1, j - |a| - 1, p);
        }
    }
  }

  /** The words are the lower-cased longest runs without a space. */
  lemma WordIff(s: string, w: string)
    ensures HasWord(s, w) <==> exists i, j :: IsRun(s, i, j) && w == Lower(s[i..j])
  {
    if HasWord(s, w) {
      var p :| p in Split(s, ' ') && p != "" && w == Lower(p);
      var i, j := PieceIsRun(s, p);
    }
    if i, j :| IsRun(s, i, j) && w == Lower(s[i..j]) {
      RunIsPiece(s, i, j, s[i..j]);
    }
  }

  // ---- writing ----

  /** The canonical header value: distinct lower-cased scopes in order, joined by spaces. */
  ghost function CanonicalScopes(lower: string -> string, scopes: seq<string>): string
  {
    Join(Sorted(set s | s in scopes :: lower(s)))
  }

  /** The headers of an access token: those of the claims, with `x-scopes` set when there are scopes. */
  ghost function TokenHeaders(lower: string -> string, claimed: Headers, scopes: Option<seq<string>>): Headers
  {
    match scopes
    case Some(list) => if list == [] then claimed else claimed["x-scopes" := CanonicalScopes(lower, list)]
    case None => claimed
  }

  method BuildTokenHeaders(lower: string -> string, claimed: Headers, scopes: Option<seq<string>>) returns (headers: Headers)
    ensures headers == TokenHeaders(lower, claimed, scopes)
  {
    headers := claimed;
    match scopes {
      case None =>
      case Some(list) =>
        if list != [] {
          var distinct := LowerSet(lower, list);
          var ordered := Traverse(distinct);
          headers := headers["x-scopes" := Join(ordered)];
        }
    }
  }

  method LowerSet(lower: string -> string, list: seq<string>) returns (distinct: set<string>)
    ensures distinct == set s | s in list :: lower(s)
  {
    distinct := {};
    for i := 0 to |list|
      invariant distinct == set s | s in list[..i] :: lower(s)
    {
      assert list[..i + 1] == list[..i] + [list[i]];
      distinct := distinct + {lower(list[i])};
    }
    assert list[..|list|] == list;
  }

  // ---- reading ----

  predicate HasScope(header: Option<string>, scope: string)
  {
    header.Some? && Lower(scope) in ParseScopes(header.value)
  }

  /** A name ending in a colon asks for any scope it is a prefix of. */
  predicate Grants(words: seq<string>, name: string)
  {
    if EndsWith(Lower(name), ":") then exists w :: w in words && Lower(name) <= w else Lower(name) in words
  }

  lemma GrantsIff(words: seq<string>, name: string)
    ensures Grants(words, name) <==> exists w :: w in words && Matches(name, w)
  {
    if Lower(name) in words {
      assert Matches(name, Lower(name));
    }
  }

  /** The asked-for scope itself, or any scope that starts with it when it ends in a colon. */
  predicate Matches(name: string, w: string)
  {
    var n := Lower(name);
    w == n || (n != "" && n[|n| - 1] == ':' && |n| <= |w| && w[..|n|] == n)
  }

  method HasAnyScope(header: Option<string>, names: seq<string>) returns (found: bool)
    ensures found <==> header.Some? && exists n, w :: n in names && HasWord(header.value, w) && Matches(n, w)
  {
    var words := if header.Some? then ParseScopes(header.value) else [];
    for i := 0 to |names|
      invariant forall n, w :: n in names[..i] && w in words ==> !Matches(n, w)
    {
      var n := Lower(names[i]);
      assert names[..i + 1] == names[..i] + [names[i]];
      GrantsIff(words, names[i]);
      if EndsWith(n, ":") {
        if exists w :: w in words && n <= w {
          return header.Some?;
        }
      } else if n in words {
        return header.Some?;
      }
    }
    assert names[..|names|] == names;
    return false;
  }

  // ---- reading undoes writing ----

  lemma {:induction false} SplitConcat(a: string, b: string)
    ensures Split(a + " " + b, ' ') == Split(a, ' ') + Split(b, ' ')
    decreases |a|
  {
    match SplitOnce(a, ' ') {
      case None =>
        SplitFirst(a, ' ', b);
      case Some((x, y)) =>
        SplitConcat(y, b);
        SplitConcatStep(x, y, b);
    }
  }

  lemma SplitConcatStep(x: string, y: string, b: string)
    requires ' ' !in x && Split(y + " " + b, ' ') == Split(y, ' ') + Split(b, ' ')
    ensures Split(x + [' '] + y + " " + b, ' ') == Split(x + [' '] + y, ' ') + Split(b, ' ')
  {
    calc {
      Split(x + [' '] + y + " " + b, ' ');
      { Regroup(x + [' '], y, " ", b); }
      Split(x + [' '] + (y + " " + b), ' ');
      { SplitFirst(x, ' ', y + " " + b); }
      [x] + (Split(y, ' ') + Split(b, ' '));
      { Regroup([x], Split(y, ' '), Split(b, ' '), []); }
      [x] + Split(y, ' ') + Split(b, ' ');
      { SplitFirst(x, ' ', y); }
      Split(x + [' '] + y, ' ') + Split(b, ' ');
    }
  }

  lemma Regroup<T>(a: seq<T>, b: seq<T>, c: seq<T>, d: seq<T>)
    ensures a + b + c + d == a + (b + c + d)
    ensures a + b + c == a + (b + c)
  {}

  lemma WordsConcat(a: seq<string>, b: seq<string>, w: string)
    ensures w in LowerWords(a + b) <==> w in LowerWords(a) || w in LowerWords(b)
  {
    if w in LowerWords(a) {
      var p :| p in a && p != "" && w == Lower(p);
      assert p in a + b;
    }
    if w in LowerWords(b) {
      var p :| p in b && p != "" && w == Lower(p);
      assert p in a + b;
    }
  }

  lemma WordOfTwo(a: string, b: string, w: string)
    ensures HasWord(a + " " + b, w) <==> HasWord(a, w) || HasWord(b, w)
  {
    SplitConcat(a, b);
    WordsConcat(Split(a, ' '), Split(b, ' '), w);
  }

  ghost predicate AnyHasWord(parts: seq<string>, w: string)
  {
    exists p :: p in parts && HasWord(p, w)
  }

  lemma AnyFirst(parts: seq<string>, w: string)
    requires parts != []
    ensures AnyHasWord(parts, w) <==> HasWord(parts[0], w) || AnyHasWord(parts[1..], w)
  {
    if p :| p in parts[1..] && HasWord(p, w) {
      assert p in parts;
    }
    if p :| p in parts && HasWord(p, w) && p != parts[0] {
      assert p in parts[1..];
    }
  }

  lemma EmptyHasNoWord(w: string)
    ensures !HasWord("", w)
  {
    assert Split("", ' ') == [""];
  }

  /** The words of a joined list are the words of its parts. */
  lemma {:induction false} JoinedWords(parts: seq<string>, w: string)
    ensures HasWord(Join(parts), w) <==> AnyHasWord(parts, w)
  {
    if parts == [] {
      EmptyHasNoWord(w);
    } else {
      AnyFirst(parts, w);
      if |parts| > 1 {
        JoinedWords(parts[1..], w);
        WordOfTwo(parts[0], Join(parts[1..]), w);
      }
    }
  }

  ghost predicate AsciiScopes(lower: string -> string, scopes: seq<string>)
  {
    forall s :: s in scopes ==> IsAscii(s) && lower(s) == Lower(s)
  }

  /** Lower-casing a scope string does not change its words. */
  lemma {:induction false} LowerKeepsWords(s: string, w: string)
    ensures HasWord(Lower(s), w) <==> HasWord(s, w)
    decreases |s|
  {
    match SplitOnce(s, ' ') {
      case None =>
        NoSpaceWhenLower(s);
        LowerIdempotent(s);
        assert Split(Lower(s), ' ') == [Lower(s)] && Split(s, ' ') == [s];
      case Some((a, b)) =>
        LowerKeepsWords(b, w);
        NoSpaceWhenLower(a);
        LowerIdempotent(a);
        LowerConcat(a + [' '], b);
        LowerConcat(a, [' ']);
        assert Lower([' ']) == [' '];
        SplitFirst(a, ' ', b);
        SplitFirst(Lower(a), ' ', Lower(b));
        WordsConcat([a], Split(b, ' '), w);
        WordsConcat([Lower(a)], Split(Lower(b), ' '), w);
    }
  }

  lemma NoSpaceWhenLower(s: string)
    requires ' ' !in s
    ensures ' ' !in Lower(s)
  {
    forall i | 0 <= i < |s| ensures Lower(s)[i] != ' ' {
      assert s[i] in s;
    }
  }

  /** Parsing the canonical header yields exactly the words of the token's scopes. */
  lemma CanonicalWords(lower: string -> string, scopes: seq<string>, w: string)
    requires AsciiScopes(lower, scopes)
    ensures HasWord(CanonicalScopes(lower, scopes), w) <==> AnyHasWord(scopes, w)
  {
    var distinct := set s | s in scopes :: lower(s);
    JoinedWords(Sorted(distinct), w);
    assert forall p :: p in Sorted(distinct) <==> p in distinct;
    forall s | s in scopes ensures HasWord(lower(s), w) <==> HasWord(s, w) {
      LowerKeepsWords(s, w);
    }
    if s :| s in scopes && HasWord(s, w) {
      assert lower(s) in distinct;
    }
  }

  // ---- through the proxy ----

  ghost predicate AcceptsPlain(http: Http)
  {
    && (forall n :: ValidName(n) ==> http.validName(n))
    && (forall v :: ValidValue(v) ==> http.validValue(v))
  }

  lemma ScopesAccepted(http: Http, grpc: bool, value: string)
    requires AcceptsPlain(http) && ValidValue(value)
    ensures Lower("x-scopes") == "x-scopes" && Accepts(http, grpc, "x-scopes", value)
  {
    var name := "x-scopes";
    assert Lower(name) == name;
    assert ValidName(name);
    assert IsScope(name);
    ScopesNotForbidden();
    assert name[|name| - 4..][0] == 'o' && "-bin"[0] == '-';
    assert !EndsWith(name, "-bin");
    forall c | c in value ensures ValueChar(c) {}
  }

  lemma ScopesNotForbidden()
    ensures !IsForbidden("x-scopes")
  {
    assert |"x-scopes"| == 8 && "x-scopes"[0] == 'x' && "x-scopes"[2] == 's';
    assert |"host"| == 4 && |"content-length"| == 14 && |"transfer-encoding"| == 17 && |"connection"| == 10;
    assert |"upgrade"| == 7 && |"proxy-authorization"| == 19 && |"proxy-authenticate"| == 18;
    assert |"x-forwarded-host"| == 16 && |"x-real-ip"| == 9 && |"x-forwarded-for"| == 15;
    assert |"x-forwarded-proto"| == 17 && |"forwarded"| == 9;
  }

  /** The lower-case spelling is the greatest, so a present `x-scopes` that is accepted is the one forwarded. */
  lemma LowerSpellingForwarded(http: Http, grpc: bool, inbound: HeaderMap, extra: Headers, f: string)
    requires f in extra && Lower(f) == f && Accepts(http, grpc, f, extra[f])
    ensures f in Forwarded(http, grpc, inbound, extra) && Forwarded(http, grpc, inbound, extra)[f] == [extra[f]]
  {
    var s := AcceptedFor(http, grpc, extra, f);
    assert f in s;
    forall n | n in s ensures n == f || Precedes(n, f) {
      PointwisePrecedes(n, f);
    }
    ForwardedValue(http, grpc, inbound, extra, f);
    var n :| IsGreatest(n, s) && Forwarded(http, grpc, inbound, extra)[f] == [extra[n]];
    GreatestUnique(n, f, s);
  }

  /** A character that no plain-text header value holds. */
  predicate IsControl(c: char)
  {
    (c < ' ' && c != '\t') || c == 127 as char
  }

  /** The upstream finds a scope exactly when it is one of the words of the token's scopes. */
  ghost predicate SeesExactly(out: HeaderMap, scopes: seq<string>)
  {
    forall scope :: HasScope(FirstText(out, "x-scopes"), scope) <==> AnyHasWord(scopes, Lower(scope))
  }

  lemma {:induction false} JoinedValid(parts: seq<string>)
    ensures ValidValue(Join(parts)) <==> forall p :: p in parts ==> ValidValue(p)
  {
    if |parts| > 1 {
      JoinedValid(parts[1..]);
      ValidParts(parts[0], Join(parts[1..]));
      forall p | p in parts ensures p == parts[0] || p in parts[1..] {}
    }
  }

  lemma ValidParts(a: string, b: string)
    ensures ValidValue(a + " " + b) <==> ValidValue(a) && ValidValue(b)
  {
    var s := a + " " + b;
    if ValidValue(s) {
      assert forall i :: 0 <= i < |a| ==> s[i] == a[i];
      assert forall i :: 0 <= i < |b| ==> s[|a| + 1 + i] == b[i];
    }
  }

  lemma LowerValid(s: string)
    ensures ValidValue(Lower(s)) <==> ValidValue(s)
  {
    forall i | 0 <= i < |s| ensures ValueChar(Lower(s)[i]) <==> ValueChar(s[i]) {}
  }

  /** The canonical header is fit for HTTP exactly when every scope is. */
  lemma CanonicalValid(lower: string -> string, scopes: seq<string>)
    requires AsciiScopes(lower, scopes)
    ensures ValidValue(CanonicalScopes(lower, scopes)) <==> forall s :: s in scopes ==> ValidValue(s)
  {
    var distinct := set s | s in scopes :: lower(s);
    JoinedValid(Sorted(distinct));
    assert forall p :: p in Sorted(distinct) <==> p in distinct;
    forall s | s in scopes ensures ValidValue(lower(s)) <==> ValidValue(s) {
      LowerValid(s);
    }
    if forall p :: p in distinct ==> ValidValue(p) {
      forall s | s in scopes ensures ValidValue(s) {
        assert lower(s) in distinct;
      }
    }
  }

  /** A character other than the space lies in one of the pieces. */
  lemma {:induction false} PieceWith(s: string, c: char) returns (p: string)
    requires c in s && c != ' '
    ensures p in Split(s, ' ') && c in p
    decreases |s|
  {
    match SplitOnce(s, ' ') {
      case None => p := s;
      case Some((a, b)) =>
        if c in a {
          p := a;
        } else {
          p := PieceWith(b, c);
        }
    }
  }

  lemma {:induction false} PieceChars(s: string, p: string, c: char)
    requires p in Split(s, ' ') && c in p
    ensures c in s
    decreases |s|
  {
    match SplitOnce(s, ' ') {
      case None =>
      case Some((a, b)) =>
        if p != a {
          PieceChars(b, p, c);
        }
    }
  }

  /** A word with a control character stems from a string with that character. */
  lemma WordChars(s: string, w: string, c: char)
    requires HasWord(s, w) && c in w && IsControl(c)
    ensures c in s
  {
    var p :| p in Split(s, ' ') && p != "" && w == Lower(p);
    var i :| 0 <= i < |w| && w[i] == c;
    assert p[i] == c;
    PieceChars(s, p, c);
  }

  /** A scope with a control character contains a word with it. */
  lemma ControlWord(s: string) returns (w: string, c: char)
    requires IsAscii(s) && !ValidValue(s)
    ensures HasWord(s, w) && Lower(w) == w && c in w && IsControl(c)
  {
    var i :| 0 <= i < |s| && !ValueChar(s[i]);
    c := s[i];
    var p := PieceWith(s, c);
    w := Lower(p);
    LowerIdempotent(p);
    var j :| 0 <= j < |p| && p[j] == c;
    assert w[j] == c;
  }

  /**
   End to end: whatever headers the client sent and whatever other headers the token carries, the upstream
   sees exactly the words of the token's scopes, if and only if no scope holds a control character.
   */
  lemma UpstreamSeesTokenScopes(lower: string -> string, http: Http, inbound: HeaderMap, http2: bool,
                                claimed: Headers, scopes: seq<string>)
    requires AcceptsPlain(http) && scopes != [] && AsciiScopes(lower, scopes)
    ensures SeesExactly(Proxied(http, inbound, http2, TokenHeaders(lower, claimed, Some(scopes))), scopes) <==>
            forall s :: s in scopes ==> ValidValue(s)
  {
    var extra := TokenHeaders(lower, claimed, Some(scopes));
    CanonicalValid(lower, scopes);
    if forall s :: s in scopes ==> ValidValue(s) {
      SeesScopes(lower, http, IsGrpcRequest(inbound, http2), inbound, extra, scopes);
    } else {
      var s :| s in scopes && !ValidValue(s);
      var w, c := ControlWord(s);
      ControlUnseen(Proxied(http, inbound, http2, extra), w, c);
      assert AnyHasWord(scopes, Lower(w));
    }
  }

  lemma SeesScopes(lower: string -> string, http: Http, grpc: bool, inbound: HeaderMap, extra: Headers, scopes: seq<string>)
    requires AcceptsPlain(http) && AsciiScopes(lower, scopes) && ValidValue(CanonicalScopes(lower, scopes))
    requires "x-scopes" in extra && extra["x-scopes"] == CanonicalScopes(lower, scopes)
    ensures SeesExactly(Forwarded(http, grpc, inbound, extra), scopes)
  {
    var value := CanonicalScopes(lower, scopes);
    ScopesAccepted(http, grpc, value);
    LowerSpellingForwarded(http, grpc, inbound, extra, "x-scopes");
    forall scope ensures HasWord(value, Lower(scope)) <==> AnyHasWord(scopes, Lower(scope)) {
      CanonicalWords(lower, scopes, Lower(scope));
    }
  }

  /** No header value that reads as plain text grants a word with a control character. */
  lemma ControlUnseen(out: HeaderMap, w: string, c: char)
    requires c in w && IsControl(c) && Lower(w) == w
    ensures !HasScope(FirstText(out, "x-scopes"), w)
  {
    if HasScope(FirstText(out, "x-scopes"), w) {
      WordChars(out["x-scopes"][0], w, c);
    }
  }
}
