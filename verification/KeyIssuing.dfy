/**
 What a verification hands out, said of the request it answers: who can obtain a key, and what the
 issued key, its expiry and its headers are (`auth_verify` in crates/auth/src/proxy.rs).
 */
module KeyIssuing {
  import opened Bytes
  import opened HeaderValidation
  import opened KeyProvenance
  import opened KeyStore
  import opened Ordering
  import Credentials

  // ---- who obtains a key ----

  /** The request names an owner that the service lists, both key type and public key. */
  predicate Listed(s: State, step: Step)
    requires step.Verify?
  {
    && step.service in s.services
    && (step.request.keyType, step.request.pubKey) in s.services[step.service].owners
  }

  /** Whatever the signature, no key is handed out for a pair that the service does not list. */
  lemma StrangerRefused(env: Env, s: State, step: Step)
    requires step.Verify? && !Listed(s, step)
    ensures !Enabled(env, s, step)
  {}

  /** Every verification of a run was made by an owner that the service listed at that moment. */
  lemma OnlyOwnersVerify(env: Env, r: Run, i: nat)
    requires IsRun(env, r) && i < |r.steps| && r.steps[i].Verify?
    ensures Listed(r.states[i], r.steps[i])
  {
    assert StepAt(env, r, i);
    if !Listed(r.states[i], r.steps[i]) {
      StrangerRefused(env, r.states[i], r.steps[i]);
    }
  }

  /** A verification succeeds exactly for a listed owner with a valid signature and storable headers. */
  lemma VerifyEnabledIff(env: Env, lower: string -> string, s: State, step: Step)
    requires step.Verify? && step.tid !in s.tasks && |step.secret| == 32 && step.now + NINETY_DAYS < TWO_64
    requires env.rules == StandardRules(lower) && FoldsAscii(env.rules)
    ensures var r := step.request;
            Enabled(env, s, step) <==>
            && Listed(s, step) && env.verifies(r.keyType, r.challenge, r.signature, r.pubKey)
            && (forall n :: n in r.headers ==> Storable(n, r.headers[n])) && |FoldedNames(r.headers)| <= 8
  {
    ValidateStandardIff(lower, step.request.headers);
  }

  // ---- what is handed out ----

  /** Each folded name of the request, and no other, carries the shielded value of its greatest spelling. */
  ghost predicate HeadersShielded(hash: string -> string, asked: Headers, stored: Headers)
  {
    && stored.Keys == FoldedNames(asked)
    && forall f :: f in stored ==> ValueShielded(hash, asked, stored, f)
  }

  ghost predicate ValueShielded(hash: string -> string, asked: Headers, stored: Headers, f: string)
    requires f in stored
  {
    exists n :: IsGreatest(n, Spellings(asked, f)) && Shields(hash, f, asked[n], stored[f])
  }

  /** Ninety days from now or the requested time, whichever is later. */
  predicate LaterOf(expiresAt: u64, now: u64, requested: u64)
  {
    && expiresAt >= now + 7_776_000 && expiresAt >= requested
    && (expiresAt == now + 7_776_000 || expiresAt == requested)
  }

  lemma StoredHeaders(env: Env, asked: Headers)
    requires FoldsAscii(env.rules) && HashesToHex(env.hash) && Validate(env.rules, asked).Ok?
    ensures HeadersShielded(env.hash, asked, Protect(env.hash, Validate(env.rules, asked).value))
  {
    var v := Validate(env.rules, asked).value;
    var stored := Protect(env.hash, v);
    SameNames(env.rules, asked);
    assert stored.Keys == v.Keys;
    forall f | f in stored ensures ValueShielded(env.hash, asked, stored, f) {
      ValidatedValues(env.rules, asked, f);
      ProtectShields(env.hash, v, f);
    }
  }

  /**
   Every issue on record goes back to a verification by a listed owner and is fixed by it: the key by the
   service's prefix and the drawn bytes, the expiry by the clock and the request, the headers by the request.
   */
  lemma IssuedContents(env: Env, r: Run, k: nat, x: Issue) returns (i: nat)
    requires IsRun(env, r) && FoldsAscii(env.rules) && HashesToHex(env.hash)
    requires k < |r.states| && x in r.states[k].issued
    ensures i < k && OwnerVerified(env, r, i, x) && |r.steps[i].secret| == 32
    ensures x.key == Credentials.GenerateKey(r.states[i].services[x.service].prefix, r.steps[i].secret)
    ensures LaterOf(x.expiresAt, r.steps[i].now, x.request.expiresAt)
    ensures HeadersShielded(env.hash, x.request.headers, x.headers)
  {
    IssuedWasVerified(env, r, k, x);
    var i': nat, j: nat, tid: nat :| i' < j < k && VerifiedAt(env, r, i', tid, x) && CommittedAt(r, j, tid, x);
    i := i';
    VerifiedByOwner(env, r, i, tid, x);
    StoredHeaders(env, x.request.headers);
  }

  /** The headers a let-through request is answered with are shielded headers of an owner's request. */
  lemma AnsweredHeadersShielded(env: Env, r: Run, k: nat) returns (x: Issue, i: nat)
    requires IsRun(env, r) && FoldsAscii(env.rules) && HashesToHex(env.hash)
    requires k < |r.steps| && r.steps[k].Check?
    ensures StepAt(env, r, k) && i < k && OwnerVerified(env, r, i, x)
    ensures HeadersShielded(env.hash, x.request.headers, r.states[k].tasks[r.steps[k].tid].found.headers)
  {
    x, i := AcceptedKeyWasIssued(env, r, k);
    i := IssuedContents(env, r, k, x);
  }

  /** The record that a verification sets out to store: yet unnumbered and unused, under the issued key's id. */
  lemma NewRecord(env: Env, s: State, step: Step, s': State)
    requires step.Verify? && Goes(env, s, step, s')
    ensures step.tid in s'.tasks && s'.tasks[step.tid].Creating? && s'.tasks[step.tid].payload.KeyPayload?
    ensures var m := s'.tasks[step.tid].payload.key;
            && m.id == 0 && m.createdAt == step.now && m.lastUsed == 0 && m.enabled && m.description == ""
            && m.service == step.service && LaterOf(m.expiresAt, step.now, step.request.expiresAt)
            && m.keyId == Credentials.GenerateKey(s.services[step.service].prefix, step.secret).keyId
    ensures s'.db == s.db && s'.services == s.services && s'.tasks - {step.tid} == s.tasks
  {}

  /** A new key is accepted until ninety days are over or the requested time is reached, whichever is later. */
  lemma NewKeyLifetime(env: Env, s: State, step: Step, s': State, now: u64)
    requires step.Verify? && Goes(env, s, step, s')
    requires '.' !in s.services[step.service].prefix && '|' !in s.services[step.service].prefix
    ensures step.tid in s'.tasks && s'.tasks[step.tid].Creating? && s'.tasks[step.tid].payload.KeyPayload?
    ensures var key := Credentials.GenerateKey(s.services[step.service].prefix, step.secret);
            Accepts(env, s'.tasks[step.tid].payload.key, key.fullKey, now) <==>
            now < step.now + 7_776_000 || now < step.request.expiresAt
  {
    Credentials.GeneratedKeyUsable(env.keccak, s.services[step.service].prefix, step.secret);
  }
}
