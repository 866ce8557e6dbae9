/**
 Runs from an empty store in which revoked keys come back and the two key tables come apart. In each of
 them one request has fetched a key before it is deleted, disabled or saved by someone else.
 */
module KeyWitnesses {
  import opened Bytes
  import opened KeyIndex
  import opened KeyNumbers
  import opened KeyRevocation
  import opened KeyRuns
  import opened KeyStore
  import opened OptimisticDb
  import opened ServiceIds
  import Credentials

  /** A service, an owner's request and a draw of random bytes for which verification issues a usable key. */
  datatype Issuing = Issuing(services: map<ServiceId, ServiceModel>, id: ServiceId, request: VerifyRequest,
                             secret: seq<byte>, now: u64)

  ghost predicate Issues(env: Env, x: Issuing)
  {
    && MayIssue(env, x.services, x.id, x.request) && |x.secret| == 32 && x.now + NINETY_DAYS < TWO_64
    && '.' !in x.services[x.id].prefix && '|' !in x.services[x.id].prefix
  }

  function KeyOf(x: Issuing): Credentials.GeneratedKey
    requires x.id in x.services && |x.secret| == 32
  {
    Credentials.GenerateKey(x.services[x.id].prefix, x.secret)
  }

  /** One key is stored, and one request has fetched it and would be let through now. */
  ghost predicate Fetched(env: Env, r: Run, fullKey: string, m: ApiKeyModel, now: u64)
  {
    && IsRun(env, r) && Last(r).tasks == map[2 := Checking(fullKey, m)] && m.id != 0
    && Last(r).db.keys == map[m.keyId := m] && Last(r).db.ids == map[m.id := m.keyId]
    && Accepts(env, m, fullKey, now)
  }

  /** From an empty store, every such verification leads to a request that has fetched the issued key. */
  lemma FetchedRun(env: Env, x: Issuing) returns (r: Run, m: ApiKeyModel)
    requires Issues(env, x)
    ensures Fetched(env, r, KeyOf(x).fullKey, m, x.now) && m.keyId == KeyOf(x).keyId
  {
    var s0 := State(EMPTY_DB, x.services, map[], [], [], []);
    var r0 := Run([s0], []);
    var verify := Verify(1, x.id, x.request, x.secret, x.now);
    PushRuns(env, r0, verify);
    var r1 := Push(env, r0, verify);
    var drawn := Last(r1).tasks[1].payload.key;
    assert MayCommit(Last(r1), 1);
    var r2 := FinishCreate(env, r1, 1);
    m := OnlyKey(env, r1, r2, drawn);
    Credentials.GeneratedKeyUsable(env.keccak, x.services[x.id].prefix, x.secret);
    PushRuns(env, r2, Lookup(2, KeyOf(x).fullKey));
    r := Push(env, r2, Lookup(2, KeyOf(x).fullKey));
  }

  lemma OnlyKey(env: Env, r: Run, longer: Run, drawn: ApiKeyModel) returns (m: ApiKeyModel)
    requires IsRun(env, longer) && r.states != [] && Last(r).db == EMPTY_DB && Last(r).keyLog == []
    requires CreatedFrom(Last(r), Last(longer), 1, drawn)
    ensures m == drawn.(id := 1)
    ensures Last(longer).db.keys == map[m.keyId := m] && Last(longer).db.ids == map[m.id := m.keyId]
  {
    var id: u64 :| Last(longer).db.keys == Last(r).db.keys[drawn.keyId := drawn.(id := id)]
                   && Last(longer).db.ids == Last(r).db.ids[id := drawn.keyId]
                   && Last(longer).keyLog == Last(r).keyLog + [(id, drawn.keyId)];
    m := drawn.(id := id);
    CommittedIdsAreConsecutive(env, longer, |longer.states| - 1, ApiKeys);
    assert IdLog(Last(longer), ApiKeys)[0] == id;
  }

  /** A deleted key comes back, enabled, by the write-back of a request that fetched it before. */
  lemma DeletedKeyReturns(env: Env, fetched: Run, fullKey: string, m: ApiKeyModel, now: u64)
    returns (deleted: Run, longer: Run)
    requires Fetched(env, fetched, fullKey, m, now)
    ensures IsRun(env, deleted) && Extends(fetched, deleted)
    ensures deleted.steps != [] && DeletedAt(env, deleted, |deleted.steps| - 1, m.keyId) && Last(deleted).db.keys == map[]
    ensures Continues(env, deleted, longer, Disabled, m.keyId) && Usable(Last(longer), Disabled, m.keyId)
  {
    deleted := FinishDelete(env, fetched, 3, m.keyId);
    assert StepAt(env, deleted, |deleted.steps| - 1);
    assert Pending(env, Last(deleted), 2, Disabled, m.keyId);
    longer := Restore(env, deleted, 2, Disabled, m.keyId);
  }

  /** A disabled key is enabled again the same way. */
  lemma DisabledKeyReturns(env: Env, fetched: Run, fullKey: string, m: ApiKeyModel, now: u64)
    returns (disabled: Run, longer: Run)
    requires Fetched(env, fetched, fullKey, m, now)
    ensures IsRun(env, disabled) && Extends(fetched, disabled)
    ensures m.keyId in Last(disabled).db.keys && !Last(disabled).db.keys[m.keyId].enabled
    ensures Continues(env, disabled, longer, Disabled, m.keyId) && Usable(Last(longer), Disabled, m.keyId)
  {
    var edit := Edit(3, m.keyId, false, m.expiresAt, m.description);
    PushRuns(env, fetched, edit);
    disabled := SaveRun(env, Push(env, fetched, edit), 3);
    assert Pending(env, Last(disabled), 2, Disabled, m.keyId);
    longer := Restore(env, disabled, 2, Disabled, m.keyId);
  }

  /** A save that runs through. */
  lemma SaveRun(env: Env, r: Run, tid: nat) returns (longer: Run)
    requires IsRun(env, r) && tid in Last(r).tasks && Last(r).tasks[tid].Saving? && Last(r).tasks[tid].model.id != 0
    ensures IsRun(env, longer) && Extends(r, longer) && Last(longer).tasks == Last(r).tasks - {tid}
    ensures var m := Last(r).tasks[tid].model;
            Last(longer).db.keys == Last(r).db.keys[m.keyId := m] && Last(longer).db.ids == Last(r).db.ids[m.id := m.keyId]
  {
    PushRuns(env, r, Save(tid));
    longer := EntryRun(env, Push(env, r, Save(tid)), tid);
  }

  /** Its second write alone. */
  lemma EntryRun(env: Env, r: Run, tid: nat) returns (longer: Run)
    requires IsRun(env, r) && tid in Last(r).tasks && Last(r).tasks[tid].Indexing?
    ensures IsRun(env, longer) && Extends(r, longer) && Last(longer).tasks == Last(r).tasks - {tid}
    ensures var m := Last(r).tasks[tid].model;
            Last(longer).db.keys == Last(r).db.keys && Last(longer).db.ids == Last(r).db.ids[m.id := m.keyId]
  {
    PushRuns(env, r, SaveIndex(tid));
    longer := Push(env, r, SaveIndex(tid));
  }

  /** The request is let through and writes its row. */
  lemma RowRun(env: Env, r: Run, now: u64) returns (longer: Run, m: ApiKeyModel)
    requires IsRun(env, r) && 2 in Last(r).tasks && Last(r).tasks[2].Checking? && Last(r).tasks[2].found.id != 0
    requires Accepts(env, Last(r).tasks[2].found, Last(r).tasks[2].fullKey, now)
    ensures IsRun(env, longer) && Extends(r, longer) && m == Last(r).tasks[2].found.(lastUsed := now)
    ensures Last(longer).tasks == Last(r).tasks[2 := Indexing(m)]
    ensures Last(longer).db.keys == Last(r).db.keys[m.keyId := m] && Last(longer).db.ids == Last(r).db.ids
  {
    m := Last(r).tasks[2].found.(lastUsed := now);
    PushRuns(env, r, Check(2, now));
    var r1 := Push(env, r, Check(2, now));
    PushRuns(env, r1, Save(2));
    longer := Push(env, r1, Save(2));
  }

  /** A delete between the two writes of a save leaves an entry without a row, and nothing under way repairs it. */
  lemma DeleteDuringSaveDangles(env: Env, fetched: Run, fullKey: string, m: ApiKeyModel, now: u64) returns (longer: Run)
    requires Fetched(env, fetched, fullKey, m, now)
    ensures IsRun(env, longer) && Extends(fetched, longer) && Last(longer).tasks == map[]
    ensures Last(longer).db.keys == map[] && Last(longer).db.ids == map[m.id := m.keyId]
    ensures !Sound(Last(longer).db.keys, Last(longer).db.ids)
  {
    var half, used := RowRun(env, fetched, now);
    assert Last(half).db.keys == map[m.keyId := used];
    var deleted := FinishDelete(env, half, 3, m.keyId);
    assert Last(deleted).db.keys == map[] && Last(deleted).db.ids == map[];
    longer := EntryRun(env, deleted, 2);
    assert m.id in Last(longer).db.ids;
  }

  /** A save that restores a deleted row and then fails leaves a row without an entry, for good. */
  lemma FailedSaveLacksEntry(env: Env, fetched: Run, fullKey: string, m: ApiKeyModel, now: u64) returns (longer: Run)
    requires Fetched(env, fetched, fullKey, m, now)
    ensures IsRun(env, longer) && Extends(fetched, longer) && Last(longer).tasks == map[]
    ensures m.keyId in Last(longer).db.keys && Last(longer).db.ids == map[]
    ensures !Complete(Last(longer).db.keys, Last(longer).db.ids, {})
  {
    var deleted := FinishDelete(env, fetched, 3, m.keyId);
    assert Last(deleted).db.keys == map[] && Last(deleted).db.ids == map[];
    var half, used := RowRun(env, deleted, now);
    PushRuns(env, half, Fail(2));
    longer := Push(env, half, Fail(2));
    assert !Indexed(Last(longer).db.keys, Last(longer).db.ids, m.keyId);
  }
}
