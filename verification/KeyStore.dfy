/**
 API keys and legacy tokens as a concurrent state machine: requests, saves, deletes and
 maintenance interleave at every database access
 (crates/auth/src/api_keys.rs, models.rs and the handlers of proxy.rs).
 */
module KeyStore {
  import opened Bytes
  import opened Options
  import opened OptimisticDb
  import opened ServiceIds
  import Credentials
  import HeaderValidation
  import MergeOperator
  import Text

  datatype KeyType = Unknown | Ecdsa | Sr25519 | Bn254Bls

  datatype ServiceModel = ServiceModel(prefix: string, owners: seq<(KeyType, seq<byte>)>)

  datatype VerifyRequest = VerifyRequest(
    keyType: KeyType, pubKey: seq<byte>, challenge: seq<byte>, signature: seq<byte>,
    expiresAt: u64, headers: map<string, string>)

  /** Code outside the repository: the digest, signature checking, lower-casing and the user-id digest. */
  datatype Env = Env(
    keccak: Credentials.Digest,
    verifies: (KeyType, seq<byte>, seq<byte>, seq<byte>) -> bool,
    rules: HeaderValidation.Rules,
    hash: string -> string)

  /** What a successful verification hands out and stores. */
  datatype Issue = Issue(service: ServiceId, request: VerifyRequest, key: Credentials.GeneratedKey,
                         headers: map<string, string>, expiresAt: u64)

  const NINETY_DAYS: nat := 90 * 24 * 60 * 60

  datatype Payload = KeyPayload(key: ApiKeyModel) | TokenPayload(token: TokenModel)

  datatype Pc = Begun | Added | Numbered | RowPut | IndexPut

  /** One activity between two of its database accesses. */
  datatype Task =
    | Creating(payload: Payload, origin: Option<Issue>, pc: Pc, txn: Txn)
    | Checking(fullKey: string, found: ApiKeyModel)
    | Saving(model: ApiKeyModel)
    | Indexing(model: ApiKeyModel)
    | Deleting(victim: ApiKeyModel, stage: Pc, drops: Txn)

  datatype State = State(
    db: Db,
    services: map<ServiceId, ServiceModel>,
    tasks: map<nat, Task>,
    issued: seq<Issue>,
    keyLog: seq<(u64, string)>,
    tokenLog: seq<u64>)

  datatype Step =
    | Verify(tid: nat, service: ServiceId, request: VerifyRequest, secret: seq<byte>, now: u64)
    | NewToken(tid: nat, token: TokenModel)
    | Proceed(tid: nat)
    | CommitCreate(tid: nat)
    | Lookup(tid: nat, fullKey: string)
    | Check(tid: nat, now: u64)
    | Edit(tid: nat, keyId: string, enabled: bool, expiresAt: u64, description: string)
    | Save(tid: nat)
    | SaveIndex(tid: nat)
    | BeginDelete(tid: nat, keyId: string)
    | Drop(tid: nat)
    | CommitDelete(tid: nat)
    | Fail(tid: nat)
    | SetServices(services: map<ServiceId, ServiceModel>)
    | Regroup(table: Table, i: nat, j: nat)
    | Flush(table: Table, k: nat)

  // ---- auth_verify ----

  predicate IsOwner(service: ServiceModel, keyType: KeyType, pubKey: seq<byte>)
  {
    (keyType, pubKey) in service.owners
  }

  /** The checks of `auth_verify` up to the point where a key is generated. */
  ghost predicate MayIssue(env: Env, services: map<ServiceId, ServiceModel>, id: ServiceId, r: VerifyRequest)
  {
    && id in services
    && IsOwner(services[id], r.keyType, r.pubKey)
    && env.verifies(r.keyType, r.challenge, r.signature, r.pubKey)
    && HeaderValidation.Validate(env.rules, r.headers).Ok?
  }

  ghost function IssueOf(env: Env, services: map<ServiceId, ServiceModel>, id: ServiceId, r: VerifyRequest,
                         secret: seq<byte>, now: u64): Issue
    requires MayIssue(env, services, id, r) && |secret| == 32 && now + NINETY_DAYS < TWO_64
  {
    Issue(id, r, Credentials.GenerateKey(services[id].prefix, secret),
          HeaderValidation.Protect(env.hash, HeaderValidation.Validate(env.rules, r.headers).value),
          if r.expiresAt > now + NINETY_DAYS then r.expiresAt else now + NINETY_DAYS)
  }

  /** `From<&GeneratedApiKey>`: only the digest of the key is kept. */
  ghost function ModelOf(env: Env, issue: Issue, now: u64): ApiKeyModel
  {
    ApiKeyModel(0, issue.key.keyId, Credentials.StoredHash(env.keccak, issue.key.fullKey), issue.service,
                now, 0, issue.expiresAt, true, issue.headers, "")
  }

  // ---- create ----

  function TableOf(p: Payload): Table
  {
    if p.KeyPayload? then ApiKeys else Tokens
  }

  function IdOf(p: Payload): u64
  {
    match p case KeyPayload(m) => m.id case TokenPayload(m) => m.id
  }

  function WithId(p: Payload, id: u64): Payload
  {
    match p
    case KeyPayload(m) => KeyPayload(m.(id := id))
    case TokenPayload(m) => TokenPayload(m.(id := id))
  }

  /** The id a create reads back after its addition. */
  function NextId(db: Db, txn: Txn, t: Table): u64
  {
    match ReadCounter(db, txn, t)
    case Some(v) => MergeOperator.Word(v)
    case None => if t == ApiKeys then 1 else 0
  }

  function RowWrite(p: Payload): Write
  {
    match p case KeyPayload(m) => PutKey(m) case TokenPayload(m) => PutToken(m)
  }

  /** Tokens have no index row, so their last write is the row itself. */
  predicate ReadyToCommit(p: Payload, pc: Pc)
  {
    pc == if p.KeyPayload? then IndexPut else RowPut
  }

  // ---- the machine ----

  ghost predicate Initial(s: State)
  {
    && s.db == EMPTY_DB && s.tasks == map[]
    && s.issued == [] && s.keyLog == [] && s.tokenLog == []
  }

  predicate Removes(s: State, tid: nat, pc: Pc)
  {
    tid in s.tasks && s.tasks[tid].Deleting? && s.tasks[tid].stage == pc
  }

  ghost predicate Enabled(env: Env, s: State, step: Step)
  {
    match step
    case Verify(tid, id, r, secret, now) =>
      tid !in s.tasks && MayIssue(env, s.services, id, r) && |secret| == 32 && now + NINETY_DAYS < TWO_64
    case NewToken(tid, token) => tid !in s.tasks && token.id == 0
    case Proceed(tid) =>
      && tid in s.tasks && s.tasks[tid].Creating?
      && s.tasks[tid].pc != IndexPut && !ReadyToCommit(s.tasks[tid].payload, s.tasks[tid].pc)
    case CommitCreate(tid) =>
      && tid in s.tasks && s.tasks[tid].Creating?
      && ReadyToCommit(s.tasks[tid].payload, s.tasks[tid].pc) && Committable(s.db, s.tasks[tid].txn)
    case Lookup(tid, fullKey) =>
      && tid !in s.tasks && Text.SplitOnce(fullKey, '.').Some?
      && Text.SplitOnce(fullKey, '.').value.0 in s.db.keys
    case Check(tid, now) =>
      && tid in s.tasks && s.tasks[tid].Checking?
      && Accepts(env, s.tasks[tid].found, s.tasks[tid].fullKey, now)
    case Edit(tid, keyId, _, _, _) => tid !in s.tasks && keyId in s.db.keys
    case Save(tid) => tid in s.tasks && s.tasks[tid].Saving?
    case SaveIndex(tid) => tid in s.tasks && s.tasks[tid].Indexing?
    case BeginDelete(tid, keyId) => tid !in s.tasks && keyId in s.db.keys
    case Drop(tid) => Removes(s, tid, Begun) || Removes(s, tid, RowPut)
    case CommitDelete(tid) => Removes(s, tid, IndexPut) && Committable(s.db, s.tasks[tid].drops)
    case Fail(tid) => tid in s.tasks
    case SetServices(_) => true
    case Regroup(t, i, j) => i <= j <= |CellOf(s.db, t).pending|
    case Flush(t, k) => k <= |CellOf(s.db, t).pending|
  }

  /** The checks `handle_api_key` and `auth_exchange` make on the record they found. */
  predicate Accepts(env: Env, m: ApiKeyModel, fullKey: string, now: u64)
  {
    Credentials.ValidatesKey(env.keccak, m.keyId, m.keyHash, fullKey) && now < m.expiresAt && m.enabled
  }

  function SetTask(s: State, tid: nat, task: Task): State
  {
    s.(tasks := s.tasks[tid := task])
  }

  function EndTask(s: State, tid: nat): State
  {
    s.(tasks := s.tasks - {tid})
  }

  function SetCell(s: State, t: Table, c: Cell): State
  {
    s.(db := s.db.(counters := s.db.counters[t := c]))
  }

  /** The next state of a task that is creating a row. */
  function Advance(s: State, tid: nat): Task
    requires tid in s.tasks && s.tasks[tid].Creating?
  {
    var task := s.tasks[tid];
    match task.pc
    case Begun => task.(pc := Added, txn := Record(s.db, task.txn, Add(TableOf(task.payload))))
    case Added => task.(pc := Numbered, payload := WithId(task.payload, NextId(s.db, task.txn, TableOf(task.payload))))
    case Numbered => task.(pc := RowPut, txn := Record(s.db, task.txn, RowWrite(task.payload)))
    case RowPut =>
      if task.payload.TokenPayload? then task
      else task.(pc := IndexPut, txn := Record(s.db, task.txn, PutId(task.payload.key.id, task.payload.key.keyId)))
    case IndexPut => task
  }

  /** The next state of a task that is deleting a row: first the row is recorded, then the index entry. */
  function Dropping(s: State, tid: nat): Task
    requires tid in s.tasks && s.tasks[tid].Deleting?
  {
    var task := s.tasks[tid];
    if task.stage == Begun
    then task.(stage := RowPut, drops := Record(s.db, task.drops, DropKey(task.victim.keyId)))
    else task.(stage := IndexPut, drops := Record(s.db, task.drops, DropId(task.victim.id)))
  }

  /** A committed create: the batch takes effect and the ids, and the issue if there is one, are on record. */
  function Created(s: State, tid: nat): State
    requires tid in s.tasks && s.tasks[tid].Creating?
  {
    var task := s.tasks[tid];
    var s' := EndTask(s, tid).(db := Commit(s.db, task.txn));
    match task.payload
    case KeyPayload(m) =>
      s'.(keyLog := s.keyLog + [(m.id, m.keyId)],
          issued := if task.origin.Some? then s.issued + [task.origin.value] else s.issued)
    case TokenPayload(m) => s'.(tokenLog := s.tokenLog + [m.id])
  }

  /** `save` with an id: the row first; with id 0 it turns into a create. */
  function SaveRow(s: State, tid: nat): State
    requires tid in s.tasks && s.tasks[tid].Saving?
  {
    var m := s.tasks[tid].model;
    if m.id == 0 then SetTask(s, tid, Creating(KeyPayload(m), None, Begun, EMPTY_TXN))
    else SetTask(s, tid, Indexing(m)).(db := Put(s.db, PutKey(m)))
  }

  ghost function Next(env: Env, s: State, step: Step): State
    requires Enabled(env, s, step)
  {
    match step
    case Verify(tid, id, r, secret, now) =>
      var issue := IssueOf(env, s.services, id, r, secret, now);
      SetTask(s, tid, Creating(KeyPayload(ModelOf(env, issue, now)), Some(issue), Begun, EMPTY_TXN))
    case NewToken(tid, token) => SetTask(s, tid, Creating(TokenPayload(token), None, Begun, EMPTY_TXN))
    case Proceed(tid) => SetTask(s, tid, Advance(s, tid))
    case CommitCreate(tid) => Created(s, tid)
    case Lookup(tid, fullKey) =>
      SetTask(s, tid, Checking(fullKey, s.db.keys[Text.SplitOnce(fullKey, '.').value.0]))
    case Check(tid, now) => SetTask(s, tid, Saving(s.tasks[tid].found.(lastUsed := now)))
    case Edit(tid, keyId, enabled, expiresAt, description) =>
      SetTask(s, tid, Saving(s.db.keys[keyId].(enabled := enabled, expiresAt := expiresAt, description := description)))
    case Save(tid) => SaveRow(s, tid)
    case SaveIndex(tid) =>
      EndTask(s, tid).(db := Put(s.db, PutId(s.tasks[tid].model.id, s.tasks[tid].model.keyId)))
    case BeginDelete(tid, keyId) => SetTask(s, tid, Deleting(s.db.keys[keyId], Begun, EMPTY_TXN))
    case Drop(tid) => SetTask(s, tid, Dropping(s, tid))
    case CommitDelete(tid) => EndTask(s, tid).(db := Commit(s.db, s.tasks[tid].drops))
    case Fail(tid) => EndTask(s, tid)
    case SetServices(services) => s.(services := services)
    case Regroup(t, i, j) => SetCell(s, t, Regrouped(CellOf(s.db, t), i, j))
    case Flush(t, k) => SetCell(s, t, Flushed(CellOf(s.db, t), k))
  }

  /** The step is possible in state s and leads to s'. */
  ghost predicate Goes(env: Env, s: State, step: Step, s': State)
  {
    Enabled(env, s, step) && s' == Next(env, s, step)
  }

  /** A run: states linked by enabled steps from an empty store. */
  datatype Run = Run(states: seq<State>, steps: seq<Step>)

  /** Step i of the run, if there is one, was enabled and led to the next state. */
  ghost predicate StepAt(env: Env, r: Run, i: int)
  {
    0 <= i < |r.steps| && |r.states| == |r.steps| + 1 ==>
      Goes(env, r.states[i], r.steps[i], r.states[i + 1])
  }

  ghost predicate IsRun(env: Env, r: Run)
  {
    |r.states| == |r.steps| + 1 && Initial(r.states[0]) && forall i :: StepAt(env, r, i)
  }
}
