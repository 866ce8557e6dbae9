/**
 API keys and legacy tokens as the objects callers hold: `save` and `create` change the object's id
 and the store (crates/auth/src/api_keys.rs, models.rs). Here one call runs alone; what the storage
 engine answers to each access is an input. Concurrent calls are the subject of the key store machine.
 */
module Records {
  import opened Bytes
  import opened KeyIndex
  import opened KeyNumbers
  import opened KeyProvenance
  import opened KeyStore
  import opened Options
  import opened OptimisticDb

  datatype Answer = Done | Busy | TryAgain | Broken

  datatype StoreError = StorageFailed

  /** The engine's answers during one call; attempt i of the counter addition gets `adds(i)`. */
  datatype Answers = Answers(adds: nat -> Answer, read: bool, row: bool, index: bool, commit: bool)

  const MAX_RETRIES: nat := 10

  predicate Retryable(a: Answer)
  {
    a == Busy || a == TryAgain
  }

  /** Attempt i succeeds after nothing but retryable answers. */
  ghost predicate AddedAt(adds: nat -> Answer, i: nat)
  {
    i < MAX_RETRIES && adds(i) == Done && forall j: nat :: j < i ==> Retryable(adds(j))
  }

  ghost predicate AddSucceeds(adds: nat -> Answer)
  {
    exists i: nat :: AddedAt(adds, i)
  }

  /** The retry loop around the counter addition. */
  method AddWithRetries(adds: nat -> Answer) returns (ok: bool)
    ensures ok <==> AddSucceeds(adds)
    ensures ok <==>
            exists i: nat :: i < 10 && adds(i) == Done && forall j: nat :: j < i ==> adds(j) == Busy || adds(j) == TryAgain
  {
    var retryCount := 0;
    while true
      invariant retryCount < MAX_RETRIES
      invariant forall j: nat :: j < retryCount ==> Retryable(adds(j))
      decreases MAX_RETRIES - retryCount
    {
      var a := adds(retryCount);
      if a == Done {
        assert AddedAt(adds, retryCount);
        return true;
      } else if Retryable(a) {
        retryCount := retryCount + 1;
        if retryCount >= MAX_RETRIES {
          return false;
        }
      } else {
        return false;
      }
    }
  }

  class RocksDb {
    var db: Db
  }

  class ApiKey {
    var model: ApiKeyModel

    /** Draws the next number and commits counter, row and index together, or leaves the store alone. */
    method Create(store: RocksDb, answers: Answers) returns (r: Result<(), StoreError>)
      modifies this, store
      ensures r.Ok? <==> AddSucceeds(answers.adds) && answers.read && answers.row && answers.index && answers.commit
      ensures r.Ok? ==>
                && model.id == (Counter(old(store.db), ApiKeys) + 1) % TWO_64
                && Counter(store.db, ApiKeys) == model.id
                && Counter(store.db, Tokens) == Counter(old(store.db), Tokens)
                && store.db.keys == old(store.db).keys[model.keyId := model]
                && store.db.ids == old(store.db).ids[model.id := model.keyId]
                && store.db.tokens == old(store.db).tokens
      ensures r.Err? ==> store.db == old(store.db)
      // the object keeps the number it drew even when a later access or the commit fails
      ensures model == if AddSucceeds(answers.adds) && answers.read
                       then old(model).(id := (Counter(old(store.db), ApiKeys) + 1) % TWO_64)
                       else old(model)
    {
      var txn := EMPTY_TXN;
      var added := AddWithRetries(answers.adds);
      if !added { return Err(StorageFailed); }
      txn := Record(store.db, txn, Add(ApiKeys));
      assert txn.batch == [Add(ApiKeys)];
      if !answers.read { return Err(StorageFailed); }
      var nextId := NextId(store.db, txn, ApiKeys);
      NextIdIsSuccessor(store.db, txn, ApiKeys);
      model := model.(id := nextId);
      if !answers.row { return Err(StorageFailed); }
      txn := Record(store.db, txn, PutKey(model));
      if !answers.index { return Err(StorageFailed); }
      txn := Record(store.db, txn, PutId(nextId, model.keyId));
      if !answers.commit { return Err(StorageFailed); }
      assert txn.batch == BatchAt(KeyPayload(model), IndexPut);
      KeyCommitted(store.db, txn, model);
      store.db := Commit(store.db, txn);
      return Ok(());
    }

    /** Creates a key without a number; otherwise writes the row and then the index entry. */
    method Save(store: RocksDb, answers: Answers) returns (r: Result<(), StoreError>)
      modifies this, store
      ensures model == old(model).(id := model.id)
      ensures old(model).id != 0 ==> model == old(model) && (r.Ok? <==> answers.row && answers.index)
      // a failed second write leaves the row without its index entry
      ensures old(model).id != 0 ==>
                && store.db.keys == (if answers.row then old(store.db).keys[model.keyId := model] else old(store.db).keys)
                && store.db.ids == (if r.Ok? then old(store.db).ids[model.id := model.keyId] else old(store.db).ids)
                && store.db.counters == old(store.db).counters
      ensures old(model).id == 0 ==>
                if r.Ok? then model.id == Counter(store.db, ApiKeys) && FindByKeyId(store.db, model.keyId) == Some(model)
                else store.db == old(store.db)
      ensures r.Ok? ==> FindById(store.db, model.id) == Some(model)
    {
      if model.id == 0 {
        r := Create(store, answers);
      } else {
        if !answers.row { return Err(StorageFailed); }
        store.db := Put(store.db, PutKey(model));
        if !answers.index { return Err(StorageFailed); }
        store.db := Put(store.db, PutId(model.id, model.keyId));
        r := Ok(());
      }
    }

    /** Stamps the time of use and saves; nothing else of the key changes. */
    method UpdateLastUsed(store: RocksDb, now: u64, answers: Answers) returns (r: Result<(), StoreError>)
      modifies this, store
      ensures model == old(model).(lastUsed := now, id := model.id)
      ensures r.Ok? ==> FindById(store.db, model.id) == Some(model) == FindByKeyId(store.db, model.keyId)
      // a key without a number is created by the way
      ensures old(model).id != 0 ==> model.id == old(model).id && store.db.counters == old(store.db).counters
    {
      model := model.(lastUsed := now);
      r := Save(store, answers);
    }

    /** Removes row and index entry together. */
    method Delete(store: RocksDb, answers: Answers) returns (r: Result<(), StoreError>)
      modifies store
      ensures r.Ok? <==> answers.row && answers.index && answers.commit
      ensures if r.Ok? then store.db.keys == old(store.db).keys - {model.keyId} && store.db.ids == old(store.db).ids - {model.id}
              else store.db == old(store.db)
      ensures store.db.tokens == old(store.db).tokens && store.db.counters == old(store.db).counters
    {
      if !answers.row { return Err(StorageFailed); }
      var txn := Record(store.db, EMPTY_TXN, DropKey(model.keyId));
      if !answers.index { return Err(StorageFailed); }
      txn := Record(store.db, txn, DropId(model.id));
      if !answers.commit { return Err(StorageFailed); }
      assert txn.batch == DropsAt(model, IndexPut);
      CommitDrops(store.db, txn, model);
      store.db := Commit(store.db, txn);
      return Ok(());
    }
  }

  lemma KeyCommitted(db: Db, txn: Txn, m: ApiKeyModel)
    requires txn.batch == BatchAt(KeyPayload(m), IndexPut)
    ensures Commit(db, txn).keys == db.keys[m.keyId := m] && Commit(db, txn).ids == db.ids[m.id := m.keyId]
    ensures Commit(db, txn).tokens == db.tokens
    ensures Counter(Commit(db, txn), ApiKeys) == (Counter(db, ApiKeys) + 1) % TWO_64
    ensures Counter(Commit(db, txn), Tokens) == Counter(db, Tokens)
  {
    CommitKeyRows(db, txn, m);
    CommitCounts(db, txn, KeyPayload(m), IndexPut);
  }

  class ApiToken {
    var model: TokenModel

    /** Numbers and stores a new token, or rewrites the row of a numbered one. */
    method Save(store: RocksDb, answers: Answers) returns (r: Result<u64, StoreError>)
      modifies this, store
      ensures r.Ok? <==> if old(model).id != 0 then answers.row
                         else AddSucceeds(answers.adds) && answers.read && answers.row && answers.commit
      ensures r.Ok? ==>
                && r.value == model.id && store.db.tokens == old(store.db).tokens[model.id := model]
                && store.db.keys == old(store.db).keys && store.db.ids == old(store.db).ids
      ensures old(model).id != 0 ==> model == old(model) && store.db.counters == old(store.db).counters
      ensures old(model).id == 0 && r.Ok? ==>
                && model == old(model).(id := (Counter(old(store.db), Tokens) + 1) % TWO_64)
                && Counter(store.db, Tokens) == model.id
                && Counter(store.db, ApiKeys) == Counter(old(store.db), ApiKeys)
      ensures r.Err? ==> store.db == old(store.db)
    {
      if model.id != 0 {
        if !answers.row { return Err(StorageFailed); }
        store.db := Put(store.db, PutToken(model));
        return Ok(model.id);
      }
      var added := AddWithRetries(answers.adds);
      if !added { return Err(StorageFailed); }
      var txn := Record(store.db, EMPTY_TXN, Add(Tokens));
      assert txn.batch == [Add(Tokens)];
      if !answers.read { return Err(StorageFailed); }
      var nextId := NextId(store.db, txn, Tokens);
      NextIdIsSuccessor(store.db, txn, Tokens);
      model := model.(id := nextId);
      if !answers.row { return Err(StorageFailed); }
      txn := Record(store.db, txn, PutToken(model));
      if !answers.commit { return Err(StorageFailed); }
      assert txn.batch == BatchAt(TokenPayload(model), RowPut);
      TokenCommitted(store.db, txn, model);
      store.db := Commit(store.db, txn);
      return Ok(nextId);
    }
  }

  lemma TokenCommitted(db: Db, txn: Txn, m: TokenModel)
    requires txn.batch == BatchAt(TokenPayload(m), RowPut)
    ensures Commit(db, txn).tokens == db.tokens[m.id := m]
    ensures Commit(db, txn).keys == db.keys && Commit(db, txn).ids == db.ids
    ensures Counter(Commit(db, txn), Tokens) == (Counter(db, Tokens) + 1) % TWO_64
    ensures Counter(Commit(db, txn), ApiKeys) == Counter(db, ApiKeys)
  {
    CommitCounts(db, txn, TokenPayload(m), RowPut);
    TokenStored(db, txn, m);
  }

  lemma TokenStored(db: Db, txn: Txn, m: TokenModel)
    requires txn.batch == BatchAt(TokenPayload(m), RowPut)
    ensures Commit(db, txn).tokens == db.tokens[m.id := m]
    ensures Commit(db, txn).keys == db.keys && Commit(db, txn).ids == db.ids
  {
    var now := db.clock + 1;
    var db0 := db.(clock := now);
    assert txn.batch == [Add(Tokens)] + ([PutToken(m)] + []);
    WriteAllFirst(db0, Add(Tokens), [PutToken(m)] + [], now);
    WriteAllFirst(Stamp(db0, Add(Tokens), now), PutToken(m), [], now);
  }
}
