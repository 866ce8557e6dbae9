/**
 Where an accepted API key comes from: over whole runs, a request is let through only with a key
 that an earlier, completed verification by a listed owner handed out, and with the service and
 headers that verification fixed.
 */
module KeyProvenance {
  import opened Bytes
  import opened KeyNumbers
  import opened KeyStore
  import opened Options
  import opened OptimisticDb
  import Base64
  import Credentials
  import Text

  /** A record stems from an issue: everything but its number, dates, switch and description is fixed by it. */
  ghost predicate Describes(env: Env, x: Issue, m: ApiKeyModel)
  {
    && m.keyId == x.key.keyId
    && m.keyHash == Credentials.StoredHash(env.keccak, x.key.fullKey)
    && m.service == x.service
    && m.headers == x.headers
  }

  ghost predicate Backed(env: Env, issued: seq<Issue>, m: ApiKeyModel)
  {
    exists x :: x in issued && Describes(env, x, m)
  }

  lemma BackedGrows(env: Env, issued: seq<Issue>, more: seq<Issue>, m: ApiKeyModel)
    requires Backed(env, issued, m)
    ensures Backed(env, issued + more, m)
  {
    var x :| x in issued && Describes(env, x, m);
    assert x in issued + more;
  }

  /** Same record up to the fields no issue fixes. */
  lemma BackedLike(env: Env, issued: seq<Issue>, m: ApiKeyModel, m': ApiKeyModel)
    requires Backed(env, issued, m)
    requires m'.keyId == m.keyId && m'.keyHash == m.keyHash && m'.service == m.service && m'.headers == m.headers
    ensures Backed(env, issued, m')
  {
    var x :| x in issued && Describes(env, x, m);
    assert Describes(env, x, m');
  }

  ghost predicate TaskBacked(env: Env, issued: seq<Issue>, task: Task)
  {
    match task
    case Creating(KeyPayload(m), Some(x), _, _) => Describes(env, x, m)
    case Creating(KeyPayload(m), None, _, _) => Backed(env, issued, m)
    case Creating(TokenPayload(_), _, _, _) => true
    case Checking(_, m) => Backed(env, issued, m)
    case Saving(m) => Backed(env, issued, m)
    case Indexing(m) => Backed(env, issued, m)
    case Deleting(_, _, _) => true
  }

  ghost predicate KeysBacked(env: Env, issued: seq<Issue>, keys: map<string, ApiKeyModel>)
  {
    forall k :: k in keys ==> keys[k].keyId == k && Backed(env, issued, keys[k])
  }

  ghost predicate TasksBacked(env: Env, issued: seq<Issue>, tasks: map<nat, Task>)
  {
    forall tid :: tid in tasks ==> TaskBacked(env, issued, tasks[tid])
  }

  ghost predicate AllBacked(env: Env, s: State)
  {
    KeysBacked(env, s.issued, s.db.keys) && TasksBacked(env, s.issued, s.tasks)
  }

  // ---- what commits do to the tables ----

  lemma WriteAllFirst(db: Db, w: Write, rest: seq<Write>, now: nat)
    ensures WriteAll(db, [w] + rest, now) == WriteAll(Stamp(db, w, now), rest, now)
  {
    assert ([w] + rest)[1..] == rest;
  }

  lemma CommitKeyRows(db: Db, txn: Txn, m: ApiKeyModel)
    requires txn.batch == BatchAt(KeyPayload(m), IndexPut)
    ensures Commit(db, txn).keys == db.keys[m.keyId := m]
    ensures Commit(db, txn).ids == db.ids[m.id := m.keyId] && Commit(db, txn).tokens == db.tokens
  {
    var now := db.clock + 1;
    var db0 := db.(clock := now);
    var db1 := Stamp(db0, Add(ApiKeys), now);
    var db2 := Stamp(db1, PutKey(m), now);
    assert txn.batch == [Add(ApiKeys)] + ([PutKey(m)] + ([PutId(m.id, m.keyId)] + []));
    WriteAllFirst(db0, Add(ApiKeys), [PutKey(m)] + ([PutId(m.id, m.keyId)] + []), now);
    WriteAllFirst(db1, PutKey(m), [PutId(m.id, m.keyId)] + [], now);
    WriteAllFirst(db2, PutId(m.id, m.keyId), [], now);
  }

  lemma CommitTokenRows(db: Db, txn: Txn, token: TokenModel)
    requires txn.batch == BatchAt(TokenPayload(token), RowPut)
    ensures Commit(db, txn).keys == db.keys && Commit(db, txn).ids == db.ids
  {
    var now := db.clock + 1;
    var db0 := db.(clock := now);
    assert txn.batch == [Add(Tokens)] + ([PutToken(token)] + []);
    WriteAllFirst(db0, Add(Tokens), [PutToken(token)] + [], now);
    WriteAllFirst(Stamp(db0, Add(Tokens), now), PutToken(token), [], now);
  }

  lemma CommitDrops(db: Db, txn: Txn, m: ApiKeyModel)
    requires txn.batch == DropsAt(m, IndexPut)
    ensures Commit(db, txn).keys == db.keys - {m.keyId}
    ensures Commit(db, txn).ids == db.ids - {m.id}
    ensures Commit(db, txn).tokens == db.tokens && Commit(db, txn).counters == db.counters
  {
    var now := db.clock + 1;
    var db0 := db.(clock := now);
    assert txn.batch == [DropKey(m.keyId)] + ([DropId(m.id)] + []);
    WriteAllFirst(db0, DropKey(m.keyId), [DropId(m.id)] + [], now);
    WriteAllFirst(Stamp(db0, DropKey(m.keyId), now), DropId(m.id), [], now);
  }

  // ---- every step keeps every record backed ----

  lemma GrowKeys(env: Env, issued: seq<Issue>, more: seq<Issue>, keys: map<string, ApiKeyModel>)
    requires KeysBacked(env, issued, keys)
    ensures KeysBacked(env, issued + more, keys)
  {
    forall k | k in keys ensures Backed(env, issued + more, keys[k]) {
      BackedGrows(env, issued, more, keys[k]);
    }
  }

  lemma GrowTask(env: Env, issued: seq<Issue>, more: seq<Issue>, task: Task)
    requires TaskBacked(env, issued, task)
    ensures TaskBacked(env, issued + more, task)
  {
    match task
    case Creating(KeyPayload(m), None, _, _) => BackedGrows(env, issued, more, m);
    case Checking(_, m) => BackedGrows(env, issued, more, m);
    case Saving(m) => BackedGrows(env, issued, more, m);
    case Indexing(m) => BackedGrows(env, issued, more, m);
    case _ =>
  }

  lemma GrowTasks(env: Env, issued: seq<Issue>, more: seq<Issue>, tasks: map<nat, Task>)
    requires TasksBacked(env, issued, tasks)
    ensures TasksBacked(env, issued + more, tasks)
  {
    forall tid | tid in tasks ensures TaskBacked(env, issued + more, tasks[tid]) {
      GrowTask(env, issued, more, tasks[tid]);
    }
  }

  lemma CreatedBacked(env: Env, s: State, tid: nat)
    requires AllBacked(env, s) && TasksOk(s) && Enabled(env, s, CommitCreate(tid))
    ensures AllBacked(env, Created(s, tid))
  {
    var task, s' := s.tasks[tid], Created(s, tid);
    assert CreateOk(s.db, task) && TaskBacked(env, s.issued, task);
    match task.payload {
      case TokenPayload(token) =>
        CommitTokenRows(s.db, task.txn, token);
      case KeyPayload(m) =>
        CommitKeyRows(s.db, task.txn, m);
        var more := if task.origin.Some? then [task.origin.value] else [];
        assert s'.issued == s.issued + more;
        GrowKeys(env, s.issued, more, s.db.keys);
        GrowTasks(env, s.issued, more, s'.tasks);
        if task.origin.Some? {
          assert task.origin.value in s'.issued;
        } else {
          BackedGrows(env, s.issued, more, m);
        }
    }
  }

  lemma TaskStepBacked(env: Env, s: State, tid: nat, task: Task)
    requires AllBacked(env, s) && TaskBacked(env, s.issued, task)
    ensures AllBacked(env, SetTask(s, tid, task))
  {}

  lemma StepKeepsBacked(env: Env, s: State, step: Step, s': State)
    requires AllBacked(env, s) && TasksOk(s) && DeletesOk(s) && Goes(env, s, step, s')
    ensures AllBacked(env, s')
  {
    if step.CommitCreate? {
      CreatedBacked(env, s, step.tid);
    } else if step.CommitDelete? {
      CommitDrops(s.db, s.tasks[step.tid].drops, s.tasks[step.tid].victim);
    } else if step.Check? {
      var m := s.tasks[step.tid].found;
      assert TaskBacked(env, s.issued, s.tasks[step.tid]);
      BackedLike(env, s.issued, m, m.(lastUsed := step.now));
      TaskStepBacked(env, s, step.tid, Saving(m.(lastUsed := step.now)));
    } else if step.Edit? {
      BackedLike(env, s.issued, s.db.keys[step.keyId], s'.tasks[step.tid].model);
      TaskStepBacked(env, s, step.tid, s'.tasks[step.tid]);
    } else if step.Verify? || step.NewToken? || step.Lookup? || step.BeginDelete? || step.Drop? {
      TaskStepBacked(env, s, step.tid, s'.tasks[step.tid]);
    } else if step.Proceed? {
      AdvanceBacked(env, s, step.tid);
      TaskStepBacked(env, s, step.tid, Advance(s, step.tid));
    } else if step.Save? {
      SaveBacked(env, s, step.tid);
    } else {
      OtherStepBacked(env, s, step, s');
    }
  }

  lemma AdvanceBacked(env: Env, s: State, tid: nat)
    requires tid in s.tasks && s.tasks[tid].Creating? && TaskBacked(env, s.issued, s.tasks[tid])
    ensures TaskBacked(env, s.issued, Advance(s, tid))
    ensures Advance(s, tid).Creating? && Advance(s, tid).origin == s.tasks[tid].origin
  {
    var task, task' := s.tasks[tid], Advance(s, tid);
    if task.payload.KeyPayload? && task.origin.None? {
      BackedLike(env, s.issued, task.payload.key, task'.payload.key);
    }
  }

  lemma SaveBacked(env: Env, s: State, tid: nat)
    requires AllBacked(env, s) && Enabled(env, s, Save(tid))
    ensures AllBacked(env, SaveRow(s, tid))
  {
    assert TaskBacked(env, s.issued, s.tasks[tid]);
  }

  lemma OtherStepBacked(env: Env, s: State, step: Step, s': State)
    requires AllBacked(env, s) && Goes(env, s, step, s')
    requires step.SaveIndex? || step.Fail? || step.SetServices? || step.Regroup? || step.Flush?
    ensures AllBacked(env, s')
  {}

  lemma {:induction false} RunKeepsBacked(env: Env, r: Run, k: nat)
    requires IsRun(env, r) && k < |r.states|
    ensures AllBacked(env, r.states[k])
  {
    if k > 0 {
      RunKeepsBacked(env, r, k - 1);
      RunKeepsNumbers(env, r, k - 1);
      assert StepAt(env, r, k - 1);
      StepKeepsBacked(env, r.states[k - 1], r.steps[k - 1], r.states[k]);
    }
  }

  // ---- issues are completed verifications ----

  /** Step i of the run verified an owner's signature and started to issue x. */
  ghost predicate VerifiedAt(env: Env, r: Run, i: nat, tid: nat, x: Issue)
    requires IsRun(env, r)
  {
    && i < |r.steps| && StepAt(env, r, i) && r.steps[i].Verify? && r.steps[i].tid == tid
    && x == IssueOf(env, r.states[i].services, r.steps[i].service, r.steps[i].request, r.steps[i].secret, r.steps[i].now)
  }

  /** Step j of the run committed the record of x, so that the verification succeeded. */
  ghost predicate CommittedAt(r: Run, j: nat, tid: nat, x: Issue)
  {
    && j < |r.steps| && j < |r.states| && r.steps[j] == CommitCreate(tid)
    && tid in r.states[j].tasks && r.states[j].tasks[tid].Creating? && r.states[j].tasks[tid].origin == Some(x)
  }

  ghost predicate IssuedBefore(env: Env, r: Run, k: nat, x: Issue)
    requires IsRun(env, r)
  {
    exists i: nat, j: nat, tid: nat :: i < j < k && VerifiedAt(env, r, i, tid, x) && CommittedAt(r, j, tid, x)
  }

  ghost predicate StartedBefore(env: Env, r: Run, k: nat, tid: nat, x: Issue)
    requires IsRun(env, r)
  {
    exists i: nat :: i < k && VerifiedAt(env, r, i, tid, x)
  }

  ghost predicate PendingIssue(s: State, tid: nat, x: Issue)
  {
    tid in s.tasks && s.tasks[tid].Creating? && s.tasks[tid].origin == Some(x)
  }

  /** A step does not invent a pending issue. */
  lemma PendingOrigin(env: Env, s: State, step: Step, s': State, tid: nat, x: Issue)
    requires AllBacked(env, s) && Goes(env, s, step, s') && PendingIssue(s', tid, x)
    ensures PendingIssue(s, tid, x)
            || (step.Verify? && step.tid == tid
                && x == IssueOf(env, s.services, step.service, step.request, step.secret, step.now))
  {
    if step.Proceed? {
      AdvanceOrigin(env, s, step, s', tid, x);
    }
  }

  lemma AdvanceOrigin(env: Env, s: State, step: Step, s': State, tid: nat, x: Issue)
    requires AllBacked(env, s) && Goes(env, s, step, s') && PendingIssue(s', tid, x)
    requires step.Proceed?
    ensures PendingIssue(s, tid, x)
  {
    assert TaskBacked(env, s.issued, s.tasks[step.tid]);
    AdvanceBacked(env, s, step.tid);
  }

  /** A step does not invent an issued key. */
  lemma IssuedOrigin(env: Env, s: State, step: Step, s': State, x: Issue)
    requires Goes(env, s, step, s') && x in s'.issued
    ensures x in s.issued || (step.CommitCreate? && PendingIssue(s, step.tid, x))
  {}

  lemma {:induction false} PendingWasVerified(env: Env, r: Run, k: nat, tid: nat, x: Issue)
    requires IsRun(env, r) && k < |r.states| && PendingIssue(r.states[k], tid, x)
    ensures StartedBefore(env, r, k, tid, x)
  {
    if k > 0 {
      RunKeepsBacked(env, r, k - 1);
      assert StepAt(env, r, k - 1);
      PendingOrigin(env, r.states[k - 1], r.steps[k - 1], r.states[k], tid, x);
      if PendingIssue(r.states[k - 1], tid, x) {
        PendingWasVerified(env, r, k - 1, tid, x);
      } else {
        assert VerifiedAt(env, r, k - 1, tid, x);
      }
    }
  }

  lemma {:induction false} IssuedWasVerified(env: Env, r: Run, k: nat, x: Issue)
    requires IsRun(env, r) && k < |r.states| && x in r.states[k].issued
    ensures IssuedBefore(env, r, k, x)
  {
    if k > 0 {
      var j := k - 1;
      assert StepAt(env, r, j);
      IssuedOrigin(env, r.states[j], r.steps[j], r.states[j + 1], x);
      if x in r.states[j].issued {
        IssuedWasVerified(env, r, j, x);
      } else {
        var tid := r.steps[j].tid;
        PendingWasVerified(env, r, j, tid, x);
        assert CommittedAt(r, j, tid, x);
      }
    }
  }

  // ---- the theorem ----

  /** A verification step was asked for by an owner listed at that moment, with a valid signature. */
  ghost predicate OwnerVerified(env: Env, r: Run, i: nat, x: Issue)
  {
    && i < |r.steps| && i < |r.states| && r.steps[i].Verify?
    && r.steps[i].service == x.service && r.steps[i].request == x.request
    && x.service in r.states[i].services
    && (x.request.keyType, x.request.pubKey) in r.states[i].services[x.service].owners
    && env.verifies(x.request.keyType, x.request.challenge, x.request.signature, x.request.pubKey)
  }

  lemma VerifiedByOwner(env: Env, r: Run, i: nat, tid: nat, x: Issue)
    requires IsRun(env, r) && VerifiedAt(env, r, i, tid, x)
    ensures OwnerVerified(env, r, i, x)
  {
    assert StepAt(env, r, i);
  }

  /** What a let-through request presented and was answered with is what x fixed. */
  ghost predicate AnswersWith(env: Env, fullKey: string, found: ApiKeyModel, now: u64, x: Issue)
  {
    && (found.service, found.headers) == (x.service, x.headers)
    && found.enabled && now < found.expiresAt
    && Text.SplitOnce(fullKey, '.').Some? && Text.SplitOnce(fullKey, '.').value.0 == x.key.keyId
    && env.keccak(fullKey) == env.keccak(x.key.fullKey)
  }

  lemma AcceptedRecord(env: Env, fullKey: string, found: ApiKeyModel, now: u64, x: Issue)
    requires Accepts(env, found, fullKey, now) && Describes(env, x, found)
    ensures AnswersWith(env, fullKey, found, now, x)
  {
    Base64.EncodeInjective(env.keccak(fullKey), env.keccak(x.key.fullKey));
  }

  lemma AcceptedIsBacked(env: Env, r: Run, k: nat) returns (x: Issue)
    requires IsRun(env, r) && k < |r.steps| && r.steps[k].Check?
    ensures StepAt(env, r, k) && x in r.states[k].issued
    ensures var task := r.states[k].tasks[r.steps[k].tid];
            AnswersWith(env, task.fullKey, task.found, r.steps[k].now, x)
  {
    assert StepAt(env, r, k);
    var s := r.states[k];
    var task := s.tasks[r.steps[k].tid];
    RunKeepsBacked(env, r, k);
    assert TaskBacked(env, s.issued, task);
    x :| x in s.issued && Describes(env, x, task.found);
    AcceptedRecord(env, task.fullKey, task.found, r.steps[k].now, x);
  }

  /**
   The request of step k is let through: some verification that completed earlier, made by an owner its
   service listed, issued a key with the presented key's id and digest, and the answer is exactly the
   service and the headers of that issue.
   */
  lemma AcceptedKeyWasIssued(env: Env, r: Run, k: nat) returns (x: Issue, i: nat)
    requires IsRun(env, r) && k < |r.steps| && r.steps[k].Check?
    ensures IssuedBefore(env, r, k, x) && x in r.states[k].issued
    ensures i < k && OwnerVerified(env, r, i, x)
    ensures StepAt(env, r, k)
    ensures var task := r.states[k].tasks[r.steps[k].tid];
            AnswersWith(env, task.fullKey, task.found, r.steps[k].now, x)
  {
    x := AcceptedIsBacked(env, r, k);
    IssuedWasVerified(env, r, k, x);
    var i': nat, j: nat, tid: nat :| i' < j < k && VerifiedAt(env, r, i', tid, x) && CommittedAt(r, j, tid, x);
    i := i';
    VerifiedByOwner(env, r, i, tid, x);
  }

  /** Without a digest collision the presented key is the issued one, to the last character. */
  lemma AcceptedKeyIsTheIssuedOne(env: Env, r: Run, k: nat) returns (x: Issue)
    requires IsRun(env, r) && k < |r.steps| && StepAt(env, r, k) && r.steps[k].Check?
    requires forall y :: y in r.states[k].issued && env.keccak(y.key.fullKey) == env.keccak(r.states[k].tasks[r.steps[k].tid].fullKey)
               ==> y.key.fullKey == r.states[k].tasks[r.steps[k].tid].fullKey
    ensures IssuedBefore(env, r, k, x) && x.key.fullKey == r.states[k].tasks[r.steps[k].tid].fullKey
  {
    var i;
    x, i := AcceptedKeyWasIssued(env, r, k);
  }
}
