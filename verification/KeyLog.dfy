/**
 The pairs of number and key id that committed creates handed out. Every record, every index entry and
 every copy of a record in flight bears such a pair, in every state of every run.
 */
module KeyLog {
  import opened Bytes
  import opened KeyNumbers
  import opened KeyProvenance
  import opened KeyStore
  import opened OptimisticDb

  type Keys = map<string, ApiKeyModel>
  type Ids = map<u64, string>
  type Log = seq<(u64, string)>

  ghost predicate Logged(log: Log, m: ApiKeyModel)
  {
    (m.id, m.keyId) in log
  }

  ghost predicate TaskLogged(log: Log, task: Task)
  {
    match task
    case Creating(_, _, _, _) => true
    case Checking(_, m) => Logged(log, m)
    case Saving(m) => Logged(log, m)
    case Indexing(m) => Logged(log, m)
    case Deleting(m, _, _) => Logged(log, m)
  }

  ghost predicate KeysLogged(log: Log, keys: Keys)
  {
    forall k :: k in keys ==> keys[k].keyId == k && Logged(log, keys[k])
  }

  ghost predicate IdsLogged(log: Log, ids: Ids)
  {
    forall id :: id in ids ==> (id, ids[id]) in log
  }

  ghost predicate TasksLogged(log: Log, tasks: map<nat, Task>)
  {
    forall tid :: tid in tasks ==> TaskLogged(log, tasks[tid])
  }

  ghost predicate AllLogged(s: State)
  {
    KeysLogged(s.keyLog, s.db.keys) && IdsLogged(s.keyLog, s.db.ids) && TasksLogged(s.keyLog, s.tasks)
  }

  // ---- every step keeps the pairs ----

  lemma LoggedGrows(log: Log, p: (u64, string), keys: Keys, ids: Ids, tasks: map<nat, Task>)
    requires KeysLogged(log, keys) && IdsLogged(log, ids) && TasksLogged(log, tasks)
    ensures KeysLogged(log + [p], keys) && IdsLogged(log + [p], ids) && TasksLogged(log + [p], tasks)
  {
    forall tid | tid in tasks ensures TaskLogged(log + [p], tasks[tid]) {
      assert TaskLogged(log, tasks[tid]);
    }
  }

  lemma CreatedLogged(env: Env, s: State, tid: nat)
    requires AllLogged(s) && TasksOk(s) && Enabled(env, s, CommitCreate(tid))
    ensures AllLogged(Created(s, tid))
  {
    var task := s.tasks[tid];
    assert CreateOk(s.db, task);
    match task.payload {
      case KeyPayload(m) =>
        CommitKeyRows(s.db, task.txn, m);
        LoggedGrows(s.keyLog, (m.id, m.keyId), s.db.keys, s.db.ids, s.tasks - {tid});
      case TokenPayload(token) =>
        CommitTokenRows(s.db, task.txn, token);
    }
  }

  lemma SavedLogged(env: Env, s: State, step: Step, s': State)
    requires AllLogged(s) && Goes(env, s, step, s') && (step.Save? || step.SaveIndex?)
    ensures AllLogged(s')
  {
    assert TaskLogged(s.keyLog, s.tasks[step.tid]);
  }

  lemma SetTaskLogged(s: State, tid: nat, task: Task)
    requires AllLogged(s) && TaskLogged(s.keyLog, task)
    ensures AllLogged(SetTask(s, tid, task))
  {}

  lemma FetchLogged(env: Env, s: State, step: Step, s': State)
    requires AllLogged(s) && Goes(env, s, step, s')
    requires step.Verify? || step.NewToken? || step.Lookup? || step.Edit? || step.BeginDelete? || step.Check? || step.Drop?
    ensures AllLogged(s')
  {
    if step.Check? || step.Drop? {
      assert TaskLogged(s.keyLog, s.tasks[step.tid]);
    }
    SetTaskLogged(s, step.tid, s'.tasks[step.tid]);
  }

  lemma QuietLogged(env: Env, s: State, step: Step, s': State)
    requires AllLogged(s) && Goes(env, s, step, s')
    requires step.Proceed? || step.Fail?
             || step.SetServices? || step.Regroup? || step.Flush?
    ensures AllLogged(s')
  {}

  lemma StepKeepsLogged(env: Env, s: State, step: Step, s': State)
    requires AllLogged(s) && TasksOk(s) && DeletesOk(s) && Goes(env, s, step, s')
    ensures AllLogged(s')
  {
    if step.CommitCreate? {
      CreatedLogged(env, s, step.tid);
    } else if step.CommitDelete? {
      CommitDrops(s.db, s.tasks[step.tid].drops, s.tasks[step.tid].victim);
    } else if step.Save? || step.SaveIndex? {
      SavedLogged(env, s, step, s');
    } else if step.Proceed? || step.Fail?
              || step.SetServices? || step.Regroup? || step.Flush? {
      QuietLogged(env, s, step, s');
    } else {
      FetchLogged(env, s, step, s');
    }
  }

  lemma {:induction false} RunKeepsLogged(env: Env, r: Run, n: nat)
    requires IsRun(env, r) && n < |r.states|
    ensures AllLogged(r.states[n])
  {
    if n > 0 {
      RunKeepsLogged(env, r, n - 1);
      RunKeepsNumbers(env, r, n - 1);
      assert StepAt(env, r, n - 1);
      StepKeepsLogged(env, r.states[n - 1], r.steps[n - 1], r.states[n]);
    }
  }

  /** Logs only grow. */
  lemma LogGrows(env: Env, s: State, step: Step, s': State)
    requires Goes(env, s, step, s')
    ensures s.keyLog <= s'.keyLog
  {}

  // ---- runs with distinct key ids ----

  predicate NoClash(p: (u64, string), q: (u64, string))
  {
    p.0 == q.0 || p.1 == q.1 ==> p == q
  }

  /** No number and no key id was handed out twice, and no record got number 0. */
  ghost predicate LogInjective(log: Log)
  {
    && (forall p, q {:trigger NoClash(p, q)} :: p in log && q in log ==> NoClash(p, q))
    && (forall p :: p in log ==> p.0 != 0)
  }

  ghost predicate DistinctKeyIds(log: Log)
  {
    forall i, j :: 0 <= i < j < |log| ==> log[i].1 != log[j].1
  }

  /** Up to state n the run created fewer than 2^64 keys, all with different key ids. */
  ghost predicate Distinct(r: Run, n: nat)
  {
    n < |r.states| && |r.states[n].keyLog| < TWO_64 && DistinctKeyIds(r.states[n].keyLog)
  }

  lemma DistinctBefore(env: Env, r: Run, n: nat)
    requires IsRun(env, r) && 0 < n && Distinct(r, n)
    ensures Distinct(r, n - 1)
  {
    assert StepAt(env, r, n - 1);
    LogGrows(env, r.states[n - 1], r.steps[n - 1], r.states[n]);
  }

  lemma LogOfRun(env: Env, r: Run, n: nat)
    requires IsRun(env, r) && Distinct(r, n)
    ensures LogInjective(r.states[n].keyLog)
  {
    var log := r.states[n].keyLog;
    CommittedIdsAreConsecutive(env, r, n, ApiKeys);
    forall i | 0 <= i < |log| ensures log[i].0 == i + 1 {
      assert IdLog(r.states[n], ApiKeys)[i] == log[i].0;
    }
    NumberedInjective(log);
  }

  lemma NumberedInjective(log: Log)
    requires DistinctKeyIds(log) && forall i :: 0 <= i < |log| ==> log[i].0 == i + 1
    ensures LogInjective(log)
  {
    forall p, q | p in log && q in log ensures NoClash(p, q) {
      var i :| 0 <= i < |log| && log[i] == p;
      var j :| 0 <= j < |log| && log[j] == q;
    }
  }
}
