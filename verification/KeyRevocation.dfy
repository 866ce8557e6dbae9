/**
 Whether deleting or disabling an API key lasts. A request that fetched the key before it was revoked
 writes its whole copy back to record the time of use, so a revocation holds in every continuation of
 a run exactly when no such activity is under way.
 */
module KeyRevocation {
  import opened Bytes
  import opened KeyIndex
  import opened KeyLog
  import opened KeyNumbers
  import opened KeyProvenance
  import opened KeyRuns
  import opened KeyStore
  import opened Options
  import opened OptimisticDb
  import Credentials

  datatype Revocation = Deleted | Disabled

  /** A copy of key `k` that would undo the revocation if it were stored. */
  predicate Undoes(v: Revocation, k: string, m: ApiKeyModel)
  {
    m.keyId == k && (v.Disabled? ==> m.enabled)
  }

  /** The key is stored as if it had not been revoked. */
  ghost predicate Usable(s: State, v: Revocation, k: string)
  {
    k in s.db.keys && Undoes(v, k, s.db.keys[k])
  }

  /** The activity holds such a copy and nothing that has happened keeps it from storing it. */
  ghost predicate CanRestore(env: Env, db: Db, task: Task, v: Revocation, k: string)
  {
    match task
    case Creating(KeyPayload(m), _, _, txn) => Undoes(v, k, m) && Committable(db, txn)
    case Checking(fullKey, m) => Undoes(v, k, m) && exists now: u64 :: Accepts(env, m, fullKey, now)
    case Saving(m) => Undoes(v, k, m)
    case _ => false
  }

  ghost predicate Pending(env: Env, s: State, tid: nat, v: Revocation, k: string)
  {
    tid in s.tasks && CanRestore(env, s.db, s.tasks[tid], v, k)
  }

  ghost predicate NonePending(env: Env, s: State, v: Revocation, k: string)
  {
    forall tid :: !Pending(env, s, tid, v, k)
  }

  /** Revoked, and nobody under way can undo it. */
  ghost predicate Gone(env: Env, s: State, v: Revocation, k: string)
  {
    !Usable(s, v, k) && NonePending(env, s, v, k)
  }

  /** The step brings the key back on purpose: a verification generates it anew, or an edit enables it. */
  ghost predicate Renews(s: State, step: Step, v: Revocation, k: string)
  {
    || (step.Verify? && step.service in s.services && |step.secret| == 32
        && Credentials.GenerateKey(s.services[step.service].prefix, step.secret).keyId == k)
    || (v.Disabled? && step.Edit? && step.keyId == k && step.enabled)
  }

  // ---- a lasting revocation lasts ----

  lemma RestorableBefore(env: Env, db: Db, db': Db, task: Task, v: Revocation, k: string)
    requires Later(db, db') && CanRestore(env, db', task, v, k)
    ensures CanRestore(env, db, task, v, k)
  {
    if task.Creating? {
      forall row | row in task.txn.tracked ensures LastWrite(db, row) <= task.txn.tracked[row] {
        assert LastWrite(db, row) <= LastWrite(db', row);
      }
    }
  }

  /** A task's next form can restore the key only if it could before. */
  lemma AdvanceRestores(env: Env, s: State, tid: nat, v: Revocation, k: string)
    requires tid in s.tasks && s.tasks[tid].Creating? && CanRestore(env, s.db, Advance(s, tid), v, k)
    ensures Pending(env, s, tid, v, k)
  {
    var txn, txn' := s.tasks[tid].txn, Advance(s, tid).txn;
    forall row | row in txn.tracked ensures LastWrite(s.db, row) <= txn.tracked[row] {
      assert row in txn'.tracked && txn'.tracked[row] == txn.tracked[row];
    }
  }

  /** Every task is an old one or harmless. */
  ghost predicate Harmless(env: Env, s: State, s': State, tid: nat, v: Revocation, k: string)
  {
    tid in s'.tasks ==> (tid in s.tasks && s'.tasks[tid] == s.tasks[tid]) || !CanRestore(env, s'.db, s'.tasks[tid], v, k)
  }

  lemma TasksHarmless(env: Env, s: State, s': State, v: Revocation, k: string)
    requires Gone(env, s, v, k) && Later(s.db, s'.db) && !Usable(s', v, k)
    requires forall tid :: Harmless(env, s, s', tid, v, k)
    ensures Gone(env, s', v, k)
  {
    forall tid ensures !Pending(env, s', tid, v, k) {
      assert !Pending(env, s, tid, v, k) && Harmless(env, s, s', tid, v, k);
      if Pending(env, s', tid, v, k) {
        RestorableBefore(env, s.db, s'.db, s'.tasks[tid], v, k);
      }
    }
  }

  lemma SetTaskGone(env: Env, s: State, tid: nat, task: Task, v: Revocation, k: string)
    requires Gone(env, s, v, k) && !CanRestore(env, s.db, task, v, k)
    ensures Gone(env, SetTask(s, tid, task), v, k)
  {
    TasksHarmless(env, s, SetTask(s, tid, task), v, k);
  }

  /** A copy fetched now undoes nothing that the table does not. */
  lemma FetchGone(env: Env, s: State, step: Step, s': State, v: Revocation, k: string)
    requires Goes(env, s, step, s') && Gone(env, s, v, k) && !Renews(s, step, v, k) && AllBacked(env, s)
    requires step.Verify? || step.NewToken? || step.Lookup? || step.Edit? || step.BeginDelete? || step.Drop?
    ensures Gone(env, s', v, k)
  {
    SetTaskGone(env, s, step.tid, s'.tasks[step.tid], v, k);
  }

  /** A request with the key would have been one that could restore it. */
  lemma CheckGone(env: Env, s: State, step: Step, s': State, v: Revocation, k: string)
    requires Goes(env, s, step, s') && step.Check? && Gone(env, s, v, k)
    ensures Gone(env, s', v, k)
    ensures s.tasks[step.tid].found.keyId != k
  {
    assert !Pending(env, s, step.tid, v, k);
    SetTaskGone(env, s, step.tid, s'.tasks[step.tid], v, k);
  }

  lemma AdvanceGone(env: Env, s: State, step: Step, s': State, v: Revocation, k: string)
    requires Goes(env, s, step, s') && Gone(env, s, v, k)
    requires step.Proceed?
    ensures Gone(env, s', v, k)
  {
    if CanRestore(env, s.db, Advance(s, step.tid), v, k) {
      AdvanceRestores(env, s, step.tid, v, k);
      assert false;
    }
    SetTaskGone(env, s, step.tid, Advance(s, step.tid), v, k);
  }

  lemma CreatedGone(env: Env, s: State, tid: nat, v: Revocation, k: string)
    requires Enabled(env, s, CommitCreate(tid)) && Gone(env, s, v, k) && TasksOk(s) && ClockOk(s.db)
    ensures Gone(env, Created(s, tid), v, k)
  {
    var task, s' := s.tasks[tid], Created(s, tid);
    assert CreateOk(s.db, task) && !Pending(env, s, tid, v, k);
    CommitClock(s.db, task.txn);
    match task.payload {
      case KeyPayload(m) => CommitKeyRows(s.db, task.txn, m);
      case TokenPayload(token) => CommitTokenRows(s.db, task.txn, token);
    }
    TasksHarmless(env, s, s', v, k);
  }

  lemma DeletedGone(env: Env, s: State, tid: nat, v: Revocation, k: string)
    requires Enabled(env, s, CommitDelete(tid)) && Gone(env, s, v, k) && DeletesOk(s) && ClockOk(s.db)
    ensures Gone(env, Next(env, s, CommitDelete(tid)), v, k)
  {
    CommitClock(s.db, s.tasks[tid].drops);
    CommitDrops(s.db, s.tasks[tid].drops, s.tasks[tid].victim);
    TasksHarmless(env, s, Next(env, s, CommitDelete(tid)), v, k);
  }

  lemma SavedGone(env: Env, s: State, tid: nat, v: Revocation, k: string)
    requires Enabled(env, s, Save(tid)) && Gone(env, s, v, k) && ClockOk(s.db)
    ensures Gone(env, SaveRow(s, tid), v, k)
  {
    assert !Pending(env, s, tid, v, k);
    PutClock(s.db, PutKey(s.tasks[tid].model));
    TasksHarmless(env, s, SaveRow(s, tid), v, k);
  }

  lemma OtherGone(env: Env, s: State, step: Step, s': State, v: Revocation, k: string)
    requires Goes(env, s, step, s') && Gone(env, s, v, k) && ClockOk(s.db)
    requires step.SaveIndex? || step.Fail? || step.SetServices? || step.Regroup? || step.Flush?
    ensures Gone(env, s', v, k)
  {
    StepKeepsClock(env, s, step, s');
    TasksHarmless(env, s, s', v, k);
  }

  lemma StepKeepsGone(env: Env, s: State, step: Step, s': State, v: Revocation, k: string)
    requires Goes(env, s, step, s') && Gone(env, s, v, k) && !Renews(s, step, v, k)
    requires AllBacked(env, s) && TasksOk(s) && DeletesOk(s) && ClockOk(s.db)
    ensures Gone(env, s', v, k)
    ensures step.Check? ==> s.tasks[step.tid].found.keyId != k
  {
    if step.CommitCreate? {
      CreatedGone(env, s, step.tid, v, k);
    } else if step.CommitDelete? {
      DeletedGone(env, s, step.tid, v, k);
    } else if step.Save? {
      SavedGone(env, s, step.tid, v, k);
    } else if step.Proceed? {
      AdvanceGone(env, s, step, s', v, k);
    } else if step.SaveIndex? || step.Fail? || step.SetServices? || step.Regroup? || step.Flush? {
      OtherGone(env, s, step, s', v, k);
    } else if step.Check? {
      CheckGone(env, s, step, s', v, k);
    } else {
      FetchGone(env, s, step, s', v, k);
    }
  }

  /** Step i, if there is one, does not bring the key back on purpose. */
  ghost predicate NotRenewed(r: Run, i: int, v: Revocation, k: string)
  {
    0 <= i < |r.steps| && i < |r.states| ==> !Renews(r.states[i], r.steps[i], v, k)
  }

  /** Step i, if there is one, does not let a request with the key through. */
  ghost predicate NotAccepted(r: Run, i: int, k: string)
  {
    0 <= i < |r.steps| && i < |r.states| && r.steps[i].Check? && r.steps[i].tid in r.states[i].tasks ==>
      var task := r.states[i].tasks[r.steps[i].tid]; task.Checking? ==> task.found.keyId != k
  }

  lemma RunStepGone(env: Env, r: Run, i: nat, v: Revocation, k: string)
    requires IsRun(env, r) && i < |r.steps| && Gone(env, r.states[i], v, k) && NotRenewed(r, i, v, k)
    ensures Gone(env, r.states[i + 1], v, k) && NotAccepted(r, i, k)
  {
    RunKeepsBacked(env, r, i);
    RunKeepsNumbers(env, r, i);
    RunKeepsClock(env, r, i);
    assert StepAt(env, r, i);
    StepKeepsGone(env, r.states[i], r.steps[i], r.states[i + 1], v, k);
  }

  /** From then on the key is neither stored in usable form nor let through again. */
  lemma {:induction false} StaysGone(env: Env, r: Run, d: nat, n: nat, v: Revocation, k: string)
    requires IsRun(env, r) && d <= n < |r.states| && Gone(env, r.states[d], v, k)
    requires forall i :: d <= i < n ==> NotRenewed(r, i, v, k)
    ensures Gone(env, r.states[n], v, k)
    ensures forall i :: d <= i < n ==> NotAccepted(r, i, k)
    decreases n - d
  {
    if d < n {
      StaysGone(env, r, d, n - 1, v, k);
      assert NotRenewed(r, n - 1, v, k);
      RunStepGone(env, r, n - 1, v, k);
    }
  }

  // ---- any other revocation can be undone ----

  /** How many steps an activity is from storing its copy. */
  function Distance(task: Task): nat
  {
    match task
    case Checking(_, _) => 7
    case Saving(_) => 6
    case Creating(_, _, pc, _) => CreateDistance(pc)
    case _ => 0
  }

  /** The activity's next step is possible, and stores the copy or brings it closer. */
  ghost predicate Progress(env: Env, s: State, step: Step, tid: nat, v: Revocation, k: string)
  {
    && Enabled(env, s, step) && !Renews(s, step, v, k)
    && (Usable(Next(env, s, step), v, k)
        || (Pending(env, Next(env, s, step), tid, v, k)
            && tid in s.tasks && Distance(Next(env, s, step).tasks[tid]) < Distance(s.tasks[tid])))
  }

  lemma CreateProgress(env: Env, s: State, tid: nat, v: Revocation, k: string)
    requires Pending(env, s, tid, v, k) && s.tasks[tid].Creating? && s.tasks[tid].pc != IndexPut && ClockOk(s.db)
    ensures Progress(env, s, Proceed(tid), tid, v, k)
  {
    ProceedStep(env, s, tid, SetTask(s, tid, Advance(s, tid)));
  }

  lemma CommitProgress(env: Env, s: State, tid: nat, v: Revocation, k: string)
    requires Pending(env, s, tid, v, k) && s.tasks[tid].Creating? && s.tasks[tid].pc == IndexPut && TasksOk(s)
    ensures Progress(env, s, CommitCreate(tid), tid, v, k)
  {
    assert CreateOk(s.db, s.tasks[tid]);
    CommitKeyRows(s.db, s.tasks[tid].txn, s.tasks[tid].payload.key);
  }

  lemma RestoreStep(env: Env, s: State, tid: nat, v: Revocation, k: string) returns (step: Step)
    requires Pending(env, s, tid, v, k) && TasksOk(s) && ClockOk(s.db)
    ensures Progress(env, s, step, tid, v, k)
  {
    match s.tasks[tid] {
      case Checking(fullKey, m) =>
        var now: u64 :| Accepts(env, m, fullKey, now);
        step := Check(tid, now);
      case Saving(m) =>
        step := Save(tid);
      case Creating(_, _, pc, _) =>
        if pc == IndexPut {
          step := CommitCreate(tid);
          CommitProgress(env, s, tid, v, k);
        } else {
          step := Proceed(tid);
          CreateProgress(env, s, tid, v, k);
        }
    }
  }

  /** A continuation of the run that does not bring the key back on purpose. */
  ghost predicate Continues(env: Env, r: Run, longer: Run, v: Revocation, k: string)
  {
    && IsRun(env, longer) && Extends(r, longer)
    && forall i :: |r.steps| <= i < |longer.steps| ==> NotRenewed(longer, i, v, k)
  }

  lemma OneMore(env: Env, r: Run, tid: nat, v: Revocation, k: string) returns (longer: Run)
    requires IsRun(env, r) && Pending(env, Last(r), tid, v, k)
    ensures Continues(env, r, longer, v, k)
    ensures Usable(Last(longer), v, k)
            || (Pending(env, Last(longer), tid, v, k) && Distance(Last(longer).tasks[tid]) < Distance(Last(r).tasks[tid]))
  {
    var n := |r.states| - 1;
    RunKeepsNumbers(env, r, n);
    RunKeepsClock(env, r, n);
    var step := RestoreStep(env, Last(r), tid, v, k);
    PushContinues(env, r, step, v, k);
    longer := Push(env, r, step);
  }

  lemma PushContinues(env: Env, r: Run, step: Step, v: Revocation, k: string)
    requires IsRun(env, r) && Enabled(env, Last(r), step) && !Renews(Last(r), step, v, k)
    ensures Continues(env, r, Push(env, r, step), v, k) && Last(Push(env, r, step)) == Next(env, Last(r), step)
  {
    PushRuns(env, r, step);
    OneStepContinues(env, r, Push(env, r, step), v, k);
  }

  lemma OneStepContinues(env: Env, r: Run, longer: Run, v: Revocation, k: string)
    requires |r.states| == |r.steps| + 1 && IsRun(env, longer) && Extends(r, longer) && |longer.steps| == |r.steps| + 1
    requires !Renews(Last(r), longer.steps[|r.steps|], v, k)
    ensures Continues(env, r, longer, v, k)
  {
    assert longer.states[|r.steps|] == Last(r);
    forall i | |r.steps| <= i < |longer.steps| ensures NotRenewed(longer, i, v, k) {
      assert i == |r.steps|;
    }
  }

  lemma {:induction false} Restore(env: Env, r: Run, tid: nat, v: Revocation, k: string) returns (longer: Run)
    requires IsRun(env, r) && Pending(env, Last(r), tid, v, k)
    ensures Continues(env, r, longer, v, k) && Usable(Last(longer), v, k)
    decreases Distance(Last(r).tasks[tid])
  {
    var once := OneMore(env, r, tid, v, k);
    if Usable(Last(once), v, k) {
      longer := once;
    } else {
      longer := Restore(env, once, tid, v, k);
      ContinuesOn(env, r, once, longer, v, k);
    }
  }

  lemma ContinuesOn(env: Env, r: Run, once: Run, longer: Run, v: Revocation, k: string)
    requires Continues(env, r, once, v, k) && Continues(env, once, longer, v, k)
    ensures Continues(env, r, longer, v, k)
  {
    forall i | |r.steps| <= i < |longer.steps| ensures NotRenewed(longer, i, v, k) {
      if i < |once.steps| {
        assert NotRenewed(once, i, v, k);
        assert once.steps[i] == longer.steps[i] && once.states[i] == longer.states[i];
      }
    }
  }

  /**
   A revocation holds in every continuation exactly when no activity under way holds a copy that it
   can still store.
   */
  lemma RevocationLastsIff(env: Env, r: Run, v: Revocation, k: string)
    requires IsRun(env, r) && !Usable(Last(r), v, k)
    ensures (forall longer :: Continues(env, r, longer, v, k) ==> !Usable(Last(longer), v, k)) <==>
            NonePending(env, Last(r), v, k)
  {
    if tid: nat :| Pending(env, Last(r), tid, v, k) {
      var longer := Restore(env, r, tid, v, k);
    } else {
      forall longer | Continues(env, r, longer, v, k) ensures !Usable(Last(longer), v, k) {
        assert longer.states[|r.states| - 1] == Last(r);
        StaysGone(env, longer, |r.states| - 1, |longer.states| - 1, v, k);
      }
    }
  }

  /** A logged key without a row is not found by its number either. */
  lemma AbsentById(env: Env, r: Run, n: nat, id: u64, k: string)
    requires IsRun(env, r) && Distinct(r, n) && (id, k) in r.states[n].keyLog && k !in r.states[n].db.keys
    ensures FindById(r.states[n].db, id) == None
  {
    LogOfRun(env, r, n);
    RunKeepsLogged(env, r, n);
    var ids := r.states[n].db.ids;
    if id in ids {
      assert NoClash((id, k), (id, ids[id]));
    }
  }

  lemma {:induction false} LogKept(env: Env, r: Run, d: nat, n: nat, p: (u64, string))
    requires IsRun(env, r) && d <= n < |r.states| && p in r.states[d].keyLog
    ensures p in r.states[n].keyLog
    decreases n - d
  {
    if d < n {
      LogKept(env, r, d, n - 1, p);
      assert StepAt(env, r, n - 1);
      LogGrows(env, r.states[n - 1], r.steps[n - 1], r.states[n]);
    }
  }

  /**
   After a committed delete with nobody else holding the key, it is absent from every later state and
   never let through again, until a verification generates it anew.
   */
  lemma DeletedIsGone(env: Env, r: Run, d: nat, n: nat, k: string)
    requires IsRun(env, r) && d < n < |r.states| && DeletedAt(env, r, d, k)
    requires NonePending(env, r.states[d + 1], Deleted, k)
    requires forall i :: d < i < n ==> NotRenewed(r, i, Deleted, k)
    ensures FindByKeyId(r.states[n].db, k) == None
    ensures Distinct(r, n) ==> FindById(r.states[n].db, r.states[d].tasks[r.steps[d].tid].victim.id) == None
    ensures forall i :: d < i < n ==> NotAccepted(r, i, k)
  {
    DropsKey(env, r, d, k);
    StaysGone(env, r, d + 1, n, Deleted, k);
    RunKeepsBacked(env, r, n);
    if Distinct(r, n) {
      var task := r.states[d].tasks[r.steps[d].tid];
      RunKeepsLogged(env, r, d);
      assert TaskLogged(r.states[d].keyLog, task);
      LogKept(env, r, d, n, (task.victim.id, k));
      AbsentById(env, r, n, task.victim.id, k);
    }
  }

  /** Step d commits a delete of the key. */
  ghost predicate DeletedAt(env: Env, r: Run, d: nat, k: string)
    requires IsRun(env, r)
  {
    && d < |r.steps| && StepAt(env, r, d) && r.steps[d].CommitDelete?
    && r.states[d].tasks[r.steps[d].tid].victim.keyId == k
  }

  lemma DropsKey(env: Env, r: Run, d: nat, k: string)
    requires IsRun(env, r) && DeletedAt(env, r, d, k)
    ensures k !in r.states[d + 1].db.keys
  {
    var s, tid := r.states[d], r.steps[d].tid;
    RunKeepsNumbers(env, r, d);
    CommitDrops(s.db, s.tasks[tid].drops, s.tasks[tid].victim);
  }
}
