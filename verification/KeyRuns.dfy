/** Extending runs of the key store, and how its clock and row stamps evolve along them. */
module KeyRuns {
  import opened Bytes
  import opened KeyNumbers
  import opened KeyProvenance
  import opened KeyStore
  import opened OptimisticDb

  function Last(r: Run): State
    requires r.states != []
  {
    r.states[|r.states| - 1]
  }

  /** `longer` goes on where `r` stops. */
  ghost predicate Extends(r: Run, longer: Run)
  {
    r.states <= longer.states && r.steps <= longer.steps
  }

  /** One more step. */
  ghost function Push(env: Env, r: Run, step: Step): Run
    requires IsRun(env, r) && Enabled(env, Last(r), step)
  {
    Run(r.states + [Next(env, Last(r), step)], r.steps + [step])
  }

  lemma PushRuns(env: Env, r: Run, step: Step)
    requires IsRun(env, r) && Enabled(env, Last(r), step)
    ensures IsRun(env, Push(env, r, step)) && Extends(r, Push(env, r, step))
    ensures Last(Push(env, r, step)) == Next(env, Last(r), step)
  {
    var longer := Push(env, r, step);
    forall i ensures StepAt(env, longer, i) {
      assert StepAt(env, r, i);
    }
  }

  // ---- the clock ----

  /** No row bears a stamp from the future. */
  ghost predicate ClockOk(db: Db)
  {
    forall row :: LastWrite(db, row) <= db.clock
  }

  /** Stamps only grow. */
  ghost predicate Later(db: Db, db': Db)
  {
    forall row :: LastWrite(db, row) <= LastWrite(db', row)
  }

  lemma {:induction false} WriteAllStamps(db: Db, batch: seq<Write>, now: nat, row: Row)
    ensures LastWrite(WriteAll(db, batch, now), row) == LastWrite(db, row) || LastWrite(WriteAll(db, batch, now), row) == now
    decreases |batch|
  {
    if batch != [] {
      WriteAllStamps(Stamp(db, batch[0], now), batch[1..], now, row);
    }
  }

  lemma CommitClock(db: Db, txn: Txn)
    requires ClockOk(db)
    ensures ClockOk(Commit(db, txn)) && Later(db, Commit(db, txn))
  {
    var now := db.clock + 1;
    forall row ensures LastWrite(db, row) <= LastWrite(Commit(db, txn), row) <= now {
      WriteAllStamps(db.(clock := now), txn.batch, now, row);
      assert LastWrite(db.(clock := now), row) == LastWrite(db, row);
    }
  }

  lemma PutClock(db: Db, w: Write)
    requires ClockOk(db)
    ensures ClockOk(Put(db, w)) && Later(db, Put(db, w))
  {
    forall row ensures LastWrite(db, row) <= LastWrite(Put(db, w), row) <= db.clock + 1 {
      assert LastWrite(db, row) <= db.clock;
    }
  }

  /** Every other step leaves clock and stamps alone. */
  lemma UnwrittenClock(env: Env, s: State, step: Step, s': State)
    requires Goes(env, s, step, s') && !step.CommitCreate? && !step.CommitDelete? && !step.Save? && !step.SaveIndex?
    ensures s'.db.clock == s.db.clock && s'.db.lastWrite == s.db.lastWrite
  {}

  lemma SameStamps(db: Db, db': Db)
    requires ClockOk(db) && db'.clock == db.clock && db'.lastWrite == db.lastWrite
    ensures ClockOk(db') && Later(db, db')
  {
    forall row ensures LastWrite(db', row) == LastWrite(db, row) <= db.clock {}
  }

  lemma StepKeepsClock(env: Env, s: State, step: Step, s': State)
    requires ClockOk(s.db) && Goes(env, s, step, s')
    ensures ClockOk(s'.db) && Later(s.db, s'.db)
  {
    if step.CommitCreate? {
      CommitClock(s.db, s.tasks[step.tid].txn);
    } else if step.CommitDelete? {
      CommitClock(s.db, s.tasks[step.tid].drops);
    } else if step.Save? {
      PutClock(s.db, PutKey(s.tasks[step.tid].model));
    } else if step.SaveIndex? {
      PutClock(s.db, PutId(s.tasks[step.tid].model.id, s.tasks[step.tid].model.keyId));
    } else {
      UnwrittenClock(env, s, step, s');
      SameStamps(s.db, s'.db);
    }
  }

  lemma {:induction false} RunKeepsClock(env: Env, r: Run, k: nat)
    requires IsRun(env, r) && k < |r.states|
    ensures ClockOk(r.states[k].db)
  {
    if k > 0 {
      RunKeepsClock(env, r, k - 1);
      assert StepAt(env, r, k - 1);
      StepKeepsClock(env, r.states[k - 1], r.steps[k - 1], r.states[k]);
    }
  }

  // ---- activities that run through ----

  function CreateDistance(pc: Pc): nat
  {
    match pc
    case Begun => 5
    case Added => 4
    case Numbered => 3
    case RowPut => 2
    case IndexPut => 1
  }

  /** A create of the key that nothing keeps from committing. */
  ghost predicate MayCommit(s: State, tid: nat)
  {
    tid in s.tasks && s.tasks[tid].Creating? && s.tasks[tid].payload.KeyPayload? && Committable(s.db, s.tasks[tid].txn)
  }

  lemma ProceedStep(env: Env, s: State, tid: nat, s': State)
    requires MayCommit(s, tid) && s.tasks[tid].pc != IndexPut && ClockOk(s.db) && s' == SetTask(s, tid, Advance(s, tid))
    ensures Goes(env, s, Proceed(tid), s') && MayCommit(s', tid)
    ensures CreateDistance(s'.tasks[tid].pc) < CreateDistance(s.tasks[tid].pc)
    ensures exists id: u64 :: s'.tasks[tid].payload.key == s.tasks[tid].payload.key.(id := id)
  {
    var task, task' := s.tasks[tid], Advance(s, tid);
    forall row | row in task'.txn.tracked ensures LastWrite(s.db, row) <= task'.txn.tracked[row] {
      if row in task.txn.tracked { assert LastWrite(s.db, row) <= task.txn.tracked[row]; }
    }
    assert task'.payload.key == task.payload.key.(id := task'.payload.key.id);
  }

  /** What the commit of the create leaves behind. */
  ghost predicate CreatedFrom(s: State, s': State, tid: nat, m: ApiKeyModel)
  {
    && s'.services == s.services && s'.tasks == s.tasks - {tid}
    && exists id: u64 :: s'.db.keys == s.db.keys[m.keyId := m.(id := id)] && s'.db.ids == s.db.ids[id := m.keyId]
                         && s'.keyLog == s.keyLog + [(id, m.keyId)]
  }

  lemma {:induction false} FinishCreate(env: Env, r: Run, tid: nat) returns (longer: Run)
    requires IsRun(env, r) && MayCommit(Last(r), tid)
    ensures IsRun(env, longer) && Extends(r, longer)
    ensures CreatedFrom(Last(r), Last(longer), tid, Last(r).tasks[tid].payload.key)
    decreases CreateDistance(Last(r).tasks[tid].pc)
  {
    var s := Last(r);
    RunKeepsNumbers(env, r, |r.states| - 1);
    RunKeepsClock(env, r, |r.states| - 1);
    if s.tasks[tid].pc == IndexPut {
      CommitCreates(env, s, tid);
      PushRuns(env, r, CommitCreate(tid));
      longer := Push(env, r, CommitCreate(tid));
    } else {
      ProceedStep(env, s, tid, SetTask(s, tid, Advance(s, tid)));
      PushRuns(env, r, Proceed(tid));
      longer := FinishCreate(env, Push(env, r, Proceed(tid)), tid);
      SameCreate(s, SetTask(s, tid, Advance(s, tid)), Last(longer), tid);
    }
  }

  lemma CommitCreates(env: Env, s: State, tid: nat)
    requires MayCommit(s, tid) && s.tasks[tid].pc == IndexPut && TasksOk(s)
    ensures Enabled(env, s, CommitCreate(tid))
    ensures CreatedFrom(s, Next(env, s, CommitCreate(tid)), tid, s.tasks[tid].payload.key)
  {
    var m := s.tasks[tid].payload.key;
    assert CreateOk(s.db, s.tasks[tid]);
    CommitKeyRows(s.db, s.tasks[tid].txn, m);
    assert m == m.(id := m.id);
  }

  lemma SameCreate(s: State, s1: State, s2: State, tid: nat)
    requires MayCommit(s, tid) && MayCommit(s1, tid) && s1 == SetTask(s, tid, s1.tasks[tid])
    requires exists id: u64 :: s1.tasks[tid].payload.key == s.tasks[tid].payload.key.(id := id)
    requires CreatedFrom(s1, s2, tid, s1.tasks[tid].payload.key)
    ensures CreatedFrom(s, s2, tid, s.tasks[tid].payload.key)
  {
    var m, m1 := s.tasks[tid].payload.key, s1.tasks[tid].payload.key;
    var id: u64 :| s2.db.keys == s1.db.keys[m1.keyId := m1.(id := id)] && s2.db.ids == s1.db.ids[id := m1.keyId]
                   && s2.keyLog == s1.keyLog + [(id, m1.keyId)];
    assert m1.(id := id) == m.(id := id);
    assert s1.tasks - {tid} == s.tasks - {tid};
  }

  /** A delete that runs through. */
  lemma FinishDelete(env: Env, r: Run, tid: nat, k: string) returns (longer: Run)
    requires IsRun(env, r) && tid !in Last(r).tasks && k in Last(r).db.keys
    ensures IsRun(env, longer) && Extends(r, longer) && |longer.steps| == |r.steps| + 4
    ensures longer.steps[|r.steps| + 3] == CommitDelete(tid)
    ensures var s := longer.states[|r.steps| + 3];
            tid in s.tasks && s.tasks[tid].Deleting? && s.tasks[tid].victim == Last(r).db.keys[k]
    ensures var s, s' := Last(r), Last(longer);
            && s'.tasks == s.tasks && s'.services == s.services && s'.keyLog == s.keyLog
            && s'.db.keys == s.db.keys - {s.db.keys[k].keyId} && s'.db.ids == s.db.ids - {s.db.keys[k].id}
  {
    var s := Last(r);
    RunKeepsClock(env, r, |r.states| - 1);
    var s1 := SetTask(s, tid, Deleting(s.db.keys[k], Begun, EMPTY_TXN));
    PushRuns(env, r, BeginDelete(tid, k));
    var r1 := Push(env, r, BeginDelete(tid, k));
    assert Last(r1) == s1;
    longer := FinishDrops(env, r1, tid);
  }

  lemma FinishDrops(env: Env, r: Run, tid: nat) returns (longer: Run)
    requires IsRun(env, r) && tid in Last(r).tasks && Last(r).tasks[tid].Deleting?
    requires Last(r).tasks[tid].stage == Begun && Last(r).tasks[tid].drops == EMPTY_TXN
    ensures IsRun(env, longer) && Extends(r, longer) && |longer.steps| == |r.steps| + 3
    ensures longer.steps[|r.steps| + 2] == CommitDelete(tid)
    ensures var s := longer.states[|r.steps| + 2];
            tid in s.tasks && s.tasks[tid].Deleting? && s.tasks[tid].victim == Last(r).tasks[tid].victim
    ensures var s, s', m := Last(r), Last(longer), Last(r).tasks[tid].victim;
            && s'.tasks == s.tasks - {tid} && s'.services == s.services && s'.keyLog == s.keyLog
            && s'.db.keys == s.db.keys - {m.keyId} && s'.db.ids == s.db.ids - {m.id}
  {
    var m := Last(r).tasks[tid].victim;
    var r2, txn := RecordDrops(env, r, tid);
    CommitDrops(Last(r).db, txn, m);
    PushRuns(env, r2, CommitDelete(tid));
    longer := Push(env, r2, CommitDelete(tid));
    assert longer.states[|r.steps| + 2] == Last(r2);
  }

  lemma RecordDrops(env: Env, r: Run, tid: nat) returns (longer: Run, txn: Txn)
    requires IsRun(env, r) && tid in Last(r).tasks && Last(r).tasks[tid].Deleting?
    requires Last(r).tasks[tid].stage == Begun && Last(r).tasks[tid].drops == EMPTY_TXN
    ensures IsRun(env, longer) && Extends(r, longer) && |longer.steps| == |r.steps| + 2
    ensures txn.batch == DropsAt(Last(r).tasks[tid].victim, IndexPut) && Committable(Last(r).db, txn)
    ensures Last(longer) == SetTask(Last(r), tid, Deleting(Last(r).tasks[tid].victim, IndexPut, txn))
  {
    RunKeepsClock(env, r, |r.states| - 1);
    var s := Last(r);
    DropsReady(env, s, tid);
    PushRuns(env, r, Drop(tid));
    var r1 := Push(env, r, Drop(tid));
    PushRuns(env, r1, Drop(tid));
    longer := Push(env, r1, Drop(tid));
    txn := Last(longer).tasks[tid].drops;
  }

  lemma DropsReady(env: Env, s: State, tid: nat)
    requires ClockOk(s.db) && tid in s.tasks && s.tasks[tid].Deleting?
    requires s.tasks[tid].stage == Begun && s.tasks[tid].drops == EMPTY_TXN
    ensures var m := s.tasks[tid].victim;
            var txn := Record(s.db, Record(s.db, EMPTY_TXN, DropKey(m.keyId)), DropId(m.id));
            && txn.batch == DropsAt(m, IndexPut) && Committable(s.db, txn)
            && Enabled(env, s, Drop(tid))
            && Enabled(env, Next(env, s, Drop(tid)), Drop(tid))
            && Next(env, Next(env, s, Drop(tid)), Drop(tid)) == SetTask(s, tid, Deleting(m, IndexPut, txn))
  {
    var m := s.tasks[tid].victim;
    var one := Record(s.db, EMPTY_TXN, DropKey(m.keyId));
    assert Next(env, s, Drop(tid)) == SetTask(s, tid, Deleting(m, RowPut, one));
  }
}
