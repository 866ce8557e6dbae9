/**
 Ids drawn by concurrent creates: in every run the committed ids of a table are 1, 2, 3, ...
 in commit order, whatever the interleaving and however many creates failed.
 */
module KeyNumbers {
  import opened Bytes
  import opened KeyStore
  import opened MergeOperator
  import opened OptimisticDb

  /** The ids committed to a table, oldest first. */
  function IdLog(s: State, t: Table): seq<u64>
  {
    match t
    case ApiKeys => seq(|s.keyLog|, i requires 0 <= i < |s.keyLog| => s.keyLog[i].0)
    case Tokens => s.tokenLog
  }

  /** The batch of a create at each point of its progress. */
  function BatchAt(p: Payload, pc: Pc): seq<Write>
  {
    match pc
    case Begun => []
    case Added => [Add(TableOf(p))]
    case Numbered => [Add(TableOf(p))]
    case RowPut => [Add(TableOf(p)), RowWrite(p)]
    case IndexPut =>
      match p
      case KeyPayload(m) => [Add(ApiKeys), PutKey(m), PutId(m.id, m.keyId)]
      case TokenPayload(m) => [Add(Tokens), PutToken(m)]
  }

  /**
   A create in progress: its batch is the expected one, what it tracks is not ahead of the database,
   and unless its counter was written since it was tracked, its id is still the next one.
   */
  ghost predicate CreateOk(db: Db, task: Task)
    requires task.Creating?
  {
    var row := CounterRow(TableOf(task.payload));
    && task.txn.batch == BatchAt(task.payload, task.pc)
    && (forall r :: r in task.txn.tracked ==> task.txn.tracked[r] <= db.clock)
    && (task.pc != Begun ==> row in task.txn.tracked)
    && (task.pc != Begun && task.pc != Added && LastWrite(db, row) <= task.txn.tracked[row] ==>
          IdOf(task.payload) == (Counter(db, TableOf(task.payload)) + 1) % TWO_64)
  }

  ghost predicate TasksOk(s: State)
  {
    forall tid :: tid in s.tasks && s.tasks[tid].Creating? ==> CreateOk(s.db, s.tasks[tid])
  }

  /** The batch of a delete at each point of its progress. */
  function DropsAt(m: ApiKeyModel, stage: Pc): seq<Write>
  {
    match stage
    case RowPut => [DropKey(m.keyId)]
    case IndexPut => [DropKey(m.keyId), DropId(m.id)]
    case _ => []
  }

  ghost predicate DeletesOk(s: State)
  {
    forall tid :: tid in s.tasks && s.tasks[tid].Deleting? ==>
      s.tasks[tid].drops.batch == DropsAt(s.tasks[tid].victim, s.tasks[tid].stage)
  }

  /** The counter of a table counts its committed creates, and the i-th of them got id i (from 1, modulo 2^64). */
  ghost predicate LogOk(s: State, t: Table)
  {
    && Counter(s.db, t) == |IdLog(s, t)| % TWO_64
    && forall i :: 0 <= i < |IdLog(s, t)| ==> IdLog(s, t)[i] == (i + 1) % TWO_64
  }

  ghost predicate NumbersOk(s: State)
  {
    TasksOk(s) && DeletesOk(s) && forall t :: LogOk(s, t)
  }

  // ---- creates in progress survive whatever the database does ----

  lemma CreateStable(db: Db, db': Db, task: Task)
    requires task.Creating? && CreateOk(db, task) && db.clock <= db'.clock
    requires CounterSafe(db, db', TableOf(task.payload), db.clock)
    ensures CreateOk(db', task)
  {
    var t := TableOf(task.payload);
    if CellOf(db', t) == CellOf(db, t) {
      assert Counter(db', t) == Counter(db, t);
    }
  }

  lemma CommitSafe(db: Db, txn: Txn, t: Table)
    ensures Commit(db, txn).clock == db.clock + 1
    ensures CounterSafe(db, Commit(db, txn), t, db.clock)
  {
    WriteAllSafe(db.(clock := db.clock + 1), txn.batch, db.clock + 1, t, db.clock);
  }

  lemma PutSafe(db: Db, w: Write, t: Table)
    ensures Put(db, w).clock == db.clock + 1
    ensures CounterSafe(db, Put(db, w), t, db.clock)
    ensures !w.Add? ==> CellOf(Put(db, w), t) == CellOf(db, t)
  {
    StampSafe(db.(clock := db.clock + 1), w, db.clock + 1, t, db.clock);
  }

  /** Any change of the database that stamps the counters it touches keeps the tasks in order. */
  lemma TasksStable(s: State, s': State)
    requires TasksOk(s) && s.db.clock <= s'.db.clock
    requires forall t :: CounterSafe(s.db, s'.db, t, s.db.clock)
    requires forall tid :: tid in s'.tasks && s'.tasks[tid].Creating? ==>
               (tid in s.tasks && s'.tasks[tid] == s.tasks[tid]) || CreateOk(s'.db, s'.tasks[tid])
    ensures TasksOk(s')
  {
    forall tid | tid in s'.tasks && s'.tasks[tid].Creating? ensures CreateOk(s'.db, s'.tasks[tid]) {
      if tid in s.tasks && s'.tasks[tid] == s.tasks[tid] {
        CreateStable(s.db, s'.db, s.tasks[tid]);
      }
    }
  }

  /** Steps of a create before its commit. */
  lemma AdvanceOk(s: State, tid: nat)
    requires tid in s.tasks && s.tasks[tid].Creating? && CreateOk(s.db, s.tasks[tid])
    ensures Advance(s, tid).Creating? && CreateOk(s.db, Advance(s, tid))
  {
    var task := s.tasks[tid];
    var t := TableOf(task.payload);
    if task.pc == Added {
      NextIdIsSuccessor(s.db, task.txn, t);
    }
  }

  lemma NextIdIsSuccessor(db: Db, txn: Txn, t: Table)
    requires txn.batch == [Add(t)]
    ensures NextId(db, txn, t) == (Counter(db, t) + 1) % TWO_64
  {
    var c := CellOf(db, t);
    assert txn.batch[1..] == [];
    assert Additions(txn.batch, t) == [ONE];
    StoredValue(c.(pending := c.pending + [ONE]));
    AddOne(c);
  }

  // ---- commits ----

  /** A create's commit adds one to its own counter and leaves the other alone. */
  lemma CommitCounts(db: Db, txn: Txn, p: Payload, pc: Pc)
    requires txn.batch == BatchAt(p, pc) && ReadyToCommit(p, pc)
    ensures Counter(Commit(db, txn), TableOf(p)) == (Counter(db, TableOf(p)) + 1) % TWO_64
    ensures forall t :: t != TableOf(p) ==> Counter(Commit(db, txn), t) == Counter(db, t)
  {
    BatchShape(p, pc);
    AddsOnce(db, txn, TableOf(p));
  }

  lemma BatchShape(p: Payload, pc: Pc)
    requires ReadyToCommit(p, pc)
    ensures BatchAt(p, pc) != [] && BatchAt(p, pc)[0] == Add(TableOf(p))
    ensures forall w :: w in BatchAt(p, pc)[1..] ==> !w.Add?
  {}

  lemma AddsOnce(db: Db, txn: Txn, t: Table)
    requires txn.batch != [] && txn.batch[0] == Add(t) && forall w :: w in txn.batch[1..] ==> !w.Add?
    ensures Counter(Commit(db, txn), t) == (Counter(db, t) + 1) % TWO_64
    ensures forall u :: u != t ==> Counter(Commit(db, txn), u) == Counter(db, u)
  {
    var now := db.clock + 1;
    var db1 := db.(clock := now);
    StampAdd(db1, t, now);
    OnlyAdds(Stamp(db1, Add(t), now), txn.batch[1..], now);
  }

  lemma StampAdd(db: Db, t: Table, now: nat)
    ensures Counter(Stamp(db, Add(t), now), t) == (Counter(db, t) + 1) % TWO_64
    ensures forall u :: u != t ==> Counter(Stamp(db, Add(t), now), u) == Counter(db, u)
  {
    AddOne(CellOf(db, t));
  }

  lemma {:induction false} OnlyAdds(db: Db, batch: seq<Write>, now: nat)
    requires forall w :: w in batch ==> !w.Add?
    ensures WriteAll(db, batch, now).counters == db.counters
    decreases |batch|
  {
    if batch != [] {
      assert Stamp(db, batch[0], now).counters == db.counters;
      OnlyAdds(Stamp(db, batch[0], now), batch[1..], now);
    }
  }

  lemma LogAppend(log: seq<u64>, c: u64, id: u64)
    requires c == |log| % TWO_64 && id == (c + 1) % TWO_64
    requires forall i :: 0 <= i < |log| ==> log[i] == (i + 1) % TWO_64
    ensures id == |log + [id]| % TWO_64
    ensures forall i :: 0 <= i < |log + [id]| ==> (log + [id])[i] == (i + 1) % TWO_64
  {
    WrapAdd(|log|, 0, 1);
  }

  lemma CreatedOk(s: State, tid: nat)
    requires NumbersOk(s) && tid in s.tasks && s.tasks[tid].Creating?
    requires ReadyToCommit(s.tasks[tid].payload, s.tasks[tid].pc) && Committable(s.db, s.tasks[tid].txn)
    ensures NumbersOk(Created(s, tid))
  {
    var task, s' := s.tasks[tid], Created(s, tid);
    assert CreateOk(s.db, task);
    CreatedLogs(s, tid);
    forall u ensures CounterSafe(s.db, s'.db, u, s.db.clock) {
      CommitSafe(s.db, task.txn, u);
    }
    assert s'.db.clock == s.db.clock + 1 by { CommitSafe(s.db, task.txn, ApiKeys); }
    TasksStable(s, s');
  }

  /** The commit numbers its row with the successor of the counter and appends that number to the log. */
  lemma CreatedLogs(s: State, tid: nat)
    requires tid in s.tasks && s.tasks[tid].Creating? && CreateOk(s.db, s.tasks[tid]) && forall u :: LogOk(s, u)
    requires ReadyToCommit(s.tasks[tid].payload, s.tasks[tid].pc) && Committable(s.db, s.tasks[tid].txn)
    ensures forall u :: LogOk(Created(s, tid), u)
  {
    var task, s' := s.tasks[tid], Created(s, tid);
    var t := TableOf(task.payload);
    assert LogOk(s, t);
    CommitCounts(s.db, task.txn, task.payload, task.pc);
    LogAppend(IdLog(s, t), Counter(s.db, t), IdOf(task.payload));
    assert IdLog(s', t) == IdLog(s, t) + [IdOf(task.payload)];
    forall u ensures LogOk(s', u) {
      if u != t { assert LogOk(s, u) && IdLog(s', u) == IdLog(s, u); }
    }
  }

  lemma DeletedOk(env: Env, s: State, tid: nat)
    requires NumbersOk(s) && Enabled(env, s, CommitDelete(tid))
    ensures NumbersOk(Next(env, s, CommitDelete(tid)))
  {
    var s', txn := Next(env, s, CommitDelete(tid)), s.tasks[tid].drops;
    OnlyAdds(s.db.(clock := s.db.clock + 1), txn.batch, s.db.clock + 1);
    forall u ensures CounterSafe(s.db, s'.db, u, s.db.clock) && LogOk(s', u) {
      CommitSafe(s.db, txn, u);
      assert LogOk(s, u) && IdLog(s', u) == IdLog(s, u);
    }
    assert s'.db.clock == s.db.clock + 1 by { CommitSafe(s.db, txn, ApiKeys); }
    TasksStable(s, s');
  }

  lemma PutOk(s: State, s': State, w: Write)
    requires NumbersOk(s) && !w.Add? && s'.db == Put(s.db, w)
    requires s'.keyLog == s.keyLog && s'.tokenLog == s.tokenLog
    requires forall tid :: tid in s'.tasks && (s'.tasks[tid].Creating? || s'.tasks[tid].Deleting?) ==>
               tid in s.tasks && s'.tasks[tid] == s.tasks[tid]
    ensures NumbersOk(s')
  {
    forall u ensures CounterSafe(s.db, s'.db, u, s.db.clock) && LogOk(s', u) {
      PutSafe(s.db, w, u);
      assert LogOk(s, u) && IdLog(s', u) == IdLog(s, u);
    }
    assert s'.db.clock == s.db.clock + 1 by { PutSafe(s.db, w, ApiKeys); }
    TasksStable(s, s');
  }

  /** Steps that leave the database and the logs alone. */
  lemma QuietOk(s: State, s': State)
    requires NumbersOk(s) && s'.db == s.db && s'.keyLog == s.keyLog && s'.tokenLog == s.tokenLog
    requires forall tid :: tid in s'.tasks && s'.tasks[tid].Creating? ==>
               (tid in s.tasks && s'.tasks[tid] == s.tasks[tid]) || CreateOk(s.db, s'.tasks[tid])
    requires DeletesOk(s')
    ensures NumbersOk(s')
  {
    forall u ensures LogOk(s', u) {
      assert LogOk(s, u) && IdLog(s', u) == IdLog(s, u);
    }
    TasksStable(s, s');
  }

  lemma SetTaskOk(s: State, tid: nat, task: Task)
    requires NumbersOk(s) && (task.Creating? ==> CreateOk(s.db, task))
    requires task.Deleting? ==> task.drops.batch == DropsAt(task.victim, task.stage)
    ensures NumbersOk(SetTask(s, tid, task))
  {
    QuietOk(s, SetTask(s, tid, task));
  }

  /** Background merging keeps every counter's value. */
  lemma MergingOk(s: State, t: Table, c: Cell)
    requires NumbersOk(s) && CellValue(c) == Counter(s.db, t)
    ensures NumbersOk(SetCell(s, t, c))
  {
    var s' := SetCell(s, t, c);
    forall u ensures LogOk(s', u) {
      assert LogOk(s, u) && IdLog(s', u) == IdLog(s, u);
    }
    MergingTasks(s, t, c);
  }

  lemma MergingTasks(s: State, t: Table, c: Cell)
    requires TasksOk(s) && CellValue(c) == Counter(s.db, t)
    ensures TasksOk(SetCell(s, t, c))
  {
    var s' := SetCell(s, t, c);
    forall tid | tid in s'.tasks && s'.tasks[tid].Creating? ensures CreateOk(s'.db, s'.tasks[tid]) {
      assert CreateOk(s.db, s.tasks[tid]);
    }
  }

  lemma AdvanceStepOk(env: Env, s: State, step: Step, s': State)
    requires NumbersOk(s) && Goes(env, s, step, s')
    requires step.Proceed?
    ensures NumbersOk(s')
  {
    AdvanceOk(s, step.tid);
    SetTaskOk(s, step.tid, Advance(s, step.tid));
  }

  lemma SaveStepOk(env: Env, s: State, step: Step, s': State)
    requires NumbersOk(s) && Goes(env, s, step, s') && (step.Save? || step.SaveIndex?)
    ensures NumbersOk(s')
  {
    var m := s.tasks[step.tid].model;
    if step.SaveIndex? {
      PutOk(s, s', PutId(m.id, m.keyId));
    } else if m.id == 0 {
      QuietOk(s, SaveRow(s, step.tid));
    } else {
      PutOk(s, SaveRow(s, step.tid), PutKey(m));
    }
  }

  lemma MergeStepOk(env: Env, s: State, step: Step, s': State)
    requires NumbersOk(s) && Goes(env, s, step, s') && (step.Regroup? || step.Flush?)
    ensures NumbersOk(s')
  {
    var c := CellOf(s.db, step.table);
    if step.Flush? {
      FlushKeepsValue(c, step.k);
      MergingOk(s, step.table, Flushed(c, step.k));
    } else {
      RegroupKeepsValue(c, step.i, step.j);
      MergingOk(s, step.table, Regrouped(c, step.i, step.j));
    }
  }

  lemma TaskStepOk(env: Env, s: State, step: Step, s': State)
    requires NumbersOk(s) && Goes(env, s, step, s')
    requires step.Verify? || step.NewToken? || step.Lookup? || step.Check? || step.Edit? || step.BeginDelete?
    ensures NumbersOk(s')
  {
    SetTaskOk(s, step.tid, s'.tasks[step.tid]);
  }

  lemma QuietStepOk(env: Env, s: State, step: Step, s': State)
    requires NumbersOk(s) && Goes(env, s, step, s')
    requires step.Drop? || step.Fail? || step.SetServices?
    ensures NumbersOk(s')
  {
    QuietOk(s, s');
  }

  lemma StepKeepsNumbers(env: Env, s: State, step: Step, s': State)
    requires NumbersOk(s) && Goes(env, s, step, s')
    ensures NumbersOk(s')
  {
    if step.Proceed? {
      AdvanceStepOk(env, s, step, s');
    } else if step.Save? || step.SaveIndex? {
      SaveStepOk(env, s, step, s');
    } else if step.Regroup? || step.Flush? {
      MergeStepOk(env, s, step, s');
    } else if step.CommitCreate? {
      CreatedOk(s, step.tid);
    } else if step.CommitDelete? {
      DeletedOk(env, s, step.tid);
    } else if step.Drop? || step.Fail? || step.SetServices? {
      QuietStepOk(env, s, step, s');
    } else {
      TaskStepOk(env, s, step, s');
    }
  }

  lemma {:induction false} RunKeepsNumbers(env: Env, r: Run, k: nat)
    requires IsRun(env, r) && k < |r.states|
    ensures NumbersOk(r.states[k])
  {
    if k == 0 {
      var s := r.states[0];
      forall t ensures LogOk(s, t) {}
    } else {
      RunKeepsNumbers(env, r, k - 1);
      assert StepAt(env, r, k - 1);
      StepKeepsNumbers(env, r.states[k - 1], r.steps[k - 1], r.states[k]);
    }
  }

  /**
   The ids a table has handed out are 1 to n in commit order, and n is what its counter holds,
   in every state of every run with fewer than 2^64 creates.
   */
  lemma CommittedIdsAreConsecutive(env: Env, r: Run, k: nat, t: Table)
    requires IsRun(env, r) && k < |r.states|
    requires |IdLog(r.states[k], t)| < TWO_64
    ensures Counter(r.states[k].db, t) == |IdLog(r.states[k], t)|
    ensures forall i :: 0 <= i < |IdLog(r.states[k], t)| ==> IdLog(r.states[k], t)[i] == i + 1
  {
    RunKeepsNumbers(env, r, k);
    var log := IdLog(r.states[k], t);
    assert LogOk(r.states[k], t);
    forall i | 0 <= i <= |log| ensures i % TWO_64 == i {}
    forall i | 0 <= i < |log| ensures log[i] == i + 1 {
      assert log[i] == (i + 1) % TWO_64;
    }
  }

  /** Ids repeat exactly when a table has handed out more than 2^64 of them. */
  lemma IdsDistinctIff(env: Env, r: Run, k: nat, t: Table)
    requires IsRun(env, r) && k < |r.states|
    ensures var log := IdLog(r.states[k], t);
            (forall i, j :: 0 <= i < j < |log| ==> log[i] != log[j]) <==> |log| <= TWO_64
  {
    RunKeepsNumbers(env, r, k);
    var log := IdLog(r.states[k], t);
    assert LogOk(r.states[k], t);
    if |log| > TWO_64 {
      assert log[0] == log[TWO_64];
    } else {
      forall i, j | 0 <= i < j < |log| ensures log[i] != log[j] {
        SuccessorsDiffer(i, j);
      }
    }
  }

  lemma SuccessorsDiffer(i: nat, j: nat)
    requires i < j < TWO_64
    ensures (i + 1) % TWO_64 != (j + 1) % TWO_64
  {}
}
