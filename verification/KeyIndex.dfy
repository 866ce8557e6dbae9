/**
 The by-id index and the primary table of API keys over whole runs. Creates and deletes change both in
 one commit; a save writes the row and then, separately, the index entry. Both tables are exactly what
 the history of these writes says, and so are the ways in which they can come apart.
 */
module KeyIndex {
  import opened Bytes
  import opened KeyLog
  import opened KeyNumbers
  import opened KeyProvenance
  import opened KeyStore
  import opened Options
  import opened OptimisticDb

  function FindByKeyId(db: Db, keyId: string): Option<ApiKeyModel>
  {
    if keyId in db.keys then Some(db.keys[keyId]) else None
  }

  function FindById(db: Db, id: u64): Option<ApiKeyModel>
  {
    if id in db.ids then FindByKeyId(db, db.ids[id]) else None
  }

  /** Every index entry leads to a record with that id. */
  ghost predicate Sound(keys: Keys, ids: Ids)
  {
    forall id :: id in ids ==> ids[id] in keys && keys[ids[id]].id == id
  }

  ghost predicate Indexed(keys: Keys, ids: Ids, k: string)
    requires k in keys
  {
    keys[k].id in ids && ids[keys[k].id] == k
  }

  /** Every record is indexed, the pending ones excepted. */
  ghost predicate Complete(keys: Keys, ids: Ids, pending: set<string>)
  {
    forall k :: k in keys && k !in pending ==> Indexed(keys, ids, k)
  }

  /** The two tables are inverse to each other. */
  ghost predicate Inverse(db: Db)
  {
    forall id: u64, k: string :: (id in db.ids && db.ids[id] == k) <==> (k in db.keys && db.keys[k].id == id)
  }

  /** The keys of which some save has written the row but not yet the index entry. */
  ghost function BetweenPuts(tasks: map<nat, Task>): set<string>
  {
    set tid | tid in tasks && tasks[tid].Indexing? :: tasks[tid].model.keyId
  }

  // ---- the writes to a key's row and index entry ----

  predicate CreatesKey(s: State, step: Step, k: string)
  {
    && step.CommitCreate? && step.tid in s.tasks && s.tasks[step.tid].Creating?
    && s.tasks[step.tid].payload.KeyPayload? && s.tasks[step.tid].payload.key.keyId == k
  }

  predicate SavesRow(s: State, step: Step, k: string)
  {
    && step.Save? && step.tid in s.tasks && s.tasks[step.tid].Saving?
    && s.tasks[step.tid].model.keyId == k && s.tasks[step.tid].model.id != 0
  }

  predicate SavesEntry(s: State, step: Step, k: string)
  {
    step.SaveIndex? && step.tid in s.tasks && s.tasks[step.tid].Indexing? && s.tasks[step.tid].model.keyId == k
  }

  predicate DeletesKey(s: State, step: Step, k: string)
  {
    step.CommitDelete? && step.tid in s.tasks && s.tasks[step.tid].Deleting? && s.tasks[step.tid].victim.keyId == k
  }

  lemma RowEffect(env: Env, s: State, step: Step, s': State, k: string)
    requires Goes(env, s, step, s') && TasksOk(s) && DeletesOk(s)
    ensures k in s'.db.keys <==>
            CreatesKey(s, step, k) || SavesRow(s, step, k) || (k in s.db.keys && !DeletesKey(s, step, k))
  {
    if step.CommitCreate? {
      CommitEffect(env, s, step.tid);
    } else if step.CommitDelete? {
      CommitDrops(s.db, s.tasks[step.tid].drops, s.tasks[step.tid].victim);
    } else if !step.Save? {
      RowsKept(env, s, step, s');
    }
  }

  lemma CommitEffect(env: Env, s: State, tid: nat)
    requires Enabled(env, s, CommitCreate(tid)) && TasksOk(s)
    ensures var db' := Created(s, tid).db;
            match s.tasks[tid].payload
            case KeyPayload(m) => db'.keys == s.db.keys[m.keyId := m] && db'.ids == s.db.ids[m.id := m.keyId]
            case TokenPayload(_) => db'.keys == s.db.keys && db'.ids == s.db.ids
  {
    assert CreateOk(s.db, s.tasks[tid]);
    match s.tasks[tid].payload {
      case KeyPayload(m) => CommitKeyRows(s.db, s.tasks[tid].txn, m);
      case TokenPayload(token) => CommitTokenRows(s.db, s.tasks[tid].txn, token);
    }
  }

  /** Other steps leave the tables alone, but for the two writes of a save. */
  lemma RowsKept(env: Env, s: State, step: Step, s': State)
    requires Goes(env, s, step, s') && !step.CommitCreate? && !step.CommitDelete? && !step.Save?
    ensures s'.db.keys == s.db.keys
  {}

  lemma EntriesKept(env: Env, s: State, step: Step, s': State)
    requires Goes(env, s, step, s') && !step.CommitCreate? && !step.CommitDelete? && !step.SaveIndex?
    ensures s'.db.ids == s.db.ids
  {}

  /** Some number leads to the key. */
  ghost predicate HasEntry(ids: Ids, k: string)
  {
    exists id :: id in ids && ids[id] == k
  }

  lemma PutEntry(log: Log, ids: Ids, id: u64, key: string, k: string)
    requires LogInjective(log) && IdsLogged(log, ids) && (id, key) in log
    ensures HasEntry(ids[id := key], k) <==> k == key || HasEntry(ids, k)
  {
    var ids' := ids[id := key];
    assert ids'[id] == key;
    if HasEntry(ids, k) && k != key {
      var other :| other in ids && ids[other] == k;
      assert NoClash((id, key), (other, k));
      assert other in ids' && ids'[other] == k;
    }
  }

  lemma DropEntry(log: Log, ids: Ids, id: u64, key: string, k: string)
    requires LogInjective(log) && IdsLogged(log, ids) && (id, key) in log
    ensures HasEntry(ids - {id}, k) <==> k != key && HasEntry(ids, k)
  {
    forall other | other in ids && ids[other] == k ensures k == key <==> other == id {
      assert NoClash((id, key), (other, k));
    }
    if k != key && HasEntry(ids, k) {
      var other :| other in ids && ids[other] == k;
      assert other in ids - {id};
    }
  }

  lemma EntryEffect(env: Env, s: State, step: Step, s': State, k: string)
    requires Goes(env, s, step, s') && TasksOk(s) && DeletesOk(s) && AllLogged(s)
    requires LogInjective(s'.keyLog)
    ensures HasEntry(s'.db.ids, k) <==>
            CreatesKey(s, step, k) || SavesEntry(s, step, k) || (HasEntry(s.db.ids, k) && !DeletesKey(s, step, k))
  {
    if step.CommitCreate? {
      CreateEntry(env, s, step.tid, k);
    } else if step.CommitDelete? {
      var m := s.tasks[step.tid].victim;
      assert TaskLogged(s.keyLog, s.tasks[step.tid]);
      CommitDrops(s.db, s.tasks[step.tid].drops, m);
      DropEntry(s.keyLog, s.db.ids, m.id, m.keyId, k);
    } else if step.SaveIndex? {
      var m := s.tasks[step.tid].model;
      assert TaskLogged(s.keyLog, s.tasks[step.tid]);
      PutEntry(s.keyLog, s.db.ids, m.id, m.keyId, k);
    } else {
      EntriesKept(env, s, step, s');
    }
  }

  lemma CreateEntry(env: Env, s: State, tid: nat, k: string)
    requires Enabled(env, s, CommitCreate(tid)) && TasksOk(s) && AllLogged(s) && LogInjective(Created(s, tid).keyLog)
    ensures HasEntry(Created(s, tid).db.ids, k) <==> CreatesKey(s, CommitCreate(tid), k) || HasEntry(s.db.ids, k)
  {
    CommitEffect(env, s, tid);
    if s.tasks[tid].payload.KeyPayload? {
      var m := s.tasks[tid].payload.key;
      PutEntry(Created(s, tid).keyLog, s.db.ids, m.id, m.keyId, k);
    }
  }

  // ---- the tables are what the history says ----

  datatype Part = Row | Entry

  /** Step i, if there is one, writes this part of the key. */
  predicate Writes(r: Run, i: int, part: Part, k: string)
  {
    && 0 <= i < |r.steps| && i < |r.states|
    && (CreatesKey(r.states[i], r.steps[i], k)
        || (part.Row? && SavesRow(r.states[i], r.steps[i], k))
        || (part.Entry? && SavesEntry(r.states[i], r.steps[i], k)))
  }

  /** Step i, if there is one, deletes the key. */
  predicate Drops(r: Run, i: int, k: string)
  {
    0 <= i < |r.steps| && i < |r.states| && DeletesKey(r.states[i], r.steps[i], k)
  }

  /** After n steps, the last event of this part of the key was a write. */
  predicate Present(r: Run, n: nat, part: Part, k: string)
  {
    n > 0 && (Writes(r, n - 1, part, k) || (!Drops(r, n - 1, k) && Present(r, n - 1, part, k)))
  }

  /** A key has a row exactly when the last event of its row was a write: in every run. */
  lemma {:induction false} RowIsHistory(env: Env, r: Run, n: nat, k: string)
    requires IsRun(env, r) && n < |r.states|
    ensures k in r.states[n].db.keys <==> Present(r, n, Row, k)
  {
    if n > 0 {
      RowIsHistory(env, r, n - 1, k);
      RunKeepsNumbers(env, r, n - 1);
      assert StepAt(env, r, n - 1);
      RowEffect(env, r.states[n - 1], r.steps[n - 1], r.states[n], k);
    }
  }

  /** A key has an index entry exactly when the last event of its entry was a write. */
  lemma {:induction false} EntryIsHistory(env: Env, r: Run, n: nat, k: string)
    requires IsRun(env, r) && Distinct(r, n)
    ensures HasEntry(r.states[n].db.ids, k) <==> Present(r, n, Entry, k)
  {
    if n > 0 {
      DistinctBefore(env, r, n);
      EntryIsHistory(env, r, n - 1, k);
      RunKeepsNumbers(env, r, n - 1);
      RunKeepsLogged(env, r, n - 1);
      LogOfRun(env, r, n);
      assert StepAt(env, r, n - 1);
      EntryEffect(env, r.states[n - 1], r.steps[n - 1], r.states[n], k);
    }
  }

  // ---- events behind presence and absence ----

  /** The write that made a part present: no delete follows it. */
  lemma {:induction false} LatestWrite(r: Run, n: nat, part: Part, k: string) returns (i: nat)
    requires Present(r, n, part, k)
    ensures i < n && Writes(r, i, part, k) && forall h :: i < h < n ==> !Drops(r, h, k)
  {
    if Writes(r, n - 1, part, k) {
      i := n - 1;
    } else {
      i := LatestWrite(r, n - 1, part, k);
    }
  }

  /** The delete that made a part absent, or -1 if it was never written: no write follows it. */
  lemma {:induction false} LatestDrop(r: Run, n: nat, part: Part, k: string) returns (d: int)
    requires !Present(r, n, part, k)
    ensures -1 <= d < n && (d >= 0 ==> Drops(r, d, k)) && forall h :: d < h < n ==> !Writes(r, h, part, k)
  {
    if n == 0 {
      d := -1;
    } else if Drops(r, n - 1, k) {
      d := n - 1;
    } else {
      d := LatestDrop(r, n - 1, part, k);
    }
  }

  lemma {:induction false} PresentBecause(r: Run, n: nat, part: Part, k: string, i: nat)
    requires i < n && Writes(r, i, part, k) && forall h :: i < h < n ==> !Drops(r, h, k)
    ensures Present(r, n, part, k)
  {
    if i < n - 1 {
      PresentBecause(r, n - 1, part, k, i);
    }
  }

  lemma {:induction false} AbsentBecause(r: Run, n: nat, part: Part, k: string, d: nat)
    requires d < n && Drops(r, d, k) && forall h :: d < h < n ==> !Writes(r, h, part, k)
    ensures !Present(r, n, part, k)
  {
    if d < n - 1 {
      AbsentBecause(r, n - 1, part, k, d);
    }
  }

  /** Save by `tid` of key k is between its two writes. */
  predicate Halfway(s: State, tid: nat, k: string)
  {
    tid in s.tasks && s.tasks[tid].Indexing? && s.tasks[tid].model.keyId == k
  }

  lemma HalfwayOrigin(env: Env, s: State, step: Step, s': State, tid: nat, k: string)
    requires Goes(env, s, step, s') && Halfway(s', tid, k)
    ensures Halfway(s, tid, k) || (SavesRow(s, step, k) && step.tid == tid)
  {}

  lemma {:induction false} HalfwaySince(env: Env, r: Run, j: nat, tid: nat, k: string) returns (i: nat)
    requires IsRun(env, r) && j < |r.states| && Halfway(r.states[j], tid, k)
    ensures i < j && SavesRow(r.states[i], r.steps[i], k) && r.steps[i].tid == tid
    ensures forall h :: i < h <= j ==> Halfway(r.states[h], tid, k)
  {
    assert j > 0;
    assert StepAt(env, r, j - 1);
    HalfwayOrigin(env, r.states[j - 1], r.steps[j - 1], r.states[j], tid, k);
    if Halfway(r.states[j - 1], tid, k) {
      i := HalfwaySince(env, r, j - 1, tid, k);
    } else {
      i := j - 1;
    }
  }

  /**
   A save of k wrote its row at i; a delete of k committed at d, before the save wrote the entry at j.
   No row of k was written since the delete, and k was not deleted again since j.
   */
  ghost predicate Overtaken(r: Run, n: nat, k: string, i: nat, d: nat, j: nat)
  {
    && i < d < j < n <= |r.steps| < |r.states|
    && SavesRow(r.states[i], r.steps[i], k) && Drops(r, d, k)
    && SavesEntry(r.states[j], r.steps[j], k) && r.steps[j].tid == r.steps[i].tid
    && (forall h :: i < h <= j ==> Halfway(r.states[h], r.steps[i].tid, k))
    && (forall h :: d < h < n ==> !Writes(r, h, Row, k))
    && (forall h :: j < h < n ==> !Drops(r, h, k))
  }

  /** The key's index entry outlived its row. */
  ghost predicate Dangles(r: Run, n: nat, k: string)
  {
    exists i, d, j :: Overtaken(r, n, k, i, d, j)
  }

  /** An entry outlives its row exactly after a delete between the two writes of a save. */
  lemma OvertakenIff(env: Env, r: Run, n: nat, k: string)
    requires IsRun(env, r) && n < |r.states|
    ensures (Present(r, n, Entry, k) && !Present(r, n, Row, k)) <==> Dangles(r, n, k)
  {
    if Present(r, n, Entry, k) && !Present(r, n, Row, k) {
      var i, d, j := FindOvertaken(env, r, n, k);
    }
    if i, d, j :| Overtaken(r, n, k, i, d, j) {
      PresentBecause(r, n, Entry, k, j);
      AbsentBecause(r, n, Row, k, d);
    }
  }

  lemma FindOvertaken(env: Env, r: Run, n: nat, k: string) returns (i: nat, d: nat, j: nat)
    requires IsRun(env, r) && n < |r.states| && Present(r, n, Entry, k) && !Present(r, n, Row, k)
    ensures Overtaken(r, n, k, i, d, j)
  {
    j := LatestWrite(r, n, Entry, k);
    var drop := LatestDrop(r, n, Row, k);
    if CreatesKey(r.states[j], r.steps[j], k) {
      PresentBecause(r, n, Row, k, j);
      assert false;
    }
    i := HalfwaySince(env, r, j, r.steps[j].tid, k);
    assert Writes(r, i, Row, k);
    d := drop;
  }

  /** A delete of k, then a save's row, and no entry written since the delete, nor k deleted since the row. */
  ghost predicate Unindexed(r: Run, n: nat, k: string, d: nat, i: nat)
  {
    && d < i < n <= |r.steps| < |r.states|
    && Drops(r, d, k) && SavesRow(r.states[i], r.steps[i], k)
    && (forall h :: d < h < n ==> !Writes(r, h, Entry, k))
    && (forall h :: i < h < n ==> !Drops(r, h, k))
  }

  /** The key's row lacks an index entry. */
  ghost predicate Lacks(r: Run, n: nat, k: string)
  {
    exists d, i :: Unindexed(r, n, k, d, i)
  }

  lemma LogOrigin(env: Env, s: State, step: Step, s': State, p: (u64, string))
    requires Goes(env, s, step, s') && p in s'.keyLog
    ensures p in s.keyLog || CreatesKey(s, step, p.1)
  {}

  /** A pair on the log stems from a create. */
  lemma {:induction false} LoggedSince(env: Env, r: Run, n: nat, p: (u64, string)) returns (c: nat)
    requires IsRun(env, r) && n < |r.states| && p in r.states[n].keyLog
    ensures c < n && CreatesKey(r.states[c], r.steps[c], p.1)
  {
    assert n > 0;
    assert StepAt(env, r, n - 1);
    LogOrigin(env, r.states[n - 1], r.steps[n - 1], r.states[n], p);
    if p in r.states[n - 1].keyLog {
      c := LoggedSince(env, r, n - 1, p);
    } else {
      c := n - 1;
    }
  }

  /** A row lacks its entry exactly when a save restored it after a delete and no entry was written since. */
  lemma UnindexedIff(env: Env, r: Run, n: nat, k: string)
    requires IsRun(env, r) && n < |r.states|
    ensures (Present(r, n, Row, k) && !Present(r, n, Entry, k)) <==> Lacks(r, n, k)
  {
    if Present(r, n, Row, k) && !Present(r, n, Entry, k) {
      var d, i := FindUnindexed(env, r, n, k);
    }
    if d, i :| Unindexed(r, n, k, d, i) {
      PresentBecause(r, n, Row, k, i);
      AbsentBecause(r, n, Entry, k, d);
    }
  }

  lemma FindUnindexed(env: Env, r: Run, n: nat, k: string) returns (d: nat, i: nat)
    requires IsRun(env, r) && n < |r.states| && Present(r, n, Row, k) && !Present(r, n, Entry, k)
    ensures Unindexed(r, n, k, d, i)
  {
    i := LatestWrite(r, n, Row, k);
    var drop := LatestDrop(r, n, Entry, k);
    if CreatesKey(r.states[i], r.steps[i], k) {
      PresentBecause(r, n, Entry, k, i);
      assert false;
    }
    RunKeepsLogged(env, r, i);
    var m := r.states[i].tasks[r.steps[i].tid].model;
    assert TaskLogged(r.states[i].keyLog, r.states[i].tasks[r.steps[i].tid]);
    var c := LoggedSince(env, r, i, (m.id, m.keyId));
    assert Writes(r, c, Entry, k);
    d := drop;
  }

  // ---- exactly when the tables agree ----

  lemma EntriesMeet(log: Log, keys: Keys, ids: Ids)
    requires LogInjective(log) && KeysLogged(log, keys) && IdsLogged(log, ids)
    ensures Sound(keys, ids) <==> forall k :: HasEntry(ids, k) ==> k in keys
    ensures forall k :: k in keys ==> (Indexed(keys, ids, k) <==> HasEntry(ids, k))
  {
    forall id | id in ids && ids[id] in keys ensures keys[ids[id]].id == id {
      assert NoClash((keys[ids[id]].id, ids[id]), (id, ids[id]));
    }
    if forall k :: HasEntry(ids, k) ==> k in keys {
      forall id | id in ids ensures ids[id] in keys {
        assert HasEntry(ids, ids[id]);
      }
    }
  }

  /** The index is sound exactly when no save was overtaken by a delete for good. */
  lemma SoundIff(env: Env, r: Run, n: nat)
    requires IsRun(env, r) && Distinct(r, n)
    ensures Sound(r.states[n].db.keys, r.states[n].db.ids) <==> forall k :: !Dangles(r, n, k)
  {
    var s := r.states[n];
    LogOfRun(env, r, n);
    RunKeepsLogged(env, r, n);
    EntriesMeet(s.keyLog, s.db.keys, s.db.ids);
    forall k ensures (HasEntry(s.db.ids, k) && k !in s.db.keys) <==> Dangles(r, n, k) {
      RowIsHistory(env, r, n, k);
      EntryIsHistory(env, r, n, k);
      OvertakenIff(env, r, n, k);
    }
  }

  /** The index is complete but for saves between their writes exactly when no other key lacks its entry. */
  lemma CompleteIff(env: Env, r: Run, n: nat, pending: set<string>)
    requires IsRun(env, r) && Distinct(r, n)
    ensures Complete(r.states[n].db.keys, r.states[n].db.ids, pending) <==>
            forall k :: Lacks(r, n, k) ==> k in pending
  {
    var s := r.states[n];
    LogOfRun(env, r, n);
    RunKeepsLogged(env, r, n);
    EntriesMeet(s.keyLog, s.db.keys, s.db.ids);
    forall k ensures (k in s.db.keys && !HasEntry(s.db.ids, k)) <==> Lacks(r, n, k) {
      RowIsHistory(env, r, n, k);
      EntryIsHistory(env, r, n, k);
      UnindexedIff(env, r, n, k);
    }
  }

  lemma InverseParts(db: Db)
    ensures Inverse(db) <==> Sound(db.keys, db.ids) && Complete(db.keys, db.ids, {})
  {
    if Inverse(db) {
      forall k | k in db.keys ensures Indexed(db.keys, db.ids, k) {}
    }
    if Sound(db.keys, db.ids) && Complete(db.keys, db.ids, {}) {
      forall id: u64, k: string | k in db.keys && db.keys[k].id == id ensures id in db.ids && db.ids[id] == k {
        assert Indexed(db.keys, db.ids, k);
      }
    }
  }

  /** The tables are inverse exactly when no save was overtaken for good and no row lacks its entry. */
  lemma InverseIff(env: Env, r: Run, n: nat)
    requires IsRun(env, r) && Distinct(r, n)
    ensures Inverse(r.states[n].db) <==> forall k :: !Dangles(r, n, k) && !Lacks(r, n, k)
  {
    SoundIff(env, r, n);
    CompleteIff(env, r, n, {});
    InverseParts(r.states[n].db);
  }

  // ---- orderly runs ----

  /** An abandoned save leaves the index complete exactly when its key is indexed or saved by someone else too. */
  lemma FailCompleteIff(env: Env, s: State, tid: nat)
    requires Complete(s.db.keys, s.db.ids, BetweenPuts(s.tasks)) && Enabled(env, s, Fail(tid)) && s.tasks[tid].Indexing?
    ensures Complete(s.db.keys, s.db.ids, BetweenPuts(s.tasks - {tid})) <==> FailSafe(s, tid)
  {
    PendingEnd(s.tasks, tid);
  }

  ghost predicate FailSafe(s: State, tid: nat)
    requires tid in s.tasks && s.tasks[tid].Indexing?
  {
    var k := s.tasks[tid].model.keyId;
    k in s.db.keys ==> k in BetweenPuts(s.tasks - {tid}) || Indexed(s.db.keys, s.db.ids, k)
  }

  lemma PendingEnd(tasks: map<nat, Task>, tid: nat)
    requires tid in tasks && tasks[tid].Indexing?
    ensures BetweenPuts(tasks) == BetweenPuts(tasks - {tid}) + {tasks[tid].model.keyId}
  {
    forall k | k in BetweenPuts(tasks) && k != tasks[tid].model.keyId ensures k in BetweenPuts(tasks - {tid}) {
      var t :| t in tasks && tasks[t].Indexing? && tasks[t].model.keyId == k;
      assert t in tasks - {tid};
    }
  }

  /** The step does not delete a key in the middle of a save of it, nor abandon a save that matters. */
  ghost predicate Undisturbed(s: State, step: Step)
  {
    match step
    case CommitDelete(tid) =>
      tid in s.tasks && s.tasks[tid].Deleting? ==> s.tasks[tid].victim.keyId !in BetweenPuts(s.tasks)
    case Fail(tid) => tid in s.tasks && s.tasks[tid].Indexing? ==> FailSafe(s, tid)
    case _ => true
  }

  ghost predicate UndisturbedAt(r: Run, i: int)
  {
    0 <= i < |r.steps| && i < |r.states| ==> Undisturbed(r.states[i], r.steps[i])
  }

  /** A key leaves the state between its writes only by the second write or an abandoned save. */
  lemma PendingEffect(env: Env, s: State, step: Step, s': State, k: string)
    requires Goes(env, s, step, s') && k in BetweenPuts(s.tasks) && k !in BetweenPuts(s'.tasks)
    ensures SavesEntry(s, step, k) || (step.Fail? && Halfway(s, step.tid, k))
  {
    var t :| t in s.tasks && s.tasks[t].Indexing? && s.tasks[t].model.keyId == k;
    StaysHalfway(env, s, step, s', t, k);
  }

  predicate Touches(step: Step, tid: nat)
  {
    !step.SetServices? && !step.Regroup? && !step.Flush? && step.tid == tid
  }

  lemma OtherTaskKept(env: Env, s: State, step: Step, s': State, t: nat)
    requires Goes(env, s, step, s') && t in s.tasks && !Touches(step, t)
    ensures t in s'.tasks && s'.tasks[t] == s.tasks[t]
  {
    if step.CommitCreate? || step.SaveIndex? || step.CommitDelete? || step.Fail? {
      EndedTask(env, s, step, s');
    } else if step.SetServices? || step.Regroup? || step.Flush? {
      assert s'.tasks == s.tasks;
    } else {
      ChangedTask(env, s, step, s');
    }
  }

  lemma EndedTask(env: Env, s: State, step: Step, s': State)
    requires Goes(env, s, step, s') && (step.CommitCreate? || step.SaveIndex? || step.CommitDelete? || step.Fail?)
    ensures s'.tasks == s.tasks - {step.tid}
  {}

  lemma ChangedTask(env: Env, s: State, step: Step, s': State)
    requires Goes(env, s, step, s') && !(step.CommitCreate? || step.SaveIndex? || step.CommitDelete? || step.Fail?)
    requires !step.SetServices? && !step.Regroup? && !step.Flush?
    ensures step.tid in s'.tasks && s'.tasks == s.tasks[step.tid := s'.tasks[step.tid]]
  {}

  lemma StaysHalfway(env: Env, s: State, step: Step, s': State, t: nat, k: string)
    requires Goes(env, s, step, s') && Halfway(s, t, k)
    ensures Halfway(s', t, k) || SavesEntry(s, step, k) || (step.Fail? && Halfway(s, step.tid, k))
  {
    if !Touches(step, t) {
      OtherTaskKept(env, s, step, s', t);
    }
  }

  lemma SavesRowPends(env: Env, s: State, step: Step, s': State, k: string)
    requires Goes(env, s, step, s') && SavesRow(s, step, k)
    ensures k in BetweenPuts(s'.tasks)
  {
    var tasks' := s'.tasks;
    assert tasks'[step.tid].Indexing? && tasks'[step.tid].model.keyId == k;
  }

  lemma StepKeepsComplete(env: Env, s: State, step: Step, s': State)
    requires Goes(env, s, step, s') && TasksOk(s) && DeletesOk(s) && AllLogged(s) && AllLogged(s')
    requires LogInjective(s.keyLog) && LogInjective(s'.keyLog) && Undisturbed(s, step)
    requires Complete(s.db.keys, s.db.ids, BetweenPuts(s.tasks))
    ensures Complete(s'.db.keys, s'.db.ids, BetweenPuts(s'.tasks))
  {
    EntriesMeet(s.keyLog, s.db.keys, s.db.ids);
    EntriesMeet(s'.keyLog, s'.db.keys, s'.db.ids);
    forall k | k in s'.db.keys && k !in BetweenPuts(s'.tasks) ensures HasEntry(s'.db.ids, k) {
      RowEffect(env, s, step, s', k);
      EntryEffect(env, s, step, s', k);
      if SavesRow(s, step, k) { SavesRowPends(env, s, step, s', k); }
      if k in BetweenPuts(s.tasks) { PendingEffect(env, s, step, s', k); }
    }
  }

  /** Distinct key ids, no delete between the writes of a save, and no abandoned save that matters. */
  ghost predicate Orderly(r: Run, n: nat)
  {
    Distinct(r, n) && forall i :: 0 <= i < n ==> UndisturbedAt(r, i)
  }

  lemma {:induction false} RunKeepsComplete(env: Env, r: Run, n: nat)
    requires IsRun(env, r) && Orderly(r, n)
    ensures Complete(r.states[n].db.keys, r.states[n].db.ids, BetweenPuts(r.states[n].tasks))
  {
    if n > 0 {
      DistinctBefore(env, r, n);
      RunKeepsComplete(env, r, n - 1);
      RunKeepsNumbers(env, r, n - 1);
      RunKeepsLogged(env, r, n - 1);
      RunKeepsLogged(env, r, n);
      LogOfRun(env, r, n - 1);
      LogOfRun(env, r, n);
      assert StepAt(env, r, n - 1) && UndisturbedAt(r, n - 1);
      StepKeepsComplete(env, r.states[n - 1], r.steps[n - 1], r.states[n]);
    }
  }

  /** In every orderly run the index is sound, and complete but for saves between their writes. */
  lemma RunKeepsIndex(env: Env, r: Run, n: nat)
    requires IsRun(env, r) && Orderly(r, n)
    ensures Sound(r.states[n].db.keys, r.states[n].db.ids)
    ensures Complete(r.states[n].db.keys, r.states[n].db.ids, BetweenPuts(r.states[n].tasks))
  {
    RunKeepsComplete(env, r, n);
    SoundIff(env, r, n);
    forall k ensures !Dangles(r, n, k) {
      if i, d, j :| Overtaken(r, n, k, i, d, j) {
        OvertakenDisturbs(r, n, k, i, d, j);
      }
    }
  }

  lemma OvertakenDisturbs(r: Run, n: nat, k: string, i: nat, d: nat, j: nat)
    requires Overtaken(r, n, k, i, d, j)
    ensures d < n && !UndisturbedAt(r, d)
  {
    assert Halfway(r.states[d], r.steps[i].tid, k);
  }

  /** With no save between its writes the tables are then inverse, so both ways of finding a key agree. */
  lemma QuiescentInverse(env: Env, r: Run, n: nat)
    requires IsRun(env, r) && Orderly(r, n) && BetweenPuts(r.states[n].tasks) == {}
    ensures Inverse(r.states[n].db)
    ensures forall id: u64, m :: FindById(r.states[n].db, id) == Some(m) <==>
              m.id == id && FindByKeyId(r.states[n].db, m.keyId) == Some(m)
  {
    RunKeepsIndex(env, r, n);
    InverseParts(r.states[n].db);
    RunKeepsLogged(env, r, n);
  }

  // ---- creates with a reused key id ----

  /** A create with a fresh number keeps the tables inverse exactly when its key id is not in use. */
  lemma CreateInverseIff(env: Env, s: State, tid: nat)
    requires Inverse(s.db) && TasksOk(s) && Enabled(env, s, CommitCreate(tid)) && s.tasks[tid].payload.KeyPayload?
    requires s.tasks[tid].payload.key.id !in s.db.ids
    ensures Inverse(Created(s, tid).db) <==> s.tasks[tid].payload.key.keyId !in s.db.keys
  {
    CommitEffect(env, s, tid);
    InsertInverseIff(s.db, Created(s, tid).db, s.tasks[tid].payload.key);
  }

  lemma InsertInverseIff(db: Db, db': Db, m: ApiKeyModel)
    requires Inverse(db) && m.id !in db.ids
    requires db'.keys == db.keys[m.keyId := m] && db'.ids == db.ids[m.id := m.keyId]
    ensures Inverse(db') <==> m.keyId !in db.keys
  {
    if m.keyId in db.keys {
      var previous := db.keys[m.keyId].id;
      assert previous in db.ids && db.ids[previous] == m.keyId;
      assert previous in db'.ids && db'.ids[previous] == m.keyId && db'.keys[m.keyId].id != previous;
    }
  }
}
