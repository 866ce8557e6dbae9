/**
 The column families behind API keys and legacy tokens, and optimistic transactions over them
 (crates/auth/src/db.rs, api_keys.rs, models.rs).

 A transaction buffers its writes. For every row it writes it remembers how far the database had
 advanced when the write was recorded, and it commits only if no such row was written since.
 */
module OptimisticDb {
  import opened Bytes
  import opened MergeOperator
  import opened Options
  import opened ServiceIds

  datatype ApiKeyModel = ApiKeyModel(
    id: u64, keyId: string, keyHash: string, service: ServiceId, createdAt: u64, lastUsed: u64,
    expiresAt: u64, enabled: bool, headers: map<string, string>, description: string)

  datatype TokenModel = TokenModel(
    id: u64, hash: string, service: ServiceId, expiresAt: u64, enabled: bool, headers: map<string, string>)

  /** The tables that draw their ids from a counter. */
  datatype Table = ApiKeys | Tokens

  /** A counter as stored: a value and merge operands not yet folded into it. */
  datatype Cell = Cell(base: Option<seq<byte>>, pending: seq<Operand>)

  datatype Row = CounterRow(table: Table) | KeyRow(keyId: string) | IdRow(id: u64) | TokenRow(id: u64)

  datatype Write =
    | Add(table: Table)
    | PutKey(model: ApiKeyModel)
    | PutId(id: u64, keyId: string)
    | PutToken(token: TokenModel)
    | DropKey(keyId: string)
    | DropId(id: u64)

  datatype Db = Db(
    counters: map<Table, Cell>,
    keys: map<string, ApiKeyModel>,
    ids: map<u64, string>,
    tokens: map<u64, TokenModel>,
    clock: nat,
    lastWrite: map<Row, nat>)

  datatype Txn = Txn(batch: seq<Write>, tracked: map<Row, nat>)

  const EMPTY_DB: Db := Db(map[], map[], map[], map[], 0, map[])

  const EMPTY_TXN: Txn := Txn([], map[])

  function RowOf(w: Write): Row
  {
    match w
    case Add(t) => CounterRow(t)
    case PutKey(m) => KeyRow(m.keyId)
    case PutId(id, _) => IdRow(id)
    case PutToken(m) => TokenRow(m.id)
    case DropKey(k) => KeyRow(k)
    case DropId(id) => IdRow(id)
  }

  function CellOf(db: Db, t: Table): Cell
  {
    if t in db.counters then db.counters[t] else Cell(None, [])
  }

  /** The number a reader of the counter sees; an absent counter counts as 0. */
  function CellValue(c: Cell): u64
  {
    (ExistingWord(c.base) + SumWords(AllHeld(c.pending))) % TWO_64
  }

  function Counter(db: Db, t: Table): u64
  {
    CellValue(CellOf(db, t))
  }

  function LastWrite(db: Db, r: Row): nat
  {
    if r in db.lastWrite then db.lastWrite[r] else 0
  }

  /** The operand a create adds: the eight bytes of 1. */
  const ONE: Operand := Raw([0, 0, 0, 0, 0, 0, 0, 1])

  function WriteTo(db: Db, w: Write): (r: Db)
    ensures r.clock == db.clock
  {
    match w
    case Add(t) => db.(counters := db.counters[t := CellOf(db, t).(pending := CellOf(db, t).pending + [ONE])])
    case PutKey(m) => db.(keys := db.keys[m.keyId := m])
    case PutId(id, k) => db.(ids := db.ids[id := k])
    case PutToken(m) => db.(tokens := db.tokens[m.id := m])
    case DropKey(k) => db.(keys := db.keys - {k})
    case DropId(id) => db.(ids := db.ids - {id})
  }

  /** One committed write: the row remembers the new clock. */
  function Stamp(db: Db, w: Write, now: nat): Db
  {
    WriteTo(db, w).(lastWrite := db.lastWrite[RowOf(w) := now])
  }

  function WriteAll(db: Db, batch: seq<Write>, now: nat): (r: Db)
    ensures r.clock == db.clock
    decreases |batch|
  {
    if batch == [] then db else WriteAll(Stamp(db, batch[0], now), batch[1..], now)
  }

  // ---- transactions ----

  /** Records a write: the row is tracked from its first write on. */
  function Record(db: Db, txn: Txn, w: Write): Txn
  {
    Txn(txn.batch + [w],
        if RowOf(w) in txn.tracked then txn.tracked else txn.tracked[RowOf(w) := db.clock])
  }

  /** No tracked row was written after it was tracked. */
  predicate Committable(db: Db, txn: Txn)
  {
    forall r :: r in txn.tracked ==> LastWrite(db, r) <= txn.tracked[r]
  }

  /** All buffered writes take effect at once. */
  function Commit(db: Db, txn: Txn): Db
  {
    WriteAll(db.(clock := db.clock + 1), txn.batch, db.clock + 1)
  }

  /** A write outside any transaction. */
  function Put(db: Db, w: Write): Db
  {
    Stamp(db.(clock := db.clock + 1), w, db.clock + 1)
  }

  function Additions(batch: seq<Write>, t: Table): seq<Operand>
  {
    if batch == [] then []
    else (if batch[0] == Add(t) then [ONE] else []) + Additions(batch[1..], t)
  }

  /** A read of the counter inside a transaction sees the transaction's own additions. */
  function ReadCounter(db: Db, txn: Txn, t: Table): Option<seq<byte>>
  {
    var c := CellOf(db, t);
    var pending := c.pending + Additions(txn.batch, t);
    if c.base.None? && pending == [] then None else Some(Merged(c.base, AllHeld(pending)))
  }

  // ---- background merging of counter operands ----

  function Regrouped(c: Cell, i: nat, j: nat): Cell
    requires i <= j <= |c.pending|
  {
    c.(pending := c.pending[..i] + [Partial(c.pending[i..j])] + c.pending[j..])
  }

  function Flushed(c: Cell, k: nat): Cell
    requires k <= |c.pending|
  {
    Cell(Some(Merged(c.base, AllHeld(c.pending[..k]))), c.pending[k..])
  }

  // ---- what merging keeps ----

  /** A fully merged cell stores its value. */
  lemma StoredValue(c: Cell)
    ensures Word(Merged(c.base, AllHeld(c.pending))) == CellValue(c)
  {}

  lemma {:induction false} AllLeavesConcat(a: seq<Operand>, b: seq<Operand>)
    ensures AllLeaves(a + b) == AllLeaves(a) + AllLeaves(b)
  {
    if a == [] {
      assert a + b == b;
    } else {
      assert (a + b)[1..] == a[1..] + b;
      AllLeavesConcat(a[1..], b);
    }
  }

  lemma {:induction false} AllHeldConcat(a: seq<Operand>, b: seq<Operand>)
    ensures AllHeld(a + b) == AllHeld(a) + AllHeld(b)
  {
    if a == [] {
      assert a + b == b;
    } else {
      assert (a + b)[1..] == a[1..] + b;
      AllHeldConcat(a[1..], b);
    }
  }

  /** Combining neighbouring operands leaves the counter's value alone. */
  lemma RegroupKeepsValue(c: Cell, i: nat, j: nat)
    requires i <= j <= |c.pending|
    ensures CellValue(Regrouped(c, i, j)) == CellValue(c)
  {
    var a, b, d := c.pending[..i], c.pending[i..j], c.pending[j..];
    assert c.pending == a + b + d;
    AllLeavesConcat(a + b, d);
    AllLeavesConcat(a, b);
    AllLeavesConcat(a + [Partial(b)], d);
    AllLeavesConcat(a, [Partial(b)]);
    SingleLeaves(Partial(b));
    GroupingIrrelevant(c.base, c.pending);
    GroupingIrrelevant(c.base, Regrouped(c, i, j).pending);
    StoredValue(c);
    StoredValue(Regrouped(c, i, j));
  }

  lemma SingleLeaves(op: Operand)
    ensures AllLeaves([op]) == Leaves(op)
  {
    assert [op][1..] == [];
  }

  /** Folding the oldest operands into the stored value leaves the counter's value alone. */
  lemma FlushKeepsValue(c: Cell, k: nat)
    requires k <= |c.pending|
    ensures CellValue(Flushed(c, k)) == CellValue(c)
  {
    var a, b := c.pending[..k], c.pending[k..];
    var e, x, y := ExistingWord(c.base), SumWords(AllHeld(a)), SumWords(AllHeld(b));
    assert c.pending == a + b;
    AllHeldConcat(a, b);
    SumWordsAppend(AllHeld(a), AllHeld(b));
    FlushedBase(c, k);
    WrapAdd(e, x, y);
  }

  lemma FlushedBase(c: Cell, k: nat)
    requires k <= |c.pending|
    ensures ExistingWord(Flushed(c, k).base) == (ExistingWord(c.base) + SumWords(AllHeld(c.pending[..k]))) % TWO_64
  {}

  lemma OneIsOne()
    ensures AllHeld([ONE]) == [ONE.bytes] && SumWords(AllHeld([ONE])) == 1
  {
    SingleHeld(ONE);
    SumWordsFirst(ONE.bytes, []);
    assert [ONE.bytes] + [] == [ONE.bytes];
    ZeroBytes(ONE.bytes[..7]);
  }

  /** An added one raises the counter by one, modulo 2^64. */
  lemma AddOne(c: Cell)
    ensures CellValue(c.(pending := c.pending + [ONE])) == (CellValue(c) + 1) % TWO_64
  {
    var e, x, y := ExistingWord(c.base), SumWords(AllHeld(c.pending)), SumWords(AllHeld([ONE]));
    AllHeldConcat(c.pending, [ONE]);
    SumWordsAppend(AllHeld(c.pending), AllHeld([ONE]));
    assert ((e + x) % TWO_64 + y) % TWO_64 == (e + (x + y)) % TWO_64 by { WrapAdd(e, x, y); }
    OneIsOne();
  }

  lemma SingleHeld(op: Operand)
    ensures AllHeld([op]) == [Held(op)]
  {
    assert [op][1..] == [];
  }

  // ---- how the counters and their stamps evolve ----

  /** A counter is untouched, or its stamp tells that it was written after `since`. */
  ghost predicate CounterSafe(db: Db, db': Db, t: Table, since: nat)
  {
    || (LastWrite(db', CounterRow(t)) == LastWrite(db, CounterRow(t)) && CellOf(db', t) == CellOf(db, t))
    || LastWrite(db', CounterRow(t)) > since
  }

  lemma StampSafe(db: Db, w: Write, now: nat, t: Table, since: nat)
    requires now > since
    ensures CounterSafe(db, Stamp(db, w, now), t, since)
    ensures !w.Add? ==> CellOf(Stamp(db, w, now), t) == CellOf(db, t)
  {}

  lemma {:induction false} WriteAllSafe(db: Db, batch: seq<Write>, now: nat, t: Table, since: nat)
    requires now > since
    ensures CounterSafe(db, WriteAll(db, batch, now), t, since)
    decreases |batch|
  {
    if batch != [] {
      StampSafe(db, batch[0], now, t, since);
      WriteAllSafe(Stamp(db, batch[0], now), batch[1..], now, t, since);
    }
  }
}
