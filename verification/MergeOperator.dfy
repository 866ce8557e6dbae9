/** The `add` merge operator of the sequence column family (crates/auth/src/db.rs). */
module MergeOperator {
  import opened Bytes
  import opened Options

  /** A stored value counts as its big-endian number when it is eight bytes long, and as 0 otherwise. */
  function Word(v: seq<byte>): (n: u64)
    ensures |v| != 8 ==> n == 0
  {
    Pow256Of8();
    if |v| == 8 then FromBe(v) else 0
  }

  function ExistingWord(v: Option<seq<byte>>): (n: u64)
  {
    match v case Some(bytes) => Word(bytes) case None => 0
  }

  /** The unbounded sum of the operands. */
  function SumWords(operands: seq<seq<byte>>): nat
  {
    if operands == [] then 0 else Word(operands[0]) + SumWords(operands[1..])
  }

  /** The eight bytes that denote a word. */
  function Encoded(n: u64): (r: seq<byte>)
    ensures |r| == 8 && Word(r) == n
  {
    Pow256Of8();
    FromBeToBe(n, 8);
    ToBe(n, 8)
  }

  /** What a full or partial merge leaves in the store. */
  function Merged(existing: Option<seq<byte>>, operands: seq<seq<byte>>): (r: seq<byte>)
    ensures |r| == 8 && Word(r) == (ExistingWord(existing) + SumWords(operands)) % TWO_64
  {
    Encoded((ExistingWord(existing) + SumWords(operands)) % TWO_64)
  }

  /** The operator itself: a running sum that wraps at 2^64. */
  method AdderMerge(existing: Option<seq<byte>>, operands: seq<seq<byte>>) returns (r: seq<byte>)
    ensures r == Merged(existing, operands)
  {
    var sum: u64 := ExistingWord(existing);
    for i := 0 to |operands|
      invariant RunningSum(sum, operands[i..]) == RunningSum(ExistingWord(existing), operands)
    {
      assert operands[i..][1..] == operands[i + 1..];
      sum := (sum + Word(operands[i])) % TWO_64;
    }
    RunningSumWraps(ExistingWord(existing), operands);
    r := Encoded(sum);
  }

  function RunningSum(sum: u64, operands: seq<seq<byte>>): u64
    decreases |operands|
  {
    if operands == [] then sum else RunningSum((sum + Word(operands[0])) % TWO_64, operands[1..])
  }

  lemma WrapAdd(a: int, b: int, c: int)
    ensures ((a + b) % TWO_64 + c) % TWO_64 == (a + (b + c)) % TWO_64
  {}

  /** Wrapping at every addition or once at the end gives the same word. */
  lemma {:induction false} RunningSumWraps(sum: u64, operands: seq<seq<byte>>)
    ensures RunningSum(sum, operands) == (sum + SumWords(operands)) % TWO_64
    decreases |operands|
  {
    if operands != [] {
      RunningSumWraps((sum + Word(operands[0])) % TWO_64, operands[1..]);
      WrapAdd(sum, Word(operands[0]), SumWords(operands[1..]));
    }
  }

  lemma {:induction false} SumWordsAppend(a: seq<seq<byte>>, b: seq<seq<byte>>)
    ensures SumWords(a + b) == SumWords(a) + SumWords(b)
  {
    if a == [] {
      assert a + b == b;
    } else {
      SumWordsAppend(a[1..], b);
      assert (a + b)[1..] == a[1..] + b;
    }
  }

  /** Operands as the store may hold them: raw, or already combined by partial merges, nested to any depth. */
  datatype Operand = Raw(bytes: seq<byte>) | Partial(parts: seq<Operand>)

  /** The raw operands in the order they were written. */
  function Leaves(op: Operand): seq<seq<byte>>
    decreases op, 0
  {
    match op case Raw(bytes) => [bytes] case Partial(parts) => AllLeaves(parts)
  }

  function AllLeaves(ops: seq<Operand>): seq<seq<byte>>
    decreases ops, 1
  {
    if ops == [] then [] else Leaves(ops[0]) + AllLeaves(ops[1..])
  }

  /** The bytes the store holds for an operand once its partial merges have run. */
  function Held(op: Operand): seq<byte>
    decreases op, 0
  {
    match op case Raw(bytes) => bytes case Partial(parts) => Merged(None, AllHeld(parts))
  }

  function AllHeld(ops: seq<Operand>): seq<seq<byte>>
    decreases ops, 1
  {
    if ops == [] then [] else [Held(ops[0])] + AllHeld(ops[1..])
  }

  function Wraps(k: int): int { k * TWO_64 }

  /** Equal up to a number of wrap-arounds. */
  ghost predicate Congruent(a: int, b: int)
  {
    exists k :: a == b + Wraps(k)
  }

  lemma CongruentAdd(a: int, a': int, b: int, b': int)
    requires Congruent(a, a') && Congruent(b, b')
    ensures Congruent(a + b, a' + b')
  {
    var j :| a == a' + Wraps(j);
    var k :| b == b' + Wraps(k);
    assert a + b == a' + b' + Wraps(j + k);
  }

  lemma CongruentSameWord(a: int, b: int)
    requires Congruent(a, b)
    ensures a % TWO_64 == b % TWO_64
  {}

  lemma WordCongruent(a: int)
    ensures Congruent(a % TWO_64, a)
  {
    assert a % TWO_64 == a + Wraps(-(a / TWO_64));
  }

  lemma {:induction false} PartialKeepsSum(op: Operand)
    ensures Congruent(Word(Held(op)), SumWords(Leaves(op)))
    decreases op, 0
  {
    match op {
      case Raw(bytes) =>
        SumWordsFirst(bytes, []);
        assert [bytes] + [] == [bytes];
        assert Word(bytes) == SumWords(Leaves(op)) + Wraps(0);
      case Partial(parts) =>
        GroupsKeepSum(parts);
        CongruentSameWord(SumWords(AllHeld(parts)), SumWords(AllLeaves(parts)));
        WordCongruent(SumWords(AllLeaves(parts)));
    }
  }

  lemma {:induction false} GroupsKeepSum(ops: seq<Operand>)
    ensures Congruent(SumWords(AllHeld(ops)), SumWords(AllLeaves(ops)))
    decreases ops, 1
  {
    if ops == [] {
      assert 0 == 0 + Wraps(0);
    } else {
      PartialKeepsSum(ops[0]);
      GroupsKeepSum(ops[1..]);
      SumWordsAppend(Leaves(ops[0]), AllLeaves(ops[1..]));
      SumWordsFirst(Held(ops[0]), AllHeld(ops[1..]));
      CongruentAdd(Word(Held(ops[0])), SumWords(Leaves(ops[0])),
                   SumWords(AllHeld(ops[1..])), SumWords(AllLeaves(ops[1..])));
    }
  }

  lemma SumWordsFirst(first: seq<byte>, rest: seq<seq<byte>>)
    ensures SumWords([first] + rest) == Word(first) + SumWords(rest)
  {
    assert ([first] + rest)[1..] == rest;
  }

  lemma MergedSame(existing: Option<seq<byte>>, a: seq<seq<byte>>, b: seq<seq<byte>>)
    requires Congruent(ExistingWord(existing) + SumWords(a), ExistingWord(existing) + SumWords(b))
    ensures Merged(existing, a) == Merged(existing, b)
  {
    CongruentSameWord(ExistingWord(existing) + SumWords(a), ExistingWord(existing) + SumWords(b));
  }

  /** However the operands were grouped into partial merges, the stored word is the same. */
  lemma GroupingIrrelevant(existing: Option<seq<byte>>, ops: seq<Operand>)
    ensures Merged(existing, AllHeld(ops)) == Merged(existing, AllLeaves(ops))
  {
    var e := ExistingWord(existing);
    GroupsKeepSum(ops);
    assert Congruent(e, e) by { assert e == e + Wraps(0); }
    CongruentAdd(e, e, SumWords(AllHeld(ops)), SumWords(AllLeaves(ops)));
    MergedSame(existing, AllHeld(ops), AllLeaves(ops));
  }
}
