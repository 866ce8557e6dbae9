/**
 Finding a version's binary URI in its publish event by scanning the chain newest first, in
 windows of 10,000 blocks (cli/src/command/upgrade.rs). The RPC provider is a parameter.
 */
module LogScan {
  import opened Bytes
  import opened Options

  /** A matching log: its block, and the URI if the event data decodes. */
  datatype Log = Log(block: nat, uri: Option<string>)

  datatype RpcError = RpcFailed

  ghost predicate InBlockOrder(chain: seq<Log>)
  {
    forall i, j :: 0 <= i < j < |chain| ==> chain[i].block <= chain[j].block
  }

  /** The logs of the blocks low..high, in chain order. */
  function InRange(chain: seq<Log>, low: nat, high: int): seq<Log>
  {
    if chain == [] then []
    else
      var rest := InRange(chain[..|chain| - 1], low, high);
      var last := chain[|chain| - 1];
      if low <= last.block <= high then rest + [last] else rest
  }

  type Provider = (nat, nat) -> Option<seq<Log>>

  /** The provider fails or answers with exactly the logs of the range. */
  ghost predicate Faithful(rpc: Provider, chain: seq<Log>)
  {
    forall low: nat, high: nat :: rpc(low, high).Some? ==> rpc(low, high).value == InRange(chain, low, high)
  }

  /** The URI of the newest log that decodes. */
  function Newest(logs: seq<Log>): Option<string>
  {
    if logs == [] then None
    else if logs[|logs| - 1].uri.Some? then logs[|logs| - 1].uri
    else Newest(logs[..|logs| - 1])
  }

  /** The answer is the URI of the last log of the chain up to the head that decodes, if there is one. */
  ghost predicate IsNewest(chain: seq<Log>, head: nat, answer: Option<string>)
  {
    match answer
    case None => forall i :: 0 <= i < |chain| && chain[i].block <= head ==> chain[i].uri == None
    case Some(_) =>
      exists i :: 0 <= i < |chain| && chain[i].block <= head && chain[i].uri == answer &&
        forall j :: i < j < |chain| && chain[j].block <= head ==> chain[j].uri == None
  }

  lemma {:induction false} NewestUpTo(chain: seq<Log>, head: nat)
    ensures IsNewest(chain, head, Newest(InRange(chain, 0, head)))
  {
    if chain != [] {
      var n := |chain| - 1;
      var front, last := chain[..n], chain[n];
      NewestUpTo(front, head);
      var answer := Newest(InRange(chain, 0, head));
      var logs := InRange(front, 0, head);
      if last.block <= head {
        assert (logs + [last])[..|logs|] == logs;
        if last.uri.Some? {
          assert chain[n].uri == answer;
        }
      }
      if answer.Some? && !(last.block <= head && last.uri.Some?) {
        var i :| 0 <= i < n && front[i].block <= head && front[i].uri == answer &&
          forall j :: i < j < n && front[j].block <= head ==> front[j].uri == None;
        assert chain[i] == front[i];
        forall j | i < j < |chain| && chain[j].block <= head ensures chain[j].uri == None {
          if j < n { assert chain[j] == front[j]; }
        }
      }
      if answer.None? {
        forall i | 0 <= i < |chain| && chain[i].block <= head ensures chain[i].uri == None {
          if i < n { assert chain[i] == front[i]; }
        }
      }
    }
  }

  method NewestDecodable(logs: seq<Log>) returns (uri: Option<string>)
    ensures uri == Newest(logs)
  {
    var i := |logs|;
    assert logs[..i] == logs;
    while i > 0
      invariant 0 <= i <= |logs|
      invariant Newest(logs[..i]) == Newest(logs)
    {
      i := i - 1;
      assert logs[..i + 1][..i] == logs[..i];
      if logs[i].uri.Some? {
        return logs[i].uri;
      }
    }
    return None;
  }

  /** Consecutive windows from `head` downwards: no gap, no overlap, none longer than the limit. */
  predicate Tiles(windows: seq<(nat, nat)>, head: nat)
  {
    forall i :: 0 <= i < |windows| ==> TileAt(windows, head, i)
  }

  predicate TileAt(windows: seq<(nat, nat)>, head: nat, i: nat)
    requires i < |windows|
  {
    && windows[i].0 <= windows[i].1
    && windows[i].1 - windows[i].0 < 10_000
    && windows[i].1 + 1 == Next(windows[..i], head)
  }

  /** One above the first block not yet covered. */
  function Next(windows: seq<(nat, nat)>, head: nat): nat
  {
    if windows == [] then head + 1 else windows[|windows| - 1].0
  }

  lemma TilesExtend(windows: seq<(nat, nat)>, head: nat, low: nat, high: nat)
    requires Tiles(windows, head) && high + 1 == Next(windows, head)
    requires low <= high && high - low < 10_000
    ensures Tiles(windows + [(low, high)], head)
  {
    var longer := windows + [(low, high)];
    forall i | 0 <= i < |longer| ensures TileAt(longer, head, i) {
      assert i < |windows| ==> TileAt(windows, head, i);
      assert longer[..i] == windows[..i];
    }
  }

  lemma WindowCount(head: nat, n: nat, high: nat)
    requires high == head - 10_000 * n
    ensures n <= head / 10_000 && (high < 10_000 ==> n == head / 10_000)
  {
  }

  predicate Answered(rpc: Provider, windows: seq<(nat, nat)>)
  {
    forall i :: 0 <= i < |windows| ==> rpc(windows[i].0, windows[i].1).Some?
  }

  /** One request: an answer here is final, and without one the blocks below decide. */
  method ScanWindow(rpc: Provider, low: nat, high: nat, ghost chain: seq<Log>) returns (r: Result<Option<string>, RpcError>)
    requires InBlockOrder(chain) && Faithful(rpc, chain) && low <= high + 1
    ensures r.Err? <==> rpc(low, high).None?
    ensures r.Ok? ==>
              Newest(InRange(chain, 0, high)) == if r.value.Some? then r.value else Newest(InRange(chain, 0, low - 1))
  {
    var logs := rpc(low, high);
    if logs.None? {
      return Err(RpcFailed);
    }
    var uri := NewestDecodable(logs.value);
    NewestSplit(chain, low, high);
    return Ok(uri);
  }

  /**
   The scan. `windows` lists the ranges asked for. The answer is that of a single scan of the whole chain
   up to `head`; a failed request, and nothing else, is an error.
   */
  method BinaryUriFromEvent(rpc: Provider, head: u64, ghost chain: seq<Log>)
    returns (r: Result<Option<string>, RpcError>, windows: seq<(nat, nat)>)
    requires InBlockOrder(chain) && Faithful(rpc, chain)
    ensures r.Ok? ==> r.value == Newest(InRange(chain, 0, head)) && IsNewest(chain, head, r.value)
    ensures windows != [] && Tiles(windows, head) && |windows| <= head / 10_000 + 1
    ensures r == Ok(None) ==> windows[|windows| - 1].0 == 0 && |windows| == head / 10_000 + 1
    ensures r.Err? <==> rpc(windows[|windows| - 1].0, windows[|windows| - 1].1).None?
    ensures Answered(rpc, windows[..|windows| - 1])
  {
    windows := [];
    var high: nat := head;
    NewestUpTo(chain, head);
    while true
      invariant high == head - 10_000 * |windows|
      invariant Tiles(windows, head) && high + 1 == Next(windows, head)
      invariant Answered(rpc, windows)
      invariant Newest(InRange(chain, 0, high)) == Newest(InRange(chain, 0, head))
      decreases high
    {
      var low := if high < 10_000 - 1 then 0 else high - (10_000 - 1);
      ghost var asked := windows;
      WindowCount(head, |asked|, high);
      TilesExtend(windows, head, low, high);
      windows := windows + [(low, high)];
      assert windows[..|windows| - 1] == asked;
      r := ScanWindow(rpc, low, high, chain);
      if r.Err? || r.value.Some? {
        return;
      }
      if low == 0 {
        NothingBelowZero(chain);
        return;
      }
      high := low - 1;
    }
  }

  lemma {:induction false} RangeSplit(chain: seq<Log>, low: nat, high: nat)
    requires InBlockOrder(chain) && low <= high + 1
    ensures InRange(chain, 0, high) == InRange(chain, 0, low - 1) + InRange(chain, low, high)
  {
    if chain != [] {
      var front, last := chain[..|chain| - 1], chain[|chain| - 1];
      RangeSplit(front, low, high);
      if last.block < low {
        NothingAbove(front, low, high, last.block);
      }
    }
  }

  /** A range above every block of the chain is empty. */
  lemma {:induction false} NothingAbove(chain: seq<Log>, low: nat, high: nat, top: nat)
    requires top < low && forall i :: 0 <= i < |chain| ==> chain[i].block <= top
    ensures InRange(chain, low, high) == []
  {
    if chain != [] {
      NothingAbove(chain[..|chain| - 1], low, high, top);
    }
  }

  lemma {:induction false} NothingBelowZero(chain: seq<Log>)
    ensures InRange(chain, 0, -1) == []
  {
    if chain != [] {
      NothingBelowZero(chain[..|chain| - 1]);
    }
  }

  lemma {:induction false} NewestConcat(a: seq<Log>, b: seq<Log>)
    ensures Newest(a + b) == if Newest(b).Some? then Newest(b) else Newest(a)
  {
    if b == [] {
      assert a + b == a;
    } else {
      assert (a + b)[..|a + b| - 1] == a + b[..|b| - 1];
      NewestConcat(a, b[..|b| - 1]);
    }
  }

  /** The newest of a range is the newest of its upper part, or else of the rest. */
  lemma NewestSplit(chain: seq<Log>, low: nat, high: nat)
    requires InBlockOrder(chain) && low <= high + 1
    ensures Newest(InRange(chain, 0, high)) ==
            var upper := Newest(InRange(chain, low, high));
            if upper.Some? then upper else Newest(InRange(chain, 0, low - 1))
  {
    RangeSplit(chain, low, high);
    NewestConcat(InRange(chain, 0, low - 1), InRange(chain, low, high));
  }

  lemma TilesPrefix(windows: seq<(nat, nat)>, head: nat)
    requires windows != [] && Tiles(windows, head)
    ensures Tiles(windows[..|windows| - 1], head)
  {
    var shorter := windows[..|windows| - 1];
    forall i | 0 <= i < |shorter| ensures TileAt(shorter, head, i) {
      assert TileAt(windows, head, i) && shorter[..i] == windows[..i];
    }
  }

  /** Windows that tile down to block 0 cover every block up to the head exactly once. */
  lemma {:induction false} TilesCover(windows: seq<(nat, nat)>, head: nat, b: nat) returns (i: nat)
    requires windows != [] && Tiles(windows, head) && windows[|windows| - 1].0 <= b <= head
    ensures i < |windows| && windows[i].0 <= b <= windows[i].1
    ensures forall j :: 0 <= j < |windows| && windows[j].0 <= b <= windows[j].1 ==> j == i
  {
    var n := |windows| - 1;
    assert TileAt(windows, head, n);
    TilesPrefix(windows, head);
    if b <= windows[n].1 {
      i := n;
      forall j | 0 <= j < n ensures windows[n].1 < windows[j].0 { TilesDescend(windows, head, j, n); }
    } else {
      i := TilesCover(windows[..n], head, b);
      forall j | 0 <= j < |windows| && windows[j].0 <= b <= windows[j].1 ensures j == i {
        if j < n { assert windows[..n][j] == windows[j]; }
      }
    }
  }

  lemma {:induction false} TilesDescend(windows: seq<(nat, nat)>, head: nat, i: nat, j: nat)
    requires Tiles(windows, head) && i < j < |windows|
    ensures windows[j].1 < windows[i].0
    decreases j
  {
    assert TileAt(windows, head, j) && TileAt(windows, head, j - 1);
    if i < j - 1 {
      TilesDescend(windows, head, i, j - 1);
    }
  }
}
