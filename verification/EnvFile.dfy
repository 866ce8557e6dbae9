/** Rewriting a settings file of KEY=value lines in place (cli/src/settings.rs). */
module EnvFile {
  import opened Options
  import opened Ordering
  import opened Text

  datatype EnvLine = Entry(key: string, value: string) | Other(raw: string)

  // ---- reading ----

  /** The carriage return before a line feed belongs to the line ending. */
  function StripReturn(s: string): string
  {
    if s != "" && s[|s| - 1] == '\r' then s[..|s| - 1] else s
  }

  /** `str::lines`: a last line without a line feed counts, and keeps a final carriage return. */
  function Lines(text: string): seq<string>
    decreases |text|
  {
    match SplitOnce(text, '\n')
    case None => if text == "" then [] else [text]
    case Some((first, rest)) => [StripReturn(first)] + Lines(rest)
  }

  function ParseLine(line: string): EnvLine
  {
    match SplitOnce(line, '=')
    case None => Other(line)
    case Some((key, value)) => Entry(Trim(key), Trim(value))
  }

  function Parse(text: string): (lines: seq<EnvLine>)
    ensures |lines| == |Lines(text)|
    ensures forall i :: 0 <= i < |lines| ==> lines[i] == ParseLine(Lines(text)[i])
  {
    var raw := Lines(text);
    seq(|raw|, i requires 0 <= i < |raw| => ParseLine(raw[i]))
  }

  // ---- writing ----

  function RenderLine(line: EnvLine): string
  {
    match line
    case Entry(key, value) => key + ['='] + value
    case Other(raw) => raw
  }

  function Render(lines: seq<EnvLine>): string
  {
    if lines == [] then "" else RenderLine(lines[0]) + ['\n'] + Render(lines[1..])
  }

  predicate HasKey(line: EnvLine, key: string)
  {
    line.Entry? && line.key == key
  }

  function Keys(lines: seq<EnvLine>): set<string>
  {
    set i | 0 <= i < |lines| && lines[i].Entry? :: lines[i].key
  }

  predicate IsFirst(lines: seq<EnvLine>, i: nat)
    requires i < |lines|
  {
    lines[i].Entry? && forall j :: 0 <= j < i ==> !HasKey(lines[j], lines[i].key)
  }

  /** Line i afterwards: the first occurrence of an updated key carries the new value. */
  function Target(lines: seq<EnvLine>, updates: map<string, string>, i: nat): EnvLine
    requires i < |lines|
  {
    if IsFirst(lines, i) && lines[i].key in updates then Entry(lines[i].key, updates[lines[i].key]) else lines[i]
  }

  function Entries(names: seq<string>, updates: map<string, string>): seq<EnvLine>
    requires forall k :: k in names ==> k in updates
  {
    seq(|names|, i requires 0 <= i < |names| => Entry(names[i], updates[names[i]]))
  }

  function InPlace(lines: seq<EnvLine>, updates: map<string, string>): (r: seq<EnvLine>)
    ensures |r| == |lines| && forall i :: 0 <= i < |lines| ==> r[i] == Target(lines, updates, i)
  {
    seq(|lines|, i requires 0 <= i < |lines| => Target(lines, updates, i))
  }

  /** The keys that no line has, in key order. */
  ghost predicate ListsMissing(names: seq<string>, lines: seq<EnvLine>, updates: map<string, string>)
  {
    Lists(names, updates.Keys - Keys(lines))
  }

  ghost function Missing(lines: seq<EnvLine>, updates: map<string, string>): (names: seq<string>)
    ensures ListsMissing(names, lines, updates) && |names| == |updates.Keys - Keys(lines)|
  {
    Sorted(updates.Keys - Keys(lines))
  }

  /** The updated lines in place, then the missing keys. */
  ghost function Written(lines: seq<EnvLine>, updates: map<string, string>): seq<EnvLine>
  {
    InPlace(lines, updates) + Entries(Missing(lines, updates), updates)
  }

  /** Later updates of a key win. */
  function Collect(updates: seq<(string, string)>): map<string, string>
  {
    if updates == [] then map[] else
      var last := updates[|updates| - 1];
      Collect(updates[..|updates| - 1])[last.0 := last.1]
  }

  ghost function Rewritten(content: string, updates: seq<(string, string)>): string
  {
    Render(Written(Parse(content), Collect(updates)))
  }

  /** The whole rewrite; a missing file reads as the empty one. */
  method WriteEnvEntries(content: Option<string>, updates: seq<(string, string)>) returns (text: string)
    ensures text == Rewritten(if content.Some? then content.value else "", updates)
  {
    var lines := [];
    if content.Some? {
      lines := Parse(content.value);
    } else {
      ParseEmpty();
    }
    var wanted := CollectAll(updates);
    var written := UpdateLines(lines, wanted);
    text := RenderAll(written);
  }

  lemma ParseEmpty()
    ensures Parse("") == []
  {
    assert Lines("") == [];
  }

  method UpdateLines(lines: seq<EnvLine>, wanted: map<string, string>) returns (written: seq<EnvLine>)
    ensures written == Written(lines, wanted)
  {
    var kept, remaining := UpdateInPlace(lines, wanted);
    assert remaining.Keys == wanted.Keys - Keys(lines);
    var names := Traverse(remaining.Keys);
    var appended := AppendAll(names, remaining);
    assert appended == Entries(names, wanted);
    return kept + appended;
  }

  method CollectAll(updates: seq<(string, string)>) returns (wanted: map<string, string>)
    ensures wanted == Collect(updates)
  {
    wanted := map[];
    for i := 0 to |updates|
      invariant wanted == Collect(updates[..i])
    {
      assert updates[..i + 1][..i] == updates[..i];
      wanted := wanted[updates[i].0 := updates[i].1];
    }
    assert updates[..|updates|] == updates;
  }

  method AppendAll(names: seq<string>, remaining: map<string, string>) returns (lines: seq<EnvLine>)
    requires forall k :: k in names ==> k in remaining
    ensures lines == Entries(names, remaining)
  {
    lines := [];
    for i := 0 to |names|
      invariant |lines| == i && forall j :: 0 <= j < i ==> lines[j] == Entry(names[j], remaining[names[j]])
    {
      lines := lines + [Entry(names[i], remaining[names[i]])];
    }
  }

  method UpdateInPlace(lines: seq<EnvLine>, wanted: map<string, string>)
    returns (kept: seq<EnvLine>, remaining: map<string, string>)
    ensures kept == InPlace(lines, wanted)
    ensures remaining == wanted - Keys(lines)
  {
    kept, remaining := [], wanted;
    for i := 0 to |lines|
      invariant |kept| == i && forall j :: 0 <= j < i ==> kept[j] == Target(lines, wanted, j)
      invariant remaining == wanted - Keys(lines[..i])
    {
      KeysPush(lines, i);
      var line := lines[i];
      if line.Entry? { KeysFirst(lines, i); }
      if line.Entry? && line.key in remaining {
        kept := kept + [Entry(line.key, remaining[line.key])];
        remaining := remaining - {line.key};
      } else {
        kept := kept + [line];
      }
    }
    assert lines[..|lines|] == lines;
  }

  lemma KeysPush(lines: seq<EnvLine>, i: nat)
    requires i < |lines|
    ensures Keys(lines[..i + 1]) == Keys(lines[..i]) + if lines[i].Entry? then {lines[i].key} else {}
  {
    var a, b := lines[..i], lines[..i + 1];
    forall k | k in Keys(b) ensures k in Keys(a) || HasKey(lines[i], k) {
      var j :| 0 <= j < |b| && b[j].Entry? && b[j].key == k;
      assert j < i ==> a[j] == b[j];
    }
    forall k | k in Keys(a) ensures k in Keys(b) {
      var j :| 0 <= j < |a| && a[j].Entry? && a[j].key == k;
      assert b[j] == a[j];
    }
    assert b[i] == lines[i];
  }

  lemma KeysFirst(lines: seq<EnvLine>, i: nat)
    requires i < |lines| && lines[i].Entry?
    ensures IsFirst(lines, i) <==> lines[i].key !in Keys(lines[..i])
  {
    if lines[i].key in Keys(lines[..i]) {
      var j :| 0 <= j < i && lines[..i][j].Entry? && lines[..i][j].key == lines[i].key;
      assert HasKey(lines[j], lines[i].key);
    } else {
      forall j | 0 <= j < i ensures !HasKey(lines[j], lines[i].key) {
        assert lines[..i][j] == lines[j];
      }
    }
  }

  method RenderAll(lines: seq<EnvLine>) returns (text: string)
    ensures text == Render(lines)
  {
    text := "";
    for i := 0 to |lines|
      invariant text == Render(lines[..i])
    {
      assert lines[..i + 1] == lines[..i] + [lines[i]];
      RenderPush(lines[..i], lines[i]);
      text := text + RenderLine(lines[i]) + ['\n'];
    }
    assert lines[..|lines|] == lines;
  }

  lemma {:induction false} RenderPush(lines: seq<EnvLine>, line: EnvLine)
    ensures Render(lines + [line]) == Render(lines) + RenderLine(line) + ['\n']
  {
    if lines == [] {
      assert (lines + [line])[1..] == [];
    } else {
      assert (lines + [line])[1..] == lines[1..] + [line];
      RenderPush(lines[1..], line);
    }
  }

  // ---- what a reader of the file sees ----

  /** The value the settings loader takes: that of the first entry with the key. */
  function Lookup(lines: seq<EnvLine>, key: string): Option<string>
  {
    if lines == [] then None
    else if HasKey(lines[0], key) then Some(lines[0].value)
    else Lookup(lines[1..], key)
  }

  lemma {:induction false} LookupFirst(lines: seq<EnvLine>, i: nat, key: string)
    requires i < |lines| && HasKey(lines[i], key) && forall j :: 0 <= j < i ==> !HasKey(lines[j], key)
    ensures Lookup(lines, key) == Some(lines[i].value)
  {
    if i > 0 {
      LookupFirst(lines[1..], i - 1, key);
    }
  }

  lemma {:induction false} LookupFinds(lines: seq<EnvLine>, key: string) returns (i: nat)
    ensures Lookup(lines, key).None? <==> key !in Keys(lines)
    ensures Lookup(lines, key).Some? ==>
              i < |lines| && HasKey(lines[i], key) && forall j :: 0 <= j < i ==> !HasKey(lines[j], key)
  {
    i := 0;
    if lines != [] && !HasKey(lines[0], key) {
      i := LookupFinds(lines[1..], key);
      i := i + 1;
      KeysTail(lines);
    }
  }

  lemma KeysTail(lines: seq<EnvLine>)
    requires lines != []
    ensures Keys(lines) == Keys(lines[1..]) + if lines[0].Entry? then {lines[0].key} else {}
  {
    var rest := lines[1..];
    forall k | k in Keys(lines) ensures k in Keys(rest) || HasKey(lines[0], k) {
      var j :| 0 <= j < |lines| && lines[j].Entry? && lines[j].key == k;
      assert j > 0 ==> rest[j - 1] == lines[j];
    }
    forall k | k in Keys(rest) ensures k in Keys(lines) {
      var j :| 0 <= j < |rest| && rest[j].Entry? && rest[j].key == k;
      assert lines[j + 1] == rest[j];
    }
  }

  /** Every updated key reads as its new value, every other key as before. */
  lemma WrittenReads(lines: seq<EnvLine>, updates: map<string, string>, key: string)
    ensures Lookup(Written(lines, updates), key) ==
            if key in updates then Some(updates[key]) else Lookup(lines, key)
  {
    var names := Missing(lines, updates);
    LookupConcat(InPlace(lines, updates), Entries(names, updates), key);
    InPlaceReads(lines, updates, key);
    var i := LookupFinds(lines, key);
    if key in names {
      EntriesReads(names, updates, key);
    } else {
      EntriesMiss(names, updates, key);
    }
  }

  lemma {:induction false} CollectKeys(updates: seq<(string, string)>, key: string)
    ensures key in Collect(updates) <==> exists i :: 0 <= i < |updates| && updates[i].0 == key
  {
    if updates != [] {
      var n := |updates| - 1;
      CollectKeys(updates[..n], key);
      assert updates == updates[..n] + [updates[n]];
    }
  }

  lemma {:induction false} CollectLast(updates: seq<(string, string)>, i: nat)
    requires i < |updates| && IsLast(updates, i)
    ensures updates[i].0 in Collect(updates) && Collect(updates)[updates[i].0] == updates[i].1
  {
    var n := |updates| - 1;
    if i < n {
      CollectLast(updates[..n], i);
    }
  }

  /** No later update has the key of update i. */
  predicate IsLast(updates: seq<(string, string)>, i: nat)
    requires i < |updates|
  {
    forall j :: i < j < |updates| ==> updates[j].0 != updates[i].0
  }

  lemma LastUpdateWins(lines: seq<EnvLine>, updates: seq<(string, string)>, i: nat)
    requires i < |updates| && IsLast(updates, i)
    ensures Lookup(Written(lines, Collect(updates)), updates[i].0) == Some(updates[i].1)
  {
    CollectLast(updates, i);
    WrittenReads(lines, Collect(updates), updates[i].0);
  }

  lemma OtherKeysKept(lines: seq<EnvLine>, updates: seq<(string, string)>, key: string)
    requires forall i :: 0 <= i < |updates| ==> updates[i].0 != key
    ensures Lookup(Written(lines, Collect(updates)), key) == Lookup(lines, key)
  {
    CollectKeys(updates, key);
    WrittenReads(lines, Collect(updates), key);
  }

  lemma {:induction false} LookupConcat(a: seq<EnvLine>, b: seq<EnvLine>, key: string)
    ensures Lookup(a + b, key) == if Lookup(a, key).Some? then Lookup(a, key) else Lookup(b, key)
  {
    if a == [] {
      assert a + b == b;
    } else {
      assert (a + b)[1..] == a[1..] + b;
      LookupConcat(a[1..], b, key);
    }
  }

  lemma InPlaceReads(lines: seq<EnvLine>, updates: map<string, string>, key: string)
    ensures Lookup(InPlace(lines, updates), key) ==
            if key in updates && key in Keys(lines) then Some(updates[key]) else Lookup(lines, key)
  {
    var r := InPlace(lines, updates);
    var i := LookupFinds(lines, key);
    if Lookup(lines, key).Some? {
      assert forall j :: 0 <= j < i ==> !HasKey(r[j], key);
      LookupFirst(lines, i, key);
      LookupFirst(r, i, key);
    } else {
      SameKeys(lines, updates);
      var n := LookupFinds(r, key);
    }
  }

  lemma SameKeys(lines: seq<EnvLine>, updates: map<string, string>)
    ensures Keys(InPlace(lines, updates)) == Keys(lines)
  {
    var r := InPlace(lines, updates);
    forall k | k in Keys(r) ensures k in Keys(lines) {
      var j :| 0 <= j < |r| && r[j].Entry? && r[j].key == k;
      assert HasKey(lines[j], k);
    }
    forall k | k in Keys(lines) ensures k in Keys(r) {
      var j :| 0 <= j < |lines| && lines[j].Entry? && lines[j].key == k;
      assert HasKey(r[j], k);
    }
  }

  lemma EntriesReads(names: seq<string>, updates: map<string, string>, key: string)
    requires Increasing(names) && (forall k :: k in names ==> k in updates) && key in names
    ensures Lookup(Entries(names, updates), key) == Some(updates[key])
  {
    var n :| 0 <= n < |names| && names[n] == key;
    forall j | 0 <= j < n ensures names[j] != key {
      assert InOrder(names, j, n);
      PrecedesIrreflexive(key);
    }
    LookupFirst(Entries(names, updates), n, key);
  }

  lemma EntriesMiss(names: seq<string>, updates: map<string, string>, key: string)
    requires (forall k :: k in names ==> k in updates) && key !in names
    ensures Lookup(Entries(names, updates), key).None?
  {
    var i := LookupFinds(Entries(names, updates), key);
  }

  /** Only values change and only at first occurrences: every other line stays where it was. */
  lemma WrittenKeepsLines(lines: seq<EnvLine>, updates: map<string, string>, i: nat)
    requires i < |lines|
    ensures |Written(lines, updates)| == |lines| + |updates.Keys - Keys(lines)|
    ensures Written(lines, updates)[i] == lines[i] || (IsFirst(lines, i) && lines[i].key in updates)
    ensures lines[i].Entry? ==> HasKey(Written(lines, updates)[i], lines[i].key)
  {
    assert Written(lines, updates)[i] == InPlace(lines, updates)[i];
  }

  /** Applying the same updates again changes nothing. */
  lemma WrittenTwice(lines: seq<EnvLine>, updates: map<string, string>)
    ensures Written(Written(lines, updates), updates) == Written(lines, updates)
  {
    var r := Written(lines, updates);
    forall k | k in updates ensures k in Keys(r) {
      WrittenReads(lines, updates, k);
      var i := LookupFinds(r, k);
    }
    InPlaceTwice(lines, updates, Missing(lines, updates));
    NoneMissing(r, updates);
  }

  lemma NoneMissing(lines: seq<EnvLine>, updates: map<string, string>)
    requires forall k :: k in updates ==> k in Keys(lines)
    ensures Written(lines, updates) == InPlace(lines, updates)
  {
    assert updates.Keys - Keys(lines) == {};
  }

  lemma InPlaceTwice(lines: seq<EnvLine>, updates: map<string, string>, names: seq<string>)
    requires forall k :: k in names ==> k in updates
    ensures var r := InPlace(lines, updates) + Entries(names, updates);
            InPlace(r, updates) == r
  {
    var r := InPlace(lines, updates) + Entries(names, updates);
    forall i | 0 <= i < |r| ensures Target(r, updates, i) == r[i] {
      if i < |lines| {
        TargetTwice(lines, updates, r, i);
      }
    }
  }

  lemma TargetTwice(lines: seq<EnvLine>, updates: map<string, string>, r: seq<EnvLine>, i: nat)
    requires |lines| <= |r| && i < |lines| && forall j :: 0 <= j < |lines| ==> r[j] == Target(lines, updates, j)
    ensures Target(r, updates, i) == r[i]
  {
    if IsFirst(r, i) {
      forall j | 0 <= j < i ensures !HasKey(lines[j], lines[i].key) {
        assert !HasKey(r[j], r[i].key);
      }
    }
  }

  // ---- reading back what was written ----

  /** A line that survives rendering and parsing. */
  predicate Stable(line: EnvLine)
  {
    match line
    case Entry(key, value) => Trimmed(key) && Trimmed(value) && '=' !in key && '\n' !in key && '\n' !in value
    case Other(raw) => '=' !in raw && '\n' !in raw && StripReturn(raw) == raw
  }

  lemma StableLine(line: EnvLine)
    requires OneLine(line)
    ensures ParseLine(StripReturn(RenderLine(line))) == line <==> Stable(line)
  {
    match line
    case Other(raw) =>
    case Entry(key, value) =>
      var text := RenderLine(line);
      assert forall c :: c in key || c in value ==> c in text;
      if '=' !in key && Trimmed(value) {
        assert StripReturn(text) == text by { assert value != "" ==> text[|text| - 1] == value[|value| - 1]; }
        SplitOnceAt(key, '=', value);
      }
  }

  lemma FirstLine(first: string, rest: string)
    requires '\n' !in first
    ensures Lines(first + ['\n'] + rest) == [StripReturn(first)] + Lines(rest)
  {
    SplitOnceAt(first, '\n', rest);
  }

  /** A line feed ends a line, with or without a carriage return before it. */
  lemma EitherLineEnding(line: string, rest: string)
    requires '\n' !in line && StripReturn(line) == line
    ensures Lines(line + ['\n'] + rest) == [line] + Lines(rest)
    ensures Lines(line + ['\r'] + ['\n'] + rest) == [line] + Lines(rest)
  {
    FirstLine(line, rest);
    FirstLine(line + ['\r'], rest);
  }

  lemma {:induction false} RenderedLines(lines: seq<EnvLine>)
    requires forall i :: 0 <= i < |lines| ==> OneLine(lines[i])
    ensures |Lines(Render(lines))| == |lines|
    ensures forall i :: 0 <= i < |lines| ==> Lines(Render(lines))[i] == StripReturn(RenderLine(lines[i]))
  {
    if lines != [] {
      var rest := lines[1..];
      assert OneLine(lines[0]);
      RenderedLines(rest);
      FirstLine(RenderLine(lines[0]), Render(rest));
    }
  }

  lemma {:induction false} LinesAtLeast(text: string)
    ensures |Lines(text)| >= Count(text, '\n')
    decreases |text|
  {
    match SplitOnce(text, '\n')
    case None => CountZero(text, '\n');
    case Some((first, rest)) =>
      LinesAtLeast(rest);
      CountConcat(first + ['\n'], rest, '\n');
      CountConcat(first, ['\n'], '\n');
      CountZero(first, '\n');
      assert ['\n'][1..] == "";
  }

  /** Every line contributes its line feed and those inside it. */
  lemma {:induction false} RenderCount(lines: seq<EnvLine>)
    ensures Count(Render(lines), '\n') >= |lines|
    ensures Count(Render(lines), '\n') == |lines| ==> forall i :: 0 <= i < |lines| ==> OneLine(lines[i])
  {
    if lines != [] {
      var first := RenderLine(lines[0]);
      RenderCount(lines[1..]);
      CountConcat(first + ['\n'], Render(lines[1..]), '\n');
      CountConcat(first, ['\n'], '\n');
      CountZero(first, '\n');
      assert ['\n'][1..] == "";
      forall i | 0 <= i < |lines| && Count(Render(lines), '\n') == |lines| ensures OneLine(lines[i]) {
        assert i > 0 ==> lines[i] == lines[1..][i - 1];
      }
    }
  }

  predicate AllStable(lines: seq<EnvLine>)
  {
    forall i :: 0 <= i < |lines| ==> Stable(lines[i])
  }

  predicate OneLine(line: EnvLine)
  {
    '\n' !in RenderLine(line)
  }

  /** Parsing gives back the rendered lines exactly when each of them is stable. */
  lemma {:induction false} ParseRenderIff(lines: seq<EnvLine>, text: string)
    requires text == Render(lines)
    ensures Parse(text) == lines ==> AllStable(lines)
    ensures AllStable(lines) ==> Parse(text) == lines
  {
    if i :| 0 <= i < |lines| && !OneLine(lines[i]) {
      BrokenLine(lines, i);
    } else {
      WholeLines(lines, text);
    }
  }

  lemma {:induction false} WholeLines(lines: seq<EnvLine>, text: string)
    requires text == Render(lines) && forall i :: 0 <= i < |lines| ==> OneLine(lines[i])
    ensures Parse(text) == lines <==> AllStable(lines)
  {
    RenderedLines(lines);
    forall i | 0 <= i < |lines| ensures Parse(text)[i] == lines[i] <==> Stable(lines[i]) {
      StableLine(lines[i]);
    }
  }

  lemma BrokenLine(lines: seq<EnvLine>, i: nat)
    requires i < |lines| && !OneLine(lines[i])
    ensures |Parse(Render(lines))| > |lines| && !Stable(lines[i])
  {
    LinesAtLeast(Render(lines));
    RenderCount(lines);
  }

  lemma {:induction false} LinesClean(text: string, i: nat)
    requires i < |Lines(text)|
    ensures '\n' !in Lines(text)[i] && forall c :: c in Lines(text)[i] ==> c in text
    decreases |text|
  {
    match SplitOnce(text, '\n')
    case None =>
    case Some((first, rest)) =>
      if i > 0 {
        LinesClean(rest, i - 1);
      }
  }

  /** Every line without an equals sign ends in no carriage return of its own. */
  ghost predicate CleanLines(content: string)
  {
    forall i :: 0 <= i < |Lines(content)| ==> CleanLine(Lines(content)[i])
  }

  predicate CleanLine(line: string)
  {
    '=' in line || StripReturn(line) == line
  }

  lemma ParsedAt(content: string, i: nat)
    requires i < |Lines(content)|
    ensures Stable(Parse(content)[i]) <==> CleanLine(Lines(content)[i])
    ensures Parse(content)[i].Entry? ==> Stable(Parse(content)[i])
  {
    LinesClean(content, i);
    ParsedLine(Lines(content)[i]);
  }

  lemma ParsedLine(line: string)
    requires '\n' !in line
    ensures Stable(ParseLine(line)) <==> CleanLine(line)
    ensures ParseLine(line).Entry? <==> '=' in line
  {}

  ghost predicate EntriesAreStable(lines: seq<EnvLine>)
  {
    forall i :: 0 <= i < |lines| && lines[i].Entry? ==> Stable(lines[i])
  }

  ghost predicate StableUpdates(wanted: map<string, string>)
  {
    forall k :: k in wanted ==> Stable(Entry(k, wanted[k]))
  }

  lemma WrittenStable(lines: seq<EnvLine>, wanted: map<string, string>)
    requires AllStable(lines) && StableUpdates(wanted)
    ensures AllStable(Written(lines, wanted))
  {
    EntriesStable(Missing(lines, wanted), wanted);
    JoinStable(InPlace(lines, wanted), Entries(Missing(lines, wanted), wanted));
  }

  lemma EntriesStable(names: seq<string>, wanted: map<string, string>)
    requires StableUpdates(wanted) && forall k :: k in names ==> k in wanted
    ensures AllStable(Entries(names, wanted))
  {
    forall i | 0 <= i < |names| ensures Stable(Entries(names, wanted)[i]) {
      assert names[i] in names;
    }
  }

  lemma JoinStable(a: seq<EnvLine>, b: seq<EnvLine>)
    requires AllStable(a) && AllStable(b)
    ensures AllStable(a + b)
  {}

  /** What is written is stable only if the kept lines and the updates are. */
  lemma WrittenStableOnly(lines: seq<EnvLine>, wanted: map<string, string>)
    requires EntriesAreStable(lines) && AllStable(Written(lines, wanted))
    ensures AllStable(lines) && StableUpdates(wanted)
  {
    var r := Written(lines, wanted);
    forall i | 0 <= i < |lines| ensures Stable(lines[i]) {
      WrittenKeepsLines(lines, wanted, i);
    }
    forall k | k in wanted ensures Stable(Entry(k, wanted[k])) {
      WrittenReads(lines, wanted, k);
      var i := LookupFinds(r, k);
      LookupFirst(r, i, k);
    }
  }

  lemma {:induction false} ReadsBack(lines: seq<EnvLine>, wanted: map<string, string>)
    requires AllStable(Written(lines, wanted))
    ensures Written(Parse(Render(Written(lines, wanted))), wanted) == Written(lines, wanted)
  {
    ParseRenderIff(Written(lines, wanted), Render(Written(lines, wanted)));
    WrittenTwice(lines, wanted);
  }

  /**
   The rewritten file parses to exactly the intended lines if and only if every update is trimmed and no
   other line keeps a carriage return; a second rewrite with the same updates then leaves it alone.
   */
  lemma RewriteReadsBackIff(content: string, updates: seq<(string, string)>)
    ensures Parse(Rewritten(content, updates)) == Written(Parse(content), Collect(updates)) ==>
              CleanLines(content) && StableUpdates(Collect(updates))
    ensures CleanLines(content) && StableUpdates(Collect(updates)) ==>
              Parse(Rewritten(content, updates)) == Written(Parse(content), Collect(updates))
    ensures CleanLines(content) && StableUpdates(Collect(updates)) ==>
              Rewritten(Rewritten(content, updates), updates) == Rewritten(content, updates)
  {
    var lines, wanted := Parse(content), Collect(updates);
    forall i | 0 <= i < |lines|
      ensures Stable(lines[i]) <==> CleanLine(Lines(content)[i])
      ensures lines[i].Entry? ==> Stable(lines[i])
    {
      ParsedAt(content, i);
    }
    ParseRenderIff(Written(lines, wanted), Render(Written(lines, wanted)));
    if AllStable(lines) && StableUpdates(wanted) {
      WrittenStable(lines, wanted);
      ReadsBack(lines, wanted);
    }
    if AllStable(Written(lines, wanted)) {
      WrittenStableOnly(lines, wanted);
    }
  }
}
