/** Human-readable durations such as `90d12h` (cli/src/command/upgrade.rs). */
module Durations {
  import opened Bytes
  import opened Options
  import opened Text

  datatype DurationError = MissingNumber(at: char) | NumberTooLarge | UnknownUnit(unit: char) | Overflow

  /** Seconds in a unit. */
  function UnitSeconds(c: char): Option<nat>
  {
    match c
    case 's' => Some(1)
    case 'm' => Some(60)
    case 'h' => Some(60 * 60)
    case 'd' => Some(24 * 60 * 60)
    case 'w' => Some(7 * 24 * 60 * 60)
    case 'y' => Some(365 * 24 * 60 * 60)
    case _ => None
  }

  /** Second, minute, hour, day, week and the year of 365 days; no other unit. */
  lemma UnitTable(c: char)
    ensures UnitSeconds('s') == Some(1) && UnitSeconds('m') == Some(60) && UnitSeconds('h') == Some(3_600)
    ensures UnitSeconds('d') == Some(86_400) && UnitSeconds('w') == Some(604_800) && UnitSeconds('y') == Some(31_536_000)
    ensures UnitSeconds(c).Some? <==> c in ['s', 'm', 'h', 'd', 'w', 'y']
  {}

  // ---- what a duration text means ----

  datatype Segment = Segment(digits: string, unit: char)

  /** Counted units, and a bare number of seconds that may end the text. */
  datatype Duration = Duration(segments: seq<Segment>, tail: string)

  predicate WellFormed(d: Duration)
  {
    && AllDigits(d.tail)
    && forall g :: g in d.segments ==> IsSegment(g)
  }

  function Render(d: Duration): string
    decreases |d.segments|
  {
    if d.segments == [] then d.tail
    else d.segments[0].digits + [d.segments[0].unit] + Render(Duration(d.segments[1..], d.tail))
  }

  predicate IsSegment(g: Segment)
  {
    g.digits != "" && AllDigits(g.digits) && UnitSeconds(g.unit).Some?
  }

  function SegmentSeconds(g: Segment): nat
    requires IsSegment(g)
  {
    DecimalValue(g.digits) * UnitSeconds(g.unit).value
  }

  function Seconds(d: Duration): nat
    requires WellFormed(d)
    decreases |d.segments|
  {
    if d.segments == [] then DecimalValue(d.tail)
    else SegmentSeconds(d.segments[0]) + Seconds(Duration(d.segments[1..], d.tail))
  }

  ghost predicate Denotes(s: string, v: nat)
  {
    exists d :: WellFormed(d) && Render(d) == s && Seconds(d) == v
  }

  // ---- a left-to-right reading without bounds ----

  /** Reads on after `total` seconds and the digits `current` of an unfinished number. */
  function Scan(rest: string, current: string, total: nat): Option<nat>
    requires AllDigits(current)
    decreases |rest|
  {
    if rest == "" then Some(total + DecimalValue(current))
    else if IsDigit(rest[0]) then Scan(rest[1..], current + [rest[0]], total)
    else if current == "" then None
    else match UnitSeconds(rest[0])
      case None => None
      case Some(mul) => Scan(rest[1..], "", total + DecimalValue(current) * mul)
  }

  lemma ValueGrows(s: string, c: char)
    requires AllDigits(s) && IsDigit(c)
    ensures AllDigits(s + [c]) && DecimalValue(s + [c]) == 10 * DecimalValue(s) + DigitValue(c)
  {
    assert (s + [c])[..|s|] == s;
  }

  lemma MulAtLeast(n: nat, mul: nat)
    requires mul >= 1
    ensures n * mul >= n
  {}

  /** What has been read so far bounds the result from below. */
  lemma {:induction false} ScanAtLeast(rest: string, current: string, total: nat)
    requires AllDigits(current)
    ensures Scan(rest, current, total).Some? ==> Scan(rest, current, total).value >= total + DecimalValue(current)
    decreases |rest|
  {
    if rest != "" {
      if IsDigit(rest[0]) {
        ValueGrows(current, rest[0]);
        ScanAtLeast(rest[1..], current + [rest[0]], total);
      } else if current != "" && UnitSeconds(rest[0]).Some? {
        var n, mul := DecimalValue(current), UnitSeconds(rest[0]).value;
        MulAtLeast(n, mul);
        ScanAtLeast(rest[1..], "", total + n * mul);
      }
    }
  }

  // ---- the reading finds exactly the meaning ----

  lemma {:induction false} ScanDigits(digits: string, rest: string, current: string, total: nat)
    requires AllDigits(digits) && AllDigits(current)
    ensures AllDigits(current + digits)
    ensures Scan(digits + rest, current, total) == Scan(rest, current + digits, total)
    decreases |digits|
  {
    if digits == "" {
      assert digits + rest == rest && current + digits == current;
    } else {
      ScanDigits(digits[1..], rest, current + [digits[0]], total);
      assert (digits + rest)[1..] == digits[1..] + rest;
      assert current + [digits[0]] + digits[1..] == current + digits;
    }
  }

  lemma {:induction false} ScanRender(d: Duration, total: nat)
    requires WellFormed(d)
    ensures Scan(Render(d), "", total) == Some(total + Seconds(d))
    decreases |d.segments|
  {
    if d.segments == [] {
      ScanTail(d.tail, total);
    } else {
      var g, rest := d.segments[0], Duration(d.segments[1..], d.tail);
      ScanRender(rest, total + SegmentSeconds(g));
      ScanSegment(g, Render(rest), total);
    }
  }

  lemma ScanTail(tail: string, total: nat)
    requires AllDigits(tail)
    ensures Scan(tail, "", total) == Some(total + DecimalValue(tail))
  {
    ScanDigits(tail, "", "", total);
    assert tail + "" == tail && "" + tail == tail;
  }

  lemma ScanSegment(g: Segment, rest: string, total: nat)
    requires IsSegment(g)
    ensures Scan(g.digits + [g.unit] + rest, "", total) == Scan(rest, "", total + SegmentSeconds(g))
  {
    var after := [g.unit] + rest;
    assert g.digits + [g.unit] + rest == g.digits + after;
    ScanDigits(g.digits, after, "", total);
    assert "" + g.digits == g.digits && after[1..] == rest;
    UnitIsNotDigit(g.unit);
  }

  lemma UnitIsNotDigit(c: char)
    requires UnitSeconds(c).Some?
    ensures !IsDigit(c)
  {}

  lemma {:induction false} ScanBuilds(rest: string, current: string, total: nat) returns (d: Duration)
    requires AllDigits(current) && Scan(rest, current, total).Some?
    ensures WellFormed(d) && Render(d) == current + rest
    ensures total + Seconds(d) == Scan(rest, current, total).value
    decreases |rest|
  {
    if rest == "" {
      d := Duration([], current);
      assert current + rest == current;
    } else if IsDigit(rest[0]) {
      d := ScanBuilds(rest[1..], current + [rest[0]], total);
      assert current + [rest[0]] + rest[1..] == current + rest;
    } else {
      var mul := UnitSeconds(rest[0]).value;
      var d' := ScanBuilds(rest[1..], "", total + DecimalValue(current) * mul);
      d := Duration([Segment(current, rest[0])] + d'.segments, d'.tail);
      assert d.segments[1..] == d'.segments;
      assert Render(d) == current + [rest[0]] + Render(d') == current + rest;
    }
  }

  /** The unbounded reading succeeds exactly on the texts with a meaning, and yields it. */
  lemma ScanIsMeaning(s: string, v: nat)
    ensures Scan(s, "", 0) == Some(v) <==> Denotes(s, v)
  {
    if Scan(s, "", 0) == Some(v) {
      ScanSound(s, v);
    }
    if d :| WellFormed(d) && Render(d) == s && Seconds(d) == v {
      ScanRender(d, 0);
    }
  }

  lemma ScanSound(s: string, v: nat)
    requires Scan(s, "", 0) == Some(v)
    ensures Denotes(s, v)
  {
    var d := ScanBuilds(s, "", 0);
    assert "" + s == s;
  }

  // ---- the parser ----

  predicate IsZeroForm(s: string)
  {
    s == "" || s == "0" || Lower(s) == "never"
  }

  /** The reading of a text, if it fits 64 bits. */
  ghost predicate ReadsAs(text: string, r: Result<u64, DurationError>)
  {
    var target := Scan(text, "", 0);
    if target.Some? && target.value < TWO_64 then r == Ok(target.value) else r.Err?
  }

  /** The loop over the characters, with checked arithmetic. */
  method ReadDuration(text: string) returns (r: Result<u64, DurationError>)
    ensures ReadsAs(text, r)
  {
    var total: u64 := 0;
    var current := "";
    var i := 0;
    while i < |text|
      invariant 0 <= i <= |text| && AllDigits(current)
      invariant Scan(text[i..], current, total) == Scan(text, "", 0)
    {
      var c := text[i];
      ScanAtLeast(text[i..], current, total);
      ScanStep(text, i, current, total);
      if IsDigit(c) {
        current := current + [c];
        i := i + 1;
        continue;
      }
      if current == "" {
        return Err(MissingNumber(c));
      }
      var n := DecimalValue(current);
      if n >= TWO_64 {
        return Err(NumberTooLarge);
      }
      if UnitSeconds(c).None? {
        return Err(UnknownUnit(c));
      }
      var product := n * UnitSeconds(c).value;
      ScanAtLeast(text[i + 1..], "", total + product);
      if total + product >= TWO_64 {
        return Err(Overflow);
      }
      total, current, i := total + product, "", i + 1;
    }
    assert text[i..] == "";
    var n := DecimalValue(current);
    if n >= TWO_64 {
      return Err(NumberTooLarge);
    }
    if total + n >= TWO_64 {
      return Err(Overflow);
    }
    return Ok(total + n);
  }

  lemma ScanStep(text: string, i: nat, current: string, total: nat)
    requires i < |text| && AllDigits(current)
    ensures Scan(text[i..], current, total) ==
            if IsDigit(text[i]) then Scan(text[i + 1..], current + [text[i]], total)
            else if current == "" || UnitSeconds(text[i]).None? then None
            else Scan(text[i + 1..], "", total + DecimalValue(current) * UnitSeconds(text[i]).value)
  {
    assert text[i..][0] == text[i] && text[i..][1..] == text[i + 1..];
  }

  /**
   The parser answers v exactly when the trimmed text is `never` and v is 0, or the text denotes v
   and v fits 64 bits: checked arithmetic refuses the unrepresentable durations and no others.
   */
  method ParseDurationToSeconds(input: string) returns (r: Result<u64, DurationError>)
    ensures forall v: u64 :: r == Ok(v) <==> (Lower(Trim(input)) == "never" && v == 0) || Denotes(Trim(input), v)
  {
    var text := Trim(input);
    if IsZeroForm(text) {
      ZeroForms(text);
      return Ok(0);
    }
    r := ReadDuration(text);
    forall v: u64 ensures Scan(text, "", 0) == Some(v) <==> Denotes(text, v) {
      ScanIsMeaning(text, v);
    }
  }

  lemma ZeroForms(s: string)
    requires IsZeroForm(s)
    ensures Lower(s) == "never" ==> forall v: nat :: !Denotes(s, v)
    ensures Lower(s) != "never" ==> forall v: nat :: Denotes(s, v) <==> v == 0
  {
    forall v: nat ensures Denotes(s, v) <==> Scan(s, "", 0) == Some(v) {
      ScanIsMeaning(s, v);
    }
    if Lower(s) == "never" {
      assert Lower(s)[0] == 'n' && !IsDigit(s[0]);
    } else if s == "0" {
      assert Scan("0", "", 0) == Scan("", "0", 0);
      assert DecimalValue("0") == 0;
    }
  }

  /** A text has at most one meaning. */
  lemma MeaningUnique(s: string, v: nat, w: nat)
    requires Denotes(s, v) && Denotes(s, w)
    ensures v == w
  {
    ScanIsMeaning(s, v);
    ScanIsMeaning(s, w);
  }
}
