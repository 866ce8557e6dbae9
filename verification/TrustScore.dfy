/** The trust score of a published version (cli/src/command/upgrade.rs), in saturating 32-bit arithmetic. */
module TrustScore {
  import opened Bytes
  import opened Options
  import opened Totals

  const MAX_U32: nat := 0xFFFF_FFFF

  type u32 = x: int | 0 <= x <= MAX_U32

  type u16 = x: int | 0 <= x < 65536

  /** The registry's answer about an attester. */
  datatype Auditor = LookupFailed | Unknown | Known(weight: u16, active: bool)

  datatype Attestation = Attestation(revoked: bool, expiresAt: u64, severity: byte, auditor: Auditor)

  datatype Report = Report(total: nat, valid: nat, weightedSum: u32, severityPenalty: u32, score: u32, penalties: seq<u32>)

  datatype ScoreError = RegistryUnavailable

  function SeverityPenalty(severity: byte): (p: u32)
    ensures p <= 100
  {
    match severity
    case 0 => 0
    case 1 => 2
    case 2 => 10
    case 3 => 25
    case 4 => 50
    case _ => 100
  }

  predicate Expired(a: Attestation, now: u64)
  {
    a.expiresAt != 0 && a.expiresAt <= now
  }

  /** The attestation is in force and comes from an active auditor with weight. */
  predicate Counts(a: Attestation, now: u64)
  {
    !a.revoked && !Expired(a, now) && a.auditor.Known? && a.auditor.active && a.auditor.weight > 0
  }

  function Weight(now: u64): Attestation -> nat
  {
    (a: Attestation) => if Counts(a, now) then a.auditor.weight else 0
  }

  function RowPenalty(a: Attestation, now: u64): u32
  {
    if Counts(a, now) then SeverityPenalty(a.severity) else 0
  }

  function Penalty(now: u64): Attestation -> nat
  {
    (a: Attestation) => RowPenalty(a, now)
  }

  function Counted(now: u64): Attestation -> nat
  {
    (a: Attestation) => if Counts(a, now) then 1 else 0
  }

  function Saturate(n: nat): u32
  {
    if n <= MAX_U32 then n else MAX_U32
  }

  function Clamp(n: int): u32
  {
    if n < 0 then 0 else if n > 100 then 100 else n
  }

  /** The final expression: saturating product, division, saturating difference, cap. */
  function RawScore(weightedSum: u32, penalty: u32): u32
  {
    Clamp(Saturate(weightedSum * 100) / 1000 - penalty)
  }

  function Score(rows: seq<Attestation>, now: u64): u32
  {
    RawScore(Saturate(Total(rows, Weight(now))), Saturate(Total(rows, Penalty(now))))
  }

  method ComputeTrustScore(rows: seq<Attestation>, now: u64) returns (r: Result<Report, ScoreError>)
    ensures r.Err? <==> exists a :: a in rows && a.auditor.LookupFailed?
    ensures r.Ok? ==>
              && r.value.total == |rows| && r.value.valid == Total(rows, Counted(now))
              && r.value.weightedSum == Saturate(Total(rows, Weight(now)))
              && r.value.severityPenalty == Saturate(Total(rows, Penalty(now)))
              && r.value.score == Score(rows, now)
              && |r.value.penalties| == |rows|
              && forall i :: 0 <= i < |rows| ==> r.value.penalties[i] == RowPenalty(rows[i], now)
  {
    var weightedSum: u32, penaltyTotal: u32, valid, penalties: seq<u32> := 0, 0, 0, [];
    for i := 0 to |rows|
      invariant forall j :: 0 <= j < i ==> !rows[j].auditor.LookupFailed?
      invariant valid == Total(rows[..i], Counted(now))
      invariant weightedSum == Saturate(Total(rows[..i], Weight(now)))
      invariant penaltyTotal == Saturate(Total(rows[..i], Penalty(now)))
      invariant |penalties| == i && forall j :: 0 <= j < i ==> penalties[j] == RowPenalty(rows[j], now)
    {
      var row := rows[i];
      TotalsStep(rows, i, now);
      if row.auditor.LookupFailed? {
        return Err(RegistryUnavailable);
      }
      if Counts(row, now) {
        weightedSum := Saturate(weightedSum + row.auditor.weight);
        penaltyTotal := Saturate(penaltyTotal + SeverityPenalty(row.severity));
        valid := valid + 1;
      }
      penalties := penalties + [RowPenalty(row, now)];
    }
    assert rows[..|rows|] == rows;
    return Ok(Report(|rows|, valid, weightedSum, penaltyTotal, RawScore(weightedSum, penaltyTotal), penalties));
  }

  lemma TotalsStep(rows: seq<Attestation>, i: nat, now: u64)
    requires i < |rows|
    ensures Total(rows[..i + 1], Weight(now)) ==
            Total(rows[..i], Weight(now)) + if Counts(rows[i], now) then rows[i].auditor.weight else 0
    ensures Total(rows[..i + 1], Penalty(now)) == Total(rows[..i], Penalty(now)) + RowPenalty(rows[i], now)
    ensures Total(rows[..i + 1], Counted(now)) ==
            Total(rows[..i], Counted(now)) + if Counts(rows[i], now) then 1 else 0
  {
    TotalPush(rows, i, Weight(now));
    TotalPush(rows, i, Penalty(now));
    TotalPush(rows, i, Counted(now));
  }

  // ---- order and rows that do not count ----

  /** The score does not depend on the order of the attestations. */
  lemma ScoreIgnoresOrder(rows: seq<Attestation>, rows': seq<Attestation>, now: u64)
    requires multiset(rows) == multiset(rows')
    ensures Score(rows, now) == Score(rows', now)
  {
    TotalOfMultiset(rows, rows', Weight(now));
    TotalOfMultiset(rows, rows', Penalty(now));
  }

  /** Not revoked, not past its expiry if it has one, and by an active auditor with weight. */
  ghost predicate InForce(a: Attestation, now: u64)
  {
    a.revoked == false && (a.expiresAt == 0 || now < a.expiresAt) && exists w: u16 :: w > 0 && a.auditor == Known(w, true)
  }

  lemma CountsIff(a: Attestation, now: u64)
    ensures Counts(a, now) <==> InForce(a, now)
  {
    if Counts(a, now) {
      assert a.auditor == Known(a.auditor.weight, true);
    }
  }

  /** Deleting a row that is not in force leaves the score alone. */
  lemma ScoreIgnoresUncounted(rows: seq<Attestation>, i: nat, now: u64)
    requires i < |rows| && !InForce(rows[i], now)
    ensures Score(rows[..i] + rows[i + 1..], now) == Score(rows, now)
  {
    CountsIff(rows[i], now);
    TotalRemove(rows, i, Weight(now));
    TotalRemove(rows, i, Penalty(now));
  }

  // ---- the documented formula ----

  lemma ClampMeans(n: int)
    ensures 0 <= n <= 100 ==> Clamp(n) == n
    ensures n <= 0 ==> Clamp(n) == 0
    ensures n >= 100 ==> Clamp(n) == 100
  {}

  /** Up to this total weight the product with 100 does not saturate. */
  const UNSATURATED: nat := 42_949_672

  /** The largest total weight for which the code meets its documented formula for every penalty. */
  const EXACT_LIMIT: nat := 42_949_679

  lemma FormulaHolds(rows: seq<Attestation>, now: u64)
    requires Total(rows, Weight(now)) <= EXACT_LIMIT
    ensures Score(rows, now) == Clamp(Total(rows, Weight(now)) / 10 - Total(rows, Penalty(now)))
  {
    ProductExact(Total(rows, Weight(now)));
  }

  lemma ProductExact(w: nat)
    ensures w <= EXACT_LIMIT ==> Saturate(Saturate(w) * 100) / 1000 == w / 10
    ensures w > EXACT_LIMIT ==> Saturate(Saturate(w) * 100) / 1000 == 4_294_967 < w / 10
  {
    if w <= UNSATURATED {
      assert w * 100 == (w / 10) * 1000 + (w % 10) * 100;
    }
  }

  /** The documented formula holds for every penalty exactly up to that weight. */
  lemma FormulaHoldsIff(w: nat)
    ensures (forall p: nat :: RawScore(Saturate(w), Saturate(p)) == Clamp(w / 10 - p)) <==> w <= EXACT_LIMIT
  {
    ProductExact(w);
    if w > EXACT_LIMIT {
      var p := 4_294_967;
      assert RawScore(Saturate(w), Saturate(p)) == 0 && Clamp(w / 10 - p) > 0;
    }
  }

  // ---- critical findings ----

  /** One attestation in force: a tenth of its weight, less the penalty of the finding. */
  lemma SingleAuditor(a: Attestation, now: u64)
    requires InForce(a, now)
    ensures Score([a], now) ==
            Clamp(a.auditor.weight / 10 -
                  match a.severity case 0 => 0 case 1 => 2 case 2 => 10 case 3 => 25 case 4 => 50 case _ => 100)
  {
    CountsIff(a, now);
    assert Total([a], Weight(now)) == a.auditor.weight && Total([a], Penalty(now)) == SeverityPenalty(a.severity);
    ProductExact(a.auditor.weight);
  }

  /** One auditor of the maximum weight: full score without findings, nothing left after a critical one. */
  lemma MaxWeightAuditor(a: Attestation, now: u64)
    requires InForce(a, now) && a.auditor.weight == 1000
    ensures Score([a], now) == 100 <==> a.severity == 0
    ensures Score([a], now) == 0 <==> a.severity >= 5
  {
    SingleAuditor(a, now);
  }

  lemma CriticalNeverRaises(rows: seq<Attestation>, a: Attestation, now: u64)
    requires InForce(a, now) && a.severity >= 5 && a.auditor.weight <= 1000
    ensures Score(rows + [a], now) <= Score(rows, now)
  {
    CountsIff(a, now);
    TotalConcat(rows, [a], Weight(now));
    TotalConcat(rows, [a], Penalty(now));
    ProductGrowth(Total(rows, Weight(now)), a.auditor.weight);
  }

  lemma ProductGrowth(w: nat, d: nat)
    requires d <= 1000
    ensures Saturate(Saturate(w + d) * 100) / 1000 <= Saturate(Saturate(w) * 100) / 1000 + 100
  {
    ProductExact(w);
    ProductExact(w + d);
  }

  /** One thousand is the exact limit: a heavier critical row raises the score of some list. */
  lemma CriticalNeverRaisesIff(a: Attestation, now: u64)
    requires InForce(a, now) && a.severity >= 5
    ensures (forall rows :: Score(rows + [a], now) <= Score(rows, now)) <==> a.auditor.weight <= 1000
  {
    if a.auditor.weight <= 1000 {
      forall rows ensures Score(rows + [a], now) <= Score(rows, now) {
        CriticalNeverRaises(rows, a, now);
      }
    } else {
      CountsIff(a, now);
      var clean := Attestation(false, 0, 0, Known(9, true));
      var rows := [clean];
      TotalConcat(rows, [a], Weight(now));
      TotalConcat(rows, [a], Penalty(now));
      assert Total(rows, Weight(now)) == 9 && Total(rows + [a], Weight(now)) == 9 + a.auditor.weight;
      assert Total(rows, Penalty(now)) == 0 && Total(rows + [a], Penalty(now)) == 100;
      ProductExact(9 + a.auditor.weight);
      ProductExact(9);
      assert Score(rows + [a], now) > Score(rows, now);
    }
  }
}
