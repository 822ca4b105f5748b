/** The spend ledger's records and their fold (crates/maxplayer-core/src/budget.rs). */
module Ledger {
  import opened Basics

  /** A spend (`credit == 0`) or a reconciliation credit (`amount == 0`), keyed when it carries an id. */
  datatype Record = Record(amount: u64, credit: u64, attempt: Option<string>, recordedAt: u64)

  datatype Folded = Folded(spent: u64, counted: set<string>)

  const RECONCILE_SUFFIX := ":hop-fee-reconcile"

  /** The id a credit is keyed by, namespaced away from the attempt it reconciles. */
  function ReconcileId(attempt: string): (id: string) { attempt + RECONCILE_SUFFIX }

  predicate IsAttemptId(id: string) { ':' !in id }

  lemma ReconcileIdsAreApart(a: string, b: string)
    ensures !IsAttemptId(ReconcileId(a)) && (ReconcileId(a) == ReconcileId(b) ==> a == b)
  {
    assert ReconcileId(a)[|a|] == ':';
    assert ReconcileId(a)[..|ReconcileId(a)| - |RECONCILE_SUFFIX|] == a;
    assert ReconcileId(b)[..|ReconcileId(b)| - |RECONCILE_SUFFIX|] == b;
  }

  // ---- The fold ----

  /** One record: an id already counted changes nothing. */
  function Apply(f: Folded, r: Record): (g: Folded) {
    if r.attempt.Some? && r.attempt.value in f.counted then f
    else Folded(SatSub(SatAdd(f.spent, r.amount), r.credit),
                if r.attempt.Some? then f.counted + {r.attempt.value} else f.counted)
  }

  function FoldRecords(base: Folded, records: seq<Record>): (f: Folded) {
    if records == [] then base
    else Apply(FoldRecords(base, records[..|records| - 1]), records[|records| - 1])
  }

  /**
   * A keyed charge or credit written again, anywhere after its first record, leaves the total and the ids
   * unchanged.
   */
  lemma {:induction false} ReplayChangesNothing(base: Folded, records: seq<Record>, i: nat, again: Record,
      later: seq<Record>)
    requires i < |records| && records[i].attempt.Some? && again.attempt == records[i].attempt
    ensures FoldRecords(base, records + [again] + later) == FoldRecords(base, records + later)
  {
    if later == [] {
      IdsAreCounted(base, records, i);
      assert (records + [again])[..|records|] == records;
      assert records + [again] + later == records + [again] && records + later == records;
    } else {
      var n := |later| - 1;
      ReplayChangesNothing(base, records, i, again, later[..n]);
      var a, b := records + [again] + later, records + later;
      assert a[..|a| - 1] == records + [again] + later[..n] && b[..|b| - 1] == records + later[..n];
    }
  }

  lemma {:induction false} IdsAreCounted(base: Folded, records: seq<Record>, i: nat)
    requires i < |records| && records[i].attempt.Some?
    ensures records[i].attempt.value in FoldRecords(base, records).counted
  {
    if i < |records| - 1 {
      IdsAreCounted(base, records[..|records| - 1], i);
    }
  }

  lemma {:induction false} CountedComesFrom(base: Folded, records: seq<Record>, id: string)
    requires id in FoldRecords(base, records).counted
    ensures id in base.counted || exists i :: 0 <= i < |records| && records[i].attempt == Some(id)
  {
    if records != [] {
      var n := |records| - 1;
      if records[n].attempt != Some(id) {
        CountedComesFrom(base, records[..n], id);
        if id !in base.counted {
          var i :| 0 <= i < n && records[..n][i].attempt == Some(id);
          assert records[i].attempt == Some(id);
        }
      }
    }
  }

  // ---- Exact totals ----

  /** The last record of the list is counted, not a replay. */
  predicate LastCounts(base: Folded, records: seq<Record>)
    requires records != []
  {
    var r := records[|records| - 1];
    r.attempt.None? || r.attempt.value !in FoldRecords(base, records[..|records| - 1]).counted
  }

  function Charges(base: Folded, records: seq<Record>): (n: nat) {
    if records == [] then 0
    else
      Charges(base, records[..|records| - 1])
      + (if LastCounts(base, records) then records[|records| - 1].amount else 0)
  }

  function Credits(base: Folded, records: seq<Record>): (n: nat) {
    if records == [] then 0
    else
      Credits(base, records[..|records| - 1])
      + (if LastCounts(base, records) then records[|records| - 1].credit else 0)
  }

  /** The counted charges whose reserve has not been credited back, given the ids credited so far. */
  function Uncredited(base: Folded, records: seq<Record>, credited: set<string>): (n: nat) {
    if records == [] then 0
    else
      var r := records[|records| - 1];
      Uncredited(base, records[..|records| - 1], credited)
      + (if LastCounts(base, records) && r.attempt.Some? && ReconcileId(r.attempt.value) !in credited
         then r.amount else 0)
  }

  /** `records[j]` is the counted charge of attempt `a`. */
  predicate ChargeAt(base: Folded, records: seq<Record>, j: int, a: string) {
    0 <= j < |records| && records[j].attempt == Some(a) && LastCounts(base, records[..j + 1])
  }

  /** Each credit is keyed by the reconcile id of an attempt charged before it, and is no larger than that charge. */
  ghost predicate Paired(base: Folded, records: seq<Record>) {
    forall i :: 0 <= i < |records| ==> PairedAt(base, records, i)
  }

  ghost predicate PairedAt(base: Folded, records: seq<Record>, i: int)
    requires 0 <= i < |records|
  {
    records[i].credit == 0
    || (records[i].amount == 0
        && exists a, j :: 0 <= j < i && ChargeAt(base, records, j, a) && records[i].attempt == Some(ReconcileId(a))
                          && records[i].credit <= records[j].amount)
  }

  lemma PairedPrefix(base: Folded, records: seq<Record>, n: nat)
    requires Paired(base, records) && n <= |records|
    ensures Paired(base, records[..n])
  {
    forall i | 0 <= i < n
      ensures PairedAt(base, records[..n], i)
    {
      assert PairedAt(base, records, i);
      if records[i].credit != 0 {
        var a, j :| 0 <= j < i && ChargeAt(base, records, j, a) && records[i].attempt == Some(ReconcileId(a))
                    && records[i].credit <= records[j].amount;
        assert records[..n][..j + 1] == records[..j + 1];
        assert ChargeAt(base, records[..n], j, a);
      }
    }
  }

  /** Crediting one more attempt takes its whole charge out of the uncredited sum. */
  lemma {:induction false} CreditTakesCharge(base: Folded, records: seq<Record>, credited: set<string>, a: string,
      j: nat)
    requires ChargeAt(base, records, j, a) && ReconcileId(a) !in credited
    ensures Uncredited(base, records, credited)
         >= Uncredited(base, records, credited + {ReconcileId(a)}) + records[j].amount
  {
    var n := |records| - 1;
    var front := records[..n];
    if j == n {
      assert records[..n + 1] == records;
      UncreditedShrinks(base, front, credited, credited + {ReconcileId(a)});
    } else {
      assert front[..j + 1] == records[..j + 1];
      CreditTakesCharge(base, front, credited, a, j);
    }
  }

  lemma {:induction false} UncreditedShrinks(base: Folded, records: seq<Record>, a: set<string>, b: set<string>)
    requires a <= b
    ensures Uncredited(base, records, b) <= Uncredited(base, records, a)
  {
    if records != [] {
      UncreditedShrinks(base, records[..|records| - 1], a, b);
    }
  }

  /** The saturating fold is the exact sum, and what is left covers every charge not yet credited. */
  lemma {:induction false} FoldIsExact(base: Folded, records: seq<Record>)
    requires Paired(base, records) && base.spent + Charges(base, records) <= U64_MAX
    ensures FoldRecords(base, records).spent == base.spent + Charges(base, records) - Credits(base, records)
    ensures Charges(base, records) - Credits(base, records)
            >= Uncredited(base, records, FoldRecords(base, records).counted) >= 0
  {
    if records != [] {
      var n := |records| - 1;
      var front, r := records[..n], records[n];
      PairedPrefix(base, records, n);
      FoldIsExact(base, front);
      var f := FoldRecords(base, front);
      assert PairedAt(base, records, n);
      if LastCounts(base, records) {
        if r.credit != 0 {
          var a, j :| 0 <= j < n && ChargeAt(base, records, j, a) && r.attempt == Some(ReconcileId(a))
                      && r.credit <= records[j].amount;
          assert front[..j + 1] == records[..j + 1];
          assert ChargeAt(base, front, j, a);
          CreditTakesCharge(base, front, f.counted, a, j);
        } else {
          UncreditedShrinks(base, front, f.counted, FoldRecords(base, records).counted);
        }
      }
    }
  }

  // ---- What a payment charges and credits ----

  /** A planned cross-mint hop: its cost and the parts of it that are certainly spent. */
  datatype Hop = Hop(plannedCost: u64, delivered: u64, inputFee: u64)

  function CapCharge(hop: Option<Hop>, amount: u64, estimatedInputFee: u64): (charge: u64) {
    if hop.Some? then hop.value.plannedCost else SatAdd(amount, estimatedInputFee)
  }

  /** The unused fee reserve a settled hop reports; nothing when this run did not see the fee paid. */
  function UnusedReserve(hop: Hop, actualFee: Option<u64>): (n: u64) {
    if actualFee.None? then 0
    else SatSub(SatSub(SatSub(hop.plannedCost, hop.delivered), hop.inputFee), actualFee.value)
  }

  /** What stays charged covers what the hop really cost, to the sat when its plan did. */
  lemma CreditFitsCharge(hop: Hop, amount: u64, estimatedInputFee: u64, actualFee: u64)
    ensures UnusedReserve(hop, None) == 0
    ensures UnusedReserve(hop, Some(actualFee)) <= CapCharge(Some(hop), amount, estimatedInputFee)
    ensures hop.delivered + hop.inputFee + actualFee <= hop.plannedCost ==>
              CapCharge(Some(hop), amount, estimatedInputFee) - UnusedReserve(hop, Some(actualFee))
              == hop.delivered + hop.inputFee + actualFee
  {
  }
}
