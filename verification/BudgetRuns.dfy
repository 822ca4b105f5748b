/**
 * Runs of many gates over one ledger: charges, retries, crashes, completions and credits, one locked section a
 * step.
 */
module BudgetRuns {
  import opened Basics
  import opened ByteLines
  import opened Ledger
  import opened Budget

  /**
   * `caches` holds each running process's last fold. `granted` holds the attempts whose charge returned Ok, so whose
   * effect may have run. `appended` lists the id of every append that put at least one byte into the file.
   */
  datatype World = World(bytes: Bytes, caches: map<nat, Folded>, granted: set<string>, appended: seq<string>)

  /** A crash inside a section is a write that was cut short; the process comes back with `Open`. */
  datatype Action =
    | Open(gate: nat, ready: bool)
    | Pay(gate: nat, cap: u64, key: Option<string>, amount: u64, now: u64, io: Io)
    | CreditBack(gate: nat, cap: u64, attempt: string, sats: u64, now: u64, io: Io)

  datatype Setup = Setup(c: Codec, base: Folded, initial: Bytes)

  /** The record a step may append. */
  function RecordOf(a: Action): (r: Record)
    requires !a.Open?
  {
    if a.Pay? then Charge(a.amount, a.key, a.now) else Credit(ReconcileId(a.attempt), a.sats, a.now)
  }

  /** A process acts once it has opened the ledger, and credits only an attempt whose effect it was allowed to run. */
  predicate Can(w: World, a: Action) {
    match a
    case Open(_, _) => true
    case Pay(gate, _, _, _, _, _) => gate in w.caches
    case CreditBack(gate, _, attempt, _, _, _) => gate in w.caches && attempt in w.granted
  }

  function Section(s: Setup, w: World, a: Action): (o: Outcome)
    requires !a.Open? && a.gate in w.caches
  {
    if a.Pay? then Reserved(s.c, s.base, a.cap, w.bytes, w.caches[a.gate], RecordOf(a), a.io)
    else Credited(s.c, s.base, a.cap, w.bytes, w.caches[a.gate], ReconcileId(a.attempt), a.sats, a.now, a.io)
  }

  function Next(s: Setup, w: World, a: Action): (t: World) {
    if !Can(w, a) then w
    else if a.Open? then
      var fold := FoldBytes(s.c, s.base, w.bytes);
      if a.ready && fold.Some? then w.(caches := w.caches[a.gate := fold.value]) else w
    else
      var o := Section(s, w, a);
      var id := RecordOf(a).attempt;
      World(o.bytes, w.caches[a.gate := o.cache],
            if a.Pay? && id.Some? && o.result.Ok? then w.granted + {id.value} else w.granted,
            if id.Some? && o.bytes != w.bytes then w.appended + [id.value] else w.appended)
  }

  function Run(s: Setup, actions: seq<Action>): (w: World) {
    if actions == [] then World(s.initial, map[], {}, [])
    else Next(s, Run(s, actions[..|actions| - 1]), actions[|actions| - 1])
  }

  // ---- Charges are written once and before their effects ----

  predicate Distinct(ids: seq<string>) {
    forall i, j :: 0 <= i < j < |ids| ==> ids[i] != ids[j]
  }

  predicate Inv(s: Setup, w: World) {
    && Distinct(w.appended)
    && (forall id :: id in w.appended ==> Recorded(s.c, s.base, w.bytes, id))
    && (forall id :: id in w.granted ==> Recorded(s.c, s.base, w.bytes, id))
  }

  lemma SectionStep(s: Setup, w: World, a: Action, id: string)
    requires s.c.Lawful() && Can(w, a) && !a.Open?
    ensures var o := Section(s, w, a);
            && (Recorded(s.c, s.base, w.bytes, id) ==> Recorded(s.c, s.base, o.bytes, id))
            && (RecordOf(a).attempt == Some(id) && o.bytes != w.bytes ==>
                  Recorded(s.c, s.base, o.bytes, id) && !Recorded(s.c, s.base, w.bytes, id))
            && (a.Pay? && a.key == Some(id) && o.result.Ok? ==> Recorded(s.c, s.base, o.bytes, id))
  {
    SectionKeepsRecorded(s.c, s.base, a.cap, w.bytes, w.caches[a.gate], RecordOf(a), a.io, id);
    SectionLeaves(s.c, s.base, a.cap, w.bytes, w.caches[a.gate], RecordOf(a), a.io);
  }

  lemma StepKeepsInv(s: Setup, w: World, a: Action)
    requires s.c.Lawful() && Inv(s, w)
    ensures Inv(s, Next(s, w, a))
  {
    if Can(w, a) && !a.Open? {
      var t := Next(s, w, a);
      forall id
        ensures id in w.appended || id in w.granted ==> Recorded(s.c, s.base, t.bytes, id)
        ensures id in t.appended || id in t.granted ==> Recorded(s.c, s.base, t.bytes, id)
      {
        SectionStep(s, w, a, id);
      }
      if t.appended != w.appended {
        SectionStep(s, w, a, RecordOf(a).attempt.value);
      }
    }
  }

  /**
   * In every run, from any file content: each attempt and each credit is written at most once, and every attempt whose
   * effect may have run is counted by every fold that succeeds, whatever was torn.
   */
  lemma {:induction false} LedgerIsSafe(s: Setup, actions: seq<Action>)
    requires s.c.Lawful()
    ensures Inv(s, Run(s, actions))
  {
    if actions != [] {
      LedgerIsSafe(s, actions[..|actions| - 1]);
      StepKeepsInv(s, Run(s, actions[..|actions| - 1]), actions[|actions| - 1]);
    }
  }

  /**
   * An attempt once granted is never written again, whatever amount a retry or a completion names, and it is granted
   * again whenever the ledger can be read: the cap is not asked a second time.
   */
  lemma RetryWritesNothing(s: Setup, actions: seq<Action>, a: Action)
    requires s.c.Lawful() && a.Pay? && a.key.Some? && a.key.value in Run(s, actions).granted
    ensures Next(s, Run(s, actions), a).bytes == Run(s, actions).bytes
    ensures Can(Run(s, actions), a) ==>
              (Section(s, Run(s, actions), a).result.Ok?
               <==> a.io.ready && FoldBytes(s.c, s.base, Run(s, actions).bytes).Some?)
  {
    LedgerIsSafe(s, actions);
    var w := Run(s, actions);
    if Can(w, a) {
      SectionStep(s, w, a, a.key.value);
    }
  }

  // ---- The total is exact ----

  /**
   * Each attempt's charge covers the plan its credit is taken from. A retry or a completion of an attempt that the
   * ledger counts may name any amount.
   */
  ghost predicate Fits(s: Setup, plan: string -> u64, w: World, a: Action) {
    match a
    case Open(_, _) => true
    case Pay(_, _, key, amount, _, _) =>
      key.Some? ==> IsAttemptId(key.value) && (amount >= plan(key.value) || Recorded(s.c, s.base, w.bytes, key.value))
    case CreditBack(_, _, attempt, sats, _, _) => sats <= plan(attempt) && attempt !in s.base.counted
  }

  /**
   * A cross-mint payment's credit fits the amount the attempt was first charged if and only if the settled plan's
   * unused reserve is at most that amount, as it is whenever the hop settles on a plan no dearer than the first.
   */
  lemma PaymentFitsExactly(s: Setup, plan: string -> u64, w: World, attempt: string, first: Hop, settled: Hop,
                           actualFee: Option<u64>, pay: Action, credit: Action)
    requires IsAttemptId(attempt) && attempt !in s.base.counted && plan(attempt) == first.plannedCost
    requires pay.Pay? && pay.key == Some(attempt) && credit.CreditBack? && credit.attempt == attempt
    requires exists amount, fee :: pay.amount == CapCharge(Some(first), amount, fee)
    requires credit.sats == UnusedReserve(settled, actualFee)
    ensures Fits(s, plan, w, pay)
    ensures Fits(s, plan, w, credit) <==> UnusedReserve(settled, actualFee) <= first.plannedCost
    ensures settled.plannedCost <= first.plannedCost ==> Fits(s, plan, w, credit)
  {
    if actualFee.Some? {
      CreditFitsCharge(settled, 0, 0, actualFee.value);
    }
  }

  ghost predicate FitsRun(s: Setup, plan: string -> u64, actions: seq<Action>) {
    actions == []
    || (FitsRun(s, plan, actions[..|actions| - 1])
        && Fits(s, plan, Run(s, actions[..|actions| - 1]), actions[|actions| - 1]))
  }

  ghost predicate PlannedAt(plan: string -> u64, r: Record) {
    r.attempt.Some? && IsAttemptId(r.attempt.value) ==> r.amount >= plan(r.attempt.value)
  }

  /** The readable log pairs each credit with its charge. */
  ghost predicate Accounted(s: Setup, plan: string -> u64, bytes: Bytes) {
    var records := Records(s.c, bytes);
    records.Some? ==>
      && Paired(s.base, records.value)
      && forall i :: 0 <= i < |records.value| ==> PlannedAt(plan, records.value[i])
  }

  lemma {:induction false} FirstSighting(base: Folded, records: seq<Record>, id: string) returns (j: nat)
    requires id in FoldRecords(base, records).counted && id !in base.counted
    ensures ChargeAt(base, records, j, id)
  {
    var n := |records| - 1;
    var front := records[..n];
    if id in FoldRecords(base, front).counted {
      j := FirstSighting(base, front, id);
      assert front[..j + 1] == records[..j + 1];
    } else {
      j := n;
      assert records[..n + 1] == records;
    }
  }

  lemma PairedOneMore(base: Folded, records: seq<Record>, r: Record, j: nat, a: string)
    requires Paired(base, records)
    requires r.credit == 0
             || (r.amount == 0 && ChargeAt(base, records, j, a) && r.attempt == Some(ReconcileId(a))
                 && r.credit <= records[j].amount)
    ensures Paired(base, records + [r])
  {
    var all := records + [r];
    forall i | 0 <= i < |all|
      ensures PairedAt(base, all, i)
    {
      if i < |records| {
        assert PairedAt(base, records, i);
        if records[i].credit != 0 {
          var b, k :| 0 <= k < i && ChargeAt(base, records, k, b) && records[i].attempt == Some(ReconcileId(b))
                      && records[i].credit <= records[k].amount;
          assert all[..k + 1] == records[..k + 1];
          assert ChargeAt(base, all, k, b);
        }
      } else if r.credit != 0 {
        assert all[..j + 1] == records[..j + 1];
        assert ChargeAt(base, all, j, a);
      }
    }
  }

  predicate AttemptsGranted(w: World) {
    forall id :: id in w.granted ==> IsAttemptId(id)
  }

  lemma StepKeepsAccount(s: Setup, plan: string -> u64, w: World, a: Action)
    requires s.c.Lawful() && Inv(s, w) && AttemptsGranted(w) && Accounted(s, plan, w.bytes) && Fits(s, plan, w, a)
    ensures AttemptsGranted(Next(s, w, a)) && Accounted(s, plan, Next(s, w, a).bytes)
  {
    var t := Next(s, w, a);
    if t.bytes != w.bytes && Records(s.c, t.bytes).Some? {
      var r := RecordOf(a);
      SectionLeaves(s.c, s.base, a.cap, w.bytes, w.caches[a.gate], r, a.io);
      var records := Records(s.c, w.bytes).value;
      if a.CreditBack? {
        assert Recorded(s.c, s.base, w.bytes, a.attempt);
        var j := FirstSighting(s.base, records, a.attempt);
        ReconcileIdsAreApart(a.attempt, a.attempt);
        assert PlannedAt(plan, records[j]);
        PairedOneMore(s.base, records, r, j, a.attempt);
      } else {
        PairedOneMore(s.base, records, r, 0, "");
      }
    }
  }

  lemma {:induction false} RunKeepsAccount(s: Setup, plan: string -> u64, actions: seq<Action>)
    requires s.c.Lawful() && Accounted(s, plan, s.initial) && FitsRun(s, plan, actions)
    ensures AttemptsGranted(Run(s, actions)) && Accounted(s, plan, Run(s, actions).bytes)
  {
    if actions != [] {
      var before := actions[..|actions| - 1];
      RunKeepsAccount(s, plan, before);
      LedgerIsSafe(s, before);
      StepKeepsAccount(s, plan, Run(s, before), actions[|actions| - 1]);
    }
  }

  /**
   * After every run whose credits fit their attempts' plans, a fold that succeeds gives the exact sum of the charges
   * less the credits, and never less than the charges not credited.
   */
  lemma TotalIsExact(s: Setup, plan: string -> u64, actions: seq<Action>)
    requires s.c.Lawful() && Accounted(s, plan, s.initial) && FitsRun(s, plan, actions)
    requires Records(s.c, Run(s, actions).bytes).Some?
    requires s.base.spent + Charges(s.base, Records(s.c, Run(s, actions).bytes).value) <= U64_MAX
    ensures var bytes := Run(s, actions).bytes;
            var records, f := Records(s.c, bytes).value, FoldBytes(s.c, s.base, bytes).value;
            && f.spent == s.base.spent + Charges(s.base, records) - Credits(s.base, records)
            && f.spent >= s.base.spent + Uncredited(s.base, records, f.counted)
  {
    RunKeepsAccount(s, plan, actions);
    FoldIsExact(s.base, Records(s.c, Run(s, actions).bytes).value);
  }

  // ---- A retry that raises a dearer quote ----

  /** A charge, a crash before the hop is journalled, a retry on a fresh quote, and the credit of its unused reserve. */
  datatype Retry = Retry(attempt: string, cap: u64, charged: u64, again: u64, credited: u64, now: u64, io: Io)

  function ChargeStep(r: Retry): (a: Action) { Pay(0, r.cap, Some(r.attempt), r.charged, r.now, r.io) }

  function RetryStep(r: Retry): (a: Action) { Pay(0, r.cap, Some(r.attempt), r.again, r.now, r.io) }

  function CreditStep(r: Retry): (a: Action) { CreditBack(0, r.cap, r.attempt, r.credited, r.now, r.io) }

  function RetryRun(r: Retry): (actions: seq<Action>) {
    [Open(0, true)] + [ChargeStep(r)] + [RetryStep(r)] + [CreditStep(r)]
  }

  /** Every write succeeds, on a readable ledger that ends a line and knows nothing of the attempt. */
  ghost predicate CleanRetry(s: Setup, r: Retry) {
    && s.c.Lawful() && FoldBytes(s.c, s.base, s.initial).Some? && Terminated(s.c, s.initial)
    && r.attempt !in FoldBytes(s.c, s.base, s.initial).value.counted
    && ReconcileId(r.attempt) !in FoldBytes(s.c, s.base, s.initial).value.counted
    && r.charged <= r.cap && r.credited > 0 && r.io.ready
    && WritesAll(s.c, RecordOf(ChargeStep(r)), r.io) && WritesAll(s.c, RecordOf(CreditStep(r)), r.io)
  }

  lemma RunOneMore(s: Setup, actions: seq<Action>, a: Action)
    ensures Run(s, actions + [a]) == Next(s, Run(s, actions), a)
  {
    assert (actions + [a])[..|actions|] == actions;
  }

  lemma AfterOpen(s: Setup)
    requires FoldBytes(s.c, s.base, s.initial).Some?
    ensures Run(s, [Open(0, true)])
         == World(s.initial, map[0 := FoldBytes(s.c, s.base, s.initial).value], {}, [])
  {
    assert [Open(0, true)][..0] == [];
  }

  lemma AfterCharge(s: Setup, r: Retry, w: World)
    requires CleanRetry(s, r) && w.bytes == s.initial && 0 in w.caches
    ensures var f, charge := FoldBytes(s.c, s.base, s.initial).value, RecordOf(ChargeStep(r));
            var t := Next(s, w, ChargeStep(r));
            && t.bytes == s.initial + Line(s.c, charge) && 0 in t.caches && r.attempt in t.granted
            && FoldBytes(s.c, s.base, t.bytes) == Some(Apply(f, charge)) && Terminated(s.c, t.bytes)
  {
    CleanWrite(s.c, s.base, r.cap, s.initial, w.caches[0], RecordOf(ChargeStep(r)), r.io);
  }

  lemma RetriedAndCredited(s: Setup, r: Retry, w: World)
    requires s.c.Lawful() && 0 in w.caches && r.attempt in w.granted && r.credited > 0 && r.io.ready
    requires FoldBytes(s.c, s.base, w.bytes).Some? && Terminated(s.c, w.bytes)
    requires r.attempt in FoldBytes(s.c, s.base, w.bytes).value.counted
    requires ReconcileId(r.attempt) !in FoldBytes(s.c, s.base, w.bytes).value.counted
    requires WritesAll(s.c, RecordOf(CreditStep(r)), r.io)
    ensures var t := Next(s, Next(s, w, RetryStep(r)), CreditStep(r));
            FoldBytes(s.c, s.base, t.bytes) == Some(Apply(FoldBytes(s.c, s.base, w.bytes).value,
                RecordOf(CreditStep(r))))
  {
    var again := Next(s, w, RetryStep(r));
    assert again.bytes == w.bytes && 0 in again.caches && r.attempt in again.granted;
    CleanWrite(s.c, s.base, r.cap, w.bytes, again.caches[0], RecordOf(CreditStep(r)), r.io);
  }

  /** The whole run folds to the first charge less the credit; the retry's own plan is never charged. */
  lemma RetryFolds(s: Setup, r: Retry)
    requires CleanRetry(s, r)
    ensures var f := FoldBytes(s.c, s.base, s.initial).value;
            var fold := FoldBytes(s.c, s.base, Run(s, RetryRun(r)).bytes);
            fold.Some? && fold.value.spent == SatSub(SatAdd(f.spent, r.charged), r.credited)
  {
    var a, b, c := [Open(0, true)] + [ChargeStep(r)], RetryStep(r), CreditStep(r);
    AfterOpen(s);
    AfterCharge(s, r, Run(s, [Open(0, true)]));
    RunOneMore(s, [Open(0, true)], ChargeStep(r));
    RunOneMore(s, a, b);
    RunOneMore(s, a + [b], c);
    assert |ReconcileId(r.attempt)| > |r.attempt|;
    RetriedAndCredited(s, r, Run(s, a));
  }

  /**
   * After such a run the total is exact and covers what was spent before the attempt if and only if the credit is at
   * most the amount first charged.
   */
  lemma RetryFitsExactly(s: Setup, r: Retry)
    requires CleanRetry(s, r) && FoldBytes(s.c, s.base, s.initial).value.spent + r.charged <= U64_MAX
    ensures FoldBytes(s.c, s.base, Run(s, RetryRun(r)).bytes).Some?
    ensures var before := FoldBytes(s.c, s.base, s.initial).value.spent;
            var after := FoldBytes(s.c, s.base, Run(s, RetryRun(r)).bytes).value.spent;
            before <= after == before + r.charged - r.credited <==> r.credited <= r.charged
  {
    RetryFolds(s, r);
  }

  /** A first plan of 10 sats, charged; a fresh plan of 30 after the crash, settled at a cost of 6: 24 are credited. */
  lemma DearerQuoteOvercredits(s: Setup, r: Retry)
    requires CleanRetry(s, r) && FoldBytes(s.c, s.base, s.initial).value.spent == 100
    requires r.charged == CapCharge(Some(Hop(10, 5, 1)), 5, 0) && r.again == CapCharge(Some(Hop(30, 5, 0)), 5, 0)
    requires r.credited == UnusedReserve(Hop(30, 5, 0), Some(1))
    ensures FoldBytes(s.c, s.base, Run(s, RetryRun(r)).bytes).Some?
    ensures FoldBytes(s.c, s.base, Run(s, RetryRun(r)).bytes).value.spent == 86
  {
    RetryFolds(s, r);
  }
}
