/** What one payment costs the ledger (crates/maxplayer-core/src/authorize_pay.rs): its outlay, fees included. */
module Payments {
  import opened Basics
  import opened ByteLines
  import opened Ledger
  import opened Budget

  /** What may leave the wallet: the amount and the input fee of a direct send, or the planned cost of a hop. */
  function Outlay(hop: Option<Hop>, amount: u64, inputFee: u64): (sats: nat) {
    if hop.Some? then hop.value.plannedCost else amount + inputFee
  }

  /** The section that authorizes one payment attempt. */
  function Paid(c: Codec, base: Folded, cap: u64, bytes: Bytes, cache: Folded, attempt: string, hop: Option<Hop>,
                amount: u64, inputFee: u64, now: u64, io: Io): (o: Outcome) {
    Reserved(c, base, cap, bytes, cache, Charge(CapCharge(hop, amount, inputFee), Some(attempt), now), io)
  }

  /** The ledger can be read and does not count the attempt. */
  predicate NewAttempt(c: Codec, base: Folded, bytes: Bytes, attempt: string) {
    var fold := FoldBytes(c, base, bytes);
    fold.Some? && attempt !in fold.value.counted
  }

  /**
   * A new attempt is refused by the cap if and only if its whole outlay exceeds it, and then nothing is written. (A cap
   * of 2^64 - 1 refuses nothing.)
   */
  lemma CapRefusesExactly(c: Codec, base: Folded, cap: u64, bytes: Bytes, cache: Folded, attempt: string,
      hop: Option<Hop>, amount: u64, inputFee: u64, now: u64, io: Io)
    requires io.ready && NewAttempt(c, base, bytes, attempt)
    ensures var o := Paid(c, base, cap, bytes, cache, attempt, hop, amount, inputFee, now, io);
            var outlay := Outlay(hop, amount, inputFee);
            && (o.result.Err? && o.result.error.PerJob? <==> outlay > cap && cap < U64_MAX)
            && (outlay > cap && cap < U64_MAX ==>
                  o.result == Err(PerJob(Min(outlay, U64_MAX), cap)) && o.bytes == bytes)
  {
  }

  /**
   * An authorized new attempt raises what every later fold counts by exactly its outlay: the amount and the input fee
   * of a direct payment, the planned cost of a hop.
   */
  lemma OutlayIsCounted(c: Codec, base: Folded, cap: u64, bytes: Bytes, cache: Folded, attempt: string,
      hop: Option<Hop>, amount: u64, inputFee: u64, now: u64, io: Io)
    requires c.Lawful() && NewAttempt(c, base, bytes, attempt) && Terminated(c, bytes)
    requires FoldBytes(c, base, bytes).value.spent + Outlay(hop, amount, inputFee) <= U64_MAX
    requires Paid(c, base, cap, bytes, cache, attempt, hop, amount, inputFee, now, io).result.Ok?
    ensures var o := Paid(c, base, cap, bytes, cache, attempt, hop, amount, inputFee, now, io);
            var before, after := FoldBytes(c, base, bytes).value, FoldBytes(c, base, o.bytes);
            && after == Some(o.cache) && after.value.spent == before.spent + Outlay(hop, amount, inputFee)
            && after.value.counted == before.counted + {attempt}
  {
    var r := Charge(CapCharge(hop, amount, inputFee), Some(attempt), now);
    var o := Paid(c, base, cap, bytes, cache, attempt, hop, amount, inputFee, now, io);
    assert o == Reserved(c, base, cap, bytes, cache, r, io);
    AuthorizedWrite(c, base, cap, bytes, cache, r, io);
    assert o.cache == Apply(FoldBytes(c, base, bytes).value, r);
    ChargeAdds(FoldBytes(c, base, bytes).value, hop, amount, inputFee, attempt, now);
  }

  lemma AuthorizedBy(c: Codec, base: Folded, cap: u64, bytes: Bytes, cache: Folded, r: Record, io: Io)
    requires r.attempt.Some? && NewAttempt(c, base, bytes, r.attempt.value)
    requires Reserved(c, base, cap, bytes, cache, r, io).result.Ok?
    ensures io.ready && r.amount <= cap && WritesAll(c, r, io)
  {
  }

  lemma AuthorizedWrite(c: Codec, base: Folded, cap: u64, bytes: Bytes, cache: Folded, r: Record, io: Io)
    requires c.Lawful() && r.attempt.Some? && NewAttempt(c, base, bytes, r.attempt.value) && Terminated(c, bytes)
    requires Reserved(c, base, cap, bytes, cache, r, io).result.Ok?
    ensures var o := Reserved(c, base, cap, bytes, cache, r, io);
            && o.cache == Apply(FoldBytes(c, base, bytes).value, r) && FoldBytes(c, base, o.bytes) == Some(o.cache)
            && Terminated(c, o.bytes) && io.ready
  {
    AuthorizedBy(c, base, cap, bytes, cache, r, io);
    CleanWrite(c, base, cap, bytes, cache, r, io);
  }

  lemma ChargeAdds(f: Folded, hop: Option<Hop>, amount: u64, inputFee: u64, attempt: string, now: u64)
    requires f.spent + Outlay(hop, amount, inputFee) <= U64_MAX && attempt !in f.counted
    ensures Apply(f, Charge(CapCharge(hop, amount, inputFee), Some(attempt), now))
         == Folded(f.spent + Outlay(hop, amount, inputFee), f.counted + {attempt})
  {
  }

  /** On a ledger that ends a line, a write that succeeds authorizes exactly the new attempts within the cap. */
  lemma WithinCapIsAuthorized(c: Codec, base: Folded, cap: u64, bytes: Bytes, cache: Folded, attempt: string,
      hop: Option<Hop>, amount: u64, inputFee: u64, now: u64, io: Io)
    requires io.ready && NewAttempt(c, base, bytes, attempt)
    requires WritesAll(c, Charge(CapCharge(hop, amount, inputFee), Some(attempt), now), io)
    ensures Paid(c, base, cap, bytes, cache, attempt, hop, amount, inputFee, now, io).result.Ok?
            <==> Outlay(hop, amount, inputFee) <= cap || cap == U64_MAX
  {
  }

  lemma CreditCounts(c: Codec, base: Folded, cap: u64, bytes: Bytes, cache: Folded, id: string, sats: u64, now: u64,
      io: Io)
    requires c.Lawful() && io.ready && NewAttempt(c, base, bytes, id) && Terminated(c, bytes)
    requires WritesAll(c, Credit(id, sats, now), io) && sats <= FoldBytes(c, base, bytes).value.spent
    ensures var after := FoldBytes(c, base, Credited(c, base, cap, bytes, cache, id, sats, now, io).bytes);
            after.Some? && after.value.spent == FoldBytes(c, base, bytes).value.spent - sats
  {
    if sats != 0 {
      CleanWrite(c, base, cap, bytes, cache, Credit(id, sats, now), io);
    }
  }

  /**
   * A cross-mint payment whose hop settled within its plan, once its unused reserve is credited, has raised the total
   * by exactly what it really spent: the delivered sats, the source mint's input fee and the Lightning fee paid.
   */
  lemma SettledHopCostsItsOutlay(c: Codec, base: Folded, cap: u64, bytes: Bytes, cache: Folded, attempt: string,
      hop: Hop, amount: u64, inputFee: u64, actualFee: u64, now: u64, io: Io)
    requires c.Lawful() && NewAttempt(c, base, bytes, attempt) && Terminated(c, bytes)
    requires NewAttempt(c, base, bytes, ReconcileId(attempt))
    requires FoldBytes(c, base, bytes).value.spent + hop.plannedCost <= U64_MAX
    requires hop.delivered + hop.inputFee + actualFee <= hop.plannedCost
    requires Paid(c, base, cap, bytes, cache, attempt, Some(hop), amount, inputFee, now, io).result.Ok?
    requires WritesAll(c, Credit(ReconcileId(attempt), UnusedReserve(hop, Some(actualFee)), now), io)
    ensures var paid := Paid(c, base, cap, bytes, cache, attempt, Some(hop), amount, inputFee, now, io);
            var id, sats := ReconcileId(attempt), UnusedReserve(hop, Some(actualFee));
            var after := FoldBytes(c, base, Credited(c, base, cap, paid.bytes, paid.cache, id, sats, now, io).bytes);
            && after.Some?
            && after.value.spent
               == FoldBytes(c, base, bytes).value.spent + hop.delivered + hop.inputFee + actualFee
  {
    var r := Charge(CapCharge(Some(hop), amount, inputFee), Some(attempt), now);
    var paid := Paid(c, base, cap, bytes, cache, attempt, Some(hop), amount, inputFee, now, io);
    AuthorizedWrite(c, base, cap, bytes, cache, r, io);
    OutlayIsCounted(c, base, cap, bytes, cache, attempt, Some(hop), amount, inputFee, now, io);
    assert |ReconcileId(attempt)| > |attempt|;
    CreditFitsCharge(hop, amount, inputFee, actualFee);
    CreditCounts(c, base, cap, paid.bytes, paid.cache, ReconcileId(attempt), UnusedReserve(hop, Some(actualFee)), now,
        io);
  }
}
