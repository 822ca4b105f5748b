/** The spend gate over the shared ledger file (`BudgetGate` in crates/maxplayer-core/src/budget.rs). */
module Budget {
  import opened Basics
  import opened ByteLines
  import opened Ledger

  /**
   * One record as one JSON object on one line. `decode` reads a line with the white space around it trimmed. A printed
   * record holds no line break and reads back; an object cut short is no record, nor is an object with more text
   * after it.
   */
  datatype Codec = Codec(encode: Record -> Bytes, decode: Bytes -> Option<Record>, blank: Bytes -> bool) {
    ghost predicate Lawful() {
      forall r: Record :: LawfulFor(r)
    }

    ghost predicate LawfulFor(r: Record) {
      && LF !in encode(r) && encode(r) != [] && decode(encode(r)) == Some(r)
      && (forall k: nat :: 0 < k < |encode(r)| ==> decode(encode(r)[..k]) == None)
      && (forall u: Bytes, k: nat :: 0 < k <= |encode(r)| ==> GluedFor(u, encode(r)[..k]))
    }

    /** Text written onto the end of an unfinished line. */
    ghost predicate GluedFor(u: Bytes, text: Bytes) {
      && !blank(u + text)
      && (u == [] || blank(u) ==> decode(u + text) == decode(text))
      && (decode(u).Some? ==> decode(u + text) == None)
    }
  }

  // ---- Reading the ledger ----

  function Joined(a: Option<seq<Record>>, b: Option<seq<Record>>): (r: Option<seq<Record>>) {
    if a.None? || b.None? then None else Some(a.value + b.value)
  }

  lemma JoinedEmpty(a: Option<seq<Record>>)
    ensures Joined(Some([]), a) == a == Joined(a, Some([]))
  {
    if a.Some? {
      assert [] + a.value == a.value == a.value + [];
    }
  }

  lemma JoinedAssociative(a: Option<seq<Record>>, b: Option<seq<Record>>, d: Option<seq<Record>>)
    ensures Joined(Joined(a, b), d) == Joined(a, Joined(b, d))
  {
    if a.Some? && b.Some? && d.Some? {
      assert a.value + b.value + d.value == a.value + (b.value + d.value);
    }
  }

  function LineRecords(c: Codec, line: Bytes): (r: Option<seq<Record>>) {
    if line == [] || c.blank(line) then Some([])
    else if c.decode(line).None? then None
    else Some([c.decode(line).value])
  }

  function Rest(bytes: Bytes): (r: Bytes)
    ensures bytes != [] ==> |r| < |bytes|
  {
    var k := FirstLf(bytes);
    if k == |bytes| then [] else bytes[k + 1..]
  }

  /** The records of every line, a last line without a line break included; None when some line is malformed. */
  function Records(c: Codec, bytes: Bytes): (r: Option<seq<Record>>)
    decreases |bytes|
  {
    if bytes == [] then Some([])
    else Joined(LineRecords(c, bytes[..FirstLf(bytes)]), Records(c, Rest(bytes)))
  }

  function FoldBytes(c: Codec, base: Folded, bytes: Bytes): (r: Option<Folded>) {
    var records := Records(c, bytes);
    if records.None? then None else Some(FoldRecords(base, records.value))
  }

  lemma FoldOneMore(base: Folded, records: seq<Record>, r: Record)
    ensures FoldRecords(base, records + [r]) == Apply(FoldRecords(base, records), r)
  {
    assert (records + [r])[..|records|] == records;
  }

  /** `fold_ledger`. */
  method FoldLedger(c: Codec, base: Folded, bytes: Bytes) returns (r: Option<Folded>)
    ensures r == FoldBytes(c, base, bytes)
  {
    var folded := base;
    var rest := bytes;
    ghost var done: seq<Record> := [];
    JoinedEmpty(Records(c, bytes));
    while rest != []
      invariant folded == FoldRecords(base, done)
      invariant Records(c, bytes) == Joined(Some(done), Records(c, rest))
      decreases |rest|
    {
      var line := rest[..FirstLf(rest)];
      ghost var after := Records(c, Rest(rest));
      JoinedAssociative(Some(done), LineRecords(c, line), after);
      JoinedEmpty(Some(done));
      if line != [] && !c.blank(line) {
        var record := c.decode(line);
        if record.None? {
          return None;
        }
        FoldOneMore(base, done, record.value);
        folded := Apply(folded, record.value);
        done := done + [record.value];
      }
      rest := Rest(rest);
    }
    JoinedEmpty(Some(done));
    return Some(folded);
  }

  // ---- Appending to the ledger ----

  function Line(c: Codec, r: Record): (line: Bytes) { c.encode(r) + [LF] }

  /** The next append starts a line of its own. */
  predicate Terminated(c: Codec, bytes: Bytes) {
    var tail := bytes[CommittedEnd(bytes)..];
    tail == [] || c.blank(tail)
  }

  lemma RecordsFirst(c: Codec, line: Bytes, rest: Bytes)
    requires LF !in line
    ensures Records(c, line + [LF] + rest) == Joined(LineRecords(c, line), Records(c, rest))
  {
    var all := line + [LF] + rest;
    assert all == line + ([LF] + rest);
    FirstLfOf(line, [LF] + rest);
    assert all[..|line|] == line && all[|line| + 1..] == rest;
  }

  lemma RecordsOfLine(c: Codec, line: Bytes)
    requires LF !in line
    ensures Records(c, line) == LineRecords(c, line) == Records(c, line + [LF])
  {
    var r := LineRecords(c, line);
    assert r.Some? ==> r.value + [] == r.value;
    RecordsFirst(c, line, []);
    assert line + [LF] + [] == line + [LF];
    if line != [] {
      assert FirstLf(line) == |line|;
      assert line[..|line|] == line;
    }
  }

  /** A file is read line by line: finished lines first, then whatever follows. */
  lemma {:induction false} RecordsSplit(c: Codec, head: Bytes, tail: Bytes)
    requires head == [] || head[|head| - 1] == LF
    ensures Records(c, head + tail) == Joined(Records(c, head), Records(c, tail))
    decreases |head|
  {
    if head == [] {
      assert head + tail == tail;
      JoinedEmpty(Records(c, tail));
    } else {
      var k := FirstLf(head);
      assert head[..|head|] == head;
      var line, rest := head[..k], head[k + 1..];
      assert head == line + [LF] + rest;
      assert head + tail == line + [LF] + (rest + tail);
      assert rest == [] || rest[|rest| - 1] == LF;
      RecordsFirst(c, line, rest);
      RecordsFirst(c, line, rest + tail);
      RecordsSplit(c, rest, tail);
      JoinedAssociative(LineRecords(c, line), Records(c, rest), Records(c, tail));
    }
  }

  lemma GluedLine(c: Codec, tail: Bytes, r: Record, k: nat)
    requires c.Lawful() && 0 < k <= |c.encode(r)| && LineRecords(c, tail).Some?
    ensures LineRecords(c, tail + c.encode(r)[..k])
         == if (tail == [] || c.blank(tail)) && k == |c.encode(r)| then Some([r]) else None
  {
    assert c.LawfulFor(r);
    assert c.GluedFor(tail, c.encode(r)[..k]);
    if k == |c.encode(r)| {
      assert c.encode(r)[..k] == c.encode(r);
    }
  }

  lemma AppendedToLine(c: Codec, tail: Bytes, r: Record, k: nat)
    requires c.Lawful() && LF !in tail && 0 < k <= |Line(c, r)| && LineRecords(c, tail).Some?
    ensures Records(c, tail + Line(c, r)[..k])
         == if (tail == [] || c.blank(tail)) && k >= |c.encode(r)| then Some([r]) else None
  {
    assert c.LawfulFor(r);
    var text := Line(c, r)[..k];
    if k <= |c.encode(r)| {
      assert text == c.encode(r)[..k];
      GluedLine(c, tail, r, k);
      RecordsOfLine(c, tail + text);
    } else {
      assert c.encode(r)[..k - 1] == c.encode(r);
      GluedLine(c, tail, r, k - 1);
      RecordsOfLine(c, tail + c.encode(r));
      assert tail + text == tail + c.encode(r) + [LF];
    }
  }

  /** What a fold sees after `k` bytes of a record's line reached a readable ledger. */
  lemma AppendedBytes(c: Codec, bytes: Bytes, r: Record, k: nat)
    requires c.Lawful() && Records(c, bytes).Some? && 0 < k <= |Line(c, r)|
    ensures Records(c, bytes + Line(c, r)[..k])
         == if Terminated(c, bytes) && k >= |c.encode(r)| then Some(Records(c, bytes).value + [r]) else None
  {
    var tail := bytes[CommittedEnd(bytes)..];
    var text := Line(c, r)[..k];
    SplitAtTail(c, bytes, text);
    AppendedToLine(c, tail, r, k);
    JoinedEmpty(Records(c, bytes[..CommittedEnd(bytes)]));
  }

  lemma SplitAtTail(c: Codec, bytes: Bytes, text: Bytes)
    ensures var e := CommittedEnd(bytes);
            && Records(c, bytes) == Joined(Records(c, bytes[..e]), LineRecords(c, bytes[e..]))
            && Records(c, bytes + text) == Joined(Records(c, bytes[..e]), Records(c, bytes[e..] + text))
  {
    var e := CommittedEnd(bytes);
    Regroup(bytes, e, text);
    RecordsSplit(c, bytes[..e], bytes[e..]);
    RecordsSplit(c, bytes[..e], bytes[e..] + text);
    RecordsOfLine(c, bytes[e..]);
  }

  lemma Regroup(bytes: Bytes, e: nat, text: Bytes)
    requires e <= |bytes|
    ensures bytes == bytes[..e] + bytes[e..] && bytes + text == bytes[..e] + (bytes[e..] + text)
  {
  }

  // ---- The gate ----

  datatype Refuse = PerJob(amount: u64, cap: u64) | Persist

  /**
   * How the file system treated one locked section: whether it could be entered and the file read, and what an
   * append left.
   */
  datatype Io = Io(ready: bool, written: nat, synced: bool)

  datatype Outcome = Outcome(bytes: Bytes, cache: Folded, result: Result<(), Refuse>)

  /** `append_record`, then the cache update; a partial write leaves its bytes behind. */
  function Written(c: Codec, bytes: Bytes, f: Folded, r: Record, io: Io): (o: Outcome) {
    var line := Line(c, r);
    if io.written >= |line| && io.synced then Outcome(bytes + line, Apply(f, r), Ok(()))
    else Outcome(bytes + line[..Min(io.written, |line|)], f, Err(Persist))
  }

  /** `reserve`; a credit takes the same path, its amount of zero passing any cap. */
  function Reserved(c: Codec, base: Folded, cap: u64, bytes: Bytes, cache: Folded, r: Record, io: Io): (o: Outcome) {
    var fold := FoldBytes(c, base, bytes);
    if !io.ready || fold.None? then Outcome(bytes, cache, Err(Persist))
    else if r.attempt.Some? && r.attempt.value in fold.value.counted then Outcome(bytes, fold.value, Ok(()))
    else if r.amount > cap then Outcome(bytes, fold.value, Err(PerJob(r.amount, cap)))
    else Written(c, bytes, fold.value, r, io)
  }

  function Charge(amount: u64, attempt: Option<string>, now: u64): (r: Record) { Record(amount, 0, attempt, now) }

  function Credit(reconcileId: string, sats: u64, now: u64): (r: Record) { Record(0, sats, Some(reconcileId), now) }

  function Credited(c: Codec, base: Folded, cap: u64, bytes: Bytes, cache: Folded,
                    reconcileId: string, sats: u64, now: u64, io: Io): (o: Outcome) {
    if sats == 0 then Outcome(bytes, cache, Ok(()))
    else Reserved(c, base, cap, bytes, cache, Credit(reconcileId, sats, now), io)
  }

  class LedgerFile {
    var bytes: Bytes

    constructor (content: Bytes)
      ensures bytes == content
    {
      bytes := content;
    }

    /** `append_record`: one write of one line, of which any prefix may reach the disk. */
    method Append(c: Codec, r: Record, io: Io) returns (ok: bool)
      modifies this
      ensures bytes == old(bytes) + Line(c, r)[..Min(io.written, |Line(c, r)|)]
      ensures ok == (io.written >= |Line(c, r)| && io.synced)
    {
      var line := c.encode(r);
      line := line + [LF];
      bytes := bytes + line[..Min(io.written, |line|)];
      ok := io.written >= |line| && io.synced;
    }
  }

  class BudgetGate {
    const c: Codec
    const ledger: LedgerFile
    const base: Folded
    const perJobCap: u64
    var spent: u64
    var counted: set<string>

    /** `from_home`, once the first fold succeeded. */
    constructor (c: Codec, ledger: LedgerFile, base: Folded, perJobCap: u64, folded: Folded)
      ensures this.c == c && this.ledger == ledger && this.base == base && this.perJobCap == perJobCap
      ensures Cache() == folded
    {
      this.c, this.ledger, this.base, this.perJobCap := c, ledger, base, perJobCap;
      spent, counted := folded.spent, folded.counted;
    }

    function Cache(): (f: Folded)
      reads this
    {
      Folded(spent, counted)
    }

    method Refresh(io: Io) returns (ok: bool)
      modifies this
      ensures ok == (io.ready && FoldBytes(c, base, ledger.bytes).Some?)
      ensures Cache() == if ok then FoldBytes(c, base, ledger.bytes).value else old(Cache())
    {
      if !io.ready {
        return false;
      }
      var folded := FoldLedger(c, base, ledger.bytes);
      if folded.None? {
        return false;
      }
      spent, counted := folded.value.spent, folded.value.counted;
      return true;
    }

    method Reserve(amount: u64, attempt: Option<string>, now: u64, io: Io) returns (result: Result<(), Refuse>)
      modifies this, ledger
      ensures Outcome(ledger.bytes, Cache(), result)
           == Reserved(c, base, perJobCap, old(ledger.bytes), old(Cache()), Charge(amount, attempt, now), io)
    {
      var ok := Refresh(io);
      if !ok {
        return Err(Persist);
      }
      if attempt.Some? && attempt.value in counted {
        return Ok(());
      }
      if amount > perJobCap {
        return Err(PerJob(amount, perJobCap));
      }
      ok := ledger.Append(c, Charge(amount, attempt, now), io);
      if !ok {
        return Err(Persist);
      }
      spent := SatAdd(spent, amount);
      if attempt.Some? {
        counted := counted + {attempt.value};
      }
      var line := Line(c, Charge(amount, attempt, now));
      assert line[..|line|] == line;
      return Ok(());
    }

    method CreditReserve(reconcileId: string, sats: u64, now: u64, io: Io) returns (result: Result<(), Refuse>)
      modifies this, ledger
      ensures Outcome(ledger.bytes, Cache(), result)
           == Credited(c, base, perJobCap, old(ledger.bytes), old(Cache()), reconcileId, sats, now, io)
      ensures sats == 0 ==> result.Ok? && ledger.bytes == old(ledger.bytes) && Cache() == old(Cache())
    {
      if sats == 0 {
        return Ok(());
      }
      var ok := Refresh(io);
      if !ok {
        return Err(Persist);
      }
      if reconcileId in counted {
        return Ok(());
      }
      ok := ledger.Append(c, Credit(reconcileId, sats, now), io);
      if !ok {
        return Err(Persist);
      }
      spent := SatSub(spent, sats);
      counted := counted + {reconcileId};
      var line := Line(c, Credit(reconcileId, sats, now));
      assert line[..|line|] == line;
      return Ok(());
    }
  }

  // ---- One locked section ----

  /** Every fold either fails or counts the id. */
  predicate Recorded(c: Codec, base: Folded, bytes: Bytes, id: string) {
    var fold := FoldBytes(c, base, bytes);
    fold.None? || id in fold.value.counted
  }

  /** What a locked section leaves in the file: nothing new, one new record at the end, or a ledger no fold accepts. */
  lemma SectionLeaves(c: Codec, base: Folded, cap: u64, bytes: Bytes, cache: Folded, r: Record, io: Io)
    requires c.Lawful()
    ensures var o := Reserved(c, base, cap, bytes, cache, r, io);
            o.bytes != bytes ==>
              && Records(c, bytes).Some?
              && (r.attempt.Some? ==> r.attempt.value !in FoldBytes(c, base, bytes).value.counted)
              && (Records(c, o.bytes).None? || Records(c, o.bytes).value == Records(c, bytes).value + [r])
  {
    var o := Reserved(c, base, cap, bytes, cache, r, io);
    if o.bytes != bytes {
      var line := Line(c, r);
      var k := Min(io.written, |line|);
      assert line[..|line|] == line;
      assert o.bytes == bytes + line[..k];
      assert line[..0] == [] && bytes + [] == bytes;
      AppendedBytes(c, bytes, r, k);
    }
  }

  lemma SectionKeepsRecorded(c: Codec, base: Folded, cap: u64, bytes: Bytes, cache: Folded, r: Record, io: Io,
      id: string)
    requires c.Lawful()
    ensures var o := Reserved(c, base, cap, bytes, cache, r, io);
            && (Recorded(c, base, bytes, id) ==> Recorded(c, base, o.bytes, id))
            && (r.attempt == Some(id) && (o.bytes != bytes || o.result.Ok?) ==> Recorded(c, base, o.bytes, id))
  {
    var o := Reserved(c, base, cap, bytes, cache, r, io);
    SectionLeaves(c, base, cap, bytes, cache, r, io);
    if o.bytes != bytes {
      FoldOneMore(base, Records(c, bytes).value, r);
    } else if o.result.Ok? {
      assert |bytes + Line(c, r)| > |bytes|;
    }
  }

  /** What a fold gives after the first `k` bytes of a record's line reached a readable ledger. */
  lemma FoldAfterWrite(c: Codec, base: Folded, bytes: Bytes, r: Record, k: nat)
    requires c.Lawful() && FoldBytes(c, base, bytes).Some? && k <= |Line(c, r)|
    ensures FoldBytes(c, base, bytes + Line(c, r)[..k])
         == if k == 0 then FoldBytes(c, base, bytes)
            else if Terminated(c, bytes) && k >= |c.encode(r)| then Some(Apply(FoldBytes(c, base, bytes).value, r))
            else None
  {
    if k == 0 {
      assert Line(c, r)[..0] == [] && bytes + [] == bytes;
    } else {
      AppendedBytes(c, bytes, r, k);
      FoldOneMore(base, Records(c, bytes).value, r);
    }
  }

  /** Folding the record in changes nothing: it has no id, and the total stays. */
  predicate Unmoved(f: Folded, r: Record) {
    r.attempt.None? && SatSub(SatAdd(f.spent, r.amount), r.credit) == f.spent
  }

  predicate WritesAll(c: Codec, r: Record, io: Io) { io.written >= |Line(c, r)| && io.synced }

  /**
   * Known before the section: it cannot start and the cache agreed already, or the ledger reads and nothing is
   * written (a counted id, a refused amount, no byte), or the write starts a line of its own and either succeeds or
   * fails with the whole record on disk and that record moving nothing.
   */
  predicate WillAgree(c: Codec, base: Folded, cap: u64, bytes: Bytes, cache: Folded, r: Record, io: Io) {
    var fold := FoldBytes(c, base, bytes);
    if !io.ready then fold == Some(cache)
    else
      && fold.Some?
      && (|| (r.attempt.Some? && r.attempt.value in fold.value.counted)
          || r.amount > cap
          || io.written == 0
          || (Terminated(c, bytes)
              && (WritesAll(c, r, io) || (io.written >= |c.encode(r)| && Unmoved(fold.value, r)))))
  }

  /** After every section, whatever its outcome, the gate's cache is what a fold gives if and only if `WillAgree`. */
  lemma CacheIsExact(c: Codec, base: Folded, cap: u64, bytes: Bytes, cache: Folded, r: Record, io: Io)
    requires c.Lawful()
    ensures var o := Reserved(c, base, cap, bytes, cache, r, io);
            FoldBytes(c, base, o.bytes) == Some(o.cache) <==> WillAgree(c, base, cap, bytes, cache, r, io)
  {
    var fold := FoldBytes(c, base, bytes);
    if io.ready && fold.Some? && !(r.attempt.Some? && r.attempt.value in fold.value.counted) && r.amount <= cap {
      WriteIsExact(c, base, bytes, r, io);
    }
  }

  lemma WriteIsExact(c: Codec, base: Folded, bytes: Bytes, r: Record, io: Io)
    requires c.Lawful() && FoldBytes(c, base, bytes).Some?
    requires r.attempt.Some? ==> r.attempt.value !in FoldBytes(c, base, bytes).value.counted
    ensures var f := FoldBytes(c, base, bytes).value;
            var o := Written(c, bytes, f, r, io);
            FoldBytes(c, base, o.bytes) == Some(o.cache) <==>
              io.written == 0
              || (Terminated(c, bytes) && (WritesAll(c, r, io) || (io.written >= |c.encode(r)| && Unmoved(f, r))))
  {
    var line := Line(c, r);
    var k := Min(io.written, |line|);
    assert c.LawfulFor(r);
    assert line[..|line|] == line;
    FoldAfterWrite(c, base, bytes, r, k);
    ApplyMoves(FoldBytes(c, base, bytes).value, r);
  }

  lemma ApplyMoves(f: Folded, r: Record)
    requires r.attempt.Some? ==> r.attempt.value !in f.counted
    ensures Apply(f, r) == f <==> Unmoved(f, r)
  {
    if r.attempt.Some? {
      assert r.attempt.value in Apply(f, r).counted;
    }
  }

  /**
   * A write that fails with the whole record on disk is answered with an error and still counted by the next fold,
   * so the cache falls behind.
   */
  lemma FailedWriteIsCounted(c: Codec, base: Folded, cap: u64, bytes: Bytes, cache: Folded, r: Record, io: Io)
    requires c.Lawful() && FoldBytes(c, base, bytes).Some? && Terminated(c, bytes) && r.amount <= cap
    requires r.attempt.Some? && r.attempt.value !in FoldBytes(c, base, bytes).value.counted
    requires io.ready && io.written >= |c.encode(r)| && !WritesAll(c, r, io)
    ensures var o := Reserved(c, base, cap, bytes, cache, r, io);
            && o.result == Err(Persist) && r.attempt.value !in o.cache.counted
            && FoldBytes(c, base, o.bytes) == Some(Apply(o.cache, r)) != Some(o.cache)
  {
    var k := Min(io.written, |Line(c, r)|);
    assert c.LawfulFor(r);
    FoldAfterWrite(c, base, bytes, r, k);
    ApplyMoves(FoldBytes(c, base, bytes).value, r);
  }

  /**
   * The cache can disagree: a charge that lost only its line break is still counted, the next charge is authorized on
   * the same line, and from then on no fold succeeds and every charge is refused.
   */
  lemma LostLineBreakLocks(c: Codec, base: Folded, bytes: Bytes, a: Record, b: Record, cap: u64, cache: Folded)
    requires c.Lawful() && Records(c, bytes).Some? && Terminated(c, bytes) && a.amount <= cap && b.amount <= cap
    requires a.attempt.Some? && b.attempt.Some? && a.attempt != b.attempt
    requires a.attempt.value !in FoldBytes(c, base, bytes).value.counted
    requires b.attempt.value !in FoldBytes(c, base, bytes).value.counted
    ensures var first := Reserved(c, base, cap, bytes, cache, a, Io(true, |c.encode(a)|, false));
            var second := Reserved(c, base, cap, first.bytes, first.cache, b, Io(true, |Line(c, b)|, true));
            && first.result == Err(Persist)
            && FoldBytes(c, base, first.bytes) == Some(Apply(FoldBytes(c, base, bytes).value, a))
            && second.result == Ok(())
            && FoldBytes(c, base, second.bytes) == None
            && forall r: Record, io: Io ::
                 Reserved(c, base, cap, second.bytes, second.cache, r, io).result == Err(Persist)
  {
    LosesLineBreak(c, base, cap, bytes, cache, a);
    var first := Reserved(c, base, cap, bytes, cache, a, Io(true, |c.encode(a)|, false));
    GluedCharge(c, base, cap, first.bytes, first.cache, b);
  }

  lemma LosesLineBreak(c: Codec, base: Folded, cap: u64, bytes: Bytes, cache: Folded, a: Record)
    requires c.Lawful() && Records(c, bytes).Some? && Terminated(c, bytes) && a.amount <= cap
    requires a.attempt.Some? && a.attempt.value !in FoldBytes(c, base, bytes).value.counted
    ensures var first := Reserved(c, base, cap, bytes, cache, a, Io(true, |c.encode(a)|, false));
            && first.result == Err(Persist) && !Terminated(c, first.bytes)
            && FoldBytes(c, base, first.bytes) == Some(Apply(FoldBytes(c, base, bytes).value, a))
  {
    var k := |c.encode(a)|;
    FailedWriteIsCounted(c, base, cap, bytes, cache, a, Io(true, k, false));
    NotTerminated(c, bytes, a);
    assert Line(c, a)[..k] == c.encode(a);
  }

  lemma GluedCharge(c: Codec, base: Folded, cap: u64, bytes: Bytes, cache: Folded, b: Record)
    requires c.Lawful() && Records(c, bytes).Some? && !Terminated(c, bytes) && b.amount <= cap
    requires b.attempt.Some? && b.attempt.value !in FoldBytes(c, base, bytes).value.counted
    ensures var second := Reserved(c, base, cap, bytes, cache, b, Io(true, |Line(c, b)|, true));
            second.result == Ok(()) && FoldBytes(c, base, second.bytes) == None
  {
    FullWrite(c, base, cap, bytes, cache, b);
    assert Line(c, b)[..|Line(c, b)|] == Line(c, b);
    FoldAfterWrite(c, base, bytes, b, |Line(c, b)|);
  }

  lemma FullWrite(c: Codec, base: Folded, cap: u64, bytes: Bytes, cache: Folded, r: Record)
    requires FoldBytes(c, base, bytes).Some? && r.amount <= cap
    requires r.attempt.Some? && r.attempt.value !in FoldBytes(c, base, bytes).value.counted
    ensures Reserved(c, base, cap, bytes, cache, r, Io(true, |Line(c, r)|, true))
         == Outcome(bytes + Line(c, r), Apply(FoldBytes(c, base, bytes).value, r), Ok(()))
  {
  }

  lemma NotTerminated(c: Codec, bytes: Bytes, r: Record)
    requires c.Lawful()
    ensures !Terminated(c, bytes + c.encode(r))
  {
    assert c.LawfulFor(r);
    var e := CommittedEnd(bytes);
    var tail := bytes[e..];
    assert bytes + c.encode(r) == bytes[..e] + (tail + c.encode(r));
    CommittedPrefix(bytes[..e], tail + c.encode(r));
    assert (bytes + c.encode(r))[e..] == tail + c.encode(r);
    assert c.encode(r)[..|c.encode(r)|] == c.encode(r);
    assert c.GluedFor(tail, c.encode(r)[..|c.encode(r)|]);
  }

  lemma TerminatedAfterLine(c: Codec, bytes: Bytes, r: Record)
    ensures Terminated(c, bytes + Line(c, r))
  {
    var all := bytes + Line(c, r);
    assert all[|all| - 1] == LF;
    assert CommittedEnd(all) == |all| && all[|all|..] == [];
  }

  /** A charge or credit whose write succeeds on a line of its own: what is written, cached and folded. */
  lemma CleanWrite(c: Codec, base: Folded, cap: u64, bytes: Bytes, cache: Folded, r: Record, io: Io)
    requires c.Lawful() && FoldBytes(c, base, bytes).Some? && Terminated(c, bytes) && r.amount <= cap
    requires r.attempt.Some? && r.attempt.value !in FoldBytes(c, base, bytes).value.counted
    requires io.ready && WritesAll(c, r, io)
    ensures var after := Apply(FoldBytes(c, base, bytes).value, r);
            && Reserved(c, base, cap, bytes, cache, r, io) == Outcome(bytes + Line(c, r), after, Ok(()))
            && FoldBytes(c, base, bytes + Line(c, r)) == Some(after) && Terminated(c, bytes + Line(c, r))
  {
    assert Line(c, r)[..|Line(c, r)|] == Line(c, r);
    FoldAfterWrite(c, base, bytes, r, |Line(c, r)|);
    TerminatedAfterLine(c, bytes, r);
  }
}
