/**
 * The relay client of one invocation (`Relays` in crates/maxplayer-challenges/src/relay.rs) and the `publish`
 * command that drives it, as loops over the relays.
 */
module RelayClient {
  import opened Basics
  import opened Drafts
  import opened Latest
  import opened Runs
  import opened Publishing
  import Quorum
  import Outbox

  // ---- The union of the answers, kept in id order ----

  function InsertById(union: seq<Event>, e: Event): (r: seq<Event>) {
    if union == [] then [e]
    else if union[0].id == e.id then [e] + union[1..]
    else if LexLess(e.id, union[0].id) then [e] + union
    else [union[0]] + InsertById(union[1..], e)
  }

  lemma {:induction false} InsertByIdAdds(union: seq<Event>, e: Event)
    requires IdsIdentify(SeqSet(union) + {e})
    ensures SeqSet(InsertById(union, e)) == SeqSet(union) + {e}
  {
    if union != [] {
      var x, rest := union[0], union[1..];
      assert union == [x] + rest;
      SeqSetConcat([x], rest);
      assert SeqSet([x]) == {x} && SeqSet([e]) == {e};
      assert x in SeqSet(union);
      if x.id == e.id {
        assert x == e;
      } else if LexLess(e.id, x.id) {
        SeqSetConcat([e], union);
      } else {
        InsertByIdAdds(rest, e);
        SeqSetConcat([x], InsertById(rest, e));
      }
    }
  }

  // ---- A decision depends only on the set of events read ----

  lemma SelectionDependsOnSet(a: seq<Event>, b: seq<Event>, buyer: string, id: string)
    requires SeqSet(a) == SeqSet(b) && IdsIdentify(SeqSet(a))
    ensures SelectRunEvent(a, buyer, Some(id)) == SelectRunEvent(b, buyer, Some(id))
  {
    var keep := (e: Event) => IsRun(e, buyer);
    var x, y := Filter(a, keep), Filter(b, keep);
    assert forall e :: e in a <==> e in SeqSet(a);
    assert forall e :: e in b <==> e in SeqSet(b);
    assert SeqSet(x) == SeqSet(y) <= SeqSet(a);
    ViewDependsOnSet(x, y);
    assert RunView(a, buyer) == View(x) && RunView(b, buyer) == View(y);
  }

  lemma DateDependsOnSet(a: seq<Event>, b: seq<Event>, author: string, kind: nat, d: string)
    requires forall e :: e in a <==> e in b
    ensures LatestDate(a, author, kind, d) == LatestDate(b, author, kind, d)
  {
    var x, y := LatestDate(a, author, kind, d), LatestDate(b, author, kind, d);
    if x.Some? {
      var e :| e in a && OwnVersion(e, author, kind, d) && e.createdAt == x.value;
      assert y.Some? && x.value <= y.value;
    }
    if y.Some? {
      var e :| e in b && OwnVersion(e, author, kind, d) && e.createdAt == y.value;
      assert x.Some? && y.value <= x.value;
    }
  }

  /** The two lists lead the command to the same decision. */
  ghost predicate Alike(a: seq<Event>, b: seq<Event>, run: Challenge) {
    && SelectRunEvent(a, run.buyer, Some(run.id)) == SelectRunEvent(b, run.buyer, Some(run.id))
    && LatestDate(a, run.buyer, CHALLENGE_KIND, run.id) == LatestDate(b, run.buyer, CHALLENGE_KIND, run.id)
    && (a == [] <==> b == []) && (NotClosed(a, run) <==> NotClosed(b, run))
  }

  predicate NotClosed(events: seq<Event>, run: Challenge) { ClosedStatusOf(events, run.buyer, run.id).None? }

  /** The order and the repeats of what was read never change a decision. */
  lemma DecisionDependsOnSet(a: seq<Event>, b: seq<Event>, run: Challenge)
    requires SeqSet(a) == SeqSet(b) && IdsIdentify(SeqSet(a))
    ensures Alike(a, b, run)
  {
    SelectionDependsOnSet(a, b, run.buyer, run.id);
    assert forall e :: e in a <==> e in SeqSet(a);
    assert forall e :: e in b <==> e in SeqSet(b);
    DateDependsOnSet(a, b, run.buyer, CHALLENGE_KIND, run.id);
    assert a != [] ==> a[0] in SeqSet(b);
    assert b != [] ==> b[0] in SeqSet(a);
  }

  // ---- The client ----

  /** What the relays store. */
  class Network {
    var stores: seq<Quorum.Store>

    constructor (stores: seq<Quorum.Store>)
      ensures this.stores == stores
    {
      this.stores := stores;
    }
  }

  // ---- What a read returns, for any filter ----

  function Held(st: Quorum.Store, wants: Event -> bool): (r: set<Event>) { set k | k in st && wants(st[k]) :: st[k] }

  /** The matching events on the completed relays below `n`. */
  function HeldBelow(stores: seq<Quorum.Store>, complete: set<nat>, wants: Event -> bool, n: nat): (r: set<Event>)
    requires n <= |stores|
  {
    set i, k | 0 <= i < n && i in complete && k in stores[i] && wants(stores[i][k]) :: stores[i][k]
  }

  lemma HeldOneMore(stores: seq<Quorum.Store>, complete: set<nat>, wants: Event -> bool, n: nat)
    requires n < |stores|
    ensures HeldBelow(stores, complete, wants, n + 1)
         == HeldBelow(stores, complete, wants, n) + (if n in complete then Held(stores[n], wants) else {})
  {
  }

  function ReadSet(w: Publishing.World, complete: set<nat>, wants: Event -> bool, now: u64): (r: set<Event>) {
    HeldBelow(w.stores, complete, wants, |w.stores|) + SeqSet(QueuedEvents(Outbox.Pruned(w.outbox, now), wants))
  }

  /** Everything in reach that the filter wants. */
  function Known(stores: seq<Quorum.Store>, outbox: seq<Outbox.Entry>, wants: Event -> bool): (r: set<Event>) {
    HeldBelow(stores, Quorum.Relays(|stores|), wants, |stores|) + SeqSet(QueuedEvents(outbox, wants))
  }

  lemma PrunedEvents(entries: seq<Outbox.Entry>, now: u64, x: Outbox.Entry)
    requires x in Outbox.Pruned(entries, now)
    ensures exists y :: y in entries && y.event == x.event
  {
    var sorted := Outbox.SortByTime(Outbox.Retained(entries, now));
    assert x in sorted;
    assert x in Outbox.Retained(entries, now);
  }

  lemma QueuedAreKnown(outbox: seq<Outbox.Entry>, wants: Event -> bool, now: u64)
    ensures SeqSet(QueuedEvents(Outbox.Pruned(outbox, now), wants)) <= SeqSet(QueuedEvents(outbox, wants))
  {
    forall e | e in QueuedEvents(Outbox.Pruned(outbox, now), wants)
      ensures e in QueuedEvents(outbox, wants)
    {
      var x :| x in Outbox.Pruned(outbox, now) && x.event == e;
      PrunedEvents(outbox, now, x);
    }
  }

  lemma HeldGrows(stores: seq<Quorum.Store>, complete: set<nat>, wants: Event -> bool, i: nat, n: nat)
    requires i <= n <= |stores|
    ensures HeldBelow(stores, complete, wants, i) <= HeldBelow(stores, complete, wants, n)
  {
  }

  lemma HeldOfMore(stores: seq<Quorum.Store>, a: set<nat>, b: set<nat>, wants: Event -> bool, n: nat)
    requires a <= b && n <= |stores|
    ensures HeldBelow(stores, a, wants, n) <= HeldBelow(stores, b, wants, n)
  {
  }

  lemma ReadIsKnown(w: Publishing.World, complete: set<nat>, wants: Event -> bool, now: u64)
    requires complete <= Quorum.Relays(|w.stores|)
    ensures ReadSet(w, complete, wants, now) <= Known(w.stores, w.outbox, wants)
  {
    HeldOfMore(w.stores, complete, Quorum.Relays(|w.stores|), wants, |w.stores|);
    QueuedAreKnown(w.outbox, wants, now);
  }

  /** What one relay answers. */
  method AnswerOf(st: Quorum.Store, wants: Event -> bool) returns (events: seq<Event>)
    ensures SeqSet(events) == Held(st, wants)
  {
    events := [];
    var keys := st.Keys;
    ghost var done: set<Key> := {};
    while keys != {}
      invariant done !! keys && done + keys == st.Keys
      invariant SeqSet(events) == set k | k in done && wants(st[k]) :: st[k]
      decreases keys
    {
      var k :| k in keys;
      if wants(st[k]) {
        SeqSetConcat(events, [st[k]]);
        events := events + [st[k]];
      }
      keys, done := keys - {k}, done + {k};
    }
  }

  /** Puts each event into the union, replacing one of the same id. */
  method AddEach(union: seq<Event>, events: seq<Event>, ghost known: set<Event>) returns (r: seq<Event>)
    requires IdsIdentify(known) && SeqSet(union) <= known && SeqSet(events) <= known
    ensures SeqSet(r) == SeqSet(union) + SeqSet(events)
  {
    r := union;
    for i := 0 to |events|
      invariant SeqSet(r) == SeqSet(union) + SeqSet(events[..i])
    {
      TakeNext(events, i);
      InsertByIdAdds(r, events[i]);
      r := InsertById(r, events[i]);
    }
    assert events[..|events|] == events;
  }

  lemma TakeNext(events: seq<Event>, i: nat)
    requires i < |events|
    ensures SeqSet(events[..i + 1]) == SeqSet(events[..i]) + {events[i]} <= SeqSet(events)
  {
    assert events[..i + 1] == events[..i] + [events[i]];
    SeqSetConcat(events[..i], [events[i]]);
    assert SeqSet([events[i]]) == {events[i]};
  }

  /** Adds each event whose id the union does not hold. */
  method AddAbsent(union: seq<Event>, events: seq<Event>, ghost known: set<Event>) returns (r: seq<Event>)
    requires IdsIdentify(known) && SeqSet(union) <= known && SeqSet(events) <= known
    ensures SeqSet(r) == SeqSet(union) + SeqSet(events)
  {
    r := union;
    for i := 0 to |events|
      invariant SeqSet(r) == SeqSet(union) + SeqSet(events[..i])
    {
      TakeNext(events, i);
      if forall x :: x in r ==> x.id != events[i].id {
        InsertByIdAdds(r, events[i]);
        r := InsertById(r, events[i]);
      } else {
        var x :| x in r && x.id == events[i].id;
        assert x in SeqSet(r) && x == events[i];
      }
    }
    assert events[..|events|] == events;
  }

  /** The counts of a read after the relays below `n`. */
  datatype Tally = Tally(ok: nat, failed: set<nat>, answered: set<nat>)

  function TallyBelow(complete: set<nat>, n: nat, before: set<nat>): (t: Tally) {
    if n == 0 then Tally(0, {}, before)
    else
      var t := TallyBelow(complete, n - 1, before);
      if n - 1 in complete then t.(ok := t.ok + 1, answered := t.answered + {n - 1})
      else t.(failed := t.failed + {n - 1})
  }

  lemma Grown(complete: set<nat>, before: set<nat>, all: set<nat>, x: nat)
    requires x !in all
    ensures x in complete ==>
              && complete * (all + {x}) == complete * all + {x} && |complete * all + {x}| == |complete * all| + 1
              && all + {x} - complete == all - complete
              && before + (complete * all + {x}) == before + complete * all + {x}
    ensures x !in complete ==> complete * (all + {x}) == complete * all && all + {x} - complete == all - complete + {x}
  {
  }

  ghost predicate TallyOk(t: Tally, complete: set<nat>, all: set<nat>, before: set<nat>) {
    t.ok == |complete * all| && t.failed == all - complete && t.answered == before + complete * all
  }

  lemma TallyStep(t: Tally, complete: set<nat>, all: set<nat>, before: set<nat>, x: nat)
    requires TallyOk(t, complete, all, before) && x !in all
    ensures x in complete ==> TallyOk(t.(ok := t.ok + 1, answered := t.answered + {x}), complete, all + {x}, before)
    ensures x !in complete ==> TallyOk(t.(failed := t.failed + {x}), complete, all + {x}, before)
  {
    Grown(complete, before, all, x);
  }

  lemma {:induction false} TallyHolds(complete: set<nat>, n: nat, before: set<nat>) returns (all: set<nat>)
    ensures TallyOk(TallyBelow(complete, n, before), complete, all, before)
    ensures forall i: nat :: i in all <==> i < n
  {
    if n > 0 {
      all := TallyHolds(complete, n - 1, before);
      TallyStep(TallyBelow(complete, n - 1, before), complete, all, before, n - 1);
      all := all + {n - 1};
    } else {
      all := {};
      assert complete * {} == {} && before + {} == before;
    }
  }

  lemma TallyMeaning(complete: set<nat>, n: nat, before: set<nat>)
    requires complete <= Quorum.Relays(n)
    ensures TallyBelow(complete, n, before) == Tally(|complete|, Quorum.Relays(n) - complete, before + complete)
  {
    var all := TallyHolds(complete, n, before);
    assert all == Quorum.Relays(n);
    assert complete * all == complete;
  }

  /** One complete answer goes into the union. */
  method TakeAnswer(union: seq<Event>, st: Quorum.Store, wants: Event -> bool, ghost known: set<Event>)
    returns (r: seq<Event>)
    requires IdsIdentify(known) && SeqSet(union) + Held(st, wants) <= known
    ensures SeqSet(r) == SeqSet(union) + Held(st, wants)
  {
    var events := AnswerOf(st, wants);
    r := AddEach(union, events, known);
  }

  /** The union holds exactly what the completed relays below `n` returned. */
  ghost predicate Gathered(stores: seq<Quorum.Store>, complete: set<nat>, wants: Event -> bool, n: nat,
      union: seq<Event>)
    requires n <= |stores|
  {
    SeqSet(union) == HeldBelow(stores, complete, wants, n)
  }

  lemma AnswerFits(
    stores: seq<Quorum.Store>, complete: set<nat>, wants: Event -> bool, i: nat, union: seq<Event>, known: set<Event>)
    requires i < |stores| && Gathered(stores, complete, wants, i, union)
    requires HeldBelow(stores, complete, wants, |stores|) <= known
    ensures i !in complete ==> Gathered(stores, complete, wants, i + 1, union)
    ensures i in complete ==>
              && SeqSet(union) + Held(stores[i], wants) <= known
              && forall r :: SeqSet(r) == SeqSet(union) + Held(stores[i], wants) ==>
                  Gathered(stores, complete, wants, i + 1, r)
  {
    HeldOneMore(stores, complete, wants, i);
    HeldGrows(stores, complete, wants, i + 1, |stores|);
  }

  /** The loop of `read` over the relays. */
  method Collect(
    stores: seq<Quorum.Store>, complete: set<nat>, wants: Event -> bool, before: set<nat>, ghost known: set<Event>)
    returns (union: seq<Event>, ok: nat, failed: set<nat>, answered: set<nat>)
    requires IdsIdentify(known) && HeldBelow(stores, complete, wants, |stores|) <= known
    requires complete <= Quorum.Relays(|stores|)
    ensures Gathered(stores, complete, wants, |stores|, union)
    ensures ok == |complete| && failed == Quorum.Relays(|stores|) - complete && answered == before + complete
  {
    union, ok, failed, answered := [], 0, {}, before;
    for i := 0 to |stores|
      invariant Gathered(stores, complete, wants, i, union)
      invariant Tally(ok, failed, answered) == TallyBelow(complete, i, before)
    {
      AnswerFits(stores, complete, wants, i, union, known);
      if i in complete {
        ok := ok + 1;
        answered := answered + {i};
        union := TakeAnswer(union, stores[i], wants, known);
      } else {
        failed := failed + {i};
      }
    }
    TallyMeaning(complete, |stores|, before);
  }

  // ---- The filter of one coordinate ----

  lemma HeldAtKey(stores: seq<Quorum.Store>, complete: set<nat>, k: Key, n: nat)
    requires n <= |stores| && AllFiled(stores)
    ensures HeldBelow(stores, complete, AtKey(k), n) == SeqSet(Answers(stores, complete, k, n))
  {
    forall e | e in Answers(stores, complete, k, n)
      ensures e in HeldBelow(stores, complete, AtKey(k), n)
    {
      var i :| 0 <= i < n && i in complete && k in stores[i] && stores[i][k] == e;
      assert Quorum.Filed(stores[i]);
    }
    forall e | e in HeldBelow(stores, complete, AtKey(k), n)
      ensures e in Answers(stores, complete, k, n)
    {
      var i, kk :| 0 <= i < n && i in complete && kk in stores[i] && RelayKey(stores[i][kk]) == k && stores[i][kk] == e;
      assert Quorum.Filed(stores[i]) && kk == k;
    }
  }

  /** A read of one coordinate returns the versions the command decides on. */
  lemma ReadAtKey(w: Publishing.World, complete: set<nat>, k: Key, now: u64)
    requires AllFiled(w.stores)
    ensures ReadSet(w, complete, AtKey(k), now) == SeqSet(ReadRun(w, complete, k, now))
  {
    var pruned := Outbox.Pruned(w.outbox, now);
    HeldAtKey(w.stores, complete, k, |w.stores|);
    SeqSetConcat(Answers(w.stores, complete, k, |w.stores|), QueuedEvents(pruned, AtKey(k)));
  }

  /** The relays below `n` have been sent the event. */
  ghost predicate SentTo(
    before: seq<Quorum.Store>, after: seq<Quorum.Store>, verdicts: seq<Quorum.Verdict>, e: Event, n: nat)
    requires |before| == |after| == |verdicts|
  {
    forall j :: 0 <= j < |after| ==>
      after[j] == if j < n && Reaches(verdicts[j]) then Quorum.Offer(before[j], e) else before[j]
  }

  lemma SentToAll(before: seq<Quorum.Store>, after: seq<Quorum.Store>, verdicts: seq<Quorum.Verdict>, e: Event)
    requires |before| == |after| == |verdicts| && SentTo(before, after, verdicts, e, |verdicts|)
    ensures after == SendAll(before, verdicts, e)
  {
  }

  class Relays {
    const config: Quorum.Config
    const net: Network
    const outbox: Outbox.OutboxFile
    var answered: set<nat>
    var missing: set<nat>

    constructor (config: Quorum.Config, net: Network, outbox: Outbox.OutboxFile)
      ensures this.config == config && this.net == net && this.outbox == outbox && answered == {} && missing == {}
    {
      this.config, this.net, this.outbox := config, net, outbox;
      answered, missing := {}, {};
    }

    ghost function World(): (w: Publishing.World)
      reads net, outbox
    {
      Publishing.World(net.stores, outbox.entries, {}, {})
    }

    /** Stores are honest, and ids are hashes, so no two events in reach share one. */
    ghost predicate Sound(wants: Event -> bool)
      reads net, outbox
    {
      |net.stores| == config.n && AllFiled(net.stores) && IdsIdentify(Known(net.stores, outbox.entries, wants))
    }

    /** `read`, for any filter: asks every relay, unions the complete answers, and fails closed below `need`. */
    method Read(wants: Event -> bool, complete: set<nat>, need: nat, now: u64) returns (r: Option<seq<Event>>)
      requires Sound(wants) && complete <= Quorum.Relays(config.n)
      modifies this
      ensures r.Some? <==> |complete| >= need
      ensures r.Some? ==> SeqSet(r.value) == ReadSet(World(), complete, wants, now)
      ensures answered == old(answered) + complete
      ensures missing == if r.Some? then old(missing) + (Quorum.Relays(config.n) - complete) else old(missing)
    {
      ghost var known := Known(net.stores, outbox.entries, wants);
      ReadIsKnown(World(), complete, wants, now);
      var union, ok, failed;
      union, ok, failed, answered := Collect(net.stores, complete, wants, answered, known);
      if ok < need {
        return None;
      }
      missing := missing + failed;
      var queued := QueuedEvents(Outbox.Pruned(outbox.entries, now), wants);
      union := AddAbsent(union, queued, known);
      return Some(union);
    }

    /**
     * `publish`, from the signed event on: one send a relay, then the quorum, then the outbox. `saved` is false when
     * the outbox cannot be written, which only loses the repair.
     */
    method Publish(event: Event, verdicts: seq<Quorum.Verdict>, now: u64, saved: bool) returns (ok: bool)
      requires |net.stores| == config.n == |verdicts|
      modifies this, net, outbox
      ensures net.stores == SendAll(old(net.stores), verdicts, event)
      ensures ok == (|AcceptedBy(verdicts)| >= config.q)
      ensures outbox.entries == if ok && saved
                                then Outbox.Queued(old(outbox.entries), event, FailedAt(verdicts, config.n), now)
                                else old(outbox.entries)
      ensures answered == old(answered) + AcceptedBy(verdicts)
      ensures missing == if ok then old(missing) + SeqSet(FailedAt(verdicts, config.n)) else old(missing)
    {
      var failed: seq<nat> := [];
      ghost var accepting := AcceptedBy(verdicts);
      for i := 0 to config.n
        invariant |net.stores| == config.n && SentTo(old(net.stores), net.stores, verdicts, event, i)
        invariant failed == FailedAt(verdicts, i)
        invariant answered == TallyBelow(accepting, i, old(answered)).answered
        invariant missing == old(missing) && outbox.entries == old(outbox.entries)
      {
        if Reaches(verdicts[i]) {
          net.stores := net.stores[i := Quorum.Offer(net.stores[i], event)];
        }
        if verdicts[i].Accepted? {
          answered := answered + {i};
        } else {
          failed := failed + [i];
        }
      }
      SentToAll(old(net.stores), net.stores, verdicts, event);
      FailedCount(verdicts, config.n, old(answered));
      TallyMeaning(accepting, config.n, old(answered));
      var accepted := config.n - |failed|;
      if accepted < config.q {
        return false;
      }
      missing := missing + SeqSet(failed);
      if saved {
        outbox.Queue(event, failed, now);
      }
      return true;
    }

    /** A read of the run's versions, good for the decision on it. */
    method ReadFor(q: Request, complete: set<nat>, need: nat) returns (r: Option<seq<Event>>)
      requires Sound(AtKey(RunKey(q.run))) && complete <= Quorum.Relays(config.n)
      modifies this
      ensures r.Some? <==> |complete| >= need
      ensures need == config.n ==> (r.Some? <==> complete == Quorum.Relays(config.n))
      ensures r.Some? ==> Alike(r.value, ReadRun(World(), complete, RunKey(q.run), q.now), q.run)
      ensures r.Some? && old(missing) == {} ==> (missing == {} <==> complete == Quorum.Relays(config.n))
    {
      var k := RunKey(q.run);
      r := Read(AtKey(k), complete, need, q.now);
      SubsetSize(complete, Quorum.Relays(config.n));
      if r.Some? {
        ReadAtKey(World(), complete, k, q.now);
        ReadIsKnown(World(), complete, AtKey(k), q.now);
        DecisionDependsOnSet(r.value, ReadRun(World(), complete, k, q.now), q.run);
      }
    }

    /** The reads before signing: the versions the publish rests on, or why nothing is published. */
    method Consult(q: Request, strict: set<nat>) returns (r: Result<seq<Event>, Outcome>)
      requires Sound(AtKey(RunKey(q.run))) && missing == {} && q.complete <= Quorum.Relays(config.n)
      requires strict <= Quorum.Relays(config.n) && q.strictCompletes == (strict == Quorum.Relays(config.n))
      requires ValidChallenge(q.run)
      modifies this
      ensures r.Err? ==> r.error == Decide(config, World(), q) && !r.error.Signed?
      ensures r.Ok? ==> |q.complete| >= config.q && Previous(config, World(), q).Some?
                        && Alike(r.value, Previous(config, World(), q).value, q.run)
                        && NotClosed(r.value, q.run)
                        && NotClosed(ReadRun(World(), q.complete, RunKey(q.run), q.now), q.run)
    {
      var k := RunKey(q.run);
      DecideStops(config, World(), q);
      var first := ReadFor(q, q.complete, config.q);
      if first.None? {
        return Err(ReadIncomplete);
      }
      if !NotClosed(first.value, q.run) {
        return Err(Closed);
      }
      if missing == {} || first.value == [] || !OpenStatus(q.run.status) {
        return Ok(first.value);
      }
      var again := ReadFor(q, strict, config.n);
      if again.None? {
        return Err(ReadIncomplete);
      }
      if !NotClosed(again.value, q.run) {
        return Err(Closed);
      }
      return Ok(again.value);
    }

    /** The `publish` command: decide on what the relays say, then sign and send. */
    method Command(q: Request, strict: set<nat>, saved: bool) returns (outcome: Outcome, acked: bool)
      requires Sound(AtKey(RunKey(q.run))) && missing == {} && q.complete <= Quorum.Relays(config.n)
              && |q.verdicts| == config.n
      requires strict <= Quorum.Relays(config.n) && q.strictCompletes == (strict == Quorum.Relays(config.n))
      modifies this, net, outbox
      ensures outcome == Decide(config, old(World()), q)
      ensures !outcome.Signed? ==> World() == old(World()) && !acked
      ensures outcome.Signed? ==> acked == (|AcceptedBy(q.verdicts)| >= config.q)
      ensures outcome.Signed? ==>
                var t := AfterSend(config, old(World()), q, outcome.event, saved);
                net.stores == t.stores && outbox.entries == t.outbox
    {
      if !ValidChallenge(q.run) {
        return Invalid, false;
      }
      var read := Consult(q, strict);
      if read.Err? {
        return read.error, false;
      }
      var previous := read.value;
      DecideAnswers(config, World(), q, previous);
      outcome := Settle(q, previous);
      if !outcome.Signed? {
        return outcome, false;
      }
      acked := Publish(outcome.event, q.verdicts, q.now, saved);
    }
  }

  /** The compare-and-set, the new timestamp and the signature. */
  method Settle(q: Request, previous: seq<Event>) returns (outcome: Outcome)
    ensures outcome == Answered(q, previous)
  {
    if q.ifLatest.Some? {
      var latest := SelectRunEvent(previous, q.run.buyer, Some(q.run.id));
      if latest.None? || latest.value.id != q.ifLatest.value {
        return Superseded;
      }
    }
    var created := ReplacementTimestamp(q.now, previous, q.run.buyer, CHALLENGE_KIND, q.run.id);
    if created.None? {
      return BadTimestamp;
    }
    return Signed(Event(q.eventId, q.run.buyer, created.value, ChallengeDraft(q.run)));
  }

  /** Why `Decide` stops before it compares or dates anything. */
  lemma DecideStops(c: Quorum.Config, w: Publishing.World, q: Request)
    requires ValidChallenge(q.run) && q.complete <= Quorum.Relays(c.n)
    ensures |q.complete| < c.q ==> Decide(c, w, q) == ReadIncomplete
    ensures |q.complete| >= c.q && !NotClosed(ReadRun(w, q.complete, RunKey(q.run), q.now), q.run) ==>
            Decide(c, w, q) == Closed
    ensures |q.complete| >= c.q && NotClosed(ReadRun(w, q.complete, RunKey(q.run), q.now), q.run) ==>
              && (Previous(c, w, q).None? ==> Decide(c, w, q) == ReadIncomplete)
              && (Previous(c, w, q).Some? && !NotClosed(Previous(c, w, q).value, q.run) ==> Decide(c, w, q) == Closed)
  {
  }

  /** What `Decide` answers once the reads are done. */
  function Answered(q: Request, previous: seq<Event>): (r: Outcome) {
    var latest := SelectRunEvent(previous, q.run.buyer, Some(q.run.id));
    var created := ReplacementTimestamp(q.now, previous, q.run.buyer, CHALLENGE_KIND, q.run.id);
    if q.ifLatest.Some? && (latest.None? || latest.value.id != q.ifLatest.value) then Superseded
    else if created.None? then BadTimestamp
    else Signed(Event(q.eventId, q.run.buyer, created.value, ChallengeDraft(q.run)))
  }

  lemma AnsweredAlike(q: Request, a: seq<Event>, b: seq<Event>)
    requires Alike(a, b, q.run)
    ensures Answered(q, a) == Answered(q, b)
  {
  }

  lemma DecideIsAnswered(c: Quorum.Config, w: Publishing.World, q: Request)
    requires ValidChallenge(q.run) && q.complete <= Quorum.Relays(c.n) && |q.complete| >= c.q
    requires NotClosed(ReadRun(w, q.complete, RunKey(q.run), q.now), q.run)
    requires Previous(c, w, q).Some? && NotClosed(Previous(c, w, q).value, q.run)
    ensures Decide(c, w, q) == Answered(q, Previous(c, w, q).value)
  {
  }

  lemma DecideAnswers(c: Quorum.Config, w: Publishing.World, q: Request, previous: seq<Event>)
    requires ValidChallenge(q.run) && q.complete <= Quorum.Relays(c.n) && |q.complete| >= c.q
    requires NotClosed(ReadRun(w, q.complete, RunKey(q.run), q.now), q.run)
    requires Previous(c, w, q).Some? && Alike(previous, Previous(c, w, q).value, q.run) && NotClosed(previous, q.run)
    ensures Decide(c, w, q) == Answered(q, previous)
  {
    DecideIsAnswered(c, w, q);
    AnsweredAlike(q, previous, Previous(c, w, q).value);
  }

  lemma {:induction false} FailedCount(verdicts: seq<Quorum.Verdict>, n: nat, before: set<nat>)
    requires n <= |verdicts|
    ensures |FailedAt(verdicts, n)| + TallyBelow(AcceptedBy(verdicts), n, before).ok == n
  {
    if n > 0 {
      FailedCount(verdicts, n - 1, before);
    }
  }
}
