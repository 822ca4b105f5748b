/**
 * Quorum publishes and quorum reads over independent relays (crates/maxplayer-challenges/src/relay.rs),
 * as a state machine whose steps are single sends and single relay reads of concurrent operations.
 */
module Quorum {
  import opened Basics
  import opened Drafts
  import opened Latest
  import opened Roster
  import opened Runs

  // ---- Quorum sizes ----

  const DEFAULT_QUORUM: nat := 2

  function Majority(n: nat): (m: nat) { n / 2 + 1 }

  function DefaultQuorum(n: nat): (q: nat) { Min(n, Max(DEFAULT_QUORUM, Majority(n))) }

  /** `Relays::with_quorum`: the quorum for `n` relays, or a refusal. */
  function WithQuorum(n: nat, asked: Option<nat>): (r: Option<nat>)
    requires n > 0
    ensures r.Some? ==> r.value <= n < 2 * r.value
    ensures r.None? <==> asked.Some? && (2 * asked.value <= n || asked.value > n)
    ensures asked.Some? && r.Some? ==> r == asked
    ensures asked.None? ==> r.Some? && 2 * (r.value - 1) <= n < 2 * r.value
  {
    if asked.None? then Some(DefaultQuorum(n))
    else if Majority(n) <= asked.value <= n then Some(asked.value)
    else None
  }

  function Relays(n: nat): (r: set<nat>)
    ensures |r| == n && forall i: nat :: i in r <==> i < n
  {
    if n == 0 then {} else Relays(n - 1) + {n - 1}
  }

  /** Any two quorums share a relay. */
  lemma QuorumsIntersect(n: nat, q: nat, a: set<nat>, b: set<nat>) returns (r: nat)
    requires n < 2 * q && a <= Relays(n) && b <= Relays(n) && |a| >= q && |b| >= q
    ensures r in a && r in b
  {
    if a * b == {} {
      assert a + b <= Relays(n);
      SubsetSize(a + b, Relays(n));
      assert false;
    }
    r :| r in a * b;
  }

  // ---- Relay stores ----

  /** An honest replaceable store: at most one version per coordinate. */
  type Store = map<Key, Event>

  predicate Filed(st: Store) { forall k :: k in st ==> RelayKey(st[k]) == k }

  function Offer(st: Store, e: Event): (r: Store) {
    var k := RelayKey(e);
    if k in st && !Beats(e, st[k]) then st else st[k := e]
  }

  /** The store holds `e` or a version that `e` does not beat. */
  predicate Holds(st: Store, e: Event) { RelayKey(e) in st && !Beats(e, st[RelayKey(e)]) }

  lemma OfferHolds(st: Store, e: Event)
    requires Filed(st)
    ensures Filed(Offer(st, e)) && Holds(Offer(st, e), e)
  {
    BeatsOrder(e, e);
  }

  /** Stores only move up. */
  lemma OfferKeeps(st: Store, e: Event, x: Event)
    requires Holds(st, x)
    ensures Holds(Offer(st, e), x)
  {
    var k := RelayKey(e);
    if k == RelayKey(x) && Beats(e, st[k]) && Beats(x, e) {
      BeatsTransitive(x, e, st[k]);
    }
  }

  // ---- Operations in progress, and what clients have been told ----

  function Contents(st: Store): (r: set<Event>) { set k | k in st :: st[k] }

  /** What a filter lets through. */
  function Selected(f: RelayFilter, held: set<Event>): (r: set<Event>) { set x | x in held && Matches(f, x) }

  /** A read keeps what the relays it completed held when it read them; the filter decides what it returns. */
  datatype Op =
    | Publishing(event: Event, next: nat, accepted: set<nat>)
    | Reading(filter: RelayFilter, next: nat, complete: set<nat>, held: set<Event>, start: nat)

  datatype Record =
    | Acked(event: Event)
    | ReadStarted(op: nat)
    | ReadDone(op: nat, filter: RelayFilter, held: set<Event>, result: set<Event>)

  datatype Config = Config(n: nat, q: nat) {
    predicate Strict() { q <= n < 2 * q }
  }

  /** Three relays, two of which make a quorum. */
  const THREE := Config(3, 2)

  datatype State = State(stores: seq<Store>, ops: map<nat, Op>, nextId: nat, trace: seq<Record>)

  datatype Verdict = Accepted | Refused | NoVerdict(stored: bool)

  datatype Action =
    | StartPublish(event: Event)
    | Send(op: nat, verdict: Verdict)
    | FinishPublish(op: nat)
    | Deliver(relay: nat, event: Event)
    | StartRead(filter: RelayFilter)
    | ReadRelay(op: nat, completes: bool)
    | FinishRead(op: nat)

  function Init(c: Config): (s: State) { State(seq(c.n, _ => map[]), map[], 0, []) }

  /** One step; an action that does not apply changes nothing. */
  function Next(c: Config, s: State, a: Action): (t: State)
    requires |s.stores| == c.n
    ensures |t.stores| == c.n
  {
    match a
    case StartPublish(e) => s.(ops := s.ops[s.nextId := Publishing(e, 0, {})], nextId := s.nextId + 1)
    case Send(p, verdict) =>
      if p in s.ops && s.ops[p].Publishing? && s.ops[p].next < c.n then
        var op := s.ops[p];
        var reaches := verdict.Accepted? || verdict == NoVerdict(true);
        s.(stores := if reaches then s.stores[op.next := Offer(s.stores[op.next], op.event)] else s.stores,
           ops := s.ops[p := Publishing(op.event, op.next + 1,
                                        if verdict.Accepted? then op.accepted + {op.next} else op.accepted)])
      else s
    case FinishPublish(p) =>
      if p in s.ops && s.ops[p].Publishing? && s.ops[p].next == c.n then
        s.(ops := s.ops - {p},
           trace := if |s.ops[p].accepted| >= c.q then s.trace + [Acked(s.ops[p].event)] else s.trace)
      else s
    case Deliver(r, e) =>
      if r < c.n then s.(stores := s.stores[r := Offer(s.stores[r], e)]) else s
    case StartRead(f) =>
      s.(ops := s.ops[s.nextId := Reading(f, 0, {}, {}, |s.trace|)], nextId := s.nextId + 1,
         trace := s.trace + [ReadStarted(s.nextId)])
    case ReadRelay(p, completes) =>
      if p in s.ops && s.ops[p].Reading? && s.ops[p].next < c.n then
        var op := s.ops[p];
        s.(ops := s.ops[p := if completes
             then Reading(op.filter, op.next + 1, op.complete + {op.next}, op.held + Contents(s.stores[op.next]),
                 op.start)
             else Reading(op.filter, op.next + 1, op.complete, op.held, op.start)])
      else s
    case FinishRead(p) =>
      if p in s.ops && s.ops[p].Reading? && s.ops[p].next == c.n then
        s.(ops := s.ops - {p},
           trace := if |s.ops[p].complete| >= c.q
             then s.trace + [ReadDone(p, s.ops[p].filter, s.ops[p].held, Selected(s.ops[p].filter, s.ops[p].held))]
             else s.trace)
      else s
  }

  function Run(c: Config, actions: seq<Action>): (s: State)
    ensures |s.stores| == c.n
  {
    if actions == [] then Init(c)
    else Next(c, Run(c, actions[..|actions| - 1]), actions[|actions| - 1])
  }

  // ---- The invariant ----

  /** The result holds `e` or a version of its coordinate that `e` does not beat. */
  predicate Seen(result: set<Event>, e: Event) {
    exists f :: f in result && RelayKey(f) == RelayKey(e) && !Beats(e, f)
  }

  predicate AllHold(stores: seq<Store>, quorum: set<nat>, e: Event) {
    forall r :: r in quorum ==> r < |stores| && Holds(stores[r], e)
  }

  ghost predicate Durable(c: Config, stores: seq<Store>, e: Event) {
    exists quorum: set<nat> :: quorum <= Relays(c.n) && |quorum| >= c.q && AllHold(stores, quorum, e)
  }

  /** Some quorum holds `e`, and as soon as the read has completed a relay of it, what it holds shows `e`. */
  ghost predicate Promised(c: Config, stores: seq<Store>, op: Op, e: Event)
    requires op.Reading?
  {
    exists quorum: set<nat> ::
      && quorum <= Relays(c.n) && |quorum| >= c.q && AllHold(stores, quorum, e)
      && (quorum * op.complete != {} ==> Seen(op.held, e))
  }

  predicate AckedBefore(trace: seq<Record>, end: nat, e: Event) {
    exists i :: 0 <= i < end <= |trace| && trace[i] == Acked(e)
  }

  ghost predicate OpOk(c: Config, s: State, p: nat, op: Op) {
    match op
    case Publishing(e, next, accepted) => accepted <= Relays(c.n) && AllHold(s.stores, accepted, e)
    case Reading(f, next, complete, held, start) =>
      && complete <= Relays(c.n) && start < |s.trace|
      && (forall j :: 0 <= j < |s.trace| && s.trace[j] == ReadStarted(p) ==> j == start)
      && (forall e :: AckedBefore(s.trace, start, e) ==> Promised(c, s.stores, op, e))
  }

  /** Every finished read saw everything acknowledged before it started, and returns what its filter lets through. */
  predicate ReadsAreFresh(trace: seq<Record>) {
    && (forall k :: 0 <= k < |trace| && trace[k].ReadDone?
                    ==> trace[k].result == Selected(trace[k].filter, trace[k].held))
    && (forall i, j, k :: 0 <= i < j < k < |trace| && trace[i].Acked? && trace[k].ReadDone?
                          && trace[j] == ReadStarted(trace[k].op)
                          ==> Seen(trace[k].held, trace[i].event))
  }

  ghost predicate Inv(c: Config, s: State) {
    && |s.stores| == c.n
    && (forall r :: 0 <= r < c.n ==> Filed(s.stores[r]))
    && (forall p :: p in s.ops ==> p < s.nextId && OpOk(c, s, p, s.ops[p]))
    && (forall j :: 0 <= j < |s.trace| && s.trace[j].ReadStarted? ==> s.trace[j].op < s.nextId)
    && AckedAreDurable(c, s.stores, s.trace) && ReadsAreFresh(s.trace)
  }

  /** `t` has the same relays as `s`, each holding at least as much. */
  ghost predicate MovesUp(a: seq<Store>, b: seq<Store>) {
    |a| == |b| && forall r, e {:trigger Holds(b[r], e)} :: 0 <= r < |a| && Holds(a[r], e) ==> Holds(b[r], e)
  }

  lemma AllHoldMovesUp(a: seq<Store>, b: seq<Store>, quorum: set<nat>, e: Event)
    requires MovesUp(a, b) && AllHold(a, quorum, e)
    ensures AllHold(b, quorum, e)
  {
  }

  lemma PromiseMovesUp(c: Config, a: seq<Store>, b: seq<Store>, op: Op, e: Event)
    requires MovesUp(a, b) && op.Reading? && Promised(c, a, op, e)
    ensures Promised(c, b, op, e)
  {
    var quorum: set<nat> :| quorum <= Relays(c.n) && |quorum| >= c.q && AllHold(a, quorum, e)
                            && (quorum * op.complete != {} ==> Seen(op.held, e));
    AllHoldMovesUp(a, b, quorum, e);
  }

  lemma StoresMoveUp(a: seq<Store>, r: nat, e: Event)
    requires r < |a| && forall i :: 0 <= i < |a| ==> Filed(a[i])
    ensures var b := a[r := Offer(a[r], e)];
            && MovesUp(a, b) && Holds(b[r], e) && forall i :: 0 <= i < |b| ==> Filed(b[i])
  {
    OfferHolds(a[r], e);
    forall x | Holds(a[r], x)
      ensures Holds(Offer(a[r], e), x)
    {
      OfferKeeps(a[r], e, x);
    }
  }

  /** New store contents, same operations and trace. */
  lemma InvMovesUp(c: Config, s: State, stores: seq<Store>)
    requires Inv(c, s) && MovesUp(s.stores, stores) && forall r :: 0 <= r < |stores| ==> Filed(stores[r])
    ensures Inv(c, s.(stores := stores))
  {
    var t := s.(stores := stores);
    forall p | p in s.ops
      ensures OpOk(c, t, p, s.ops[p])
    {
      var op := s.ops[p];
      if op.Publishing? {
        AllHoldMovesUp(s.stores, stores, op.accepted, op.event);
      } else {
        forall e | AckedBefore(s.trace, op.start, e)
          ensures Promised(c, stores, op, e)
        {
          PromiseMovesUp(c, s.stores, stores, op, e);
        }
      }
    }
    forall e | AckedBefore(s.trace, |s.trace|, e)
      ensures Durable(c, stores, e)
    {
      var quorum: set<nat> :| quorum <= Relays(c.n) && |quorum| >= c.q && AllHold(s.stores, quorum, e);
      AllHoldMovesUp(s.stores, stores, quorum, e);
    }
  }

  /** One more record at the end of the trace leaves the other operations as they were. */
  lemma OpsSurviveRecord(c: Config, s: State, p: nat, op: Op, record: Record)
    requires OpOk(c, s, p, op) && record != ReadStarted(p)
    ensures OpOk(c, s.(trace := s.trace + [record]), p, op)
  {
    if op.Reading? {
      var trace := s.trace + [record];
      forall e | AckedBefore(trace, op.start, e)
        ensures Promised(c, s.stores, op, e)
      {
        var i :| 0 <= i < op.start && trace[i] == Acked(e);
        assert s.trace[i] == Acked(e);
      }
    }
  }

  lemma AckedGrows(trace: seq<Record>, record: Record, e: Event)
    ensures AckedBefore(trace + [record], |trace| + 1, e) <==> AckedBefore(trace, |trace|, e) || record == Acked(e)
  {
    var longer := trace + [record];
    if AckedBefore(trace, |trace|, e) {
      var i :| 0 <= i < |trace| && trace[i] == Acked(e);
      assert longer[i] == Acked(e);
    }
    if record == Acked(e) {
      assert longer[|trace|] == Acked(e);
    }
  }

  /** A record other than a start of theirs leaves all operations as they were. */
  lemma AllOpsSurvive(c: Config, s: State, record: Record)
    requires forall x :: x in s.ops ==> OpOk(c, s, x, s.ops[x]) && record != ReadStarted(x)
    ensures forall x :: x in s.ops ==> OpOk(c, s.(trace := s.trace + [record]), x, s.ops[x])
  {
    forall x | x in s.ops
      ensures OpOk(c, s.(trace := s.trace + [record]), x, s.ops[x])
    {
      OpsSurviveRecord(c, s, x, s.ops[x], record);
    }
  }

  ghost predicate AckedAreDurable(c: Config, stores: seq<Store>, trace: seq<Record>) {
    forall e :: AckedBefore(trace, |trace|, e) ==> Durable(c, stores, e)
  }

  lemma RecordKeepsDurable(c: Config, stores: seq<Store>, trace: seq<Record>, record: Record)
    requires AckedAreDurable(c, stores, trace) && (record.Acked? ==> Durable(c, stores, record.event))
    ensures AckedAreDurable(c, stores, trace + [record])
  {
    forall e | AckedBefore(trace + [record], |trace + [record]|, e)
      ensures Durable(c, stores, e)
    {
      AckedGrows(trace, record, e);
    }
  }

  lemma RecordKeepsFresh(trace: seq<Record>, record: Record)
    requires ReadsAreFresh(trace) && !record.ReadDone?
    ensures ReadsAreFresh(trace + [record])
  {
  }

  lemma SentOpOk(c: Config, s: State, p: nat, op: Op, verdict: Verdict)
    requires op.Publishing? && op.next < c.n == |s.stores| && OpOk(c, s, p, op)
    requires verdict.Accepted? ==> Holds(s.stores[op.next], op.event)
    ensures OpOk(c, s, p, Publishing(op.event, op.next + 1,
                                     if verdict.Accepted? then op.accepted + {op.next} else op.accepted))
  {
  }

  lemma SendStep(c: Config, s: State, p: nat, verdict: Verdict)
    requires Inv(c, s) && p in s.ops && s.ops[p].Publishing? && s.ops[p].next < c.n
    ensures Inv(c, Next(c, s, Send(p, verdict)))
  {
    var op := s.ops[p];
    StoresMoveUp(s.stores, op.next, op.event);
    var t := Next(c, s, Send(p, verdict));
    InvMovesUp(c, s, t.stores);
    var mid := s.(stores := t.stores);
    SentOpOk(c, mid, p, op, verdict);
    OthersUntouched(c, mid, t, p);
  }

  lemma AcceptedIsDurable(c: Config, s: State, p: nat, op: Op)
    requires op.Publishing? && OpOk(c, s, p, op) && |op.accepted| >= c.q
    ensures Durable(c, s.stores, op.event)
  {
  }

  lemma FinishPublishStep(c: Config, s: State, p: nat)
    requires Inv(c, s) && p in s.ops && s.ops[p].Publishing? && s.ops[p].next == c.n
    ensures Inv(c, Next(c, s, FinishPublish(p)))
  {
    var op := s.ops[p];
    if |op.accepted| >= c.q {
      AcceptedIsDurable(c, s, p, op);
      AckKeepsInv(c, s, op.event);
    }
  }

  lemma AckKeepsInv(c: Config, s: State, e: Event)
    requires Inv(c, s) && Durable(c, s.stores, e)
    ensures Inv(c, s.(trace := s.trace + [Acked(e)]))
  {
    AllOpsSurvive(c, s, Acked(e));
    RecordKeepsDurable(c, s.stores, s.trace, Acked(e));
    RecordKeepsFresh(s.trace, Acked(e));
  }

  lemma NewReadOk(c: Config, s: State, f: RelayFilter)
    requires Inv(c, s)
    ensures OpOk(c, s.(trace := s.trace + [ReadStarted(s.nextId)]), s.nextId, Reading(f, 0, {}, {}, |s.trace|))
  {
    var trace, op := s.trace + [ReadStarted(s.nextId)], Reading(f, 0, {}, {}, |s.trace|);
    forall e | AckedBefore(trace, op.start, e)
      ensures Promised(c, s.stores, op, e)
    {
      var i :| 0 <= i < op.start && trace[i] == Acked(e);
      assert s.trace[i] == Acked(e) && AckedBefore(s.trace, |s.trace|, e);
      var quorum: set<nat> :| quorum <= Relays(c.n) && |quorum| >= c.q && AllHold(s.stores, quorum, e);
    }
  }

  lemma StartReadStep(c: Config, s: State, f: RelayFilter)
    requires Inv(c, s)
    ensures Inv(c, Next(c, s, StartRead(f)))
  {
    AllOpsSurvive(c, s, ReadStarted(s.nextId));
    NewReadOk(c, s, f);
    RecordKeepsDurable(c, s.stores, s.trace, ReadStarted(s.nextId));
    RecordKeepsFresh(s.trace, ReadStarted(s.nextId));
  }

  /** Reading one more relay keeps what the read was promised. */
  lemma PromiseAfterRead(c: Config, stores: seq<Store>, op: Op, op': Op, e: Event)
    requires op.Reading? && op.next < c.n == |stores| && Filed(stores[op.next])
    requires Promised(c, stores, op, e)
    requires op' == Reading(op.filter, op.next + 1, op.complete + {op.next}, op.held + Contents(stores[op.next]),
            op.start)
    ensures Promised(c, stores, op', e)
  {
    var quorum: set<nat> :| quorum <= Relays(c.n) && |quorum| >= c.q && AllHold(stores, quorum, e)
                            && (quorum * op.complete != {} ==> Seen(op.held, e));
    if op.next in quorum {
      assert Holds(stores[op.next], e);
      ContentsShow(stores[op.next], e);
      SeenGrows(op.held, Contents(stores[op.next]), e);
    } else {
      assert quorum * op'.complete == quorum * op.complete;
      SeenGrows(op.held, Contents(stores[op.next]), e);
    }
    assert quorum * op'.complete != {} ==> Seen(op'.held, e);
  }

  lemma SeenGrows(a: set<Event>, b: set<Event>, e: Event)
    ensures Seen(a, e) || Seen(b, e) ==> Seen(a + b, e)
  {
    if x :| x in a && RelayKey(x) == RelayKey(e) && !Beats(e, x) {
      assert x in a + b;
    } else if x :| x in b && RelayKey(x) == RelayKey(e) && !Beats(e, x) {
      assert x in a + b;
    }
  }

  lemma ContentsShow(st: Store, e: Event)
    requires Holds(st, e) && Filed(st)
    ensures Seen(Contents(st), e)
  {
    var x := st[RelayKey(e)];
    assert x in Contents(st) && RelayKey(x) == RelayKey(e);
  }

  lemma ReadOpOk(c: Config, s: State, t: State, p: nat, op: Op, op': Op)
    requires op.Reading? && op.next < c.n == |s.stores| && Filed(s.stores[op.next]) && OpOk(c, s, p, op)
    requires t.stores == s.stores && t.trace == s.trace
    requires op' == Reading(op.filter, op.next + 1, op.complete + {op.next}, op.held + Contents(s.stores[op.next]),
            op.start)
    ensures OpOk(c, t, p, op')
  {
    forall e | AckedBefore(s.trace, op.start, e)
      ensures Promised(c, s.stores, op', e)
    {
      PromiseAfterRead(c, s.stores, op, op', e);
    }
  }

  lemma ReadRelayStep(c: Config, s: State, p: nat)
    requires Inv(c, s) && p in s.ops && s.ops[p].Reading? && s.ops[p].next < c.n
    ensures Inv(c, Next(c, s, ReadRelay(p, true)))
  {
    var op := s.ops[p];
    var t := Next(c, s, ReadRelay(p, true));
    ReadOpOk(c, s, t, p, op, t.ops[p]);
    OthersUntouched(c, s, t, p);
  }

  /** Changing one operation leaves the others as they were. */
  lemma OthersUntouched(c: Config, s: State, t: State, p: nat)
    requires Inv(c, s) && t.stores == s.stores && t.trace == s.trace && t.nextId == s.nextId
    requires p in s.ops && p in t.ops && t.ops == s.ops[p := t.ops[p]] && OpOk(c, t, p, t.ops[p])
    ensures Inv(c, t)
  {
    forall x | x in t.ops
      ensures x < t.nextId && OpOk(c, t, x, t.ops[x])
    {
      if x != p {
        assert OpOk(c, s, x, s.ops[x]);
      }
    }
  }

  lemma SkipOpOk(c: Config, s: State, t: State, p: nat, op: Op)
    requires op.Reading? && OpOk(c, s, p, op) && t.stores == s.stores && t.trace == s.trace
    ensures OpOk(c, t, p, Reading(op.filter, op.next + 1, op.complete, op.held, op.start))
  {
    forall e | Promised(c, s.stores, op, e)
      ensures Promised(c, s.stores, Reading(op.filter, op.next + 1, op.complete, op.held, op.start), e)
    {
      var quorum: set<nat> :| quorum <= Relays(c.n) && |quorum| >= c.q && AllHold(s.stores, quorum, e)
                              && (quorum * op.complete != {} ==> Seen(op.held, e));
    }
  }

  lemma SkipRelayStep(c: Config, s: State, p: nat)
    requires Inv(c, s) && p in s.ops && s.ops[p].Reading? && s.ops[p].next < c.n
    ensures Inv(c, Next(c, s, ReadRelay(p, false)))
  {
    var t := Next(c, s, ReadRelay(p, false));
    SkipOpOk(c, s, t, p, s.ops[p]);
    OthersUntouched(c, s, t, p);
  }

  /** A read that completed a quorum saw everything it was promised. */
  lemma PromiseKept(c: Config, stores: seq<Store>, op: Op, e: Event)
    requires c.Strict() && op.Reading? && op.complete <= Relays(c.n) && |op.complete| >= c.q
            && Promised(c, stores, op, e)
    ensures Seen(op.held, e)
  {
    var quorum: set<nat> :| quorum <= Relays(c.n) && |quorum| >= c.q && AllHold(stores, quorum, e)
                            && (quorum * op.complete != {} ==> Seen(op.held, e));
    var r := QuorumsIntersect(c.n, c.q, quorum, op.complete);
    assert r in quorum * op.complete;
  }

  lemma DoneIsFresh(c: Config, s: State, p: nat, op: Op)
    requires c.Strict() && op.Reading? && |op.complete| >= c.q && OpOk(c, s, p, op) && ReadsAreFresh(s.trace)
    ensures ReadsAreFresh(s.trace + [ReadDone(p, op.filter, op.held, Selected(op.filter, op.held))])
  {
    forall i, j | 0 <= i < j < |s.trace| && s.trace[i].Acked? && s.trace[j] == ReadStarted(p)
      ensures Seen(op.held, s.trace[i].event)
    {
      assert j == op.start && AckedBefore(s.trace, op.start, s.trace[i].event);
      PromiseKept(c, s.stores, op, s.trace[i].event);
    }
  }

  lemma FinishReadStep(c: Config, s: State, p: nat)
    requires c.Strict() && Inv(c, s) && p in s.ops && s.ops[p].Reading? && s.ops[p].next == c.n
    ensures Inv(c, Next(c, s, FinishRead(p)))
  {
    var op := s.ops[p];
    if |op.complete| >= c.q {
      var done := ReadDone(p, op.filter, op.held, Selected(op.filter, op.held));
      AllOpsSurvive(c, s, done);
      RecordKeepsDurable(c, s.stores, s.trace, done);
      DoneIsFresh(c, s, p, op);
    }
  }

  lemma StepKeepsInv(c: Config, s: State, a: Action)
    requires c.Strict() && Inv(c, s)
    ensures Inv(c, Next(c, s, a))
  {
    match a
    case StartPublish(e) =>
      var t := Next(c, s, a);
      assert forall x :: x in s.ops ==> OpOk(c, s, x, s.ops[x]) && OpOk(c, t, x, s.ops[x]);
    case Send(p, verdict) =>
      if p in s.ops && s.ops[p].Publishing? && s.ops[p].next < c.n {
        SendStep(c, s, p, verdict);
      }
    case FinishPublish(p) =>
      if p in s.ops && s.ops[p].Publishing? && s.ops[p].next == c.n {
        FinishPublishStep(c, s, p);
      }
    case Deliver(r, e) =>
      if r < c.n {
        StoresMoveUp(s.stores, r, e);
        InvMovesUp(c, s, s.stores[r := Offer(s.stores[r], e)]);
      }
    case StartRead(f) => StartReadStep(c, s, f);
    case ReadRelay(p, completes) =>
      if p in s.ops && s.ops[p].Reading? && s.ops[p].next < c.n {
        if completes {
          ReadRelayStep(c, s, p);
        } else {
          SkipRelayStep(c, s, p);
        }
      }
    case FinishRead(p) =>
      if p in s.ops && s.ops[p].Reading? && s.ops[p].next == c.n {
        FinishReadStep(c, s, p);
      }
  }

  lemma {:induction false} RunKeepsInv(c: Config, actions: seq<Action>)
    requires c.Strict()
    ensures Inv(c, Run(c, actions))
  {
    if actions != [] {
      RunKeepsInv(c, actions[..|actions| - 1]);
      StepKeepsInv(c, Run(c, actions[..|actions| - 1]), actions[|actions| - 1]);
    }
  }

  /** Every version the completing relays held that `e` does not beat is one the filter leaves out. */
  predicate LeftOut(f: RelayFilter, held: set<Event>, e: Event) {
    forall x :: x in held && RelayKey(x) == RelayKey(e) && !Beats(e, x) ==> !Matches(f, x)
  }

  /** Record `k` is the end of a quorum read that started after record `i` acknowledged an event. */
  predicate ReadAfterAck(trace: seq<Record>, i: nat, j: nat, k: nat) {
    && i < j < k < |trace| && trace[i].Acked? && trace[k].ReadDone?
    && trace[j] == ReadStarted(trace[k].op)
  }

  /**
   * Quorum freshness. In every run and for every filter, a successful quorum read that started after `e` was
   * acknowledged met `e` or a version it does not beat on some relay, and returns one if and only if the filter does
   * not leave them all out.
   */
  lemma QuorumReadsAreFresh(c: Config, actions: seq<Action>, i: nat, j: nat, k: nat)
    requires c.Strict() && ReadAfterAck(Run(c, actions).trace, i, j, k)
    ensures var trace := Run(c, actions).trace;
            && Seen(trace[k].held, trace[i].event)
            && (Seen(trace[k].result, trace[i].event) <==> !LeftOut(trace[k].filter, trace[k].held, trace[i].event))
  {
    RunKeepsInv(c, actions);
    var trace := Run(c, actions).trace;
    SelectedShows(trace[k].filter, trace[k].held, trace[i].event);
  }

  lemma SelectedShows(f: RelayFilter, held: set<Event>, e: Event)
    ensures Seen(Selected(f, held), e) <==> !LeftOut(f, held, e)
  {
    if x :| x in held && RelayKey(x) == RelayKey(e) && !Beats(e, x) && Matches(f, x) {
      assert x in Selected(f, held);
    }
  }

  /** A filter by author, kind and identifier: a version of a coordinate it wants is never left out. */
  predicate ByCoordinate(f: RelayFilter) { f.p.None? && (f.d.Some? ==> f.d.value != "") }

  predicate WantsKey(f: RelayFilter, k: Key) {
    k.kind == f.kind && (f.authors.Some? ==> k.author in f.authors.value) && (f.d.Some? ==> k.d == f.d.value)
  }

  lemma {:induction false} IdentifierIsATag(tags: seq<Tag>) returns (i: nat)
    requires Identifier(tags).Some?
    ensures i < |tags| && |tags[i]| >= 2 && tags[i][0] == "d" && tags[i][1] == Identifier(tags).value
  {
    if Named(tags[0], "d") && |tags[0]| >= 2 {
      i := 0;
    } else {
      var j := IdentifierIsATag(tags[1..]);
      i := j + 1;
    }
  }

  lemma CoordinateMatches(f: RelayFilter, x: Event)
    requires ByCoordinate(f) && WantsKey(f, RelayKey(x))
    ensures Matches(f, x)
  {
    if f.d.Some? {
      var i := IdentifierIsATag(x.draft.tags);
    }
  }

  /** Reads by author, kind and identifier always return `e` or a version it does not beat. */
  lemma CoordinateReadsAreFresh(c: Config, actions: seq<Action>, i: nat, j: nat, k: nat)
    requires c.Strict() && ReadAfterAck(Run(c, actions).trace, i, j, k)
    requires var trace := Run(c, actions).trace;
             ByCoordinate(trace[k].filter) && WantsKey(trace[k].filter, RelayKey(trace[i].event))
    ensures var trace := Run(c, actions).trace; Seen(trace[k].result, trace[i].event)
  {
    QuorumReadsAreFresh(c, actions, i, j, k);
    var trace := Run(c, actions).trace;
    var e := trace[i].event;
    var x :| x in trace[k].held && RelayKey(x) == RelayKey(e) && !Beats(e, x);
    CoordinateMatches(trace[k].filter, x);
  }

  /**
   * Membership reads also ask for the buyer's `p` tag. They return an acknowledged membership or a version it does not
   * beat whenever the versions the relays held of it are memberships of that buyer, as this program publishes them.
   */
  lemma MembershipReadsAreFresh(
    c: Config, actions: seq<Action>, i: nat, j: nat, k: nat, buyer: string, authors: set<string>)
    requires c.Strict() && ReadAfterAck(Run(c, actions).trace, i, j, k)
    requires var trace := Run(c, actions).trace;
             && trace[k].filter == MembershipFilter(buyer, authors) && trace[i].event.author in authors
             && forall x :: x in trace[k].held && RelayKey(x) == RelayKey(trace[i].event) ==> IsMembership(x, buyer)
    ensures var trace := Run(c, actions).trace; Seen(trace[k].result, trace[i].event)
  {
    QuorumReadsAreFresh(c, actions, i, j, k);
    var trace := Run(c, actions).trace;
    var e := trace[i].event;
    var x :| x in trace[k].held && RelayKey(x) == RelayKey(e) && !Beats(e, x);
    MembershipMatches(x, buyer, authors);
  }
}
