/** One operation run alone: the steps of the protocol add up to the relay client's publish and read. */
module Sequential {
  import opened Basics
  import opened Latest
  import opened Roster
  import opened Runs
  import opened Quorum
  import Publishing

  function Steps(c: Config, s: State, actions: seq<Action>): (t: State)
    requires |s.stores| == c.n
    ensures |t.stores| == c.n
  {
    if actions == [] then s
    else Next(c, Steps(c, s, actions[..|actions| - 1]), actions[|actions| - 1])
  }

  lemma OneMore(c: Config, s: State, actions: seq<Action>, a: Action)
    requires |s.stores| == c.n
    ensures Steps(c, s, actions + [a]) == Next(c, Steps(c, s, actions), a)
  {
    assert (actions + [a])[..|actions|] == actions;
  }

  /** The next operation's id is not in use. */
  predicate FreshId(s: State) { s.nextId !in s.ops }

  /** So it is in every run. */
  lemma IdsAreFresh(c: Config, past: seq<Action>)
    requires c.Strict()
    ensures FreshId(Run(c, past))
  {
    RunKeepsInv(c, past);
  }

  // ---- A publish ----

  function Sends(p: nat, verdicts: seq<Verdict>): (actions: seq<Action>) {
    seq(|verdicts|, i requires 0 <= i < |verdicts| => Send(p, verdicts[i]))
  }

  /** The first `k` relays after their sends. */
  function SentTo(stores: seq<Store>, verdicts: seq<Verdict>, e: Event, k: nat): (r: seq<Store>)
    requires k <= |verdicts| == |stores|
    ensures |r| == |stores|
  {
    seq(|stores|, i requires 0 <= i < |stores| =>
      if i < k && Publishing.Reaches(verdicts[i]) then Offer(stores[i], e) else stores[i])
  }

  function AcceptedBelow(verdicts: seq<Verdict>, k: nat): (r: set<nat>)
    requires k <= |verdicts|
  {
    set i: nat | i < k && verdicts[i].Accepted?
  }

  /** The state after the first `k` sends. */
  function MidSend(s: State, e: Event, verdicts: seq<Verdict>, k: nat): (t: State)
    requires k <= |verdicts| == |s.stores|
  {
    State(SentTo(s.stores, verdicts, e, k),
          s.ops[s.nextId := Op.Publishing(e, k, AcceptedBelow(verdicts, k))], s.nextId + 1, s.trace)
  }

  lemma PublishStarts(c: Config, s: State, e: Event, verdicts: seq<Verdict>)
    requires |s.stores| == c.n == |verdicts|
    ensures Steps(c, s, [StartPublish(e)] + Sends(s.nextId, verdicts[..0])) == MidSend(s, e, verdicts, 0)
  {
    OneMore(c, s, [], StartPublish(e));
    assert [] + [StartPublish(e)] == [StartPublish(e)] == [StartPublish(e)] + Sends(s.nextId, verdicts[..0]);
    assert SentTo(s.stores, verdicts, e, 0) == s.stores && AcceptedBelow(verdicts, 0) == {};
  }

  lemma OneSendLater(c: Config, s: State, e: Event, verdicts: seq<Verdict>, k: nat)
    requires |s.stores| == c.n == |verdicts| && 0 < k <= c.n
    ensures Steps(c, s, [StartPublish(e)] + Sends(s.nextId, verdicts[..k]))
         == Next(c, Steps(c, s, [StartPublish(e)] + Sends(s.nextId, verdicts[..k - 1])),
                 Send(s.nextId, verdicts[k - 1]))
  {
    var before := [StartPublish(e)] + Sends(s.nextId, verdicts[..k - 1]);
    assert [StartPublish(e)] + Sends(s.nextId, verdicts[..k]) == before + [Send(s.nextId, verdicts[k - 1])];
    OneMore(c, s, before, Send(s.nextId, verdicts[k - 1]));
  }

  lemma {:induction false} SendsRun(c: Config, s: State, e: Event, verdicts: seq<Verdict>, k: nat)
    requires |s.stores| == c.n == |verdicts| && k <= c.n
    ensures Steps(c, s, [StartPublish(e)] + Sends(s.nextId, verdicts[..k])) == MidSend(s, e, verdicts, k)
  {
    if k == 0 {
      PublishStarts(c, s, e, verdicts);
    } else {
      SendsRun(c, s, e, verdicts, k - 1);
      OneSendLater(c, s, e, verdicts, k);
      SendStep(c, s, e, verdicts, k - 1);
    }
  }

  lemma SendStep(c: Config, s: State, e: Event, verdicts: seq<Verdict>, k: nat)
    requires |s.stores| == c.n == |verdicts| && k < c.n
    ensures Next(c, MidSend(s, e, verdicts, k), Send(s.nextId, verdicts[k])) == MidSend(s, e, verdicts, k + 1)
  {
    OneSendMore(s.stores, verdicts, e, k);
    SetTwice(s.ops, s.nextId, Op.Publishing(e, k, AcceptedBelow(verdicts, k)),
        Op.Publishing(e, k + 1, AcceptedBelow(verdicts, k + 1)));
  }

  lemma OneSendMore(stores: seq<Store>, verdicts: seq<Verdict>, e: Event, k: nat)
    requires k < |verdicts| == |stores|
    ensures var before := SentTo(stores, verdicts, e, k);
            SentTo(stores, verdicts, e, k + 1)
            == if Publishing.Reaches(verdicts[k]) then before[k := Offer(before[k], e)] else before
    ensures AcceptedBelow(verdicts, k + 1)
         == if verdicts[k].Accepted? then AcceptedBelow(verdicts, k) + {k} else AcceptedBelow(verdicts, k)
  {
  }

  function PublishSteps(p: nat, e: Event, verdicts: seq<Verdict>): (actions: seq<Action>) {
    [StartPublish(e)] + Sends(p, verdicts) + [FinishPublish(p)]
  }

  /**
   * A publish run alone leaves on the relays what the client's publish does, whatever the verdicts, and is acknowledged
   * if and only if a quorum accepted it.
   */
  lemma PublishRuns(c: Config, s: State, e: Event, verdicts: seq<Verdict>)
    requires |s.stores| == c.n == |verdicts| && FreshId(s)
    ensures var t := Steps(c, s, PublishSteps(s.nextId, e, verdicts));
            && t.stores == Publishing.SendAll(s.stores, verdicts, e) && t.ops == s.ops
            && t.trace == if |Publishing.AcceptedBy(verdicts)| >= c.q then s.trace + [Acked(e)] else s.trace
  {
    assert verdicts[..c.n] == verdicts;
    SendsRun(c, s, e, verdicts, c.n);
    AllSent(s.stores, verdicts, e);
    var sent := [StartPublish(e)] + Sends(s.nextId, verdicts);
    OneMore(c, s, sent, FinishPublish(s.nextId));
    PublishFinishes(c, Steps(c, s, sent), s.ops, s.nextId, Op.Publishing(e, c.n, AcceptedBelow(verdicts, c.n)));
  }

  lemma AllSent(stores: seq<Store>, verdicts: seq<Verdict>, e: Event)
    requires |stores| == |verdicts|
    ensures SentTo(stores, verdicts, e, |stores|) == Publishing.SendAll(stores, verdicts, e)
    ensures AcceptedBelow(verdicts, |stores|) == Publishing.AcceptedBy(verdicts)
  {
  }

  lemma PublishFinishes(c: Config, t: State, others: map<nat, Op>, p: nat, op: Op)
    requires |t.stores| == c.n && p !in others && t.ops == others[p := op] && op.Publishing? && op.next == c.n
    ensures var u := Next(c, t, FinishPublish(p));
            && u.stores == t.stores && u.ops == others
            && u.trace == if |op.accepted| >= c.q then t.trace + [Acked(op.event)] else t.trace
  {
    assert others[p := op] - {p} == others;
  }

  // ---- A read ----

  function Reads(p: nat, complete: set<nat>, k: nat): (actions: seq<Action>) {
    seq(k, i => ReadRelay(p, i in complete))
  }

  /** What the completed relays below `k` hold. */
  function HeldBelow(stores: seq<Store>, complete: set<nat>, k: nat): (r: set<Event>)
    requires k <= |stores|
    ensures forall e :: e in r <==> exists i :: 0 <= i < k && i in complete && e in Contents(stores[i])
  {
    if k == 0 then {}
    else HeldBelow(stores, complete, k - 1) + if k - 1 in complete then Contents(stores[k - 1]) else {}
  }

  function CompleteBelow(complete: set<nat>, k: nat): (r: set<nat>) { set i | i in complete && i < k }

  /** The read after `k` relays. */
  function ReadOp(s: State, f: RelayFilter, complete: set<nat>, k: nat): (op: Op)
    requires k <= |s.stores|
  {
    Reading(f, k, CompleteBelow(complete, k), HeldBelow(s.stores, complete, k), |s.trace|)
  }

  function Midway(s: State, op: Op): (t: State) {
    State(s.stores, s.ops[s.nextId := op], s.nextId + 1, s.trace + [ReadStarted(s.nextId)])
  }

  lemma ReadStarts(c: Config, s: State, f: RelayFilter, complete: set<nat>)
    requires |s.stores| == c.n
    ensures Steps(c, s, [StartRead(f)] + Reads(s.nextId, complete, 0)) == Midway(s, ReadOp(s, f, complete, 0))
  {
    OneMore(c, s, [], StartRead(f));
    assert [] + [StartRead(f)] == [StartRead(f)] == [StartRead(f)] + Reads(s.nextId, complete, 0);
    assert CompleteBelow(complete, 0) == {};
  }

  lemma OneReadMore(c: Config, s: State, f: RelayFilter, complete: set<nat>, k: nat)
    requires |s.stores| == c.n && 0 < k <= c.n
    ensures Steps(c, s, [StartRead(f)] + Reads(s.nextId, complete, k))
         == Next(c, Steps(c, s, [StartRead(f)] + Reads(s.nextId, complete, k - 1)),
                 ReadRelay(s.nextId, k - 1 in complete))
  {
    var before := [StartRead(f)] + Reads(s.nextId, complete, k - 1);
    assert [StartRead(f)] + Reads(s.nextId, complete, k) == before + [ReadRelay(s.nextId, k - 1 in complete)];
    OneMore(c, s, before, ReadRelay(s.nextId, k - 1 in complete));
  }

  lemma {:induction false} ReadsRun(c: Config, s: State, f: RelayFilter, complete: set<nat>, k: nat)
    requires |s.stores| == c.n && k <= c.n
    ensures Steps(c, s, [StartRead(f)] + Reads(s.nextId, complete, k)) == Midway(s, ReadOp(s, f, complete, k))
  {
    if k == 0 {
      ReadStarts(c, s, f, complete);
    } else {
      ReadsRun(c, s, f, complete, k - 1);
      OneReadMore(c, s, f, complete, k);
      ReadOpNext(s, f, complete, k - 1);
      ReadStep(c, s, ReadOp(s, f, complete, k - 1), k - 1 in complete);
    }
  }

  /** The operation after one more relay. */
  function OpNext(s: State, op: Op, completes: bool): (r: Op)
    requires op.Reading? && op.next < |s.stores|
  {
    if completes
    then Reading(op.filter, op.next + 1, op.complete + {op.next}, op.held + Contents(s.stores[op.next]), op.start)
    else Reading(op.filter, op.next + 1, op.complete, op.held, op.start)
  }

  lemma ReadOpNext(s: State, f: RelayFilter, complete: set<nat>, k: nat)
    requires k < |s.stores|
    ensures OpNext(s, ReadOp(s, f, complete, k), k in complete) == ReadOp(s, f, complete, k + 1)
  {
    assert CompleteBelow(complete, k + 1)
        == if k in complete then CompleteBelow(complete, k) + {k} else CompleteBelow(complete, k);
    var held := HeldBelow(s.stores, complete, k);
    assert HeldBelow(s.stores, complete, k + 1) == if k in complete then held + Contents(s.stores[k]) else held;
  }

  lemma ReadStep(c: Config, s: State, op: Op, completes: bool)
    requires |s.stores| == c.n && op.Reading? && op.next < c.n
    ensures Next(c, Midway(s, op), ReadRelay(s.nextId, completes)) == Midway(s, OpNext(s, op, completes))
  {
    SetTwice(s.ops, s.nextId, op, OpNext(s, op, completes));
  }

  lemma SetTwice<K, V>(m: map<K, V>, k: K, a: V, b: V)
    ensures m[k := a][k := b] == m[k := b]
  {
  }

  function ReadSteps(p: nat, f: RelayFilter, complete: set<nat>, n: nat): (actions: seq<Action>) {
    [StartRead(f)] + Reads(p, complete, n) + [FinishRead(p)]
  }

  /**
   * A read run alone answers if and only if a quorum completed, with every event that a completed relay holds and the
   * filter wants, and changes no relay.
   */
  lemma ReadRuns(c: Config, s: State, f: RelayFilter, complete: set<nat>)
    requires |s.stores| == c.n && FreshId(s) && complete <= Relays(c.n)
    ensures var t, held := Steps(c, s, ReadSteps(s.nextId, f, complete, c.n)), HeldBelow(s.stores, complete, c.n);
            && t.stores == s.stores && t.ops == s.ops
            && t.trace == s.trace + [ReadStarted(s.nextId)]
                          + if |complete| >= c.q then [ReadDone(s.nextId, f, held, Selected(f, held))] else []
  {
    ReadsRun(c, s, f, complete, c.n);
    assert CompleteBelow(complete, c.n) == complete;
    var read := [StartRead(f)] + Reads(s.nextId, complete, c.n);
    OneMore(c, s, read, FinishRead(s.nextId));
    ReadFinishes(c, Steps(c, s, read), s.ops, s.nextId,
        Reading(f, c.n, complete, HeldBelow(s.stores, complete, c.n), |s.trace|));
  }

  lemma ReadFinishes(c: Config, t: State, others: map<nat, Op>, p: nat, op: Op)
    requires |t.stores| == c.n && p !in others && t.ops == others[p := op] && op.Reading? && op.next == c.n
    ensures var u := Next(c, t, FinishRead(p));
            && u.stores == t.stores && u.ops == others
            && u.trace == t.trace + if |op.complete| >= c.q
                                    then [ReadDone(p, op.filter, op.held, Selected(op.filter, op.held))] else []
  {
    assert others[p := op] - {p} == others;
  }
}
