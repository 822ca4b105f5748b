/** A quorum read whose filter leaves an acknowledged membership out (crates/maxplayer-challenges/src/cli.rs). */
module FilteredRead {
  import opened Basics
  import opened Drafts
  import opened Latest
  import opened Roster
  import opened Runs
  import opened Quorum

  /** One relay, which is a quorum. */
  const ONE := Config(1, 1)

  lemma RunOneMore(actions: seq<Action>, a: Action)
    ensures Run(ONE, actions + [a]) == Next(ONE, Run(ONE, actions), a)
  {
    assert (actions + [a])[..|actions|] == actions;
  }

  function PublishIt(e: Event): (actions: seq<Action>) { [StartPublish(e)] + [Send(0, Accepted)] + [FinishPublish(0)] }

  lemma Published(e: Event)
    ensures Run(ONE, PublishIt(e)) == State([map[RelayKey(e) := e]], map[], 1, [Acked(e)])
  {
    RunOneMore([], StartPublish(e));
    assert [] + [StartPublish(e)] == [StartPublish(e)];
    RunOneMore([StartPublish(e)], Send(0, Accepted));
    RunOneMore([StartPublish(e)] + [Send(0, Accepted)], FinishPublish(0));
    assert Run(ONE, []) == State([map[]], map[], 0, []);
    assert Run(ONE, [StartPublish(e)]) == State([map[]], map[0 := Publishing(e, 0, {})], 1, []);
    assert Run(ONE, [StartPublish(e)] + [Send(0, Accepted)])
        == State([map[RelayKey(e) := e]], map[0 := Publishing(e, 1, {0})], 1, []);
  }

  /** The newer version reaches the relay, then the filter is read. */
  function ReplaceAndRead(e: Event, newer: Event, f: RelayFilter): (actions: seq<Action>) {
    PublishIt(e) + [Deliver(0, newer)] + [StartRead(f)] + [ReadRelay(1, true)] + [FinishRead(1)]
  }

  lemma Replaced(e: Event, newer: Event)
    requires RelayKey(newer) == RelayKey(e) && Beats(newer, e)
    ensures Run(ONE, PublishIt(e) + [Deliver(0, newer)]) == State([map[RelayKey(e) := newer]], map[], 1, [Acked(e)])
  {
    Published(e);
    RunOneMore(PublishIt(e), Deliver(0, newer));
    assert map[RelayKey(e) := e][RelayKey(e) := newer] == map[RelayKey(e) := newer];
  }

  lemma OnlyContent(k: Key, e: Event)
    ensures Contents(map[k := e]) == {e}
  {
    var st := map[k := e];
    assert k in st && st[k] == e;
  }

  lemma ReadsOne(s: State, k: Key, e: Event, newer: Event, f: RelayFilter)
    requires s == State([map[k := newer]], map[], 1, [Acked(e)])
    ensures Next(ONE, Next(ONE, Next(ONE, s, StartRead(f)), ReadRelay(1, true)), FinishRead(1)).trace
         == [Acked(e), ReadStarted(1), ReadDone(1, f, {newer}, Selected(f, {newer}))]
  {
    var a := Next(ONE, s, StartRead(f));
    assert a.ops == map[1 := Reading(f, 0, {}, {}, 1)] && a.trace == [Acked(e), ReadStarted(1)];
    assert a.stores == [map[k := newer]] && 1 in a.ops && a.ops[1] == Reading(f, 0, {}, {}, 1);
    var b := Next(ONE, a, ReadRelay(1, true));
    OnlyContent(k, newer);
    assert {} + {0} == {0} && {} + {newer} == {newer};
    assert 1 in b.ops && b.ops[1] == Reading(f, 1, {0}, {newer}, 1) && |{0}| == 1;
  }

  lemma ReadAfterReplacement(e: Event, newer: Event, f: RelayFilter)
    requires RelayKey(newer) == RelayKey(e) && Beats(newer, e)
    ensures Run(ONE, ReplaceAndRead(e, newer, f)).trace
         == [Acked(e), ReadStarted(1), ReadDone(1, f, {newer}, Selected(f, {newer}))]
  {
    var a := PublishIt(e) + [Deliver(0, newer)];
    Replaced(e, newer);
    RunOneMore(a, StartRead(f));
    RunOneMore(a + [StartRead(f)], ReadRelay(1, true));
    RunOneMore(a + [StartRead(f)] + [ReadRelay(1, true)], FinishRead(1));
    ReadsOne(Run(ONE, a), RelayKey(e), e, newer, f);
  }

  /** A version of a membership's coordinate that carries no `p` tag. */
  function Untagged(e: Event, buyer: string, id: string, at: u64): (x: Event) {
    Event(id, e.author, at, Draft(MEMBERSHIP_KIND, [["d", buyer]], ""))
  }

  lemma UntaggedIsLeftOut(e: Event, buyer: string, id: string, at: u64, authors: set<string>)
    requires IsMembership(e, buyer)
    ensures RelayKey(Untagged(e, buyer, id, at)) == RelayKey(e)
    ensures !Matches(MembershipFilter(buyer, authors), Untagged(e, buyer, id, at))
  {
    KeyIsIdentifier(e.draft);
    var x := Untagged(e, buyer, id, at);
    assert x.draft.tags[0][0] == "d" && Identifier(x.draft.tags) == Some(buyer);
  }

  /**
   * An acknowledged membership that the membership reads ask for is not returned, nor any later version, once a newer
   * version without the `p` tag has replaced it.
   */
  lemma UntaggedHidesMembership(e: Event, buyer: string, id: string, at: u64)
    requires IsMembership(e, buyer) && at > e.createdAt
    ensures var f := MembershipFilter(buyer, {e.author});
            var trace := Run(ONE, ReplaceAndRead(e, Untagged(e, buyer, id, at), f)).trace;
            && Matches(f, e) && ReadAfterAck(trace, 0, 1, 2) && trace[0] == Acked(e) && trace[2].filter == f
            && !Seen(trace[2].result, e) && LeftOut(f, trace[2].held, e)
  {
    var f, newer := MembershipFilter(buyer, {e.author}), Untagged(e, buyer, id, at);
    MembershipMatches(e, buyer, {e.author});
    UntaggedIsLeftOut(e, buyer, id, at, {e.author});
    ReadAfterReplacement(e, newer, f);
    assert Selected(f, {newer}) == {};
  }
}
