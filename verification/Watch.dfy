/**
 * The watch cycle and its checkpoint (crates/maxplayer-chat/src/network.rs): over every run of arrivals,
 * failed cycles, catch-ups and liveness probes, nothing behind the cursor is lost.
 */
module Watch {
  import opened Basics
  import opened Paging

  /** `receive_since`: the re-read overlap, in seconds. */
  const OVERLAP: nat := 240

  function ReceiveSince(t: nat): (since: nat)
    ensures since <= t
  {
    if t < OVERLAP then 0 else t - OVERLAP
  }

  /** An event at the relay and the second it arrived there. */
  datatype Arrival = Arrival(row: Row, at: nat)

  /** A history read under way: its window, its checkpoint, and what the relay held when it began. */
  datatype Reading = Reading(since: nat, checkpoint: nat, begun: set<Arrival>)

  /** What a read that proves its window complete hands over. */
  function Required(r: Reading): (rows: set<Row>) {
    set a | a in r.begun && r.since <= a.row.at <= r.checkpoint :: a.row
  }

  /**
   * `versioned` is false until a checkpoint of the current format has been written; `begun` is what the relay held when
   * the last finished read began.
   */
  datatype State = State(
    now: nat, relay: set<Arrival>, handed: set<Row>, cursor: nat, versioned: bool, begun: set<Arrival>,
    reading: Option<Reading>)

  datatype Action =
    | Tick
    | Arrive(row: Row)
    | Live(row: Row)
    | Begin
    | Fail(partial: set<Row>)
    | Finish

  function HistorySince(s: State): (since: nat) { if s.versioned then ReceiveSince(s.cursor) else 0 }

  function Init(): (s: State) { State(0, {}, {}, 0, false, {}, None) }

  /**
   * One step. A relay admits an event only if it is dated at most `admit` seconds before its arrival. A
   * catch-up or a probe takes its checkpoint from the clock, then reads; `Finish` is a read that proved its
   * history complete (the contract of `Paging.CatchUp`), `Fail` one that did not. The watch lock leaves one
   * read at a time.
   */
  function Next(admit: nat, s: State, a: Action): (t: State) {
    match a
    case Tick => s.(now := s.now + 1)
    case Arrive(row) => if row.at + admit >= s.now then s.(relay := s.relay + {Arrival(row, s.now)}) else s
    case Live(row) => s.(handed := s.handed + {row})
    case Begin => s.(reading := Some(Reading(HistorySince(s), s.now, s.relay)))
    case Fail(partial) => s.(handed := s.handed + partial, reading := None)
    case Finish =>
      if s.reading.None? then s
      else s.(handed := s.handed + Required(s.reading.value), cursor := s.reading.value.checkpoint,
              versioned := true, begun := s.reading.value.begun, reading := None)
  }

  function Run(admit: nat, actions: seq<Action>): (s: State) {
    if actions == [] then Init() else Next(admit, Run(admit, actions[..|actions| - 1]), actions[|actions| - 1])
  }

  /** Every arrival dated up to second `t` has been handed over. */
  predicate CoveredTo(arrivals: set<Arrival>, handed: set<Row>, t: nat) {
    forall a :: a in arrivals && a.row.at <= t ==> a.row in handed
  }

  /** The arrivals include all of the relay's from before second `t`. */
  predicate IncludesBefore(arrivals: set<Arrival>, relay: set<Arrival>, t: nat) {
    forall a :: a in relay && a.at < t ==> a in arrivals
  }

  predicate Inv(s: State) {
    && (forall a :: a in s.relay ==> a.at <= s.now && a.at <= a.row.at + OVERLAP)
    && s.cursor <= s.now && (!s.versioned ==> s.cursor == 0)
    && IncludesBefore(s.begun, s.relay, s.cursor) && CoveredTo(s.begun, s.handed, s.cursor)
    && (s.reading.Some? ==>
          var r := s.reading.value;
          && r.checkpoint <= s.now && IncludesBefore(r.begun, s.relay, r.checkpoint)
          && CoveredTo(r.begun, s.handed + Required(r), r.checkpoint))
  }

  /** What the new window leaves out, the old cursor already covered. */
  lemma WindowIsEnough(s: State)
    requires Inv(s)
    ensures var r := Reading(HistorySince(s), s.now, s.relay);
            IncludesBefore(r.begun, s.relay, r.checkpoint) && CoveredTo(r.begun, s.handed + Required(r), r.checkpoint)
  {
    var r := Reading(HistorySince(s), s.now, s.relay);
    forall a | a in s.relay && a.row.at <= s.now
      ensures a.row in s.handed + Required(r)
    {
      if a.row.at >= r.since {
        assert a.row in Required(r);
      } else {
        assert a.at < s.cursor && a in s.begun;
      }
    }
  }

  lemma StepKeepsInv(admit: nat, s: State, a: Action)
    requires admit <= OVERLAP && Inv(s)
    ensures Inv(Next(admit, s, a))
  {
    if a.Begin? {
      WindowIsEnough(s);
    }
  }

  /**
   * Every run keeps this: what the relay held when the last finished read began, dated up to its checkpoint, has been
   * handed over, and that is everything that arrived before the checkpoint's second.
   */
  lemma {:induction false} RunKeepsInv(admit: nat, actions: seq<Action>)
    requires admit <= OVERLAP
    ensures Inv(Run(admit, actions))
  {
    if actions != [] {
      RunKeepsInv(admit, actions[..|actions| - 1]);
      StepKeepsInv(admit, Run(admit, actions[..|actions| - 1]), actions[|actions| - 1]);
    }
  }

  /**
   * Some message that was at the relay when the last finished read began, and is not dated after its checkpoint,
   * was never handed over.
   */
  predicate Loses(s: State) { !CoveredTo(s.begun, s.handed, s.cursor) }

  /**
   * A read that succeeds hands over every message that was at the relay when it began and is not dated after its
   * checkpoint.
   */
  lemma NextReadDelivers(admit: nat, actions: seq<Action>, a: Arrival)
    requires admit <= OVERLAP && Run(admit, actions).reading.Some?
    requires a in Run(admit, actions).reading.value.begun && a.row.at <= Run(admit, actions).reading.value.checkpoint
    ensures a.row in Run(admit, actions + [Finish]).handed
  {
    RunKeepsInv(admit, actions);
    assert (actions + [Finish])[..|actions|] == actions;
  }

  /**
   * A message at or before the cursor, in arrival and in date, that was not handed over arrived in the cursor's own
   * second and after the read of that checkpoint had begun.
   */
  lemma OnlySameSecondWaits(admit: nat, actions: seq<Action>, a: Arrival)
    requires admit <= OVERLAP && a in Run(admit, actions).relay
    requires a.at <= Run(admit, actions).cursor && a.row.at <= Run(admit, actions).cursor
    requires a.row !in Run(admit, actions).handed
    ensures a.at == Run(admit, actions).cursor && a !in Run(admit, actions).begun
  {
    RunKeepsInv(admit, actions);
  }

  lemma {:induction false} RunConcat(admit: nat, past: seq<Action>, more: seq<Action>)
    ensures Run(admit, past + more) == RunFrom(admit, Run(admit, past), more)
  {
    if more == [] {
      assert past + more == past;
    } else {
      var n := |more| - 1;
      assert (past + more)[..|past + more| - 1] == past + more[..n];
      RunConcat(admit, past, more[..n]);
    }
  }

  function RunFrom(admit: nat, s: State, actions: seq<Action>): (t: State) {
    if actions == [] then s else Next(admit, RunFrom(admit, s, actions[..|actions| - 1]), actions[|actions| - 1])
  }

  lemma Two(admit: nat, s: State, a: Action, b: Action)
    ensures RunFrom(admit, s, [a, b]) == Next(admit, Next(admit, s, a), b)
  {
    assert [a, b][..1] == [a] && [a][..0] == [];
    assert RunFrom(admit, s, [a]) == Next(admit, RunFrom(admit, s, []), a);
  }

  lemma {:induction false} Waiting(admit: nat, n: nat)
    ensures Run(admit, seq(n, _ => Tick)) == Init().(now := n)
  {
    if n > 0 {
      Waiting(admit, n - 1);
      assert seq(n, _ => Tick)[..n - 1] == seq(n - 1, _ => Tick);
    }
  }

  /** A relay that admits events dated further back than the overlap can have one slip behind the window. */
  lemma LateAdmissionLoses(admit: nat, row: Row)
    requires admit > OVERLAP && row.at == 0
    ensures exists actions :: Loses(Run(admit, actions))
  {
    var first := FirstCheckpoint(admit);
    var s := Init().(now := admit, cursor := admit, versioned := true);
    RunConcat(admit, first, [Arrive(row), Tick] + [Begin, Finish]);
    Four(admit, s, Arrive(row), Tick, Begin, Finish);
    SlipsBehind(admit, row, s);
  }

  lemma FirstCheckpoint(admit: nat) returns (actions: seq<Action>)
    ensures Run(admit, actions) == Init().(now := admit, cursor := admit, versioned := true)
  {
    var wait := seq(admit, _ => Tick);
    Waiting(admit, admit);
    RunConcat(admit, wait, [Begin, Finish]);
    Two(admit, Run(admit, wait), Begin, Finish);
    actions := wait + [Begin, Finish];
  }

  lemma OneMore(admit: nat, s: State, actions: seq<Action>, a: Action)
    ensures RunFrom(admit, s, actions + [a]) == Next(admit, RunFrom(admit, s, actions), a)
  {
    assert (actions + [a])[..|actions|] == actions;
  }

  lemma Four(admit: nat, s: State, a: Action, b: Action, c: Action, d: Action)
    ensures RunFrom(admit, s, [a, b] + [c, d]) == Next(admit, Next(admit, Next(admit, Next(admit, s, a), b), c), d)
  {
    Two(admit, s, a, b);
    OneMore(admit, s, [a, b], c);
    OneMore(admit, s, [a, b] + [c], d);
    assert [a, b] + [c, d] == [a, b] + [c] + [d];
  }

  /** An event dated 0 that arrives after the checkpoint at `admit` is behind the next window. */
  lemma SlipsBehind(admit: nat, row: Row, s: State)
    requires admit > OVERLAP && row.at == 0 && s == Init().(now := admit, cursor := admit, versioned := true)
    ensures Loses(Next(admit, Next(admit, Next(admit, Next(admit, s, Arrive(row)), Tick), Begin), Finish))
  {
    var t := Next(admit, Next(admit, s, Arrive(row)), Tick);
    assert t.relay == {Arrival(row, admit)} && HistorySince(t) == admit - OVERLAP;
    var last := Next(admit, Next(admit, t, Begin), Finish);
    assert Arrival(row, admit) in last.begun && row !in last.handed;
  }

  /**
   * No message is lost across reconnects, in any run, exactly when the relay admits nothing dated further
   * back than the re-read overlap.
   */
  lemma NothingIsLostExactly(admit: nat)
    ensures (forall actions :: !Loses(Run(admit, actions))) <==> admit <= OVERLAP
  {
    if admit <= OVERLAP {
      forall actions
        ensures !Loses(Run(admit, actions))
      {
        RunKeepsInv(admit, actions);
      }
    } else {
      LateAdmissionLoses(admit, Row("", 0));
    }
  }

  /** Such an arrival exists: in the checkpoint's second, after the pages were read. */
  lemma SameSecondArrivalWaits(admit: nat, row: Row)
    requires row.at == 0
    ensures exists actions, a :: a in Run(admit, actions).relay && a.at <= Run(admit, actions).cursor
              && a.row.at <= Run(admit, actions).cursor && a.row !in Run(admit, actions).handed
  {
    assert [Begin][..0] == [] && Run(admit, [Begin]) == Next(admit, Init(), Begin);
    RunConcat(admit, [Begin], [Arrive(row), Finish]);
    Two(admit, Run(admit, [Begin]), Arrive(row), Finish);
    assert Arrival(row, 0) in Run(admit, [Begin] + [Arrive(row), Finish]).relay;
  }
}
