/**
 * History readers. `read_relay` (crates/maxplayer-challenges/src/relay.rs) walks pages of one size with a
 * page cap; `catch_up` (crates/maxplayer-chat/src/network.rs) walks pages of two sizes.
 */
module Paging {
  import opened Basics

  /** A stored event, as far as paging is concerned. */
  datatype Row = Row(id: string, at: u64)

  // ---- One page, counted on raw frames ----

  /** An EVENT frame: a verified event of the requested window, or anything else the relay spent its limit on. */
  datatype Frame = Match(row: Row) | Junk

  function Rows(frames: seq<Frame>): (r: set<Row>) { set f | f in frames && f.Match? :: f.row }

  /** The oldest matching date, kept while the frames arrive. */
  function Oldest(frames: seq<Frame>): (r: Option<u64>) {
    if frames == [] then None
    else
      var before := Oldest(frames[..|frames| - 1]);
      var f := frames[|frames| - 1];
      if f.Match? && (before.None? || f.row.at < before.value) then Some(f.row.at) else before
  }

  lemma {:induction false} OldestMeaning(frames: seq<Frame>)
    ensures Oldest(frames).None? <==> Rows(frames) == {}
    ensures Oldest(frames).Some? ==> exists x :: x in Rows(frames) && x.at == Oldest(frames).value
    ensures forall x :: x in Rows(frames) ==> Oldest(frames).Some? && Oldest(frames).value <= x.at
  {
    if frames != [] {
      var n := |frames| - 1;
      OldestMeaning(frames[..n]);
      assert frames == frames[..n] + [frames[n]];
      assert Rows(frames) == Rows(frames[..n]) + if frames[n].Match? then {frames[n].row} else {};
      assert frames[n].Match? ==> frames[n].row in Rows(frames);
    }
  }

  /** `FrameCounter` for one subscription: every frame is counted, matching ones move the oldest date. */
  class FrameCounter {
    var frames: nat
    var oldest: Option<u64>
    ghost var seen: seq<Frame>

    ghost predicate Valid() reads this { frames == |seen| && oldest == Oldest(seen) }

    constructor ()
      ensures Valid() && seen == []
    {
      frames, oldest, seen := 0, None, [];
    }

    method Observe(f: Frame)
      requires Valid()
      modifies this
      ensures Valid() && seen == old(seen) + [f]
    {
      frames := frames + 1;
      if f.Match? && (oldest.None? || f.row.at < oldest.value) {
        oldest := Some(f.row.at);
      }
      seen := seen + [f];
      assert seen[..|seen| - 1] == old(seen);
    }
  }

  /** What the SDK hands over: matching rows it does not drop, each the first time only. */
  function Delivered(frames: seq<Frame>, dropped: set<Row>, got: seq<Row>): (r: seq<Row>) {
    if frames == [] then got
    else
      var before := Delivered(frames[..|frames| - 1], dropped, got);
      var f := frames[|frames| - 1];
      if f.Match? && f.row !in dropped && f.row !in before then before + [f.row] else before
  }

  lemma {:induction false} DeliveredMeaning(frames: seq<Frame>, dropped: set<Row>, got: seq<Row>)
    ensures forall x :: x in Delivered(frames, dropped, got) <==> x in got || (x in Rows(frames) && x !in dropped)
    ensures NoRepeats(got) ==> NoRepeats(Delivered(frames, dropped, got))
  {
    if frames != [] {
      var n := |frames| - 1;
      DeliveredMeaning(frames[..n], dropped, got);
      assert frames == frames[..n] + [frames[n]];
      assert Rows(frames) == Rows(frames[..n]) + if frames[n].Match? then {frames[n].row} else {};
    }
  }

  predicate NoRepeats<T(==)>(s: seq<T>) { forall i, j :: 0 <= i < j < |s| ==> s[i] != s[j] }

  method ReadPage(frames: seq<Frame>, dropped: set<Row>, got: seq<Row>)
    returns (rows: seq<Row>, received: nat, oldest: Option<u64>)
    ensures rows == Delivered(frames, dropped, got) && received == |frames| && oldest == Oldest(frames)
  {
    rows := got;
    var counter := new FrameCounter();
    for i := 0 to |frames|
      invariant counter.Valid() && counter.seen == frames[..i] && fresh(counter)
      invariant rows == Delivered(frames[..i], dropped, got)
    {
      assert frames[..i + 1][..i] == frames[..i] && frames[..i + 1][i] == frames[i];
      counter.Observe(frames[i]);
      if frames[i].Match? && frames[i].row !in dropped && frames[i].row !in rows {
        rows := rows + [frames[i].row];
      }
    }
    assert frames[..|frames|] == frames;
    received, oldest := counter.frames, counter.oldest;
  }

  // ---- An honest relay ----

  predicate InWindow(x: Row, until: Option<u64>) { until.Some? ==> x.at <= until.value }

  /**
   * A relay holding `held` answers newest first with inclusive `until`: it sends only rows it holds, and a
   * row of the window it left out means a full page of rows at least as new.
   */
  predicate Honest(held: set<Row>, until: Option<u64>, limit: nat, frames: seq<Frame>) {
    && (forall x :: x in Rows(frames) ==> x in held && InWindow(x, until))
    && (forall x :: x in held && InWindow(x, until) && x !in Rows(frames) ==>
          |frames| >= limit && forall y :: y in Rows(frames) ==> y.at >= x.at)
  }

  /** The relay's answer to each cursor; None is a failed page. Every cursor is asked for at most once. */
  type Pages = Option<u64> -> Option<seq<Frame>>

  function PageAt(pages: Pages, until: Option<u64>): (frames: seq<Frame>) {
    if pages(until).Some? then pages(until).value else []
  }

  predicate HonestAt(held: set<Row>, limit: nat, pages: Pages, until: Option<u64>) {
    pages(until).Some? ==> Honest(held, until, limit, PageAt(pages, until))
  }

  ghost predicate HonestPages(held: set<Row>, limit: nat, pages: Pages) {
    forall until :: HonestAt(held, limit, pages, until)
  }

  const PAGE_LIMIT: nat := 500
  const MAX_TRUSTED_PAGES: nat := 20

  datatype ReadError = PageFailed | NoInRangeEvent | SecondSaturated | PageCap

  datatype ReadEnd = ReadEnd(rows: seq<Row>, pages: nat, full: bool)

  /** Everything newer than the cursor has been received, and nothing but held rows is returned. */
  predicate Covered(held: set<Row>, dropped: set<Row>, until: Option<u64>, rows: seq<Row>) {
    && NoRepeats(rows) && SeqSet(rows) <= held - dropped
    && forall x :: x in held && !InWindow(x, until) && x !in dropped ==> x in rows
  }

  /** A short page ends the history; a full one covers it down to the oldest row it showed. */
  lemma PageCovers(
    held: set<Row>, dropped: set<Row>, until: Option<u64>, limit: nat, frames: seq<Frame>, got: seq<Row>,
        rows: seq<Row>)
    requires Honest(held, until, limit, frames) && Covered(held, dropped, until, got)
    requires rows == Delivered(frames, dropped, got)
    ensures NoRepeats(rows) && SeqSet(rows) <= held - dropped
    ensures |frames| < limit ==> SeqSet(rows) == held - dropped
    ensures Oldest(frames).Some? ==> Covered(held, dropped, Oldest(frames), rows)
  {
    OldestMeaning(frames);
    DeliveredMeaning(frames, dropped, got);
    if Oldest(frames).Some? {
      var y :| y in Rows(frames) && y.at == Oldest(frames).value;
      assert forall x :: x in held && InWindow(x, until) && !InWindow(x, Oldest(frames)) ==> x in Rows(frames);
    }
  }

  /** The cursor of page `i`: none for the first page, then the oldest second of the page before. */
  function Cursor(cursors: seq<u64>, i: nat): (until: Option<u64>)
    requires i <= |cursors|
  {
    if i == 0 then None else Some(cursors[i - 1])
  }

  predicate FullAt(pages: Pages, limit: nat, until: Option<u64>) {
    pages(until).Some? && |PageAt(pages, until)| >= limit
  }

  /** Each cursor is the oldest second of the full page before it. */
  predicate Chain(pages: Pages, limit: nat, cursors: seq<u64>) {
    forall i :: 0 <= i < |cursors| ==> LinkAt(pages, limit, cursors, i)
  }

  predicate LinkAt(pages: Pages, limit: nat, cursors: seq<u64>, i: int)
    requires 0 <= i < |cursors|
  {
    FullAt(pages, limit, Cursor(cursors, i)) && Oldest(PageAt(pages, Cursor(cursors, i))) == Some(cursors[i])
  }

  lemma ChainGrows(pages: Pages, limit: nat, cursors: seq<u64>, o: u64)
    requires Chain(pages, limit, cursors) && FullAt(pages, limit, Cursor(cursors, |cursors|))
    requires Oldest(PageAt(pages, Cursor(cursors, |cursors|))) == Some(o)
    ensures Chain(pages, limit, cursors + [o])
  {
    var longer := cursors + [o];
    forall i | 0 <= i < |longer|
      ensures LinkAt(pages, limit, longer, i)
    {
      assert Cursor(longer, i) == Cursor(cursors, i);
      assert i < |cursors| ==> LinkAt(pages, limit, cursors, i);
    }
  }

  lemma ChainShrinks(pages: Pages, limit: nat, cursors: seq<u64>)
    requires Chain(pages, limit, cursors) && cursors != []
    ensures var n := |cursors| - 1;
            && Chain(pages, limit, cursors[..n]) && FullAt(pages, limit, Cursor(cursors, n))
            && Oldest(PageAt(pages, Cursor(cursors, n))) == Some(cursors[n])
            && Cursor(cursors[..n], n) == Cursor(cursors, n)
  {
    var n := |cursors| - 1;
    assert LinkAt(pages, limit, cursors, n);
    forall i | 0 <= i < n
      ensures LinkAt(pages, limit, cursors[..n], i)
    {
      assert LinkAt(pages, limit, cursors, i) && Cursor(cursors[..n], i) == Cursor(cursors, i);
    }
  }

  /** Why the loop stops on its last page: a short page, or the error it reports. */
  predicate Ends(pages: Pages, limit: nat, cursors: seq<u64>, error: Option<ReadError>) {
    var last := Cursor(cursors, |cursors|);
    match error
    case None => pages(last).Some? && !FullAt(pages, limit, last)
    case Some(PageFailed) => pages(last).None?
    case Some(NoInRangeEvent) => FullAt(pages, limit, last) && Oldest(PageAt(pages, last)).None?
    case Some(SecondSaturated) =>
      && FullAt(pages, limit, last) && last.Some? && Oldest(PageAt(pages, last)).Some?
      && Oldest(PageAt(pages, last)).value >= last.value
    case Some(PageCap) =>
      FullAt(pages, limit, last) && |cursors| == MAX_TRUSTED_PAGES - 1 && Oldest(PageAt(pages, last)).Some?
  }

  /** One page of the loop: what has been received so far, the frames counted and the oldest row shown. */
  method FetchPage(
    ghost held: set<Row>, dropped: set<Row>, frames: seq<Frame>, ghost limit: nat, ghost until: Option<u64>,
        got: seq<Row>)
    returns (rows: seq<Row>, received: nat, oldest: Option<u64>)
    requires Honest(held, until, limit, frames) && Covered(held, dropped, until, got)
    ensures received == |frames| && oldest == Oldest(frames)
    ensures NoRepeats(rows) && SeqSet(rows) <= held - dropped
    ensures received < limit ==> SeqSet(rows) == held - dropped
    ensures oldest.Some? ==> Covered(held, dropped, oldest, rows)
  {
    rows, received, oldest := ReadPage(frames, dropped, got);
    PageCovers(held, dropped, until, limit, frames, got, rows);
  }

  /**
   * `read_relay`. On success a trusted (paged) read has received every held row; what it returns is all of
   * them except the ones the SDK always drops, once each. The cursors asked for move strictly older.
   */
  method ReadRelay(ghost held: set<Row>, dropped: set<Row>, pages: Pages, limit: nat, paged: bool)
    returns (r: Result<ReadEnd, ReadError>, cursors: seq<u64>)
    requires limit > 0 && HonestPages(held, limit, pages)
    ensures r.Ok? && !r.value.full ==> SeqSet(r.value.rows) == held - dropped
    ensures r.Ok? ==> NoRepeats(r.value.rows) && SeqSet(r.value.rows) <= held - dropped
    ensures r.Ok? ==> (r.value.full <==> !paged && FullAt(pages, limit, None))
    ensures r.Ok? ==> r.value.pages == |cursors| + 1
    ensures |cursors| < MAX_TRUSTED_PAGES && Chain(pages, limit, cursors)
    ensures forall i, j :: 0 <= i < j < |cursors| ==> cursors[i] > cursors[j]
    ensures paged || r.Err? ==> Ends(pages, limit, cursors, if r.Ok? then None else Some(r.error))
  {
    var until: Option<u64> := None;
    var rows: seq<Row> := [];
    cursors := [];
    while true
      invariant |cursors| < MAX_TRUSTED_PAGES && (!paged ==> cursors == [])
      invariant until == Cursor(cursors, |cursors|) && Chain(pages, limit, cursors)
      invariant forall i, j :: 0 <= i < j < |cursors| ==> cursors[i] > cursors[j]
      invariant Covered(held, dropped, until, rows)
      decreases MAX_TRUSTED_PAGES - |cursors|
    {
      var count := |cursors| + 1;
      var frames := pages(until);
      if frames.None? {
        return Err(PageFailed), cursors;
      }
      assert HonestAt(held, limit, pages, until);
      var received, oldest;
      rows, received, oldest := FetchPage(held, dropped, frames.value, limit, until, rows);
      if received < limit {
        return Ok(ReadEnd(rows, count, false)), cursors;
      }
      if !paged {
        return Ok(ReadEnd(rows, count, true)), cursors;
      }
      if oldest.None? {
        return Err(NoInRangeEvent), cursors;
      }
      if until.Some? && oldest.value >= until.value {
        return Err(SecondSaturated), cursors;
      }
      if count >= MAX_TRUSTED_PAGES {
        return Err(PageCap), cursors;
      }
      ChainGrows(pages, limit, cursors, oldest.value);
      until := oldest;
      cursors := cursors + [oldest.value];
    }
  }

  // ---- How many events the page cap covers ----

  function Window(held: set<Row>, until: Option<u64>): (r: set<Row>) { set x | x in held && InWindow(x, until) }

  function Since(held: set<Row>, t: u64): (r: set<Row>) { set x | x in held && x.at >= t }

  function AtSecond(held: set<Row>, t: u64): (r: set<Row>) { set x | x in held && x.at == t }

  /** The relay never fails and sends nothing but distinct matching rows, as many as the limit allows. */
  ghost predicate ExactPages(held: set<Row>, limit: nat, pages: Pages) {
    forall until :: ExactAt(held, limit, pages, until)
  }

  predicate ExactAt(held: set<Row>, limit: nat, pages: Pages, until: Option<u64>) {
    && pages(until).Some? && Honest(held, until, limit, PageAt(pages, until))
    && |Rows(PageAt(pages, until))| == |PageAt(pages, until)| == Min(limit, |Window(held, until)|)
  }

  /** A full page strictly after the first brings at least `limit - most` rows older than its cursor. */
  lemma FullPageAdvances(held: set<Row>, limit: nat, pages: Pages, most: nat, u: u64)
    requires ExactPages(held, limit, pages) && most < limit && |PageAt(pages, Some(u))| == limit
    requires forall t: u64 :: |AtSecond(held, t)| <= most
    ensures Oldest(PageAt(pages, Some(u))).Some? && Oldest(PageAt(pages, Some(u))).value < u
    ensures |Since(held, Oldest(PageAt(pages, Some(u))).value)| >= |Since(held, u)| + limit - most
  {
    var rows := Rows(PageAt(pages, Some(u)));
    var boundary := AtSecond(held, u);
    var older := rows - boundary;
    assert ExactAt(held, limit, pages, Some(u));
    assert rows == older + rows * boundary;
    SubsetSize(rows * boundary, boundary);
    assert |older| >= limit - most;
    var y :| y in older;
    OldestMeaning(PageAt(pages, Some(u)));
    var o := Oldest(PageAt(pages, Some(u))).value;
    assert older !! Since(held, u) && older + Since(held, u) <= Since(held, o);
    SubsetSize(older + Since(held, u), Since(held, o));
  }

  lemma FirstPageRows(held: set<Row>, limit: nat, pages: Pages)
    requires ExactPages(held, limit, pages) && limit > 0 && |PageAt(pages, None)| == limit
    ensures Oldest(PageAt(pages, None)).Some? && |Since(held, Oldest(PageAt(pages, None)).value)| >= limit
  {
    var rows := Rows(PageAt(pages, None));
    assert ExactAt(held, limit, pages, None) && rows != {};
    OldestMeaning(PageAt(pages, None));
    var o := Oldest(PageAt(pages, None)).value;
    assert rows <= Since(held, o);
    SubsetSize(rows, Since(held, o));
  }

  /** After k full pages at least limit + (k - 1) * (limit - most) rows lie at or above the cursor. */
  lemma {:induction false} ChainCovers(held: set<Row>, limit: nat, pages: Pages, most: nat, cursors: seq<u64>)
    requires ExactPages(held, limit, pages) && most < limit && Chain(pages, limit, cursors) && cursors != []
    requires forall t: u64 :: |AtSecond(held, t)| <= most
    ensures |Since(held, cursors[|cursors| - 1])| >= limit + (|cursors| - 1) * (limit - most)
  {
    var n := |cursors| - 1;
    ChainShrinks(pages, limit, cursors);
    assert ExactAt(held, limit, pages, Cursor(cursors, n));
    if n == 0 {
      FirstPageRows(held, limit, pages);
    } else {
      ChainCovers(held, limit, pages, most, cursors[..n]);
      FullPageAdvances(held, limit, pages, most, cursors[n - 1]);
      assert n * (limit - most) == (n - 1) * (limit - most) + (limit - most);
    }
  }

  /**
   * Paging capacity: when no second holds more than `most` events and `most` is below the page limit, every
   * history of fewer than limit + 19 * (limit - most) events is read without an error.
   */
  lemma PagingCapacity(held: set<Row>, limit: nat, pages: Pages, most: nat, cursors: seq<u64>, error: Option<ReadError>)
    requires ExactPages(held, limit, pages) && most < limit && forall t: u64 :: |AtSecond(held, t)| <= most
    requires |held| < limit + (MAX_TRUSTED_PAGES - 1) * (limit - most)
    requires Chain(pages, limit, cursors) && Ends(pages, limit, cursors, error)
    ensures error.None?
  {
    var last := Cursor(cursors, |cursors|);
    assert ExactAt(held, limit, pages, last);
    if FullAt(pages, limit, last) {
      if cursors == [] {
        FirstPageRows(held, limit, pages);
      } else {
        FullLastPage(held, limit, pages, most, cursors);
      }
    }
  }

  /** A full page at the end of a chain shows an older row, and the history holds that much more. */
  lemma FullLastPage(held: set<Row>, limit: nat, pages: Pages, most: nat, cursors: seq<u64>)
    requires ExactPages(held, limit, pages) && most < limit && forall t: u64 :: |AtSecond(held, t)| <= most
    requires cursors != [] && Chain(pages, limit, cursors) && FullAt(pages, limit, Cursor(cursors, |cursors|))
    ensures var last := Cursor(cursors, |cursors|);
            && Oldest(PageAt(pages, last)).Some? && Oldest(PageAt(pages, last)).value < last.value
    ensures |held| >= limit + |cursors| * (limit - most)
  {
    var last := Cursor(cursors, |cursors|);
    assert ExactAt(held, limit, pages, last);
    ChainCovers(held, limit, pages, most, cursors);
    FullPageAdvances(held, limit, pages, most, last.value);
    SubsetSize(Since(held, Oldest(PageAt(pages, last)).value), held);
    OneMorePage(|cursors| - 1, limit - most);
  }

  lemma OneMorePage(n: nat, step: nat)
    ensures (n + 1) * step == n * step + step
  {
  }

  // With distinct seconds every full page after the first brings exactly limit - 1 new rows.

  lemma DistinctAdvance(held: set<Row>, limit: nat, pages: Pages, u: u64, b: Row)
    requires ExactPages(held, limit, pages) && limit > 1 && |PageAt(pages, Some(u))| == limit
    requires forall t: u64 :: |AtSecond(held, t)| <= 1
    requires b in held && b.at == u
    ensures Oldest(PageAt(pages, Some(u))).Some? && Oldest(PageAt(pages, Some(u))).value < u
    ensures |Since(held, Oldest(PageAt(pages, Some(u))).value)| == |Since(held, u)| + limit - 1
    ensures exists x :: x in held && x.at == Oldest(PageAt(pages, Some(u))).value
  {
    FullPageAdvances(held, limit, pages, 1, u);
    OldestMeaning(PageAt(pages, Some(u)));
    var rows := Rows(PageAt(pages, Some(u)));
    var o := Oldest(PageAt(pages, Some(u))).value;
    assert ExactAt(held, limit, pages, Some(u));
    var last :| last in rows && last.at == o;
    OneRowPerSecond(held, u, b);
    OneRowPerSecond(held, o, last);
    assert forall x :: x in held && x.at == o ==> x in AtSecond(held, o);
    assert forall x :: x in held && x.at == u ==> x in AtSecond(held, u);
    assert forall x :: x in held && InWindow(x, Some(u)) && x !in rows ==> last.at >= x.at;
    NewRows(held, rows, u, o, b);
  }

  lemma NewRows(held: set<Row>, rows: set<Row>, u: u64, o: u64, b: Row)
    requires rows <= held && o < u && b in rows && b.at == u
    requires forall x :: x in rows ==> o <= x.at <= u
    requires forall x :: x in held && x.at == u ==> x == b
    requires forall x :: x in held && o <= x.at <= u ==> x in rows
    ensures |Since(held, o)| == |Since(held, u)| + |rows| - 1
  {
    assert Since(held, o) == (rows - {b}) + Since(held, u);
    assert (rows - {b}) !! Since(held, u);
  }

  lemma OneRowPerSecond(held: set<Row>, t: u64, b: Row)
    requires |AtSecond(held, t)| <= 1 && b in held && b.at == t
    ensures AtSecond(held, t) == {b}
  {
    assert {b} <= AtSecond(held, t);
    SubsetSize({b}, AtSecond(held, t));
  }

  /** Rows from a cursor down, with the cursor's own second counted in both halves. */
  lemma WindowSize(held: set<Row>, u: u64, b: Row)
    requires |AtSecond(held, u)| <= 1 && b in held && b.at == u
    ensures |Window(held, Some(u))| == |held| - |Since(held, u)| + 1
  {
    OneRowPerSecond(held, u, b);
    var newer := Since(held, u) - {b};
    assert forall x :: x in held && x.at == u ==> x in AtSecond(held, u);
    assert held == Window(held, Some(u)) + newer && Window(held, Some(u)) !! newer;
  }

  lemma LaterPageIsFull(held: set<Row>, limit: nat, pages: Pages, u: u64, n: nat)
    requires ExactPages(held, limit, pages) && limit > 1 && 1 < n <= MAX_TRUSTED_PAGES
    requires forall t: u64 :: |AtSecond(held, t)| <= 1
    requires |held| >= limit + (MAX_TRUSTED_PAGES - 1) * (limit - 1)
    requires |Since(held, u)| == limit + (n - 2) * (limit - 1) && exists b :: b in held && b.at == u
    ensures |PageAt(pages, Some(u))| == limit
    ensures Oldest(PageAt(pages, Some(u))).Some? && Oldest(PageAt(pages, Some(u))).value < u
    ensures |Since(held, Oldest(PageAt(pages, Some(u))).value)| == limit + (n - 1) * (limit - 1)
    ensures exists x :: x in held && x.at == Oldest(PageAt(pages, Some(u))).value
  {
    var b :| b in held && b.at == u;
    NextPageIsFull(held, limit, pages, u, n);
    PagesOfRows(n, limit - 1);
    DistinctAdvance(held, limit, pages, u, b);
  }

  lemma NextPageIsFull(held: set<Row>, limit: nat, pages: Pages, u: u64, n: nat)
    requires ExactPages(held, limit, pages) && limit > 1 && 1 < n <= MAX_TRUSTED_PAGES
    requires |AtSecond(held, u)| <= 1 && |held| >= limit + (MAX_TRUSTED_PAGES - 1) * (limit - 1)
    requires |Since(held, u)| == limit + (n - 2) * (limit - 1) && exists b :: b in held && b.at == u
    ensures |PageAt(pages, Some(u))| == limit
  {
    var b :| b in held && b.at == u;
    WindowSize(held, u, b);
    assert ExactAt(held, limit, pages, Some(u));
    PagesOfRows(n, limit - 1);
  }

  lemma PagesOfRows(n: nat, step: nat)
    requires 1 < n <= MAX_TRUSTED_PAGES
    ensures (n - 2) * step + step == (n - 1) * step <= (MAX_TRUSTED_PAGES - 1) * step
  {
  }

  lemma FirstPage(held: set<Row>, limit: nat, pages: Pages)
    requires ExactPages(held, limit, pages) && limit > 1 && |PageAt(pages, None)| == limit
    requires forall t: u64 :: |AtSecond(held, t)| <= 1
    ensures Oldest(PageAt(pages, None)).Some? && |Since(held, Oldest(PageAt(pages, None)).value)| == limit
    ensures exists x :: x in held && x.at == Oldest(PageAt(pages, None)).value
  {
    var rows := Rows(PageAt(pages, None));
    assert ExactAt(held, limit, pages, None) && rows != {};
    OldestMeaning(PageAt(pages, None));
    var o := Oldest(PageAt(pages, None)).value;
    var last :| last in rows && last.at == o;
    OneRowPerSecond(held, o, last);
    assert forall x :: x in held && x.at == o ==> x in AtSecond(held, o);
    assert forall x :: x in held && x !in rows ==> last.at >= x.at;
    assert Since(held, o) == rows;
  }

  /** A long history with distinct seconds fills every page the cap allows. */
  lemma {:induction false} LongChain(held: set<Row>, limit: nat, pages: Pages, cursors: seq<u64>)
    requires ExactPages(held, limit, pages) && limit > 1 && forall t: u64 :: |AtSecond(held, t)| <= 1
    requires |held| >= limit + (MAX_TRUSTED_PAGES - 1) * (limit - 1)
    requires Chain(pages, limit, cursors) && |cursors| < MAX_TRUSTED_PAGES
    ensures |PageAt(pages, Cursor(cursors, |cursors|))| == limit
    ensures cursors != [] ==> |Since(held, cursors[|cursors| - 1])| == limit + (|cursors| - 1) * (limit - 1)
                              && exists b :: b in held && b.at == cursors[|cursors| - 1]
  {
    if cursors == [] {
      assert ExactAt(held, limit, pages, None) && Window(held, None) == held;
    } else {
      var n := |cursors| - 1;
      ChainShrinks(pages, limit, cursors);
      LongChain(held, limit, pages, cursors[..n]);
      if n == 0 {
        FirstPage(held, limit, pages);
      } else {
        LaterPageIsFull(held, limit, pages, cursors[n - 1], n + 1);
      }
      NextPageIsFull(held, limit, pages, cursors[n], n + 2);
    }
  }

  /** With at most one event a second, the page cap covers exactly the histories below limit + 19 * (limit - 1). */
  lemma CapacityIsExact(held: set<Row>, limit: nat, pages: Pages, cursors: seq<u64>, error: Option<ReadError>)
    requires ExactPages(held, limit, pages) && limit > 1 && forall t: u64 :: |AtSecond(held, t)| <= 1
    requires Chain(pages, limit, cursors) && |cursors| < MAX_TRUSTED_PAGES && Ends(pages, limit, cursors, error)
    ensures error.None? <==> |held| < limit + (MAX_TRUSTED_PAGES - 1) * (limit - 1)
  {
    if |held| < limit + (MAX_TRUSTED_PAGES - 1) * (limit - 1) {
      PagingCapacity(held, limit, pages, 1, cursors, error);
    } else {
      LongChain(held, limit, pages, cursors);
    }
  }

  /** As documented: pages of 500 and at most one event a second cover every history below 500 + 19 * 499 events. */
  lemma DocumentedCapacity(held: set<Row>, pages: Pages, cursors: seq<u64>, error: Option<ReadError>)
    requires ExactPages(held, PAGE_LIMIT, pages) && forall t: u64 :: |AtSecond(held, t)| <= 1
    requires Chain(pages, PAGE_LIMIT, cursors) && |cursors| < MAX_TRUSTED_PAGES
            && Ends(pages, PAGE_LIMIT, cursors, error)
    ensures error.None? <==> |held| < 500 + 19 * 499
  {
    CapacityIsExact(held, PAGE_LIMIT, pages, cursors, error);
  }

  // ---- The chat reader ----

  const PAGE: nat := 100
  const BOUNDARY_PAGE: nat := 1000

  /** A received event: of the page's own subscription, or of the live one beside it. */
  datatype Notice = Own(row: Row) | Live(row: Row)

  function OwnCount(notices: seq<Notice>): (n: nat) {
    if notices == [] then 0
    else OwnCount(notices[..|notices| - 1]) + (if notices[|notices| - 1].Own? then 1 else 0)
  }

  /** `oldest`, which starts at the cursor. */
  function OwnOldest(notices: seq<Notice>, until: u64): (r: u64)
    ensures r <= until && forall x :: Own(x) in notices ==> r <= x.at
    ensures r == until || exists x :: Own(x) in notices && x.at == r
  {
    if notices == [] then until
    else
      var last := notices[|notices| - 1];
      assert notices == notices[..|notices| - 1] + [last];
      var before := OwnOldest(notices[..|notices| - 1], until);
      if last.Own? && last.row.at < before then last.row.at else before
  }

  predicate Between(x: Row, since: u64, until: u64) { since <= x.at <= until }

  /** As `Honest`, for a store that may have grown since `held` was fixed. */
  ghost predicate HonestChat(held: set<Row>, since: u64, until: u64, limit: nat, notices: seq<Notice>) {
    && (forall x :: Own(x) in notices ==> Between(x, since, until))
    && (forall x :: x in held && Between(x, since, until) && Own(x) !in notices ==>
          OwnCount(notices) >= limit && forall y :: Own(y) in notices ==> y.at >= x.at)
  }

  type ChatPages = (u64, nat) -> Option<seq<Notice>>

  ghost predicate HonestChatPages(held: set<Row>, since: u64, pages: ChatPages) {
    forall until, limit :: pages(until, limit).Some? ==>
        HonestChat(held, since, until, limit, pages(until, limit).value)
  }

  function Handed(notices: seq<Notice>): (r: seq<Row>)
    ensures |r| == |notices| && forall i :: 0 <= i < |r| ==> r[i] == notices[i].row
  {
    seq(|notices|, i requires 0 <= i < |notices| => notices[i].row)
  }

  lemma NoticeStep(notices: seq<Notice>, i: nat, until: u64)
    requires i < |notices|
    ensures Handed(notices[..i + 1]) == Handed(notices[..i]) + [notices[i].row]
    ensures OwnCount(notices[..i + 1]) == OwnCount(notices[..i]) + (if notices[i].Own? then 1 else 0)
    ensures var before := OwnOldest(notices[..i], until);
            OwnOldest(notices[..i + 1], until)
            == if notices[i].Own? && notices[i].row.at < before then notices[i].row.at else before
  {
    assert notices[..i + 1][..i] == notices[..i] && notices[..i + 1][i] == notices[i];
  }

  /** One page: every event is handed to `receive`; own events are counted and move `oldest`. */
  method ChatPage(notices: seq<Notice>, until: u64) returns (handed: seq<Row>, rows: nat, oldest: u64)
    ensures handed == Handed(notices) && rows == OwnCount(notices) && oldest == OwnOldest(notices, until)
  {
    handed, rows, oldest := [], 0, until;
    for i := 0 to |notices|
      invariant handed == Handed(notices[..i])
      invariant rows == OwnCount(notices[..i]) && oldest == OwnOldest(notices[..i], until)
    {
      NoticeStep(notices, i, until);
      if notices[i].Own? {
        rows := rows + 1;
        oldest := if notices[i].row.at < oldest then notices[i].row.at else oldest;
      }
      handed := handed + [notices[i].row];
    }
    assert notices[..|notices|] == notices;
  }

  /** How the two-size loop ends: true when it proves the history complete. */
  predicate CatchWalk(pages: ChatPages, until: u64, limit: nat)
    decreases until, limit != BOUNDARY_PAGE
  {
    var notices := pages(until, limit);
    if notices.None? then false
    else if OwnCount(notices.value) < limit then true
    else
      var oldest := OwnOldest(notices.value, until);
      if oldest < until then CatchWalk(pages, oldest, PAGE)
      else if limit == BOUNDARY_PAGE then false
      else CatchWalk(pages, until, BOUNDARY_PAGE)
  }

  /** On success every row held at the start and dated in [since, start] was handed to `receive`. */
  method CatchUp(ghost held: set<Row>, since: u64, start: u64, pages: ChatPages) returns (ok: bool, handed: seq<Row>)
    requires HonestChatPages(held, since, pages)
    ensures ok ==> forall x :: x in held && Between(x, since, start) ==> x in handed
    ensures ok == CatchWalk(pages, start, PAGE)
  {
    handed := [];
    var until: u64, limit := start, PAGE;
    while true
      invariant until <= start && (limit == PAGE || limit == BOUNDARY_PAGE)
      invariant forall x :: x in held && Between(x, since, start) && x.at > until ==> x in handed
      invariant CatchWalk(pages, start, PAGE) == CatchWalk(pages, until, limit)
      decreases until, limit != BOUNDARY_PAGE
    {
      var notices := pages(until, limit);
      if notices.None? {
        return false, handed;
      }
      assert HonestChat(held, since, until, limit, notices.value);
      var page, rows, oldest := ChatPage(notices.value, until);
      forall x | x in held && Between(x, since, until) && (rows < limit || x.at > oldest)
        ensures x in page
      {
        ChatPageCovers(held, since, until, limit, notices.value, x);
      }
      handed := handed + page;
      if rows < limit {
        return true, handed;
      }
      if oldest == until {
        if limit == BOUNDARY_PAGE {
          return false, handed;
        }
        limit := BOUNDARY_PAGE;
      } else {
        until, limit := oldest, PAGE;
      }
    }
  }

  lemma ChatPageCovers(held: set<Row>, since: u64, until: u64, limit: nat, notices: seq<Notice>, x: Row)
    requires HonestChat(held, since, until, limit, notices) && x in held && Between(x, since, until)
    requires OwnCount(notices) < limit || x.at > OwnOldest(notices, until)
    ensures x in Handed(notices)
  {
    var oldest := OwnOldest(notices, until);
    assert oldest == until || exists y :: Own(y) in notices && y.at == oldest;
    assert Own(x) in notices;
    var i :| 0 <= i < |notices| && notices[i] == Own(x);
    assert Handed(notices)[i] == x;
  }

  function OwnRows(notices: seq<Notice>): (r: set<Row>) { set n | n in notices && n.Own? :: n.row }

  /** A page sends each stored row at most once. */
  predicate OwnOnce(notices: seq<Notice>) {
    forall i, j :: 0 <= i < j < |notices| && notices[i].Own? ==> notices[i] != notices[j]
  }

  lemma {:induction false} CountIsRows(notices: seq<Notice>)
    requires OwnOnce(notices)
    ensures OwnCount(notices) == |OwnRows(notices)|
  {
    if notices != [] {
      var n := |notices| - 1;
      var front, last := notices[..n], notices[n];
      CountIsRows(front);
      assert notices == front + [last];
      assert OwnRows(notices) == OwnRows(front) + if last.Own? then {last.row} else {};
      if last.Own? {
        assert Own(last.row) !in front;
      }
    }
  }

  /** The relay never fails, and sends only rows it holds of the window asked for, each once. */
  ghost predicate Answers(held: set<Row>, pages: ChatPages) {
    forall until, limit :: pages(until, limit).Some? && SendsHeld(held, until, pages(until, limit).value)
  }

  ghost predicate SendsHeld(held: set<Row>, until: u64, notices: seq<Notice>) {
    OwnOnce(notices) && forall x :: Own(x) in notices ==> x in held && x.at <= until
  }

  /** A page whose oldest own row is dated at the cursor is no longer than the cursor's second. */
  lemma BoundaryPageIsShort(held: set<Row>, until: u64, notices: seq<Notice>)
    requires SendsHeld(held, until, notices) && OwnOldest(notices, until) == until
    ensures OwnCount(notices) <= |AtSecond(held, until)|
  {
    CountIsRows(notices);
    forall x | x in OwnRows(notices)
      ensures x in AtSecond(held, until)
    {
      assert Own(x) in notices;
    }
    SubsetSize(OwnRows(notices), AtSecond(held, until));
  }

  /** The reader succeeds on every history with fewer than 1000 events in any second. */
  lemma {:induction false} CatchUpSucceeds(held: set<Row>, pages: ChatPages, until: u64, limit: nat)
    requires Answers(held, pages) && forall t: u64 :: |AtSecond(held, t)| < BOUNDARY_PAGE
    ensures CatchWalk(pages, until, limit)
    decreases until, limit != BOUNDARY_PAGE
  {
    assert pages(until, limit).Some?;
    var notices := pages(until, limit).value;
    var oldest := OwnOldest(notices, until);
    if OwnCount(notices) >= limit && oldest < until {
      CatchUpSucceeds(held, pages, oldest, PAGE);
    } else if OwnCount(notices) >= limit {
      BoundaryPageIsShort(held, until, notices);
      if limit != BOUNDARY_PAGE {
        CatchUpSucceeds(held, pages, until, BOUNDARY_PAGE);
      }
    }
  }
}
