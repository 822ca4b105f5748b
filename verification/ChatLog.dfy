/** The chat transcript file (`Home::entries` and `Home::append` in crates/maxplayer-chat/src/lib.rs). */
module ChatLog {
  import opened Basics
  import opened ByteLines

  datatype Entry = Entry(
    rumorId: string, peer: string, inbound: bool, at: u64, text: string, receivedAt: Option<u64>)

  /**
   * One record as one line of JSON. Reading a printed line gives the record back, and a record holds no raw line
   * break.
   */
  datatype Codec = Codec(encode: Entry -> Bytes, decode: Bytes -> Option<Entry>) {
    ghost predicate Lawful() {
      forall e: Entry :: LF !in encode(e) && decode(encode(e) + [LF]) == Some(e)
    }
  }

  /** The records of newline-terminated lines; None when some line is not a record. */
  function DecodeLines(c: Codec, bytes: Bytes): (r: Option<seq<Entry>>)
    decreases |bytes|
  {
    if bytes == [] then Some([])
    else
      var k := FirstLf(bytes);
      if k == |bytes| then None
      else
        Joined(c.decode(bytes[..k + 1]), DecodeLines(c, bytes[k + 1..]))
  }

  function Joined(first: Option<Entry>, rest: Option<seq<Entry>>): (r: Option<seq<Entry>>) {
    if first.None? || rest.None? then None else Some([first.value] + rest.value)
  }

  /** `entries`: only newline-terminated records count. */
  function Entries(c: Codec, bytes: Bytes): (r: Option<seq<Entry>>) {
    DecodeLines(c, bytes[..CommittedEnd(bytes)])
  }

  function Line(c: Codec, e: Entry): (r: Bytes) { c.encode(e) + [LF] }

  /** `append`: the uncommitted tail is cut off before the new line is written. */
  function Append(c: Codec, bytes: Bytes, e: Entry): (r: Bytes) { bytes[..CommittedEnd(bytes)] + Line(c, e) }

  function Text(c: Codec, entries: seq<Entry>): (r: Bytes) {
    if entries == [] then [] else Text(c, entries[..|entries| - 1]) + Line(c, entries[|entries| - 1])
  }

  lemma DecodeFirst(c: Codec, line: Bytes, rest: Bytes)
    requires LF !in line
    ensures DecodeLines(c, line + [LF] + rest) == Joined(c.decode(line + [LF]), DecodeLines(c, rest))
  {
    var all := line + [LF] + rest;
    assert all == line + ([LF] + rest);
    FirstLfOf(line, [LF] + rest);
    assert all[..|line| + 1] == line + [LF] && all[|line| + 1..] == rest;
  }

  lemma JoinedAppend(first: Option<Entry>, rest: Option<seq<Entry>>, e: Entry)
    ensures Joined(first, Appended(rest, e)) == Appended(Joined(first, rest), e)
  {
    if first.Some? && rest.Some? {
      assert [first.value] + (rest.value + [e]) == [first.value] + rest.value + [e];
    }
  }

  function Appended(before: Option<seq<Entry>>, e: Entry): (r: Option<seq<Entry>>) {
    if before.None? then None else Some(before.value + [e])
  }

  /** Decoding committed lines followed by one more line. */
  lemma {:induction false} DecodeOneMore(c: Codec, bytes: Bytes, e: Entry)
    requires c.Lawful() && (bytes == [] || bytes[|bytes| - 1] == LF)
    ensures DecodeLines(c, bytes + Line(c, e)) == Appended(DecodeLines(c, bytes), e)
    decreases |bytes|
  {
    if bytes == [] {
      DecodeOnly(c, e);
      assert bytes + Line(c, e) == Line(c, e) && [] + [e] == [e];
    } else {
      var k := FirstLf(bytes);
      var line, rest := bytes[..k], bytes[k + 1..];
      DecodeOneMore(c, rest, e);
      SplitFirst(bytes, k, Line(c, e));
      DecodeFirst(c, line, rest);
      DecodeFirst(c, line, rest + Line(c, e));
      JoinedAppend(c.decode(line + [LF]), DecodeLines(c, rest), e);
    }
  }

  lemma DecodeOnly(c: Codec, e: Entry)
    requires c.Lawful()
    ensures DecodeLines(c, Line(c, e)) == Some([e])
  {
    DecodeFirst(c, c.encode(e), []);
    assert Line(c, e) == c.encode(e) + [LF] + [] && [e] + [] == [e];
  }

  lemma SplitFirst(bytes: Bytes, k: nat, more: Bytes)
    requires k < |bytes| && bytes[k] == LF
    ensures bytes == bytes[..k] + [LF] + bytes[k + 1..]
    ensures bytes + more == bytes[..k] + [LF] + (bytes[k + 1..] + more)
  {
  }

  lemma TextEndsInLf(c: Codec, entries: seq<Entry>)
    ensures Text(c, entries) == [] || Text(c, entries)[|Text(c, entries)| - 1] == LF
  {
  }

  lemma DecodeTextStep(c: Codec, front: seq<Entry>, e: Entry)
    requires c.Lawful() && DecodeLines(c, Text(c, front)) == Some(front)
    ensures DecodeLines(c, Text(c, front) + Line(c, e)) == Some(front + [e])
  {
    TextEndsInLf(c, front);
    DecodeOneMore(c, Text(c, front), e);
  }

  lemma {:induction false} DecodeText(c: Codec, entries: seq<Entry>)
    requires c.Lawful()
    ensures DecodeLines(c, Text(c, entries)) == Some(entries)
  {
    if entries != [] {
      var n := |entries| - 1;
      DecodeText(c, entries[..n]);
      DecodeTextStep(c, entries[..n], entries[n]);
      FrontAndLast(entries);
    }
  }

  /** Committed records survive any newline-free tail. */
  lemma TornTailIsHarmless(c: Codec, entries: seq<Entry>, tail: Bytes)
    requires c.Lawful() && LF !in tail
    ensures Entries(c, Text(c, entries) + tail) == Some(entries)
  {
    DecodeText(c, entries);
    TextEndsInLf(c, entries);
    CommittedPrefix(Text(c, entries), tail);
    assert (Text(c, entries) + tail)[..|Text(c, entries)|] == Text(c, entries);
  }

  /** Whatever the file holds, an append adds exactly its record to what a reader sees. */
  lemma AppendAddsOne(c: Codec, bytes: Bytes, e: Entry)
    requires c.Lawful()
    ensures Entries(c, Append(c, bytes, e)) == Appended(Entries(c, bytes), e)
  {
    var kept := bytes[..CommittedEnd(bytes)];
    DecodeOneMore(c, kept, e);
    var after := Append(c, bytes, e);
    CommittedPrefix(after, []);
    assert after + [] == after && after[..|after|] == after;
  }

  /** What a crash can leave of an append: the old file, or the truncated file and `k` bytes of the new line. */
  function CutAppend(c: Codec, bytes: Bytes, e: Entry, k: nat): (r: Bytes)
    requires k <= |Line(c, e)|
  {
    bytes[..CommittedEnd(bytes)] + Line(c, e)[..k]
  }

  /** Cut anywhere, an append leaves the old records or the old records and the new one, never anything else. */
  lemma CutAppendIsAtomic(c: Codec, bytes: Bytes, e: Entry, k: nat)
    requires c.Lawful() && k <= |Line(c, e)|
    ensures Entries(c, CutAppend(c, bytes, e, k))
         == if k == |Line(c, e)| then Entries(c, Append(c, bytes, e)) else Entries(c, bytes)
  {
    var kept := bytes[..CommittedEnd(bytes)];
    if k == |Line(c, e)| {
      assert Line(c, e)[..k] == Line(c, e);
    } else {
      assert Line(c, e)[..k] == c.encode(e)[..k];
      CommittedPrefix(kept, Line(c, e)[..k]);
      assert CutAppend(c, bytes, e, k)[..|kept|] == kept;
    }
  }
}
