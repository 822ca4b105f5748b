/** The laws asked of a transcript codec are consistent: one simple line format keeps them. */
module ChatCodec {
  import opened Basics
  import opened ByteLines
  import opened ChatLog
  import opened Strokes
  import Json

  function Fields(e: Entry): (s: seq<string>) {
    [e.rumorId, e.peer, if e.inbound then "in" else "out", Decimal(e.at), e.text,
     if e.receivedAt.None? then "" else Decimal(e.receivedAt.value)]
  }

  lemma FieldsTellApart(a: Entry, b: Entry)
    requires Fields(a) == Fields(b)
    ensures a == b
  {
    var x, y := Fields(a), Fields(b);
    assert x[0] == y[0] && x[1] == y[1] && x[2] == y[2] && x[3] == y[3] && x[4] == y[4] && x[5] == y[5];
    DecimalRoundTrip(a.at);
    DecimalRoundTrip(b.at);
    if a.receivedAt.Some? && b.receivedAt.Some? {
      DecimalRoundTrip(a.receivedAt.value);
      DecimalRoundTrip(b.receivedAt.value);
    }
  }

  function Encode(e: Entry): (b: Bytes) { Coded(Json.PrintStrings(Fields(e))) }

  lemma EncodeTellsApart(a: Entry, b: Entry)
    requires Encode(a) == Encode(b)
    ensures a == b
  {
    CodedTellsApart(Json.PrintStrings(Fields(a)), Json.PrintStrings(Fields(b)));
    Json.ReadPrinted(Fields(a));
    Json.ReadPrinted(Fields(b));
    FieldsTellApart(a, b);
  }

  ghost function Decode(b: Bytes): (r: Option<Entry>)
    ensures r.Some? ==> Encode(r.value) + [LF] == b
    ensures r.None? ==> forall e :: Encode(e) + [LF] != b
  {
    if e: Entry :| Encode(e) + [LF] == b then Some(e) else None
  }

  lemma DecodeEncoded(e: Entry)
    ensures Decode(Encode(e) + [LF]) == Some(e)
  {
    var line := Encode(e) + [LF];
    var x := Decode(line).value;
    assert line[..|line| - 1] == Encode(e) && (Encode(x) + [LF])[..|line| - 1] == Encode(x);
    EncodeTellsApart(x, e);
  }

  /** A codec that keeps the laws the transcript relies on. */
  lemma LawfulCodecExists() returns (c: Codec)
    ensures c.Lawful()
  {
    c := Codec(Encode, Decode);
    forall e: Entry
      ensures LF !in c.encode(e) && c.decode(c.encode(e) + [LF]) == Some(e)
    {
      DecodeEncoded(e);
    }
  }
}
