/** JSON text for strings and arrays of strings, as `serde_json` prints it (section 7 of RFC 8259). */
module Json {
  import opened Basics

  function HexChar(d: nat): (c: char)
    requires d < 16
    ensures IsHexDigit(c) && HexValue(c) == d
  {
    if d < 10 then ('0' as int + d) as char else ('a' as int + (d - 10)) as char
  }

  predicate IsAnyHexDigit(c: char) { IsHexDigit(c) || 'A' <= c <= 'F' }

  function HexValue(c: char): (d: nat)
    requires IsAnyHexDigit(c)
    ensures d < 16
  {
    if c <= '9' then c as int - '0' as int
    else if 'A' <= c <= 'F' then c as int - 'A' as int + 10
    else c as int - 'a' as int + 10
  }

  function EscapeChar(c: char): (s: string) {
    if c == '\"' then "\\\""
    else if c == '\\' then "\\\\"
    else if c as int == 8 then "\\b"
    else if c as int == 9 then "\\t"
    else if c as int == 10 then "\\n"
    else if c as int == 12 then "\\f"
    else if c as int == 13 then "\\r"
    else if c as int < 32 then "\\u00" + [HexChar(c as int / 16), HexChar(c as int % 16)]
    else [c]
  }

  function Escape(s: string): (r: string) {
    if s == [] then [] else EscapeChar(s[0]) + Escape(s[1..])
  }

  function Quote(s: string): (r: string) { "\"" + Escape(s) + "\"" }

  /** `serde_json::to_string` of a list of strings. */
  function PrintStrings(items: seq<string>): (r: string) { "[" + PrintItems(items) + "]" }

  function PrintItems(items: seq<string>): (r: string) {
    if items == [] then []
    else if |items| == 1 then Quote(items[0])
    else Quote(items[0]) + "," + PrintItems(items[1..])
  }

  /** `serde_json::to_string` of a list of lists of strings. */
  function PrintLists(lists: seq<seq<string>>): (r: string) { "[" + PrintListItems(lists) + "]" }

  function PrintListItems(lists: seq<seq<string>>): (r: string) {
    if lists == [] then []
    else if |lists| == 1 then PrintStrings(lists[0])
    else PrintStrings(lists[0]) + "," + PrintListItems(lists[1..])
  }

  // ---- Reading ----

  function HexQuad(s: string): (r: Option<char>)
    requires |s| == 4
  {
    if IsAnyHexDigit(s[0]) && IsAnyHexDigit(s[1]) && IsAnyHexDigit(s[2]) && IsAnyHexDigit(s[3]) then
      var v := 4096 * HexValue(s[0]) + 256 * HexValue(s[1]) + 16 * HexValue(s[2]) + HexValue(s[3]);
      if 0xD800 <= v < 0xE000 then None else Some(v as char)
    else None
  }

  function SimpleEscape(c: char): (r: Option<char>) {
    if c == '\"' || c == '\\' || c == '/' then Some(c)
    else if c == 'b' then Some(8 as char)
    else if c == 't' then Some(9 as char)
    else if c == 'n' then Some(10 as char)
    else if c == 'f' then Some(12 as char)
    else if c == 'r' then Some(13 as char)
    else None
  }

  /** Reads the rest of a string after its opening quote: the text and what follows the closing quote. */
  function ReadBody(s: string): (r: Option<(string, string)>)
    ensures r.Some? ==> |r.value.1| < |s|
    decreases |s|
  {
    if s == [] then None
    else if s[0] == '\"' then Some(([], s[1..]))
    else if s[0] as int < 32 then None
    else if s[0] != '\\' then Prepend(s[0], ReadBody(s[1..]))
    else if |s| < 2 then None
    else if s[1] == 'u' then
      if |s| < 6 || HexQuad(s[2..6]).None? then None
      else Prepend(HexQuad(s[2..6]).value, ReadBody(s[6..]))
    else if SimpleEscape(s[1]).None? then None
    else Prepend(SimpleEscape(s[1]).value, ReadBody(s[2..]))
  }

  function Prepend(c: char, r: Option<(string, string)>): (q: Option<(string, string)>) {
    if r.None? then None else Some(([c] + r.value.0, r.value.1))
  }

  /** Reads `"…"` items separated by commas up to the closing bracket, which must end the text. */
  function ReadItems(s: string): (r: Option<seq<string>>)
    decreases |s|
  {
    if s == [] || s[0] != '\"' || ReadBody(s[1..]).None? then None
    else
      var (item, rest) := ReadBody(s[1..]).value;
      if rest == "]" then Some([item])
      else if rest != [] && rest[0] == ',' then
        var more := ReadItems(rest[1..]);
        if more.None? then None else Some([item] + more.value)
      else None
  }

  function ReadStrings(s: string): (r: Option<seq<string>>) {
    if s == "[]" then Some([])
    else if s == [] || s[0] != '[' then None
    else ReadItems(s[1..])
  }

  // ---- Reading undoes printing ----

  lemma ReadEscapedChar(c: char, rest: string)
    ensures ReadBody(EscapeChar(c) + rest) == Prepend(c, ReadBody(rest))
  {
    var e := EscapeChar(c);
    var s := e + rest;
    assert s[|e|..] == rest;
    if |e| == 6 {
      assert s[2..6] == e[2..6] == "00" + [HexChar(c as int / 16), HexChar(c as int % 16)];
    }
  }

  lemma {:induction false} ReadEscaped(s: string, rest: string)
    ensures ReadBody(Escape(s) + "\"" + rest) == Some((s, rest))
  {
    var tail := "\"" + rest;
    if s == [] {
      assert Escape(s) + "\"" + rest == tail;
      assert tail[1..] == rest;
    } else {
      ReadEscaped(s[1..], rest);
      assert Escape(s) + "\"" + rest == EscapeChar(s[0]) + (Escape(s[1..]) + "\"" + rest);
      ReadEscapedChar(s[0], Escape(s[1..]) + "\"" + rest);
      assert s == [s[0]] + s[1..];
    }
  }

  lemma ReadQuoted(item: string, rest: string)
    ensures (Quote(item) + rest)[0] == '\"'
    ensures ReadBody((Quote(item) + rest)[1..]) == Some((item, rest))
  {
    assert (Quote(item) + rest)[1..] == Escape(item) + "\"" + rest;
    ReadEscaped(item, rest);
  }

  lemma ReadLastItem(item: string)
    ensures ReadItems(Quote(item) + "]") == Some([item])
  {
    ReadQuoted(item, "]");
  }

  lemma ReadNextItem(item: string, more: string, items: seq<string>)
    requires more != [] && ReadItems(more) == Some(items)
    ensures ReadItems(Quote(item) + ("," + more)) == Some([item] + items)
  {
    ReadQuoted(item, "," + more);
    assert ("," + more)[1..] == more;
    assert |"," + more| > 1;
  }

  lemma {:induction false} ReadPrintedItems(items: seq<string>)
    requires items != []
    ensures ReadItems(PrintItems(items) + "]") == Some(items)
  {
    if |items| == 1 {
      ReadLastItem(items[0]);
      assert items == [items[0]];
    } else {
      var more := PrintItems(items[1..]) + "]";
      ReadPrintedItems(items[1..]);
      ReadNextItem(items[0], more, items[1..]);
      RegroupItems(Quote(items[0]), PrintItems(items[1..]));
      assert items == [items[0]] + items[1..];
    }
  }

  lemma RegroupItems(first: string, rest: string)
    ensures first + "," + rest + "]" == first + ("," + (rest + "]"))
  {
  }

  /** Every list of strings, whatever its characters, reads back from its JSON text. */
  lemma ReadPrinted(items: seq<string>)
    ensures ReadStrings(PrintStrings(items)) == Some(items)
  {
    if items == [] {
      assert PrintStrings(items) == "[]";
    } else {
      var s := PrintStrings(items);
      assert s[1..] == PrintItems(items) + "]";
      assert s[1] == '\"';
      ReadPrintedItems(items);
    }
  }

  // ---- Printed text never holds a raw control character, so it never holds a line break ----

  lemma {:induction false} EscapeHasNoControls(s: string)
    ensures forall i :: 0 <= i < |Escape(s)| ==> Escape(s)[i] as int >= 32
  {
    if s != [] {
      EscapeHasNoControls(s[1..]);
    }
  }

  lemma {:induction false} PrintItemsHasNoControls(items: seq<string>)
    ensures forall i :: 0 <= i < |PrintItems(items)| ==> PrintItems(items)[i] as int >= 32
  {
    if items != [] {
      EscapeHasNoControls(items[0]);
      PrintItemsHasNoControls(items[1..]);
    }
  }
}
