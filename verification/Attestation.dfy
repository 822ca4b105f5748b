/** The checks attestation (crates/maxplayer-core/src/checks.rs): one printer, one strict reader. */
module Attestation {
  import opened Basics
  import Json

  const MARKER := "maxplayer-checks-attestation/v1"

  datatype EnvKind = NixFlake | ContainerImage

  datatype AttestedCheck = AttestedCheck(argv: seq<string>, exitCode: int)

  datatype ChecksAttestation = ChecksAttestation(
    jobHash: string, rawTree: string, declaration: string, envKind: EnvKind,
    envRef: string, net: string, checks: seq<AttestedCheck>, verdict: string)

  datatype ChecksError = Malformed(reason: string) | EmptyCommand

  function EnvKindText(k: EnvKind): (s: string) {
    match k case NixFlake => "nix-flake" case ContainerImage => "container-image"
  }

  function EnvKindFromWire(s: string): (r: Option<EnvKind>)
    ensures r.Some? ==> EnvKindText(r.value) == s
  {
    if s == "nix-flake" then Some(NixFlake)
    else if s == "container-image" then Some(ContainerImage)
    else None
  }

  /** `char::is_control`: Unicode category Cc. */
  predicate IsControl(c: char) { c as int < 32 || 127 <= c as int < 160 }

  predicate HasNoControls(s: string) { forall i :: 0 <= i < |s| ==> !IsControl(s[i]) }

  // ---- Lines ----

  function IndexOf(s: string, c: char): (k: nat)
    ensures k <= |s| && (k < |s| ==> s[k] == c)
    ensures forall i :: 0 <= i < k ==> s[i] != c
  {
    if s == [] then 0 else if s[0] == c then 0 else 1 + IndexOf(s[1..], c)
  }

  function StripCr(line: string): (r: string) {
    if line != [] && line[|line| - 1] == '\r' then line[..|line| - 1] else line
  }

  /** `str::lines`. */
  function Lines(s: string): (r: seq<string>)
    decreases |s|
  {
    var k := IndexOf(s, '\n');
    if s == [] then []
    else if k == |s| then [s]
    else [StripCr(s[..k])] + Lines(s[k + 1..])
  }

  /** The text of `lines`, each ended by LF, or by CR LF where `crs` says so. */
  function JoinLines(lines: seq<string>, crs: seq<bool>): (r: string)
    requires |lines| == |crs|
  {
    if lines == [] then ""
    else lines[0] + (if crs[0] then "\r\n" else "\n") + JoinLines(lines[1..], crs[1..])
  }

  function NoCr(n: nat): (r: seq<bool>) { seq(n, _ => false) }

  function Unlines(lines: seq<string>): (r: string) { JoinLines(lines, NoCr(|lines|)) }

  function CrsOf(s: string): (r: seq<bool>)
    decreases |s|
  {
    var k := IndexOf(s, '\n');
    if s == [] then []
    else if k == |s| then [false]
    else [k > 0 && s[k - 1] == '\r'] + CrsOf(s[k + 1..])
  }

  predicate Plain(s: string) { forall i :: 0 <= i < |s| ==> s[i] != '\n' && s[i] != '\r' }

  /** A line that holds no LF and does not end in CR, so that a reader gets it back whole. */
  predicate CleanLine(line: string) { '\n' !in line && (line == [] || line[|line| - 1] != '\r') }

  lemma {:induction false} IndexOfUnique(a: string, b: string, c: char)
    requires c !in a && b != [] && b[0] == c
    ensures IndexOf(a + b, c) == |a|
  {
    if a == [] {
      assert a + b == b;
    } else {
      assert (a + b)[1..] == a[1..] + b;
      IndexOfUnique(a[1..], b, c);
    }
  }

  lemma LinesOfFirst(head: string, rest: string)
    requires '\n' !in head
    ensures Lines(head + "\n" + rest) == [StripCr(head)] + Lines(rest)
  {
    var s := head + "\n" + rest;
    assert s == head + ("\n" + rest);
    IndexOfUnique(head, "\n" + rest, '\n');
    assert s[..|head|] == head && s[|head| + 1..] == rest;
  }

  lemma LinesOfEnded(line: string, cr: bool, rest: string)
    requires CleanLine(line)
    ensures Lines(line + (if cr then "\r\n" else "\n") + rest) == [line] + Lines(rest)
  {
    if cr {
      assert line + "\r\n" + rest == (line + "\r") + "\n" + rest;
      assert StripCr(line + "\r") == line;
      LinesOfFirst(line + "\r", rest);
    } else {
      LinesOfFirst(line, rest);
    }
  }

  lemma {:induction false} LinesOfJoin(lines: seq<string>, crs: seq<bool>)
    requires |lines| == |crs|
    requires forall l :: l in lines ==> CleanLine(l)
    ensures Lines(JoinLines(lines, crs)) == lines
  {
    if lines != [] {
      LinesOfJoin(lines[1..], crs[1..]);
      LinesOfEnded(lines[0], crs[0], JoinLines(lines[1..], crs[1..]));
      assert lines == [lines[0]] + lines[1..];
    }
  }

  lemma SplitAtLf(s: string, k: nat)
    requires k < |s| && s[k] == '\n'
    ensures s == StripCr(s[..k]) + (if k > 0 && s[k - 1] == '\r' then "\r\n" else "\n") + s[k + 1..]
  {
    if k > 0 && s[k - 1] == '\r' {
      assert StripCr(s[..k]) == s[..k - 1];
    } else {
      assert StripCr(s[..k]) == s[..k];
    }
  }

  lemma {:induction false} JoinOfLines(s: string)
    requires s == [] || s[|s| - 1] == '\n'
    ensures |CrsOf(s)| == |Lines(s)| && JoinLines(Lines(s), CrsOf(s)) == s
    decreases |s|
  {
    if s != [] {
      var k := IndexOf(s, '\n');
      SplitAtLf(s, k);
      JoinOfLines(s[k + 1..]);
      assert Lines(s)[1..] == Lines(s[k + 1..]) && CrsOf(s)[1..] == CrsOf(s[k + 1..]);
    }
  }

  // ---- Printing ----

  function CheckLine(i: nat, check: AttestedCheck): (s: string) {
    "check[" + Decimal(i) + "]: " + Json.PrintStrings(check.argv) + " exit=" + IntText(check.exitCode)
  }

  function IntText(n: int): (s: string) { if n < 0 then "-" + Decimal(-n) else Decimal(n) }

  /** What the first six lines start with. */
  function Label(i: nat): (s: string)
    requires i < 6
    ensures Plain(s)
  {
    if i == 0 then MARKER + " job-hash="
    else if i == 1 then "raw-tree: "
    else if i == 2 then "declaration: "
    else if i == 3 then "env-kind: "
    else if i == 4 then "env-ref: "
    else "net: "
  }

  function HeaderLines(a: ChecksAttestation): (r: seq<string>) {
    [ Label(0) + a.jobHash, Label(1) + a.rawTree, Label(2) + a.declaration,
      Label(3) + EnvKindText(a.envKind), Label(4) + a.envRef, Label(5) + a.net ]
  }

  function CheckLines(checks: seq<AttestedCheck>): (r: seq<string>)
    ensures |r| == |checks|
  {
    seq(|checks|, i requires 0 <= i < |checks| => CheckLine(i, checks[i]))
  }

  function RenderLines(a: ChecksAttestation): (r: seq<string>) {
    HeaderLines(a) + CheckLines(a.checks) + ["verdict: " + a.verdict]
  }

  lemma {:induction false} UnlinesConcat(a: seq<string>, b: seq<string>)
    ensures Unlines(a + b) == Unlines(a) + Unlines(b)
  {
    if a == [] {
      assert a + b == b;
    } else {
      UnlinesConcat(a[1..], b);
      assert (a + b)[1..] == a[1..] + b;
      assert NoCr(|a + b|)[1..] == NoCr(|a[1..] + b|) && NoCr(|a|)[1..] == NoCr(|a[1..]|);
    }
  }

  lemma UnlinesOne(line: string)
    ensures Unlines([line]) == line + "\n"
  {
    assert NoCr(1) == [false];
    assert JoinLines([line][1..], [false][1..]) == "";
  }

  lemma UnlinesAppend(lines: seq<string>, line: string)
    ensures Unlines(lines + [line]) == Unlines(lines) + (line + "\n")
  {
    UnlinesOne(line);
    UnlinesConcat(lines, [line]);
  }

  lemma UnlinesSix(a: string, b: string, c: string, d: string, e: string, f: string)
    ensures Unlines([a, b, c, d, e, f])
         == a + "\n" + (b + "\n") + (c + "\n") + (d + "\n") + (e + "\n") + (f + "\n")
  {
    UnlinesOne(a);
    UnlinesAppend([a], b);
    UnlinesAppend([a, b], c);
    UnlinesAppend([a, b, c], d);
    UnlinesAppend([a, b, c, d], e);
    UnlinesAppend([a, b, c, d, e], f);
    assert [a] + [b] == [a, b] && [a, b] + [c] == [a, b, c] && [a, b, c] + [d] == [a, b, c, d];
    assert [a, b, c, d] + [e] == [a, b, c, d, e] && [a, b, c, d, e] + [f] == [a, b, c, d, e, f];
  }

  lemma CheckLinesAppend(checks: seq<AttestedCheck>, c: AttestedCheck)
    ensures CheckLines(checks + [c]) == CheckLines(checks) + [CheckLine(|checks|, c)]
  {
  }

  lemma UnlinesCheck(head: seq<string>, checks: seq<AttestedCheck>, i: nat)
    requires i < |checks|
    ensures Unlines(head + CheckLines(checks[..i + 1]))
         == Unlines(head + CheckLines(checks[..i])) + (CheckLine(i, checks[i]) + "\n")
  {
    var line := CheckLine(i, checks[i]);
    assert checks[..i + 1] == checks[..i] + [checks[i]];
    CheckLinesAppend(checks[..i], checks[i]);
    UnlinesAppend(head + CheckLines(checks[..i]), line);
    assert head + CheckLines(checks[..i]) + [line] == head + (CheckLines(checks[..i]) + [line]);
  }

  method RenderHeader(a: ChecksAttestation) returns (out: string)
    ensures out == Unlines(HeaderLines(a))
  {
    var head := HeaderLines(a);
    out := head[0] + "\n" + (head[1] + "\n") + (head[2] + "\n")
           + (head[3] + "\n") + (head[4] + "\n") + (head[5] + "\n");
    UnlinesSix(head[0], head[1], head[2], head[3], head[4], head[5]);
  }

  method RenderAttestation(a: ChecksAttestation) returns (out: string)
    ensures out == Unlines(RenderLines(a))
  {
    out := RenderHeader(a);
    ghost var head := HeaderLines(a);
    assert head + CheckLines(a.checks[..0]) == head;
    for i := 0 to |a.checks|
      invariant out == Unlines(head + CheckLines(a.checks[..i]))
    {
      UnlinesCheck(head, a.checks, i);
      out := out + (CheckLine(i, a.checks[i]) + "\n");
    }
    assert a.checks[..|a.checks|] == a.checks;
    UnlinesAppend(head + CheckLines(a.checks), "verdict: " + a.verdict);
    out := out + ("verdict: " + a.verdict + "\n");
  }

  // ---- Reading ----

  function Prefixed(line: string, prefix: string): (r: Result<string, ChecksError>)
    ensures r.Ok? <==> prefix <= line
    ensures r.Ok? ==> line == prefix + r.value
  {
    if prefix <= line then Ok(line[|prefix|..]) else Err(Malformed("expected " + prefix))
  }

  lemma PrefixedOfConcat(prefix: string, rest: string)
    ensures Prefixed(prefix + rest, prefix) == Ok(rest)
  {
    assert (prefix + rest)[|prefix|..] == rest;
  }

  /** The last place where `pattern` occurs at or before `upTo` (`str::rsplit_once`). */
  function LastOccurrence(s: string, pattern: string, upTo: nat): (r: Option<nat>)
    ensures r.Some? ==> r.value <= upTo && OccursAt(s, pattern, r.value)
  {
    if OccursAt(s, pattern, upTo) then Some(upTo)
    else if upTo == 0 then None
    else LastOccurrence(s, pattern, upTo - 1)
  }

  lemma {:induction false} LastOccurrenceIsLast(s: string, pattern: string, upTo: nat, i: nat)
    requires i <= upTo && OccursAt(s, pattern, i)
    ensures LastOccurrence(s, pattern, upTo).Some? && i <= LastOccurrence(s, pattern, upTo).value
  {
    if i < upTo {
      LastOccurrenceIsLast(s, pattern, upTo - 1, i);
    }
  }

  const EXIT := " exit="

  function ParseCheck(i: nat, line: string): (r: Result<AttestedCheck, ChecksError>) {
    var rest := Prefixed(line, "check[" + Decimal(i) + "]: ");
    if rest.Err? then Err(rest.error)
    else
      var at := LastOccurrence(rest.value, EXIT, |rest.value|);
      if at.None? then Err(Malformed("bad check line"))
      else
        var json := rest.value[..at.value];
        var exit := rest.value[at.value + |EXIT|..];
        var argv := Json.ReadStrings(json);
        if argv.None? then Err(Malformed("bad argv"))
        else if argv.value == [] then Err(EmptyCommand)
        else if Json.PrintStrings(argv.value) != json || exit != "0" then
          Err(Malformed("non-canonical or failed check line"))
        else Ok(AttestedCheck(argv.value, 0))
  }

  function ParseChecks(lines: seq<string>): (r: Result<seq<AttestedCheck>, ChecksError>)
    ensures r.Ok? ==> |r.value| == |lines|
  {
    if lines == [] then Ok([])
    else
      var before := ParseChecks(lines[..|lines| - 1]);
      if before.Err? then before
      else
        var last := ParseCheck(|lines| - 1, lines[|lines| - 1]);
        if last.Err? then Err(last.error) else Ok(before.value + [last.value])
  }

  /** Everything before the check lines; the checks and the verdict are left for `Parse`. */
  function ParseHeader(lines: seq<string>): (r: Result<ChecksAttestation, ChecksError>)
    requires |lines| >= 7
  {
    var jobHash := Prefixed(lines[0], Label(0));
    var rawTree := Prefixed(lines[1], Label(1));
    var declaration := Prefixed(lines[2], Label(2));
    var envKind := Prefixed(lines[3], Label(3));
    var envRef := Prefixed(lines[4], Label(4));
    var net := Prefixed(lines[5], Label(5));
    if jobHash.Err? then Err(jobHash.error)
    else if rawTree.Err? then Err(rawTree.error)
    else if declaration.Err? then Err(declaration.error)
    else if envKind.Err? then Err(envKind.error)
    else if EnvKindFromWire(envKind.value).None? then Err(Malformed("unknown env-kind"))
    else if envRef.Err? then Err(envRef.error)
    else if net.Err? then Err(net.error)
    else if net.value != "denied" && net.value != "open" then Err(Malformed("bad net posture"))
    else if !IsHex(jobHash.value, 64) || !IsHex(rawTree.value, 40) || !IsHex(declaration.value, 64)
            || envRef.value == [] || !HasNoControls(envRef.value) then
      Err(Malformed("invalid attestation binding"))
    else
      Ok(ChecksAttestation(jobHash.value, rawTree.value, declaration.value,
                           EnvKindFromWire(envKind.value).value, envRef.value, net.value, [], ""))
  }

  function ParseLines(lines: seq<string>): (r: Result<ChecksAttestation, ChecksError>)
    requires |lines| >= 7
  {
    var header := ParseHeader(lines);
    if header.Err? then header else ParseRest(header.value, lines[6..|lines| - 1], lines[|lines| - 1])
  }

  function ParseRest(header: ChecksAttestation, body: seq<string>, last: string)
    : (r: Result<ChecksAttestation, ChecksError>)
  {
    var checks := ParseChecks(body);
    if checks.Err? then Err(checks.error)
    else if checks.value == [] then Err(Malformed("attestation has no checks"))
    else
      var verdict := Prefixed(last, "verdict: ");
      if verdict.Err? then Err(verdict.error)
      else if verdict.value != "pass" then Err(Malformed("unsupported verdict"))
      else Ok(header.(checks := checks.value, verdict := verdict.value))
  }

  function Parse(content: string): (r: Result<ChecksAttestation, ChecksError>) {
    var lines := Lines(content);
    if |lines| < 7 || content[|content| - 1] != '\n' then Err(Malformed("attestation has missing lines"))
    else ParseLines(lines)
  }

  /** The loop over the check lines, numbered from zero. */
  method ReadChecks(body: seq<string>) returns (r: Result<seq<AttestedCheck>, ChecksError>)
    ensures r == ParseChecks(body)
  {
    var checks: seq<AttestedCheck> := [];
    for i := 0 to |body|
      invariant ParseChecks(body[..i]) == Ok(checks)
    {
      var check := ParseCheck(i, body[i]);
      assert body[..i + 1][..i] == body[..i];
      if check.Err? {
        ParseChecksStops(body, i + 1);
        return Err(check.error);
      }
      checks := checks + [check.value];
    }
    assert body[..|body|] == body;
    return Ok(checks);
  }

  method ParseAttestation(content: string) returns (r: Result<ChecksAttestation, ChecksError>)
    ensures r == Parse(content)
  {
    var lines := Lines(content);
    if |lines| < 7 || content[|content| - 1] != '\n' {
      return Err(Malformed("attestation has missing lines"));
    }
    var header := ParseHeader(lines);
    if header.Err? {
      return header;
    }
    var read := ReadChecks(lines[6..|lines| - 1]);
    if read.Err? {
      return Err(read.error);
    }
    var checks := read.value;
    if checks == [] {
      return Err(Malformed("attestation has no checks"));
    }
    var verdict := Prefixed(lines[|lines| - 1], "verdict: ");
    if verdict.Err? {
      return Err(verdict.error);
    }
    if verdict.value != "pass" {
      return Err(Malformed("unsupported verdict"));
    }
    return Ok(header.value.(checks := checks, verdict := verdict.value));
  }

  lemma {:induction false} ParseChecksStops(lines: seq<string>, n: nat)
    requires n <= |lines| && ParseChecks(lines[..n]).Err?
    ensures ParseChecks(lines) == ParseChecks(lines[..n])
    decreases |lines|
  {
    if n == |lines| {
      assert lines[..n] == lines;
    } else {
      assert lines[..|lines| - 1][..n] == lines[..n];
      ParseChecksStops(lines[..|lines| - 1], n);
    }
  }

  // ---- The reader accepts exactly the printer's texts, up to CR before LF ----

  predicate ValidCheck(c: AttestedCheck) { c.argv != [] && c.exitCode == 0 }

  predicate ValidHeader(a: ChecksAttestation) {
    && IsHex(a.jobHash, 64) && IsHex(a.rawTree, 40) && IsHex(a.declaration, 64)
    && a.envRef != [] && HasNoControls(a.envRef)
    && (a.net == "denied" || a.net == "open")
  }

  predicate Valid(a: ChecksAttestation) {
    && ValidHeader(a)
    && a.checks != [] && (forall i :: 0 <= i < |a.checks| ==> ValidCheck(a.checks[i]))
    && a.verdict == "pass"
  }

  lemma LastExitOfCheckLine(json: string)
    ensures LastOccurrence(json + EXIT + "0", EXIT, |json + EXIT + "0"|) == Some(|json|)
  {
    var s := json + EXIT + "0";
    assert s[|json|..|json| + |EXIT|] == EXIT;
    assert OccursAt(s, EXIT, |json|);
    LastOccurrenceIsLast(s, EXIT, |s|, |json|);
    var tail := |json| + 1;
    assert s[tail..tail + |EXIT|][0] == s[tail] == 'e' && EXIT[0] == ' ';
  }

  lemma ParseCheckOfLine(i: nat, c: AttestedCheck)
    requires ValidCheck(c)
    ensures ParseCheck(i, CheckLine(i, c)) == Ok(c)
  {
    var prefix := "check[" + Decimal(i) + "]: ";
    var json := Json.PrintStrings(c.argv);
    assert IntText(0) == "0";
    assert CheckLine(i, c) == prefix + (json + EXIT + "0");
    LastExitOfCheckLine(json);
    Json.ReadPrinted(c.argv);
    var rest := json + EXIT + "0";
    assert rest[..|json|] == json && rest[|json| + |EXIT|..] == "0";
  }

  lemma LineOfParsedCheck(i: nat, line: string)
    requires ParseCheck(i, line).Ok?
    ensures line == CheckLine(i, ParseCheck(i, line).value) && ValidCheck(ParseCheck(i, line).value)
  {
    var prefix := "check[" + Decimal(i) + "]: ";
    var rest := Prefixed(line, prefix).value;
    var at := LastOccurrence(rest, EXIT, |rest|).value;
    assert rest == rest[..at] + EXIT + rest[at + |EXIT|..];
    assert IntText(0) == "0";
  }

  lemma ParseChecksAppend(front: seq<string>, line: string)
    requires ParseChecks(front).Ok? && ParseCheck(|front|, line).Ok?
    ensures ParseChecks(front + [line]) == Ok(ParseChecks(front).value + [ParseCheck(|front|, line).value])
  {
    assert (front + [line])[..|front|] == front;
  }

  lemma {:induction false} ParseChecksOfLines(checks: seq<AttestedCheck>)
    requires forall i :: 0 <= i < |checks| ==> ValidCheck(checks[i])
    ensures ParseChecks(CheckLines(checks)) == Ok(checks)
  {
    if checks != [] {
      var n := |checks| - 1;
      var front, c := checks[..n], checks[n];
      assert checks == front + [c];
      ParseChecksOfLines(front);
      ParseCheckOfLine(n, c);
      CheckLinesAppend(front, c);
      ParseChecksAppend(CheckLines(front), CheckLine(n, c));
    }
  }

  predicate AllValid(checks: seq<AttestedCheck>) { forall i :: 0 <= i < |checks| ==> ValidCheck(checks[i]) }

  lemma {:induction false} LinesOfParsedChecks(lines: seq<string>)
    requires ParseChecks(lines).Ok?
    ensures CheckLines(ParseChecks(lines).value) == lines && AllValid(ParseChecks(lines).value)
  {
    if lines != [] {
      var n := |lines| - 1;
      LinesOfParsedChecks(lines[..n]);
      LineOfParsedCheck(n, lines[n]);
      OneMoreCheck(lines[..n], lines[n], ParseChecks(lines[..n]).value, ParseCheck(n, lines[n]).value);
      FrontAndLast(lines);
    }
  }

  lemma OneMoreCheck(front: seq<string>, line: string, before: seq<AttestedCheck>, c: AttestedCheck)
    requires CheckLines(before) == front && AllValid(before) && line == CheckLine(|front|, c) && ValidCheck(c)
    ensures CheckLines(before + [c]) == front + [line] && AllValid(before + [c])
  {
    CheckLinesAppend(before, c);
  }

  lemma PlainConcat(a: string, b: string)
    requires Plain(a) && Plain(b)
    ensures Plain(a + b) && CleanLine(a + b)
  {
  }

  lemma CheckLineIsPlain(i: nat, c: AttestedCheck)
    requires ValidCheck(c)
    ensures CleanLine(CheckLine(i, c))
  {
    Json.PrintItemsHasNoControls(c.argv);
    var json := Json.PrintStrings(c.argv);
    PlainConcat("check[", Decimal(i));
    PlainConcat("check[" + Decimal(i), "]: ");
    PlainConcat("check[" + Decimal(i) + "]: ", json);
    PlainConcat("check[" + Decimal(i) + "]: " + json, " exit=");
    PlainConcat("check[" + Decimal(i) + "]: " + json + " exit=", IntText(0));
  }

  lemma RenderLinesAreClean(a: ChecksAttestation)
    requires Valid(a)
    ensures forall l :: l in RenderLines(a) ==> CleanLine(l)
  {
    PlainConcat(Label(0), a.jobHash);
    PlainConcat(Label(1), a.rawTree);
    PlainConcat(Label(2), a.declaration);
    PlainConcat(Label(3), EnvKindText(a.envKind));
    PlainConcat(Label(4), a.envRef);
    PlainConcat(Label(5), a.net);
    forall i | 0 <= i < |a.checks|
      ensures CleanLine(CheckLines(a.checks)[i])
    {
      CheckLineIsPlain(i, a.checks[i]);
    }
    var head, tail := HeaderLines(a), ["verdict: " + a.verdict];
    forall l | l in RenderLines(a)
      ensures CleanLine(l)
    {
      assert l in head || l in CheckLines(a.checks) || l in tail;
    }
  }

  lemma FirstSix(lines: seq<string>)
    requires |lines| >= 7
    ensures lines[..6] == [lines[0], lines[1], lines[2], lines[3], lines[4], lines[5]]
  {
  }

  predicate HeaderReads(a: ChecksAttestation, lines: seq<string>)
    requires |lines| >= 7
  {
    && Prefixed(lines[0], Label(0)) == Ok(a.jobHash)
    && Prefixed(lines[1], Label(1)) == Ok(a.rawTree)
    && Prefixed(lines[2], Label(2)) == Ok(a.declaration)
    && Prefixed(lines[3], Label(3)) == Ok(EnvKindText(a.envKind))
    && Prefixed(lines[4], Label(4)) == Ok(a.envRef)
    && Prefixed(lines[5], Label(5)) == Ok(a.net)
  }

  lemma HeaderLinesRead(a: ChecksAttestation, lines: seq<string>)
    requires |lines| >= 7 && lines[..6] == HeaderLines(a)
    ensures HeaderReads(a, lines)
  {
    FirstSix(lines);
    PrefixedOfConcat(Label(0), a.jobHash);
    PrefixedOfConcat(Label(1), a.rawTree);
    PrefixedOfConcat(Label(2), a.declaration);
    PrefixedOfConcat(Label(3), EnvKindText(a.envKind));
    PrefixedOfConcat(Label(4), a.envRef);
    PrefixedOfConcat(Label(5), a.net);
  }

  lemma HeaderParses(a: ChecksAttestation, lines: seq<string>)
    requires ValidHeader(a) && |lines| >= 7 && HeaderReads(a, lines)
    ensures ParseHeader(lines) == Ok(a.(checks := [], verdict := ""))
  {
    assert EnvKindFromWire(EnvKindText(a.envKind)) == Some(a.envKind);
  }

  lemma ParsesRenderLines(a: ChecksAttestation)
    requires Valid(a)
    ensures ParseLines(RenderLines(a)) == Ok(a)
  {
    var lines := RenderLines(a);
    assert lines[..6] == HeaderLines(a);
    HeaderLinesRead(a, lines);
    HeaderParses(a, lines);
    assert lines[6..|lines| - 1] == CheckLines(a.checks);
    assert lines[|lines| - 1] == "verdict: " + a.verdict;
    RestParses(a);
  }

  lemma RestParses(a: ChecksAttestation)
    requires Valid(a)
    ensures ParseRest(a.(checks := [], verdict := ""), CheckLines(a.checks), "verdict: " + a.verdict) == Ok(a)
  {
    ParseChecksOfLines(a.checks);
    PrefixedOfConcat("verdict: ", a.verdict);
  }

  lemma HeaderOfParsed(lines: seq<string>)
    requires |lines| >= 7 && ParseHeader(lines).Ok?
    ensures lines[..6] == HeaderLines(ParseHeader(lines).value)
  {
    FirstSix(lines);
  }

  lemma ParsedHeaderIsValid(lines: seq<string>)
    requires |lines| >= 7 && ParseHeader(lines).Ok?
    ensures ValidHeader(ParseHeader(lines).value)
  {
  }

  lemma RestOfParsed(header: ChecksAttestation, body: seq<string>, last: string)
    requires ParseRest(header, body, last).Ok?
    ensures var a := ParseRest(header, body, last).value;
            && body == CheckLines(a.checks) && last == "verdict: " + a.verdict
            && HeaderLines(a) == HeaderLines(header) && (ValidHeader(header) ==> Valid(a))
  {
    LinesOfParsedChecks(body);
  }

  lemma RenderedFromParts(lines: seq<string>, a: ChecksAttestation)
    requires |lines| >= 7 && lines[..6] == HeaderLines(a) && lines[6..|lines| - 1] == CheckLines(a.checks)
    requires lines[|lines| - 1] == "verdict: " + a.verdict
    ensures lines == RenderLines(a)
  {
    CutInThree(lines);
  }

  lemma CutInThree<T>(s: seq<T>)
    requires |s| >= 7
    ensures s == s[..6] + s[6..|s| - 1] + [s[|s| - 1]]
  {
  }

  lemma ParsedIsRendered(lines: seq<string>)
    requires |lines| >= 7 && ParseLines(lines).Ok?
    ensures Valid(ParseLines(lines).value) && lines == RenderLines(ParseLines(lines).value)
  {
    HeaderOfParsed(lines);
    ParsedHeaderIsValid(lines);
    RestOfParsed(ParseHeader(lines).value, lines[6..|lines| - 1], lines[|lines| - 1]);
    RenderedFromParts(lines, ParseLines(lines).value);
  }

  lemma JoinEndsInLf(lines: seq<string>, crs: seq<bool>)
    requires |lines| == |crs| > 0
    ensures JoinLines(lines, crs) != [] && JoinLines(lines, crs)[|JoinLines(lines, crs)| - 1] == '\n'
  {
  }

  /** A text is accepted as `a` exactly when `a` is valid and the text is its print, with CR allowed before any LF. */
  lemma AcceptsExactlyRenders(content: string, a: ChecksAttestation)
    ensures Parse(content) == Ok(a) <==>
            Valid(a) && exists crs :: |crs| == |RenderLines(a)| && content == JoinLines(RenderLines(a), crs)
  {
    if Parse(content) == Ok(a) {
      ParsedIsRendered(Lines(content));
      JoinOfLines(content);
      assert |CrsOf(content)| == |RenderLines(a)|;
    }
    if Valid(a) && exists crs :: |crs| == |RenderLines(a)| && content == JoinLines(RenderLines(a), crs) {
      var crs :| |crs| == |RenderLines(a)| && content == JoinLines(RenderLines(a), crs);
      RenderLinesAreClean(a);
      LinesOfJoin(RenderLines(a), crs);
      JoinEndsInLf(RenderLines(a), crs);
      ParsesRenderLines(a);
    }
  }

  lemma RoundTrip(a: ChecksAttestation)
    requires Valid(a)
    ensures Parse(Unlines(RenderLines(a))) == Ok(a)
  {
    var crs := NoCr(|RenderLines(a)|);
    assert Unlines(RenderLines(a)) == JoinLines(RenderLines(a), crs);
    AcceptsExactlyRenders(Unlines(RenderLines(a)), a);
  }
}
