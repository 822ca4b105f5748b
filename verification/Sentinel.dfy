/** The delivery execution sentinel (crates/maxplayer-core/src/delivery_sentinel.rs). */
module Sentinel {
  import opened Basics

  const MARKER := "maxplayer-execution-sentinel/v1"

  datatype DeliveryMode = FromScratch | Contribution

  function ModeText(m: DeliveryMode): (s: string) {
    match m case FromScratch => "from-scratch" case Contribution => "contribution"
  }

  function TokenHead(): (s: string) { MARKER + " job-hash=" }

  function JobBoundToken(jobHash: string): (s: string) { TokenHead() + jobHash }

  function ManifestTail(mode: DeliveryMode, files: u64, bytes: u64): (s: string) {
    "\nmode: " + ModeText(mode) + "\nfiles: " + Decimal(files) + "\nbytes: " + Decimal(bytes) + "\n"
  }

  function RenderManifest(jobHash: string, mode: DeliveryMode, files: u64, bytes: u64): (s: string) {
    JobBoundToken(jobHash) + ManifestTail(mode, files, bytes)
  }

  /** `str::contains`. */
  predicate Contains(s: string, pattern: string) {
    exists i: nat :: i <= |s| && OccursAt(s, pattern, i)
  }

  /** `str::replace` by the empty string: occurrences are cut from the left, never overlapping. */
  function Cut(s: string, pattern: string): (r: string)
    requires pattern != []
  {
    if |s| < |pattern| then s
    else if s[..|pattern|] == pattern then Cut(s[|pattern|..], pattern)
    else [s[0]] + Cut(s[1..], pattern)
  }

  predicate ContentCarriesSentinel(content: string, jobHash: string, subtractPath: string) {
    if subtractPath == [] then Contains(content, JobBoundToken(jobHash))
    else Contains(Cut(content, subtractPath), JobBoundToken(jobHash))
  }

  /** Cutting leaves everything before the first occurrence alone. */
  lemma OccursLater(s: string, pattern: string, i: nat)
    requires s != []
    ensures OccursAt(s[1..], pattern, i) <==> OccursAt(s, pattern, i + 1)
  {
    if i + 1 + |pattern| <= |s| {
      assert s[1..][i..i + |pattern|] == s[i + 1..i + 1 + |pattern|];
    }
  }

  lemma CutSkipsOne(s: string, pattern: string)
    requires pattern != [] && s != [] && !OccursAt(s, pattern, 0)
    ensures Cut(s, pattern) == [s[0]] + Cut(s[1..], pattern)
  {
    if |s| >= |pattern| {
      assert s[..|pattern|] == s[0..0 + |pattern|];
    } else {
      assert s == [s[0]] + s[1..];
    }
  }

  lemma {:induction false} CutSkips(s: string, pattern: string, k: nat)
    requires pattern != [] && k <= |s|
    requires forall i: nat :: i < k ==> !OccursAt(s, pattern, i)
    ensures Cut(s, pattern) == s[..k] + Cut(s[k..], pattern)
  {
    if k == 0 {
      assert s[..0] == [] && s[0..] == s;
    } else {
      CutSkipsOne(s, pattern);
      forall i: nat | i < k - 1
        ensures !OccursAt(s[1..], pattern, i)
      {
        OccursLater(s, pattern, i);
      }
      CutSkips(s[1..], pattern, k - 1);
      assert s[1..][k - 1..] == s[k..];
      assert s[..k] == [s[0]] + s[1..][..k - 1];
    }
  }

  lemma NothingToCut(s: string, pattern: string)
    requires pattern != [] && forall i: nat :: i < |s| ==> !OccursAt(s, pattern, i)
    ensures Cut(s, pattern) == s
  {
    CutSkips(s, pattern, |s|);
    assert s[|s|..] == [] && s[..|s|] == s && Cut([], pattern) == [];
  }

  lemma HeadShape()
    ensures |TokenHead()| == 41 && TokenHead()[40] == '=' && TokenHead()[28] == '/'
    ensures forall k :: 0 <= k < 41 && k != 28 ==> TokenHead()[k] != '/'
  {
  }

  lemma TailShape(mode: DeliveryMode, files: u64, bytes: u64)
    ensures var t := ManifestTail(mode, files, bytes);
            20 < |t| <= 76 && t[0] == '\n' && t[19] == '\n' && '/' !in t
  {
    DecimalLengthU64(files);
    DecimalLengthU64(bytes);
    var t := ManifestTail(mode, files, bytes);
    var a := "\nmode: " + ModeText(mode);
    assert |ModeText(mode)| == 12 && '/' !in ModeText(mode);
    assert '/' !in a && |a| == 19;
    var b := "\nfiles: " + Decimal(files);
    var c := "\nbytes: " + Decimal(bytes) + "\n";
    assert '/' !in b && '/' !in c && 9 <= |b| <= 28 && |c| <= 29;
    assert t == a + b + c;
  }

  /** The only 64-digit hex run of a manifest is its own job hash. */
  lemma HexRunsOfManifest(h: string, mode: DeliveryMode, files: u64, bytes: u64, path: string, i: nat)
    requires IsHex(h, 64) && IsHex(path, 64)
    requires OccursAt(RenderManifest(h, mode, files, bytes), path, i)
    ensures i == 41 && path == h
  {
    var m := RenderManifest(h, mode, files, bytes);
    var t := ManifestTail(mode, files, bytes);
    HeadShape();
    TailShape(mode, files, bytes);
    assert m == TokenHead() + h + t;
    assert m[40] == '=' && m[105] == '\n' && m[105 + 19] == '\n';
    HexRun(m, path, i);
    assert !IsHexDigit(m[40]) && !IsHexDigit(m[105]) && !IsHexDigit(m[124]);
    assert m[41..105] == h;
  }

  lemma HexRun(m: string, path: string, i: nat)
    requires IsHex(path, 64) && OccursAt(m, path, i)
    ensures i + 64 <= |m| && forall k :: i <= k < i + 64 ==> IsHexDigit(m[k])
  {
    forall k | i <= k < i + 64
      ensures IsHexDigit(m[k])
    {
      assert m[i..i + 64][k - i] == m[k];
    }
  }

  lemma TokenOnlyAtStart(content: string, h: string, i: nat)
    requires OccursAt(content, JobBoundToken(h), i)
    requires forall k :: 0 <= k < |content| && k != 28 ==> content[k] != '/'
    ensures i == 0 && |content| >= 41 + |h| && content[41..41 + |h|] == h
    ensures h != [] ==> content[41] == h[0]
  {
    HeadShape();
    var token := JobBoundToken(h);
    assert token[28] == '/';
    assert content[i..i + |token|][28] == content[i + 28];
    assert token[41..] == h;
    assert content[0..|token|][41..] == content[41..|token|];
  }

  lemma ManifestSlashes(h: string, mode: DeliveryMode, files: u64, bytes: u64)
    requires '/' !in h
    ensures var m := RenderManifest(h, mode, files, bytes);
            forall k :: 0 <= k < |m| && k != 28 ==> m[k] != '/'
  {
    HeadShape();
    TailShape(mode, files, bytes);
    var m := RenderManifest(h, mode, files, bytes);
    var t := ManifestTail(mode, files, bytes);
    forall k | 0 <= k < |m| && k != 28
      ensures m[k] != '/'
    {
      if k >= 41 + |h| {
        assert m[k] == t[k - 41 - |h|];
      } else if k >= 41 {
        assert m[k] == h[k - 41];
      } else {
        assert m[k] == TokenHead()[k];
      }
    }
  }

  lemma UncutManifest(h: string, mode: DeliveryMode, files: u64, bytes: u64, other: string)
    requires IsHex(h, 64) && IsHex(other, 64)
    ensures Contains(RenderManifest(h, mode, files, bytes), JobBoundToken(other)) <==> h == other
  {
    var m := RenderManifest(h, mode, files, bytes);
    ManifestSlashes(h, mode, files, bytes);
    HeadShape();
    assert m[41..105] == h;
    forall i: nat | OccursAt(m, JobBoundToken(other), i)
      ensures h == other
    {
      TokenOnlyAtStart(m, other, i);
    }
    if h == other {
      assert m[0..0 + |JobBoundToken(h)|] == JobBoundToken(h);
      assert OccursAt(m, JobBoundToken(h), 0);
    }
  }

  lemma TailHasNoHash(h: string, mode: DeliveryMode, files: u64, bytes: u64, i: nat)
    requires IsHex(h, 64)
    ensures !OccursAt(ManifestTail(mode, files, bytes), h, i)
  {
    var t := ManifestTail(mode, files, bytes);
    TailShape(mode, files, bytes);
    if i + 64 <= |t| {
      assert t[i..i + 64][19 - i] == '\n';
      assert IsHexDigit(h[19 - i]);
    }
  }

  lemma CutOnce(head: string, h: string, tail: string)
    requires h != [] && forall i: nat :: OccursAt(head + h + tail, h, i) ==> i == |head|
    requires forall i: nat :: !OccursAt(tail, h, i)
    ensures Cut(head + h + tail, h) == head + tail
  {
    var m := head + h + tail;
    CutSkips(m, h, |head|);
    assert m[..|head|] == head && m[|head|..] == h + tail;
    assert (h + tail)[..|h|] == h && (h + tail)[|h|..] == tail;
    NothingToCut(tail, h);
  }

  lemma CutOwnHash(h: string, mode: DeliveryMode, files: u64, bytes: u64)
    requires IsHex(h, 64)
    ensures Cut(RenderManifest(h, mode, files, bytes), h) == RenderManifest([], mode, files, bytes)
  {
    var t := ManifestTail(mode, files, bytes);
    ManifestParts(h, mode, files, bytes);
    ManifestParts([], mode, files, bytes);
    forall i: nat
      ensures OccursAt(TokenHead() + h + t, h, i) ==> i == |TokenHead()|
      ensures !OccursAt(t, h, i)
    {
      OwnHashOnce(h, mode, files, bytes, i);
      TailHasNoHash(h, mode, files, bytes, i);
    }
    CutOnce(TokenHead(), h, t);
    assert TokenHead() + [] + t == TokenHead() + t;
  }

  lemma ManifestParts(h: string, mode: DeliveryMode, files: u64, bytes: u64)
    ensures RenderManifest(h, mode, files, bytes) == TokenHead() + h + ManifestTail(mode, files, bytes)
  {
  }

  lemma OwnHashOnce(h: string, mode: DeliveryMode, files: u64, bytes: u64, i: nat)
    requires IsHex(h, 64)
    ensures OccursAt(TokenHead() + h + ManifestTail(mode, files, bytes), h, i) ==> i == |TokenHead()|
  {
    ManifestParts(h, mode, files, bytes);
    HeadShape();
    if OccursAt(RenderManifest(h, mode, files, bytes), h, i) {
      HexRunsOfManifest(h, mode, files, bytes, h, i);
    }
  }

  /** Cutting the job hash itself out of its manifest leaves no token of any job. */
  lemma SelfCutManifest(h: string, mode: DeliveryMode, files: u64, bytes: u64, other: string)
    requires IsHex(h, 64) && IsHex(other, 64)
    ensures !Contains(Cut(RenderManifest(h, mode, files, bytes), h), JobBoundToken(other))
  {
    CutOwnHash(h, mode, files, bytes);
    var rest := RenderManifest([], mode, files, bytes);
    HeadShape();
    ManifestSlashes([], mode, files, bytes);
    TailShape(mode, files, bytes);
    assert rest[41] == ManifestTail(mode, files, bytes)[0] == '\n';
    forall i: nat | OccursAt(rest, JobBoundToken(other), i)
      ensures false
    {
      TokenOnlyAtStart(rest, other, i);
    }
  }

  /**
   * Replay resistance: a manifest written for job `h` is recognised for job `other` under the workdir
   * label `path` exactly when it is the same job and the label is not the hash itself.
   */
  lemma ManifestRecognisedExactly(
    h: string, mode: DeliveryMode, files: u64, bytes: u64, other: string, path: string)
    requires IsHex(h, 64) && IsHex(other, 64) && (path == [] || IsHex(path, 64))
    ensures ContentCarriesSentinel(RenderManifest(h, mode, files, bytes), other, path)
            <==> h == other && path != h
  {
    var m := RenderManifest(h, mode, files, bytes);
    assert |h| == 64;
    if path == h {
      SelfCutManifest(h, mode, files, bytes, other);
    } else {
      UncutManifest(h, mode, files, bytes, other);
      if path != [] {
        forall i: nat | i < |m|
          ensures !OccursAt(m, path, i)
        {
          if OccursAt(m, path, i) {
            HexRunsOfManifest(h, mode, files, bytes, path, i);
          }
        }
        NothingToCut(m, path);
      }
    }
  }
}
