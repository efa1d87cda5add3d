/** Verifying a corpus release: the canonical file, the manifest, and password lookups. */
module CorpusVerify {
  import opened CorpusLines
  import opened CorpusMerge
  import opened CorpusRelease
  import Spelling = CorpusSpelling
  import opened Strings
  import opened Wrappers

  // ---- Verification of a corpus file ----

  /** The lookup sets a verified corpus is loaded into. */
  datatype Verified = Verified(sha1: set<string>, sha256: set<string>, counts: Counts, bytes: nat)

  /** The lines without the carriage returns that a scanner drops. */
  function Dropped(raw: seq<string>): (lines: seq<string>)
    ensures |lines| == |raw|
  {
    seq(|raw|, i requires 0 <= i < |raw| => DropReturn(raw[i]))
  }

  function ScanLines(text: string): seq<string> {
    Dropped(RawLines(text))
  }

  /** The lines a verifier accepts, whatever bytes they were read from. */
  ghost predicate Canonical(lines: seq<string>) {
    AllDigests(lines) && Ascending(lines) && lines != [] && TotalLength(lines) <= MAXIMUM_CORPUS_BYTES
  }

  ghost predicate VerifiedAs(lines: seq<string>, v: Verified) {
    && v.sha1 == (set d | d in lines && |d| == 40) && v.sha256 == (set d | d in lines && |d| == 64)
    && v.counts.sha1 == Sized(lines, 40) && v.counts.sha256 == Sized(lines, 64)
    && v.counts.unique == |lines| && v.counts.duplicate == 0 && v.bytes == TotalLength(lines)
  }

  lemma VerifiedGrows(lines: seq<string>, d: string, v: Verified, z: Verified)
    requires VerifiedAs(lines, v) && IsDigest(d)
    requires z.sha1 == (if |d| == 40 then v.sha1 + {d} else v.sha1)
    requires z.sha256 == (if |d| == 64 then v.sha256 + {d} else v.sha256)
    requires z.counts == Counts(v.counts.sha1 + (if |d| == 40 then 1 else 0),
                                v.counts.sha256 + (if |d| == 64 then 1 else 0), v.counts.unique + 1, 0)
    requires z.bytes == v.bytes + |d| + 1
    ensures VerifiedAs(lines + [d], z)
  {
    assert (lines + [d])[..|lines|] == lines;
  }

  /** The next line of a canonical text: a digest that stands for itself, after the last one, within the limit. */
  method CheckLine(v: Verified, previous: string, line: string) returns (z: Option<Verified>)
    ensures z.Some? <==> IsDigest(line) && (previous == "" || Less(previous, line))
                         && v.bytes + |line| + 1 <= MAXIMUM_CORPUS_BYTES
    ensures z.Some? ==> z.value == Verified(
                                     if |line| == 40 then v.sha1 + {line} else v.sha1,
                                     if |line| == 64 then v.sha256 + {line} else v.sha256,
                                     Counts(v.counts.sha1 + (if |line| == 40 then 1 else 0), v.counts.sha256
                                            + (if |line| == 64 then 1 else 0), v.counts.unique + 1, v.counts.duplicate),
                                     v.bytes + |line| + 1)
  {
    var normal := Normalize(line);
    if IsDigest(line) {
      DigestIsNormal(line);
    }
    LessTrichotomy(previous, line);
    if !normal.Digest? || normal.value != line || (previous != "" && (Less(line, previous) || line == previous)) {
      return None;
    }
    var lineBytes := |line| + 1;
    if lineBytes > MAXIMUM_CORPUS_BYTES || v.bytes > MAXIMUM_CORPUS_BYTES - lineBytes {
      return None;
    }
    var counts := v.counts.(unique := v.counts.unique + 1);
    if |line| == 40 {
      z := Some(Verified(v.sha1 + {line}, v.sha256, counts.(sha1 := counts.sha1 + 1), v.bytes + lineBytes));
    } else {
      z := Some(Verified(v.sha1, v.sha256 + {line}, counts.(sha256 := counts.sha256 + 1), v.bytes + lineBytes));
    }
  }

  /** The first lines are canonical so far and are counted in `v`. */
  ghost predicate Progress(lines: seq<string>, v: Verified) {
    AllDigests(lines) && Ascending(lines) && VerifiedAs(lines, v) && v.bytes <= MAXIMUM_CORPUS_BYTES
  }

  lemma ProgressGrows(lines: seq<string>, d: string, v: Verified, z: Verified)
    requires Progress(lines, v) && IsDigest(d) && (LastOf(lines) == "" || Less(LastOf(lines), d))
    requires z.sha1 == (if |d| == 40 then v.sha1 + {d} else v.sha1)
    requires z.sha256 == (if |d| == 64 then v.sha256 + {d} else v.sha256)
    requires z.counts == Counts(v.counts.sha1 + (if |d| == 40 then 1 else 0),
                                v.counts.sha256 + (if |d| == 64 then 1 else 0), v.counts.unique + 1, 0)
    requires z.bytes == v.bytes + |d| + 1 <= MAXIMUM_CORPUS_BYTES
    ensures Progress(lines + [d], z)
  {
    VerifiedGrows(lines, d, v, z);
    AscendingGrows(lines, d);
  }

  method VerifyLines(lines: seq<string>) returns (v: Option<Verified>)
    ensures v.Some? <==> AllDigests(lines) && Ascending(lines) && TotalLength(lines) <= MAXIMUM_CORPUS_BYTES
    ensures v.Some? ==> VerifiedAs(lines, v.value)
  {
    var previous := "";
    var seen := Verified({}, {}, Counts(0, 0, 0, 0), 0);
    for i := 0 to |lines|
      invariant Progress(lines[..i], seen) && previous == LastOf(lines[..i])
    {
      var next := CheckLine(seen, previous, lines[i]);
      if next.None? {
        NotCanonical(lines, i);
        return None;
      }
      ProgressGrows(lines[..i], lines[i], seen, next.value);
      assert lines[..i + 1] == lines[..i] + [lines[i]];
      seen, previous := next.value, lines[i];
    }
    assert lines[..|lines|] == lines;
    v := Some(seen);
  }

  /** `verifyCanonicalCorpus`: accepted exactly when the scanned lines are canonical and account for every byte. */
  method VerifyCorpus(text: string) returns (v: Option<Verified>)
    ensures v.Some? <==> Accepted(text)
    ensures v.Some? ==> VerifiedAs(ScanLines(text), v.value)
  {
    if |text| <= 0 || |text| > MAXIMUM_CORPUS_BYTES || !LinesFit(RawLines(text)) {
      return None;
    }
    v := VerifyLines(ScanLines(text));
    if v.Some? && (v.value.counts.unique == 0 || v.value.bytes != |text|) {
      return None;
    }
  }

  ghost predicate Accepted(text: string) {
    && 0 < |text| <= 134_217_728 && LinesFit(RawLines(text))
    && Canonical(ScanLines(text)) && TotalLength(ScanLines(text)) == |text|
  }

  lemma NotCanonical(lines: seq<string>, i: nat)
    requires i < |lines| && AllDigests(lines[..i])
    requires !IsDigest(lines[i]) || (LastOf(lines[..i]) != "" && !Less(LastOf(lines[..i]), lines[i]))
             || TotalLength(lines[..i]) + |lines[i]| + 1 > MAXIMUM_CORPUS_BYTES
    ensures !(AllDigests(lines) && Ascending(lines) && TotalLength(lines) <= MAXIMUM_CORPUS_BYTES)
  {
    LongerByOne(lines[..i], lines[i]);
    assert lines[..i + 1] == lines[..i] + [lines[i]];
    PrefixIsShorter(lines[..i + 1], lines);
    assert i > 0 ==> LastOf(lines[..i]) == lines[i - 1];
  }

  // ---- The manifest ----

  ghost predicate EvidenceInOrder(sources: seq<Evidence>) {
    forall i, j :: 0 <= i < j < |sources| ==> Less(sources[i].id, sources[j].id)
  }

  function EvidenceBytes(sources: seq<Evidence>): nat {
    if sources == [] then 0 else EvidenceBytes(sources[..|sources| - 1]) + sources[|sources| - 1].bytes
  }

  /** What `validManifest` demands of the counts and the sources. */
  ghost predicate ValidManifest(m: Manifest) {
    && 1 <= |m.sources| <= 32 && 0 < m.bytes <= 134_217_728
    && m.counts.unique > 0 && m.counts.sha1 + m.counts.sha256 == m.counts.unique && m.rejected == 0
    && EvidenceInOrder(m.sources)
    && (forall i :: 0 <= i < |m.sources| ==> m.sources[i].id != "" && m.sources[i].bytes > 0)
    && EvidenceBytes(m.sources) <= 536_870_912
    && 41 * (m.counts.unique + m.counts.duplicate) <= EvidenceBytes(m.sources) + 1
  }

  method CheckEvidence(sources: seq<Evidence>) returns (total: Option<nat>)
    ensures total.Some? <==> EvidenceInOrder(sources)
                             && (forall i :: 0 <= i < |sources| ==> sources[i].id != "" && sources[i].bytes > 0)
                             && EvidenceBytes(sources) <= MAXIMUM_TOTAL_INPUT_BYTES
    ensures total.Some? ==> total.value == EvidenceBytes(sources)
  {
    var sum := 0;
    var previousId := "";
    for i := 0 to |sources|
      invariant sum == EvidenceBytes(sources[..i]) <= MAXIMUM_TOTAL_INPUT_BYTES
      invariant EvidenceInOrder(sources[..i]) && previousId == if i == 0 then "" else sources[i - 1].id
      invariant forall k :: 0 <= k < i ==> sources[k].id != "" && sources[k].bytes > 0
    {
      var source := sources[i];
      assert sources[..i + 1][..i] == sources[..i];
      BlankIsLeast(source.id);
      if !Less(previousId, source.id) || source.bytes <= 0 || source.bytes > MAXIMUM_TOTAL_INPUT_BYTES
         || sum > MAXIMUM_TOTAL_INPUT_BYTES - source.bytes {
        EvidencePrefix(sources, i + 1);
        return None;
      }
      InOrderGrows(sources, i);
      sum, previousId := sum + source.bytes, source.id;
    }
    assert sources[..|sources|] == sources;
    total := Some(sum);
  }

  lemma InOrderGrows(sources: seq<Evidence>, i: nat)
    requires i < |sources| && EvidenceInOrder(sources[..i]) && (i > 0 ==> Less(sources[i - 1].id, sources[i].id))
    ensures EvidenceInOrder(sources[..i + 1])
  {
    forall k | 0 <= k < i
      ensures Less(sources[k].id, sources[i].id)
    {
      if k < i - 1 {
        assert sources[..i][k] == sources[k] && sources[..i][i - 1] == sources[i - 1];
        LessTransitive(sources[k].id, sources[i - 1].id, sources[i].id);
      }
    }
    var grown := sources[..i + 1];
    forall k, l | 0 <= k < l < |grown|
      ensures Less(grown[k].id, grown[l].id)
    {
      if l < i {
        assert sources[..i][k] == sources[k] && sources[..i][l] == sources[l];
      }
    }
  }

  lemma {:induction false} EvidencePrefix(sources: seq<Evidence>, i: nat)
    requires i <= |sources|
    ensures EvidenceBytes(sources[..i]) <= EvidenceBytes(sources)
    decreases |sources|
  {
    if i < |sources| {
      var before := sources[..|sources| - 1];
      EvidencePrefix(before, i);
      assert before[..i] == sources[..i];
    } else {
      assert sources[..i] == sources;
    }
  }

  /** `validManifest`, on the fields that carry counts, sizes and order. */
  method CheckManifest(m: Manifest) returns (ok: bool)
    ensures ok <==> ValidManifest(m)
  {
    if |m.sources| == 0 || |m.sources| > MAXIMUM_INPUT_COUNT || m.bytes <= 0 || m.bytes > MAXIMUM_CORPUS_BYTES
       || m.counts.unique == 0 || m.counts.sha1 > m.counts.unique || m.counts.sha256 > m.counts.unique
       || m.counts.sha1 + m.counts.sha256 != m.counts.unique || m.rejected != 0 {
      return false;
    }
    var total := CheckEvidence(m.sources);
    if total.None? || total.value <= 0 {
      NoBytes(m.sources);
      return false;
    }
    var possible := (total.value + 1) / 41;
    ok := m.counts.unique <= possible && m.counts.duplicate <= possible - m.counts.unique;
  }

  lemma NoBytes(sources: seq<Evidence>)
    requires sources != []
    ensures sources[|sources| - 1].bytes > 0 ==> EvidenceBytes(sources) > 0
  {
  }

  // ---- What was built verifies ----

  lemma {:induction false} SizesAddUp(lines: seq<string>)
    requires DigestSizes(lines)
    ensures Sized(lines, 40) + Sized(lines, 64) == |lines|
    ensures TotalLength(lines) == 41 * Sized(lines, 40) + 65 * Sized(lines, 64)
    decreases |lines|
  {
    if lines != [] {
      SizesAddUp(lines[..|lines| - 1]);
    }
  }

  lemma FullIsDigests(sources: seq<Source>, full: seq<string>)
    requires Elements(full) == DigestSet(Elements(sources))
    ensures AllDigests(full) && DigestSizes(full)
  {
    forall i | 0 <= i < |full|
      ensures IsDigest(full[i])
    {
      assert full[i] in Elements(full);
      var s :| s in Elements(sources) && full[i] in EntriesOf(s);
      DigestsAreDigests(RawLines(s.text));
      var k :| 0 <= k < |EntriesOf(s)| && EntriesOf(s)[k] == full[i];
    }
  }

  lemma ScanCanonical(lines: seq<string>)
    requires AllDigests(lines)
    ensures RawLines(Text(lines)) == lines && ScanLines(Text(lines)) == lines && LinesFit(lines)
  {
    ScanText(lines);
    forall i | 0 <= i < |lines|
      ensures DropReturn(lines[i]) == lines[i] && |lines[i]| <= MAXIMUM_LINE_BYTES
    {
      assert IsDigest(lines[i]);
    }
    assert ScanLines(Text(lines)) == lines;
  }

  /** The corpus a build writes is accepted, and the verifier reads back the listing with the counts of the manifest. */
  lemma BuiltCorpusVerifies(sources: seq<Source>, full: seq<string>, r: Release)
    requires Buildable(sources, full) && ReleaseOf(sources, full, r)
    ensures Accepted(r.corpus) && ScanLines(r.corpus) == full
    ensures forall v :: VerifiedAs(full, v) ==>
                          v.counts.(duplicate := r.manifest.counts.duplicate) == r.manifest.counts
                          && v.bytes == r.manifest.bytes
                          && v.sha1 + v.sha256 == DigestSet(Elements(sources))
    ensures r.manifest.bytes == 41 * r.manifest.counts.sha1 + 65 * r.manifest.counts.sha256
  {
    FullIsDigests(sources, full);
    ScanCanonical(full);
    TextLength(full);
    SizesAddUp(full);
    forall v | VerifiedAs(full, v)
      ensures v.sha1 + v.sha256 == Elements(full)
    {
      assert forall d :: d in full ==> |d| == 40 || |d| == 64;
    }
  }

  /** The bytes of a source beyond 41 for each of its digests. */
  function Slack(s: Source): int {
    |s.text| - 41 * |EntriesOf(s)|
  }

  lemma {:induction false} SlackSum(list: seq<Source>)
    ensures Sum(list, Slack) == Sum(list, Bytes) - 41 * Sum(list, EntryCount)
    decreases |list|
  {
    if list != [] {
      SlackSum(list[1..]);
    }
  }

  lemma {:induction false} EvidenceSum(list: seq<Source>)
    ensures EvidenceBytes(EvidenceOf(list)) == Sum(list, Bytes)
    decreases |list|
  {
    if list != [] {
      var before := list[..|list| - 1];
      EvidenceSum(before);
      SumSnoc(list, Bytes);
      assert EvidenceOf(list)[..|list| - 1] == EvidenceOf(before);
    }
  }

  lemma EvidenceIsValid(sources: seq<Source>)
    requires Acceptable(sources)
    ensures var e := EvidenceOf(SortSources(sources));
            EvidenceInOrder(e) && |e| == |sources| && EvidenceBytes(e) == Sum(sources, Bytes)
            && forall i :: 0 <= i < |e| ==> e[i].id != "" && e[i].bytes > 0
  {
    var list := SortSources(sources);
    SortAscends(sources);
    SortKeeps(sources, Bytes);
    SortKeeps(sources, One);
    SumOfOnes(sources);
    SumOfOnes(list);
    EvidenceSum(list);
    forall i | 0 <= i < |list|
      ensures list[i].id != "" && |list[i].text| > 0
    {
      assert list[i] in Elements(list);
      var k :| 0 <= k < |sources| && sources[k] == list[i];
    }
  }

  function One(s: Source): int {
    1
  }

  lemma {:induction false} SumOfOnes(list: seq<Source>)
    ensures Sum(list, One) == |list|
    decreases |list|
  {
    if list != [] {
      SumOfOnes(list[1..]);
    }
  }

  /** A built manifest passes the entry bound exactly when the sources fall at most one byte short of 41 per digest. */
  lemma BuiltManifestIsValidIff(sources: seq<Source>, full: seq<string>, r: Release)
    requires Buildable(sources, full) && ReleaseOf(sources, full, r)
    ensures ValidManifest(r.manifest) <==> Sum(sources, Slack) >= -1
  {
    EvidenceIsValid(sources);
    FullIsDigests(sources, full);
    SizesAddUp(full);
    TextLength(full);
    SlackSum(sources);
    SomeLength(full);
  }

  lemma SomeLength(lines: seq<string>)
    requires lines != []
    ensures TotalLength(lines) > 0
  {
  }

  function Unterminated(s: Source): int {
    if EndsWithBreak(s.text) then 0 else 1
  }

  lemma {:induction false} SlackBound(list: seq<Source>)
    requires AllReadable(list)
    ensures Sum(list, Slack) >= -Sum(list, Unterminated)
    decreases |list|
  {
    if list != [] {
      SlackBound(list[..|list| - 1]);
      SumSnoc(list, Slack);
      SumSnoc(list, Unterminated);
      SourceTakesSpace(list[|list| - 1].text);
    }
  }

  /** With at most one source that lacks its final line feed, what a build writes is a valid release. */
  lemma BuiltReleaseIsValid(sources: seq<Source>, full: seq<string>, r: Release)
    requires Buildable(sources, full) && ReleaseOf(sources, full, r) && Sum(sources, Unterminated) <= 1
    ensures ValidManifest(r.manifest) && Accepted(r.corpus)
  {
    SlackBound(sources);
    BuiltManifestIsValidIff(sources, full, r);
    BuiltCorpusVerifies(sources, full, r);
  }

  // ---- A release that is built but fails the bound ----

  lemma BareDigest(d: string)
    requires IsDigest(d)
    ensures SourceDigests(d) == Some([d])
  {
    assert FirstBreak(d) == |d|;
    var raw := RawLines(d);
    assert raw == [d];
    DigestIsNormal(d);
    assert DropReturn(d) == d;
    assert raw[..0] == [] && Digests([]) == Some([]);
    assert Digests(raw) == Some([] + [d]);
    var one: seq<string> := [d];
    assert [] + one == one;
    assert LinesFit(raw);
  }

  function Bare(id: string, d: string): Source {
    Source(id, "", "", d)
  }

  lemma PairDigestSet(s: Source, t: Source)
    ensures DigestSet(Elements([s, t])) == Elements(EntriesOf(s)) + Elements(EntriesOf(t))
  {
    assert Elements([s, t]) == {s, t};
    DigestSetGrows({s}, t);
    DigestSetGrows({}, s);
    assert {} + {s} == {s} && {s} + {t} == {s, t};
    assert DigestSet({}) == {};
  }

  lemma BareSet(a: string, b: string)
    requires IsDigest(a) && IsDigest(b)
    ensures DigestSet(Elements([Bare("a", a), Bare("b", b)])) == Elements([a, b])
  {
    BareDigest(a);
    BareDigest(b);
    PairDigestSet(Bare("a", a), Bare("b", b));
    PairElements(a, b);
  }

  lemma PairFits(sources: seq<Source>, a: string, b: string)
    requires |a| == |b| == 40 && Less(a, b) && DigestSet(Elements(sources)) == Elements([a, b])
    ensures Fits(sources, [a, b])
  {
    LengthPair(a, b);
  }

  lemma BareFits(a: string, b: string)
    requires IsDigest(a) && IsDigest(b) && |a| == |b| == 40 && Less(a, b)
    ensures Fits([Bare("a", a), Bare("b", b)], [a, b])
  {
    BareSet(a, b);
    PairFits([Bare("a", a), Bare("b", b)], a, b);
  }

  lemma PairElements(a: string, b: string)
    ensures Elements([a, b]) == Elements([a]) + Elements([b])
  {
  }

  lemma BareSums(a: string, b: string)
    requires IsDigest(a) && IsDigest(b) && |a| == |b| == 40
    ensures Sum([Bare("a", a), Bare("b", b)], Bytes) == 80 && Sum([Bare("a", a), Bare("b", b)], Slack) == -2
  {
    BareDigest(a);
    BareDigest(b);
    SumPair(Bare("a", a), Bare("b", b), Bytes);
    SumPair(Bare("a", a), Bare("b", b), Slack);
  }

  lemma SumPair(s: Source, t: Source, f: Source -> int)
    ensures Sum([s, t], f) == f(s) + f(t)
  {
    assert [s, t][1..] == [t] && [t][1..] == [];
    assert Sum([t], f) == f(t);
  }

  lemma LengthPair(a: string, b: string)
    ensures TotalLength([a, b]) == |a| + |b| + 2
  {
    LongerByOne([], a);
    LongerByOne([a], b);
    assert [] + [a] == [a] && [a] + [b] == [a, b];
  }

  lemma BareReadable(a: string, b: string)
    requires IsDigest(a) && IsDigest(b)
    ensures AllReadable([Bare("a", a), Bare("b", b)])
  {
    BareDigest(a);
    BareDigest(b);
    ReadableEverywhere([Bare("a", a), Bare("b", b)]);
  }

  /** Two sources that are a bare SHA-1 digest each can be built, but no manifest for them is valid. */
  lemma TwoBareSourcesFail(a: string, b: string, r: Release)
    requires IsDigest(a) && IsDigest(b) && |a| == |b| == 40 && Less(a, b)
    ensures Buildable([Bare("a", a), Bare("b", b)], [a, b])
    ensures ReleaseOf([Bare("a", a), Bare("b", b)], [a, b], r) ==> !ValidManifest(r.manifest)
  {
    var sources := [Bare("a", a), Bare("b", b)];
    BareFits(a, b);
    BareSums(a, b);
    BareReadable(a, b);
    assert Acceptable(sources);
    if ReleaseOf(sources, [a, b], r) {
      BuiltManifestIsValidIff(sources, [a, b], r);
    }
  }

  // ---- Lookups ----

  /** `ContainsPassword`, given the upper-case digests of the password. */
  predicate Contains(v: Verified, sha1: string, sha256: string) {
    sha1 in v.sha1 || sha256 in v.sha256
  }

  /** Some line of some source spells this digest, in either case and between blanks. */
  ghost predicate Listed(sources: seq<Source>, d: string) {
    exists s :: s in sources && Spelling.HoldsDigest(s.text, d)
  }

  lemma ListedMeansDigest(sources: seq<Source>, d: string)
    requires AllReadable(sources)
    ensures d in DigestSet(Elements(sources)) <==> Listed(sources, d)
  {
    if d in DigestSet(Elements(sources)) {
      var s :| s in Elements(sources) && d in EntriesOf(s);
      Spelling.EntriesMeanSpelling(s.text, d);
      assert s in sources;
    }
    if s :| s in sources && Spelling.HoldsDigest(s.text, d) {
      var k :| 0 <= k < |sources| && sources[k] == s;
      ReadableAt(sources, k);
      Spelling.EntriesMeanSpelling(s.text, d);
      assert s in Elements(sources) && d in EntriesOf(s);
    }
  }

  /** A lookup in the verified release agrees with a plain scan of every line of every source. */
  lemma LookupAgreesWithScan(
    sources: seq<Source>, full: seq<string>, r: Release, v: Verified, sha1: string, sha256: string)
    requires Buildable(sources, full) && ReleaseOf(sources, full, r) && VerifiedAs(ScanLines(r.corpus), v)
    requires |sha1| == 40 && |sha256| == 64
    ensures Contains(v, sha1, sha256) <==> Listed(sources, sha1) || Listed(sources, sha256)
  {
    BuiltCorpusVerifies(sources, full, r);
    ListedMeansDigest(sources, sha1);
    ListedMeansDigest(sources, sha256);
    assert forall d :: d in full <==> d in Elements(full);
  }

  ghost function OfLength(digests: seq<string>, n: nat): set<string> {
    set d | d in digests && |d| == n
  }

  lemma OfLengthGrows(digests: seq<string>, d: string, n: nat)
    ensures OfLength(digests + [d], n) == OfLength(digests, n) + if |d| == n then {d} else {}
  {
  }

  /** What `Parse` loads from a list of digests with repetitions. */
  ghost predicate ParsedAs(digests: seq<string>, v: Verified) {
    && v.sha1 == OfLength(digests, 40) && v.sha256 == OfLength(digests, 64)
    && v.counts.sha1 == |v.sha1| && v.counts.sha256 == |v.sha256| && v.counts.unique == v.counts.sha1 + v.counts.sha256
    && v.counts.unique + v.counts.duplicate == |digests| && v.bytes == 0
  }

  /** One more digest: a repetition is counted, anything new joins the set of its length. */
  method AddDigest(v: Verified, d: string, ghost digests: seq<string>) returns (z: Verified)
    requires ParsedAs(digests, v) && IsDigest(d)
    ensures ParsedAs(digests + [d], z)
  {
    OfLengthGrows(digests, d, 40);
    OfLengthGrows(digests, d, 64);
    if d in (if |d| == 64 then v.sha256 else v.sha1) {
      return v.(counts := v.counts.(duplicate := v.counts.duplicate + 1));
    }
    var counts := v.counts.(unique := v.counts.unique + 1);
    if |d| == 40 {
      z := v.(sha1 := v.sha1 + {d}, counts := counts.(sha1 := counts.sha1 + 1));
    } else {
      z := v.(sha256 := v.sha256 + {d}, counts := counts.(sha256 := counts.sha256 + 1));
    }
  }

  /** `Parse`: the lookup sets of one source, with its unique and duplicate counts. */
  method ParseCorpus(text: string) returns (v: Option<Verified>)
    ensures v.Some? <==> SourceDigests(text).Some? && SourceDigests(text).value != []
    ensures v.Some? ==> ParsedAs(SourceDigests(text).value, v.value)
  {
    v := ParseLines(RawLines(text));
    if v.Some? && v.value.counts.unique == 0 {
      assert SourceDigests(text).value != [] ==> SourceDigests(text).value[0] in v.value.sha1 + v.value.sha256 by {
        DigestsAreDigests(RawLines(text));
      }
      return None;
    }
  }

  method ParseLines(raw: seq<string>) returns (v: Option<Verified>)
    ensures v.Some? <==> LinesFit(raw) && Digests(raw).Some?
    ensures v.Some? ==> ParsedAs(Digests(raw).value, v.value)
  {
    var seen := Verified({}, {}, Counts(0, 0, 0, 0), 0);
    ghost var read: seq<string> := [];
    for i := 0 to |raw|
      invariant LinesFit(raw[..i]) && Digests(raw[..i]) == Some(read) && ParsedAs(read, seen)
    {
      DigestsGrow(raw, i);
      FitGrows(raw, i);
      var normal := Normalize(DropReturn(raw[i]));
      if |raw[i]| > MAXIMUM_LINE_BYTES || normal.Invalid? {
        return None;
      }
      if normal.Digest? {
        seen := AddDigest(seen, normal.value, read);
      }
      read := read + LineDigests(raw[i]);
    }
    assert raw[..|raw|] == raw;
    v := Some(seen);
  }

  // ---- Texts that are accepted without being canonical ----

  lemma TextOf(line: string, rest: seq<string>)
    ensures Text([line] + rest) == line + "\n" + Text(rest)
  {
    assert ([line] + rest)[1..] == rest;
  }

  lemma SplitAtBreak(text: string, k: nat)
    requires k < |text| && text[k] == '\n'
    ensures text == text[..k] + "\n" + text[k + 1..]
  {
  }

  lemma {:induction false} CanonicalText(text: string)
    requires EndsWithBreak(text)
    ensures Text(RawLines(text)) == text
    decreases |text|
  {
    if text != "" {
      var k := FirstBreak(text);
      var rest := text[k + 1..];
      assert rest != "" ==> rest[|rest| - 1] == text[|text| - 1];
      CanonicalText(rest);
      TextOf(text[..k], RawLines(rest));
      SplitAtBreak(text, k);
    }
  }

  /** How many lines lose a carriage return. */
  function Returns(raw: seq<string>): nat {
    if raw == [] then 0 else Returns(raw[..|raw| - 1]) + if DropReturn(raw[|raw| - 1]) == raw[|raw| - 1] then 0 else 1
  }

  lemma {:induction false} ReturnsShorten(raw: seq<string>)
    ensures TotalLength(Dropped(raw)) == TotalLength(raw) - Returns(raw)
    ensures Returns(raw) == 0 ==> Dropped(raw) == raw
    decreases |raw|
  {
    if raw != [] {
      var before := raw[..|raw| - 1];
      ReturnsShorten(before);
      assert Dropped(raw)[..|raw| - 1] == Dropped(before);
      assert raw == before + [raw[|raw| - 1]];
      assert Dropped(raw) == Dropped(before) + [DropReturn(raw[|raw| - 1])];
    }
  }

  /** An accepted text is canonical exactly when it ends with a line feed. */
  lemma AcceptedIsCanonicalIff(text: string)
    requires Accepted(text)
    ensures text == Text(ScanLines(text)) <==> EndsWithBreak(text)
  {
    var raw := RawLines(text);
    ReturnsShorten(raw);
    LinesFillText(text);
    if EndsWithBreak(text) {
      CanonicalText(text);
    } else {
      TextEndsWithBreak(ScanLines(text));
    }
  }

  lemma {:induction false} TextEndsWithBreak(lines: seq<string>)
    ensures EndsWithBreak(Text(lines))
    decreases |lines|
  {
    if lines != [] {
      TextEndsWithBreak(lines[1..]);
    }
  }

  lemma TwoRawLines(line: string, b: string)
    requires (forall i :: 0 <= i < |line| ==> line[i] != '\n') && b != "" && forall i :: 0 <= i < |b| ==> b[i] != '\n'
    ensures RawLines(line + "\n" + b) == [line, b]
  {
    var text := line + "\n" + b;
    FirstBreakOf(line, b);
    assert text[..|line|] == line && text[|line| + 1..] == b;
    assert FirstBreak(b) == |b| && RawLines(b) == [b];
  }

  /** One stripped carriage return makes up for the missing line feed: such a text is accepted. */
  lemma AcceptedWithoutBreak(a: string, b: string)
    requires IsDigest(a) && IsDigest(b) && Less(a, b)
    ensures Accepted(a + "\r\n" + b) && !EndsWithBreak(a + "\r\n" + b)
  {
    var line := a + "\r";
    var text := line + "\n" + b;
    assert a + "\r\n" + b == text;
    TwoRawLines(line, b);
    assert DropReturn(line) == a && DropReturn(b) == b;
    assert ScanLines(text) == [a, b];
    LengthPair(a, b);
  }
}
