/** Building a corpus release from sources. */
module CorpusRelease {
  import opened CorpusLines
  import opened CorpusMerge
  import opened Strings
  import opened Wrappers

  const MAXIMUM_INPUT_COUNT := 32
  const MAXIMUM_TOTAL_INPUT_BYTES := 512 * 1024 * 1024

  /** One source: the digest its review approved, the digest the hasher finds, and its text. */
  datatype Source = Source(id: string, approved: string, found: string, text: string)
  datatype Evidence = Evidence(id: string, bytes: nat)
  datatype Manifest = Manifest(sources: seq<Evidence>, bytes: nat, counts: Counts, rejected: nat)
  datatype Release = Release(manifest: Manifest, corpus: string)

  // ---- Chunks ----

  lemma UnionGrows(runs: seq<seq<string>>, run: seq<string>)
    ensures Union(runs + [run]) == Union(runs) + Elements(run)
  {
    var all := runs + [run];
    forall d
      ensures d in Union(all) <==> d in Union(runs) || d in run
    {
      if d in Union(all) {
        var i :| 0 <= i < |all| && d in all[i];
        assert i < |runs| ==> all[i] == runs[i];
      }
      if d in Union(runs) {
        var i :| 0 <= i < |runs| && d in runs[i];
        assert all[i] == runs[i];
      }
      if d in run {
        assert all[|runs|] == run;
      }
    }
  }

  lemma ConsumedGrows(consumed: seq<string>, d: string)
    requires AllDigests(consumed) && IsDigest(d)
    ensures AllDigests(consumed + [d]) && Elements(consumed + [d]) == Elements(consumed) + {d}
  {
  }

  lemma NotBlank(entries: seq<string>)
    requires AllDigests(entries)
    ensures Elements(entries) - {""} == Elements(entries)
    ensures entries != [] ==> Elements(entries) != {}
  {
    if entries != [] {
      assert entries[0] in Elements(entries);
    }
    forall d | d in Elements(entries)
      ensures d != ""
    {
      var i :| 0 <= i < |entries| && entries[i] == d;
    }
  }

  class Builder {
    const chunkLimit: nat
    var chunk: seq<string>
    var chunkBytes: nat
    var runs: seq<seq<string>>
    var rawEntries: nat
    ghost var consumed: seq<string>

    /** The runs and the open chunk hold exactly what was consumed. */
    ghost predicate Valid()
      reads this
    {
      && AllDigests(consumed) && AllDigests(chunk) && rawEntries == |consumed|
      && Union(runs) + Elements(chunk) == Elements(consumed)
      && forall i :: 0 <= i < |runs| ==> Ascending(runs[i]) && runs[i] != []
    }

    constructor (chunkLimit: nat)
      ensures Valid() && consumed == []
    {
      this.chunkLimit := chunkLimit;
      chunk, chunkBytes, runs, rawEntries, consumed := [], 0, [], 0, [];
    }

    method Flush()
      requires Valid()
      modifies this
      ensures Valid() && chunk == [] && consumed == old(consumed)
    {
      if chunk == [] {
        return;
      }
      var run := WriteSortedRun(chunk);
      NotBlank(chunk);
      SomeElement(run.value);
      assert run.value != [] by {
        assert Elements(run.value) != {};
      }
      UnionGrows(runs, run.value);
      runs := runs + [run.value];
      chunk, chunkBytes := [], 0;
    }

    method Consume(digest: string)
      requires Valid() && IsDigest(digest)
      modifies this
      ensures Valid() && consumed == old(consumed) + [digest]
    {
      rawEntries := rawEntries + 1;
      ConsumedGrows(consumed, digest);
      ConsumedGrows(chunk, digest);
      chunk := chunk + [digest];
      chunkBytes := chunkBytes + |digest| + 1;
      consumed := consumed + [digest];
      if chunkBytes >= chunkLimit {
        Flush();
      }
    }

    /** `readSource`: every line's digest is consumed, or the build fails. */
    method ReadSource(text: string) returns (ok: bool)
      requires Valid()
      modifies this
      ensures Valid()
      ensures ok <==> SourceDigests(text).Some?
      ensures ok ==> consumed == old(consumed) + SourceDigests(text).value
    {
      ok := ReadLines(RawLines(text));
    }

    method ReadLines(raw: seq<string>) returns (ok: bool)
      requires Valid()
      modifies this
      ensures Valid()
      ensures ok <==> LinesFit(raw) && Digests(raw).Some?
      ensures ok ==> consumed == old(consumed) + Digests(raw).value
    {
      ghost var start, read := consumed, [];
      for i := 0 to |raw|
        invariant Valid()
        invariant LinesFit(raw[..i]) && Digests(raw[..i]) == Some(read)
        invariant consumed == start + read
      {
        DigestsGrow(raw, i);
        FitGrows(raw, i);
        ok := ReadLine(raw[i]);
        if !ok {
          return;
        }
        read := read + LineDigests(raw[i]);
      }
      assert raw[..|raw|] == raw;
      ok := true;
    }

    method ReadLine(raw: string) returns (ok: bool)
      requires Valid()
      modifies this
      ensures Valid()
      ensures ok <==> |raw| <= MAXIMUM_LINE_BYTES && !Normalize(DropReturn(raw)).Invalid?
      ensures ok ==> consumed == old(consumed) + LineDigests(raw)
    {
      if |raw| > MAXIMUM_LINE_BYTES {
        return false;
      }
      match Normalize(DropReturn(raw)) {
        case Invalid => return false;
        case Ignored =>
        case Digest(d) => Consume(d);
      }
      ok := true;
    }
  }

  function LineDigests(raw: string): seq<string> {
    if Normalize(DropReturn(raw)).Digest? then [Normalize(DropReturn(raw)).value] else []
  }

  lemma FitGrows(raw: seq<string>, i: nat)
    requires i < |raw| && LinesFit(raw[..i])
    ensures LinesFit(raw[..i + 1]) <==> |raw[i]| <= MAXIMUM_LINE_BYTES
    ensures |raw[i]| > MAXIMUM_LINE_BYTES ==> !LinesFit(raw)
  {
    assert raw[..i + 1] == raw[..i] + [raw[i]];
  }

  lemma DigestsGrow(raw: seq<string>, i: nat)
    requires i < |raw| && Digests(raw[..i]).Some?
    ensures !Normalize(DropReturn(raw[i])).Invalid? ==>
              Digests(raw[..i + 1]).Some?
              && Digests(raw[..i + 1]).value == Digests(raw[..i]).value + LineDigests(raw[i])
    ensures Normalize(DropReturn(raw[i])).Invalid? ==> Digests(raw).None?
  {
    assert raw[..i + 1][..i] == raw[..i];
    if Normalize(DropReturn(raw[i])).Invalid? {
      DigestsStayNone(raw, i + 1);
    }
  }

  lemma {:induction false} DigestsStayNone(raw: seq<string>, i: nat)
    requires i <= |raw| && Digests(raw[..i]).None?
    ensures Digests(raw).None?
    decreases |raw| - i
  {
    if i < |raw| {
      assert raw[..i + 1][..i] == raw[..i];
      DigestsStayNone(raw, i + 1);
    } else {
      assert raw[..i] == raw;
    }
  }

  // ---- Sources in order ----

  ghost predicate DistinctIds(sources: seq<Source>) {
    forall i, j :: 0 <= i < j < |sources| ==> sources[i].id != sources[j].id
  }

  ghost predicate NamedIds(sources: seq<Source>) {
    forall i :: 0 <= i < |sources| ==> sources[i].id != ""
  }

  ghost predicate AscendingIds(list: seq<Source>) {
    forall i, j :: 0 <= i < j < |list| ==> Less(list[i].id, list[j].id)
  }

  function InsertSource(x: Source, list: seq<Source>): seq<Source> {
    if list == [] then [x]
    else if Less(x.id, list[0].id) then [x] + list
    else [list[0]] + InsertSource(x, list[1..])
  }

  /** `orderedBindings` */
  function SortSources(sources: seq<Source>): seq<Source> {
    if sources == [] then [] else InsertSource(sources[0], SortSources(sources[1..]))
  }

  function Sum(list: seq<Source>, f: Source -> int): int {
    if list == [] then 0 else f(list[0]) + Sum(list[1..], f)
  }

  function Bytes(s: Source): int {
    |s.text|
  }

  function EntryCount(s: Source): int {
    |EntriesOf(s)|
  }

  lemma {:induction false} InsertKeeps(x: Source, list: seq<Source>, f: Source -> int)
    ensures Sum(InsertSource(x, list), f) == f(x) + Sum(list, f)
    decreases |list|
  {
    if list == [] {
      assert [x][1..] == [];
    } else if Less(x.id, list[0].id) {
      assert ([x] + list)[1..] == list;
    } else {
      InsertKeeps(x, list[1..], f);
      assert ([list[0]] + InsertSource(x, list[1..]))[1..] == InsertSource(x, list[1..]);
    }
  }

  lemma {:induction false} InsertAdds(x: Source, list: seq<Source>)
    ensures Elements(InsertSource(x, list)) == Elements(list) + {x}
    decreases |list|
  {
    if list != [] && !Less(x.id, list[0].id) {
      InsertAdds(x, list[1..]);
      assert list == [list[0]] + list[1..];
      assert Elements([list[0]] + InsertSource(x, list[1..])) == {list[0]} + Elements(InsertSource(x, list[1..]));
    }
  }

  lemma {:induction false} SortKeeps(sources: seq<Source>, f: Source -> int)
    ensures Sum(SortSources(sources), f) == Sum(sources, f)
    ensures Elements(SortSources(sources)) == Elements(sources)
    decreases |sources|
  {
    if sources != [] {
      SortKeeps(sources[1..], f);
      InsertKeeps(sources[0], SortSources(sources[1..]), f);
      InsertAdds(sources[0], SortSources(sources[1..]));
      assert sources == [sources[0]] + sources[1..];
    }
  }

  lemma FrontAscends(x: Source, list: seq<Source>)
    requires AscendingIds(list) && list != [] && Less(x.id, list[0].id)
    ensures AscendingIds([x] + list)
  {
    forall i | 0 <= i < |list|
      ensures Less(x.id, list[i].id)
    {
      if i > 0 {
        LessTransitive(x.id, list[0].id, list[i].id);
      }
    }
  }

  lemma BehindAscends(list: seq<Source>, x: Source, more: seq<Source>)
    requires AscendingIds(list) && list != [] && Less(list[0].id, x.id)
    requires AscendingIds(more) && Elements(more) == Elements(list[1..]) + {x}
    ensures AscendingIds([list[0]] + more)
  {
    var rest := list[1..];
    forall i | 0 <= i < |more|
      ensures Less(list[0].id, more[i].id)
    {
      assert more[i] in Elements(more);
      if more[i] != x {
        var k :| 0 <= k < |rest| && rest[k] == more[i];
        assert list[k + 1] == more[i];
      }
    }
  }

  lemma {:induction false} InsertAscends(x: Source, list: seq<Source>)
    requires AscendingIds(list) && forall s :: s in list ==> s.id != x.id
    ensures AscendingIds(InsertSource(x, list))
    decreases |list|
  {
    if list != [] {
      LessTrichotomy(x.id, list[0].id);
      if Less(x.id, list[0].id) {
        FrontAscends(x, list);
      } else {
        InsertAscends(x, list[1..]);
        InsertAdds(x, list[1..]);
        BehindAscends(list, x, InsertSource(x, list[1..]));
      }
    }
  }

  lemma {:induction false} SortAscends(sources: seq<Source>)
    requires DistinctIds(sources)
    ensures AscendingIds(SortSources(sources))
    decreases |sources|
  {
    if sources != [] {
      var rest := sources[1..];
      SortAscends(rest);
      SortKeeps(rest, Bytes);
      forall s | s in SortSources(rest)
        ensures s.id != sources[0].id
      {
        assert s in Elements(rest);
        var k :| 0 <= k < |rest| && rest[k] == s;
        assert sources[k + 1] == s;
      }
      InsertAscends(sources[0], SortSources(rest));
    }
  }

  // ---- What the sources hold together ----

  ghost function DigestSet(sources: set<Source>): set<string> {
    set s, d | s in sources && d in EntriesOf(s) :: d
  }

  ghost predicate Readable(s: Source) {
    SourceDigests(s.text).Some? && s.found == s.approved
  }

  ghost predicate AllReadable(list: seq<Source>) {
    list == [] || (AllReadable(list[..|list| - 1]) && Readable(list[|list| - 1]))
  }

  lemma {:induction false} ReadableAt(list: seq<Source>, k: nat)
    requires AllReadable(list) && k < |list|
    ensures Readable(list[k])
    decreases |list|
  {
    if k < |list| - 1 {
      ReadableAt(list[..|list| - 1], k);
    }
  }

  lemma {:induction false} ReadableEverywhere(list: seq<Source>)
    requires forall k :: 0 <= k < |list| ==> Readable(list[k])
    ensures AllReadable(list)
    decreases |list|
  {
    if list != [] {
      ReadableEverywhere(list[..|list| - 1]);
    }
  }

  lemma {:induction false} ReadablePrefix(list: seq<Source>, i: nat)
    requires i <= |list| && AllReadable(list)
    ensures AllReadable(list[..i])
    decreases |list|
  {
    if i < |list| {
      ReadablePrefix(list[..|list| - 1], i);
      assert list[..|list| - 1][..i] == list[..i];
    } else {
      assert list[..i] == list;
    }
  }

  ghost predicate AllFilled(list: seq<Source>) {
    forall k :: 0 <= k < |list| ==> |list[k].text| > 0
  }

  /** The checks that need no reading. */
  ghost predicate Acceptable(sources: seq<Source>) {
    && 1 <= |sources| <= 32 && DistinctIds(sources) && NamedIds(sources)
    && AllFilled(sources) && Sum(sources, Bytes) <= 536_870_912
  }

  /** The strictly ascending listing of all digests, small enough to be written. */
  ghost predicate Fits(sources: seq<Source>, full: seq<string>) {
    && Ascending(full) && Elements(full) == DigestSet(Elements(sources)) && full != []
    && TotalLength(full) <= 134_217_728
  }

  /** The inputs for which a build succeeds. */
  ghost predicate Buildable(sources: seq<Source>, full: seq<string>) {
    Acceptable(sources) && AllReadable(sources) && Fits(sources, full)
  }

  function EvidenceOf(list: seq<Source>): (r: seq<Evidence>)
    ensures |r| == |list|
  {
    seq(|list|, i requires 0 <= i < |list| => Evidence(list[i].id, |list[i].text|))
  }

  /** The release that stands for the sources. */
  ghost predicate ReleaseOf(sources: seq<Source>, full: seq<string>, r: Release) {
    && Ascending(full) && Elements(full) == DigestSet(Elements(sources))
    && r.corpus == Text(full) && r.manifest.bytes == |r.corpus| && r.manifest.rejected == 0
    && r.manifest.sources == EvidenceOf(SortSources(sources))
    && r.manifest.counts.sha1 == Sized(full, 40) && r.manifest.counts.sha256 == Sized(full, 64)
    && r.manifest.counts.unique == |full|
    && r.manifest.counts.unique + r.manifest.counts.duplicate == Sum(sources, EntryCount)
  }

  function EntriesOf(s: Source): seq<string> {
    if SourceDigests(s.text).Some? then SourceDigests(s.text).value else []
  }

  function AllEntries(list: seq<Source>): seq<string> {
    if list == [] then [] else AllEntries(list[..|list| - 1]) + EntriesOf(list[|list| - 1])
  }

  lemma {:induction false} SumSnoc(list: seq<Source>, f: Source -> int)
    requires list != []
    ensures Sum(list, f) == Sum(list[..|list| - 1], f) + f(list[|list| - 1])
    decreases |list|
  {
    if |list| == 1 {
      assert list[1..] == [] && list[..0] == [];
    } else {
      SumSnoc(list[1..], f);
      assert list[1..][..|list| - 2] == list[..|list| - 1][1..];
    }
  }

  lemma {:induction false} AllEntriesCount(list: seq<Source>)
    ensures |AllEntries(list)| == Sum(list, EntryCount)
    decreases |list|
  {
    if list != [] {
      AllEntriesCount(list[..|list| - 1]);
      SumSnoc(list, EntryCount);
    }
  }

  lemma {:induction false} AllEntriesAre(list: seq<Source>)
    ensures Elements(AllEntries(list)) == DigestSet(Elements(list))
    decreases |list|
  {
    if list == [] {
      assert Elements(list) == {};
    } else {
      var before, s := list[..|list| - 1], list[|list| - 1];
      AllEntriesAre(before);
      LastElement(list);
      JoinElements(AllEntries(before), EntriesOf(s));
      DigestSetGrows(Elements(before), s);
    }
  }

  lemma LastElement<T>(list: seq<T>)
    requires list != []
    ensures Elements(list) == Elements(list[..|list| - 1]) + {list[|list| - 1]}
  {
    assert list == list[..|list| - 1] + [list[|list| - 1]];
  }

  lemma JoinElements<T>(a: seq<T>, b: seq<T>)
    ensures Elements(a + b) == Elements(a) + Elements(b)
  {
  }

  lemma DigestSetGrows(sources: set<Source>, s: Source)
    ensures DigestSet(sources + {s}) == DigestSet(sources) + Elements(EntriesOf(s))
  {
  }

  // ---- Build ----

  /** `preflightInputBytes` */
  method Preflight(list: seq<Source>) returns (total: Option<nat>)
    ensures total.Some? <==> list != [] && AllFilled(list) && Sum(list, Bytes) <= MAXIMUM_TOTAL_INPUT_BYTES
    ensures total.Some? ==> total.value == Sum(list, Bytes)
  {
    var sum := 0;
    for i := 0 to |list|
      invariant sum == Sum(list[..i], Bytes) <= MAXIMUM_TOTAL_INPUT_BYTES
      invariant forall k :: 0 <= k < i ==> |list[k].text| > 0
      invariant i > 0 ==> sum > 0
    {
      var size := |list[i].text|;
      assert list[..i + 1][..i] == list[..i];
      SumSnoc(list[..i + 1], Bytes);
      if size <= 0 || size > MAXIMUM_TOTAL_INPUT_BYTES || sum > MAXIMUM_TOTAL_INPUT_BYTES - size {
        SumPrefix(list, i + 1);
        return None;
      }
      sum := sum + size;
    }
    assert list[..|list|] == list;
    if sum <= 0 {
      return None;
    }
    total := Some(sum);
  }

  lemma {:induction false} SumPrefix(list: seq<Source>, i: nat)
    requires i <= |list|
    ensures 0 <= Sum(list[..i], Bytes) <= Sum(list, Bytes)
    decreases |list|
  {
    if list == [] {
    } else if i < |list| {
      var before := list[..|list| - 1];
      SumPrefix(before, i);
      assert before[..i] == list[..i];
      SumSnoc(list, Bytes);
    } else {
      var before := list[..|list| - 1];
      SumPrefix(before, |before|);
      assert before[..|before|] == before && list[..i] == list;
      SumSnoc(list, Bytes);
    }
  }

  method ReadOne(s: Source, builder: Builder) returns (ok: bool)
    requires builder.Valid()
    modifies builder
    ensures builder.Valid() && (ok <==> Readable(s))
    ensures ok ==> builder.consumed == old(builder.consumed) + EntriesOf(s)
  {
    ok := builder.ReadSource(s.text);
    ok := ok && s.found == s.approved;
  }

  lemma EntriesGrow(list: seq<Source>, i: nat)
    requires i < |list|
    ensures AllEntries(list[..i + 1]) == AllEntries(list[..i]) + EntriesOf(list[i])
    ensures AllReadable(list[..i + 1]) <==> AllReadable(list[..i]) && Readable(list[i])
  {
    assert list[..i + 1][..i] == list[..i];
  }

  method ReadAll(list: seq<Source>, builder: Builder) returns (ok: bool)
    requires builder.Valid() && builder.consumed == []
    modifies builder
    ensures builder.Valid()
    ensures ok <==> AllReadable(list)
    ensures ok ==> builder.consumed == AllEntries(list)
  {
    for i := 0 to |list|
      invariant builder.Valid() && builder.consumed == AllEntries(list[..i]) && AllReadable(list[..i])
    {
      EntriesGrow(list, i);
      var read := ReadOne(list[i], builder);
      if !read {
        if AllReadable(list) {
          ReadablePrefix(list, i + 1);
        }
        return false;
      }
    }
    assert list[..|list|] == list;
    ok := true;
  }

  predicate RepeatsId(sources: seq<Source>) {
    exists i, j :: 0 <= i < j < |sources| && sources[i].id == sources[j].id
  }

  predicate LacksId(sources: seq<Source>) {
    exists i :: 0 <= i < |sources| && sources[i].id == ""
  }

  lemma SameSources(a: seq<Source>, b: seq<Source>)
    requires Elements(a) == Elements(b)
    ensures AllReadable(a) ==> AllReadable(b)
    ensures AllFilled(a) ==> AllFilled(b)
    ensures a == [] ==> b == []
  {
    assert b != [] ==> b[0] in Elements(b);
    forall k | 0 <= k < |b|
      ensures b[k] in a
    {
      assert b[k] in Elements(b);
    }
    if AllReadable(a) {
      forall k | 0 <= k < |b|
        ensures Readable(b[k])
      {
        var j :| 0 <= j < |a| && a[j] == b[k];
        ReadableAt(a, j);
      }
      ReadableEverywhere(b);
    }
  }

  /** Validation, ordering and the preflight. */
  method Accept(sources: seq<Source>) returns (list: Option<seq<Source>>)
    ensures list.Some? <==> Acceptable(sources)
    ensures list.Some? ==> list.value == SortSources(sources)
  {
    if sources == [] || |sources| > MAXIMUM_INPUT_COUNT || RepeatsId(sources) || LacksId(sources) {
      return None;
    }
    var sorted := SortSources(sources);
    SortKeeps(sources, Bytes);
    SameSources(sources, sorted);
    SameSources(sorted, sources);
    var total := Preflight(sorted);
    list := if total.Some? then Some(sorted) else None;
  }

  /**
   `Build`: for every chunk limit and every order of the sources, it succeeds exactly
   on buildable inputs and yields the release that stands for them.
   */
  method Build(sources: seq<Source>, chunkLimit: nat) returns (r: Option<Release>)
    ensures r.Some? ==> exists full :: Buildable(sources, full) && ReleaseOf(sources, full, r.value)
    ensures r.None? ==> forall full :: !Buildable(sources, full)
  {
    var list := Accept(sources);
    if list.None? {
      return None;
    }
    SortKeeps(sources, EntryCount);
    SameSources(sources, list.value);
    SameSources(list.value, sources);
    var builder := new Builder(chunkLimit);
    var ok := ReadAll(list.value, builder);
    if !ok {
      return None;
    }
    AllEntriesAre(list.value);
    AllEntriesCount(list.value);
    r := Finish(sources, list.value, builder);
  }

  method Finish(sources: seq<Source>, list: seq<Source>, builder: Builder) returns (r: Option<Release>)
    requires builder.Valid() && list == SortSources(sources)
    requires Elements(builder.consumed) == DigestSet(Elements(sources))
    requires |builder.consumed| == Sum(sources, EntryCount)
    modifies builder
    ensures r.Some? ==> exists full :: Fits(sources, full) && ReleaseOf(sources, full, r.value)
    ensures r.None? ==> forall full :: !Fits(sources, full)
  {
    ghost var consumed := builder.consumed;
    builder.Flush();
    NotBlank(consumed);
    assert Union(builder.runs) == Elements(consumed);
    var merged := MergeRuns(builder.runs, builder.rawEntries, MAXIMUM_CORPUS_BYTES);
    if merged.None? {
      forall full | Ascending(full) && Elements(full) == Elements(consumed) && full != []
        ensures !Fits(sources, full)
      {
        ListingIsMergeable(consumed, full);
        assert !Mergeable(builder.runs, full, builder.rawEntries, MAXIMUM_CORPUS_BYTES);
      }
      return None;
    }
    var m := merged.value;
    TextLength(m.lines);
    var manifest := Manifest(EvidenceOf(list), m.bytes, m.counts, 0);
    r := Some(Release(manifest, Text(m.lines)));
    assert Fits(sources, m.lines) && ReleaseOf(sources, m.lines, r.value);
  }

  lemma ListingIsMergeable(consumed: seq<string>, full: seq<string>)
    requires AllDigests(consumed) && Ascending(full) && Elements(full) == Elements(consumed)
    ensures DigestSizes(full) && AllDigests(full) && |full| <= |consumed|
  {
    forall i | 0 <= i < |full|
      ensures IsDigest(full[i])
    {
      assert full[i] in Elements(consumed);
      var k :| 0 <= k < |consumed| && consumed[k] == full[i];
    }
    AscendingCount(full);
    ElementsCount(consumed);
  }

  lemma {:induction false} AscendingCount(s: seq<string>)
    requires Ascending(s)
    ensures |Elements(s)| == |s|
    decreases |s|
  {
    if s != [] {
      TailElements(s);
      AscendingCount(s[1..]);
      assert s[0] in Elements(s);
    }
  }

  lemma {:induction false} ElementsCount(s: seq<string>)
    ensures |Elements(s)| <= |s|
    decreases |s|
  {
    if s != [] {
      ElementsCount(s[1..]);
      assert s == [s[0]] + s[1..];
      assert Elements(s) == Elements(s[1..]) + {s[0]};
    }
  }
}
