/** Sorted runs and their merge through a heap of cursors. */
module CorpusMerge {
  import opened CorpusLines
  import opened Strings
  import opened Wrappers

  const MAXIMUM_CORPUS_BYTES := 128 * 1024 * 1024

  // ---- Runs ----

  /** `writeSortedRun`: sort the chunk and write each entry once. */
  method WriteSortedRun(entries: seq<string>) returns (run: Option<seq<string>>)
    ensures run.None? <==> entries == []
    ensures run.Some? ==> Ascending(run.value) && Elements(run.value) == Elements(entries) - {""}
  {
    if entries == [] {
      return None;
    }
    SortKeepsElements(entries);
    var written := Deduplicate(Sort(entries));
    run := Some(written);
  }

  method Deduplicate(sorted: seq<string>) returns (written: seq<string>)
    requires NonDescending(sorted)
    ensures Ascending(written) && Elements(written) == Elements(sorted) - {""}
  {
    written := [];
    var previous := "";
    for i := 0 to |sorted|
      invariant Ascending(written) && Elements(written) == Elements(sorted[..i]) - {""}
      invariant previous == LastOf(written)
      invariant if i > 0 then sorted[i - 1] == previous else written == []
    {
      PrefixGrows(sorted, i);
      if sorted[i] != previous {
        assert i > 0 ==> !Less(sorted[i], sorted[i - 1]);
        LessTrichotomy(previous, sorted[i]);
        AscendingGrows(written, sorted[i]);
        written := written + [sorted[i]];
        previous := sorted[i];
      } else {
        LastIsElement(written);
      }
    }
    assert sorted[..|sorted|] == sorted;
  }

  function LastOf(s: seq<string>): string {
    if s == [] then "" else s[|s| - 1]
  }

  lemma LastIsElement(s: seq<string>)
    ensures LastOf(s) == "" || LastOf(s) in Elements(s)
  {
  }

  lemma SortKeepsElements(s: seq<string>)
    ensures Elements(Sort(s)) == Elements(s)
  {
    forall x
      ensures x in Sort(s) <==> x in s
    {
      assert x in multiset(Sort(s)) <==> x in multiset(s);
    }
  }

  lemma PrefixGrows(s: seq<string>, i: nat)
    requires i < |s|
    ensures Elements(s[..i + 1]) == Elements(s[..i]) + {s[i]}
  {
    assert s[..i + 1] == s[..i] + [s[i]];
  }

  lemma AscendingGrows(s: seq<string>, x: string)
    requires Ascending(s) && (s != [] ==> Less(s[|s| - 1], x))
    ensures Ascending(s + [x]) && Elements(s + [x]) == Elements(s) + {x}
  {
    forall i | 0 <= i < |s|
      ensures Less(s[i], x)
    {
      if i < |s| - 1 {
        LessTransitive(s[i], s[|s| - 1], x);
      }
    }
  }

  // ---- Cursors ----

  /** An open run: the line under the cursor and the lines behind it. */
  datatype Cursor = Cursor(value: string, rest: seq<string>, index: nat)

  /** `cursorHeap.Less` */
  predicate Before(a: Cursor, b: Cursor) {
    if a.value == b.value then a.index < b.index else Less(a.value, b.value)
  }

  lemma BeforeTotal(a: Cursor, b: Cursor)
    ensures !(Before(a, b) && Before(b, a)) && !Before(a, a)
    ensures !Before(a, b) ==> !Less(a.value, b.value)
  {
    LessTrichotomy(a.value, b.value);
  }

  lemma NotBeforeTransitive(a: Cursor, b: Cursor, c: Cursor)
    requires !Before(b, a) && !Before(c, b)
    ensures !Before(c, a)
  {
    LessTrichotomy(a.value, b.value);
    LessTrichotomy(b.value, c.value);
    LessTrichotomy(a.value, c.value);
    if Less(a.value, b.value) && Less(b.value, c.value) {
      LessTransitive(a.value, b.value, c.value);
    }
  }

  // ---- The heap ----

  predicate Child(p: int, c: int) {
    c == 2 * p + 1 || c == 2 * p + 2
  }

  ghost predicate Ordered(h: seq<Cursor>, p: int, c: int)
    requires 0 <= p < |h| && 0 <= c < |h|
  {
    !Before(h[c], h[p])
  }

  /** Every parent from `lo` on is not after its children, `hole` excepted. */
  ghost predicate OrderedFrom(h: seq<Cursor>, lo: int, hole: int) {
    forall p, c :: 0 <= lo <= p && p != hole && Child(p, c) && c < |h| ==> Ordered(h, p, c)
  }

  ghost predicate IsHeap(h: seq<Cursor>) {
    OrderedFrom(h, 0, -1)
  }

  /** The parent of the hole is not after the children of the hole. */
  ghost predicate Bridged(h: seq<Cursor>, lo: int, hole: int) {
    forall p, c :: 0 <= lo <= p && Child(p, hole) && Child(hole, c) && c < |h| ==> Ordered(h, p, c)
  }

  function Swap(h: seq<Cursor>, i: nat, j: nat): seq<Cursor>
    requires i < |h| && j < |h|
  {
    h[i := h[j]][j := h[i]]
  }

  lemma SwapPermutes(h: seq<Cursor>, i: nat, j: nat)
    requires i < |h| && j < |h|
    ensures multiset(Swap(h, i, j)) == multiset(h)
  {
  }

  lemma DownStep(h: seq<Cursor>, lo: nat, i: nat, j: nat, other: nat)
    requires lo <= i && OrderedFrom(h, lo, i) && Bridged(h, lo, i)
    requires Child(i, j) && Child(i, other) && j != other && j < |h| && Before(h[j], h[i])
    requires other < |h| ==> !Before(h[other], h[j])
    ensures OrderedFrom(Swap(h, i, j), lo, j) && Bridged(Swap(h, i, j), lo, j)
  {
    var z := Swap(h, i, j);
    BeforeTotal(h[i], h[j]);
    forall p, c | lo <= p && p != j && Child(p, c) && c < |z|
      ensures Ordered(z, p, c)
    {
      if p == i {
      } else if c == i {
        assert Ordered(h, p, j);
      } else {
        assert Ordered(h, p, c);
      }
    }
    forall p, c | lo <= p && Child(p, j) && Child(j, c) && c < |z|
      ensures Ordered(z, p, c)
    {
      assert p == i && Ordered(h, j, c);
    }
  }

  /** `down` of Go's `container/heap` */
  method Down(h: seq<Cursor>, lo: nat) returns (z: seq<Cursor>)
    requires lo < |h| && OrderedFrom(h, lo, lo)
    ensures OrderedFrom(z, lo, -1) && multiset(z) == multiset(h) && |z| == |h|
  {
    z := h;
    var i := lo;
    while 2 * i + 1 < |z|
      invariant lo <= i < |z| && |z| == |h| && multiset(z) == multiset(h)
      invariant OrderedFrom(z, lo, i) && Bridged(z, lo, i)
      decreases |h| - i
    {
      var left, right := 2 * i + 1, 2 * i + 2;
      var j, other := left, right;
      if right < |z| && Before(z[right], z[left]) {
        j, other := right, left;
      }
      if right < |z| {
        BeforeTotal(z[right], z[left]);
      }
      if !Before(z[j], z[i]) {
        HoleCloses(z, lo, i, j, other);
        return;
      }
      DownStep(z, lo, i, j, other);
      SwapPermutes(z, i, j);
      z, i := Swap(z, i, j), j;
    }
  }

  lemma HoleCloses(h: seq<Cursor>, lo: nat, i: nat, j: nat, other: nat)
    requires lo <= i && OrderedFrom(h, lo, i)
    requires Child(i, j) && Child(i, other) && j != other && j < |h| && !Before(h[j], h[i])
    requires other < |h| ==> !Before(h[other], h[j])
    ensures OrderedFrom(h, lo, -1)
  {
    if other < |h| {
      NotBeforeTransitive(h[i], h[j], h[other]);
    }
  }

  /** `heap.Init` */
  method Init(h: seq<Cursor>) returns (z: seq<Cursor>)
    ensures IsHeap(z) && multiset(z) == multiset(h) && |z| == |h|
  {
    z := h;
    var i := |h| / 2;
    while i > 0
      invariant 0 <= i <= |h| / 2 && |z| == |h| && multiset(z) == multiset(h)
      invariant OrderedFrom(z, i, -1)
    {
      i := i - 1;
      z := Down(z, i);
    }
  }

  /** Every child except `hole` is not before its parent. */
  ghost predicate OrderedExcept(h: seq<Cursor>, hole: int) {
    forall p, c :: 0 <= p && c != hole && Child(p, c) && c < |h| ==> Ordered(h, p, c)
  }

  lemma UpStep(h: seq<Cursor>, i: nat, j: nat)
    requires j < |h| && Child(i, j) && OrderedExcept(h, j) && Bridged(h, 0, j) && Before(h[j], h[i])
    ensures OrderedExcept(Swap(h, i, j), i) && Bridged(Swap(h, i, j), 0, i)
  {
    var z := Swap(h, i, j);
    BeforeTotal(h[i], h[j]);
    forall p, c | 0 <= p && c != i && Child(p, c) && c < |z|
      ensures Ordered(z, p, c)
    {
      if p == i && c != j {
        assert Ordered(h, i, c);
        NotBeforeTransitive(h[j], h[i], h[c]);
      } else if p == j {
        assert Ordered(h, i, c);
      } else if p != i {
        assert Ordered(h, p, c);
      }
    }
    forall p, c | 0 <= p && Child(p, i) && Child(i, c) && c < |z|
      ensures Ordered(z, p, c)
    {
      assert Ordered(h, p, i);
      if c != j {
        assert Ordered(h, i, c);
        NotBeforeTransitive(h[p], h[i], h[c]);
      }
    }
  }

  /** `heap.Push`: append and sift up. */
  method Push(h: seq<Cursor>, x: Cursor) returns (z: seq<Cursor>)
    requires IsHeap(h)
    ensures IsHeap(z) && multiset(z) == multiset(h) + multiset{x}
  {
    z := h + [x];
    var j := |h|;
    assert OrderedExcept(z, j) by {
      forall p, c | 0 <= p && c != j && Child(p, c) && c < |z|
        ensures Ordered(z, p, c)
      {
        assert Ordered(h, p, c);
      }
    }
    while j > 0
      invariant 0 <= j < |z| == |h| + 1 && multiset(z) == multiset(h) + multiset{x}
      invariant OrderedExcept(z, j) && Bridged(z, 0, j)
    {
      var i := (j - 1) / 2;
      assert Child(i, j);
      if !Before(z[j], z[i]) {
        return;
      }
      UpStep(z, i, j);
      SwapPermutes(z, i, j);
      z, j := Swap(z, i, j), i;
    }
  }

  lemma {:induction false} RootIsLeast(h: seq<Cursor>, k: nat)
    requires IsHeap(h) && k < |h|
    ensures !Before(h[k], h[0])
    decreases k
  {
    if k == 0 {
      BeforeTotal(h[0], h[0]);
    } else {
      var p := (k - 1) / 2;
      assert Child(p, k) && Ordered(h, p, k);
      RootIsLeast(h, p);
      NotBeforeTransitive(h[0], h[p], h[k]);
    }
  }

  lemma RootIsMinimum(h: seq<Cursor>)
    requires IsHeap(h) && h != []
    ensures forall c :: c in multiset(h) ==> !Before(c, h[0])
  {
    forall c | c in multiset(h)
      ensures !Before(c, h[0])
    {
      var k :| 0 <= k < |h| && h[k] == c;
      RootIsLeast(h, k);
    }
  }

  lemma WithoutRoot(h: seq<Cursor>, z: seq<Cursor>)
    requires IsHeap(h) && h != [] && z == Swap(h, 0, |h| - 1)[..|h| - 1]
    ensures OrderedFrom(z, 0, 0)
    ensures multiset(h) == multiset(z) + multiset{h[0]}
  {
    forall p, c | 0 <= p && p != 0 && Child(p, c) && c < |z|
      ensures Ordered(z, p, c)
    {
      assert Ordered(h, p, c);
    }
    SwapPermutes(h, 0, |h| - 1);
    assert Swap(h, 0, |h| - 1) == z + [h[0]];
  }

  /** `heap.Pop`: swap the root to the end, sift down, take the end off. */
  method Pop(h: seq<Cursor>) returns (x: Cursor, z: seq<Cursor>)
    requires IsHeap(h) && h != []
    ensures IsHeap(z) && multiset(h) == multiset(z) + multiset{x}
    ensures forall c :: c in multiset(h) ==> !Before(c, x)
  {
    var n := |h| - 1;
    x, z := h[0], Swap(h, 0, n)[..n];
    RootIsMinimum(h);
    WithoutRoot(h, z);
    if n > 0 {
      z := Down(z, 0);
    }
  }

  // ---- The merge ----

  datatype Counts = Counts(sha1: nat, sha256: nat, unique: nat, duplicate: nat)
  datatype Merged = Merged(counts: Counts, bytes: nat, lines: seq<string>)

  ghost function Ahead(c: Cursor): seq<string> {
    [c.value] + c.rest
  }

  /** Every line that is still to be merged. */
  ghost function Pending(cursors: multiset<Cursor>): set<string> {
    set c, d | c in cursors && d in Ahead(c) :: d
  }

  ghost function Union(runs: seq<seq<string>>): set<string> {
    set i, d | 0 <= i < |runs| && d in runs[i] :: d
  }

  ghost predicate AllAscending(cursors: multiset<Cursor>) {
    forall c :: c in cursors ==> Ascending(Ahead(c))
  }

  function Sized(lines: seq<string>, n: nat): nat {
    if lines == [] then 0 else Sized(lines[..|lines| - 1], n) + if |lines[|lines| - 1]| == n then 1 else 0
  }

  predicate DigestSizes(lines: seq<string>) {
    forall i :: 0 <= i < |lines| ==> |lines[i]| == 40 || |lines[i]| == 64
  }

  /** The strictly ascending listing of everything in the runs. */
  ghost predicate Listing(runs: seq<seq<string>>, lines: seq<string>) {
    Ascending(lines) && Elements(lines) == Union(runs) - {""}
  }

  ghost function LinesLeft(h: seq<Cursor>): nat {
    if h == [] then 0 else LinesLeft(h[1..]) + 1 + |h[0].rest|
  }

  lemma {:induction false} LinesLeftWithout(h: seq<Cursor>, k: nat)
    requires k < |h|
    ensures LinesLeft(h) == LinesLeft(h[..k] + h[k + 1..]) + 1 + |h[k].rest|
    decreases k
  {
    if k == 0 {
      assert h[..0] + h[1..] == h[1..];
    } else {
      LinesLeftWithout(h[1..], k - 1);
      var without := h[..k] + h[k + 1..];
      assert without[0] == h[0] && without[1..] == h[1..][..k - 1] + h[1..][k..];
    }
  }

  lemma RemovedFrom(h: seq<Cursor>, k: nat)
    requires k < |h|
    ensures multiset(h[..k] + h[k + 1..]) == multiset(h) - multiset{h[k]}
  {
    assert h == h[..k] + [h[k]] + h[k + 1..];
    assert multiset(h) == multiset(h[..k]) + multiset([h[k]]) + multiset(h[k + 1..]);
  }

  lemma SameLength(h: seq<Cursor>, z: seq<Cursor>)
    requires multiset(h) == multiset(z)
    ensures |h| == |z| && (h != [] ==> h[0] in z)
  {
    assert |multiset(h)| == |h| && |multiset(z)| == |z|;
    if h != [] {
      assert h[0] in multiset(z);
    }
  }

  lemma Position(z: seq<Cursor>, c: Cursor) returns (k: nat)
    requires c in z
    ensures k < |z| && z[k] == c
  {
    k :| 0 <= k < |z| && z[k] == c;
  }

  lemma TailMultiset(h: seq<Cursor>)
    requires h != []
    ensures multiset(h[1..]) == multiset(h) - multiset{h[0]}
  {
    assert h == [h[0]] + h[1..];
    assert multiset(h) == multiset([h[0]]) + multiset(h[1..]);
  }

  lemma RestPermutes(h: seq<Cursor>, z: seq<Cursor>, k: nat)
    requires h != [] && k < |z| && z[k] == h[0] && multiset(h) == multiset(z)
    ensures multiset(h[1..]) == multiset(z[..k] + z[k + 1..])
  {
    TailMultiset(h);
    RemovedFrom(z, k);
  }

  lemma {:induction false} LinesLeftPermutes(h: seq<Cursor>, z: seq<Cursor>)
    requires multiset(h) == multiset(z)
    ensures LinesLeft(h) == LinesLeft(z)
    decreases |h|
  {
    SameLength(h, z);
    if h != [] {
      var k := Position(z, h[0]);
      LinesLeftWithout(z, k);
      RestPermutes(h, z, k);
      LinesLeftPermutes(h[1..], z[..k] + z[k + 1..]);
    }
  }

  lemma PopLinesLeft(h: seq<Cursor>, z: seq<Cursor>, x: Cursor)
    requires multiset(h) == multiset(z) + multiset{x}
    ensures LinesLeft(h) == LinesLeft(z) + 1 + |x.rest|
  {
    assert ([x] + z)[1..] == z;
    LinesLeftPermutes(h, [x] + z);
  }

  /** What the cursor popped off held: its line, and what it holds after moving on. */
  lemma PopPending(h: multiset<Cursor>, z: multiset<Cursor>, x: Cursor)
    requires h == z + multiset{x}
    ensures Pending(h) == Pending(z) + {x.value} + Elements(x.rest)
  {
    forall d | d in Pending(h)
      ensures d in Pending(z) + {x.value} + Elements(x.rest)
    {
      var c :| c in h && d in Ahead(c);
      assert c == x || c in z;
    }
    forall d | d in Pending(z) + {x.value} + Elements(x.rest)
      ensures d in Pending(h)
    {
      if d in Pending(z) {
        var c :| c in z && d in Ahead(c);
        assert c in h;
      } else {
        assert x in h && d in Ahead(x);
      }
    }
  }

  lemma HeadIsLeastAhead(c: Cursor, d: string)
    requires Ascending(Ahead(c)) && d in Ahead(c)
    ensures !Less(d, c.value)
  {
    HeadIsLeast(Ahead(c), d);
    LessTrichotomy(d, c.value);
  }

  /** The popped line is least among all that is pending. */
  lemma PoppedIsLeast(h: multiset<Cursor>, x: Cursor, d: string)
    requires AllAscending(h) && (forall c :: c in h ==> !Before(c, x)) && d in Pending(h)
    ensures !Less(d, x.value)
  {
    var c :| c in h && d in Ahead(c);
    HeadIsLeastAhead(c, d);
    BeforeTotal(c, x);
    LessOrEqualTransitive(x.value, c.value, d);
  }

  function Moved(c: Cursor): Cursor
    requires c.rest != []
  {
    Cursor(c.rest[0], c.rest[1..], c.index)
  }

  lemma MovedAhead(c: Cursor)
    requires c.rest != [] && Ascending(Ahead(c))
    ensures Ahead(Moved(c)) == c.rest && Ascending(c.rest)
  {
    assert Ahead(c)[1..] == c.rest;
    forall i, j | 0 <= i < j < |c.rest|
      ensures Less(c.rest[i], c.rest[j])
    {
      assert Ahead(c)[i + 1] == c.rest[i] && Ahead(c)[j + 1] == c.rest[j];
    }
  }

  /** Opens one cursor per run. */
  method OpenRuns(runs: seq<seq<string>>) returns (cursors: Option<seq<Cursor>>)
    requires forall i :: 0 <= i < |runs| ==> Ascending(runs[i])
    ensures cursors.None? <==> exists i :: 0 <= i < |runs| && runs[i] == []
    ensures cursors.Some? ==> AllAscending(multiset(cursors.value)) && Pending(multiset(cursors.value)) == Union(runs)
  {
    var open: seq<Cursor> := [];
    for i := 0 to |runs|
      invariant |open| == i
      invariant forall k :: 0 <= k < i ==> runs[k] != [] && Ahead(open[k]) == runs[k]
    {
      if runs[i] == [] {
        return None;
      }
      open := open + [Cursor(runs[i][0], runs[i][1..], i)];
    }
    OpenPending(runs, open);
    cursors := Some(open);
  }

  lemma OpenPending(runs: seq<seq<string>>, open: seq<Cursor>)
    requires |open| == |runs| && forall k :: 0 <= k < |runs| ==> Ahead(open[k]) == runs[k] && Ascending(runs[k])
    ensures AllAscending(multiset(open)) && Pending(multiset(open)) == Union(runs)
  {
    forall c | c in multiset(open)
      ensures Ascending(Ahead(c))
    {
      var k :| 0 <= k < |open| && open[k] == c;
    }
    forall d
      ensures d in Pending(multiset(open)) <==> d in Union(runs)
    {
      if d in Pending(multiset(open)) {
        var c :| c in multiset(open) && d in Ahead(c);
        var k :| 0 <= k < |open| && open[k] == c;
        assert d in runs[k];
      }
      if d in Union(runs) {
        var k :| 0 <= k < |runs| && d in runs[k];
        assert open[k] in multiset(open) && d in Ahead(open[k]);
      }
    }
  }

  /** The merge between two pops: what is written, and what is pending behind it. */
  ghost predicate MergeInvariant(all: set<string>, pending: set<string>, m: Merged) {
    && Ascending(m.lines) && DigestSizes(m.lines) && "" !in Elements(m.lines)
    && Elements(m.lines) + (pending - {""}) == all
    && (m.lines != [] ==> forall d :: d in pending ==> !Less(d, m.lines[|m.lines| - 1]))
    && m.counts.sha1 == Sized(m.lines, 40) && m.counts.sha256 == Sized(m.lines, 64) && m.counts.unique == |m.lines|
    && m.bytes == TotalLength(m.lines)
  }

  /** Writes one line and counts it; fails when the limit is reached or the length is not a digest's. */
  method Write(m: Merged, value: string, maximumBytes: nat) returns (z: Option<Merged>)
    requires m.bytes <= maximumBytes
    ensures z.Some? <==> m.bytes + |value| + 1 <= maximumBytes && (|value| == 40 || |value| == 64)
    ensures z.Some? ==> z.value == Merged(
                                     Counts(m.counts.sha1 + (if |value| == 40 then 1 else 0), m.counts.sha256
                                            + (if |value| == 64 then 1 else 0), m.counts.unique + 1,
                                            m.counts.duplicate),
                                     m.bytes + |value| + 1, m.lines + [value])
  {
    var lineBytes := |value| + 1;
    if lineBytes > maximumBytes || m.bytes > maximumBytes - lineBytes {
      return None;
    }
    var counts := m.counts;
    if |value| == 40 {
      counts := counts.(sha1 := counts.sha1 + 1);
    } else if |value| == 64 {
      counts := counts.(sha256 := counts.sha256 + 1);
    } else {
      return None;
    }
    z := Some(Merged(counts.(unique := counts.unique + 1), m.bytes + lineBytes, m.lines + [value]));
  }

  lemma WriteKeeps(all: set<string>, pending: set<string>, m: Merged, value: string, z: Merged)
    requires MergeInvariant(all, pending, m) && value in pending && (forall d :: d in pending ==> !Less(d, value))
    requires value != LastOf(m.lines) && value != "" && (|value| == 40 || |value| == 64)
    requires z.lines == m.lines + [value] && z.bytes == m.bytes + |value| + 1
    requires z.counts == Counts(m.counts.sha1 + (if |value| == 40 then 1 else 0),
                                m.counts.sha256 + (if |value| == 64 then 1 else 0), m.counts.unique + 1,
                                m.counts.duplicate)
    ensures MergeInvariant(all, pending, z)
  {
    if m.lines != [] {
      LessTrichotomy(LastOf(m.lines), value);
    }
    AscendingGrows(m.lines, value);
    assert z.lines[..|z.lines| - 1] == m.lines;
  }

  lemma MergeMovesOn(all: set<string>, pending: set<string>, less: set<string>, value: string, m: Merged)
    requires MergeInvariant(all, pending, m) && less <= pending && pending <= less + {value}
    requires value == "" || value in Elements(m.lines)
    ensures MergeInvariant(all, less, m)
  {
  }

  lemma FirstAgrees(lines: seq<string>, full: seq<string>)
    requires Ascending(lines) && Ascending(full) && Elements(lines) <= Elements(full) && lines != []
    requires forall d :: d in full && d !in lines ==> !Less(d, lines[|lines| - 1])
    ensures full != [] && full[0] == lines[0]
  {
    assert lines[0] in Elements(lines);
    var first := full[0];
    HeadIsLeast(full, lines[0]);
    LessTrichotomy(first, lines[0]);
    if first in lines {
      HeadIsLeast(lines, first);
    } else {
      HeadIsLeast(lines, lines[|lines| - 1]);
      LessTrichotomy(lines[0], lines[|lines| - 1]);
      LessOrEqualTransitive(lines[0], lines[|lines| - 1], first);
    }
  }

  /** The lines written so far start every complete listing. */
  lemma {:induction false} WrittenIsPrefix(lines: seq<string>, full: seq<string>)
    requires Ascending(lines) && Ascending(full) && Elements(lines) <= Elements(full)
    requires lines != [] ==> forall d :: d in full && d !in lines ==> !Less(d, lines[|lines| - 1])
    ensures lines <= full
    decreases |lines|
  {
    if lines != [] {
      FirstAgrees(lines, full);
      TailElements(lines);
      TailElements(full);
      if |lines| > 1 {
        var more, rest := lines[1..], full[1..];
        forall d | d in rest && d !in more
          ensures !Less(d, more[|more| - 1])
        {
          assert d in Elements(rest) && d !in Elements(more);
          assert d in Elements(full) && d !in Elements(lines);
        }
        WrittenIsPrefix(more, rest);
      }
      assert lines == [lines[0]] + lines[1..] && full == [full[0]] + full[1..];
    }
  }

  lemma {:induction false} PrefixIsShorter(lines: seq<string>, full: seq<string>)
    requires lines <= full
    ensures TotalLength(lines) <= TotalLength(full) && (DigestSizes(full) ==> DigestSizes(lines))
    decreases |full|
  {
    if |lines| < |full| {
      var before := full[..|full| - 1];
      PrefixIsShorter(lines, before);
    } else {
      assert lines == full;
    }
  }

  /** Everything written is at or before what is pending, so it starts the listing, and so does the next line. */
  lemma NextIsPrefix(runs: seq<seq<string>>, pending: set<string>, m: Merged, value: string, full: seq<string>)
    requires MergeInvariant(Union(runs) - {""}, pending, m) && Listing(runs, full)
    requires value in pending && (forall d :: d in pending ==> !Less(d, value))
    requires value != LastOf(m.lines) && value != ""
    ensures m.lines + [value] <= full
  {
    var next := m.lines + [value];
    if m.lines != [] {
      LessTrichotomy(LastOf(m.lines), value);
    }
    AscendingGrows(m.lines, value);
    forall d | d in full && d !in next
      ensures !Less(d, next[|next| - 1])
    {
      assert d in Elements(full) && d !in Elements(next);
      assert d in pending;
    }
    WrittenIsPrefix(next, full);
  }

  /**
   What a caller may expect of `mergeRuns`: the listing fits, holds digests only, and is no
   longer than the raw count.
   */
  ghost predicate Mergeable(runs: seq<seq<string>>, full: seq<string>, rawEntries: nat, maximumBytes: int) {
    && Listing(runs, full) && (forall i :: 0 <= i < |runs| ==> runs[i] != [])
    && DigestSizes(full) && 0 < |full| <= rawEntries
    && TotalLength(full) <= maximumBytes <= 134_217_728
  }

  /**
   `mergeRuns`: it succeeds exactly when the listing is mergeable, and then writes
   that listing with its counts and size.
   */
  method MergeRuns(runs: seq<seq<string>>, rawEntries: nat, maximumBytes: int) returns (r: Option<Merged>)
    requires forall i :: 0 <= i < |runs| ==> Ascending(runs[i])
    ensures r.Some? ==> Mergeable(runs, r.value.lines, rawEntries, maximumBytes)
    ensures r.None? ==> forall full :: !Mergeable(runs, full, rawEntries, maximumBytes)
    ensures r.Some? ==> var m := r.value;
                        && m.counts.sha1 == Sized(m.lines, 40) && m.counts.sha256 == Sized(m.lines, 64)
                        && m.counts.unique == |m.lines| && m.counts.unique + m.counts.duplicate == rawEntries
                        && m.bytes == TotalLength(m.lines)
  {
    if runs == [] || rawEntries == 0 || maximumBytes <= 0 || maximumBytes > MAXIMUM_CORPUS_BYTES {
      EmptyListing(runs);
      return None;
    }
    var cursors := OpenRuns(runs);
    if cursors.None? {
      return None;
    }
    var values := Init(cursors.value);
    var m := Merge(runs, values, maximumBytes);
    if m.None? {
      return None;
    }
    var merged := m.value;
    if merged.counts.unique == 0 || merged.counts.unique > rawEntries {
      forall full | Listing(runs, full)
        ensures full == merged.lines
      {
        AscendingUnique(full, merged.lines);
      }
      return None;
    }
    r := Some(merged.(counts := merged.counts.(duplicate := rawEntries - merged.counts.unique)));
  }

  lemma EmptyListing(runs: seq<seq<string>>)
    ensures runs == [] ==> forall full: seq<string> :: Listing(runs, full) ==> full == []
    ensures forall lines: seq<string> :: lines != [] ==> TotalLength(lines) > 0
  {
    if runs == [] {
      forall full: seq<string> | Listing(runs, full)
        ensures full == []
      {
        SomeElement(full);
      }
    }
  }

  /** Writes a popped line unless it repeats the last one. */
  method Emit(runs: seq<seq<string>>, ghost pending: set<string>, m: Merged, value: string, maximumBytes: nat)
    returns (z: Option<Merged>)
    requires MergeInvariant(Union(runs) - {""}, pending, m) && m.bytes <= maximumBytes
    requires value in pending && forall d :: d in pending ==> !Less(d, value)
    ensures z.Some? ==> MergeInvariant(Union(runs) - {""}, pending, z.value) && z.value.bytes <= maximumBytes
    ensures z.Some? ==> value == "" || value in Elements(z.value.lines)
    ensures z.None? ==> forall full :: Listing(runs, full) && DigestSizes(full) ==> TotalLength(full) > maximumBytes
  {
    if value == LastOf(m.lines) {
      LastIsElement(m.lines);
      return Some(m);
    }
    BlankIsLeast(LastOf(m.lines));
    assert LastOf(m.lines) == "" ==> m.lines == [];
    z := Write(m, value, maximumBytes);
    if z.None? {
      forall full | Listing(runs, full) && DigestSizes(full)
        ensures TotalLength(full) > maximumBytes
      {
        NextIsPrefix(runs, pending, m, value, full);
        PrefixIsShorter(m.lines + [value], full);
        LongerByOne(m.lines, value);
      }
    } else {
      WriteKeeps(Union(runs) - {""}, pending, m, value, z.value);
    }
  }

  lemma BlankIsLeast(s: string)
    ensures s != "" ==> Less("", s)
  {
  }

  lemma LongerByOne(lines: seq<string>, value: string)
    ensures TotalLength(lines + [value]) == TotalLength(lines) + |value| + 1
    ensures DigestSizes(lines + [value]) ==> |value| == 40 || |value| == 64
  {
    var z := lines + [value];
    assert z[..|z| - 1] == lines && z[|z| - 1] == value;
  }

  /** Moves the popped cursor on and pushes it back, unless its run is used up. */
  method MoveOn(popped: seq<Cursor>, cursor: Cursor) returns (values: seq<Cursor>)
    requires IsHeap(popped) && AllAscending(multiset(popped)) && Ascending(Ahead(cursor))
    ensures IsHeap(values) && AllAscending(multiset(values))
    ensures Pending(multiset(values)) == Pending(multiset(popped)) + Elements(cursor.rest)
    ensures LinesLeft(values) == LinesLeft(popped) + |cursor.rest|
  {
    if cursor.rest == [] {
      return popped;
    }
    var moved := Moved(cursor);
    MovedAhead(cursor);
    values := Push(popped, moved);
    PopPending(multiset(values), multiset(popped), moved);
    PopLinesLeft(values, popped, moved);
    assert Elements(cursor.rest) == {moved.value} + Elements(moved.rest) by {
      assert cursor.rest == [moved.value] + moved.rest;
    }
  }

  /** The loop of `mergeRuns` over the heap. */
  method Merge(runs: seq<seq<string>>, start: seq<Cursor>, maximumBytes: nat) returns (r: Option<Merged>)
    requires IsHeap(start) && AllAscending(multiset(start)) && Pending(multiset(start)) == Union(runs)
    ensures r.Some? ==> MergeInvariant(Union(runs) - {""}, {}, r.value) && r.value.bytes <= maximumBytes
    ensures r.None? ==> forall full :: Listing(runs, full) && DigestSizes(full) ==> TotalLength(full) > maximumBytes
  {
    var values := start;
    var m := Merged(Counts(0, 0, 0, 0), 0, []);
    while values != []
      invariant IsHeap(values) && AllAscending(multiset(values))
      invariant MergeInvariant(Union(runs) - {""}, Pending(multiset(values)), m)
      invariant m.bytes <= maximumBytes
      decreases LinesLeft(values)
    {
      ghost var before := multiset(values);
      ghost var pending := Pending(before);
      var cursor, popped := Pop(values);
      PopLinesLeft(values, popped, cursor);
      PopPending(before, multiset(popped), cursor);
      forall d | d in pending
        ensures !Less(d, cursor.value)
      {
        PoppedIsLeast(before, cursor, d);
      }
      assert cursor in before;
      var z := Emit(runs, pending, m, cursor.value, maximumBytes);
      if z.None? {
        return None;
      }
      m := z.value;
      values := MoveOn(popped, cursor);
      MergeMovesOn(Union(runs) - {""}, pending, Pending(multiset(values)), cursor.value, m);
    }
    r := Some(m);
  }
}
