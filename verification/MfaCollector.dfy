/**
 The collector's loops.  The clock moves on between two items; the other tables stand
 still here.  Interleavings are the subject of `MfaSecrets`, and every state the
 collector passes through is recorded as a step of such a run.
 */
module MfaCollector {
  import opened MfaLeases
  import opened MfaSecrets
  import opened Strings

  /** `mfaSecretGCRetryDelay`: doubling minutes, capped at 32. */
  function RetryDelay(attempts: nat): real {
    if attempts == 0 then 1.0
    else if attempts == 1 then 2.0
    else if attempts == 2 then 4.0
    else if attempts == 3 then 8.0
    else if attempts == 4 then 16.0
    else 32.0
  }

  function PowerOfTwo(n: nat): real {
    if n == 0 then 1.0 else 2.0 * PowerOfTwo(n - 1)
  }

  lemma {:induction false} PowersGrow(m: nat, n: nat)
    requires m <= n
    ensures 1.0 <= PowerOfTwo(m) <= PowerOfTwo(n)
    decreases n
  {
    if m < n {
      PowersGrow(m, n - 1);
    } else if m > 0 {
      PowersGrow(m - 1, m - 1);
    }
  }

  /** Each failed attempt doubles the delay, until it has reached 32 minutes. */
  lemma RetryDelayDoubles(attempts: nat)
    ensures RetryDelay(attempts) == if PowerOfTwo(attempts) < 32.0 then PowerOfTwo(attempts) else 32.0
  {
    assert PowerOfTwo(4) == 16.0 && PowerOfTwo(3) == 8.0;
    if attempts >= 5 {
      PowersGrow(5, attempts);
    }
  }

  /** Time has passed, and nothing but tombstones, files and holds differs. */
  ghost predicate SameTables(w: World, z: World) {
    w.clock <= z.clock && z == w.(clock := z.clock, tombs := z.tombs, files := z.files, holds := z.holds)
  }

  ghost predicate CollectableAt(w: World, ref: Ref, at: real) {
    ref in w.tombs && Due(w.tombs[ref], at) && !Live(w, ref, at)
  }

  ghost predicate Collectable(w: World, ref: Ref) {
    CollectableAt(w, ref, w.clock)
  }

  /** The clock once `n` readings have been taken; a reading never sets it back. */
  ghost function ClockAfter(clock: real, readings: nat -> real, n: nat): real {
    if n == 0 then clock
    else
      var before := ClockAfter(clock, readings, n - 1);
      if readings(n - 1) > before then readings(n - 1) else before
  }

  lemma {:induction false} ClockRises(clock: real, readings: nat -> real, n: nat)
    ensures clock <= ClockAfter(clock, readings, n)
  {
    if n > 0 {
      ClockRises(clock, readings, n - 1);
    }
  }

  ghost predicate Gone(w: World, ref: Ref) {
    ref !in w.files && ref !in w.tombs
  }

  /** A file that the scan may list as an orphan candidate. */
  ghost predicate Old(w: World, ref: Ref) {
    ref in w.files && ref in w.born && w.born[ref] < w.clock - ORPHAN_GRACE
  }

  // ---- Listing due tombstones ----

  const MAXIMUM_BATCH: nat := 128

  /** The order of the listing: by the time from which it may be collected, then by reference. */
  predicate Before(tombs: map<Ref, Tombstone>, a: Ref, b: Ref)
    requires a in tombs && b in tombs
  {
    tombs[a].notBefore < tombs[b].notBefore || (tombs[a].notBefore == tombs[b].notBefore && Less(a, b))
  }

  predicate First(tombs: map<Ref, Tombstone>, rows: set<Ref>, a: Ref)
    requires rows <= tombs.Keys
  {
    a in rows && forall b :: b in rows && b != a ==> Before(tombs, a, b)
  }

  ghost function DueRows(w: World): set<Ref> {
    set ref | ref in w.tombs && Due(w.tombs[ref], w.clock)
  }

  /** The due tombstones that are listed before this one. */
  ghost function Earlier(w: World, ref: Ref): set<Ref>
    requires ref in w.tombs
  {
    set q | q in DueRows(w) && Before(w.tombs, q, ref)
  }

  lemma BeforeTransitive(tombs: map<Ref, Tombstone>, a: Ref, b: Ref, c: Ref)
    requires a in tombs && b in tombs && c in tombs && Before(tombs, a, b) && Before(tombs, b, c)
    ensures Before(tombs, a, c)
  {
    if Less(a, b) && Less(b, c) {
      LessTransitive(a, b, c);
    }
  }

  lemma BeforeTotal(tombs: map<Ref, Tombstone>, a: Ref, b: Ref)
    requires a in tombs && b in tombs
    ensures !(Before(tombs, a, b) && Before(tombs, b, a))
    ensures a != b ==> Before(tombs, a, b) || Before(tombs, b, a)
  {
    LessTrichotomy(a, b);
  }

  lemma {:induction false} HasFirst(tombs: map<Ref, Tombstone>, rows: set<Ref>)
    requires rows <= tombs.Keys && rows != {}
    ensures exists a :: First(tombs, rows, a)
    decreases rows
  {
    var x :| x in rows;
    if rows == {x} {
      assert First(tombs, rows, x);
    } else {
      HasFirst(tombs, rows - {x});
      var a :| First(tombs, rows - {x}, a);
      BeforeTotal(tombs, a, x);
      if Before(tombs, a, x) {
        assert First(tombs, rows, a);
      } else {
        forall b | b in rows && b != x
          ensures Before(tombs, x, b)
        {
          if b != a {
            BeforeTransitive(tombs, x, a, b);
          }
        }
        assert First(tombs, rows, x);
      }
    }
  }

  /**
   A row that is listed has fewer rows before it than the listing is long; one that is not
   has all of them before it.
   */
  lemma ListedIffEarly(w: World, items: seq<Ref>, ref: Ref)
    requires Elements(items) <= DueRows(w) && Distinct(items) && ref in DueRows(w)
    requires forall a, b :: a in Elements(items) && b in DueRows(w) - Elements(items) ==> Before(w.tombs, a, b)
    ensures ref in items ==> |Earlier(w, ref)| < |items|
    ensures ref !in items ==> |Earlier(w, ref)| >= |items|
  {
    DistinctSize(items);
    if ref in items {
      forall q | q in Earlier(w, ref)
        ensures q in Elements(items) - {ref}
      {
        BeforeTotal(w.tombs, q, ref);
        BeforeTotal(w.tombs, ref, ref);
      }
      SubsetSize(Earlier(w, ref), Elements(items) - {ref});
    } else {
      SubsetSize(Elements(items), Earlier(w, ref));
    }
  }

  // ---- The loops ----

  /** The tombstones with a fresh one for each of these secrets that has none. */
  ghost function Marked(tombs: map<Ref, Tombstone>, orphans: set<Ref>, at: real): map<Ref, Tombstone> {
    map ref | ref in tombs.Keys + orphans :: if ref in tombs then tombs[ref] else Waiting(at, 0)
  }

  ghost function UnnamedAmong(w: World, scanned: seq<Ref>): set<Ref> {
    set q | q in scanned && !Live(w, q, w.clock)
  }

  /** The tables once the scanned files have been reconciled: the unnamed ones have a tombstone. */
  ghost function AfterScan(w: World, scanned: seq<Ref>): World {
    w.(tombs := Marked(w.tombs, UnnamedAmong(w, scanned), w.clock))
  }

  lemma MarkOne(tombs: map<Ref, Tombstone>, orphans: set<Ref>, at: real, ref: Ref)
    ensures Marked(tombs, orphans + {ref}, at) == Enqueued(Marked(tombs, orphans, at), ref, at)
  {
    SameEntries(Marked(tombs, orphans + {ref}, at), Enqueued(Marked(tombs, orphans, at), ref, at));
  }

  lemma ScanStep(w: World, scanned: seq<Ref>, ref: Ref)
    ensures var z := AfterScan(w, scanned);
            AfterScan(w, scanned + [ref])
            == if !Live(z, ref, z.clock) && ref !in z.tombs then Reconciled(z, ref, z.clock) else z
  {
    var z, orphans := AfterScan(w, scanned), UnnamedAmong(w, scanned);
    assert Live(z, ref, z.clock) == Live(w, ref, w.clock);
    if Live(w, ref, w.clock) {
      SameElements(UnnamedAmong(w, scanned + [ref]), orphans);
    } else {
      SameElements(UnnamedAmong(w, scanned + [ref]), orphans + {ref});
      MarkOne(w.tombs, orphans, w.clock, ref);
    }
  }

  /**
   A due tombstone early enough in the order to be listed, of a secret that nothing names
   when its turn comes: as many readings later as there are tombstones before it, and its own.
   */
  ghost predicate InTurn(w: World, readings: nat -> real, ref: Ref) {
    && ref in DueRows(w) && |Earlier(w, ref)| < MAXIMUM_BATCH
    && !Live(w, ref, ClockAfter(w.clock, readings, |Earlier(w, ref)| + 1))
  }

  ghost function Turns(w: World, readings: nat -> real, failing: set<Ref>): set<Ref> {
    set ref | ref in w.tombs && InTurn(w, readings, ref) && ref !in failing
  }

  /** What one turn leaves of a due tombstone: nothing, unless its unnamed secret could not be deleted. */
  ghost predicate Rescheduled(w: World, ref: Ref, at: real, failing: set<Ref>) {
    !Live(w, ref, at) && ref in failing
  }

  /**
   The tombstones after a round over the listed ones: cancelled for secrets that something
   names, completed for the deleted ones, put off where the deletion failed.
   */
  ghost function TombsAfter(w: World, readings: nat -> real, failing: set<Ref>): map<Ref, Tombstone> {
    map ref | ref in w.tombs && (!IsListed(w, ref) || Rescheduled(w, ref, TurnClock(w, readings, ref), failing)) ::
      if IsListed(w, ref) then PutOff(w.tombs[ref], TurnClock(w, readings, ref)) else w.tombs[ref]
  }

  ghost predicate IsListed(w: World, ref: Ref) {
    ref in DueRows(w) && |Earlier(w, ref)| < MAXIMUM_BATCH
  }

  ghost function TurnClock(w: World, readings: nat -> real, ref: Ref): real
    requires ref in w.tombs
  {
    ClockAfter(w.clock, readings, |Earlier(w, ref)| + 1)
  }

  function PutOff(t: Tombstone, at: real): Tombstone {
    Waiting(at + RetryDelay(t.attempts), t.attempts + 1)
  }

  /**
   A round takes a tombstone exactly if its time has come, no lease on it is still running,
   and nothing names its secret; a lease that is still running is left alone.
   */
  lemma RoundRespectsLeases(w: World, scanned: seq<Ref>, readings: nat -> real, failing: set<Ref>, ref: Ref)
    requires ref in w.tombs
    ensures var z := AfterScan(w, scanned);
            ref in Turns(z, readings, failing) <==>
                   && w.tombs[ref].notBefore <= w.clock && (w.tombs[ref].Leased? ==> w.tombs[ref].until <= w.clock)
                   && |Earlier(z, ref)| < 128 && Unnamed(w, ref, TurnClock(z, readings, ref)) && ref !in failing
    ensures var after := TombsAfter(AfterScan(w, scanned), readings, failing);
            w.tombs[ref].notBefore > w.clock || (w.tombs[ref].Leased? && w.tombs[ref].until > w.clock) ==>
              ref in after && after[ref] == w.tombs[ref]
  {
    assert AfterScan(w, scanned).tombs[ref] == w.tombs[ref];
    LiveMeansNamed(w, ref, TurnClock(AfterScan(w, scanned), readings, ref));
  }

  /** The item at `k` is collected when its turn comes. */
  ghost predicate Takes(w: World, readings: nat -> real, items: seq<Ref>, k: nat, failing: set<Ref>)
    requires k < |items|
  {
    CollectableAt(w, items[k], ClockAfter(w.clock, readings, k + 1)) && items[k] !in failing
  }

  ghost function Taken(w: World, readings: nat -> real, items: seq<Ref>, n: nat, failing: set<Ref>): set<Ref>
    requires n <= |items|
  {
    set k | 0 <= k < n && Takes(w, readings, items, k, failing) :: items[k]
  }

  lemma TakenGrows(w: World, readings: nat -> real, items: seq<Ref>, n: nat, failing: set<Ref>)
    requires n < |items| && Distinct(items)
    ensures items[n] !in Taken(w, readings, items, n, failing)
    ensures Taken(w, readings, items, n + 1, failing)
         == Taken(w, readings, items, n, failing) + if Takes(w, readings, items, n, failing) then {items[n]} else {}
  {
  }

  ghost predicate Listed(w: World, items: seq<Ref>) {
    && Distinct(items) && Elements(items) <= DueRows(w)
    && (forall ref :: ref in DueRows(w) ==> (ref in items <==> |Earlier(w, ref)| < MAXIMUM_BATCH))
    && (forall k :: 0 <= k < |items| ==> items[k] in w.tombs && |Earlier(w, items[k])| == k)
  }

  lemma TakenAreTurns(w: World, readings: nat -> real, items: seq<Ref>, failing: set<Ref>)
    requires Listed(w, items)
    ensures Taken(w, readings, items, |items|, failing) == Turns(w, readings, failing)
  {
    var taken, turns := Taken(w, readings, items, |items|, failing), Turns(w, readings, failing);
    forall ref | ref in turns
      ensures ref in taken
    {
      var k :| 0 <= k < |items| && items[k] == ref;
      DueStays(w, readings, ref, k + 1);
      assert Takes(w, readings, items, k, failing);
    }
    forall ref | ref in taken
      ensures ref in turns
    {
      var k :| 0 <= k < |items| && Takes(w, readings, items, k, failing) && items[k] == ref;
      assert ref in Elements(items);
    }
    SameElements(taken, turns);
  }

  lemma DueStays(w: World, readings: nat -> real, ref: Ref, n: nat)
    requires ref in DueRows(w)
    ensures Due(w.tombs[ref], ClockAfter(w.clock, readings, n))
  {
    ClockRises(w.clock, readings, n);
  }

  /** In a listing that is in order, a row stands behind exactly the rows that come before it. */
  lemma PositionIsRank(w: World, items: seq<Ref>, k: nat)
    requires Elements(items) <= DueRows(w) && Distinct(items) && k < |items| && items[k] in w.tombs
    requires forall i, j :: 0 <= i < j < |items| ==>
                              items[i] in w.tombs && items[j] in w.tombs && Before(w.tombs, items[i], items[j])
    requires forall a, b :: a in Elements(items) && b in DueRows(w) - Elements(items) ==> Before(w.tombs, a, b)
    ensures |Earlier(w, items[k])| == k
  {
    var front := items[..k];
    forall q | q in Earlier(w, items[k])
      ensures q in Elements(front)
    {
      BeforeTotal(w.tombs, q, items[k]);
      assert items[k] in Elements(items);
      var j :| 0 <= j < |items| && items[j] == q;
      assert j < k;
      assert front[j] == q;
    }
    forall q | q in Elements(front)
      ensures q in Earlier(w, items[k])
    {
      var j :| 0 <= j < |front| && front[j] == q;
      assert items[j] in Elements(items);
    }
    SameElements(Earlier(w, items[k]), Elements(front));
    DistinctSize(front);
  }

  class Collector {
    const rules: Rules
    var w: World
    ghost var past: seq<World>
    ghost var events: seq<Event>

    ghost predicate Valid()
      reads this
    {
      Run(rules, past, events) && w == past[|past| - 1]
    }

    constructor (rules: Rules)
      ensures Valid() && w == EMPTY && this.rules == rules
    {
      this.rules := rules;
      w, past, events := EMPTY, [EMPTY], [];
    }

    ghost method Record(e: Event, before: World)
      requires Run(rules, past, events) && before == past[|past| - 1]
      requires Step(rules, before, e, w)
      modifies `past, `events
      ensures Valid()
    {
      past, events := past + [w], events + [e];
    }

    /** One due item of `RunOnce`: lease it, delete its file, and complete the tombstone or schedule a retry. */
    method CollectOne(ref: Ref, token: string, deleteFails: bool) returns (collected: bool)
      requires Valid()
      modifies this
      ensures Valid() && Turned(old(w), w, ref, deleteFails, collected)
    {
      var h, before := Hold(ref, token), w;
      var leased := TryLease(ref, token);
      if !leased {
        return false;
      }
      if deleteFails {
        Retry(h, w.clock + RetryDelay(before.tombs[ref].attempts));
        return false;
      }
      DeleteAndComplete(h);
      collected := true;
    }

    method TryLease(ref: Ref, token: string) returns (leased: bool)
      requires Valid()
      modifies this
      ensures Valid() && w == LeaseTried(old(w), ref, old(w.clock), token)
      ensures leased <==> Collectable(old(w), ref)
    {
      ghost var before := w;
      leased := !Live(w, ref, w.clock) && ref in w.tombs && Due(w.tombs[ref], w.clock);
      w := LeaseTried(w, ref, w.clock, token);
      Record(Lease(ref, w.clock, token), before);
    }

    method Retry(h: Hold, retryAt: real)
      requires Valid() && h in w.holds && HasLease(w, h)
      modifies this
      ensures Valid() && w == FailedAt(old(w), h, retryAt)
    {
      ghost var before := w;
      w := FailedAt(w, h, retryAt);
      Record(Fail(h, retryAt), before);
    }

    method DeleteAndComplete(h: Hold)
      requires Valid() && h in w.holds && HasLease(w, h)
      modifies this
      ensures Valid() && w == Completed(FileRemoved(old(w), h), h)
    {
      ghost var before := w;
      w := FileRemoved(w, h);
      Record(Remove(h), before);
      ghost var removed := w;
      w := Completed(w, h);
      Record(Complete(h), removed);
    }

    /** `reconcileOrphans`: files past the grace period that nothing names get a tombstone. */
    method ReconcileOrphans(candidates: seq<Ref>)
      requires Valid()
      requires forall ref :: ref in candidates ==> ref in w.born && w.born[ref] < w.clock - ORPHAN_GRACE
      modifies this
      ensures Valid() && w == AfterScan(old(w), candidates)
    {
      ghost var start := w;
      for i := 0 to |candidates|
        invariant Valid() && w == AfterScan(start, candidates[..i])
      {
        var ref, before := candidates[i], w;
        assert candidates[..i + 1] == candidates[..i] + [ref];
        ScanStep(start, candidates[..i], ref);
        if !Live(w, ref, w.clock) && ref !in w.tombs {
          w := Reconciled(w, ref, w.clock);
          Record(Reconcile(ref, w.clock), before);
        }
      }
      assert candidates[..|candidates|] == candidates;
    }

    /** `ListDueMFASecretGC`: the first 128 due tombstones in order. */
    method ListDue() returns (items: seq<Ref>)
      ensures Listed(w, items)
    {
      items := [];
      var rest := set ref | ref in w.tombs && Due(w.tombs[ref], w.clock);
      while rest != {} && |items| < MAXIMUM_BATCH
        invariant Distinct(items) && |items| <= MAXIMUM_BATCH
        invariant rest !! Elements(items) && rest + Elements(items) == DueRows(w)
        invariant forall k :: 0 <= k < |items| ==> items[k] in w.tombs
        invariant forall i, j :: 0 <= i < j < |items| ==> Before(w.tombs, items[i], items[j])
        invariant forall a, b :: a in Elements(items) && b in rest ==> Before(w.tombs, a, b)
        decreases rest
      {
        HasFirst(w.tombs, rest);
        var x :| First(w.tombs, rest, x);
        assert x !in Elements(items);
        assert forall i :: 0 <= i < |items| ==> items[i] in Elements(items);
        items, rest := items + [x], rest - {x};
      }
      forall ref | ref in DueRows(w)
        ensures ref in items <==> |Earlier(w, ref)| < MAXIMUM_BATCH
      {
        assert ref in items <==> ref in Elements(items);
        ListedIffEarly(w, items, ref);
      }
      forall k | 0 <= k < |items|
        ensures |Earlier(w, items[k])| == k
      {
        PositionIsRank(w, items, k);
      }
    }

    /** The worker's clock: it reads no earlier time than the transactions before it. */
    method ReadClock(reading: real)
      requires Valid()
      modifies this
      ensures Valid() && w == old(w).(clock := if reading > old(w.clock) then reading else old(w.clock))
    {
      if reading > w.clock {
        ghost var before := w;
        w := w.(clock := reading);
        Record(Tick(reading), before);
      }
    }

    method CollectAll(items: seq<Ref>, readings: nat -> real, token: nat -> string, failing: set<Ref>)
      returns (processed: nat)
      requires Valid() && Distinct(items) && Elements(items) <= DueRows(w)
      modifies this
      ensures Valid() && SameTables(old(w), w) && w.clock == ClockAfter(old(w.clock), readings, |items|)
      ensures Reckoned(old(w), w.tombs, readings, items, |items|, failing)
      ensures var taken := Taken(old(w), readings, items, |items|, failing);
              && w.files == old(w.files) - taken && w.tombs.Keys !! taken && processed == |taken|
    {
      ghost var start := w;
      processed := 0;
      for i := 0 to |items|
        invariant Valid() && Progress(start, w, readings, items, i, failing, processed)
      {
        ghost var before := w;
        ReadClock(readings(i));
        ghost var ticked := w;
        var collected := CollectOne(items[i], token(i), items[i] in failing);
        ProgressGrows(start, before, ticked, w, readings, items, i, failing, processed, collected);
        if collected {
          processed := processed + 1;
        }
      }
    }

    /**
     `RunOnce`: of the scanned files those that nothing names get a tombstone; then exactly
     the secrets whose due tombstone is among the first 128 and that nothing names when
     their turn comes are deleted, completed and counted, save those whose deletion fails.
     */
    method RunOnce(scanned: seq<Ref>, readings: nat -> real, token: nat -> string, failing: set<Ref>)
      returns (processed: nat)
      requires Valid() && |scanned| <= MAXIMUM_BATCH && forall ref :: ref in scanned ==> Old(w, ref)
      modifies this
      ensures Valid() && SameTables(old(w), w)
      ensures var taken := Turns(AfterScan(old(w), scanned), readings, failing);
              && w.files == old(w.files) - taken && w.tombs.Keys !! taken && processed == |taken|
      ensures w.tombs == TombsAfter(AfterScan(old(w), scanned), readings, failing)
      ensures forall ref :: Live(w, ref, w.clock) && ref in old(w.files) ==> ref in w.files
      ensures forall ref :: ref in old(w.tombs) && old(w.tombs)[ref].Leased?
                            && old(w.tombs)[ref].until > old(w.clock) ==>
                              ref in w.tombs && w.tombs[ref] == old(w.tombs)[ref]
                              && (ref in w.files <==> ref in old(w.files))
    {
      ghost var start := w;
      ReconcileOrphans(scanned);
      ghost var reconciled := w;
      var items := ListDue();
      TakenAreTurns(w, readings, items, failing);
      processed := CollectAll(items, readings, token, failing);
      ReckonedIsTombsAfter(reconciled, w.tombs, readings, items, failing);
      forall ref | Live(w, ref, w.clock)
        ensures ref !in Turns(reconciled, readings, failing)
      {
        LiveIsNotTaken(reconciled, w, readings, items, failing, ref);
      }
      forall ref | ref in start.tombs && start.tombs[ref].Leased? && start.tombs[ref].until > start.clock
        ensures ref !in Turns(reconciled, readings, failing)
        ensures ref in w.tombs && w.tombs[ref] == start.tombs[ref]
      {
        RoundRespectsLeases(start, scanned, readings, failing, ref);
      }
    }
  }

  /** No tombstone but this one differs. */
  ghost predicate OnlyTomb(a: map<Ref, Tombstone>, b: map<Ref, Tombstone>, ref: Ref) {
    forall q :: q != ref ==> (q in b <==> q in a) && (q in b ==> b[q] == a[q])
  }

  /** What one item's turn does: nothing to a lease that is not due, otherwise the tombstone is dealt with. */
  ghost predicate Turned(w: World, z: World, ref: Ref, deleteFails: bool, collected: bool) {
    && SameTables(w, z) && z.clock == w.clock && OnlyTomb(w.tombs, z.tombs, ref)
    && (collected <==> Collectable(w, ref) && !deleteFails)
    && z.files == (if collected then w.files - {ref} else w.files)
    && (collected || Live(w, ref, w.clock) ==> ref !in z.tombs)
    && (Collectable(w, ref) && deleteFails ==> ref in z.tombs && z.tombs[ref] == PutOff(w.tombs[ref], w.clock))
    && (!Live(w, ref, w.clock) && !Collectable(w, ref) ==> z.tombs == w.tombs)
  }

  /** The tombstones once the first `n` items had their turn. */
  ghost predicate Reckoned(
    s: World, tombs: map<Ref, Tombstone>, readings: nat -> real, items: seq<Ref>, n: nat, failing: set<Ref>)
    requires n <= |items|
  {
    && (forall k :: 0 <= k < n ==> ReckonedAt(s, tombs, items[k], ClockAfter(s.clock, readings, k + 1), failing))
    && forall ref :: ref !in items[..n] ==>
                       (ref in tombs <==> ref in s.tombs) && (ref in tombs ==> tombs[ref] == s.tombs[ref])
  }

  ghost predicate ReckonedAt(s: World, tombs: map<Ref, Tombstone>, ref: Ref, at: real, failing: set<Ref>) {
    && (ref in tombs <==> ref in s.tombs && Rescheduled(s, ref, at, failing))
    && (ref in tombs && ref in s.tombs ==> tombs[ref] == PutOff(s.tombs[ref], at))
  }

  lemma ReckonedGrows(
    s: World, w: World, z: World, readings: nat -> real, items: seq<Ref>, i: nat, failing: set<Ref>)
    requires i < |items| && Distinct(items) && Reckoned(s, w.tombs, readings, items, i, failing)
    requires OnlyTomb(w.tombs, z.tombs, items[i])
    requires ReckonedAt(s, z.tombs, items[i], ClockAfter(s.clock, readings, i + 1), failing)
    ensures Reckoned(s, z.tombs, readings, items, i + 1, failing)
  {
    assert items[..i + 1] == items[..i] + [items[i]];
    forall k | 0 <= k < i
      ensures ReckonedAt(s, z.tombs, items[k], ClockAfter(s.clock, readings, k + 1), failing)
    {
      assert items[k] != items[i];
    }
  }

  lemma ReckonedIsTombsAfter(
    s: World, tombs: map<Ref, Tombstone>, readings: nat -> real, items: seq<Ref>, failing: set<Ref>)
    requires Listed(s, items) && Reckoned(s, tombs, readings, items, |items|, failing)
    ensures tombs == TombsAfter(s, readings, failing)
  {
    assert items[..|items|] == items;
    var after := TombsAfter(s, readings, failing);
    forall ref
      ensures ref in tombs <==> ref in after
      ensures ref in tombs ==> tombs[ref] == after[ref]
    {
      if ref in items {
        var k :| 0 <= k < |items| && items[k] == ref;
        assert ref in Elements(items);
        assert ReckonedAt(s, tombs, items[k], ClockAfter(s.clock, readings, k + 1), failing);
      }
    }
    SameEntries(tombs, after);
  }

  /** Where the loop stands after `i` items. */
  ghost predicate Progress(
    s: World, w: World, readings: nat -> real, items: seq<Ref>, i: nat, failing: set<Ref>, processed: nat)
    requires i <= |items|
  {
    var taken := Taken(s, readings, items, i, failing);
    && SameTables(s, w) && w.clock == ClockAfter(s.clock, readings, i)
    && Reckoned(s, w.tombs, readings, items, i, failing)
    && w.files == s.files - taken && w.tombs.Keys !! taken && processed == |taken|
  }

  lemma TurnComes(s: World, w: World, readings: nat -> real, items: seq<Ref>, i: nat, failing: set<Ref>, ref: Ref)
    requires i < |items| && Distinct(items) && Elements(items) <= DueRows(s) && items[i] == ref
    requires Reckoned(s, w.tombs, readings, items, i, failing)
    ensures ref in s.tombs && Due(s.tombs[ref], ClockAfter(s.clock, readings, i + 1))
    ensures ref in w.tombs && w.tombs[ref] == s.tombs[ref]
  {
    assert ref in Elements(items);
    DueStays(s, readings, ref, i + 1);
    assert ref !in items[..i];
  }

  lemma ProgressGrows(
    s: World, before: World, w: World, z: World, readings: nat -> real, items: seq<Ref>, i: nat, failing: set<Ref>,
    processed: nat, collected: bool)
    requires i < |items| && Distinct(items) && Elements(items) <= DueRows(s)
    requires Progress(s, before, readings, items, i, failing, processed)
    requires w == before.(clock := ClockAfter(s.clock, readings, i + 1))
    requires Turned(w, z, items[i], items[i] in failing, collected)
    ensures Progress(s, z, readings, items, i + 1, failing, processed + if collected then 1 else 0)
  {
    ClockMonotone(s.clock, readings, i, i + 1);
    SameLive(s, w, items[i]);
    TakenGrows(s, readings, items, i, failing);
    TurnComes(s, w, readings, items, i, failing, items[i]);
    ReckonedGrows(s, w, z, readings, items, i, failing);
  }

  lemma SameLive(w: World, z: World, ref: Ref)
    requires SameTables(w, z)
    ensures forall at :: Live(z, ref, at) == Live(w, ref, at)
  {
  }

  lemma {:induction false} ClockMonotone(clock: real, readings: nat -> real, m: nat, n: nat)
    requires m <= n
    ensures ClockAfter(clock, readings, m) <= ClockAfter(clock, readings, n)
    decreases n
  {
    if m < n {
      ClockMonotone(clock, readings, m, n - 1);
    }
  }

  /** Whatever is named in the end was named when its turn came. */
  lemma LiveIsNotTaken(
    w: World, z: World, readings: nat -> real, items: seq<Ref>, failing: set<Ref>, ref: Ref)
    requires SameTables(w, z) && z.clock == ClockAfter(w.clock, readings, |items|) && Live(z, ref, z.clock)
    requires Taken(w, readings, items, |items|, failing) == Turns(w, readings, failing)
    ensures ref !in Turns(w, readings, failing)
  {
    if ref in Turns(w, readings, failing) {
      var k :| 0 <= k < |items| && Takes(w, readings, items, k, failing) && items[k] == ref;
      ClockMonotone(w.clock, readings, k + 1, |items|);
      assert false;
    }
  }
}
