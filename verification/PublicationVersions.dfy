/** The versions of a channel: its records are numbered from one, without gaps, under a root that never falls. */
module PublicationVersions {
  import opened Publication

  /** How many of these records belong to the channel. */
  ghost function CountOf(records: Records, created: seq<string>, c: Channel): nat {
    if created == [] then 0
    else
      var id := created[|created| - 1];
      CountOf(records, created[..|created| - 1], c) + if id in records && records[id].channel == c then 1 else 0
  }

  /** The record is the `n`-th of its channel. */
  ghost predicate Numbered(v: Versions, n: nat) {
    v.targets == n && v.snapshot == n && v.timestamp == n && v.revocation == n
  }

  lemma {:induction false} CountStays(records: Records, more: Records, created: seq<string>, c: Channel)
    requires Extends(records, more) && forall i :: 0 <= i < |created| ==> created[i] in records
    ensures CountOf(more, created, c) == CountOf(records, created, c)
    decreases |created|
  {
    if created != [] {
      var before := created[..|created| - 1];
      forall i | 0 <= i < |before|
        ensures before[i] in records
      {
        assert before[i] == created[i];
      }
      CountStays(records, more, before, c);
    }
  }

  lemma CountGrows(records: Records, created: seq<string>, id: string, r: Record, c: Channel)
    requires id !in records && forall i :: 0 <= i < |created| ==> created[i] in records
    ensures CountOf(records[id := r], created + [id], c)
         == CountOf(records, created, c) + if r.channel == c then 1 else 0
  {
    assert (created + [id])[..|created|] == created;
    CountStays(records, records[id := r], created, c);
  }

  /** Every record carries its number within its channel. */
  ghost predicate RecordsNumbered(records: Records, created: seq<string>) {
    && (forall i :: 0 <= i < |created| ==> created[i] in records)
    && forall i :: 0 <= i < |created| ==> NumberedAt(records, created, i)
  }

  ghost predicate NumberedAt(records: Records, created: seq<string>, i: nat)
    requires i < |created| && created[i] in records
  {
    Numbered(records[created[i]].versions, CountOf(records, created[..i + 1], records[created[i]].channel))
  }

  /** The counters carry the number of the last record and the root of some record. */
  ghost predicate CountersHold(records: Records, created: seq<string>, counters: map<Channel, Versions>) {
    forall c :: CounterHolds(records, created, counters, c)
  }

  ghost predicate CounterHolds(records: Records, created: seq<string>, counters: map<Channel, Versions>, c: Channel) {
    && (c in counters <==> CountOf(records, created, c) > 0)
    && (c in counters ==> Numbered(counters[c], CountOf(records, created, c)) && RootFrom(records, c, counters[c].root))
  }

  ghost predicate RootFrom(records: Records, c: Channel, root: nat) {
    exists id :: id in records && records[id].channel == c && records[id].versions.root == root
  }

  lemma NumberStays(records: Records, created: seq<string>, id: string, r: Record, i: nat)
    requires id !in records && i < |created| && forall k :: 0 <= k < |created| ==> created[k] in records
    ensures var more := records[id := r];
            CountOf(more, (created + [id])[..i + 1], records[created[i]].channel)
            == CountOf(records, created[..i + 1], records[created[i]].channel)
  {
    var front := created[..i + 1];
    assert (created + [id])[..i + 1] == front;
    forall k | 0 <= k < |front|
      ensures front[k] in records
    {
      assert front[k] == created[k];
    }
    CountStays(records, records[id := r], front, records[created[i]].channel);
  }

  lemma CreateNumbers(records: Records, created: seq<string>, id: string, r: Record)
    requires RecordsNumbered(records, created) && id !in records
    requires Numbered(r.versions, CountOf(records, created, r.channel) + 1)
    ensures RecordsNumbered(records[id := r], created + [id])
  {
    var more, longer, n := records[id := r], created + [id], |created|;
    assert longer[..n + 1] == longer;
    CountGrows(records, created, id, r, r.channel);
    forall i | 0 <= i < |longer|
      ensures longer[i] in more && NumberedAt(more, longer, i)
    {
      if i < n {
        assert longer[i] == created[i] && NumberedAt(records, created, i);
        NumberStays(records, created, id, r, i);
      }
    }
  }

  lemma CreateCounts(
    records: Records, created: seq<string>, counters: map<Channel, Versions>, id: string, r: Record, c: Channel)
    requires (forall i :: 0 <= i < |created| ==> created[i] in records) && id !in records
    requires CounterHolds(records, created, counters, c)
    requires Numbered(r.versions, CountOf(records, created, r.channel) + 1)
    ensures CounterHolds(records[id := r], created + [id], counters[r.channel := r.versions], c)
  {
    var more := records[id := r];
    CountGrows(records, created, id, r, c);
    if c == r.channel {
      assert more[id].channel == c;
    } else if c in counters {
      var k :| k in records && records[k].channel == c && records[k].versions.root == counters[c].root;
      assert more[k] == records[k];
    }
  }

  lemma ReservedNumber(w: World, c: Channel, root: nat)
    requires CounterHolds(w.records, w.created, w.counters, c) && Reserved(w, c, root).Some?
    ensures Numbered(Reserved(w, c, root).value, CountOf(w.records, w.created, c) + 1)
    ensures Reserved(w, c, root).value.root == root
  {
  }

  ghost predicate NumbersHold(w: World) {
    RecordsNumbered(w.records, w.created) && CountersHold(w.records, w.created, w.counters)
  }

  lemma StepNumbers(sha: string -> string, w: World, e: Event, z: World)
    requires NumbersHold(w) && Step(sha, w, e, z)
    ensures NumbersHold(z)
  {
    if e.CreateRecord? {
      var r := e.record;
      assert CounterHolds(w.records, w.created, w.counters, r.channel);
      ReservedNumber(w, r.channel, e.rootVersion);
      CreateNumbers(w.records, w.created, e.catalog, r);
      forall c
        ensures CounterHolds(z.records, z.created, z.counters, c)
      {
        assert CounterHolds(w.records, w.created, w.counters, c);
        CreateCounts(w.records, w.created, w.counters, e.catalog, r, c);
      }
    }
  }

  lemma {:induction false} RunNumbers(sha: string -> string, r: seq<World>, events: seq<Event>, i: nat)
    requires Run(sha, r, events) && i < |r|
    ensures NumbersHold(r[i])
    decreases i
  {
    if i > 0 {
      var h := i - 1;
      RunNumbers(sha, r, events, h);
      StepNumbers(sha, r[h], events[h], r[i]);
    }
  }

  /** In every reachable state the `k`-th record of a channel has version `k` in every role but the root. */
  lemma VersionsAreConsecutive(sha: string -> string, r: seq<World>, events: seq<Event>, i: nat, a: nat)
    requires Run(sha, r, events) && i < |r| && a < |r[i].created|
    ensures var w := r[i];
            && w.created[a] in w.records
            && var record := w.records[w.created[a]];
            Numbered(record.versions, CountOf(w.records, w.created[..a + 1], record.channel))
  {
    RunNumbers(sha, r, events, i);
    assert NumberedAt(r[i].records, r[i].created, a);
  }

  /** The root is not older than that of any record of the channel. */
  ghost predicate RootIsCurrent(records: Records, c: Channel, root: nat) {
    forall id :: id in records && records[id].channel == c ==> records[id].versions.root <= root
  }

  /**
   In every reachable state versions are reserved exactly for a named channel and a root that is
   not older than any before; they are then the next number and that root.
   */
  lemma ReservedIffRootIsCurrent(
    sha: string -> string, r: seq<World>, events: seq<Event>, i: nat, c: Channel, root: nat)
    requires Run(sha, r, events) && i < |r|
    ensures Reserved(r[i], c, root).Some? <==>
            c.product != "" && c.name != "" && root >= 1 && RootIsCurrent(r[i].records, c, root)
    ensures Reserved(r[i], c, root).Some? ==>
              && Reserved(r[i], c, root).value.root == root
              && Numbered(Reserved(r[i], c, root).value, CountOf(r[i].records, r[i].created, c) + 1)
  {
    var w := r[i];
    RunNumbers(sha, r, events, i);
    RunKeeps(sha, r, events, i);
    assert CounterHolds(w.records, w.created, w.counters, c);
    RootsAgree(w, c, root);
    if Reserved(w, c, root).Some? {
      ReservedNumber(w, c, root);
    }
  }

  lemma RootsAgree(w: World, c: Channel, root: nat)
    requires CounterHolds(w.records, w.created, w.counters, c) && VersionsRise(w.records, w.created, w.counters)
    ensures RootIsCurrent(w.records, c, root) <==> c !in w.counters || w.counters[c].root <= root
  {
    if c in w.counters {
      forall id | id in w.records && w.records[id].channel == c
        ensures w.records[id].versions.root <= w.counters[c].root
      {
        assert AtMost(w.records[id].versions, w.counters[c]);
      }
    } else {
      NoneOfChannel(w.records, w.created, c);
    }
  }

  lemma {:induction false} NoneOfChannel(records: Records, created: seq<string>, c: Channel)
    requires CountOf(records, created, c) == 0
    ensures forall id :: id in created && id in records ==> records[id].channel != c
    decreases |created|
  {
    if created != [] {
      NoneOfChannel(records, created[..|created| - 1], c);
      assert created == created[..|created| - 1] + [created[|created| - 1]];
    }
  }
}
