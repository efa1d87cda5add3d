/** Leases on tombstones: for how long they exclude other collectors, and that a crash does not keep a secret. */
module MfaLeases {
  import opened MfaSecrets

  /** No credential names the secret, and no enrolment waits for its confirmation at this time. */
  ghost predicate Unnamed(w: World, ref: Ref, at: real) {
    && (forall u :: u in w.credentials ==> w.credentials[u] != ref)
    && (ref in w.enrollments ==>
          match w.enrollments[ref].status
          case Pending => at >= w.enrollments[ref].expires
          case Confirmed => true
          case Expired => true)
  }

  lemma LiveMeansNamed(w: World, ref: Ref, at: real)
    ensures Live(w, ref, at) <==> !Unnamed(w, ref, at)
  {
  }

  /** A collector that comes to a secret which something names takes its tombstone away and gets nothing. */
  lemma NamedIsSpared(w: World, ref: Ref, at: real, token: string)
    requires !Unnamed(w, ref, at)
    ensures LeaseTried(w, ref, at, token) == w.(tombs := w.tombs - {ref})
  {
    LiveMeansNamed(w, ref, at);
  }

  /** This collector's lease attempt succeeded: the tombstone carries its token from now on. */
  ghost predicate Granted(w: World, ref: Ref, at: real, token: string) {
    HasLease(LeaseTried(w, ref, at, token), Hold(ref, token))
  }

  /**
   Two collectors: the second gets the secret that the first has leased exactly from half
   a minute later on.
   */
  lemma TakeoverIffLapsed(w: World, ref: Ref, at: real, first: string, later: real, second: string)
    requires Unnamed(w, ref, at) && ref in w.tombs && w.tombs[ref].Waiting? && w.tombs[ref].notBefore <= at <= later
    requires first != second
    ensures Granted(w, ref, at, first)
    ensures Granted(LeaseTried(w, ref, at, first), ref, later, second) <==> later >= at + 0.5
    ensures Hold(ref, second) !in w.holds ==>
              (Hold(ref, second) in LeaseTried(LeaseTried(w, ref, at, first), ref, later, second).holds
               <==> later >= at + 0.5)
  {
    var leased := LeaseTried(w, ref, at, first);
    LiveMeansNamed(w, ref, at);
    LiveMeansNamed(leased, ref, later);
    assert leased.tombs[ref] == Leased(w.tombs[ref].notBefore, w.tombs[ref].attempts, first, at + 0.5);
  }

  // ---- Over runs ----

  /** The lease on this tombstone stems from the event at `k`. */
  ghost predicate StemsFrom(events: seq<Event>, k: nat, ref: Ref, t: Tombstone) {
    k < |events| && t.Leased? && events[k] == Lease(ref, t.until - 0.5, t.token)
  }

  ghost predicate LeasesStem(w: World, events: seq<Event>) {
    forall ref :: ref in w.tombs && w.tombs[ref].Leased? ==> exists k :: StemsFrom(events, k, ref, w.tombs[ref])
  }

  lemma StepStems(rules: Rules, w: World, events: seq<Event>, e: Event, z: World)
    requires LeasesStem(w, events) && Step(rules, w, e, z)
    ensures LeasesStem(z, events + [e])
  {
    var more := events + [e];
    forall ref | ref in z.tombs && z.tombs[ref].Leased?
      ensures exists k :: StemsFrom(more, k, ref, z.tombs[ref])
    {
      if ref in w.tombs && w.tombs[ref] == z.tombs[ref] {
        var k :| StemsFrom(events, k, ref, w.tombs[ref]);
        assert StemsFrom(more, k, ref, z.tombs[ref]);
      } else {
        NewLease(rules, w, e, z, ref);
        assert StemsFrom(more, |events|, ref, z.tombs[ref]);
      }
    }
  }

  /** Only a lease event leases. */
  lemma NewLease(rules: Rules, w: World, e: Event, z: World, ref: Ref)
    requires Step(rules, w, e, z) && ref in z.tombs && z.tombs[ref].Leased?
    requires ref !in w.tombs || w.tombs[ref] != z.tombs[ref]
    ensures e == Lease(ref, z.tombs[ref].until - 0.5, z.tombs[ref].token)
  {
    if e.Insert? {
      BeginLeasesNothing(w, z, e.ref, e.expires, e.replaced, ref);
    }
  }

  lemma BeginLeasesNothing(w: World, z: World, begun: Ref, expires: real, replaced: set<Ref>, ref: Ref)
    requires Begins(w, z, begun, expires, replaced) && ref in z.tombs && z.tombs[ref].Leased?
    ensures ref in w.tombs && w.tombs[ref] == z.tombs[ref]
  {
  }

  lemma {:induction false} EveryLeaseWasGiven(rules: Rules, r: seq<World>, events: seq<Event>, i: nat)
    requires Run(rules, r, events) && i < |r|
    ensures LeasesStem(r[i], events[..i])
    decreases i
  {
    if i > 0 {
      var h := i - 1;
      EveryLeaseWasGiven(rules, r, events, h);
      assert Step(rules, r[h], events[h], r[i]);
      assert events[..i] == events[..h] + [events[h]];
      StepStems(rules, r[h], events[..h], events[h], r[i]);
    }
  }

  /**
   In every run, a collector that finds a lease on an unnamed secret gets it exactly if the
   time at which that lease was given is half a minute or more past and the tombstone is due.
   */
  lemma LeaseExcludesOthers(
    rules: Rules, r: seq<World>, events: seq<Event>, j: nat, ref: Ref, at: real, token: string)
    returns (k: nat)
    requires Run(rules, r, events) && j < |events| && events[j] == Lease(ref, at, token)
    requires ref in r[j].tombs && r[j].tombs[ref].Leased? && Unnamed(r[j], ref, at)
    ensures k < j && events[k].Lease? && events[k].ref == ref && events[k].token == r[j].tombs[ref].token
    ensures token != events[k].token ==>
              (HasLease(r[j + 1], Hold(ref, token)) <==>
               at >= events[k].at + 0.5 && at >= r[j].tombs[ref].notBefore)
  {
    LiveMeansNamed(r[j], ref, at);
    EveryLeaseWasGiven(rules, r, events, j);
    k :| StemsFrom(events[..j], k, ref, r[j].tombs[ref]);
    var i := j + 1;
    assert events[..j][k] == events[k];
    assert Step(rules, r[j], events[j], r[i]);
  }
}
