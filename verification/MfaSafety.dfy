/**
 Why collecting MFA secrets is safe: the invariant of every run, the two runs that break
 it when a confirmation waits too long or a commit is mistaken for a failure, and the
 exact condition between them.
 */
module MfaSafety {
  import opened MfaSecrets

  // ---- The invariant ----

  ghost predicate WellFormed(w: World) {
    && w.files <= w.born.Keys && w.begins.Keys == w.born.Keys && w.enrollments.Keys <= w.born.Keys
    && (forall ref :: ref in w.born ==> w.begins[ref].now <= w.born[ref] <= w.clock)
    && (forall ref :: ref in w.born ==> (w.begins[ref].state == Committed <==> ref in w.enrollments))
    && (forall ref :: ref in w.enrollments ==> w.enrollments[ref].expires <= w.born[ref] + MAXIMUM_TTL)
    && (forall u :: u in w.credentials ==> w.credentials[u] in w.enrollments
                                           && w.enrollments[w.credentials[u]].user == u
                                           && w.enrollments[w.credentials[u]].status == Confirmed)
    && (forall h :: h in w.holds && w.holds[h] == Removed ==> h.ref !in w.files)
  }

  /** Nothing names this secret and nothing will: its enrolment is closed, was given up, or is past the grace period. */
  ghost predicate Harmless(w: World, ref: Ref)
    requires WellFormed(w)
  {
    && ref in w.born
    && (forall u :: u in w.credentials ==> w.credentials[u] != ref)
    && (|| w.begins[ref].state == Abandoned
        || (ref in w.enrollments && w.enrollments[ref].status != Pending)
        || w.clock > w.born[ref] + ORPHAN_GRACE)
  }

  /** Whatever a collector may delete, now or later, is harmless; and so is whatever is already gone. */
  ghost predicate Invariant(w: World) {
    && WellFormed(w)
    && (forall ref :: ref in w.tombs ==> Harmless(w, ref))
    && (forall h :: h in w.holds ==> Harmless(w, h.ref))
    && (forall ref :: ref in w.born && ref !in w.files ==> Harmless(w, ref))
  }

  lemma InvariantIsSafe(w: World)
    requires Invariant(w)
    ensures Safe(w)
  {
    forall u | u in w.credentials
      ensures w.credentials[u] in w.files
    {
      assert !Harmless(w, w.credentials[u]);
    }
  }

  lemma CreateKeeps(w: World, ref: Ref, user: User, now: real)
    requires Invariant(w) && CanCreate(w, ref, now)
    ensures Invariant(Created(w, ref, user, now))
  {
    var z := Created(w, ref, user, now);
    assert WellFormed(z);
    forall q | Harmless(w, q)
      ensures Harmless(z, q)
    {
    }
  }

  lemma ExpireKeeps(w: World, ref: Ref, at: real)
    requires Invariant(w) && ref in w.enrollments && w.enrollments[ref].status == Pending
    ensures Invariant(ExpiredAt(w, ref, at))
  {
    var z := ExpiredAt(w, ref, at);
    assert WellFormed(z);
    forall q | Harmless(w, q)
      ensures Harmless(z, q)
    {
    }
  }

  lemma InsertKeeps(w: World, ref: Ref, expires: real)
    requires Invariant(w) && CanInsert(w, ref, expires)
    ensures Invariant(Inserted(w, ref, expires))
  {
    var z := Inserted(w, ref, expires);
    assert WellFormed(z);
    forall q | Harmless(w, q)
      ensures Harmless(z, q)
    {
    }
  }

  /** A confirmation that commits in time never revives a secret that is being collected. */
  lemma ConfirmKeeps(w: World, user: User, ref: Ref, version: nat, now: real, rotation: bool)
    requires Invariant(w) && CanConfirm(w, user, ref, version, now)
    requires now <= w.clock <= now + (ORPHAN_GRACE - MAXIMUM_TTL)
    ensures Invariant(ConfirmedAt(w, user, ref, now, rotation))
  {
    var z := ConfirmedAt(w, user, ref, now, rotation);
    assert WellFormed(z);
    assert !Harmless(w, ref);
    forall q | Harmless(w, q)
      ensures Harmless(z, q)
    {
    }
    if user in w.credentials {
      assert Harmless(z, w.credentials[user]);
    }
  }

  lemma ReconcileKeeps(w: World, ref: Ref, now: real)
    requires Invariant(w) && now <= w.clock && CanReconcile(w, ref, now)
    ensures Invariant(Reconciled(w, ref, now))
  {
    var z := Reconciled(w, ref, now);
    assert WellFormed(z);
    assert Harmless(z, ref);
    forall q | Harmless(w, q)
      ensures Harmless(z, q)
    {
    }
  }

  lemma LeaseKeeps(w: World, ref: Ref, at: real, token: string)
    requires Invariant(w)
    ensures Invariant(LeaseTried(w, ref, at, token))
  {
    var z := LeaseTried(w, ref, at, token);
    if Live(w, ref, at) {
      FilesKeep(w, z);
    } else if ref in w.tombs && Due(w.tombs[ref], at) {
      assert WellFormed(z);
      forall q | Harmless(w, q)
        ensures Harmless(z, q)
      {
      }
      assert Harmless(w, ref);
      forall h | h in z.holds
        ensures Harmless(z, h.ref)
      {
        assert h in w.holds || h.ref == ref;
      }
    }
  }

  lemma FilesKeep(w: World, z: World)
    requires Invariant(w) && z.files <= w.files
    requires z == w.(files := z.files, holds := z.holds, tombs := z.tombs, begins := z.begins)
    requires z.begins == w.begins
             || (exists ref :: ref in w.begins && w.begins[ref].state == Open && z == GivenUp(w, ref))
    requires forall ref :: ref in w.files && ref !in z.files ==> Harmless(w, ref)
    requires forall h :: h in z.holds ==> h in w.holds && (z.holds[h] == Removed ==> h.ref !in z.files)
    requires z.tombs.Keys <= w.tombs.Keys
    ensures Invariant(z)
  {
    assert WellFormed(z);
    forall q | Harmless(w, q)
      ensures Harmless(z, q)
    {
    }
  }

  lemma TickKeeps(w: World, later: real)
    requires Invariant(w) && w.clock <= later
    ensures Invariant(w.(clock := later))
  {
    var z := w.(clock := later);
    assert WellFormed(z);
    forall q | Harmless(w, q)
      ensures Harmless(z, q)
    {
    }
  }

  lemma BeginsKeeps(w: World, z: World, ref: Ref, expires: real, replaced: set<Ref>)
    requires Invariant(w) && Begins(w, z, ref, expires, replaced)
    ensures Invariant(z)
  {
    if replaced == {} {
      InsertKeeps(w, ref, expires);
    } else {
      var q :| replaced == {q} && CanExpire(w, q, w.begins[ref].user)
               && CanInsert(ExpiredAt(w, q, w.begins[ref].now), ref, expires)
               && z == Inserted(ExpiredAt(w, q, w.begins[ref].now), ref, expires);
      ExpireKeeps(w, q, w.begins[ref].now);
      InsertKeeps(ExpiredAt(w, q, w.begins[ref].now), ref, expires);
    }
  }

  ghost predicate Sound(rules: Rules) {
    rules.wait <= ORPHAN_GRACE - MAXIMUM_TTL && rules.outcomesKnown
  }

  lemma StepKeeps(rules: Rules, w: World, e: Event, z: World)
    requires Sound(rules) && Invariant(w) && Step(rules, w, e, z)
    ensures Invariant(z)
  {
    match e
    case Tick(later) => TickKeeps(w, later);
    case Create(ref, user, now) => CreateKeeps(w, ref, user, now);
    case Insert(ref, expires, replaced) => BeginsKeeps(w, z, ref, expires, replaced);
    case GiveUp(ref) => FilesKeep(w, z);
    case CleanUp(ref) => CleanUpKeeps(w, ref);
    case Confirm(user, ref, version, now, rotation) => ConfirmKeeps(w, user, ref, version, now, rotation);
    case Reconcile(ref, now) => ReconcileKeeps(w, ref, now);
    case Lease(ref, at, token) => LeaseKeeps(w, ref, at, token);
    case Remove(h) => FilesKeep(w, z);
    case Complete(h) => FilesKeep(w, z);
    case Fail(h, retryAt) => FilesKeep(w, z);
  }

  lemma CleanUpKeeps(w: World, ref: Ref)
    requires Invariant(w) && ref in w.begins && w.begins[ref].state == Abandoned
    ensures Invariant(CleanedUp(w, ref))
  {
    assert Harmless(w, ref);
    FilesKeep(w, CleanedUp(w, ref));
  }

  lemma {:induction false} RunKeeps(rules: Rules, r: seq<World>, events: seq<Event>, i: nat)
    requires Sound(rules) && Run(rules, r, events) && i < |r|
    ensures Invariant(r[i])
    decreases i
  {
    if i > 0 {
      RunKeeps(rules, r, events, i - 1);
      StepKeeps(rules, r[i - 1], events[i - 1], r[i]);
    }
  }

  // ---- When the waiting limit is too long ----

  /**
   Enrol, let the secret be collected as an orphan, then commit a confirmation that read
   its clock before the expiry.
   */
  ghost function LateEvents(d: real): seq<Event> {
    [Create("s", "u", 0.0), Insert("s", 15.0, {}), Tick(60.0 + d), Reconcile("s", 60.0 + d),
     Lease("s", 60.0 + d, "t"), Remove(Hold("s", "t")), Complete(Hold("s", "t")), Confirm("u", "s", 1, 15.0 - d, false)]
  }

  ghost function LateWorld(d: real, n: nat): World
    requires n <= 8
  {
    var w1 := Created(EMPTY, "s", "u", 0.0);
    var w2 := Inserted(w1, "s", 15.0);
    var w3 := w2.(clock := 60.0 + d);
    var w4 := Reconciled(w3, "s", 60.0 + d);
    var w5 := LeaseTried(w4, "s", 60.0 + d, "t");
    var w6 := FileRemoved(w5, Hold("s", "t"));
    var w7 := Completed(w6, Hold("s", "t"));
    [EMPTY, w1, w2, w3, w4, w5, w6, w7, ConfirmedAt(w7, "u", "s", 15.0 - d, false)][n]
  }

  lemma EarlyStep(rules: Rules, d: real, n: nat)
    requires 0.0 < d <= 1.0 && 45.0 + d + d <= rules.wait && n < 4
    ensures Step(rules, LateWorld(d, n), LateEvents(d)[n], LateWorld(d, n + 1))
  {
    var w1 := Created(EMPTY, "s", "u", 0.0);
    assert w1.tombs == map[] && w1.enrollments == map[];
    var w2 := Inserted(w1, "s", 15.0);
    assert w2.enrollments["s"] == Enrollment("u", Pending, 15.0, 1) && w2.credentials == map[];
  }

  lemma MiddleStep(rules: Rules, d: real, n: nat)
    requires 0.0 < d <= 1.0 && 45.0 + d + d <= rules.wait && 4 <= n < 6
    ensures Step(rules, LateWorld(d, n), LateEvents(d)[n], LateWorld(d, n + 1))
  {
    var w4 := LateWorld(d, 4);
    assert w4.tombs["s"] == Waiting(60.0 + d, 0) && w4.credentials == map[];
  }

  lemma LateStep(rules: Rules, d: real, n: nat)
    requires 0.0 < d <= 1.0 && 45.0 + d + d <= rules.wait && 6 <= n < 8
    ensures Step(rules, LateWorld(d, n), LateEvents(d)[n], LateWorld(d, n + 1))
  {
    var w4 := LateWorld(d, 4);
    assert w4.tombs["s"] == Waiting(60.0 + d, 0) && w4.credentials == map[];
    var w5 := LateWorld(d, 5);
    assert w5.tombs["s"] == Leased(60.0 + d, 0, "t", 60.0 + d + 0.5);
  }

  lemma LateRunIsUnsafe(rules: Rules, d: real) returns (r: seq<World>)
    requires 0.0 < d <= 1.0 && 45.0 + d + d <= rules.wait
    ensures Run(rules, r, LateEvents(d)) && !Safe(r[|r| - 1])
  {
    r := seq(9, n requires 0 <= n < 9 => LateWorld(d, n));
    forall i, j | 0 <= i && j == i + 1 && j < |r|
      ensures Step(rules, r[i], LateEvents(d)[i], r[j])
    {
      if i < 4 {
        EarlyStep(rules, d, i);
      } else if i < 6 {
        MiddleStep(rules, d, i);
      } else {
        LateStep(rules, d, i);
      }
    }
    var w := r[8];
    assert w == LateWorld(d, 8);
    assert "u" in w.credentials && w.credentials["u"] == "s" && "s" !in w.files;
  }

  // ---- When the outcome of a commit is unknown ----

  /** Enrol; the commit went through but reported an error, so the request deletes its secret. */
  const MISTAKEN_EVENTS := [Create("s", "u", 0.0), Insert("s", 15.0, {}), GiveUp("s"), CleanUp("s")]

  lemma MistakenRunIsUnsafe(rules: Rules) returns (r: seq<World>)
    requires !rules.outcomesKnown
    ensures Run(rules, r, MISTAKEN_EVENTS) && !Safe(r[|r| - 1])
  {
    var w1 := Created(EMPTY, "s", "u", 0.0);
    assert CanInsert(w1, "s", 15.0);
    var w2 := Inserted(w1, "s", 15.0);
    var w3 := GivenUp(w2, "s");
    r := [EMPTY, w1, w2, w3, CleanedUp(w3, "s")];
    assert r[4].enrollments["s"] == Enrollment("u", Pending, 15.0, 1) && "s" !in r[4].files;
    assert AwaitsConfirmation(r[4], "s");
  }

  ghost predicate AlwaysSafe(rules: Rules) {
    forall r, events, i :: Run(rules, r, events) && 0 <= i < |r| ==> Safe(r[i])
  }

  /**
   Every interleaving is safe exactly when no confirmation may wait longer than the orphan
   grace minus the longest enrolment, 45 minutes, and no commit is mistaken for a failure.
   */
  lemma SafeExactlyWhenSound(rules: Rules)
    ensures AlwaysSafe(rules) <==> rules.wait <= ORPHAN_GRACE - MAXIMUM_TTL && rules.outcomesKnown
  {
    if Sound(rules) {
      forall r, events, i | Run(rules, r, events) && 0 <= i < |r|
        ensures Safe(r[i])
      {
        RunKeeps(rules, r, events, i);
        InvariantIsSafe(r[i]);
      }
    } else if !rules.outcomesKnown {
      var r := MistakenRunIsUnsafe(rules);
      assert Run(rules, r, MISTAKEN_EVENTS) && 0 <= 4 < |r| && !Safe(r[4]);
    } else {
      var d := if rules.wait - 45.0 < 2.0 then (rules.wait - 45.0) / 2.0 else 1.0;
      var r := LateRunIsUnsafe(rules, d);
      assert Run(rules, r, LateEvents(d)) && 0 <= 8 < |r| && !Safe(r[8]);
    }
  }

  // ---- Completion, whatever the rules ----

  /** Only a secret that was created is named anywhere, and what a collector removed stays removed. */
  ghost predicate Accounted(w: World) {
    && w.files <= w.born.Keys && w.enrollments.Keys <= w.born.Keys && w.tombs.Keys <= w.born.Keys
    && w.begins.Keys <= w.born.Keys
    && (forall u :: u in w.credentials ==> w.credentials[u] in w.born)
    && (forall h :: h in w.holds ==> h.ref in w.born && (w.holds[h] == Removed ==> h.ref !in w.files))
  }

  lemma InsertAccounts(w: World, ref: Ref, expires: real)
    requires Accounted(w) && ref in w.begins
    ensures Accounted(Inserted(w, ref, expires))
  {
  }

  lemma ExpireAccounts(w: World, ref: Ref, at: real)
    requires Accounted(w) && ref in w.enrollments
    ensures Accounted(ExpiredAt(w, ref, at))
  {
  }

  lemma BeginsAccounts(w: World, z: World, ref: Ref, expires: real, replaced: set<Ref>)
    requires Accounted(w) && Begins(w, z, ref, expires, replaced)
    ensures Accounted(z)
  {
    if replaced == {} {
      InsertAccounts(w, ref, expires);
    } else {
      var q :| replaced == {q} && CanExpire(w, q, w.begins[ref].user)
               && z == Inserted(ExpiredAt(w, q, w.begins[ref].now), ref, expires);
      ExpireAccounts(w, q, w.begins[ref].now);
      InsertAccounts(ExpiredAt(w, q, w.begins[ref].now), ref, expires);
    }
  }

  lemma ConfirmAccounts(w: World, user: User, ref: Ref, now: real, rotation: bool)
    requires Accounted(w) && ref in w.enrollments
    ensures Accounted(ConfirmedAt(w, user, ref, now, rotation))
  {
  }

  lemma LeaseAccounts(w: World, ref: Ref, at: real, token: string)
    requires Accounted(w)
    ensures Accounted(LeaseTried(w, ref, at, token))
  {
  }

  lemma StepAccounts(rules: Rules, w: World, e: Event, z: World)
    requires Accounted(w) && Step(rules, w, e, z)
    ensures Accounted(z)
  {
    match e
    case Insert(ref, expires, replaced) => BeginsAccounts(w, z, ref, expires, replaced);
    case Confirm(user, ref, _, now, rotation) => ConfirmAccounts(w, user, ref, now, rotation);
    case Lease(ref, at, token) => LeaseAccounts(w, ref, at, token);
    case _ =>
  }

  lemma {:induction false} RunAccounts(rules: Rules, r: seq<World>, events: seq<Event>, i: nat)
    requires Run(rules, r, events) && i < |r|
    ensures Accounted(r[i])
    decreases i
  {
    if i > 0 {
      RunAccounts(rules, r, events, i - 1);
      StepAccounts(rules, r[i - 1], events[i - 1], r[i]);
    }
  }

  /** A tombstone is only ever completed once its file is gone for good, so no secret is forgotten while it exists. */
  lemma CompletedMeansGone(rules: Rules, r: seq<World>, events: seq<Event>, i: nat, h: Hold)
    requires Run(rules, r, events) && i < |events| && events[i] == Complete(h)
    ensures h.ref !in r[i + 1].files
  {
    RunAccounts(rules, r, events, i);
    assert Step(rules, r[i], events[i], r[i + 1]);
  }
}
