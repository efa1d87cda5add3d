/** Enrolments over whole runs: who may confirm one, once and in time, and what becomes of the secret it replaces. */
module MfaLifecycle {
  import opened MfaSecrets

  // ---- One step ----

  /** An enrolment stays as it is, or leaves the pending state for good. */
  ghost predicate Moved(a: Enrollment, b: Enrollment) {
    b == a || (a.status == Pending && b.status != Pending && b == a.(status := b.status, version := a.version + 1))
  }

  /** A begin of an open request, for a secret that is neither queued for deletion nor enrolled. */
  ghost predicate Enrols(w: World, e: Event, z: World, ref: Ref) {
    && e.Insert? && e.ref == ref && ref in w.begins && w.begins[ref].state == Open
    && ref !in w.tombs && ref !in w.enrollments
    && w.begins[ref].now < e.expires <= w.begins[ref].now + 15.0
    && ref in z.enrollments && z.enrollments[ref] == Enrollment(w.begins[ref].user, Pending, e.expires, 1)
  }

  lemma BeginMoves(w: World, z: World, ref: Ref, expires: real, replaced: set<Ref>, q: Ref)
    requires Begins(w, z, ref, expires, replaced) && q in z.enrollments
    ensures q in w.enrollments && q != ref ==> Moved(w.enrollments[q], z.enrollments[q])
    ensures q !in w.enrollments ==> q == ref
    ensures Enrols(w, Insert(ref, expires, replaced), z, ref)
  {
  }

  lemma EnrolmentStep(rules: Rules, w: World, e: Event, z: World, ref: Ref)
    requires Step(rules, w, e, z) && ref in z.enrollments
    ensures ref in w.enrollments ==> Moved(w.enrollments[ref], z.enrollments[ref])
    ensures ref !in w.enrollments ==> Enrols(w, e, z, ref)
  {
    if e.Insert? {
      BeginMoves(w, z, e.ref, e.expires, e.replaced, ref);
    }
  }

  lemma InsertKeeps(w: World, z: World, ref: Ref, expires: real, replaced: set<Ref>)
    requires Begins(w, z, ref, expires, replaced)
    ensures z.begins == w.begins[ref := w.begins[ref].(state := Committed)]
    ensures w.enrollments.Keys <= z.enrollments.Keys
  {
  }

  lemma EnrolmentStays(rules: Rules, w: World, e: Event, z: World, ref: Ref)
    requires Step(rules, w, e, z) && ref in w.enrollments
    ensures ref in z.enrollments
  {
    if e.Insert? {
      InsertKeeps(w, z, e.ref, e.expires, e.replaced);
    }
  }

  lemma BeginStep(rules: Rules, w: World, e: Event, z: World, ref: Ref)
    requires Step(rules, w, e, z) && ref in z.begins
    ensures || e == Create(ref, z.begins[ref].user, z.begins[ref].now)
            || (ref in w.begins && z.begins[ref] == w.begins[ref].(state := z.begins[ref].state))
  {
    if e.Insert? {
      InsertKeeps(w, z, e.ref, e.expires, e.replaced);
    }
  }

  // ---- Where an enrolment comes from ----

  ghost predicate BegunBy(events: seq<Event>, k: nat, ref: Ref, b: Begin) {
    k < |events| && events[k] == Create(ref, b.user, b.now)
  }

  /** The secret was created for this user, and then the enrolment was inserted, for at most 15 minutes. */
  ghost predicate EnrolledBy(events: seq<Event>, k: nat, n: nat, ref: Ref, e: Enrollment) {
    && k < n < |events| && events[k].Create? && events[k].ref == ref && events[k].user == e.user
    && events[n].Insert? && events[n].ref == ref && events[n].expires == e.expires
    && events[k].now < e.expires <= events[k].now + 15.0
  }

  ghost predicate Stems(w: World, events: seq<Event>, ref: Ref) {
    && (ref in w.begins ==> exists k :: BegunBy(events, k, ref, w.begins[ref]))
    && (ref in w.enrollments ==>
          && (exists k, n :: EnrolledBy(events, k, n, ref, w.enrollments[ref]))
          && w.enrollments[ref].version == if w.enrollments[ref].status == Pending then 1 else 2)
  }

  lemma BeginStems(rules: Rules, w: World, events: seq<Event>, e: Event, z: World, ref: Ref)
    requires Stems(w, events, ref) && Step(rules, w, e, z) && ref in z.begins
    ensures exists k :: BegunBy(events + [e], k, ref, z.begins[ref])
  {
    BeginStep(rules, w, e, z, ref);
    if e == Create(ref, z.begins[ref].user, z.begins[ref].now) {
      assert BegunBy(events + [e], |events|, ref, z.begins[ref]);
    } else {
      var k :| BegunBy(events, k, ref, w.begins[ref]);
      assert BegunBy(events + [e], k, ref, z.begins[ref]);
    }
  }

  lemma EnrolmentStems(rules: Rules, w: World, events: seq<Event>, e: Event, z: World, ref: Ref)
    requires Stems(w, events, ref) && Step(rules, w, e, z) && ref in z.enrollments
    ensures exists k, n :: EnrolledBy(events + [e], k, n, ref, z.enrollments[ref])
    ensures z.enrollments[ref].version == if z.enrollments[ref].status == Pending then 1 else 2
  {
    EnrolmentStep(rules, w, e, z, ref);
    if ref in w.enrollments {
      var k, n :| EnrolledBy(events, k, n, ref, w.enrollments[ref]);
      assert EnrolledBy(events + [e], k, n, ref, z.enrollments[ref]);
    } else {
      var k :| BegunBy(events, k, ref, w.begins[ref]);
      assert EnrolledBy(events + [e], k, |events|, ref, z.enrollments[ref]);
    }
  }

  lemma {:induction false} EveryEnrolmentStems(rules: Rules, r: seq<World>, events: seq<Event>, i: nat, ref: Ref)
    requires Run(rules, r, events) && i < |r|
    ensures Stems(r[i], events[..i], ref)
    decreases i
  {
    if i > 0 {
      var h := i - 1;
      EveryEnrolmentStems(rules, r, events, h, ref);
      assert Step(rules, r[h], events[h], r[i]);
      assert events[..i] == events[..h] + [events[h]];
      if ref in r[i].begins {
        BeginStems(rules, r[h], events[..h], events[h], r[i], ref);
      }
      if ref in r[i].enrollments {
        EnrolmentStems(rules, r[h], events[..h], events[h], r[i], ref);
      }
    }
  }

  // ---- Confirmations ----

  /** What is no longer pending stays so. */
  lemma {:induction false} ClosedStays(rules: Rules, r: seq<World>, events: seq<Event>, i: nat, j: nat, ref: Ref)
    requires Run(rules, r, events) && i <= j < |r| && ref in r[i].enrollments && r[i].enrollments[ref].status != Pending
    ensures ref in r[j].enrollments && r[j].enrollments[ref].status != Pending
    decreases j
  {
    if i < j {
      var h := j - 1;
      ClosedStays(rules, r, events, i, h, ref);
      assert Step(rules, r[h], events[h], r[j]);
      EnrolmentStays(rules, r[h], events[h], r[j], ref);
      EnrolmentStep(rules, r[h], events[h], r[j], ref);
    }
  }

  /**
   In every run a confirmation is by the user for whom the secret was created and enrolled,
   by its own reading of the clock before the enrolment's expiry, of the version that was
   inserted, and of a secret that is not queued for deletion.
   */
  lemma ConfirmationIsEntitled(rules: Rules, r: seq<World>, events: seq<Event>, i: nat) returns (k: nat, n: nat)
    requires Run(rules, r, events) && i < |events| && events[i].Confirm?
    ensures k < n < i && events[k].Create? && events[n].Insert?
    ensures events[k].ref == events[n].ref == events[i].ref && events[k].user == events[i].user
    ensures events[i].now < events[n].expires <= events[k].now + 15.0
    ensures events[i].version == 1 && events[i].ref !in r[i].tombs
  {
    var ref, z := events[i].ref, i + 1;
    EveryEnrolmentStems(rules, r, events, i, ref);
    assert Step(rules, r[i], events[i], r[z]);
    k, n :| EnrolledBy(events[..i], k, n, ref, r[i].enrollments[ref]);
    assert events[..i][k] == events[k] && events[..i][n] == events[n];
  }

  /** An enrolment is confirmed at most once. */
  lemma ConfirmedOnce(rules: Rules, r: seq<World>, events: seq<Event>, i: nat, j: nat)
    requires Run(rules, r, events) && i < j < |events| && events[i].Confirm? && events[j].Confirm?
    ensures events[i].ref != events[j].ref
  {
    var ref, z, last := events[i].ref, i + 1, j + 1;
    assert Step(rules, r[i], events[i], r[z]);
    ClosedStays(rules, r, events, z, j, ref);
    assert Step(rules, r[j], events[j], r[last]);
  }

  /** In every run an enrolment is inserted once, while its secret is not queued for deletion. */
  lemma InsertedOnce(rules: Rules, r: seq<World>, events: seq<Event>, i: nat)
    requires Run(rules, r, events) && i < |events| && events[i].Insert?
    ensures var z := i + 1; Enrols(r[i], events[i], r[z], events[i].ref)
  {
    var z := i + 1;
    assert Step(rules, r[i], events[i], r[z]);
    BeginMoves(r[i], r[z], events[i].ref, events[i].expires, events[i].replaced, events[i].ref);
  }

  /**
   A confirmation gives the user the new secret and leaves the other users theirs; the old secret
   is queued for deletion from then on exactly if it is a rotation, or it was queued before.
   */
  lemma OldSecretIsQueued(rules: Rules, r: seq<World>, events: seq<Event>, i: nat, user: User)
    requires Run(rules, r, events) && i < |events| && events[i].Confirm?
    ensures var w, z, e := r[i], r[i + 1], events[i];
            && e.user in z.credentials && z.credentials[e.user] == e.ref
            && (user != e.user ==> (user in z.credentials <==> user in w.credentials)
                                   && (user in w.credentials ==> z.credentials[user] == w.credentials[user]))
            && (e.user in w.credentials && w.credentials[e.user] != e.ref ==>
                  (w.credentials[e.user] in z.tombs <==> e.rotation || w.credentials[e.user] in w.tombs))
            && e.ref !in z.tombs
  {
    var z := i + 1;
    assert Step(rules, r[i], events[i], r[z]);
  }

  lemma BeginReplaces(w: World, z: World, ref: Ref, expires: real, replaced: set<Ref>, q: Ref)
    requires Begins(w, z, ref, expires, replaced)
    ensures q in replaced ==>
              && q in w.enrollments && w.enrollments[q].user == w.begins[ref].user && w.enrollments[q].status == Pending
              && q in z.enrollments
              && z.enrollments[q] == w.enrollments[q].(status := Expired, version := z.enrollments[q].version)
              && q in z.tombs
    ensures q !in replaced ==> (q in z.tombs <==> q in w.tombs)
    ensures q !in replaced && q in w.enrollments && q != ref ==>
              q in z.enrollments && z.enrollments[q] == w.enrollments[q]
  {
  }

  /**
   A begin expires only the pending enrolment of its own user and queues that secret for
   deletion; all other enrolments and queued secrets stay.
   */
  lemma BeginExpiresOwn(rules: Rules, r: seq<World>, events: seq<Event>, i: nat, q: Ref)
    requires Run(rules, r, events) && i < |events| && events[i].Insert?
    ensures var w, z, e := r[i], r[i + 1], events[i];
            if q in e.replaced
            then && e.ref in w.begins && q in w.enrollments && w.enrollments[q].user == w.begins[e.ref].user
                 && w.enrollments[q].status == Pending && q in z.enrollments
                 && z.enrollments[q].status == Expired && q in z.tombs
            else && (q in z.tombs <==> q in w.tombs)
                 && (q in w.enrollments && q != e.ref ==>
                       q in z.enrollments && z.enrollments[q] == w.enrollments[q])
  {
    var z := i + 1;
    assert Step(rules, r[i], events[i], r[z]);
    BeginReplaces(r[i], r[z], events[i].ref, events[i].expires, events[i].replaced, q);
  }
}
