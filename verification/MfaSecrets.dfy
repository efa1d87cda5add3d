/**
 The life of MFA secrets: enrolment, confirmation, rotation and expiry next to any
 number of collectors that delete files outside every transaction.  Times are in
 minutes; a request works with the clock value it read, however late it commits.
 */
module MfaSecrets {

  const MAXIMUM_TTL := 15.0
  const ORPHAN_GRACE := 60.0
  const LEASE_DURATION := 0.5

  type Ref = string
  type User = string

  datatype Status = Pending | Confirmed | Expired
  datatype Enrollment = Enrollment(user: User, status: Status, expires: real, version: nat)

  /** A begin request between creating its file and the outcome of its transaction. */
  datatype BeginState = Open | Committed | Abandoned
  datatype Begin = Begin(user: User, now: real, state: BeginState)

  datatype Tombstone =
    | Waiting(notBefore: real, attempts: nat)
    | Leased(notBefore: real, attempts: nat, token: string, until: real)

  /** What a collector that once got a lease did: it keeps the reference even after the lease ran out. */
  datatype Hold = Hold(ref: Ref, token: string)
  datatype HoldState = Holding | Removed

  /** The tables, the secret files, and what requests and collectors in flight remember. */
  datatype World = World(
    clock: real,
    born: map<Ref, real>, files: set<Ref>,
    begins: map<Ref, Begin>,
    enrollments: map<Ref, Enrollment>,
    credentials: map<User, Ref>,
    tombs: map<Ref, Tombstone>,
    holds: map<Hold, HoldState>)

  // ---- Repository checks ----

  /** `MFASecretReferenceIsLive` */
  predicate Live(w: World, ref: Ref, at: real) {
    || (exists u :: u in w.credentials && w.credentials[u] == ref)
    || (ref in w.enrollments && w.enrollments[ref].status == Pending && w.enrollments[ref].expires > at)
  }

  predicate Due(t: Tombstone, at: real) {
    t.notBefore <= at && (t.Waiting? || t.until <= at)
  }

  /** `EnqueueMFASecretGC`: an existing tombstone is left as it is. */
  function Enqueued(tombs: map<Ref, Tombstone>, ref: Ref, at: real): map<Ref, Tombstone> {
    if ref in tombs then tombs else tombs[ref := Waiting(at, 0)]
  }

  // ---- Transactions ----

  /** `Create` makes the file of a fresh enrolment id; the request read its clock before. */
  predicate CanCreate(w: World, ref: Ref, now: real) {
    ref !in w.born && now <= w.clock
  }

  function Created(w: World, ref: Ref, user: User, now: real): World {
    w.(born := w.born[ref := w.clock], files := w.files + {ref}, begins := w.begins[ref := Begin(user, now, Open)])
  }

  predicate CanExpire(w: World, ref: Ref, user: User) {
    ref in w.enrollments && w.enrollments[ref].user == user && w.enrollments[ref].status == Pending
  }

  /** `ExpireMFAEnrollment`, which also leaves a tombstone. */
  function ExpiredAt(w: World, ref: Ref, at: real): World
    requires ref in w.enrollments
  {
    var e := w.enrollments[ref];
    w.(enrollments := w.enrollments[ref := e.(status := Expired, version := e.version + 1)],
    tombs := Enqueued(w.tombs, ref, at))
  }

  /** `InsertMFAEnrollment` within the begin transaction. */
  predicate CanInsert(w: World, ref: Ref, expires: real) {
    && ref in w.begins && w.begins[ref].state == Open && ref !in w.tombs && ref !in w.enrollments
    && w.begins[ref].now < expires <= w.begins[ref].now + MAXIMUM_TTL
  }

  function Inserted(w: World, ref: Ref, expires: real): World
    requires ref in w.begins
  {
    w.(enrollments := w.enrollments[ref := Enrollment(w.begins[ref].user, Pending, expires, 1)],
    begins := w.begins[ref := w.begins[ref].(state := Committed)])
  }

  function GivenUp(w: World, ref: Ref): World
    requires ref in w.begins
  {
    w.(begins := w.begins[ref := w.begins[ref].(state := Abandoned)])
  }

  function CleanedUp(w: World, ref: Ref): World {
    w.(files := w.files - {ref})
  }

  /** The checks of `ConfirmMFARotation` and `ActivateWithResult` on the enrolment. */
  predicate CanConfirm(w: World, user: User, ref: Ref, version: nat, now: real) {
    && ref in w.enrollments && w.enrollments[ref].user == user && w.enrollments[ref].status == Pending
    && w.enrollments[ref].version == version && w.enrollments[ref].expires > now
    && ref !in w.tombs
  }

  /** The credential moves to the new secret; a rotation leaves a tombstone for the old one. */
  function ConfirmedAt(w: World, user: User, ref: Ref, now: real, rotation: bool): World
    requires ref in w.enrollments
  {
    var e := w.enrollments[ref];
    var retires := rotation && user in w.credentials && w.credentials[user] != ref;
    w.(enrollments := w.enrollments[ref := e.(status := Confirmed, version := e.version + 1)],
    credentials := w.credentials[user := ref],
    tombs := if retires then Enqueued(w.tombs, w.credentials[user], now) else w.tombs)
  }

  /** One candidate of `reconcileOrphans`: its file was listed as older than the grace period. */
  predicate CanReconcile(w: World, ref: Ref, now: real) {
    ref in w.born && w.born[ref] < now - ORPHAN_GRACE && !Live(w, ref, now) && ref !in w.tombs
  }

  function Reconciled(w: World, ref: Ref, now: real): World {
    w.(tombs := Enqueued(w.tombs, ref, now))
  }

  /** `LeaseDueMFASecretGC` */
  function LeaseTried(w: World, ref: Ref, at: real, token: string): World {
    if Live(w, ref, at) then w.(tombs := w.tombs - {ref})
    else if ref in w.tombs && Due(w.tombs[ref], at) then
      w.(tombs := w.tombs[ref := Leased(w.tombs[ref].notBefore, w.tombs[ref].attempts, token, at + LEASE_DURATION)],
      holds := w.holds[Hold(ref, token) := Holding])
    else w
  }

  /** The collector's `Delete`, at any later time. */
  function FileRemoved(w: World, h: Hold): World {
    w.(files := w.files - {h.ref}, holds := w.holds[h := Removed])
  }

  predicate HasLease(w: World, h: Hold) {
    h.ref in w.tombs && w.tombs[h.ref].Leased? && w.tombs[h.ref].token == h.token
  }

  /** `CompleteMFASecretGC` */
  function Completed(w: World, h: Hold): World {
    w.(tombs := w.tombs - {h.ref})
  }

  /** `FailMFASecretGC` */
  function FailedAt(w: World, h: Hold, retryAt: real): World
    requires h.ref in w.tombs
  {
    w.(tombs := w.tombs[h.ref := Waiting(retryAt, w.tombs[h.ref].attempts + 1)])
  }

  // ---- Steps and runs ----

  datatype Event =
    | Tick(later: real)
    | Create(ref: Ref, user: User, now: real)
    | Insert(ref: Ref, expires: real, replaced: set<Ref>)
    | GiveUp(ref: Ref)
    | CleanUp(ref: Ref)
    | Confirm(user: User, ref: Ref, version: nat, now: real, rotation: bool)
    | Reconcile(ref: Ref, now: real)
    | Lease(ref: Ref, at: real, token: string)
    | Remove(hold: Hold)
    | Complete(hold: Hold)
    | Fail(hold: Hold, retryAt: real)

  /** A begin transaction first expires the pending enrolment of its user, if there is one. */
  ghost predicate Begins(w: World, z: World, ref: Ref, expires: real, replaced: set<Ref>) {
    && ref in w.begins
    && ((replaced == {} && CanInsert(w, ref, expires) && z == Inserted(w, ref, expires))
        || exists q ::
          && replaced == {q} && CanExpire(w, q, w.begins[ref].user)
          && CanInsert(ExpiredAt(w, q, w.begins[ref].now), ref, expires)
          && z == Inserted(ExpiredAt(w, q, w.begins[ref].now), ref, expires))
  }

  /**
   What a run may do: `wait` bounds how long a confirmation waits between reading its clock
   and committing, `outcomesKnown` says that a begin whose commit reports an error did not commit.
   */
  datatype Rules = Rules(wait: real, outcomesKnown: bool)

  /** One committed transaction or one file operation. */
  ghost predicate Step(rules: Rules, w: World, e: Event, z: World) {
    match e
    case Tick(later) => w.clock <= later && z == w.(clock := later)
    case Create(ref, user, now) => CanCreate(w, ref, now) && z == Created(w, ref, user, now)
    case Insert(ref, expires, replaced) => Begins(w, z, ref, expires, replaced)
    case GiveUp(ref) =>
      && ref in w.begins && z == GivenUp(w, ref)
      && (w.begins[ref].state == Open || (w.begins[ref].state == Committed && !rules.outcomesKnown))
    case CleanUp(ref) => ref in w.begins && w.begins[ref].state == Abandoned && z == CleanedUp(w, ref)
    case Confirm(user, ref, version, now, rotation) =>
      now <= w.clock <= now + rules.wait && CanConfirm(w, user, ref, version, now)
      && z == ConfirmedAt(w, user, ref, now, rotation)
    case Reconcile(ref, now) => now <= w.clock && CanReconcile(w, ref, now) && z == Reconciled(w, ref, now)
    case Lease(ref, at, token) => at <= w.clock && z == LeaseTried(w, ref, at, token)
    case Remove(h) => h in w.holds && z == FileRemoved(w, h)
    case Complete(h) => h in w.holds && w.holds[h] == Removed && HasLease(w, h) && z == Completed(w, h)
    case Fail(h, retryAt) => h in w.holds && HasLease(w, h) && z == FailedAt(w, h, retryAt)
  }

  const EMPTY := World(0.0, map[], {}, map[], map[], map[], map[], map[])

  ghost predicate Run(rules: Rules, r: seq<World>, events: seq<Event>) {
    && |r| == |events| + 1 && r[0] == EMPTY
    && forall i, j :: 0 <= i && j == i + 1 && j < |r| ==> Step(rules, r[i], events[i], r[j])
  }

  ghost predicate AwaitsConfirmation(w: World, ref: Ref) {
    ref in w.enrollments && w.enrollments[ref].status == Pending && w.enrollments[ref].expires > w.clock
  }

  /** No credential and no unexpired pending enrolment names a deleted secret. */
  ghost predicate Safe(w: World) {
    && (forall u :: u in w.credentials ==> w.credentials[u] in w.files)
    && (forall ref :: AwaitsConfirmation(w, ref) ==> ref in w.files)
  }
}
