/** Reauthentication challenges: created, completed and consumed by racing requests, expired and deleted by cleanup. */
module Reauthentication {
  import opened Strings
  import opened Wrappers

  datatype Kind = Human | Local | Workload
  datatype Status = Pending | Verified | Consumed | Expired

  /** `binding` is the canonical digest of the governed user and, for a human, the identity source. */
  datatype Actor = Actor(subject: string, kind: Kind, binding: string, token: string)

  datatype Challenge = Challenge(
    subject: string, kind: Kind, binding: string, createdToken: string, operation: string,
    status: Status, createdAt: int, expires: int,
    verifiedToken: string, evidence: string, evidenceExpires: int, consumedAt: Option<int>, version: nat)

  datatype Policy = Policy(challengeTtl: int, evidenceTtl: int, retention: int, batch: nat)

  type Table = map<string, Challenge>

  /** The digest applied to tokens and evidence. */
  type Digest = string -> string

  // ---- Cleanup ----

  predicate Overdue(c: Challenge, now: int) {
    (c.status == Pending && c.expires <= now) || (c.status == Verified && c.evidenceExpires <= now)
  }

  /** The time from which a terminal challenge is retained. */
  function EndOf(c: Challenge): int {
    if c.consumedAt.Some? then c.consumedAt.value
    else if c.verifiedToken != "" then c.evidenceExpires
    else c.expires
  }

  predicate Removable(c: Challenge, now: int, retention: int) {
    (c.status == Expired || c.status == Consumed) && EndOf(c) <= now - retention
  }

  function ExpireAll(t: Table, ids: set<string>): Table {
    map id | id in t :: if id in ids then t[id].(status := Expired, version := t[id].version + 1) else t[id]
  }

  ghost predicate CleanedBy(p: Policy, t: Table, now: int, overdue: set<string>, removed: set<string>, z: Table) {
    && (forall id :: id in overdue ==> id in t && Overdue(t[id], now))
    && (forall id :: id in removed ==> id in t && Removable(ExpireAll(t, overdue)[id], now, p.retention))
    && z == ExpireAll(t, overdue) - removed
  }

  /** `CleanupReauthenticationChallenges` for whichever rows the two limited queries pick. */
  ghost predicate Cleaned(p: Policy, t: Table, now: int, z: Table) {
    exists overdue, removed :: CleanedBy(p, t, now, overdue, removed, z)
  }

  /** The time by which an open challenge is overdue. */
  function Deadline(c: Challenge): int {
    if c.status == Verified then c.evidenceExpires else c.expires
  }

  /** The order of both queries: by time, then by id. */
  predicate Sooner(time: map<string, int>, a: string, b: string)
    requires a in time && b in time
  {
    time[a] < time[b] || (time[a] == time[b] && Less(a, b))
  }

  /** The chosen rows are the first ones, as many as the batch takes. */
  ghost predicate FirstBatch(time: map<string, int>, batch: nat, chosen: set<string>) {
    && chosen <= time.Keys && |chosen| == Min(batch, |time|)
    && forall a, b :: a in chosen && b in time.Keys - chosen ==> Sooner(time, a, b)
  }

  function OverdueTimes(t: Table, now: int): map<string, int> {
    map id | id in t && Overdue(t[id], now) :: Deadline(t[id])
  }

  function RemovableTimes(t: Table, now: int, retention: int): map<string, int> {
    map id | id in t && Removable(t[id], now, retention) :: EndOf(t[id])
  }

  ghost predicate InOrderBy(p: Policy, t: Table, now: int, overdue: set<string>, removed: set<string>, z: Table) {
    && FirstBatch(OverdueTimes(t, now), p.batch, overdue)
    && FirstBatch(RemovableTimes(ExpireAll(t, overdue), now, p.retention), p.batch, removed)
    && z == ExpireAll(t, overdue) - removed
  }

  /** With no row locked by another transaction both queries take the first batch. */
  ghost predicate CleanedInOrder(p: Policy, t: Table, now: int, z: Table) {
    exists overdue, removed :: InOrderBy(p, t, now, overdue, removed, z)
  }

  lemma InOrderIsCleaned(p: Policy, t: Table, now: int, overdue: set<string>, removed: set<string>, z: Table)
    requires InOrderBy(p, t, now, overdue, removed, z)
    ensures CleanedBy(p, t, now, overdue, removed, z)
  {
    var expired := ExpireAll(t, overdue);
    forall id | id in removed
      ensures id in t && Removable(expired[id], now, p.retention)
    {
      assert id in RemovableTimes(expired, now, p.retention);
    }
    forall id | id in overdue
      ensures id in t && Overdue(t[id], now)
    {
      assert id in OverdueTimes(t, now);
    }
  }

  lemma SoonerIsOrder(time: map<string, int>, a: string, b: string, c: string)
    requires a in time && b in time && c in time
    ensures Sooner(time, a, b) && Sooner(time, b, c) ==> Sooner(time, a, c)
    ensures a != b ==> Sooner(time, a, b) || Sooner(time, b, a)
  {
    LessTrichotomy(a, b);
    if Less(a, b) && Less(b, c) {
      LessTransitive(a, b, c);
    }
  }

  ghost predicate Soonest(time: map<string, int>, rows: set<string>, a: string)
    requires rows <= time.Keys
  {
    a in rows && forall b :: b in rows && b != a ==> Sooner(time, a, b)
  }

  // ---- Requests ----

  predicate Matches(c: Challenge, a: Actor) {
    c.subject == a.subject && c.kind == a.kind && c.binding == a.binding
  }

  function NewChallenge(p: Policy, digest: Digest, a: Actor, operation: string, now: int): Challenge {
    Challenge(a.subject, a.kind, a.binding, digest(a.token), operation, Pending, now, now + p.challengeTtl, "", "", 0,
              None, 1)
  }

  /**
   `canComplete`, with the check of the creating token for a local actor; `confirmed` is
   the outcome of the factor check.
   */
  predicate CanComplete(digest: Digest, c: Challenge, a: Actor, confirmed: bool, now: int) {
    && c.status == Pending && c.expires > now && Matches(c, a) && confirmed
    && (a.kind == Local ==> c.createdToken == digest(a.token)) && a.kind != Workload
  }

  function CompletedChallenge(
    p: Policy, digest: Digest, c: Challenge, a: Actor, evidence: string, now: int): Challenge {
    c.(status := Verified, verifiedToken := digest(a.token), evidence := digest(evidence),
    evidenceExpires := Min(now + p.evidenceTtl, c.expires), version := c.version + 1)
  }

  /** The check of `authorizeInTransaction` */
  predicate CanConsume(digest: Digest, c: Challenge, a: Actor, operation: string, evidence: string, now: int) {
    && c.status == Verified && c.operation == operation && Matches(c, a) && c.evidenceExpires > now
    && c.verifiedToken == digest(a.token) && c.evidence == digest(evidence)
  }

  function ConsumedChallenge(c: Challenge, now: int): Challenge {
    c.(status := Consumed, consumedAt := Some(now), version := c.version + 1)
  }

  // ---- Runs ----

  /** `used` holds every id ever drawn: ids are random and never repeat. */
  datatype World = World(table: Table, used: set<string>)

  datatype Event =
    | Create(id: string, actor: Actor, operation: string, now: int)
    | Complete(id: string, actor: Actor, confirmed: bool, evidence: string, now: int)
    | Authorize(id: string, actor: Actor, operation: string, evidence: string, now: int)

  ghost predicate Step(p: Policy, digest: Digest, w: World, e: Event, z: World) {
    match e
    case Create(id, actor, operation, now) =>
      id !in w.used && z.used == w.used + {id}
      && exists t :: Cleaned(p, w.table, now, t) && z.table == t[id := NewChallenge(p, digest, actor, operation, now)]
    case Complete(id, actor, confirmed, evidence, now) =>
      id in w.table && CanComplete(digest, w.table[id], actor, confirmed, now) && z.used == w.used
      && z.table == w.table[id := CompletedChallenge(p, digest, w.table[id], actor, evidence, now)]
    case Authorize(id, actor, operation, evidence, now) =>
      z.used == w.used
      && exists t :: Cleaned(p, w.table, now, t) && id in t
                     && CanConsume(digest, t[id], actor, operation, evidence, now)
                     && z.table == t[id := ConsumedChallenge(t[id], now)]
  }

  ghost predicate Run(p: Policy, digest: Digest, r: seq<World>, events: seq<Event>) {
    && |r| == |events| + 1 && r[0] == World(map[], {})
    && forall i, j :: 0 <= i && j == i + 1 && j < |r| ==> Step(p, digest, r[i], events[i], r[j])
  }

  // ---- Where a challenge comes from ----

  ghost predicate CreatedAs(p: Policy, digest: Digest, e: Event, id: string, c: Challenge) {
    && e.Create? && e.id == id && Matches(c, e.actor) && c.operation == e.operation
    && c.createdAt == e.now && c.expires == e.now + p.challengeTtl && c.createdToken == digest(e.actor.token)
  }

  ghost predicate CompletedAs(p: Policy, digest: Digest, e: Event, id: string, c: Challenge) {
    && e.Complete? && e.id == id && Matches(c, e.actor) && e.confirmed
    && e.actor.kind != Workload && (e.actor.kind == Local ==> c.createdToken == digest(e.actor.token))
    && c.verifiedToken == digest(e.actor.token) && c.evidence == digest(e.evidence)
    && c.evidenceExpires <= e.now + p.evidenceTtl && c.evidenceExpires <= c.expires && e.now < c.expires
  }

  /** Some request before `n` created this challenge, and completed it if it is verified or consumed. */
  ghost predicate Explained(p: Policy, digest: Digest, events: seq<Event>, n: nat, id: string, c: Challenge)
    requires n <= |events|
  {
    exists a :: 0 <= a < n && CreatedAs(p, digest, events[a], id, c)
                && (c.status == Verified || c.status == Consumed ==>
                      exists b :: a < b < n && CompletedAs(p, digest, events[b], id, c))
  }

  ghost predicate AllExplained(p: Policy, digest: Digest, events: seq<Event>, n: nat, w: World)
    requires n <= |events|
  {
    w.table.Keys <= w.used && forall id :: id in w.table ==> Explained(p, digest, events, n, id, w.table[id])
  }

  lemma LaterExplained(p: Policy, digest: Digest, events: seq<Event>, n: nat, id: string, c: Challenge)
    requires n < |events| && Explained(p, digest, events, n, id, c)
    ensures Explained(p, digest, events, n + 1, id, c)
  {
    var a :| 0 <= a < n && CreatedAs(p, digest, events[a], id, c)
             && (c.status == Verified || c.status == Consumed ==>
                   exists b :: a < b < n && CompletedAs(p, digest, events[b], id, c));
    if c.status == Verified || c.status == Consumed {
      var b :| a < b < n && CompletedAs(p, digest, events[b], id, c);
    }
    assert CreatedAs(p, digest, events[a], id, c);
  }

  /** An overdue challenge is the same challenge with another status. */
  lemma ExpiredExplained(p: Policy, digest: Digest, events: seq<Event>, n: nat, id: string, c: Challenge)
    requires n <= |events| && Explained(p, digest, events, n, id, c)
    ensures Explained(p, digest, events, n, id, c.(status := Expired, version := c.version + 1))
  {
    var a :| 0 <= a < n && CreatedAs(p, digest, events[a], id, c)
             && (c.status == Verified || c.status == Consumed ==>
                   exists b :: a < b < n && CompletedAs(p, digest, events[b], id, c));
    assert CreatedAs(p, digest, events[a], id, c.(status := Expired, version := c.version + 1));
  }

  /** What a cleanup leaves of a row: the row, or the same challenge expired. */
  lemma CleanedRow(p: Policy, t: Table, now: int, z: Table, id: string)
    requires Cleaned(p, t, now, z) && id in z
    ensures id in t && (z[id] == t[id] || z[id] == t[id].(status := Expired, version := t[id].version + 1))
  {
    var overdue, removed :| CleanedBy(p, t, now, overdue, removed, z);
    assert id in ExpireAll(t, overdue);
  }

  lemma RowExplained(
    p: Policy, digest: Digest, events: seq<Event>, n: nat, id: string, c: Challenge, z: Challenge)
    requires n <= |events| && Explained(p, digest, events, n, id, c)
    requires z == c || z == c.(status := Expired, version := c.version + 1)
    ensures Explained(p, digest, events, n, id, z)
  {
    if z != c {
      ExpiredExplained(p, digest, events, n, id, c);
    }
  }

  lemma CleanedExplained(p: Policy, digest: Digest, events: seq<Event>, n: nat, w: World, now: int, t: Table)
    requires n <= |events| && AllExplained(p, digest, events, n, w) && Cleaned(p, w.table, now, t)
    ensures AllExplained(p, digest, events, n, World(t, w.used))
  {
    forall id | id in t
      ensures id in w.table && Explained(p, digest, events, n, id, t[id])
    {
      CleanedRow(p, w.table, now, t, id);
      RowExplained(p, digest, events, n, id, w.table[id], t[id]);
    }
  }

  lemma ConsumedExplained(p: Policy, digest: Digest, events: seq<Event>, n: nat, id: string, c: Challenge, now: int)
    requires n <= |events| && Explained(p, digest, events, n, id, c) && c.status == Verified
    ensures Explained(p, digest, events, n, id, ConsumedChallenge(c, now))
  {
    var z := ConsumedChallenge(c, now);
    var a :| 0 <= a < n && CreatedAs(p, digest, events[a], id, c)
             && (c.status == Verified || c.status == Consumed ==>
                   exists b :: a < b < n && CompletedAs(p, digest, events[b], id, c));
    var b :| a < b < n && CompletedAs(p, digest, events[b], id, c);
    assert CreatedAs(p, digest, events[a], id, z) && CompletedAs(p, digest, events[b], id, z);
  }

  lemma CompletionExplained(p: Policy, digest: Digest, events: seq<Event>, n: nat, c: Challenge)
    requires n < |events| && events[n].Complete? && Explained(p, digest, events, n, events[n].id, c)
    requires CanComplete(digest, c, events[n].actor, events[n].confirmed, events[n].now)
    ensures Explained(p, digest, events, n + 1, events[n].id,
                      CompletedChallenge(p, digest, c, events[n].actor, events[n].evidence, events[n].now))
  {
    var e := events[n];
    var z := CompletedChallenge(p, digest, c, e.actor, e.evidence, e.now);
    var a :| 0 <= a < n && CreatedAs(p, digest, events[a], e.id, c);
    assert CreatedAs(p, digest, events[a], e.id, z) && CompletedAs(p, digest, events[n], e.id, z);
  }

  lemma AllLater(p: Policy, digest: Digest, events: seq<Event>, n: nat, w: World)
    requires n < |events| && AllExplained(p, digest, events, n, w)
    ensures AllExplained(p, digest, events, n + 1, w)
  {
    forall id | id in w.table
      ensures Explained(p, digest, events, n + 1, id, w.table[id])
    {
      LaterExplained(p, digest, events, n, id, w.table[id]);
    }
  }

  lemma StepExplains(p: Policy, digest: Digest, w: World, events: seq<Event>, n: nat, z: World)
    requires n < |events| && AllExplained(p, digest, events, n, w) && Step(p, digest, w, events[n], z)
    ensures AllExplained(p, digest, events, n + 1, z)
  {
    match events[n] {
      case Create(id, actor, operation, now) =>
        var t :| Cleaned(p, w.table, now, t) && z.table == t[id := NewChallenge(p, digest, actor, operation, now)];
        CleanedExplained(p, digest, events, n, w, now, t);
        AllLater(p, digest, events, n, World(t, w.used));
        assert CreatedAs(p, digest, events[n], id, z.table[id]);
      case Complete(id, actor, confirmed, evidence, now) =>
        AllLater(p, digest, events, n, w);
        CompletionExplained(p, digest, events, n, w.table[id]);
      case Authorize(id, actor, operation, evidence, now) =>
        var t :| Cleaned(p, w.table, now, t) && id in t && CanConsume(digest, t[id], actor, operation, evidence, now)
                 && z.table == t[id := ConsumedChallenge(t[id], now)];
        CleanedExplained(p, digest, events, n, w, now, t);
        AllLater(p, digest, events, n, World(t, w.used));
        ConsumedExplained(p, digest, events, n + 1, id, t[id], now);
    }
  }

  lemma {:induction false} RunExplains(p: Policy, digest: Digest, r: seq<World>, events: seq<Event>, i: nat)
    requires Run(p, digest, r, events) && i < |r|
    ensures AllExplained(p, digest, events, i, r[i])
    decreases i
  {
    if i > 0 {
      RunExplains(p, digest, r, events, i - 1);
      StepExplains(p, digest, r[i - 1], events, i - 1, r[i]);
    }
  }

  /**
   An authorisation follows a confirmed completion of the same challenge by the same human
   or local actor, a local one still with the token of the creation, for the operation it
   was created for, with the token and evidence of the completion, and in time.
   */
  lemma AuthorizationIsEarned(p: Policy, digest: Digest, r: seq<World>, events: seq<Event>, n: nat)
    requires Run(p, digest, r, events) && n < |events| && events[n].Authorize?
    ensures exists a, b ::
              && 0 <= a < b < n && events[a].Create? && events[b].Complete?
              && events[a].id == events[b].id == events[n].id
              && events[a].operation == events[n].operation && events[b].confirmed
              && events[a].actor.kind == events[b].actor.kind == events[n].actor.kind != Workload
              && (events[b].actor.kind == Local ==> digest(events[a].actor.token) == digest(events[b].actor.token))
              && events[a].actor.binding == events[b].actor.binding == events[n].actor.binding
              && events[a].actor.subject == events[b].actor.subject == events[n].actor.subject
              && digest(events[b].actor.token) == digest(events[n].actor.token)
              && digest(events[b].evidence) == digest(events[n].evidence)
              && events[n].now < events[b].now + p.evidenceTtl && events[n].now < events[a].now + p.challengeTtl
  {
    var e := events[n];
    RunExplains(p, digest, r, events, n);
    assert Step(p, digest, r[n], e, r[n + 1]);
    var t :| Cleaned(p, r[n].table, e.now, t) && e.id in t
             && CanConsume(digest, t[e.id], e.actor, e.operation, e.evidence, e.now)
             && r[n + 1].table == t[e.id := ConsumedChallenge(t[e.id], e.now)];
    CleanedExplained(p, digest, events, n, r[n], e.now, t);
    var c := t[e.id];
    var a :| 0 <= a < n && CreatedAs(p, digest, events[a], e.id, c)
             && (c.status == Verified || c.status == Consumed ==>
                   exists b :: a < b < n && CompletedAs(p, digest, events[b], e.id, c));
    var b :| a < b < n && CompletedAs(p, digest, events[b], e.id, c);
  }

  /** A challenge used as intended works exactly until its deadlines. */
  lemma UseWorksIffInTime(
    p: Policy, digest: Digest, a: Actor, operation: string, evidence: string, created: int, now: int, later: int)
    requires p.challengeTtl >= 0
    ensures var c := NewChallenge(p, digest, a, operation, created);
            && (CanComplete(digest, c, a, true, now) <==> a.kind != Workload && now < created + p.challengeTtl)
            && !CanConsume(digest, c, a, operation, evidence, later)
            && var z := CompletedChallenge(p, digest, c, a, evidence, now);
            (CanConsume(digest, z, a, operation, evidence, later) <==>
             later < now + p.evidenceTtl && later < created + p.challengeTtl)
  {
  }

  // ---- Once only ----

  /** The challenge is consumed or deleted, and its id will not come back. */
  ghost predicate Done(w: World, id: string) {
    id in w.used && (id in w.table ==> w.table[id].status == Consumed)
  }

  lemma StepKeepsDone(p: Policy, digest: Digest, w: World, e: Event, z: World, id: string)
    requires Step(p, digest, w, e, z)
    ensures Done(w, id) ==> Done(z, id) && !(e.Authorize? && e.id == id)
    ensures w.table.Keys <= w.used && e.Authorize? && e.id == id ==> Done(z, id)
  {
  }

  lemma {:induction false} DoneStays(
    p: Policy, digest: Digest, r: seq<World>, events: seq<Event>, i: nat, j: nat, id: string)
    requires Run(p, digest, r, events) && i <= j < |r| && Done(r[i], id)
    ensures Done(r[j], id)
    decreases j
  {
    if i < j {
      DoneStays(p, digest, r, events, i, j - 1, id);
      StepKeepsDone(p, digest, r[j - 1], events[j - 1], r[j], id);
    }
  }

  /** A challenge authorises at most once. */
  lemma AuthorizesOnce(p: Policy, digest: Digest, r: seq<World>, events: seq<Event>, i: nat, j: nat)
    requires Run(p, digest, r, events) && i < j < |events| && events[i].Authorize? && events[j].Authorize?
    ensures events[i].id != events[j].id
  {
    RunExplains(p, digest, r, events, i);
    StepKeepsDone(p, digest, r[i], events[i], r[i + 1], events[i].id);
    DoneStays(p, digest, r, events, i + 1, j, events[i].id);
    StepKeepsDone(p, digest, r[j], events[j], r[j + 1], events[i].id);
  }

  /** The only moves: pending to verified to consumed, or to expired. */
  ghost predicate Moves(a: Status, b: Status) {
    a == b || (a == Pending && b == Verified) || (a == Verified && b == Consumed)
    || ((a == Pending || a == Verified) && b == Expired)
  }

  lemma StatusMovesForward(p: Policy, digest: Digest, w: World, e: Event, z: World, id: string)
    requires Step(p, digest, w, e, z) && id in w.table && id in z.table && w.table.Keys <= w.used
    ensures Moves(w.table[id].status, z.table[id].status)
    ensures z.table[id] != w.table[id] ==> z.table[id].version > w.table[id].version
    ensures z.table[id].binding == w.table[id].binding && z.table[id].operation == w.table[id].operation
    ensures z.table[id].expires == w.table[id].expires
  {
  }

  // ---- The transactions ----

  /** `ORDER BY … LIMIT` */
  method FirstRows(time: map<string, int>, batch: nat) returns (chosen: set<string>)
    ensures FirstBatch(time, batch, chosen)
  {
    chosen := {};
    var rest := time.Keys;
    while rest != {} && |chosen| < batch
      invariant chosen !! rest && chosen + rest == time.Keys && |chosen| <= batch
      invariant forall a, b :: a in chosen && b in rest ==> Sooner(time, a, b)
      decreases rest
    {
      var first := FindSoonest(time, rest);
      chosen, rest := chosen + {first}, rest - {first};
    }
    assert |time| == |time.Keys| == |chosen + rest| == |chosen| + |rest|;
  }

  method FindSoonest(time: map<string, int>, rows: set<string>) returns (first: string)
    requires rows != {} && rows <= time.Keys
    ensures Soonest(time, rows, first)
  {
    first :| first in rows;
    var rest := rows - {first};
    while rest != {}
      invariant rest <= rows && first in rows - rest && Soonest(time, rows - rest, first)
      decreases rest
    {
      var other :| other in rest;
      if Sooner(time, other, first) {
        SoonestMoves(time, rows - rest, first, other);
        first := other;
      } else {
        SoonerIsOrder(time, first, other, other);
      }
      assert rows - (rest - {other}) == (rows - rest) + {other};
      rest := rest - {other};
    }
    assert rows - rest == rows;
  }

  lemma SoonestMoves(time: map<string, int>, rows: set<string>, first: string, other: string)
    requires rows <= time.Keys && other in time && Soonest(time, rows, first) && Sooner(time, other, first)
    ensures Soonest(time, rows + {other}, other)
  {
    forall b | b in rows && b != other
      ensures Sooner(time, other, b)
    {
      if b != first {
        SoonerIsOrder(time, other, first, b);
      }
    }
  }

  class Challenges {
    const p: Policy
    const digest: Digest
    var table: Table

    constructor (p: Policy, digest: Digest)
      ensures this.p == p && this.digest == digest && table == map[]
    {
      this.p, this.digest, table := p, digest, map[];
    }

    /** `CleanupReauthenticationChallenges`: expire the first batch of overdue rows, delete the first removable ones. */
    method Cleanup(now: int)
      modifies this
      ensures CleanedInOrder(p, old(table), now, table) && Cleaned(p, old(table), now, table)
    {
      ghost var start := table;
      var overdue := FirstRows(OverdueTimes(table, now), p.batch);
      table := ExpireAll(table, overdue);
      var removed := FirstRows(RemovableTimes(table, now, p.retention), p.batch);
      table := table - removed;
      assert InOrderBy(p, start, now, overdue, removed, table);
      InOrderIsCleaned(p, start, now, overdue, removed, table);
    }

    /** `CreateChallenge` */
    method CreateChallenge(id: string, actor: Actor, operation: string, now: int)
      requires id !in table
      modifies this
      ensures exists t :: Cleaned(p, old(table), now, t)
                          && table == t[id := NewChallenge(p, digest, actor, operation, now)]
    {
      Cleanup(now);
      table := table[id := NewChallenge(p, digest, actor, operation, now)];
    }

    /** The transaction of `CompleteChallenge` */
    method CompleteChallenge(id: string, actor: Actor, confirmed: bool, evidence: string, now: int) returns (ok: bool)
      modifies this
      ensures ok <==> id in old(table) && CanComplete(digest, old(table)[id], actor, confirmed, now)
      ensures table == if ok
                       then old(table)[id := CompletedChallenge(p, digest, old(table)[id], actor, evidence, now)]
                       else old(table)
    {
      if id !in table || !CanComplete(digest, table[id], actor, confirmed, now) {
        return false;
      }
      var c := table[id];
      var evidenceExpires := now + p.evidenceTtl;
      if evidenceExpires > c.expires {
        evidenceExpires := c.expires;
      }
      table := table[id := c.(status := Verified, verifiedToken := digest(actor.token), evidence := digest(evidence),
      evidenceExpires := evidenceExpires, version := c.version + 1)];
      ok := true;
    }

    /** `authorizeInTransaction`: a refusal rolls the cleanup back with everything else. */
    method AuthorizeChallenge(
      id: string, actor: Actor, operation: string, evidence: string, now: int) returns (ok: bool)
      modifies this
      ensures ok <==> id in old(table) && CanConsume(digest, old(table)[id], actor, operation, evidence, now)
      ensures !ok ==> table == old(table)
      ensures ok ==> exists t :: Cleaned(p, old(table), now, t) && id in t && t[id] == old(table)[id]
                                 && table == t[id := ConsumedChallenge(old(table)[id], now)]
    {
      var before := table;
      Cleanup(now);
      CleanupSpares(p, before, now, table, id);
      if id !in table || !CanConsume(digest, table[id], actor, operation, evidence, now) {
        table := before;
        return false;
      }
      table := table[id := ConsumedChallenge(table[id], now)];
      ok := true;
    }
  }

  /**
   Cleanup neither touches a challenge that can still be completed or consumed nor makes
   another one count, and deletes only what ended at least the retention time ago.
   */
  lemma CleanupSpares(p: Policy, t: Table, now: int, z: Table, id: string)
    requires Cleaned(p, t, now, z)
    ensures id in t && t[id].status == Pending && t[id].expires > now ==> id in z && z[id] == t[id]
    ensures id in t && t[id].status == Verified && t[id].evidenceExpires > now ==> id in z && z[id] == t[id]
    ensures id in z && z[id].status == Verified ==> id in t && z[id] == t[id]
    ensures id in t && id !in z && t[id].consumedAt.Some? ==> t[id].consumedAt.value + p.retention <= now
    ensures id in t && id !in z && t[id].consumedAt.None? && t[id].verifiedToken != "" ==>
              t[id].evidenceExpires + p.retention <= now
    ensures id in t && id !in z && t[id].consumedAt.None? && t[id].verifiedToken == "" ==>
              t[id].expires + p.retention <= now
  {
  }

  /** When a challenge is over: consumed, or past the deadline that counts for it. */
  ghost function EndTime(c: Challenge): int {
    match c.consumedAt
    case Some(at) => at
    case None => if c.verifiedToken == "" then c.expires else c.evidenceExpires
  }

  ghost predicate PastDeadline(c: Challenge, now: int) {
    match c.status
    case Pending => now >= c.expires
    case Verified => now >= c.evidenceExpires
    case Consumed => false
    case Expired => false
  }

  /** What a cleanup that is not limited does with one challenge. */
  ghost function Tidied(c: Challenge, now: int, retention: int): Option<Challenge> {
    var z := if PastDeadline(c, now) then c.(status := Expired, version := c.version + 1) else c;
    if (z.status == Consumed || z.status == Expired) && now >= EndTime(c) + retention then None else Some(z)
  }

  lemma WholeBatch(time: map<string, int>, batch: nat, chosen: set<string>)
    requires FirstBatch(time, batch, chosen) && batch >= |time|
    ensures chosen == time.Keys
  {
    var rest := time.Keys - chosen;
    assert time.Keys == chosen + rest;
    assert |time| == |time.Keys| == |chosen| + |rest|;
  }

  lemma KeysWithin(time: map<string, int>, ids: set<string>)
    requires time.Keys <= ids
    ensures |time| <= |ids|
  {
    SubsetSize(time.Keys, ids);
    assert |time| == |time.Keys|;
  }

  lemma TidyOne(c: Challenge, now: int, retention: int, e: Challenge)
    requires e == if Overdue(c, now) then c.(status := Expired, version := c.version + 1) else c
    ensures (if Removable(e, now, retention) then None else Some(e)) == Tidied(c, now, retention)
  {
  }

  /** Both batches take all that is overdue and removable. */
  lemma WholeBatches(p: Policy, t: Table, now: int, overdue: set<string>, removed: set<string>, z: Table)
    requires InOrderBy(p, t, now, overdue, removed, z) && p.batch >= |t.Keys|
    ensures overdue == OverdueTimes(t, now).Keys
    ensures removed == RemovableTimes(ExpireAll(t, overdue), now, p.retention).Keys
  {
    KeysWithin(OverdueTimes(t, now), t.Keys);
    WholeBatch(OverdueTimes(t, now), p.batch, overdue);
    KeysWithin(RemovableTimes(ExpireAll(t, overdue), now, p.retention), t.Keys);
    WholeBatch(RemovableTimes(ExpireAll(t, overdue), now, p.retention), p.batch, removed);
  }

  lemma TidiedRow(t: Table, now: int, retention: int, overdue: set<string>, removed: set<string>, id: string)
    requires id in t && (id in overdue <==> Overdue(t[id], now))
    requires id in removed <==> Removable(ExpireAll(t, overdue)[id], now, retention)
    ensures var z := ExpireAll(t, overdue) - removed;
            (if id in z then Some(z[id]) else None) == Tidied(t[id], now, retention)
  {
    TidyOne(t[id], now, retention, ExpireAll(t, overdue)[id]);
  }

  /** As long as the batch is not full, a cleanup tidies every challenge. */
  lemma CleanupTidiesAll(p: Policy, t: Table, now: int, z: Table, id: string)
    requires CleanedInOrder(p, t, now, z) && p.batch >= |t.Keys| && id in t
    ensures (if id in z then Some(z[id]) else None) == Tidied(t[id], now, p.retention)
  {
    var overdue, removed :| InOrderBy(p, t, now, overdue, removed, z);
    WholeBatches(p, t, now, overdue, removed, z);
    KeysOfTimes(t, now, p.retention, overdue, id);
    TidiedRow(t, now, p.retention, overdue, removed, id);
  }

  lemma KeysOfTimes(t: Table, now: int, retention: int, overdue: set<string>, id: string)
    requires id in t
    ensures id in OverdueTimes(t, now).Keys <==> Overdue(t[id], now)
    ensures id in RemovableTimes(ExpireAll(t, overdue), now, retention).Keys
       <==> Removable(ExpireAll(t, overdue)[id], now, retention)
  {
  }

  ghost function DeadlineTime(c: Challenge): int {
    match c.status
    case Verified => c.evidenceExpires
    case _ => c.expires
  }

  lemma DeadlinesAgree(c: Challenge, now: int)
    requires PastDeadline(c, now)
    ensures Overdue(c, now) && Deadline(c) == DeadlineTime(c) && (c.status == Pending || c.status == Verified)
  {
  }

  /** Of two overdue challenges the one with the earlier deadline, then with the smaller id, is expired first. */
  lemma EarlierDeadlineFirst(p: Policy, t: Table, now: int, z: Table, a: string, b: string)
    requires CleanedInOrder(p, t, now, z) && a in t && b in t
    requires PastDeadline(t[a], now) && PastDeadline(t[b], now)
    requires DeadlineTime(t[a]) < DeadlineTime(t[b])
             || (DeadlineTime(t[a]) == DeadlineTime(t[b]) && a != b && Less(a, b))
    requires b !in z || z[b].status == Expired
    ensures a !in z || z[a].status == Expired
  {
    var overdue, removed :| InOrderBy(p, t, now, overdue, removed, z);
    DeadlinesAgree(t[a], now);
    DeadlinesAgree(t[b], now);
    var time := OverdueTimes(t, now);
    assert time[a] == DeadlineTime(t[a]) && time[b] == DeadlineTime(t[b]);
    if b !in overdue {
      OpenIsNotRemoved(p, t, now, overdue, removed, z, b);
    }
    SoonerIsChosen(time, p.batch, overdue, a, b);
    ExpiredOrGone(p, t, now, overdue, removed, z, a);
  }

  lemma SoonerIsChosen(time: map<string, int>, batch: nat, chosen: set<string>, a: string, b: string)
    requires FirstBatch(time, batch, chosen) && a in time && b in chosen
    requires time[a] < time[b] || (time[a] == time[b] && a != b && Less(a, b))
    ensures a in chosen
  {
    LessTrichotomy(a, b);
    assert !Sooner(time, b, a);
  }

  lemma ExpiredOrGone(
    p: Policy, t: Table, now: int, overdue: set<string>, removed: set<string>, z: Table, id: string)
    requires InOrderBy(p, t, now, overdue, removed, z) && id in t && id in overdue
    ensures id !in z || z[id].status == Expired
  {
    assert ExpireAll(t, overdue)[id].status == Expired;
  }

  lemma OpenIsNotRemoved(
    p: Policy, t: Table, now: int, overdue: set<string>, removed: set<string>, z: Table, id: string)
    requires InOrderBy(p, t, now, overdue, removed, z) && id in t && id !in overdue
    requires t[id].status == Pending || t[id].status == Verified
    ensures id in z && z[id] == t[id]
  {
    assert ExpireAll(t, overdue)[id] == t[id];
    assert id !in RemovableTimes(ExpireAll(t, overdue), now, p.retention);
  }
}
