/**
 Staging fetched pages under the cursor compare-and-set, with any number of workers.
 */
module DirectoryStaging {
  import opened DirectoryListing
  import opened DirectoryModel
  import opened ScimPaging

  // ---- What a stream of accepted items leaves in the stage tables ----

  ghost function Indices(ids: seq<string>, s: string): set<int> {
    set i | 0 <= i < |ids| && ids[i] == s
  }

  /** `i` is where `s` occurs first. */
  ghost predicate FirstAt(ids: seq<string>, s: string, i: int) {
    0 <= i < |ids| && ids[i] == s && forall j :: 0 <= j < i ==> ids[j] != s
  }

  ghost function SubjectsOf(stream: seq<UserItem>): (ids: seq<string>)
    ensures |ids| == |stream|
  {
    seq(|stream|, i requires 0 <= i < |stream| => stream[i].subject)
  }

  ghost function IdsOf(stream: seq<OrgItem>): (ids: seq<string>)
    ensures |ids| == |stream|
  {
    seq(|stream|, i requires 0 <= i < |stream| => stream[i].id)
  }

  function RowOfUser(u: UserItem, occurrences: nat): StagedUser {
    StagedUser(u.username, u.displayName, u.email, u.enabled, occurrences)
  }

  ghost predicate UserRowStaged(row: StagedUser, stream: seq<UserItem>, s: string) {
    exists i :: FirstAt(SubjectsOf(stream), s, i) && row == RowOfUser(stream[i], |Indices(SubjectsOf(stream), s)|)
  }

  ghost predicate OrgRowStaged(row: StagedOrg, stream: seq<OrgItem>, e: string) {
    exists i :: FirstAt(IdsOf(stream), e, i) && row == StagedOrg(stream[i].name, |Indices(IdsOf(stream), e)|)
  }

  /** A row per subject: the values of its first occurrence and the number of its occurrences. */
  ghost predicate UsersStaged(users: map<string, StagedUser>, stream: seq<UserItem>) {
    && users.Keys == (set s | s in SubjectsOf(stream))
    && forall s :: s in users ==> UserRowStaged(users[s], stream, s)
  }

  ghost predicate OrgsStaged(orgs: map<string, StagedOrg>, stream: seq<OrgItem>) {
    && orgs.Keys == (set e | e in IdsOf(stream))
    && forall e :: e in orgs ==> OrgRowStaged(orgs[e], stream, e)
  }

  /** `INSERT … ON CONFLICT DO UPDATE SET occurrence_count = occurrence_count + 1` */
  function UpsertUser(users: map<string, StagedUser>, u: UserItem): map<string, StagedUser> {
    if u.subject in users
    then users[u.subject := users[u.subject].(occurrences := users[u.subject].occurrences + 1)]
    else users[u.subject := RowOfUser(u, 1)]
  }

  function UpsertOrg(orgs: map<string, StagedOrg>, o: OrgItem): map<string, StagedOrg> {
    if o.id in orgs
    then orgs[o.id := orgs[o.id].(occurrences := orgs[o.id].occurrences + 1)]
    else orgs[o.id := StagedOrg(o.name, 1)]
  }

  /** A page's users, upserted one after the other. */
  function UpsertUsers(users: map<string, StagedUser>, items: seq<UserItem>): map<string, StagedUser> {
    if items == [] then users else UpsertUser(UpsertUsers(users, items[..|items| - 1]), items[|items| - 1])
  }

  function UpsertOrgs(orgs: map<string, StagedOrg>, items: seq<OrgItem>): map<string, StagedOrg> {
    if items == [] then orgs else UpsertOrg(UpsertOrgs(orgs, items[..|items| - 1]), items[|items| - 1])
  }

  /** The stage tables once a page has been upserted. */
  function StageAfter(stage: Stage, p: Page): Stage {
    Stage(UpsertUsers(stage.users, p.users), UpsertOrgs(stage.orgs, p.orgs),
          stage.members + (set m | m in p.members), stage.parents + set x | x in PageParents(p))
  }

  lemma IndicesGrow(ids: seq<string>, t: string, s: string)
    ensures |Indices(ids + [t], s)| == |Indices(ids, s)| + if t == s then 1 else 0
    ensures s !in ids ==> Indices(ids, s) == {}
    ensures forall i :: FirstAt(ids, s, i) ==> FirstAt(ids + [t], s, i)
    ensures s !in ids && t == s ==> FirstAt(ids + [t], s, |ids|)
  {
    var grown := Indices(ids, s) + if t == s then {|ids|} else {};
    assert Indices(ids + [t], s) == grown;
  }

  lemma UpsertUserRow(users: map<string, StagedUser>, stream: seq<UserItem>, u: UserItem, s: string)
    requires UsersStaged(users, stream) && s in UpsertUser(users, u)
    ensures UserRowStaged(UpsertUser(users, u)[s], stream + [u], s)
  {
    var grown, ids := stream + [u], SubjectsOf(stream);
    assert SubjectsOf(grown) == ids + [u.subject];
    IndicesGrow(ids, u.subject, s);
    if s in users {
      assert UserRowStaged(users[s], stream, s);
      var i :| FirstAt(ids, s, i) && users[s] == RowOfUser(stream[i], |Indices(ids, s)|);
      assert FirstAt(SubjectsOf(grown), s, i) && grown[i] == stream[i];
    } else {
      assert FirstAt(SubjectsOf(grown), s, |stream|) && grown[|stream|] == u;
    }
  }

  lemma UpsertUserStages(users: map<string, StagedUser>, stream: seq<UserItem>, u: UserItem)
    requires UsersStaged(users, stream)
    ensures UsersStaged(UpsertUser(users, u), stream + [u])
  {
    assert SubjectsOf(stream + [u]) == SubjectsOf(stream) + [u.subject];
    forall s | s in UpsertUser(users, u)
      ensures UserRowStaged(UpsertUser(users, u)[s], stream + [u], s)
    {
      UpsertUserRow(users, stream, u, s);
    }
  }

  lemma UpsertOrgRow(orgs: map<string, StagedOrg>, stream: seq<OrgItem>, o: OrgItem, e: string)
    requires OrgsStaged(orgs, stream) && e in UpsertOrg(orgs, o)
    ensures OrgRowStaged(UpsertOrg(orgs, o)[e], stream + [o], e)
  {
    var grown, ids := stream + [o], IdsOf(stream);
    assert IdsOf(grown) == ids + [o.id];
    IndicesGrow(ids, o.id, e);
    if e in orgs {
      assert OrgRowStaged(orgs[e], stream, e);
      var i :| FirstAt(ids, e, i) && orgs[e] == StagedOrg(stream[i].name, |Indices(ids, e)|);
      assert FirstAt(IdsOf(grown), e, i) && grown[i] == stream[i];
    } else {
      assert FirstAt(IdsOf(grown), e, |stream|) && grown[|stream|] == o;
    }
  }

  lemma UpsertOrgStages(orgs: map<string, StagedOrg>, stream: seq<OrgItem>, o: OrgItem)
    requires OrgsStaged(orgs, stream)
    ensures OrgsStaged(UpsertOrg(orgs, o), stream + [o])
  {
    assert IdsOf(stream + [o]) == IdsOf(stream) + [o.id];
    forall e | e in UpsertOrg(orgs, o)
      ensures OrgRowStaged(UpsertOrg(orgs, o)[e], stream + [o], e)
    {
      UpsertOrgRow(orgs, stream, o, e);
    }
  }

  /** One row per subject with its first values, counted as often as it occurs in the stream. */
  lemma {:induction false} UpsertUsersStages(
    users: map<string, StagedUser>, stream: seq<UserItem>, items: seq<UserItem>)
    requires UsersStaged(users, stream)
    ensures UsersStaged(UpsertUsers(users, items), stream + items)
    decreases |items|
  {
    if items == [] {
      assert stream + items == stream;
    } else {
      var before, last := items[..|items| - 1], items[|items| - 1];
      UpsertUsersStages(users, stream, before);
      UpsertUserStages(UpsertUsers(users, before), stream + before, last);
      assert stream + before + [last] == stream + items;
    }
  }

  /** One row per group with its first name and its occurrences in the stream. */
  lemma {:induction false} UpsertOrgsStages(orgs: map<string, StagedOrg>, stream: seq<OrgItem>, items: seq<OrgItem>)
    requires OrgsStaged(orgs, stream)
    ensures OrgsStaged(UpsertOrgs(orgs, items), stream + items)
    decreases |items|
  {
    if items == [] {
      assert stream + items == stream;
    } else {
      var before, last := items[..|items| - 1], items[|items| - 1];
      UpsertOrgsStages(orgs, stream, before);
      UpsertOrgStages(UpsertOrgs(orgs, before), stream + before, last);
      assert stream + before + [last] == stream + items;
    }
  }

  /** Upserting a page turns tables that hold a log into tables that hold the log with that page. */
  lemma StageAfterMatches(stage: Stage, log: seq<Entry>, e: Entry)
    requires StageMatches(stage, log)
    ensures StageMatches(StageAfter(stage, e.page), log + [e])
  {
    LogGrows(log, e);
    UpsertUsersStages(stage.users, UserStream(log), e.page.users);
    UpsertOrgsStages(stage.orgs, OrgStream(log), e.page.orgs);
  }

  /** What `f` takes from each accepted page, in order. */
  ghost function Gather<T>(log: seq<Entry>, f: Page -> seq<T>): seq<T> {
    if log == [] then [] else Gather(log[..|log| - 1], f) + f(log[|log| - 1].page)
  }

  ghost function UserStream(log: seq<Entry>): seq<UserItem> {
    Gather(log, PageUsers)
  }

  ghost function OrgStream(log: seq<Entry>): seq<OrgItem> {
    Gather(log, PageOrgs)
  }

  ghost function MemberStream(log: seq<Entry>): seq<Pair> {
    Gather(log, PageMembers)
  }

  ghost function ParentStream(log: seq<Entry>): seq<Relation> {
    Gather(log, PageParents)
  }

  function PageUsers(p: Page): seq<UserItem> {
    p.users
  }

  function PageOrgs(p: Page): seq<OrgItem> {
    p.orgs
  }

  function PageMembers(p: Page): seq<Pair> {
    p.members
  }

  function PageParents(p: Page): seq<Relation> {
    NamedParents(p.orgs) + p.parents
  }

  /** The parents that organisation items name themselves. */
  function NamedParents(orgs: seq<OrgItem>): seq<Relation> {
    if orgs == [] then []
    else
      var o := orgs[|orgs| - 1];
      NamedParents(orgs[..|orgs| - 1]) + if o.parent != "" then [Relation(o.id, o.parent)] else []
  }

  ghost predicate StageMatches(stage: Stage, log: seq<Entry>) {
    && UsersStaged(stage.users, UserStream(log))
    && OrgsStaged(stage.orgs, OrgStream(log))
    && (forall m :: m in stage.members <==> m in MemberStream(log))
    && (forall x :: x in stage.parents <==> x in ParentStream(log))
  }

  // ---- The job ----

  datatype Status = Waiting | Running | Finished | Failed
  datatype FetchPhase = Fetching | Preparing | Applying
  datatype Outcome = Staged | AlreadyStaged | Conflict | SourceChanged | Rejected

  /** The job row and its stage tables; `log` records which responses were staged. */
  datatype Job = Job(status: Status, phase: FetchPhase, cursor: Cursor, stage: Stage, log: seq<Entry>)

  predicate Terminal(s: Status) {
    s == Finished || s == Failed
  }

  const NOTHING := Stage(map[], map[], {}, {})

  class StagingJob {
    var status: Status
    var phase: FetchPhase
    var cursor: Cursor
    var stage: Stage
    ghost var log: seq<Entry>

    ghost function State(): Job
      reads this
    {
      Job(status, phase, cursor, stage, log)
    }

    constructor ()
      ensures State() == Job(Waiting, Fetching, Blank, NOTHING, [])
    {
      status, phase, cursor, stage, log := Waiting, Fetching, Blank, NOTHING, [];
    }

    /**
     `Stage`: a page is staged only while the job still stands at the cursor it was
     fetched for; if the tables held the log before, they hold the longer log afterwards.
     */
    method StagePage(e: Entry, sourceUnchanged: bool) returns (outcome: Outcome)
      modifies this
      ensures Attempt(old(State()), e, sourceUnchanged, outcome, State())
      ensures outcome == Staged && StageMatches(old(stage), old(log)) ==> StageMatches(stage, log)
    {
      if (e.page.complete && e.page.next != Blank) || (!e.page.complete && e.page.next == Blank) {
        return Rejected;
      }
      if !sourceUnchanged {
        return SourceChanged;
      }
      if status != Waiting && status != Running {
        return Rejected;
      }
      if phase != Fetching || cursor != e.cursor {
        return if cursor == e.page.next || phase == Preparing then AlreadyStaged else Conflict;
      }
      if StageMatches(stage, log) {
        StageAfterMatches(stage, log, e);
      }
      var users := StageUsers(stage.users, e.page.users);
      var orgs, named := StageOrgs(stage.orgs, e.page.orgs);
      var members := StageRows(stage.members, e.page.members);
      var parents := StageRows(stage.parents + named, e.page.parents);
      assert parents == stage.parents + set x | x in PageParents(e.page);
      stage := Stage(users, orgs, members, parents);
      status, cursor, phase := Running, e.page.next, if e.page.complete then Preparing else Fetching;
      log := log + [e];
      outcome := Staged;
    }

    /** `FailWithinTransaction` */
    method Fail()
      modifies `status
      ensures status == if Terminal(old(status)) then old(status) else Failed
    {
      if !Terminal(status) {
        status := Failed;
      }
    }
  }

  lemma LogGrows(log: seq<Entry>, e: Entry)
    ensures UserStream(log + [e]) == UserStream(log) + e.page.users
    ensures OrgStream(log + [e]) == OrgStream(log) + e.page.orgs
    ensures MemberStream(log + [e]) == MemberStream(log) + e.page.members
    ensures ParentStream(log + [e]) == ParentStream(log) + PageParents(e.page)
  {
    var grown := log + [e];
    assert grown[..|grown| - 1] == log && grown[|grown| - 1] == e;
  }

  method StageUsers(users: map<string, StagedUser>, items: seq<UserItem>) returns (after: map<string, StagedUser>)
    ensures after == UpsertUsers(users, items)
  {
    after := users;
    for i := 0 to |items|
      invariant after == UpsertUsers(users, items[..i])
    {
      assert items[..i + 1][..i] == items[..i];
      after := UpsertUser(after, items[i]);
    }
    assert items[..|items|] == items;
  }

  method StageOrgs(orgs: map<string, StagedOrg>, items: seq<OrgItem>)
    returns (after: map<string, StagedOrg>, named: set<Relation>)
    ensures after == UpsertOrgs(orgs, items)
    ensures named == set x | x in NamedParents(items)
  {
    after, named := orgs, {};
    for i := 0 to |items|
      invariant after == UpsertOrgs(orgs, items[..i])
      invariant named == set x | x in NamedParents(items[..i])
    {
      assert items[..i + 1][..i] == items[..i];
      after := UpsertOrg(after, items[i]);
      if items[i].parent != "" {
        named := named + {Relation(items[i].id, items[i].parent)};
      }
    }
    assert items[..|items|] == items;
  }

  /** `INSERT … ON CONFLICT DO NOTHING` */
  method StageRows<T(==)>(rows: set<T>, items: seq<T>) returns (after: set<T>)
    ensures after == rows + set x | x in items
  {
    after := rows;
    for i := 0 to |items|
      invariant after == rows + set x | x in items[..i]
    {
      assert items[..i + 1] == items[..i] + [items[i]];
      after := after + {items[i]};
    }
    assert items[..|items|] == items;
  }

  // ---- Runs ----

  /** One call of `Stage` and its outcome. */
  ghost predicate Attempt(j: Job, e: Entry, sourceUnchanged: bool, outcome: Outcome, z: Job) {
    match outcome
    case Staged =>
      && sourceUnchanged && !Terminal(j.status) && j.phase == Fetching && j.cursor == e.cursor
      && z == Job(Running, if e.page.complete then Preparing else Fetching, e.page.next,
                  StageAfter(j.stage, e.page), j.log + [e])
    case AlreadyStaged => z == j && sourceUnchanged && !Terminal(j.status)
                          && (j.phase != Fetching || j.cursor != e.cursor)
                          && (j.cursor == e.page.next || j.phase == Preparing)
    case Conflict => z == j && sourceUnchanged && !Terminal(j.status) && (j.phase != Fetching || j.cursor != e.cursor)
                     && j.cursor != e.page.next && j.phase != Preparing
    case SourceChanged => z == j && !sourceUnchanged
    case Rejected => z == j && (Terminal(j.status) || (e.page.complete <==> e.page.next != Blank))
  }

  /**
   The executor's later phases: preparing goes on to applying, or ends a preview; finalising
   ends an apply.  Ending a job drops its stage, and a preview keeps its phase.
   */
  ghost predicate Advanced(j: Job, z: Job) {
    && !Terminal(j.status)
    && match j.phase
       case Fetching => false
       case Preparing => z == j.(phase := Applying, cursor := Blank)
                         || z == j.(status := Finished, cursor := Blank, stage := NOTHING)
       case Applying => z == j || z == j.(status := Finished, stage := NOTHING)
  }

  ghost predicate FailStep(j: Job, z: Job) {
    !Terminal(j.status) && z == j.(status := Failed)
  }

  /** A worker stages what it fetched for a cursor it loaded at any earlier moment `k`. */
  ghost predicate WorkerStep(c: Config, r: seq<Job>, i: nat, k: nat, e: Entry, sourceUnchanged: bool, outcome: Outcome)
    requires i + 1 < |r|
  {
    && k <= i && r[k].phase == Fetching && e.cursor == r[k].cursor && Fetched(c, e)
    && Attempt(r[i], e, sourceUnchanged, outcome, r[i + 1])
  }

  ghost predicate JobStep(c: Config, r: seq<Job>, i: nat)
    requires i + 1 < |r|
  {
    || r[i + 1] == r[i]
    || (exists k, e, same, outcome :: WorkerStep(c, r, i, k, e, same, outcome))
    || Advanced(r[i], r[i + 1])
    || FailStep(r[i], r[i + 1])
  }

  ghost predicate JobRun(c: Config, r: seq<Job>) {
    && r != [] && r[0] == Job(Waiting, Fetching, Blank, NOTHING, [])
    && forall i :: 0 <= i < |r| - 1 ==> JobStep(c, r, i)
  }

  ghost predicate JobInvariant(c: Config, j: Job) {
    && Chain(c, j.log)
    && (j.phase == Fetching <==> !Complete(j.log))
    && j.cursor == CursorAfter(j.log)
    && (if j.status == Finished then j.stage == NOTHING else StageMatches(j.stage, j.log))
  }

  lemma EmptyStage()
    ensures StageMatches(NOTHING, [])
  {
  }

  lemma StagedKeeps(c: Config, j: Job, e: Entry, z: Job)
    requires JobInvariant(c, j) && Fetched(c, e) && Attempt(j, e, true, Staged, z)
    ensures JobInvariant(c, z)
  {
    StageAfterMatches(j.stage, j.log, e);
    assert z.log[..|z.log| - 1] == j.log;
  }

  lemma JobStepKeeps(c: Config, r: seq<Job>, h: nat, i: nat)
    requires JobRun(c, r) && h + 1 == i < |r| && JobInvariant(c, r[h])
    ensures JobInvariant(c, r[i])
  {
    assert JobStep(c, r, h);
    if k, e, same, outcome :| WorkerStep(c, r, h, k, e, same, outcome) {
      AttemptKeeps(c, r[h], e, same, outcome, r[i]);
    } else if Advanced(r[h], r[i]) {
      AdvancedKeeps(c, r[h], r[i]);
    }
  }

  lemma AttemptKeeps(c: Config, j: Job, e: Entry, same: bool, outcome: Outcome, z: Job)
    requires JobInvariant(c, j) && Fetched(c, e) && Attempt(j, e, same, outcome, z)
    ensures JobInvariant(c, z)
  {
    if outcome == Staged {
      StagedKeeps(c, j, e, z);
    }
  }

  lemma AdvancedKeeps(c: Config, j: Job, z: Job)
    requires JobInvariant(c, j) && Advanced(j, z)
    ensures JobInvariant(c, z)
  {
    ChainCovers(c, z.log);
  }

  /**
   Every reachable job stands at the end of a chain of accepted pages, and until it
   finishes its stage holds exactly that chain.
   */
  lemma {:induction false} RunKeepsJob(c: Config, r: seq<Job>, i: nat)
    requires JobRun(c, r) && i < |r|
    ensures JobInvariant(c, r[i])
    decreases i
  {
    if i == 0 {
      EmptyStage();
    } else {
      var h := i - 1;
      RunKeepsJob(c, r, h);
      JobStepKeeps(c, r, h, i);
    }
  }

  lemma {:induction false} LogOnlyGrows(c: Config, r: seq<Job>, k: nat, i: nat)
    requires JobRun(c, r) && k <= i < |r|
    ensures r[k].log <= r[i].log
    decreases i
  {
    if k < i {
      LogOnlyGrows(c, r, k, i - 1);
      assert JobStep(c, r, i - 1);
      assert r[i - 1].log <= r[i].log;
    }
  }

  /**
   Exactly one response per cursor: when a worker stages a page, no page was staged
   for that cursor before; when it is turned away from a live job, one was.
   */
  lemma OneResponsePerCursor(c: Config, r: seq<Job>, i: nat, k: nat, e: Entry, outcome: Outcome)
    requires JobRun(c, r) && i + 1 < |r| && WorkerStep(c, r, i, k, e, true, outcome)
    ensures outcome == Staged ==> forall q :: 0 <= q < |r[i].log| ==> r[i].log[q].cursor != e.cursor
    ensures outcome == AlreadyStaged || outcome == Conflict ==>
              exists q :: 0 <= q < |r[i].log| && r[i].log[q].cursor == e.cursor
  {
    RunKeepsJob(c, r, k);
    RunKeepsJob(c, r, i);
    LogOnlyGrows(c, r, k, i);
    var log := r[i].log;
    assert |r[k].log| == |log| ==> r[k].log == log;
    if outcome == Staged {
      assert r[i + 1].log == log + [e];
      RunKeepsJob(c, r, i + 1);
      forall q | 0 <= q < |log|
        ensures log[q].cursor != e.cursor
      {
        CursorsNeverRepeat(c, log + [e], q, |log|);
      }
    } else if outcome == AlreadyStaged || outcome == Conflict {
      var n := |r[k].log|;
      assert r[k].log == log[..n];
      ChainPrefix(c, log, n);
    }
  }

  /** A finished or failed job never changes its outcome, its cursor or its log again. */
  lemma {:induction false} TerminalIsAbsorbing(c: Config, r: seq<Job>, k: nat, i: nat)
    requires JobRun(c, r) && k <= i < |r| && Terminal(r[k].status)
    ensures r[i] == r[k]
    decreases i
  {
    if k < i {
      TerminalIsAbsorbing(c, r, k, i - 1);
      assert JobStep(c, r, i - 1);
    }
  }

  // ---- Whole directories ----

  lemma {:induction false} CollectJoin<T>(a: seq<Item>, b: seq<Item>, f: Item -> seq<T>)
    ensures Collect(a + b, f) == Collect(a, f) + Collect(b, f)
    decreases |b|
  {
    if b == [] {
      assert a + b == a;
    } else {
      CollectJoin(a, b[..|b| - 1], f);
      assert (a + b)[..|a + b| - 1] == a + b[..|b| - 1];
    }
  }

  lemma {:induction false} CollectNone<T>(items: seq<Item>, f: Item -> seq<T>)
    requires forall i :: 0 <= i < |items| ==> f(items[i]) == []
    ensures Collect(items, f) == []
    decreases |items|
  {
    if items != [] {
      CollectNone(items[..|items| - 1], f);
    }
  }

  /** Pages gathered from a chain hold what the accepted items of their resource hold. */
  lemma {:induction false} GatherIsCollect<T>(
    c: Config, log: seq<Entry>, which: Resource, f: Page -> seq<T>, g: Item -> seq<T>)
    requires Chain(c, log)
    requires forall e :: Fetched(c, e) ==> f(e.page) == Collect(e.response.resources, g)
    requires forall item: Item :: (if which == Users then !item.UserResource? else !item.GroupResource?) ==>
                                    g(item) == []
    ensures Gather(log, f) == Collect(Items(log, which), g)
    decreases |log|
  {
    if log != [] {
      var before, e := log[..|log| - 1], log[|log| - 1];
      GatherIsCollect(c, before, which, f, g);
      assert Fetched(c, e);
      if ResourceOf(e) == which {
        CollectJoin(Items(before, which), e.response.resources, g);
      } else {
        CollectNone(e.response.resources, g);
        assert Items(log, which) == Items(before, which);
      }
    }
  }

  lemma {:induction false} NoNamedParents(items: seq<Item>)
    ensures NamedParents(Collect(items, OrgOf)) == []
    decreases |items|
  {
    if items != [] {
      var before := items[..|items| - 1];
      NoNamedParents(before);
      if items[|items| - 1].GroupResource? {
        assert Collect(items, OrgOf)[..|Collect(items, OrgOf)| - 1] == Collect(before, OrgOf);
      } else {
        assert Collect(items, OrgOf) == Collect(before, OrgOf);
      }
    }
  }

  lemma FetchedParents(c: Config, e: Entry)
    requires Fetched(c, e)
    ensures PageParents(e.page) == Collect(e.response.resources, ParentsOf)
  {
    NoNamedParents(e.response.resources);
  }

  lemma UserStreamOf(c: Config, log: seq<Entry>)
    requires Chain(c, log)
    ensures UserStream(log) == Collect(Items(log, Users), UserOf)
  {
    GatherIsCollect(c, log, Users, PageUsers, UserOf);
  }

  lemma GroupStreamsOf(c: Config, log: seq<Entry>)
    requires Chain(c, log)
    ensures OrgStream(log) == Collect(Items(log, Groups), OrgOf)
    ensures MemberStream(log) == Collect(Items(log, Groups), MembersOf)
  {
    GatherIsCollect(c, log, Groups, PageOrgs, OrgOf);
    GatherIsCollect(c, log, Groups, PageMembers, MembersOf);
  }

  lemma ParentStreamOf(c: Config, log: seq<Entry>)
    requires Chain(c, log)
    ensures ParentStream(log) == Collect(Items(log, Groups), ParentsOf)
  {
    forall e | Fetched(c, e)
      ensures PageParents(e.page) == Collect(e.response.resources, ParentsOf)
    {
      FetchedParents(c, e);
    }
    GatherIsCollect(c, log, Groups, PageParents, ParentsOf);
  }

  // ---- From streams back to entries ----

  /** The stream holds this user as often as the entries do, and first with the values of its first entry. */
  ghost predicate SameUser(items: seq<Item>, stream: seq<UserItem>, s: string) {
    && |Indices(SubjectsOf(stream), s)| == |UserPlaces(items, s)|
    && (s in SubjectsOf(stream) <==> exists k :: IsUser(items, s, k))
    && forall k :: FirstUser(items, s, k) ==>
                     exists i :: FirstAt(SubjectsOf(stream), s, i) && stream[i] == items[k].user
  }

  ghost predicate SameGroup(items: seq<Item>, stream: seq<OrgItem>, e: string) {
    && |Indices(IdsOf(stream), e)| == |GroupPlaces(items, e)|
    && (e in IdsOf(stream) <==> exists k :: IsGroup(items, e, k))
    && forall k :: FirstGroup(items, e, k) ==>
                     exists i :: FirstAt(IdsOf(stream), e, i) && stream[i].name == items[k].name
  }

  lemma OtherEntry(items: seq<Item>, item: Item, stream: seq<UserItem>, s: string)
    requires SameUser(items, stream, s) && !(item.UserResource? && item.user.subject == s)
    ensures SameUser(items + [item], stream, s)
  {
    UserPlacesGrow(items, item, s);
    forall k | FirstUser(items + [item], s, k)
      ensures FirstUser(items, s, k) && (items + [item])[k] == items[k]
    {
    }
  }

  lemma UserEntry(items: seq<Item>, item: Item, stream: seq<UserItem>, s: string)
    requires SameUser(items, stream, s) && item.UserResource?
    ensures SameUser(items + [item], stream + [item.user], s)
  {
    var grown, more, ids := items + [item], stream + [item.user], SubjectsOf(stream);
    assert SubjectsOf(more) == ids + [item.user.subject];
    UserPlacesGrow(items, item, s);
    IndicesGrow(ids, item.user.subject, s);
    forall k | FirstUser(grown, s, k)
      ensures exists i :: FirstAt(SubjectsOf(more), s, i) && more[i] == grown[k].user
    {
      if k < |items| {
        assert FirstUser(items, s, k);
        var i :| FirstAt(ids, s, i) && stream[i] == items[k].user;
        assert FirstAt(SubjectsOf(more), s, i) && more[i] == stream[i];
      } else {
        assert FirstAt(SubjectsOf(more), s, |stream|) && more[|stream|] == item.user;
      }
    }
  }

  lemma {:induction false} UsersOfEntries(items: seq<Item>, s: string)
    ensures SameUser(items, Collect(items, UserOf), s)
    decreases |items|
  {
    if items == [] {
      assert SubjectsOf([]) == [];
    } else {
      var before, last := items[..|items| - 1], items[|items| - 1];
      UsersOfEntries(before, s);
      assert before + [last] == items;
      if last.UserResource? {
        UserEntry(before, last, Collect(before, UserOf), s);
      } else {
        OtherEntry(before, last, Collect(before, UserOf), s);
        assert Collect(items, UserOf) == Collect(before, UserOf);
      }
    }
  }

  lemma OtherGroupEntry(items: seq<Item>, item: Item, stream: seq<OrgItem>, e: string)
    requires SameGroup(items, stream, e) && !(item.GroupResource? && item.id == e)
    ensures SameGroup(items + [item], stream, e)
  {
    GroupPlacesGrow(items, item, e);
    forall k | FirstGroup(items + [item], e, k)
      ensures FirstGroup(items, e, k) && (items + [item])[k] == items[k]
    {
    }
  }

  lemma GroupEntry(items: seq<Item>, item: Item, stream: seq<OrgItem>, o: OrgItem, e: string)
    requires SameGroup(items, stream, e) && item.GroupResource? && o.id == item.id && o.name == item.name
    ensures SameGroup(items + [item], stream + [o], e)
  {
    var grown, more, ids := items + [item], stream + [o], IdsOf(stream);
    assert IdsOf(more) == ids + [o.id];
    GroupPlacesGrow(items, item, e);
    IndicesGrow(ids, o.id, e);
    forall k | FirstGroup(grown, e, k)
      ensures exists i :: FirstAt(IdsOf(more), e, i) && more[i].name == grown[k].name
    {
      if k < |items| {
        assert FirstGroup(items, e, k);
        var i :| FirstAt(ids, e, i) && stream[i].name == items[k].name;
        assert FirstAt(IdsOf(more), e, i) && more[i] == stream[i];
      } else {
        assert FirstAt(IdsOf(more), e, |stream|) && more[|stream|] == o;
      }
    }
  }

  lemma {:induction false} GroupsOfEntries(items: seq<Item>, e: string)
    ensures SameGroup(items, Collect(items, OrgOf), e)
    decreases |items|
  {
    if items == [] {
      assert IdsOf([]) == [];
    } else {
      var before, last := items[..|items| - 1], items[|items| - 1];
      GroupsOfEntries(before, e);
      assert before + [last] == items;
      if last.GroupResource? {
        GroupEntry(before, last, Collect(before, OrgOf), OrgOf(last)[0], e);
      } else {
        OtherGroupEntry(before, last, Collect(before, OrgOf), e);
        assert Collect(items, OrgOf) == Collect(before, OrgOf);
      }
    }
  }

  lemma FirstIsUnique(ids: seq<string>, s: string, i: int, j: int)
    requires FirstAt(ids, s, i) && FirstAt(ids, s, j)
    ensures i == j
  {
  }

  lemma StagedUserIsListed(row: StagedUser, users: seq<Item>, stream: seq<UserItem>, s: string, k: int)
    requires UserRowStaged(row, stream, s) && SameUser(users, stream, s) && FirstUser(users, s, k)
    ensures UserListed(row, users, s, k)
  {
    var ids := SubjectsOf(stream);
    var i :| FirstAt(ids, s, i) && row == RowOfUser(stream[i], |Indices(ids, s)|);
    var j :| FirstAt(ids, s, j) && stream[j] == users[k].user;
    FirstIsUnique(ids, s, i, j);
  }

  lemma StagedGroupIsListed(row: StagedOrg, groups: seq<Item>, stream: seq<OrgItem>, e: string, k: int)
    requires OrgRowStaged(row, stream, e) && SameGroup(groups, stream, e) && FirstGroup(groups, e, k)
    ensures GroupListed(row, groups, e, k)
  {
    var ids := IdsOf(stream);
    var i :| FirstAt(ids, e, i) && row == StagedOrg(stream[i].name, |Indices(ids, e)|);
    var j :| FirstAt(ids, e, j) && stream[j].name == groups[k].name;
    FirstIsUnique(ids, e, i, j);
  }

  lemma UsersAreListed(rows: map<string, StagedUser>, users: seq<Item>, s: string)
    requires UsersStaged(rows, Collect(users, UserOf))
    ensures s in rows <==> exists k :: IsUser(users, s, k)
    ensures forall k :: FirstUser(users, s, k) ==> s in rows && UserListed(rows[s], users, s, k)
  {
    UsersOfEntries(users, s);
    forall k | FirstUser(users, s, k)
      ensures s in rows && UserListed(rows[s], users, s, k)
    {
      StagedUserIsListed(rows[s], users, Collect(users, UserOf), s, k);
    }
  }

  lemma GroupsAreListed(rows: map<string, StagedOrg>, groups: seq<Item>, e: string)
    requires OrgsStaged(rows, Collect(groups, OrgOf))
    ensures e in rows <==> exists k :: IsGroup(groups, e, k)
    ensures forall k :: FirstGroup(groups, e, k) ==> e in rows && GroupListed(rows[e], groups, e, k)
  {
    GroupsOfEntries(groups, e);
    forall k | FirstGroup(groups, e, k)
      ensures e in rows && GroupListed(rows[e], groups, e, k)
    {
      StagedGroupIsListed(rows[e], groups, Collect(groups, OrgOf), e, k);
    }
  }

  /** Tables that hold the streams of a directory's entries hold its listing. */
  lemma StreamsAreListed(stage: Stage, users: seq<Item>, groups: seq<Item>)
    requires UsersStaged(stage.users, Collect(users, UserOf)) && OrgsStaged(stage.orgs, Collect(groups, OrgOf))
    requires forall m :: m in stage.members <==> m in Collect(groups, MembersOf)
    requires forall x :: x in stage.parents <==> x in Collect(groups, ParentsOf)
    ensures Lists(stage, users, groups)
  {
    forall s
      ensures s in stage.users <==> exists k :: IsUser(users, s, k)
      ensures forall k :: FirstUser(users, s, k) ==> s in stage.users && UserListed(stage.users[s], users, s, k)
    {
      UsersAreListed(stage.users, users, s);
    }
    forall e
      ensures e in stage.orgs <==> exists k :: IsGroup(groups, e, k)
      ensures forall k :: FirstGroup(groups, e, k) ==> e in stage.orgs && GroupListed(stage.orgs[e], groups, e, k)
    {
      GroupsAreListed(stage.orgs, groups, e);
    }
    forall o, u
      ensures Pair(o, u) in stage.members <==> NamesUser(groups, o, u)
    {
      MembersMean(groups, o, u);
    }
    forall c, p
      ensures Relation(c, p) in stage.parents <==> NamesChild(groups, p, c)
    {
      ParentsMean(groups, c, p);
    }
  }

  /**
   Against an unchanging directory, whatever the workers did, from the end of the fetch
   until the job finishes the stage is the directory: one row per subject and group,
   counted as often as it is listed, with exactly the listed memberships and parents.
   */
  lemma StageIsDirectory(c: Config, r: seq<Job>, users: seq<Item>, groups: seq<Item>)
    requires JobRun(c, r) && r[|r| - 1].phase != Fetching && r[|r| - 1].status != Finished
    requires AnsweredBy(r[|r| - 1].log, users, groups)
    ensures Lists(r[|r| - 1].stage, users, groups)
  {
    var j := r[|r| - 1];
    RunKeepsJob(c, r, |r| - 1);
    CompleteFetchIsDirectory(c, j.log, users, groups);
    UserStreamOf(c, j.log);
    GroupStreamsOf(c, j.log);
    ParentStreamOf(c, j.log);
    StreamsAreListed(j.stage, users, groups);
  }
}
