/**
 The executor's transactions as it runs them: loops over selected rows that update
 the tables.  Each one is proved to be one step of the runs in `DirectorySync`.
 */
module DirectoryExecutor {
  import opened Wrappers
  import opened Strings
  import opened DirectoryBatches
  import opened DirectoryHierarchy
  import opened DirectoryModel
  import opened DirectoryPreview
  import opened DirectorySessions
  import opened DirectorySync
  import Graph = OrganizationGraph

  // ---- Conflict discovery ----

  ghost predicate SameEdges(g: Graph.Graph, parents: set<Relation>) {
    forall c, p :: Graph.Edge(g, c, p) <==> Relation(c, p) in parents
  }

  /** The `parents` map built from the staged parent rows, in whatever order they arrive. */
  method BuildParents(rows: set<Relation>) returns (g: Graph.Graph)
    ensures SameEdges(g, rows)
  {
    g := map[];
    var rest := rows;
    while rest != {}
      invariant rest <= rows
      invariant SameEdges(g, rows - rest)
      decreases rest
    {
      var row :| row in rest;
      g := g[row.child := (if row.child in g then g[row.child] else []) + [row.parent]];
      rest := rest - {row};
      assert row == Relation(row.child, row.parent);
    }
    assert rows - {} == rows;
  }

  lemma SameEdgesSameWalks(g: Graph.Graph, h: Graph.Graph, w: seq<string>)
    requires forall c, p :: Graph.Edge(g, c, p) <==> Graph.Edge(h, c, p)
    ensures Graph.Walk(g, w) <==> Graph.Walk(h, w)
    ensures Graph.ClosedWalk(g, w) <==> Graph.ClosedWalk(h, w)
  {
  }

  lemma CycleIsTroubled(g: Graph.Graph, stage: Stage, n: string)
    requires SameEdges(g, stage.parents) && Graph.OnCycle(g, n)
    ensures n in Troubled(stage)
  {
    var c :| Graph.ClosedWalk(g, c) && n in c;
    SameEdgesSameWalks(g, GraphOf(stage.parents), c);
    var i :| 0 <= i < |c| && c[i] == n;
    var next := if i + 1 < |c| then c[i + 1] else c[0];
    assert Graph.Edge(g, n, next);
    assert Relation(n, next).child in Children(stage.parents);
  }

  ghost function LocalConflicts(stage: Stage): set<string> {
    set e | e in stage.orgs.Keys + Children(stage.parents) && LocalOrgConflict(stage, e)
  }

  lemma UnsafeIsConflict(g: Graph.Graph, stage: Stage, seeds: set<string>, n: string)
    requires SameEdges(g, stage.parents) && seeds <= Troubled(stage) && Graph.UpwardInto(g, n, seeds)
    ensures n in ConflictedOrgs(stage)
  {
    var w, m :| m in seeds && Graph.WalkFromTo(g, w, n, m);
    SameEdgesSameWalks(g, GraphOf(stage.parents), w);
    assert Graph.WalkFromTo(GraphOf(stage.parents), w, n, m);
    assert OrgConflict(stage, n);
    if |w| > 1 {
      assert Graph.Edge(g, w[0], w[1]);
      assert Relation(w[0], w[1]).child in Children(stage.parents);
    }
  }

  lemma ConflictIsUnsafe(g: Graph.Graph, stage: Stage, unsafe: set<string>, n: string)
    requires SameEdges(g, stage.parents) && Graph.ChildClosed(g, unsafe) && Graph.HitsEveryCycle(g, unsafe)
    requires LocalConflicts(stage) <= unsafe
    requires n in ConflictedOrgs(stage)
    ensures n in unsafe
  {
    var h := GraphOf(stage.parents);
    var w, m :| m in Troubled(stage) && Graph.WalkFromTo(h, w, n, m);
    SameEdgesSameWalks(g, h, w);
    if LocalOrgConflict(stage, m) {
      assert m in LocalConflicts(stage);
      Graph.ClosedHoldsWalk(g, unsafe, w, n, m);
    } else {
      SameEdgesSameCycles(g, h, m);
      Graph.OnOrBelowCycleIsUnsafe(g, unsafe, n, w, m);
    }
  }

  lemma SameEdgesSameCycles(g: Graph.Graph, h: Graph.Graph, m: string)
    requires forall c, p :: Graph.Edge(g, c, p) <==> Graph.Edge(h, c, p)
    requires Graph.OnCycle(h, m)
    ensures Graph.OnCycle(g, m)
  {
    var c :| Graph.ClosedWalk(h, c) && m in c;
    SameEdgesSameWalks(g, h, c);
  }

  lemma MoreHitsEveryCycle(g: Graph.Graph, some: set<string>, more: set<string>)
    requires Graph.HitsEveryCycle(g, some) && some <= more
    ensures Graph.HitsEveryCycle(g, more)
  {
  }

  lemma SeedsAreUpward(g: Graph.Graph, seeds: set<string>, n: string)
    requires n in seeds
    ensures Graph.UpwardInto(g, n, seeds)
  {
    assert Graph.WalkFromTo(g, [n], n, n);
  }

  /**
   Whichever node of each cycle the search reports, propagation ends at the same
   set: everything with a chain of staged parents into trouble.
   */
  lemma PropagationIsConflict(g: Graph.Graph, stage: Stage, reported: set<string>, unsafe: set<string>)
    requires SameEdges(g, stage.parents)
    requires forall n :: n in reported ==> Graph.OnCycle(g, n)
    requires Graph.HitsEveryCycle(g, reported)
    requires LocalConflicts(stage) + reported <= unsafe
    requires forall n {:trigger Graph.UpwardInto(g, n, LocalConflicts(stage) + reported)} ::
               n in unsafe ==> Graph.UpwardInto(g, n, LocalConflicts(stage) + reported)
    requires Graph.ChildClosed(g, unsafe)
    ensures unsafe == ConflictedOrgs(stage)
  {
    var seeds := LocalConflicts(stage) + reported;
    forall n | n in reported
      ensures n in Troubled(stage)
    {
      CycleIsTroubled(g, stage, n);
    }
    forall n | n in unsafe
      ensures n in ConflictedOrgs(stage)
    {
      assert Graph.UpwardInto(g, n, seeds);
      UnsafeIsConflict(g, stage, seeds, n);
    }
    MoreHitsEveryCycle(g, reported, unsafe);
    forall n | n in ConflictedOrgs(stage)
      ensures n in unsafe
    {
      ConflictIsUnsafe(g, stage, unsafe, n);
    }
    SameElements(unsafe, ConflictedOrgs(stage));
  }

  /** `discoverOrganizationConflicts`, with the cycle search and the propagation. */
  method DiscoverOrganizationConflicts(stage: Stage) returns (conflicts: set<string>)
    ensures conflicts == ConflictedOrgs(stage)
  {
    var local := LocalConflictRows(stage);
    var g := BuildParents(stage.parents);
    conflicts := Unsafe(g, stage, local);
  }

  method Unsafe(g: Graph.Graph, stage: Stage, local: set<string>) returns (conflicts: set<string>)
    requires SameEdges(g, stage.parents) && local == LocalConflicts(stage)
    ensures conflicts == ConflictedOrgs(stage)
  {
    var members := Graph.CycleMembers(g);
    var reported := set n | n in members;
    var seeds := ListOf(local + reported);
    var propagated;
    conflicts, propagated := Graph.Propagate(g, seeds);
    forall n | n in local + reported
      ensures n in conflicts
    {
      SeedsAreUpward(g, local + reported, n);
    }
    PropagationIsConflict(g, stage, reported, conflicts);
  }

  /** The aggregate query over one child's parent rows, next to the duplicate and cross-type queries. */
  predicate LocalConflictRow(stage: Stage, e: string) {
    || (e in stage.orgs && stage.orgs[e].occurrences > 1)
    || (e in stage.users && e in stage.orgs)
    || (exists x, z :: x in stage.parents && z in stage.parents && x.child == e && z.child == e && x.parent != z.parent)
    || (exists x :: x in stage.parents && x.child == e && (x.child !in stage.orgs || x.parent !in stage.orgs))
  }

  lemma LocalConflictIsRow(stage: Stage, e: string)
    ensures LocalConflictRow(stage, e) <==> LocalOrgConflict(stage, e)
  {
    forall x | x in stage.parents
      ensures x == Relation(x.child, x.parent)
    {
    }
    if x, z :| x in stage.parents && z in stage.parents && x.child == e && z.child == e && x.parent != z.parent {
      assert Relation(e, x.parent) in stage.parents && Relation(e, z.parent) in stage.parents;
    }
    if x :| x in stage.parents && x.child == e && (x.child !in stage.orgs || x.parent !in stage.orgs) {
      assert Relation(e, x.parent) in stage.parents;
    }
  }

  method LocalConflictRows(stage: Stage) returns (local: set<string>)
    ensures local == LocalConflicts(stage)
  {
    local := set e | e in stage.orgs.Keys + (set x | x in stage.parents :: x.child) && LocalConflictRow(stage, e);
    forall e
      ensures LocalConflictRow(stage, e) <==> LocalOrgConflict(stage, e)
    {
      LocalConflictIsRow(stage, e);
    }
  }

  // ---- Batches, row by row ----

  lemma {:induction false} UserBatchGrows(y: Sync, batch: seq<string>, s: string)
    requires Elements(batch + [s]) <= y.stage.users.Keys
    ensures Elements(batch) <= y.stage.users.Keys && s in y.stage.users
    ensures ApplyUserBatch(y, batch + [s]) == ApplyUser(ApplyUserBatch(y, batch), s)
    decreases |batch|
  {
    assert s in Elements(batch + [s]) && Elements(batch) <= Elements(batch + [s]);
    if batch == [] {
      assert ([s])[1..] == [];
    } else {
      assert batch[0] in Elements(batch) && Elements(batch[1..] + [s]) <= Elements(batch + [s]);
      UserBatchGrows(ApplyUser(y, batch[0]), batch[1..], s);
      assert (batch + [s])[1..] == batch[1..] + [s];
    }
  }

  lemma {:induction false} OrgBatchGrows(y: Sync, batch: seq<string>, e: string)
    requires Elements(batch + [e]) <= y.stage.orgs.Keys
    ensures Elements(batch) <= y.stage.orgs.Keys && e in y.stage.orgs
    ensures ApplyOrgBatch(y, batch + [e]) == ApplyOrg(ApplyOrgBatch(y, batch), e)
    decreases |batch|
  {
    assert e in Elements(batch + [e]) && Elements(batch) <= Elements(batch + [e]);
    if batch == [] {
      assert ([e])[1..] == [];
    } else {
      assert batch[0] in Elements(batch) && Elements(batch[1..] + [e]) <= Elements(batch + [e]);
      OrgBatchGrows(ApplyOrg(y, batch[0]), batch[1..], e);
      assert (batch + [e])[1..] == batch[1..] + [e];
    }
  }

  lemma {:induction false} MemberBatchGrows(y: Sync, batch: seq<Pair>, m: Pair)
    ensures ApplyMemberBatch(y, batch + [m]) == ApplyMember(ApplyMemberBatch(y, batch), m)
    decreases |batch|
  {
    if batch == [] {
      assert ([m])[1..] == [];
    } else {
      MemberBatchGrows(ApplyMember(y, batch[0]), batch[1..], m);
      assert (batch + [m])[1..] == batch[1..] + [m];
    }
  }

  lemma PrefixInside<T>(s: seq<T>, i: nat)
    requires i <= |s|
    ensures Elements(s[..i]) <= Elements(s)
  {
  }

  lemma NextInside<T>(s: seq<T>, i: nat, all: set<T>)
    requires i < |s| && Elements(s) <= all
    ensures s[..i + 1] == s[..i] + [s[i]]
    ensures s[i] in all && Elements(s[..i + 1]) <= all
  {
    assert s[i] in Elements(s);
    PrefixInside(s, i + 1);
  }

  /** `ORDER BY … LIMIT n` over the rows that are not processed yet. */
  method FirstIds(rest: set<string>, limit: nat) returns (batch: seq<string>)
    requires limit >= 1
    ensures FullBatch(batch, rest, limit)
    ensures batch == [] <==> rest == {}
  {
    var listed := ListOf(rest);
    batch := Sort(listed);
    SortDistinct(listed);
    AscendingIsDistinct(batch);
    DistinctSize(batch);
    if |batch| > limit {
      PrefixInside(batch, limit);
      batch := batch[..limit];
    }
  }

  lemma NothingLeft<T>(all: set<T>, done: set<T>)
    requires all - done == {}
    ensures all <= done
  {
    forall x | x in all
      ensures x in done
    {
      assert x !in all - done;
    }
  }

  /** Membership rows are ordered by two columns; only how many are taken matters here. */
  method FirstPairs(rest: set<Pair>, limit: nat) returns (batch: seq<Pair>)
    requires limit >= 1
    ensures FullBatch(batch, rest, limit)
    ensures batch == [] <==> rest == {}
  {
    batch := ListOf(rest);
    DistinctSize(batch);
    if |batch| > limit {
      PrefixInside(batch, limit);
      batch := batch[..limit];
    }
  }

  /** One job and the tables its transactions update. */
  class Executor {
    const source: string
    const marker: string
    const mode: Mode
    const batchSize: nat
    var phase: Phase
    var completed: bool
    var users: map<UserKey, UserRow>
    var orgs: map<OrgKey, OrgRow>
    var members: map<MemberKey, bool>
    var stage: Stage
    var doneUsers: set<string>
    var doneOrgs: set<string>
    var doneMembers: set<Pair>
    var userConflicts: set<string>
    var orgConflicts: set<string>
    /** Whose sessions the job has revoked so far. */
    var revoked: set<UserKey>

    ghost function State(): Sync
      reads this
    {
      Sync(source, marker, mode, phase, completed, Live(users, orgs, members), stage,
           doneUsers, doneOrgs, doneMembers, userConflicts, orgConflicts)
    }

    constructor (source: string, marker: string, mode: Mode, batchSize: nat, live: Live, stage: Stage)
      ensures State() == Sync(source, marker, mode, Prepare, false, live, stage, {}, {}, {}, {}, {})
      ensures this.batchSize == batchSize && revoked == {}
    {
      this.source, this.marker, this.mode, this.batchSize := source, marker, mode, batchSize;
      this.stage, phase, completed := stage, Prepare, false;
      users, orgs, members := live.users, live.orgs, live.members;
      doneUsers, doneOrgs, doneMembers, userConflicts, orgConflicts, revoked := {}, {}, {}, {}, {}, {};
    }

    /** The tables after a change, and who has been logged out on the way. */
    ghost predicate Revokes(before: Live, was: set<UserKey>)
      reads this
    {
      revoked == was + Affected(before, Live(users, orgs, members))
    }

    method DiscoverUserConflicts() returns (conflicts: set<string>)
      ensures conflicts == ConflictedUsers(State())
    {
      var y := Sync(source, marker, mode, phase, completed, Live(users, orgs, members), stage,
                    doneUsers, doneOrgs, doneMembers, userConflicts, orgConflicts);
      conflicts := {};
      var rest := stage.users.Keys;
      while rest != {}
        invariant rest <= stage.users.Keys
        invariant conflicts == set s | s in stage.users.Keys - rest && UserConflict(y, s)
        decreases rest
      {
        var s :| s in rest;
        if UserConflict(y, s) {
          conflicts := conflicts + {s};
        }
        rest := rest - {s};
      }
    }

    method DiscoverMembershipConflicts(cu: set<string>, co: set<string>) returns (skipped: set<Pair>)
      requires cu == ConflictedUsers(State()) && co == ConflictedOrgs(stage)
      ensures skipped == stage.members - SafeMembers(State())
    {
      skipped := set m | m in stage.members
                         && (m.org !in stage.orgs || m.user !in stage.users || m.org in co || m.user in cu);
      SkippedAreUnsafe(State(), skipped, cu, co);
    }

    /** The counting query over the staged rows that no conflict has marked as processed. */
    method CountChanges(cu: set<string>, co: set<string>, skipped: set<Pair>) returns (counts: Counts)
      requires cu == ConflictedUsers(State()) && co == ConflictedOrgs(stage)
      requires skipped == stage.members - SafeMembers(State())
      ensures counts == Differences(State(), Snapshot(State()))
    {
      var y := Sync(source, marker, mode, phase, completed, Live(users, orgs, members), stage,
                    doneUsers, doneOrgs, doneMembers, userConflicts, orgConflicts);
      var safe := Safe(stage.users.Keys - cu, stage.orgs.Keys - co, stage.members - skipped);
      SafeIsUnconflicted(y, safe, cu, co, skipped);
      CountsArePredictions(y);
      counts := Counted(y, safe);
    }

    /**
     `prepareSnapshot`: the counts are the differences that a complete apply makes; a
     preview ends here and leaves the live rows alone.
     */
    method PrepareSnapshot() returns (counts: Counts)
      requires phase == Prepare && !completed
      modifies this
      ensures State() == Prepared(old(State()))
      ensures FullCommit(batchSize, old(State()), State()) && Revokes(old(State()).live, old(revoked))
      ensures counts == Differences(old(State()), Snapshot(old(State())))
    {
      var cu, co, skipped;
      cu, co, skipped, counts := DiscoverConflicts();
      MarkConflicts(cu, co, skipped);
    }

    method DiscoverConflicts() returns (cu: set<string>, co: set<string>, skipped: set<Pair>, counts: Counts)
      ensures cu == ConflictedUsers(State()) && co == ConflictedOrgs(stage)
      ensures skipped == stage.members - SafeMembers(State())
      ensures counts == Differences(State(), Snapshot(State()))
    {
      cu := DiscoverUserConflicts();
      co := DiscoverOrganizationConflicts(stage);
      skipped := DiscoverMembershipConflicts(cu, co);
      counts := CountChanges(cu, co, skipped);
    }

    method MarkConflicts(cu: set<string>, co: set<string>, skipped: set<Pair>)
      requires cu == ConflictedUsers(State()) && co == ConflictedOrgs(stage)
      requires skipped == stage.members - SafeMembers(State())
      requires phase == Prepare && !completed
      modifies this
      ensures State() == Prepared(old(State()))
      ensures FullCommit(batchSize, old(State()), State()) && Revokes(old(State()).live, old(revoked))
    {
      PrepareCommits(batchSize, State());
      userConflicts, orgConflicts := cu, co;
      if mode == Preview {
        completed, stage := true, Stage(map[], map[], {}, {});
      } else {
        phase, doneUsers, doneOrgs, doneMembers := ApplyUsers, cu, stage.orgs.Keys * co, skipped;
      }
    }

    /** `applyUsers`: one batch in subject order, or the move to the next phase. */
    method ApplyUserRows()
      requires batchSize >= 1 && phase == ApplyUsers && !completed
      modifies this
      ensures FullCommit(batchSize, old(State()), State()) && Revokes(old(State()).live, old(revoked))
    {
      var batch := FirstIds(stage.users.Keys - doneUsers, batchSize);
      if batch == [] {
        LeaveUsers();
      } else {
        CommitUsers(batch);
      }
    }

    method LeaveUsers()
      requires phase == ApplyUsers && !completed && stage.users.Keys - doneUsers == {}
      modifies this
      ensures FullCommit(batchSize, old(State()), State()) && Revokes(old(State()).live, old(revoked))
    {
      ghost var y := State();
      phase := ApplyOrganizations;
      UsersDone(batchSize, y, State());
    }

    method CommitUsers(batch: seq<string>)
      requires phase == ApplyUsers && !completed && batch != []
      requires FullBatch(batch, stage.users.Keys - doneUsers, batchSize)
      modifies this
      ensures FullCommit(batchSize, old(State()), State()) && Revokes(old(State()).live, old(revoked))
    {
      ghost var y := State();
      UpsertUsers(batch);
      UserBatchCommits(batchSize, y, batch, State());
    }

    method UpsertUsers(batch: seq<string>)
      requires Elements(batch) <= stage.users.Keys && Distinct(batch)
      modifies `users, `doneUsers, `userConflicts, `revoked
      ensures State() == ApplyUserBatch(old(State()), batch) && Revokes(old(State()).live, old(revoked))
    {
      ghost var y, was := State(), revoked;
      NobodyAffected(y.live, y.live);
      for i := 0 to |batch|
        invariant Elements(batch[..i]) <= y.stage.users.Keys && stage == y.stage
        invariant Upserted(y, was, batch[..i], State(), revoked)
      {
        NextInside(batch, i, y.stage.users.Keys);
        ghost var before, so := State(), revoked;
        UpsertUser(batch[i]);
        UpsertedGrows(y, was, batch[..i], before, so, batch[i], State(), revoked);
      }
      assert batch[..|batch|] == batch;
    }

    method UpsertUser(s: string)
      requires s in stage.users
      modifies `users, `doneUsers, `userConflicts, `revoked
      ensures State() == ApplyUser(old(State()), s) && Revokes(old(State()).live, old(revoked))
      ensures OnlyTouched(old(users), users, source, [s])
    {
      var own, staged := External(source, s), stage.users[s];
      if LiveEmailClash(users, own, staged) || LiveUsernameClash(users, own, staged) {
        NobodyAffected(State().live, State().live);
        userConflicts := userConflicts + {s};
      } else {
        WriteUser(own, staged);
      }
      doneUsers := doneUsers + {s};
    }

    method WriteUser(own: UserKey, staged: StagedUser)
      modifies `users, `revoked
      ensures users == old(users)[own := UserRowOf(staged, marker)] && Revokes(old(State()).live, old(revoked))
    {
      var row := UserRow(staged.username, staged.displayName, staged.email,
                         if staged.enabled then Active else Disabled, marker);
      AffectedByRow(State().live, own, row);
      if own in users && users[own].status != Disabled && !staged.enabled {
        revoked := revoked + {own};
      }
      users := users[own := row];
    }

    /** `applyOrganizations`: one batch of upserts, or the parents of all of them at once. */
    method ApplyOrgRows()
      requires batchSize >= 1 && phase == ApplyOrganizations && !completed
      modifies this
      ensures FullCommit(batchSize, old(State()), State()) && Revokes(old(State()).live, old(revoked))
    {
      var batch := FirstIds(stage.orgs.Keys - doneOrgs, batchSize);
      if batch == [] {
        LeaveOrgs();
      } else {
        CommitOrgs(batch);
      }
    }

    method LeaveOrgs()
      requires phase == ApplyOrganizations && !completed && stage.orgs.Keys - doneOrgs == {}
      modifies this
      ensures FullCommit(batchSize, old(State()), State()) && Revokes(old(State()).live, old(revoked))
    {
      ghost var y := State();
      LinkParents();
      OrgsDone(batchSize, y, State());
    }

    method CommitOrgs(batch: seq<string>)
      requires phase == ApplyOrganizations && !completed && batch != []
      requires FullBatch(batch, stage.orgs.Keys - doneOrgs, batchSize)
      modifies this
      ensures FullCommit(batchSize, old(State()), State()) && Revokes(old(State()).live, old(revoked))
    {
      ghost var y := State();
      UpsertOrgs(batch);
      OrgBatchCommits(batchSize, y, batch, State());
    }

    method UpsertOrgs(batch: seq<string>)
      requires Elements(batch) <= stage.orgs.Keys
      modifies `orgs, `doneOrgs
      ensures State() == ApplyOrgBatch(old(State()), batch) && Revokes(old(State()).live, old(revoked))
    {
      ghost var y := State();
      for i := 0 to |batch|
        invariant Elements(batch[..i]) <= y.stage.orgs.Keys && stage == y.stage
        invariant State() == ApplyOrgBatch(y, batch[..i])
        invariant Closed(y.live.orgs, orgs) == {}
      {
        NextInside(batch, i, y.stage.orgs.Keys);
        OrgBatchGrows(y, batch[..i], batch[i]);
        UpsertOrg(batch[i]);
      }
      assert batch[..|batch|] == batch;
      NobodyAffected(y.live, Live(users, orgs, members));
    }

    method UpsertOrg(e: string)
      requires e in stage.orgs
      modifies `orgs, `doneOrgs
      ensures State() == ApplyOrg(old(State()), e)
      ensures forall k :: k in old(orgs) ==> k in orgs && (orgs[k] == old(orgs)[k] || orgs[k].enabled)
    {
      var k := Directory(source, e);
      if k in orgs {
        orgs := orgs[k := orgs[k].(name := stage.orgs[e].name, enabled := true, run := marker)];
      } else {
        orgs := orgs[k := OrgRow(stage.orgs[e].name, None, true, marker)];
      }
      doneOrgs := doneOrgs + {e};
    }

    method LinkParents()
      modifies `orgs, `phase
      ensures Linked(old(State()), State())
    {
      ghost var y := State();
      var before := orgs;
      var rest := orgs.Keys;
      while rest != {}
        invariant rest <= before.Keys && orgs.Keys == before.Keys
        invariant forall k :: k in rest ==> orgs[k] == before[k]
        invariant forall k :: k in before && k !in rest ==> LinkedRow(y, k, before[k], orgs[k])
        decreases rest
      {
        var k :| k in rest;
        if k.Directory? && k.source == source && k.externalId in stage.orgs && k.externalId in doneOrgs
           && k.externalId !in orgConflicts {
          var parent := ChooseParent(before.Keys, k.externalId);
          orgs := orgs[k := orgs[k].(parent := parent)];
        }
        rest := rest - {k};
      }
      phase := ApplyMemberships;
    }

    method ChooseParent(present: set<OrgKey>, e: string) returns (parent: Option<OrgKey>)
      ensures match parent
              case None => forall p :: Relation(e, p) in stage.parents ==> Directory(source, p) !in present
              case Some(k) => k in present && k.Directory? && k.source == source
                              && Relation(e, k.externalId) in stage.parents
    {
      var found := set x | x in stage.parents && x.child == e && Directory(source, x.parent) in present;
      if found == {} {
        parent := None;
        forall p | Relation(e, p) in stage.parents
          ensures Directory(source, p) !in present
        {
          assert Relation(e, p) !in found;
        }
      } else {
        var x :| x in found;
        assert x == Relation(e, x.parent);
        parent := Some(Directory(source, x.parent));
      }
    }

    /**
     `applyMemberships`: a pair that does not resolve aborts the whole transaction, and so
     does a change after which no emergency administrator would be left, which `guard` decides.
     */
    method ApplyMemberRows(guard: Live -> bool) returns (ok: bool, ghost next: Sync)
      requires batchSize >= 1 && phase == ApplyMemberships && !completed
      modifies this
      ensures ok ==> State() == next && Revokes(old(State()).live, old(revoked))
      ensures !ok ==> State() == old(State()) && revoked == old(revoked)
      ensures ok || !Unresolved(old(State())) ==> FullCommit(batchSize, old(State()), next)
      ensures !Unresolved(old(State())) ==> (ok <==> !Refused(guard, old(State()), next))
      ensures ok ==> !Refused(guard, old(State()), next)
    {
      ghost var y := State();
      var batch := FirstPairs(stage.members - doneMembers, batchSize);
      if batch == [] {
        phase := Finalize;
        MembersDone(batchSize, y, State());
        return true, State();
      }
      ok := ApplyMembers(batch, guard);
      next := ApplyMemberBatch(y, batch);
      if forall m :: m in batch ==> Resolvable(y, m) {
        MemberBatchCommits(batchSize, y, batch, next);
      } else {
        var m :| m in batch && !Resolvable(y, m);
        assert m in Elements(batch);
      }
    }

    method ApplyMembers(batch: seq<Pair>, guard: Live -> bool) returns (ok: bool)
      modifies `members, `doneMembers, `revoked
      ensures var y, after := old(State()), ApplyMemberBatch(old(State()), batch);
              && (ok <==> (forall m :: m in batch ==> Resolvable(y, m)) && (after.live == y.live || guard(after.live)))
              && (ok ==> State() == after && Revokes(y.live, old(revoked)))
              && (!ok ==> State() == y && revoked == old(revoked))
    {
      ok := ResolveAll(batch);
      if !ok {
        return;
      }
      var rows, done, changed := AddMembers(batch);
      if changed != {} && !guard(Live(users, orgs, rows)) {
        return false;
      }
      members, doneMembers, revoked := rows, done, revoked + changed;
    }

    method AddMembers(batch: seq<Pair>) returns (rows: map<MemberKey, bool>, done: set<Pair>, changed: set<UserKey>)
      ensures Added(State(), batch, rows, done, changed)
    {
      ghost var y := State();
      rows, done, changed := members, doneMembers, {};
      NobodyAffected(y.live, y.live);
      for i := 0 to |batch|
        invariant Added(y, batch[..i], rows, done, changed)
      {
        assert batch[..i + 1] == batch[..i] + [batch[i]];
        AddedGrows(y, batch[..i], rows, done, changed, batch[i]);
        var k := MemberOf(source, batch[i]);
        if k !in rows || !rows[k] {
          rows := rows[k := true];
          changed := changed + {k.user};
        }
        done := done + {batch[i]};
      }
      assert batch[..|batch|] == batch;
    }

    method ResolveAll(batch: seq<Pair>) returns (ok: bool)
      ensures ok <==> forall m :: m in batch ==> Resolvable(State(), m)
    {
      for i := 0 to |batch|
        invariant forall j :: 0 <= j < i ==> Resolvable(State(), batch[j])
      {
        if Directory(source, batch[i].org) !in orgs || External(source, batch[i].user) !in users {
          assert batch[i] in batch && !Resolvable(State(), batch[i]);
          return false;
        }
      }
      ok := true;
    }

    /**
     `finalizeApply`: what this source no longer lists is disabled or removed, and the stage
     is dropped; a change that the guard refuses aborts the transaction.
     */
    method FinalizeApply(guard: Live -> bool) returns (ok: bool)
      requires phase == Finalize && !completed
      modifies this
      ensures var after := Finalized(old(State()));
              && (ok <==> after.live == old(State()).live || guard(after.live))
              && (ok ==> State() == after && Revokes(old(State()).live, old(revoked)))
              && (!ok ==> State() == old(State()) && revoked == old(revoked))
    {
      var after, hit, changes := MissingRows();
      if changes && !guard(after) {
        return false;
      }
      users, orgs, members, revoked := after.users, after.orgs, after.members, revoked + hit;
      completed, stage := true, Stage(map[], map[], {}, {});
      ok := true;
    }

    method MissingRows() returns (after: Live, hit: set<UserKey>, changes: bool)
      ensures after == Finalized(State()).live && hit == Affected(State().live, after)
      ensures changes <==> after != State().live
    {
      var newOrgs, closed := DisableMissingOrgs();
      var newUsers, disabled := DisableMissingUsers();
      var newMembers, ended := RemoveMissingMembers();
      after := Live(newUsers, newOrgs, newMembers);
      hit := disabled + UsersOf(ended) + UsersOf(Inside(newMembers, closed));
      changes := disabled != {} || closed != {} || ended != {};
      SameWhenNoneMissing(State(), after, disabled, closed, ended);
    }

    method DisableMissingUsers() returns (rows: map<UserKey, UserRow>, missing: set<UserKey>)
      ensures rows == FinalUsers(State()) && missing == NewlyDisabled(users, rows)
    {
      missing := set k | k in users && k.External? && k.source == source && k.subject !in stage.users
                         && users[k].status != Disabled && users[k].run != marker;
      rows := users;
      var rest := missing;
      while rest != {}
        invariant rest <= users.Keys && rows.Keys == users.Keys
        invariant forall k :: k in rest ==> FinalUsers(State())[k] == users[k].(status := Disabled)
        invariant forall k :: k in users && k !in rest ==> rows[k] == FinalUsers(State())[k]
        decreases rest
      {
        var k :| k in rest;
        rows := rows[k := users[k].(status := Disabled)];
        rest := rest - {k};
      }
    }

    method DisableMissingOrgs() returns (rows: map<OrgKey, OrgRow>, missing: set<OrgKey>)
      ensures rows == FinalOrgs(State()) && missing == Closed(orgs, rows)
    {
      missing := set k | k in orgs && k.Directory? && k.source == source && k.externalId !in stage.orgs
                         && orgs[k].enabled && orgs[k].run != marker;
      rows := orgs;
      var rest := missing;
      while rest != {}
        invariant rest <= orgs.Keys && rows.Keys == orgs.Keys
        invariant forall k :: k in rest ==> FinalOrgs(State())[k] == orgs[k].(enabled := false)
        invariant forall k :: k in orgs && k !in rest ==> rows[k] == FinalOrgs(State())[k]
        decreases rest
      {
        var k :| k in rest;
        rows := rows[k := orgs[k].(enabled := false)];
        rest := rest - {k};
      }
    }

    method RemoveMissingMembers() returns (rows: map<MemberKey, bool>, missing: set<MemberKey>)
      ensures rows == FinalMembers(State()) && missing == Switched(members, rows)
    {
      missing := set k | k in members && members[k] && k.sourceOwned
                         && k.org.Directory? && k.org.source == source && k.user.External? && k.user.source == source
                         && Pair(k.org.externalId, k.user.subject) !in stage.members;
      rows := members;
      var rest := missing;
      while rest != {}
        invariant rest <= members.Keys && rows.Keys == members.Keys
        invariant forall k :: k in rest ==> !FinalMembers(State())[k]
        invariant forall k :: k in members && k !in rest ==> rows[k] == FinalMembers(State())[k]
        decreases rest
      {
        var k :| k in rest;
        rows := rows[k := false];
        rest := rest - {k};
      }
    }

    /**
     `Advance`: a source that changed or a phase that aborts changes nothing, a finished job
     is returned as it is, and otherwise one phase step commits.
     */
    method AdvanceJob(sourceUnchanged: bool, guard: Live -> bool) returns (outcome: Outcome, ghost next: Sync)
      requires batchSize >= 1
      modifies this
      ensures outcome == SourceChanged <==> !sourceUnchanged
      ensures outcome != Committed ==> State() == old(State()) && revoked == old(revoked)
      ensures outcome == Committed && old(completed) ==> State() == old(State()) && revoked == old(revoked)
      ensures outcome == Committed && !old(completed) ==> State() == next && Revokes(old(State()).live, old(revoked))
      ensures sourceUnchanged && !old(completed) ==> Decides(batchSize, guard, old(State()), outcome, next)
    {
      if !sourceUnchanged {
        return SourceChanged, State();
      }
      if completed {
        return Committed, State();
      }
      var ok := true;
      match phase {
        case Prepare =>
          PreparePhase();
          next := State();
        case ApplyUsers =>
          ApplyUserRows();
          next := State();
        case ApplyOrganizations =>
          ApplyOrgRows();
          next := State();
        case ApplyMemberships =>
          ok, next := ApplyMemberRows(guard);
        case Finalize =>
          ok, next := FinalPhase(guard);
      }
      outcome := if ok then Committed else Aborted;
    }

    method PreparePhase()
      requires phase == Prepare && !completed
      modifies this
      ensures FullCommit(batchSize, old(State()), State()) && Revokes(old(State()).live, old(revoked))
    {
      var counts := PrepareSnapshot();
    }

    method FinalPhase(guard: Live -> bool) returns (ok: bool, ghost next: Sync)
      requires phase == Finalize && !completed
      modifies this
      ensures FullCommit(batchSize, old(State()), next) && (ok <==> !Refused(guard, old(State()), next))
      ensures ok ==> State() == next && Revokes(old(State()).live, old(revoked))
      ensures !ok ==> State() == old(State()) && revoked == old(revoked)
    {
      ghost var y := State();
      next := Finalized(y);
      assert Advance(y, next);
      ok := FinalizeApply(guard);
    }
  }

  datatype Outcome = Committed | SourceChanged | Aborted

  /** No user row differs but those of these subjects, and none is gone. */
  ghost predicate OnlyTouched(
    a: map<UserKey, UserRow>, b: map<UserKey, UserRow>, source: string, subjects: seq<string>) {
    && a.Keys <= b.Keys
    && forall k :: k in b && !(k.External? && k.source == source && k.subject in subjects) ==> k in a && b[k] == a[k]
  }

  lemma TouchedGrows(a: Live, b: Live, c: Live, source: string, subjects: seq<string>, s: string)
    requires s !in subjects && a.orgs == b.orgs == c.orgs && a.members == b.members == c.members
    requires OnlyTouched(a.users, b.users, source, subjects) && OnlyTouched(b.users, c.users, source, [s])
    ensures OnlyTouched(a.users, c.users, source, subjects + [s])
    ensures Affected(a, c) == Affected(a, b) + Affected(b, c)
  {
    var k := External(source, s);
    if k in c.users {
      AffectedByUser(a, b, c, k);
    } else {
      assert c.users == b.users;
      NobodyAffected(b, c);
    }
  }

  /** The state and the revocations once these users have been upserted. */
  ghost predicate Upserted(y: Sync, was: set<UserKey>, batch: seq<string>, z: Sync, revoked: set<UserKey>)
    requires Elements(batch) <= y.stage.users.Keys
  {
    && z == ApplyUserBatch(y, batch) && revoked == was + Affected(y.live, z.live)
    && OnlyTouched(y.live.users, z.live.users, y.source, batch) && SameBut(y, z)
  }

  ghost predicate SameBut(y: Sync, z: Sync) {
    z.source == y.source && z.stage == y.stage && z.live.orgs == y.live.orgs && z.live.members == y.live.members
  }

  lemma UpsertedGrows(
    y: Sync, was: set<UserKey>, batch: seq<string>, z: Sync, revoked: set<UserKey>, s: string, next: Sync,
    more: set<UserKey>)
    requires Elements(batch + [s]) <= y.stage.users.Keys && Elements(batch) <= y.stage.users.Keys && s !in batch
    requires Upserted(y, was, batch, z, revoked) && s in z.stage.users && next == ApplyUser(z, s)
    requires more == revoked + Affected(z.live, next.live) && OnlyTouched(z.live.users, next.live.users, z.source, [s])
    ensures Upserted(y, was, batch + [s], next, more)
  {
    UserBatchGrows(y, batch, s);
    TouchedGrows(y.live, z.live, next.live, y.source, batch, s);
  }

  /** The membership rows, the processed pairs and the users logged out once these pairs are active. */
  ghost predicate Added(y: Sync, batch: seq<Pair>, rows: map<MemberKey, bool>, done: set<Pair>, changed: set<UserKey>) {
    && ApplyMemberBatch(y, batch) == y.(live := y.live.(members := rows), doneMembers := done)
    && changed == Affected(y.live, y.live.(members := rows)) && (changed == {} <==> rows == y.live.members)
    && forall k :: Holds(y.live.members, k) ==> Holds(rows, k)
  }

  lemma AddedGrows(
    y: Sync, batch: seq<Pair>, rows: map<MemberKey, bool>, done: set<Pair>, changed: set<UserKey>, m: Pair)
    requires Added(y, batch, rows, done, changed)
    ensures var k := MemberOf(y.source, m);
            && Added(y, batch + [m], rows[k := true], done + {m}, changed + if Holds(rows, k) then {} else {k.user})
            && (Holds(rows, k) ==> rows[k := true] == rows)
  {
    var k := MemberOf(y.source, m);
    MemberBatchGrows(y, batch, m);
    AffectedByMember(y.live, y.live.(members := rows), k);
    if !Holds(rows, k) {
      assert !Holds(y.live.members, k) && Holds(rows[k := true], k);
    }
  }

  lemma UsersDone(n: nat, y: Sync, z: Sync)
    requires !y.completed && y.phase == ApplyUsers && y.stage.users.Keys - y.doneUsers == {}
    requires z == y.(phase := ApplyOrganizations)
    ensures FullCommit(n, y, z) && Affected(y.live, z.live) == {}
  {
    NothingLeft(y.stage.users.Keys, y.doneUsers);
    NobodyAffected(y.live, z.live);
  }

  lemma OrgsDone(n: nat, y: Sync, z: Sync)
    requires !y.completed && y.phase == ApplyOrganizations && y.stage.orgs.Keys - y.doneOrgs == {} && Linked(y, z)
    ensures FullCommit(n, y, z) && Affected(y.live, z.live) == {}
  {
    NothingLeft(y.stage.orgs.Keys, y.doneOrgs);
    NobodyAffected(y.live, z.live);
  }

  lemma MembersDone(n: nat, y: Sync, z: Sync)
    requires !y.completed && y.phase == ApplyMemberships && y.stage.members - y.doneMembers == {}
    requires z == y.(phase := Finalize)
    ensures FullCommit(n, y, z) && Affected(y.live, z.live) == {}
  {
    NothingLeft(y.stage.members, y.doneMembers);
    NobodyAffected(y.live, z.live);
  }

  lemma PrepareCommits(n: nat, y: Sync)
    requires !y.completed && y.phase == Prepare
    ensures FullCommit(n, y, Prepared(y)) && Affected(y.live, Prepared(y).live) == {}
  {
    NobodyAffected(y.live, y.live);
  }

  lemma UserBatchCommits(n: nat, y: Sync, batch: seq<string>, z: Sync)
    requires !y.completed && y.phase == ApplyUsers && batch != []
    requires FullBatch(batch, y.stage.users.Keys - y.doneUsers, n) && z == ApplyUserBatch(y, batch)
    ensures FullCommit(n, y, z)
  {
    UserBatchMarks(y, batch);
    FullBatchShrinks(batch, y.stage.users.Keys, y.doneUsers, n);
  }

  lemma OrgBatchCommits(n: nat, y: Sync, batch: seq<string>, z: Sync)
    requires !y.completed && y.phase == ApplyOrganizations && batch != []
    requires FullBatch(batch, y.stage.orgs.Keys - y.doneOrgs, n) && z == ApplyOrgBatch(y, batch)
    ensures FullCommit(n, y, z)
  {
    OrgBatchMarks(y, batch);
    FullBatchShrinks(batch, y.stage.orgs.Keys, y.doneOrgs, n);
  }

  lemma MemberBatchCommits(n: nat, y: Sync, batch: seq<Pair>, z: Sync)
    requires !y.completed && y.phase == ApplyMemberships && batch != []
    requires FullBatch(batch, y.stage.members - y.doneMembers, n) && forall m :: m in batch ==> Resolvable(y, m)
    requires z == ApplyMemberBatch(y, batch)
    ensures FullCommit(n, y, z)
  {
    MemberBatchMarks(y, batch);
    FullBatchShrinks(batch, y.stage.members, y.doneMembers, n);
  }

  /** A membership that is still to be applied has no organisation or no user. */
  ghost predicate Unresolved(y: Sync) {
    y.phase == ApplyMemberships && exists m :: m in y.stage.members - y.doneMembers && !Resolvable(y, m)
  }

  /** The guard is asked in the last two phases, about tables that changed, and rejects these. */
  ghost predicate Refused(guard: Live -> bool, y: Sync, z: Sync) {
    (y.phase == ApplyMemberships || y.phase == Finalize) && z.live != y.live && !guard(z.live)
  }

  /**
   What becomes of a transaction that would lead to `next`: it commits exactly if the guard
   does not refuse `next`, provided that the pending memberships resolve.
   */
  ghost predicate Decides(n: nat, guard: Live -> bool, y: Sync, outcome: Outcome, next: Sync) {
    && (outcome == Committed || !Unresolved(y) ==> FullCommit(n, y, next))
    && (outcome == Committed ==> !Refused(guard, y, next))
    && (!Unresolved(y) ==> (outcome == Committed <==> !Refused(guard, y, next)))
  }

  lemma SafeIsUnconflicted(y: Sync, safe: Safe, cu: set<string>, co: set<string>, skipped: set<Pair>)
    requires cu == ConflictedUsers(y) && co == ConflictedOrgs(y.stage) && skipped == y.stage.members - SafeMembers(y)
    requires safe == Safe(y.stage.users.Keys - cu, y.stage.orgs.Keys - co, y.stage.members - skipped)
    ensures safe == SafeRows(y)
  {
    assert safe.users == SafeUsers(y);
    assert safe.orgs == SafeOrgs(y);
    assert safe.members == SafeMembers(y);
  }

  lemma SameWhenNoneMissing(y: Sync, after: Live, disabled: set<UserKey>, closed: set<OrgKey>, ended: set<MemberKey>)
    requires after == Finalized(y).live && disabled == NewlyDisabled(y.live.users, after.users)
    requires closed == Closed(y.live.orgs, after.orgs) && ended == Switched(y.live.members, after.members)
    ensures disabled == {} && closed == {} && ended == {} <==> after == y.live
  {
    if disabled == {} && closed == {} && ended == {} {
      forall k | k in y.live.users
        ensures after.users[k] == y.live.users[k]
      {
        assert k !in disabled;
      }
      forall k | k in y.live.orgs
        ensures after.orgs[k] == y.live.orgs[k]
      {
        assert k !in closed;
      }
      forall k | k in y.live.members
        ensures after.members[k] == y.live.members[k]
      {
        assert k !in ended;
      }
      assert after.users == y.live.users && after.orgs == y.live.orgs && after.members == y.live.members;
    }
  }

  ghost predicate LinkedRow(y: Sync, k: OrgKey, before: OrgRow, after: OrgRow) {
    if Linkable(y, k)
    then after == before.(parent := after.parent) && ParentChoice(y, k.externalId, after.parent)
    else after == before
  }

  lemma SkippedAreUnsafe(y: Sync, skipped: set<Pair>, cu: set<string>, co: set<string>)
    requires cu == ConflictedUsers(y) && co == ConflictedOrgs(y.stage)
    requires skipped == set m | m in y.stage.members
                                && (m.org !in y.stage.orgs || m.user !in y.stage.users || m.org in co || m.user in cu)
    ensures skipped == y.stage.members - SafeMembers(y)
  {
    forall m | m in y.stage.members
      ensures m in skipped <==> !SafeMember(y, m)
    {
    }
  }
}
