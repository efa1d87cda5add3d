/**
 What a synchronisation does with every entry, read off the directory and the tables as they
 were: which users and groups are in dispute, and what becomes of the rest.
 */
module DirectoryOutcome {
  import opened DirectoryApply
  import opened DirectoryListing
  import opened DirectoryMirror
  import opened DirectoryModel
  import opened DirectorySync
  import opened Wrappers
  import Graph = OrganizationGraph
  import Paging = ScimPaging
  import Staging = DirectoryStaging
  import Strings

  // ---- Users in dispute ----

  predicate SameAddress(a: string, b: string) {
    a != "" && Strings.SameName(a, b)
  }

  ghost predicate ListedAgain(users: Items, s: string) {
    exists j, k :: j != k && IsUser(users, s, j) && IsUser(users, s, k)
  }

  ghost predicate ListsGroup(groups: Items, e: string) {
    exists k :: IsGroup(groups, e, k)
  }

  ghost predicate ListsUser(users: Items, s: string) {
    exists k :: IsUser(users, s, k)
  }

  /** Another listed user has the same address or name. */
  ghost predicate ClashesInDirectory(users: Items, s: string, u: Paging.UserItem) {
    exists t, j :: t != s && FirstUser(users, t, j)
                   && (SameAddress(u.email, users[j].user.email)
                       || Strings.SameName(u.username, users[j].user.username))
  }

  /** Another account in the tables has the same address or name. */
  ghost predicate ClashesInTables(y: Sync, s: string, u: Paging.UserItem) {
    exists q :: q in y.live.users && q != External(y.source, s)
                && (SameAddress(u.email, y.live.users[q].email)
                    || Strings.SameName(u.username, y.live.users[q].username))
  }

  ghost predicate UserDisputed(y: Sync, users: Items, groups: Items, s: string, u: Paging.UserItem) {
    ListedAgain(users, s) || ListsGroup(groups, s) || ClashesInDirectory(users, s, u) || ClashesInTables(y, s, u)
  }

  lemma ManyMeansTwo<T(!new)>(places: set<T>)
    ensures |places| > 1 <==> exists j, k :: j != k && j in places && k in places
  {
    if |places| > 1 {
      assert places != {};
      var j :| j in places;
      assert places - {j} != {};
      var k :| k in places - {j};
    }
    if j, k :| j != k && j in places && k in places {
      assert {j, k} <= places;
      Strings.SubsetSize({j, k}, places);
    }
  }

  lemma CountsMeanListedAgain(users: Items, s: string)
    ensures |UserPlaces(users, s)| > 1 <==> ListedAgain(users, s)
  {
    ManyMeansTwo(UserPlaces(users, s));
    forall k
      ensures k in UserPlaces(users, s) <==> IsUser(users, s, k)
    {
    }
  }

  lemma StagedClash(y: Sync, users: Items, groups: Items, s: string, k: int)
    requires Lists(y.stage, users, groups) && FirstUser(users, s, k)
    ensures StagedEmailClash(y, s) || StagedUsernameClash(y, s) <==> ClashesInDirectory(users, s, users[k].user)
  {
    var u := users[k].user;
    if StagedEmailClash(y, s) || StagedUsernameClash(y, s) {
      var t :| t in y.stage.users && t != s
               && ((y.stage.users[t].email != "" && Strings.Lower(y.stage.users[t].email) == Strings.Lower(u.email))
                   || Strings.Lower(y.stage.users[t].username) == Strings.Lower(u.username));
      var i :| IsUser(users, t, i);
      var j := FirstUserExists(users, t, i);
      Strings.SameNameMeansLower(u.email, users[j].user.email);
      Strings.SameNameMeansLower(u.username, users[j].user.username);
    }
    if t, j :| t != s && FirstUser(users, t, j)
               && (SameAddress(u.email, users[j].user.email) || Strings.SameName(u.username, users[j].user.username)) {
      Strings.SameNameMeansLower(u.email, users[j].user.email);
      Strings.SameNameMeansLower(u.username, users[j].user.username);
      assert t in y.stage.users && UserListed(y.stage.users[t], users, t, j);
    }
  }

  lemma LiveClash(y: Sync, s: string, u: Paging.UserItem, staged: StagedUser)
    requires staged.email == u.email && staged.username == u.username
    ensures ClashesInTables(y, s, u) <==>
            || LiveEmailClash(y.live.users, External(y.source, s), staged)
            || LiveUsernameClash(y.live.users, External(y.source, s), staged)
  {
    forall q | q in y.live.users
      ensures Strings.Lower(y.live.users[q].email) == Strings.Lower(u.email)
         <==> Strings.SameName(u.email, y.live.users[q].email)
      ensures Strings.Lower(y.live.users[q].username) == Strings.Lower(u.username)
         <==> Strings.SameName(u.username, y.live.users[q].username)
    {
      Strings.SameNameMeansLower(u.email, y.live.users[q].email);
      Strings.SameNameMeansLower(u.username, y.live.users[q].username);
    }
  }

  /** The discovered user conflicts are exactly the disputes. */
  lemma ConflictMeansDispute(y: Sync, users: Items, groups: Items, s: string, k: int)
    requires Lists(y.stage, users, groups) && FirstUser(users, s, k)
    ensures s in y.stage.users && (UserConflict(y, s) <==> UserDisputed(y, users, groups, s, users[k].user))
  {
    assert UserListed(y.stage.users[s], users, s, k);
    CountsMeanListedAgain(users, s);
    StagedClash(y, users, groups, s, k);
    LiveClash(y, s, users[k].user, y.stage.users[s]);
  }

  /** A listed user: left alone if in dispute, otherwise written as listed. */
  ghost predicate UserSettled(y: Sync, users: Items, groups: Items, s: string, u: Paging.UserItem, after: Live) {
    var own := External(y.source, s);
    if UserDisputed(y, users, groups, s, u)
    then (own in after.users <==> own in y.live.users)
         && (own in y.live.users ==> after.users[own] == y.live.users[own])
    else own in after.users
         && after.users[own]
            == UserRow(u.username, u.displayName, u.email, if u.enabled then Active else Disabled, y.marker)
  }

  lemma NotWritten(y: Sync, k: UserKey)
    requires k !in y.live.users && k in Snapshot(y).users
    ensures OwnUser(y, k) && SafeUser(y, k.subject)
  {
  }

  lemma UserIsSettled(y: Sync, users: Items, groups: Items, s: string, k: int)
    requires Lists(y.stage, users, groups) && FirstUser(users, s, k)
    ensures UserSettled(y, users, groups, s, users[k].user, Snapshot(y))
  {
    var own := External(y.source, s);
    ConflictMeansDispute(y, users, groups, s, k);
    if UserConflict(y, s) {
      SnapshotKeepsForeignRows(y);
      if own !in y.live.users && own in Snapshot(y).users {
        NotWritten(y, own);
      }
    } else {
      assert UserListed(y.stage.users[s], users, s, k);
      SnapshotOfOwnRows(y);
    }
  }

  // ---- Groups in dispute ----

  /** Each group of the chain is named by the next one as its child. */
  ghost predicate Climbs(groups: Items, chain: seq<string>) {
    forall i, j :: 0 <= i && j == i + 1 && j < |chain| ==> NamesChild(groups, chain[j], chain[i])
  }

  /** A chain of parents that leads back to where it started. */
  ghost predicate Loop(groups: Items, chain: seq<string>) {
    chain != [] && Climbs(groups, chain) && NamesChild(groups, chain[0], chain[|chain| - 1])
  }

  ghost predicate GroupListedAgain(groups: Items, e: string) {
    exists j, k :: j != k && IsGroup(groups, e, j) && IsGroup(groups, e, k)
  }

  /** Listed twice, listed as a user too, named by two parents, named without being listed, or its own ancestor. */
  ghost predicate Broken(users: Items, groups: Items, e: string) {
    || GroupListedAgain(groups, e)
    || (ListsUser(users, e) && ListsGroup(groups, e))
    || (exists p, q :: p != q && NamesChild(groups, p, e) && NamesChild(groups, q, e))
    || (!ListsGroup(groups, e) && exists p :: NamesChild(groups, p, e))
    || (exists chain :: Loop(groups, chain) && e in chain)
  }

  /** The group or one of its ancestors is broken. */
  ghost predicate GroupDisputed(users: Items, groups: Items, e: string) {
    exists chain :: chain != [] && chain[0] == e && Climbs(groups, chain) && Broken(users, groups, chain[|chain| - 1])
  }

  lemma CountsMeanGroupListedAgain(groups: Items, e: string)
    ensures |GroupPlaces(groups, e)| > 1 <==> GroupListedAgain(groups, e)
  {
    ManyMeansTwo(GroupPlaces(groups, e));
    forall k
      ensures k in GroupPlaces(groups, e) <==> IsGroup(groups, e, k)
    {
    }
  }

  lemma NamingParentIsListed(groups: Items, p: string, c: string)
    requires NamesChild(groups, p, c)
    ensures ListsGroup(groups, p)
  {
  }

  /** The local conflicts are the broken groups that are not so by their ancestry. */
  lemma LocalConflictMeans(stage: Stage, users: Items, groups: Items, e: string)
    requires Lists(stage, users, groups)
    ensures LocalOrgConflict(stage, e) <==>
            || GroupListedAgain(groups, e)
            || (ListsUser(users, e) && ListsGroup(groups, e))
            || (exists p, q :: p != q && NamesChild(groups, p, e) && NamesChild(groups, q, e))
            || (!ListsGroup(groups, e) && exists p :: NamesChild(groups, p, e))
  {
    CountsMeanGroupListedAgain(groups, e);
    forall p
      ensures Relation(e, p) in stage.parents ==> p in stage.orgs
    {
      if Relation(e, p) in stage.parents {
        NamingParentIsListed(groups, p, e);
      }
    }
    OccurrencesOfGroup(stage, users, groups, e);
  }

  lemma OccurrencesOfGroup(stage: Stage, users: Items, groups: Items, e: string)
    requires Lists(stage, users, groups)
    ensures e in stage.orgs && stage.orgs[e].occurrences > 1 <==> |GroupPlaces(groups, e)| > 1
  {
    if e in stage.orgs {
      var k :| IsGroup(groups, e, k);
      var first := FirstGroupExists(groups, e, k);
      assert GroupListed(stage.orgs[e], groups, e, first);
    } else {
      assert GroupPlaces(groups, e) == {};
    }
  }

  lemma EdgesMeanNames(stage: Stage, users: Items, groups: Items, c: string, p: string)
    requires Lists(stage, users, groups)
    ensures Graph.Edge(GraphOf(stage.parents), c, p) <==> NamesChild(groups, p, c)
  {
  }

  lemma WalksMeanClimbs(stage: Stage, users: Items, groups: Items, chain: seq<string>)
    requires Lists(stage, users, groups)
    ensures Graph.Walk(GraphOf(stage.parents), chain) <==> Climbs(groups, chain)
  {
    var g := GraphOf(stage.parents);
    forall c, p
      ensures Graph.Edge(g, c, p) <==> NamesChild(groups, p, c)
    {
      EdgesMeanNames(stage, users, groups, c, p);
    }
  }

  lemma CyclesMeanLoops(stage: Stage, users: Items, groups: Items, e: string)
    requires Lists(stage, users, groups)
    ensures Graph.OnCycle(GraphOf(stage.parents), e) <==> exists chain :: Loop(groups, chain) && e in chain
  {
    var g := GraphOf(stage.parents);
    forall chain | chain != []
      ensures Graph.ClosedWalk(g, chain) <==> Loop(groups, chain)
    {
      WalksMeanClimbs(stage, users, groups, chain);
      EdgesMeanNames(stage, users, groups, chain[|chain| - 1], chain[0]);
    }
    if chain :| Loop(groups, chain) && e in chain {
      assert Graph.ClosedWalk(g, chain);
    }
    if chain :| Graph.ClosedWalk(g, chain) && e in chain {
      assert Loop(groups, chain);
    }
  }

  lemma OnLoopIsNamed(groups: Items, chain: seq<string>, e: string)
    requires Loop(groups, chain) && e in chain
    ensures exists p :: NamesChild(groups, p, e)
  {
    var i :| 0 <= i < |chain| && chain[i] == e;
    var j := i + 1;
    assert j < |chain| ==> NamesChild(groups, chain[j], chain[i]);
  }

  lemma NamedIsChild(stage: Stage, users: Items, groups: Items, e: string)
    requires Lists(stage, users, groups)
    ensures e in Children(stage.parents) <==> exists p :: NamesChild(groups, p, e)
  {
    if p :| NamesChild(groups, p, e) {
      assert Relation(e, p) in stage.parents && Relation(e, p).child == e;
    }
    if e in Children(stage.parents) {
      var x :| x in stage.parents && x.child == e;
      assert x == Relation(e, x.parent);
    }
  }

  lemma TroubledMeansBroken(stage: Stage, users: Items, groups: Items, e: string)
    requires Lists(stage, users, groups)
    ensures e in Troubled(stage) <==> Broken(users, groups, e)
  {
    LocalConflictMeans(stage, users, groups, e);
    CyclesMeanLoops(stage, users, groups, e);
    NamedIsChild(stage, users, groups, e);
    if chain :| Loop(groups, chain) && e in chain {
      OnLoopIsNamed(groups, chain, e);
    }
  }

  /** The discovered organisation conflicts are exactly the disputes. */
  lemma OrgConflictMeansDispute(stage: Stage, users: Items, groups: Items, e: string)
    requires Lists(stage, users, groups)
    ensures OrgConflict(stage, e) <==> GroupDisputed(users, groups, e)
  {
    var g := GraphOf(stage.parents);
    if OrgConflict(stage, e) {
      var w, m :| m in Troubled(stage) && Graph.WalkFromTo(g, w, e, m);
      WalksMeanClimbs(stage, users, groups, w);
      TroubledMeansBroken(stage, users, groups, m);
    }
    if w :| w != [] && w[0] == e && Climbs(groups, w) && Broken(users, groups, w[|w| - 1]) {
      WalksMeanClimbs(stage, users, groups, w);
      TroubledMeansBroken(stage, users, groups, w[|w| - 1]);
      assert Graph.WalkFromTo(g, w, e, w[|w| - 1]);
    }
  }

  /** The parent is the group that names this one, and none if no group does. */
  ghost predicate ParentIs(groups: Items, source: string, e: string, parent: Option<OrgKey>) {
    && (forall p :: NamesChild(groups, p, e) ==> parent == Some(Directory(source, p)))
    && ((forall p :: !NamesChild(groups, p, e)) ==> parent == None)
  }

  /** A listed group: left alone if in dispute, otherwise written with its listed name and parent. */
  ghost predicate GroupSettled(y: Sync, users: Items, groups: Items, e: string, name: string, after: Live) {
    var own := Directory(y.source, e);
    if GroupDisputed(users, groups, e)
    then (own in after.orgs <==> own in y.live.orgs)
         && (own in y.live.orgs ==> after.orgs[own] == y.live.orgs[own])
    else && own in after.orgs && after.orgs[own] == OrgRow(name, after.orgs[own].parent, true, y.marker)
         && ParentIs(groups, y.source, e, after.orgs[own].parent)
  }

  lemma StagedParentIsNamed(y: Sync, users: Items, groups: Items, e: string)
    requires Lists(y.stage, users, groups) && SafeOrg(y, e)
    ensures ParentIs(groups, y.source, e, StagedParent(y, e))
  {
    forall p | NamesChild(groups, p, e)
      ensures StagedParent(y, e) == Some(Directory(y.source, p))
    {
      assert Relation(e, p) in y.stage.parents;
      SafeParent(y, e, p);
    }
  }

  lemma NotWrittenGroup(y: Sync, k: OrgKey)
    requires k !in y.live.orgs && k in Snapshot(y).orgs
    ensures OwnOrg(y, k) && SafeOrg(y, k.externalId)
  {
  }

  lemma GroupIsSettled(y: Sync, users: Items, groups: Items, e: string, k: int)
    requires Lists(y.stage, users, groups) && FirstGroup(groups, e, k)
    ensures GroupSettled(y, users, groups, e, groups[k].name, Snapshot(y))
  {
    var own := Directory(y.source, e);
    OrgConflictMeansDispute(y.stage, users, groups, e);
    if OrgConflict(y.stage, e) {
      SnapshotKeepsForeignRows(y);
      if own !in y.live.orgs && own in Snapshot(y).orgs {
        NotWrittenGroup(y, own);
      }
    } else {
      assert GroupListed(y.stage.orgs[e], groups, e, k);
      StagedParentIsNamed(y, users, groups, e);
      SnapshotOfOwnRows(y);
    }
  }

  // ---- Memberships ----

  ghost predicate UserWritten(y: Sync, users: Items, groups: Items, s: string) {
    exists k :: FirstUser(users, s, k) && !UserDisputed(y, users, groups, s, users[k].user)
  }

  ghost predicate GroupWritten(users: Items, groups: Items, e: string) {
    ListsGroup(groups, e) && !GroupDisputed(users, groups, e)
  }

  lemma SafeMeansWritten(y: Sync, users: Items, groups: Items, s: string)
    requires Lists(y.stage, users, groups)
    ensures SafeUser(y, s) <==> UserWritten(y, users, groups, s)
  {
    if s in y.stage.users {
      var i :| IsUser(users, s, i);
      var k := FirstUserExists(users, s, i);
      ConflictMeansDispute(y, users, groups, s, k);
      assert forall j :: FirstUser(users, s, j) ==> j == k;
    }
  }

  /** A membership of this source ends active if it is named and its two sides are written, or it was active before. */
  ghost predicate PairSettled(y: Sync, users: Items, groups: Items, o: string, u: string, after: Live) {
    var k := Member(Directory(y.source, o), External(y.source, u), true);
    Holds(after.members, k) <==>
    && NamesUser(groups, o, u)
    && ((GroupWritten(users, groups, o) && UserWritten(y, users, groups, u)) || Holds(y.live.members, k))
  }

  lemma PairIsSettled(y: Sync, users: Items, groups: Items, o: string, u: string)
    requires Lists(y.stage, users, groups)
    ensures PairSettled(y, users, groups, o, u, Snapshot(y))
  {
    var m := Pair(o, u);
    SnapshotMemberships(y, m);
    SafeMeansWritten(y, users, groups, u);
    OrgConflictMeansDispute(y.stage, users, groups, o);
  }

  // ---- Rows the directory does not list ----

  ghost predicate OwnPair(y: Sync, k: MemberKey) {
    k.sourceOwned && OwnOrg(y, k.org) && OwnUser(y, k.user)
  }

  /** Own rows that are not listed are disabled; rows of other sources and of the platform stay. */
  ghost predicate RestSettled(y: Sync, users: Items, groups: Items, after: Live) {
    && (forall k :: k in y.live.users && !(OwnUser(y, k) && ListsUser(users, k.subject)) ==>
                      k in after.users
                      && after.users[k] == if OwnUser(y, k) then y.live.users[k].(status := Disabled)
                                           else y.live.users[k])
    && (forall k :: k in y.live.orgs && !(OwnOrg(y, k) && ListsGroup(groups, k.externalId)) ==>
                      k in after.orgs
                      && after.orgs[k] == if OwnOrg(y, k) then y.live.orgs[k].(enabled := false) else y.live.orgs[k])
    && (forall k :: !OwnPair(y, k) ==> (Holds(after.members, k) <==> Holds(y.live.members, k)))
  }

  /** Nothing appears in the tables but what the directory lists. */
  ghost predicate NothingElse(y: Sync, users: Items, groups: Items, after: Live) {
    && (forall k :: k in after.users && k !in y.live.users ==> OwnUser(y, k) && ListsUser(users, k.subject))
    && (forall k :: k in after.orgs && k !in y.live.orgs ==> OwnOrg(y, k) && ListsGroup(groups, k.externalId))
  }

  lemma ForeignMembership(y: Sync, k: MemberKey)
    requires !OwnPair(y, k)
    ensures Holds(Snapshot(y).members, k) <==> Holds(y.live.members, k)
  {
    assert forall m: Pair :: MemberOf(y.source, m) != k;
  }

  lemma RestIsSettled(y: Sync, users: Items, groups: Items)
    requires Lists(y.stage, users, groups)
    ensures RestSettled(y, users, groups, Snapshot(y))
  {
    SnapshotKeepsForeignRows(y);
    SnapshotOfOwnRows(y);
    assert forall s :: s in y.stage.users <==> ListsUser(users, s);
    assert forall e :: e in y.stage.orgs <==> ListsGroup(groups, e);
    forall k | !OwnPair(y, k)
      ensures Holds(Snapshot(y).members, k) <==> Holds(y.live.members, k)
    {
      ForeignMembership(y, k);
    }
  }

  lemma NothingElseAppears(y: Sync, users: Items, groups: Items)
    requires Lists(y.stage, users, groups)
    ensures NothingElse(y, users, groups, Snapshot(y))
  {
    forall k | k in Snapshot(y).users && k !in y.live.users
      ensures OwnUser(y, k) && ListsUser(users, k.subject)
    {
      NotWritten(y, k);
    }
    forall k | k in Snapshot(y).orgs && k !in y.live.orgs
      ensures OwnOrg(y, k) && ListsGroup(groups, k.externalId)
    {
      NotWrittenGroup(y, k);
    }
  }

  // ---- Everything ----

  ghost predicate Settled(y: Sync, users: Items, groups: Items, after: Live) {
    && (forall s, k :: FirstUser(users, s, k) ==> UserSettled(y, users, groups, s, users[k].user, after))
    && (forall e, k :: FirstGroup(groups, e, k) ==> GroupSettled(y, users, groups, e, groups[k].name, after))
    && (forall o, u :: PairSettled(y, users, groups, o, u, after))
    && RestSettled(y, users, groups, after) && NothingElse(y, users, groups, after)
  }

  /**
   The whole way, entry by entry: fetching an unchanging directory and applying what was
   staged leaves every user, group and membership as the directory and the old tables say.
   */
  lemma EveryEntryIsSettled(c: Paging.Config, jobs: seq<Staging.Job>, users: Items, groups: Items, r: seq<Sync>)
    requires FetchedAll(c, jobs, users, groups) && AppliedAll(r, jobs[|jobs| - 1].stage)
    ensures Settled(r[0], users, groups, r[|r| - 1].live)
  {
    Staging.StageIsDirectory(c, jobs, users, groups);
    CompletedRunIsSnapshot(r);
    SnapshotIsSettled(r[0], users, groups);
  }

  lemma SnapshotIsSettled(y: Sync, users: Items, groups: Items)
    requires Lists(y.stage, users, groups)
    ensures Settled(y, users, groups, Snapshot(y))
  {
    forall s, k | FirstUser(users, s, k)
      ensures UserSettled(y, users, groups, s, users[k].user, Snapshot(y))
    {
      UserIsSettled(y, users, groups, s, k);
    }
    forall e, k | FirstGroup(groups, e, k)
      ensures GroupSettled(y, users, groups, e, groups[k].name, Snapshot(y))
    {
      GroupIsSettled(y, users, groups, e, k);
    }
    forall o, u
      ensures PairSettled(y, users, groups, o, u, Snapshot(y))
    {
      PairIsSettled(y, users, groups, o, u);
    }
    RestIsSettled(y, users, groups);
    NothingElseAppears(y, users, groups);
  }
}
