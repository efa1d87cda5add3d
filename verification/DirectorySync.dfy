/**
 The apply phases as steps over values, the declarative snapshot they are meant to
 reach, and the invariant that leads there.
 */
module DirectorySync {
  import opened Wrappers
  import opened Strings
  import opened DirectoryModel
  import Graph = OrganizationGraph

  // ---- Conflicts, as the discovery queries define them ----

  predicate StagedEmailClash(y: Sync, s: string)
    requires s in y.stage.users
  {
    exists t :: t in y.stage.users && t != s && y.stage.users[t].email != ""
                && Lower(y.stage.users[t].email) == Lower(y.stage.users[s].email)
  }

  predicate StagedUsernameClash(y: Sync, s: string)
    requires s in y.stage.users
  {
    exists t :: t in y.stage.users && t != s && Lower(y.stage.users[t].username) == Lower(y.stage.users[s].username)
  }

  predicate LiveEmailClash(users: map<UserKey, UserRow>, own: UserKey, staged: StagedUser) {
    staged.email != "" && exists k :: k in users && k != own && Lower(users[k].email) == Lower(staged.email)
  }

  predicate LiveUsernameClash(users: map<UserKey, UserRow>, own: UserKey, staged: StagedUser) {
    exists k :: k in users && k != own && Lower(users[k].username) == Lower(staged.username)
  }

  predicate UserConflict(y: Sync, s: string)
    requires s in y.stage.users
  {
    var own := External(y.source, s);
    || y.stage.users[s].occurrences > 1
    || StagedEmailClash(y, s) || LiveEmailClash(y.live.users, own, y.stage.users[s])
    || StagedUsernameClash(y, s) || LiveUsernameClash(y.live.users, own, y.stage.users[s])
    || s in y.stage.orgs
  }

  ghost predicate SafeUser(y: Sync, s: string) {
    s in y.stage.users && !UserConflict(y, s)
  }

  ghost function ParentsOf(parents: set<Relation>, child: string): set<string> {
    set x | x in parents && x.child == child :: x.parent
  }

  ghost function Children(parents: set<Relation>): set<string> {
    set x | x in parents :: x.child
  }

  /** The staged parent rows as the child-to-parents map that the cycle search walks. */
  ghost function GraphOf(parents: set<Relation>): (g: Graph.Graph)
    ensures forall c, p :: Graph.Edge(g, c, p) <==> Relation(c, p) in parents
  {
    var g := map c | c in Children(parents) :: Listing(ParentsOf(parents, c));
    assert forall c, p :: Graph.Edge(g, c, p) <==> Relation(c, p) in parents by {
      forall c, p
        ensures Graph.Edge(g, c, p) <==> Relation(c, p) in parents
      {
        if Relation(c, p) in parents {
          assert Relation(c, p).child in Children(parents);
          assert p in ParentsOf(parents, c);
          assert p in Elements(g[c]);
        }
        if Graph.Edge(g, c, p) {
          assert p in Elements(g[c]);
        }
      }
    }
    g
  }

  /** The organisation conflicts that are found without looking at the shape of the hierarchy. */
  ghost predicate LocalOrgConflict(stage: Stage, e: string) {
    || (e in stage.orgs && stage.orgs[e].occurrences > 1)
    || (e in stage.users && e in stage.orgs)
    || (exists p, q :: p != q && Relation(e, p) in stage.parents && Relation(e, q) in stage.parents)
    || (exists p :: Relation(e, p) in stage.parents && (e !in stage.orgs || p !in stage.orgs))
  }

  ghost function Troubled(stage: Stage): set<string> {
    set e | e in stage.orgs.Keys + Children(stage.parents)
            && (LocalOrgConflict(stage, e) || Graph.OnCycle(GraphOf(stage.parents), e))
  }

  /** Some chain of staged parents leads to an organisation that is itself in conflict or on a cycle. */
  ghost predicate OrgConflict(stage: Stage, e: string) {
    Graph.UpwardInto(GraphOf(stage.parents), e, Troubled(stage))
  }

  ghost predicate SafeOrg(y: Sync, e: string) {
    e in y.stage.orgs && !OrgConflict(y.stage, e)
  }

  ghost predicate SafeMember(y: Sync, m: Pair) {
    m in y.stage.members && SafeOrg(y, m.org) && SafeUser(y, m.user)
  }

  lemma TroubledIsConflict(stage: Stage, e: string)
    requires e in Troubled(stage)
    ensures OrgConflict(stage, e)
  {
    assert Graph.WalkFromTo(GraphOf(stage.parents), [e], e, e);
  }

  /** A safe organisation has at most one staged parent, and that parent is staged and safe. */
  lemma SafeParent(y: Sync, e: string, p: string)
    requires SafeOrg(y, e) && Relation(e, p) in y.stage.parents
    ensures SafeOrg(y, p)
    ensures forall q :: Relation(e, q) in y.stage.parents ==> q == p
  {
    var g := GraphOf(y.stage.parents);
    if LocalOrgConflict(y.stage, e) {
      TroubledIsConflict(y.stage, e);
    }
    if OrgConflict(y.stage, p) {
      var w, m :| m in Troubled(y.stage) && Graph.WalkFromTo(g, w, p, m);
      assert Graph.Edge(g, e, p);
      Graph.WalkStep(g, e, p, w, m);
    }
  }

  lemma SafeIsOffCycle(y: Sync, e: string)
    requires SafeOrg(y, e)
    ensures !Graph.OnCycle(GraphOf(y.stage.parents), e)
  {
    if Graph.OnCycle(GraphOf(y.stage.parents), e) {
      TroubledIsConflict(y.stage, e);
    }
  }

  // ---- The declarative snapshot ----

  function UserRowOf(staged: StagedUser, marker: string): UserRow {
    UserRow(staged.username, staged.displayName, staged.email, if staged.enabled then Active else Disabled, marker)
  }

  ghost predicate OwnUser(y: Sync, k: UserKey) {
    k.External? && k.source == y.source
  }

  ghost predicate OwnOrg(y: Sync, k: OrgKey) {
    k.Directory? && k.source == y.source
  }

  /** The users of `y` once the safe users in `done` carry their staged values. */
  ghost function UsersWith(y: Sync, done: set<string>): map<UserKey, UserRow>
    requires done <= SafeUsers(y)
  {
    map k | k in y.live.users.Keys + (set s | s in done :: External(y.source, s)) ::
      if OwnUser(y, k) && k.subject in done then UserRowOf(y.stage.users[k.subject], y.marker) else y.live.users[k]
  }

  ghost function StagedParent(y: Sync, e: string): Option<OrgKey> {
    if exists p :: Relation(e, p) in y.stage.parents
    then var p :| Relation(e, p) in y.stage.parents; Some(Directory(y.source, p))
    else None
  }

  ghost function OldParent(y: Sync, k: OrgKey): Option<OrgKey> {
    if k in y.live.orgs then y.live.orgs[k].parent else None
  }

  /**
   The organisations of `y` once the safe ones in `done` are upserted; `linked` says
   whether their parents are set too.
   */
  ghost function OrgsWith(y: Sync, done: set<string>, linked: bool): map<OrgKey, OrgRow>
    requires done <= SafeOrgs(y)
  {
    map k | k in y.live.orgs.Keys + (set e | e in done :: Directory(y.source, e)) ::
      if OwnOrg(y, k) && k.externalId in done
      then OrgRow(y.stage.orgs[k.externalId].name, if linked then StagedParent(y, k.externalId) else OldParent(y, k),
                  true, y.marker)
      else y.live.orgs[k]
  }

  predicate Holds(members: map<MemberKey, bool>, k: MemberKey) {
    k in members && members[k]
  }

  function MemberOf(source: string, m: Pair): MemberKey {
    Member(Directory(source, m.org), External(source, m.user), true)
  }

  ghost function MembersWith(y: Sync, done: set<Pair>): map<MemberKey, bool> {
    map k | k in y.live.members.Keys + (set m | m in done :: MemberOf(y.source, m)) ::
      if exists m :: m in done && k == MemberOf(y.source, m) then true else y.live.members[k]
  }

  ghost function SafeUsers(y: Sync): set<string> {
    set s | s in y.stage.users && SafeUser(y, s)
  }

  ghost function SafeOrgs(y: Sync): set<string> {
    set e | e in y.stage.orgs && SafeOrg(y, e)
  }

  ghost function SafeMembers(y: Sync): set<Pair> {
    set m | m in y.stage.members && SafeMember(y, m)
  }

  predicate MissingUser(y: Sync, k: UserKey) {
    k.External? && k.source == y.source && k.subject !in y.stage.users
  }

  predicate MissingOrg(y: Sync, k: OrgKey) {
    k.Directory? && k.source == y.source && k.externalId !in y.stage.orgs
  }

  predicate MissingMember(y: Sync, k: MemberKey) {
    && k.sourceOwned
    && k.org.Directory? && k.org.source == y.source
    && k.user.External? && k.user.source == y.source
    && Pair(k.org.externalId, k.user.subject) !in y.stage.members
  }

  /**
   What one complete synchronisation means: safe staged rows take their staged
   values, rows of this source that are not staged are disabled or removed,
   everything else stays.
   */
  ghost function Snapshot(y: Sync): Live {
    var users := UsersWith(y, SafeUsers(y));
    var orgs := OrgsWith(y, SafeOrgs(y), true);
    var members := MembersWith(y, SafeMembers(y));
    Live(
      map k | k in users :: if MissingUser(y, k) then users[k].(status := Disabled) else users[k],
      map k | k in orgs :: if MissingOrg(y, k) then orgs[k].(enabled := false) else orgs[k],
      map k | k in members :: members[k] && !MissingMember(y, k))
  }

  // ---- The steps: one committed transaction each ----

  ghost function ConflictedUsers(y: Sync): set<string> {
    set s | s in y.stage.users && UserConflict(y, s)
  }

  ghost function ConflictedOrgs(stage: Stage): set<string> {
    set e | e in stage.orgs.Keys + Children(stage.parents) && OrgConflict(stage, e)
  }

  /** Conflicts are recorded in either mode; a preview ends here and drops its stage. */
  ghost function Prepared(y: Sync): Sync {
    var found := y.(userConflicts := ConflictedUsers(y), orgConflicts := ConflictedOrgs(y.stage));
    if y.mode == Preview then
      found.(completed := true, stage := Stage(map[], map[], {}, {}))
    else
      found.(phase := ApplyUsers,
      doneUsers := ConflictedUsers(y), doneOrgs := y.stage.orgs.Keys * ConflictedOrgs(y.stage),
      doneMembers := y.stage.members - SafeMembers(y))
  }

  /** One staged user: a mapping conflict that appeared since the preparation skips the row. */
  function ApplyUser(y: Sync, s: string): Sync
    requires s in y.stage.users
  {
    var own, staged := External(y.source, s), y.stage.users[s];
    if LiveEmailClash(y.live.users, own, staged) || LiveUsernameClash(y.live.users, own, staged) then
      y.(userConflicts := y.userConflicts + {s}, doneUsers := y.doneUsers + {s})
    else
      y.(live := y.live.(users := y.live.users[own := UserRowOf(staged, y.marker)]), doneUsers := y.doneUsers + {s})
  }

  function ApplyUserBatch(y: Sync, batch: seq<string>): (z: Sync)
    requires Elements(batch) <= y.stage.users.Keys
    ensures z.stage == y.stage
    decreases |batch|
  {
    if batch == [] then y
    else
      assert batch[0] in Elements(batch) && Elements(batch[1..]) <= Elements(batch);
      ApplyUserBatch(ApplyUser(y, batch[0]), batch[1..])
  }

  /** One staged organisation; its parent is linked only when all of them are there. */
  function ApplyOrg(y: Sync, e: string): Sync
    requires e in y.stage.orgs
  {
    var k := Directory(y.source, e);
    var parent := if k in y.live.orgs then y.live.orgs[k].parent else None;
    y.(live := y.live.(orgs := y.live.orgs[k := OrgRow(y.stage.orgs[e].name, parent, true, y.marker)]),
    doneOrgs := y.doneOrgs + {e})
  }

  function ApplyOrgBatch(y: Sync, batch: seq<string>): (z: Sync)
    requires Elements(batch) <= y.stage.orgs.Keys
    ensures z.stage == y.stage
    decreases |batch|
  {
    if batch == [] then y
    else
      assert batch[0] in Elements(batch) && Elements(batch[1..]) <= Elements(batch);
      ApplyOrgBatch(ApplyOrg(y, batch[0]), batch[1..])
  }

  predicate Linkable(y: Sync, k: OrgKey) {
    && k.Directory? && k.source == y.source
    && k.externalId in y.stage.orgs && k.externalId in y.doneOrgs && k.externalId !in y.orgConflicts
  }

  /** `LIMIT 1` leaves open which of several parent rows is taken. */
  ghost predicate ParentChoice(y: Sync, e: string, choice: Option<OrgKey>) {
    match choice
    case None => forall p :: Relation(e, p) in y.stage.parents ==> Directory(y.source, p) !in y.live.orgs
    case Some(k) => k in y.live.orgs && k.Directory? && k.source == y.source
                    && Relation(e, k.externalId) in y.stage.parents
  }

  ghost predicate Linked(y: Sync, z: Sync) {
    && z == y.(phase := ApplyMemberships, live := y.live.(orgs := z.live.orgs))
    && z.live.orgs.Keys == y.live.orgs.Keys
    && forall k :: k in y.live.orgs ==>
                     if Linkable(y, k)
                     then z.live.orgs[k] == y.live.orgs[k].(parent := z.live.orgs[k].parent)
                          && ParentChoice(y, k.externalId, z.live.orgs[k].parent)
                     else z.live.orgs[k] == y.live.orgs[k]
  }

  function ApplyMember(y: Sync, m: Pair): Sync {
    y.(live := y.live.(members := y.live.members[MemberOf(y.source, m) := true]), doneMembers := y.doneMembers + {m})
  }

  function ApplyMemberBatch(y: Sync, batch: seq<Pair>): Sync
    decreases |batch|
  {
    if batch == [] then y else ApplyMemberBatch(ApplyMember(y, batch[0]), batch[1..])
  }

  predicate Resolvable(y: Sync, m: Pair) {
    Directory(y.source, m.org) in y.live.orgs && External(y.source, m.user) in y.live.users
  }

  function FinalUsers(y: Sync): map<UserKey, UserRow> {
    map k | k in y.live.users ::
      if MissingUser(y, k) && y.live.users[k].status != Disabled && y.live.users[k].run != y.marker
      then y.live.users[k].(status := Disabled) else y.live.users[k]
  }

  function FinalOrgs(y: Sync): map<OrgKey, OrgRow> {
    map k | k in y.live.orgs ::
      if MissingOrg(y, k) && y.live.orgs[k].enabled && y.live.orgs[k].run != y.marker
      then y.live.orgs[k].(enabled := false) else y.live.orgs[k]
  }

  function FinalMembers(y: Sync): map<MemberKey, bool> {
    map k | k in y.live.members :: y.live.members[k] && !MissingMember(y, k)
  }

  function Finalized(y: Sync): Sync {
    y.(completed := true, live := Live(FinalUsers(y), FinalOrgs(y), FinalMembers(y)),
    stage := Stage(map[], map[], {}, {}))
  }

  /** One `Advance` that commits, for every batch size and every choice of rows. */
  ghost predicate Advance(y: Sync, z: Sync) {
    && !y.completed
    && match y.phase
       case Prepare => z == Prepared(y)
       case ApplyUsers =>
         || (y.stage.users.Keys <= y.doneUsers && z == y.(phase := ApplyOrganizations))
         || exists batch :: batch != [] && Elements(batch) <= y.stage.users.Keys - y.doneUsers
                            && z == ApplyUserBatch(y, batch)
       case ApplyOrganizations =>
         || (y.stage.orgs.Keys <= y.doneOrgs && Linked(y, z))
         || exists batch :: batch != [] && Elements(batch) <= y.stage.orgs.Keys - y.doneOrgs
                            && z == ApplyOrgBatch(y, batch)
       case ApplyMemberships =>
         || (y.stage.members <= y.doneMembers && z == y.(phase := Finalize))
         || exists batch :: batch != [] && Elements(batch) <= y.stage.members - y.doneMembers
                            && (forall m :: m in batch ==> Resolvable(y, m)) && z == ApplyMemberBatch(y, batch)
       case Finalize => z == Finalized(y)
  }

  /** A transaction that fails, or a worker that crashes, leaves the tables alone. */
  ghost predicate Step(y: Sync, z: Sync) {
    z == y || Advance(y, z)
  }

  ghost predicate StepAt(r: seq<Sync>, i: nat)
    requires 0 < i < |r|
  {
    Step(r[i - 1], r[i])
  }

  ghost predicate Run(r: seq<Sync>) {
    r != [] && forall i :: 0 < i < |r| ==> StepAt(r, i)
  }

  lemma Stepped(r: seq<Sync>, h: nat, i: nat)
    requires Run(r) && h + 1 == i < |r|
    ensures Step(r[h], r[i])
  {
    assert StepAt(r, i);
  }

  /** A staged job that is to be applied. */
  ghost predicate Ready(y: Sync) {
    y.mode == Apply && Staged(y)
  }

  /** A staged job: nothing processed, and its run marker is new. */
  ghost predicate Staged(y: Sync) {
    && y.phase == Prepare && !y.completed
    && y.doneUsers == {} && y.doneOrgs == {} && y.doneMembers == {} && y.userConflicts == {} && y.orgConflicts == {}
    && (forall k :: k in y.live.users ==> y.live.users[k].run != y.marker)
    && (forall k :: k in y.live.orgs ==> y.live.orgs[k].run != y.marker)
  }

  // ---- The invariant of a run ----

  ghost predicate SameJob(y0: Sync, y: Sync) {
    && y.source == y0.source && y.marker == y0.marker && y.mode == y0.mode && y.stage == y0.stage
    && y.userConflicts == ConflictedUsers(y0) && y.orgConflicts == ConflictedOrgs(y0.stage)
    && ConflictedUsers(y0) <= y.doneUsers <= y0.stage.users.Keys
    && y0.stage.orgs.Keys * ConflictedOrgs(y0.stage) <= y.doneOrgs <= y0.stage.orgs.Keys
    && y0.stage.members - SafeMembers(y0) <= y.doneMembers <= y0.stage.members
  }

  ghost predicate Between(y0: Sync, y: Sync) {
    && SameJob(y0, y)
    && y.live.users == UsersWith(y0, y.doneUsers * SafeUsers(y0))
    && y.live.orgs == OrgsWith(y0, y.doneOrgs * SafeOrgs(y0), y.phase == ApplyMemberships || y.phase == Finalize)
    && y.live.members == MembersWith(y0, y.doneMembers * SafeMembers(y0))
    && (y.phase != ApplyUsers ==> y0.stage.users.Keys <= y.doneUsers)
    && (y.phase == ApplyMemberships || y.phase == Finalize ==> y0.stage.orgs.Keys <= y.doneOrgs)
    && (y.phase == Finalize ==> y0.stage.members <= y.doneMembers)
  }

  ghost predicate RunInvariant(y0: Sync, y: Sync) {
    || y == y0
    || (!y.completed && y.phase != Prepare && Between(y0, y))
    || (y.completed && y.live == Snapshot(y0))
  }
}
