/**
 The counts that `prepareSnapshot` shows before anything is applied, as differences
 between the live rows and what a complete apply makes of them.
 */
module DirectoryPreview {
  import opened DirectoryApply
  import opened DirectoryModel
  import opened DirectorySync
  import opened Wrappers

  datatype Counts = Counts(create: nat, update: nat, disable: nat)

  // ---- Differences between two states of the tables ----

  /** What the counts look at: the names, the address, and whether the user is active. */
  predicate SameUser(a: UserRow, b: UserRow) {
    && a.username == b.username && a.displayName == b.displayName && a.email == b.email
    && (a.status == Active <==> b.status == Active)
  }

  predicate SameOrg(a: OrgRow, b: OrgRow) {
    a.name == b.name && a.enabled == b.enabled
  }

  ghost predicate UserStaged(y: Sync, k: UserKey) {
    OwnUser(y, k) && k.subject in y.stage.users
  }

  ghost predicate OrgStaged(y: Sync, k: OrgKey) {
    OwnOrg(y, k) && k.externalId in y.stage.orgs
  }

  ghost predicate Gained(a: Live, b: Live, k: MemberKey) {
    Holds(b.members, k) && !Holds(a.members, k) && k.org in a.orgs && k.user in a.users
  }

  ghost function NewUsers(y: Sync, after: Live): set<UserKey> {
    after.users.Keys - y.live.users.Keys
  }

  ghost function NewOrgs(y: Sync, after: Live): set<OrgKey> {
    after.orgs.Keys - y.live.orgs.Keys
  }

  ghost function ChangedUsers(y: Sync, after: Live): set<UserKey> {
    set k | k in y.live.users && k in after.users && UserStaged(y, k) && !SameUser(y.live.users[k], after.users[k])
  }

  ghost function ChangedOrgs(y: Sync, after: Live): set<OrgKey> {
    set k | k in y.live.orgs && k in after.orgs && OrgStaged(y, k) && !SameOrg(y.live.orgs[k], after.orgs[k])
  }

  ghost function GainedMembers(y: Sync, after: Live): set<MemberKey> {
    set k | k in after.members && Gained(y.live, after, k)
  }

  ghost function LostUsers(y: Sync, after: Live): set<UserKey> {
    set k | k in y.live.users && k in after.users && y.live.users[k].status == Active
            && after.users[k].status == Disabled
  }

  ghost function LostOrgs(y: Sync, after: Live): set<OrgKey> {
    set k | k in y.live.orgs && k in after.orgs && y.live.orgs[k].enabled && !after.orgs[k].enabled
  }

  /**
   The rows that appear; the staged rows that change and the memberships gained between
   rows that are there already; and the active rows that are disabled.
   */
  ghost function Differences(y: Sync, after: Live): Counts {
    Counts(|NewUsers(y, after)| + |NewOrgs(y, after)|,
           |ChangedUsers(y, after)| + |ChangedOrgs(y, after)| + |GainedMembers(y, after)|,
           |LostUsers(y, after)| + |LostOrgs(y, after)|)
  }

  // ---- The counts as the query takes them ----

  /** `safe_users` and `safe_organizations` are the staged rows without a conflict. */
  datatype Safe = Safe(users: set<string>, orgs: set<string>, members: set<Pair>)

  ghost function SafeRows(y: Sync): Safe {
    Safe(SafeUsers(y), SafeOrgs(y), SafeMembers(y))
  }

  function UsersToCreate(y: Sync, safe: Safe): set<string> {
    set s | s in safe.users && External(y.source, s) !in y.live.users
  }

  function OrgsToCreate(y: Sync, safe: Safe): set<string> {
    set e | e in safe.orgs && Directory(y.source, e) !in y.live.orgs
  }

  predicate UserDiffers(row: UserRow, staged: StagedUser) {
    || row.username != staged.username || row.displayName != staged.displayName || row.email != staged.email
    || (row.status == Active) != staged.enabled
  }

  function UsersToUpdate(y: Sync, safe: Safe): set<string>
    requires safe.users <= y.stage.users.Keys
  {
    set s | s in safe.users && External(y.source, s) in y.live.users
            && UserDiffers(y.live.users[External(y.source, s)], y.stage.users[s])
  }

  function OrgsToUpdate(y: Sync, safe: Safe): set<string>
    requires safe.orgs <= y.stage.orgs.Keys
  {
    set e | e in safe.orgs && Directory(y.source, e) in y.live.orgs
            && (y.live.orgs[Directory(y.source, e)].name != y.stage.orgs[e].name
                || !y.live.orgs[Directory(y.source, e)].enabled)
  }

  function MembersToAdd(y: Sync, safe: Safe): set<Pair> {
    set m | m in safe.members && Resolvable(y, m)
            && !Holds(y.live.members, MemberOf(y.source, m))
  }

  function MissingActiveUsers(y: Sync): set<UserKey> {
    set k | k in y.live.users && MissingUser(y, k) && y.live.users[k].status == Active
  }

  function UsersToDisable(y: Sync, safe: Safe): set<string>
    requires safe.users <= y.stage.users.Keys
  {
    set s | s in safe.users && External(y.source, s) in y.live.users
            && y.live.users[External(y.source, s)].status == Active && !y.stage.users[s].enabled
  }

  function MissingEnabledOrgs(y: Sync): set<OrgKey> {
    set k | k in y.live.orgs && MissingOrg(y, k) && y.live.orgs[k].enabled
  }

  /** The three sums of the query. */
  function Counted(y: Sync, safe: Safe): Counts
    requires safe.users <= y.stage.users.Keys && safe.orgs <= y.stage.orgs.Keys
  {
    Counts(|UsersToCreate(y, safe)| + |OrgsToCreate(y, safe)|,
           |UsersToUpdate(y, safe)| + |OrgsToUpdate(y, safe)| + |MembersToAdd(y, safe)|,
           |MissingActiveUsers(y)| + |UsersToDisable(y, safe)| + |MissingEnabledOrgs(y)|)
  }

  // ---- Both are the same ----

  lemma {:induction false} ImageSize<A, B>(s: set<A>, t: set<B>, f: A -> B)
    requires forall x, z :: x in s && z in s && f(x) == f(z) ==> x == z
    requires forall x :: x in s ==> f(x) in t
    requires forall b :: b in t ==> exists x :: x in s && f(x) == b
    ensures |s| == |t|
    decreases s
  {
    if x :| x in s {
      forall b | b in t - {f(x)}
        ensures exists z :: z in s - {x} && f(z) == b
      {
        var z :| z in s && f(z) == b;
        assert z in s - {x};
      }
      ImageSize(s - {x}, t - {f(x)}, f);
    } else {
      assert t == {};
    }
  }

  lemma UserKeysMatch(y: Sync, subjects: set<string>, keys: set<UserKey>)
    requires forall k :: k in keys <==> OwnUser(y, k) && k.subject in subjects
    ensures |subjects| == |keys|
  {
    var f := (s: string) => External(y.source, s);
    forall k
      ensures k in keys <==> exists s :: s in subjects && f(s) == k
    {
      if k in keys {
        assert f(k.subject) == k;
      }
    }
    ImageSize(subjects, keys, f);
  }

  lemma OrgKeysMatch(y: Sync, ids: set<string>, keys: set<OrgKey>)
    requires forall k :: k in keys <==> OwnOrg(y, k) && k.externalId in ids
    ensures |ids| == |keys|
  {
    var f := (e: string) => Directory(y.source, e);
    forall k
      ensures k in keys <==> exists e :: e in ids && f(e) == k
    {
      if k in keys {
        assert f(k.externalId) == k;
      }
    }
    ImageSize(ids, keys, f);
  }

  // Row by row, what the tables are after a complete apply.

  /** A user: staged if safe, disabled if missing, as it was otherwise. */
  ghost function UserOutcome(y: Sync, k: UserKey): UserRow
    requires k in y.live.users || (OwnUser(y, k) && SafeUser(y, k.subject))
  {
    if OwnUser(y, k) && SafeUser(y, k.subject) then UserRowOf(y.stage.users[k.subject], y.marker)
    else if MissingUser(y, k) then y.live.users[k].(status := Disabled)
    else y.live.users[k]
  }

  ghost function OrgOutcome(y: Sync, k: OrgKey): OrgRow
    requires k in y.live.orgs || (OwnOrg(y, k) && SafeOrg(y, k.externalId))
  {
    if OwnOrg(y, k) && SafeOrg(y, k.externalId) then
      OrgRow(y.stage.orgs[k.externalId].name, StagedParent(y, k.externalId), true, y.marker)
    else if MissingOrg(y, k) then y.live.orgs[k].(enabled := false)
    else y.live.orgs[k]
  }

  ghost predicate UserAfter(y: Sync, after: Live, k: UserKey) {
    && (k in after.users <==> k in y.live.users || (OwnUser(y, k) && SafeUser(y, k.subject)))
    && (k in after.users ==> after.users[k] == UserOutcome(y, k))
  }

  ghost predicate OrgAfter(y: Sync, after: Live, k: OrgKey) {
    && (k in after.orgs <==> k in y.live.orgs || (OwnOrg(y, k) && SafeOrg(y, k.externalId)))
    && (k in after.orgs ==> after.orgs[k] == OrgOutcome(y, k))
  }

  ghost predicate Joins(y: Sync, k: MemberKey) {
    k.sourceOwned && OwnOrg(y, k.org) && OwnUser(y, k.user) && SafeMember(y, Pair(k.org.externalId, k.user.subject))
  }

  ghost predicate MemberAfter(y: Sync, after: Live, k: MemberKey) {
    Holds(after.members, k) <==> Joins(y, k) || (Holds(y.live.members, k) && !MissingMember(y, k))
  }

  ghost predicate Applied(y: Sync, after: Live) {
    && (forall k :: UserAfter(y, after, k)) && (forall k :: OrgAfter(y, after, k))
    && (forall k :: MemberAfter(y, after, k))
  }

  lemma SnapshotUser(y: Sync, k: UserKey)
    ensures UserAfter(y, Snapshot(y), k)
  {
    if OwnUser(y, k) && SafeUser(y, k.subject) {
      assert k.subject in SafeUsers(y) && k == External(y.source, k.subject);
    }
  }

  lemma SnapshotOrg(y: Sync, k: OrgKey)
    ensures OrgAfter(y, Snapshot(y), k)
  {
    if OwnOrg(y, k) && SafeOrg(y, k.externalId) {
      assert k.externalId in SafeOrgs(y) && k == Directory(y.source, k.externalId);
    }
  }

  lemma SnapshotMember(y: Sync, k: MemberKey)
    ensures MemberAfter(y, Snapshot(y), k)
  {
    if k.sourceOwned && OwnOrg(y, k.org) && OwnUser(y, k.user) {
      var m := Pair(k.org.externalId, k.user.subject);
      assert k == MemberOf(y.source, m);
      SnapshotMemberships(y, m);
    } else {
      assert forall m: Pair :: MemberOf(y.source, m) != k;
    }
  }

  lemma SnapshotIsApplied(y: Sync)
    ensures Applied(y, Snapshot(y))
  {
    forall k
      ensures UserAfter(y, Snapshot(y), k)
    {
      SnapshotUser(y, k);
    }
    forall k
      ensures OrgAfter(y, Snapshot(y), k)
    {
      SnapshotOrg(y, k);
    }
    forall k
      ensures MemberAfter(y, Snapshot(y), k)
    {
      SnapshotMember(y, k);
    }
  }

  lemma UserCounts(y: Sync, after: Live)
    requires Applied(y, after)
    ensures |UsersToCreate(y, SafeRows(y))| == |NewUsers(y, after)|
    ensures |UsersToUpdate(y, SafeRows(y))| == |ChangedUsers(y, after)|
  {
    forall k
      ensures k in NewUsers(y, after) <==> OwnUser(y, k) && k.subject in UsersToCreate(y, SafeRows(y))
      ensures k in ChangedUsers(y, after) <==> OwnUser(y, k) && k.subject in UsersToUpdate(y, SafeRows(y))
    {
      assert UserAfter(y, after, k);
    }
    UserKeysMatch(y, UsersToCreate(y, SafeRows(y)), NewUsers(y, after));
    UserKeysMatch(y, UsersToUpdate(y, SafeRows(y)), ChangedUsers(y, after));
  }

  lemma OrgCounts(y: Sync, after: Live)
    requires Applied(y, after)
    ensures |OrgsToCreate(y, SafeRows(y))| == |NewOrgs(y, after)|
    ensures |OrgsToUpdate(y, SafeRows(y))| == |ChangedOrgs(y, after)|
    ensures MissingEnabledOrgs(y) == LostOrgs(y, after)
  {
    forall k
      ensures k in NewOrgs(y, after) <==> OwnOrg(y, k) && k.externalId in OrgsToCreate(y, SafeRows(y))
      ensures k in ChangedOrgs(y, after) <==> OwnOrg(y, k) && k.externalId in OrgsToUpdate(y, SafeRows(y))
      ensures k in LostOrgs(y, after) <==> k in MissingEnabledOrgs(y)
    {
      assert OrgAfter(y, after, k);
    }
    OrgKeysMatch(y, OrgsToCreate(y, SafeRows(y)), NewOrgs(y, after));
    OrgKeysMatch(y, OrgsToUpdate(y, SafeRows(y)), ChangedOrgs(y, after));
  }

  /** Who loses access is either missing or staged as disabled, never both. */
  lemma LostUserCount(y: Sync, after: Live)
    requires Applied(y, after)
    ensures |MissingActiveUsers(y)| + |UsersToDisable(y, SafeRows(y))| == |LostUsers(y, after)|
  {
    var lost, missing := LostUsers(y, after), MissingActiveUsers(y);
    forall k
      ensures k in lost <==> k in missing || (OwnUser(y, k) && k.subject in UsersToDisable(y, SafeRows(y)))
    {
      assert UserAfter(y, after, k);
    }
    UserKeysMatch(y, UsersToDisable(y, SafeRows(y)), lost - missing);
    assert lost == (lost - missing) + missing;
  }

  lemma MemberCount(y: Sync, after: Live)
    requires Applied(y, after)
    ensures |MembersToAdd(y, SafeRows(y))| == |GainedMembers(y, after)|
  {
    var pairs, gained := MembersToAdd(y, SafeRows(y)), GainedMembers(y, after);
    var f := (m: Pair) => MemberOf(y.source, m);
    forall k | k in gained
      ensures exists m :: m in pairs && f(m) == k
    {
      assert MemberAfter(y, after, k);
      var m := Pair(k.org.externalId, k.user.subject);
      assert m in pairs && f(m) == k;
    }
    forall m | m in pairs
      ensures f(m) in gained
    {
      assert MemberAfter(y, after, f(m)) && Joins(y, f(m));
    }
    ImageSize(pairs, gained, f);
  }

  lemma CountsAreDifferences(y: Sync, after: Live)
    requires Applied(y, after)
    ensures Counted(y, SafeRows(y)) == Differences(y, after)
  {
    UserCounts(y, after);
    OrgCounts(y, after);
    LostUserCount(y, after);
    MemberCount(y, after);
  }

  /** The counts of the query are the differences that a complete apply makes. */
  lemma CountsArePredictions(y: Sync)
    ensures Counted(y, SafeRows(y)) == Differences(y, Snapshot(y))
  {
    SnapshotIsApplied(y);
    CountsAreDifferences(y, Snapshot(y));
  }

  /**
   What a preview shows is what an apply of the same stage does: in every completed run,
   whatever its batches, aborts and crashes, the live rows differ by exactly these counts.
   */
  lemma PreviewPredictsApply(preview: Sync, r: seq<Sync>)
    requires Run(r) && Ready(r[0]) && r[|r| - 1].completed
    requires preview == r[0].(mode := Preview, marker := preview.marker)
    ensures Counted(preview, SafeRows(preview)) == Differences(r[0], r[|r| - 1].live)
  {
    CompletedRunIsSnapshot(r);
    CountsArePredictions(r[0]);
    SameRows(preview, r[0]);
  }

  lemma SameRows(a: Sync, b: Sync)
    requires a == b.(mode := a.mode, marker := a.marker)
    ensures Counted(a, SafeRows(a)) == Counted(b, SafeRows(b))
  {
    assert forall s :: SafeUser(a, s) == SafeUser(b, s);
    assert SafeUsers(a) == SafeUsers(b) && SafeOrgs(a) == SafeOrgs(b);
    assert SafeMembers(a) == SafeMembers(b);
    var safe := SafeRows(b);
    assert UsersToCreate(a, safe) == UsersToCreate(b, safe) && OrgsToCreate(a, safe) == OrgsToCreate(b, safe);
    assert UsersToUpdate(a, safe) == UsersToUpdate(b, safe) && OrgsToUpdate(a, safe) == OrgsToUpdate(b, safe);
    assert MembersToAdd(a, safe) == MembersToAdd(b, safe);
    assert MissingActiveUsers(a) == MissingActiveUsers(b) && MissingEnabledOrgs(a) == MissingEnabledOrgs(b);
    assert UsersToDisable(a, safe) == UsersToDisable(b, safe);
  }

  // ---- What a preview without changes means ----

  /** Nothing the counts look at differs: no new row, no row that looks different, no membership gained. */
  ghost predicate LooksSame(a: Live, b: Live) {
    && b.users.Keys == a.users.Keys && b.orgs.Keys == a.orgs.Keys
    && (forall k :: k in a.users ==> SameUser(a.users[k], b.users[k]))
    && (forall k :: k in a.orgs ==> SameOrg(a.orgs[k], b.orgs[k]))
    && (forall k :: Holds(b.members, k) ==> Holds(a.members, k))
  }

  ghost predicate Quiet(c: Counts) {
    c == Counts(0, 0, 0)
  }

  lemma QuietMeansNone(y: Sync, after: Live)
    requires Quiet(Differences(y, after))
    ensures NewUsers(y, after) == {} && NewOrgs(y, after) == {} && GainedMembers(y, after) == {}
    ensures ChangedUsers(y, after) == {} && ChangedOrgs(y, after) == {}
    ensures LostUsers(y, after) == {} && LostOrgs(y, after) == {}
  {
  }

  lemma NoneMeansQuiet(y: Sync, after: Live)
    requires LooksSame(y.live, after)
    ensures Quiet(Differences(y, after))
  {
    assert NewUsers(y, after) == {} && NewOrgs(y, after) == {} && GainedMembers(y, after) == {};
    assert ChangedUsers(y, after) == {} && ChangedOrgs(y, after) == {};
    assert LostUsers(y, after) == {} && LostOrgs(y, after) == {};
  }

  lemma UsersLookSame(y: Sync, after: Live)
    requires Applied(y, after) && NewUsers(y, after) == {} && ChangedUsers(y, after) == {} && LostUsers(y, after) == {}
    ensures after.users.Keys == y.live.users.Keys
    ensures forall k :: k in y.live.users ==> SameUser(y.live.users[k], after.users[k])
  {
    forall k
      ensures k in after.users <==> k in y.live.users
      ensures k in y.live.users ==> SameUser(y.live.users[k], after.users[k])
    {
      assert UserAfter(y, after, k) && k !in NewUsers(y, after) && k !in ChangedUsers(y, after)
             && k !in LostUsers(y, after);
    }
  }

  lemma OrgsLookSame(y: Sync, after: Live)
    requires Applied(y, after) && NewOrgs(y, after) == {} && ChangedOrgs(y, after) == {} && LostOrgs(y, after) == {}
    ensures after.orgs.Keys == y.live.orgs.Keys
    ensures forall k :: k in y.live.orgs ==> SameOrg(y.live.orgs[k], after.orgs[k])
  {
    forall k
      ensures k in after.orgs <==> k in y.live.orgs
      ensures k in y.live.orgs ==> SameOrg(y.live.orgs[k], after.orgs[k])
    {
      assert OrgAfter(y, after, k) && k !in NewOrgs(y, after) && k !in ChangedOrgs(y, after)
             && k !in LostOrgs(y, after);
    }
  }

  lemma NobodyJoins(y: Sync, after: Live)
    requires Applied(y, after) && GainedMembers(y, after) == {}
    requires after.users.Keys == y.live.users.Keys && after.orgs.Keys == y.live.orgs.Keys
    ensures forall k :: Holds(after.members, k) ==> Holds(y.live.members, k)
  {
    forall k | Holds(after.members, k)
      ensures Holds(y.live.members, k)
    {
      assert MemberAfter(y, after, k) && UserAfter(y, after, k.user) && OrgAfter(y, after, k.org);
      assert k !in GainedMembers(y, after);
    }
  }

  /** A preview counts nothing exactly when the apply leaves everything looking as it does. */
  lemma QuietIffLooksSame(y: Sync)
    ensures Quiet(Counted(y, SafeRows(y))) <==> LooksSame(y.live, Snapshot(y))
  {
    SnapshotIsApplied(y);
    QuietIff(y, Snapshot(y));
  }

  lemma QuietIff(y: Sync, after: Live)
    requires Applied(y, after)
    ensures Quiet(Counted(y, SafeRows(y))) <==> LooksSame(y.live, after)
  {
    CountsAreDifferences(y, after);
    if Quiet(Differences(y, after)) {
      QuietMeansNone(y, after);
      UsersLookSame(y, after);
      OrgsLookSame(y, after);
      NobodyJoins(y, after);
    }
    if LooksSame(y.live, after) {
      NoneMeansQuiet(y, after);
    }
  }

  /** Nothing differs but the run markers. */
  ghost predicate Unchanged(a: Live, b: Live) {
    && b.users.Keys == a.users.Keys && b.orgs.Keys == a.orgs.Keys
    && (forall k :: k in a.users ==> b.users[k] == a.users[k].(run := b.users[k].run))
    && (forall k :: k in a.orgs ==> b.orgs[k] == a.orgs[k].(run := b.orgs[k].run))
    && (forall k :: Holds(b.members, k) <==> Holds(a.members, k))
  }

  /**
   The changes that no count covers: a membership that ends, an organisation that moves, a
   pending user that is disabled.
   */
  ghost predicate EndsMembership(y: Sync, k: MemberKey) {
    Holds(y.live.members, k) && MissingMember(y, k)
  }

  ghost predicate MovesOrg(y: Sync, k: OrgKey) {
    k in y.live.orgs && OwnOrg(y, k) && SafeOrg(y, k.externalId)
    && y.live.orgs[k].parent != StagedParent(y, k.externalId)
  }

  ghost predicate DisablesPending(y: Sync, k: UserKey) {
    && k in y.live.users && y.live.users[k].status == Pending
    && (MissingUser(y, k) || (OwnUser(y, k) && SafeUser(y, k.subject) && !y.stage.users[k.subject].enabled))
  }

  /**
   A preview that counts nothing announces an apply that changes nothing, unless one of the
   three uncounted changes is due.
   */
  lemma UnchangedIff(y: Sync)
    ensures Unchanged(y.live, Snapshot(y)) <==> Quiet(Counted(y, SafeRows(y))) && !HidesChange(y)
  {
    SnapshotIsApplied(y);
    QuietIff(y, Snapshot(y));
    SameIff(y, Snapshot(y));
  }

  ghost predicate HidesChange(y: Sync) {
    (exists k :: EndsMembership(y, k)) || (exists k :: MovesOrg(y, k)) || (exists k :: DisablesPending(y, k))
  }

  lemma SameIff(y: Sync, after: Live)
    requires Applied(y, after)
    ensures Unchanged(y.live, after) <==> LooksSame(y.live, after) && !HidesChange(y)
  {
    forall k | k in y.live.users
      ensures k in after.users
      ensures after.users[k] == y.live.users[k].(run := after.users[k].run) <==>
              SameUser(y.live.users[k], after.users[k]) && !DisablesPending(y, k)
    {
      assert UserAfter(y, after, k);
    }
    forall k | k in y.live.orgs
      ensures k in after.orgs
      ensures after.orgs[k] == y.live.orgs[k].(run := after.orgs[k].run) <==>
              SameOrg(y.live.orgs[k], after.orgs[k]) && !MovesOrg(y, k)
    {
      assert OrgAfter(y, after, k);
    }
    forall k | Holds(y.live.members, k)
      ensures Holds(after.members, k) <==> !EndsMembership(y, k)
    {
      assert MemberAfter(y, after, k);
    }
  }

  /** One user and one organisation as they are staged, and a membership between them that is not staged any more. */
  function LeavingMember(source: string, marker: string): Sync {
    var org, user := Directory(source, "o"), External(source, "u");
    Sync(source, marker, Preview, Prepare, false,
         Live(map[user := UserRow("name", "", "", Active, "")], map[org := OrgRow("unit", None, true, "")],
              map[Member(org, user, true) := true]),
         Stage(map["u" := StagedUser("name", "", "", true, 1)], map["o" := StagedOrg("unit", 1)], {}, {}),
         {}, {}, {}, {}, {})
  }

  /** Such a preview counts nothing, and yet its apply removes the membership. */
  lemma QuietPreviewCanHide(source: string, marker: string)
    ensures var y := LeavingMember(source, marker);
            Quiet(Counted(y, SafeRows(y))) && !Unchanged(y.live, Snapshot(y))
  {
    var y := LeavingMember(source, marker);
    var k := Member(Directory(source, "o"), External(source, "u"), true);
    assert EndsMembership(y, k);
    UnchangedIff(y);
    NothingToCount(y, SafeRows(y));
  }

  lemma NothingToCount(y: Sync, safe: Safe)
    requires y == LeavingMember(y.source, y.marker) && safe.users <= {"u"} && safe.orgs <= {"o"} && safe.members == {}
    ensures Quiet(Counted(y, safe))
  {
    assert UsersToCreate(y, safe) == {} && OrgsToCreate(y, safe) == {} && MembersToAdd(y, safe) == {};
    assert UsersToUpdate(y, safe) == {} && OrgsToUpdate(y, safe) == {};
    assert MissingActiveUsers(y) == {} && UsersToDisable(y, safe) == {} && MissingEnabledOrgs(y) == {};
  }
}
