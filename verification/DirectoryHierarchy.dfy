/**
 Two facts about every state of an apply run: the live parent links stay free of
 cycles, and each committed transaction uses up part of a finite amount of work.
 */
module DirectoryHierarchy {
  import opened Wrappers
  import opened Strings
  import opened DirectoryModel
  import opened DirectorySync
  import opened DirectoryApply
  import Graph = OrganizationGraph

  predicate Up(orgs: map<OrgKey, OrgRow>, k: OrgKey, p: OrgKey) {
    k in orgs && orgs[k].parent == Some(p)
  }

  ghost predicate ParentLoop(orgs: map<OrgKey, OrgRow>, c: seq<OrgKey>) {
    && c != []
    && (forall i, j :: 0 <= i && j == i + 1 && j < |c| ==> Up(orgs, c[i], c[j]))
    && Up(orgs, c[|c| - 1], c[0])
  }

  ghost predicate Acyclic(orgs: map<OrgKey, OrgRow>) {
    forall c :: !ParentLoop(orgs, c)
  }

  lemma SameLinksSameLoops(before: map<OrgKey, OrgRow>, after: map<OrgKey, OrgRow>, c: seq<OrgKey>)
    requires ParentLoop(after, c)
    requires forall i, p :: 0 <= i < |c| && Up(after, c[i], p) ==> Up(before, c[i], p)
    ensures ParentLoop(before, c)
  {
    forall i, j | 0 <= i && j == i + 1 && j < |c|
      ensures Up(before, c[i], c[j])
    {
      assert Up(after, c[i], c[j]);
    }
  }

  ghost predicate InSafePart(y0: Sync, k: OrgKey) {
    OwnOrg(y0, k) && k.externalId in SafeOrgs(y0)
  }

  /** A linked safe organisation points only at another safe organisation, along a staged edge. */
  lemma SafeLink(y0: Sync, k: OrgKey, p: OrgKey)
    requires InSafePart(y0, k) && Up(OrgsWith(y0, SafeOrgs(y0), true), k, p)
    ensures InSafePart(y0, p) && Graph.Edge(GraphOf(y0.stage.parents), k.externalId, p.externalId)
  {
    assert StagedParent(y0, k.externalId) == Some(p);
    SafeParent(y0, k.externalId, p.externalId);
  }

  lemma {:induction false} StretchInside(orgs: map<OrgKey, OrgRow>, inside: set<OrgKey>, c: seq<OrgKey>, i: nat, j: nat)
    requires ParentLoop(orgs, c) && i <= j < |c| && c[i] in inside
    requires forall k, p :: k in inside && Up(orgs, k, p) ==> p in inside
    ensures c[j] in inside
    decreases j
  {
    if i < j {
      StretchInside(orgs, inside, c, i, j - 1);
      assert Up(orgs, c[j - 1], c[j]);
    }
  }

  /** From a safe organisation, the links of a loop stay among safe organisations. */
  lemma SafeStretch(y0: Sync, c: seq<OrgKey>, i: nat, j: nat)
    requires ParentLoop(OrgsWith(y0, SafeOrgs(y0), true), c) && i <= j < |c| && InSafePart(y0, c[i])
    ensures InSafePart(y0, c[j])
  {
    var orgs := OrgsWith(y0, SafeOrgs(y0), true);
    var inside := set e | e in SafeOrgs(y0) :: Directory(y0.source, e);
    forall k, p | k in inside && Up(orgs, k, p)
      ensures p in inside
    {
      SafeLink(y0, k, p);
    }
    StretchInside(orgs, inside, c, i, j);
  }

  function Ids(c: seq<OrgKey>): seq<string> {
    seq(|c|, i requires 0 <= i < |c| => if c[i].Directory? then c[i].externalId else "")
  }

  /** A loop that starts in the safe part lies in it, so it is a cycle of staged parents. */
  lemma LoopInSafePart(y0: Sync, c: seq<OrgKey>)
    requires ParentLoop(OrgsWith(y0, SafeOrgs(y0), true), c) && InSafePart(y0, c[0])
    ensures Graph.OnCycle(GraphOf(y0.stage.parents), c[0].externalId)
  {
    var g, ids := GraphOf(y0.stage.parents), Ids(c);
    forall i, j | 0 <= i && j == i + 1 && j < |ids|
      ensures Graph.Edge(g, ids[i], ids[j])
    {
      SafeStretch(y0, c, 0, i);
      SafeLink(y0, c[i], c[j]);
    }
    SafeStretch(y0, c, 0, |c| - 1);
    SafeLink(y0, c[|c| - 1], c[0]);
    assert Graph.ClosedWalk(g, ids) && ids[0] in ids;
  }

  lemma LinkedAcyclic(y0: Sync)
    requires Acyclic(y0.live.orgs)
    ensures Acyclic(OrgsWith(y0, SafeOrgs(y0), true))
  {
    var orgs := OrgsWith(y0, SafeOrgs(y0), true);
    forall c: seq<OrgKey> | ParentLoop(orgs, c)
      ensures false
    {
      if i :| 0 <= i < |c| && InSafePart(y0, c[i]) {
        SafeStretch(y0, c, i, |c| - 1);
        SafeLink(y0, c[|c| - 1], c[0]);
        LoopInSafePart(y0, c);
        SafeIsOffCycle(y0, c[0].externalId);
      } else {
        SameLinksSameLoops(y0.live.orgs, orgs, c);
      }
    }
  }

  lemma UnlinkedAcyclic(y0: Sync, done: set<string>)
    requires Acyclic(y0.live.orgs) && done <= SafeOrgs(y0)
    ensures Acyclic(OrgsWith(y0, done, false))
  {
    forall c: seq<OrgKey> | ParentLoop(OrgsWith(y0, done, false), c)
      ensures false
    {
      SameLinksSameLoops(y0.live.orgs, OrgsWith(y0, done, false), c);
    }
  }

  lemma SnapshotAcyclic(y0: Sync)
    requires Acyclic(y0.live.orgs)
    ensures Acyclic(Snapshot(y0).orgs)
  {
    LinkedAcyclic(y0);
    forall c: seq<OrgKey> | ParentLoop(Snapshot(y0).orgs, c)
      ensures false
    {
      SameLinksSameLoops(OrgsWith(y0, SafeOrgs(y0), true), Snapshot(y0).orgs, c);
    }
  }

  /** The live hierarchy is acyclic in every state of a run that starts from an acyclic one. */
  lemma HierarchyStaysAcyclic(r: seq<Sync>, i: nat)
    requires Run(r) && Ready(r[0]) && i < |r| && Acyclic(r[0].live.orgs)
    ensures Acyclic(r[i].live.orgs)
  {
    var y0, y := r[0], r[i];
    RunKeeps(r, i);
    if y.completed {
      SnapshotAcyclic(y0);
    } else if y != y0 {
      var done := y.doneOrgs * SafeOrgs(y0);
      if y.phase == ApplyMemberships || y.phase == Finalize {
        assert done == SafeOrgs(y0);
        LinkedAcyclic(y0);
      } else {
        UnlinkedAcyclic(y0, done);
      }
    }
  }

  // ---- Progress ----

  function PhasesLeft(p: Phase): nat {
    match p
    case Prepare => 5
    case ApplyUsers => 4
    case ApplyOrganizations => 3
    case ApplyMemberships => 2
    case Finalize => 1
  }

  /** The phases still to pass and the staged rows still to process. */
  function Work(y: Sync): nat {
    if y.completed then 0
    else PhasesLeft(y.phase) + RowsLeft(y.stage, y.doneUsers, y.doneOrgs, y.doneMembers)
  }

  function RowsLeft(stage: Stage, users: set<string>, orgs: set<string>, members: set<Pair>): nat {
    |stage.users.Keys - users| + |stage.orgs.Keys - orgs| + |stage.members - members|
  }

  lemma BatchShrinks<T>(all: set<T>, done: set<T>, batch: seq<T>)
    requires batch != [] && Elements(batch) <= all - done
    ensures |all - (done + Elements(batch))| < |all - done|
  {
    assert batch[0] in Elements(batch);
    SubsetSize(all - (done + Elements(batch)), all - done);
  }

  /** Nothing is processed before the conflicts are known. */
  ghost predicate Orderly(y: Sync) {
    y.phase == Prepare ==> y.doneUsers == {} && y.doneOrgs == {} && y.doneMembers == {}
  }

  lemma FewerRowsLeft(stage: Stage, users: set<string>, orgs: set<string>, members: set<Pair>)
    ensures RowsLeft(stage, users, orgs, members) <= RowsLeft(stage, {}, {}, {})
  {
    SubsetSize(stage.users.Keys - users, stage.users.Keys - {});
    SubsetSize(stage.orgs.Keys - orgs, stage.orgs.Keys - {});
    SubsetSize(stage.members - members, stage.members - {});
  }

  /** The preparation ends a preview, and otherwise moves on with some rows marked. */
  lemma PrepareDoesWork(y: Sync, z: Sync)
    requires !y.completed && y.doneUsers == {} && y.doneOrgs == {} && y.doneMembers == {}
    requires z.completed || (z.stage == y.stage && PhasesLeft(z.phase) < PhasesLeft(y.phase))
    ensures Work(z) < Work(y)
  {
    FewerRowsLeft(y.stage, z.doneUsers, z.doneOrgs, z.doneMembers);
  }

  /** A batch marks exactly its own rows as processed, whatever it does to the live ones. */
  lemma {:induction false} UserBatchMarks(y: Sync, batch: seq<string>)
    requires Elements(batch) <= y.stage.users.Keys
    ensures var z := ApplyUserBatch(y, batch);
            z == y.(live := z.live, userConflicts := z.userConflicts, doneUsers := y.doneUsers + Elements(batch))
    decreases |batch|
  {
    if batch != [] {
      assert batch == [batch[0]] + batch[1..];
      assert Elements(batch) == {batch[0]} + Elements(batch[1..]);
      UserBatchMarks(ApplyUser(y, batch[0]), batch[1..]);
    }
  }

  lemma {:induction false} OrgBatchMarks(y: Sync, batch: seq<string>)
    requires Elements(batch) <= y.stage.orgs.Keys
    ensures var z := ApplyOrgBatch(y, batch);
            z == y.(live := z.live, doneOrgs := y.doneOrgs + Elements(batch))
    decreases |batch|
  {
    if batch != [] {
      assert batch == [batch[0]] + batch[1..];
      assert Elements(batch) == {batch[0]} + Elements(batch[1..]);
      OrgBatchMarks(ApplyOrg(y, batch[0]), batch[1..]);
    }
  }

  lemma {:induction false} MemberBatchMarks(y: Sync, batch: seq<Pair>)
    ensures var z := ApplyMemberBatch(y, batch);
            z == y.(live := z.live, doneMembers := y.doneMembers + Elements(batch))
    decreases |batch|
  {
    if batch != [] {
      assert batch == [batch[0]] + batch[1..];
      assert Elements(batch) == {batch[0]} + Elements(batch[1..]);
      MemberBatchMarks(ApplyMember(y, batch[0]), batch[1..]);
    }
  }

  /** Passing to a later phase, whatever happens to the live rows. */
  lemma PhaseDoesWork(y: Sync, z: Sync, next: Phase)
    requires z == y.(phase := next, live := z.live) && !y.completed && PhasesLeft(next) < PhasesLeft(y.phase)
    ensures Work(z) < Work(y)
  {
  }

  lemma UserStepDoesWork(y: Sync, z: Sync)
    requires y.phase == ApplyUsers && Advance(y, z)
    ensures Work(z) < Work(y) && z.phase != Prepare
  {
    if z == y.(phase := ApplyOrganizations) {
      PhaseDoesWork(y, z, z.phase);
    } else {
      var batch :| batch != [] && Elements(batch) <= y.stage.users.Keys - y.doneUsers && z == ApplyUserBatch(y, batch);
      UserBatchMarks(y, batch);
      BatchShrinks(y.stage.users.Keys, y.doneUsers, batch);
    }
  }

  lemma OrgStepDoesWork(y: Sync, z: Sync)
    requires y.phase == ApplyOrganizations && Advance(y, z)
    ensures Work(z) < Work(y) && z.phase != Prepare
  {
    if z == y.(phase := ApplyMemberships, live := z.live) {
      PhaseDoesWork(y, z, z.phase);
    } else {
      var batch :| batch != [] && Elements(batch) <= y.stage.orgs.Keys - y.doneOrgs && z == ApplyOrgBatch(y, batch);
      OrgBatchMarks(y, batch);
      BatchShrinks(y.stage.orgs.Keys, y.doneOrgs, batch);
    }
  }

  lemma MemberStepDoesWork(y: Sync, z: Sync)
    requires y.phase == ApplyMemberships && Advance(y, z)
    ensures Work(z) < Work(y) && z.phase != Prepare
  {
    if z == y.(phase := Finalize) {
      PhaseDoesWork(y, z, z.phase);
    } else {
      var batch :| batch != [] && Elements(batch) <= y.stage.members - y.doneMembers && z == ApplyMemberBatch(y, batch);
      MemberBatchMarks(y, batch);
      BatchShrinks(y.stage.members, y.doneMembers, batch);
    }
  }

  /** Every committed transaction does some of the remaining work. */
  lemma AdvanceDoesWork(y: Sync, z: Sync)
    requires Orderly(y) && Advance(y, z)
    ensures Work(z) < Work(y) && Orderly(z)
  {
    match y.phase
    case Prepare => PrepareDoesWork(y, z);
    case ApplyUsers => UserStepDoesWork(y, z);
    case ApplyOrganizations => OrgStepDoesWork(y, z);
    case ApplyMemberships => MemberStepDoesWork(y, z);
    case Finalize =>
  }

  /** How many of the first `i` steps committed something. */
  function Commits(r: seq<Sync>, i: nat): nat
    requires i < |r|
  {
    if i == 0 then 0 else Commits(r, i - 1) + if r[i] == r[i - 1] then 0 else 1
  }

  /** A job whose snapshot is staged and of which nothing has been processed, in either mode. */
  ghost predicate Fresh(y: Sync) {
    y.phase == Prepare && !y.completed && Orderly(y)
  }

  lemma WorkAtStart(y: Sync)
    requires Fresh(y)
    ensures Work(y) == 5 + |y.stage.users| + |y.stage.orgs| + |y.stage.members|
  {
    assert y.stage.users.Keys - y.doneUsers == y.stage.users.Keys;
    assert y.stage.orgs.Keys - y.doneOrgs == y.stage.orgs.Keys;
    assert y.stage.members - y.doneMembers == y.stage.members;
    assert |y.stage.users| == |y.stage.users.Keys| && |y.stage.orgs| == |y.stage.orgs.Keys|;
  }

  lemma StepDoesWork(r: seq<Sync>, i: nat)
    requires Run(r) && 0 < i < |r| && Orderly(r[i - 1])
    ensures r[i] != r[i - 1] ==> Work(r[i]) < Work(r[i - 1])
    ensures Orderly(r[i])
  {
    assert StepAt(r, i);
    if r[i] != r[i - 1] {
      AdvanceDoesWork(r[i - 1], r[i]);
    }
  }

  lemma {:induction false} CommitsDoWork(r: seq<Sync>, i: nat)
    requires Run(r) && Orderly(r[0]) && i < |r|
    ensures Commits(r, i) + Work(r[i]) <= Work(r[0]) && Orderly(r[i])
  {
    if i > 0 {
      CommitsDoWork(r, i - 1);
      StepDoesWork(r, i);
    }
  }

  /** A run commits at most one transaction per staged row and phase. */
  lemma CommitsAreBounded(r: seq<Sync>, i: nat)
    requires Run(r) && Fresh(r[0]) && i < |r|
    ensures Commits(r, i) + Work(r[i]) <= 5 + |r[0].stage.users| + |r[0].stage.orgs| + |r[0].stage.members|
  {
    CommitsDoWork(r, i);
    WorkAtStart(r[0]);
  }
}
