/**
 Every completed run of the apply phases equals the declarative snapshot, for all
 batch sizes, row orders, aborted transactions and crashes.
 */
module DirectoryApply {
  import opened Wrappers
  import opened Strings
  import opened DirectoryModel
  import opened DirectorySync

  // ---- Users ----

  /** Applying safe users never makes another safe user ambiguous. */
  lemma NoLateConflict(y0: Sync, done: set<string>, s: string)
    requires SafeUser(y0, s) && done <= SafeUsers(y0)
    ensures !LiveEmailClash(UsersWith(y0, done), External(y0.source, s), y0.stage.users[s])
    ensures !LiveUsernameClash(UsersWith(y0, done), External(y0.source, s), y0.stage.users[s])
  {
    var users, own, staged := UsersWith(y0, done), External(y0.source, s), y0.stage.users[s];
    forall k | k in users && k != own
      ensures Lower(users[k].username) != Lower(staged.username)
      ensures staged.email != "" ==> Lower(users[k].email) != Lower(staged.email)
    {
      if OwnUser(y0, k) && k.subject in done {
        assert k.subject != s && k.subject in y0.stage.users;
        if y0.stage.users[k.subject].email == "" && staged.email != "" {
          assert |Lower("")| == 0 && |Lower(staged.email)| == |staged.email|;
        }
      } else {
        assert k in y0.live.users;
      }
    }
  }

  lemma UsersWithGrows(y0: Sync, done: set<string>, s: string)
    requires s in SafeUsers(y0) && done <= SafeUsers(y0)
    ensures UsersWith(y0, done)[External(y0.source, s) := UserRowOf(y0.stage.users[s], y0.marker)]
         == UsersWith(y0, done + {s})
  {
    var left := UsersWith(y0, done)[External(y0.source, s) := UserRowOf(y0.stage.users[s], y0.marker)];
    var right := UsersWith(y0, done + {s});
    forall k
      ensures k in left <==> k in right
      ensures k in left ==> left[k] == right[k]
    {
    }
  }

  lemma UserKeeps(y0: Sync, y: Sync, s: string)
    requires Between(y0, y) && y.phase == ApplyUsers && s in SafeUsers(y0)
    ensures Between(y0, ApplyUser(y, s))
    ensures ApplyUser(y, s).(live := y.live, doneUsers := y.doneUsers) == y
    ensures ApplyUser(y, s).doneUsers == y.doneUsers + {s}
  {
    var done := y.doneUsers * SafeUsers(y0);
    NoLateConflict(y0, done, s);
    UsersWithGrows(y0, done, s);
    assert (y.doneUsers + {s}) * SafeUsers(y0) == done + {s};
  }

  lemma {:induction false} UserBatchKeeps(y0: Sync, y: Sync, batch: seq<string>)
    requires Between(y0, y) && y.phase == ApplyUsers && Elements(batch) <= SafeUsers(y0)
    ensures Between(y0, ApplyUserBatch(y, batch))
    ensures ApplyUserBatch(y, batch).(live := y.live, doneUsers := y.doneUsers) == y
    ensures ApplyUserBatch(y, batch).doneUsers == y.doneUsers + Elements(batch)
    decreases |batch|
  {
    if batch != [] {
      assert batch == [batch[0]] + batch[1..];
      assert Elements(batch) == {batch[0]} + Elements(batch[1..]);
      UserKeeps(y0, y, batch[0]);
      UserBatchKeeps(y0, ApplyUser(y, batch[0]), batch[1..]);
    }
  }

  // ---- Organisations ----

  lemma OrgsWithGrows(y0: Sync, done: set<string>, e: string)
    requires e in SafeOrgs(y0) && done <= SafeOrgs(y0)
    ensures var k := Directory(y0.source, e);
            OrgsWith(y0, done, false)[k := OrgRow(y0.stage.orgs[e].name, OldParent(y0, k), true, y0.marker)]
            == OrgsWith(y0, done + {e}, false)
  {
    var k := Directory(y0.source, e);
    var left := OrgsWith(y0, done, false)[k := OrgRow(y0.stage.orgs[e].name, OldParent(y0, k), true, y0.marker)];
    var right := OrgsWith(y0, done + {e}, false);
    forall q
      ensures q in left <==> q in right
      ensures q in left ==> left[q] == right[q]
    {
      OrgWith(y0, done, q);
      OrgWith(y0, done + {e}, q);
    }
    SameEntries(left, right);
  }

  lemma OrgWith(y0: Sync, done: set<string>, k: OrgKey)
    requires done <= SafeOrgs(y0)
    ensures k in OrgsWith(y0, done, false) <==> k in y0.live.orgs || (OwnOrg(y0, k) && k.externalId in done)
    ensures OwnOrg(y0, k) && k.externalId in done ==>
              OrgsWith(y0, done, false)[k]
              == OrgRow(y0.stage.orgs[k.externalId].name, OldParent(y0, k), true, y0.marker)
    ensures k in y0.live.orgs && !(OwnOrg(y0, k) && k.externalId in done) ==>
              OrgsWith(y0, done, false)[k] == y0.live.orgs[k]
  {
    if OwnOrg(y0, k) {
      assert k == Directory(y0.source, k.externalId);
    }
  }

  lemma ParentUntouched(y0: Sync, done: set<string>, k: OrgKey)
    requires done <= SafeOrgs(y0)
    ensures var orgs := OrgsWith(y0, done, false); (if k in orgs then orgs[k].parent else None) == OldParent(y0, k)
  {
  }

  lemma OrgKeeps(y0: Sync, y: Sync, e: string)
    requires Between(y0, y) && y.phase == ApplyOrganizations && e in SafeOrgs(y0)
    ensures Between(y0, ApplyOrg(y, e))
    ensures ApplyOrg(y, e).(live := y.live, doneOrgs := y.doneOrgs) == y
    ensures ApplyOrg(y, e).doneOrgs == y.doneOrgs + {e}
  {
    var done := y.doneOrgs * SafeOrgs(y0);
    ParentUntouched(y0, done, Directory(y0.source, e));
    OrgsWithGrows(y0, done, e);
    assert (y.doneOrgs + {e}) * SafeOrgs(y0) == done + {e};
  }

  lemma {:induction false} OrgBatchKeeps(y0: Sync, y: Sync, batch: seq<string>)
    requires Between(y0, y) && y.phase == ApplyOrganizations && Elements(batch) <= SafeOrgs(y0)
    ensures Between(y0, ApplyOrgBatch(y, batch))
    ensures ApplyOrgBatch(y, batch).(live := y.live, doneOrgs := y.doneOrgs) == y
    ensures ApplyOrgBatch(y, batch).doneOrgs == y.doneOrgs + Elements(batch)
    decreases |batch|
  {
    if batch != [] {
      assert batch == [batch[0]] + batch[1..];
      assert Elements(batch) == {batch[0]} + Elements(batch[1..]);
      OrgKeeps(y0, y, batch[0]);
      OrgBatchKeeps(y0, ApplyOrg(y, batch[0]), batch[1..]);
    }
  }

  /** Once every safe organisation is there, the parent that is linked is the staged one. */
  lemma ChoiceIsStagedParent(y0: Sync, y: Sync, e: string, choice: Option<OrgKey>)
    requires y.source == y0.source && y.stage == y0.stage && SafeOrg(y0, e)
    requires forall p :: SafeOrg(y0, p) ==> Directory(y0.source, p) in y.live.orgs
    requires ParentChoice(y, e, choice)
    ensures choice == StagedParent(y0, e)
  {
    if p :| Relation(e, p) in y0.stage.parents {
      SafeParent(y0, e, p);
      assert Directory(y0.source, p) in y.live.orgs;
    }
  }

  /** Row by row, linking turns the unlinked organisations into the linked ones. */
  lemma LinkedRowIs(y0: Sync, y: Sync, z: Sync, k: OrgKey)
    requires SameJob(y0, y) && y.live.orgs == OrgsWith(y0, SafeOrgs(y0), false)
    requires y.stage.orgs.Keys <= y.doneOrgs && Linked(y, z)
    requires k in z.live.orgs
    ensures k in OrgsWith(y0, SafeOrgs(y0), true) && OrgsWith(y0, SafeOrgs(y0), true)[k] == z.live.orgs[k]
  {
    assert forall p :: SafeOrg(y0, p) ==> p in SafeOrgs(y0);
    SafeOrConflicted(y0, k);
    if Linkable(y, k) {
      ChoiceIsStagedParent(y0, y, k.externalId, z.live.orgs[k].parent);
    }
  }

  lemma LinkedIsLinked(y0: Sync, y: Sync, z: Sync)
    requires Between(y0, y) && y.phase == ApplyOrganizations && y.stage.orgs.Keys <= y.doneOrgs && Linked(y, z)
    ensures Between(y0, z)
  {
    assert y.doneOrgs * SafeOrgs(y0) == SafeOrgs(y0);
    var target := OrgsWith(y0, SafeOrgs(y0), true);
    forall k | k in z.live.orgs
      ensures k in target && target[k] == z.live.orgs[k]
    {
      LinkedRowIs(y0, y, z, k);
    }
    assert target.Keys == z.live.orgs.Keys;
    assert z.live.orgs == target;
  }

  lemma SafeOrConflicted(y0: Sync, k: OrgKey)
    ensures k.Directory? && k.externalId in y0.stage.orgs ==>
              (k.externalId in SafeOrgs(y0) <==> k.externalId !in ConflictedOrgs(y0.stage))
  {
  }

  // ---- Memberships ----

  lemma MembersWithGrows(y0: Sync, done: set<Pair>, m: Pair)
    ensures MembersWith(y0, done)[MemberOf(y0.source, m) := true] == MembersWith(y0, done + {m})
  {
    var left, right := MembersWith(y0, done)[MemberOf(y0.source, m) := true], MembersWith(y0, done + {m});
    forall k
      ensures k in left <==> k in right
      ensures k in left ==> left[k] == right[k]
    {
      if k in left {
        if k == MemberOf(y0.source, m) {
          assert m in done + {m};
        } else if q :| q in done && k == MemberOf(y0.source, q) {
          assert q in done + {m};
        } else {
          assert forall q :: q in done + {m} ==> k != MemberOf(y0.source, q);
        }
      }
    }
  }

  lemma MemberKeeps(y0: Sync, y: Sync, m: Pair)
    requires Between(y0, y) && y.phase == ApplyMemberships && m in SafeMembers(y0)
    ensures Between(y0, ApplyMember(y, m))
  {
    var done := y.doneMembers * SafeMembers(y0);
    MembersWithGrows(y0, done, m);
    assert (y.doneMembers + {m}) * SafeMembers(y0) == done + {m};
  }

  lemma {:induction false} MemberBatchKeeps(y0: Sync, y: Sync, batch: seq<Pair>)
    requires Between(y0, y) && y.phase == ApplyMemberships && Elements(batch) <= SafeMembers(y0)
    ensures Between(y0, ApplyMemberBatch(y, batch)) && ApplyMemberBatch(y, batch).phase == y.phase
    ensures ApplyMemberBatch(y, batch).completed == y.completed
    decreases |batch|
  {
    if batch != [] {
      assert batch == [batch[0]] + batch[1..];
      assert Elements(batch) == {batch[0]} + Elements(batch[1..]);
      MemberKeeps(y0, y, batch[0]);
      MemberBatchKeeps(y0, ApplyMember(y, batch[0]), batch[1..]);
    }
  }

  // ---- The whole run ----

  lemma NothingDone(y0: Sync)
    ensures UsersWith(y0, {}) == y0.live.users
    ensures OrgsWith(y0, {}, false) == y0.live.orgs
    ensures MembersWith(y0, {}) == y0.live.members
  {
    assert UsersWith(y0, {}).Keys == y0.live.users.Keys;
    assert OrgsWith(y0, {}, false).Keys == y0.live.orgs.Keys;
    assert MembersWith(y0, {}).Keys == y0.live.members.Keys;
  }

  lemma PreparedIsBetween(y0: Sync)
    requires Ready(y0)
    ensures Between(y0, Prepared(y0))
  {
    var y := Prepared(y0);
    NothingDone(y0);
    assert y.doneUsers * SafeUsers(y0) == {};
    assert y.doneOrgs * SafeOrgs(y0) == {};
    assert y.doneMembers * SafeMembers(y0) == {};
  }

  lemma FinalizedUsers(y0: Sync, y: Sync)
    requires Ready(y0) && Between(y0, y) && y.phase == Finalize
    ensures Finalized(y).live.users == Snapshot(y0).users
  {
    assert y.doneUsers * SafeUsers(y0) == SafeUsers(y0);
    assert Finalized(y).live.users.Keys == Snapshot(y0).users.Keys;
  }

  lemma FinalizedOrgs(y0: Sync, y: Sync)
    requires Ready(y0) && Between(y0, y) && y.phase == Finalize
    ensures Finalized(y).live.orgs == Snapshot(y0).orgs
  {
    assert y.doneOrgs * SafeOrgs(y0) == SafeOrgs(y0);
    assert Finalized(y).live.orgs.Keys == Snapshot(y0).orgs.Keys;
  }

  lemma FinalizedMembers(y0: Sync, y: Sync)
    requires Ready(y0) && Between(y0, y) && y.phase == Finalize
    ensures Finalized(y).live.members == Snapshot(y0).members
  {
    assert y.doneMembers * SafeMembers(y0) == SafeMembers(y0);
    assert Finalized(y).live.members.Keys == Snapshot(y0).members.Keys;
  }

  lemma FinalizedIsSnapshot(y0: Sync, y: Sync)
    requires Ready(y0) && Between(y0, y) && y.phase == Finalize
    ensures Finalized(y).live == Snapshot(y0)
  {
    FinalizedUsers(y0, y);
    FinalizedOrgs(y0, y);
    FinalizedMembers(y0, y);
  }

  lemma UnprocessedIsSafe(y0: Sync, y: Sync)
    requires SameJob(y0, y)
    ensures y.stage.users.Keys - y.doneUsers <= SafeUsers(y0)
    ensures y.stage.orgs.Keys - y.doneOrgs <= SafeOrgs(y0)
    ensures y.stage.members - y.doneMembers <= SafeMembers(y0)
  {
  }

  lemma AdvanceKeeps(y0: Sync, y: Sync, z: Sync)
    requires Ready(y0) && RunInvariant(y0, y) && Advance(y, z)
    ensures RunInvariant(y0, z)
  {
    match y.phase
    case Prepare => PreparedIsBetween(y0);
    case ApplyUsers =>
      UnprocessedIsSafe(y0, y);
      if batch :| batch != [] && Elements(batch) <= y.stage.users.Keys - y.doneUsers && z == ApplyUserBatch(y, batch) {
        UserBatchKeeps(y0, y, batch);
      }
    case ApplyOrganizations =>
      UnprocessedIsSafe(y0, y);
      if y.stage.orgs.Keys <= y.doneOrgs && Linked(y, z) {
        LinkedIsLinked(y0, y, z);
      } else {
        var batch :| batch != [] && Elements(batch) <= y.stage.orgs.Keys - y.doneOrgs && z == ApplyOrgBatch(y, batch);
        OrgBatchKeeps(y0, y, batch);
      }
    case ApplyMemberships =>
      UnprocessedIsSafe(y0, y);
      if batch :| batch != [] && Elements(batch) <= y.stage.members - y.doneMembers && z == ApplyMemberBatch(y, batch) {
        MemberBatchKeeps(y0, y, batch);
      }
    case Finalize => FinalizedIsSnapshot(y0, y);
  }

  lemma {:induction false} RunKeeps(r: seq<Sync>, i: nat)
    requires Run(r) && Ready(r[0]) && i < |r|
    ensures RunInvariant(r[0], r[i])
    decreases i, 0
  {
    if i == 0 {
      StartKeeps(r[0], r[i]);
    } else {
      NextKeeps(r, i - 1, i);
    }
  }

  lemma StartKeeps(y0: Sync, y: Sync)
    requires y == y0
    ensures RunInvariant(y0, y)
  {
  }

  lemma {:induction false} NextKeeps(r: seq<Sync>, h: nat, i: nat)
    requires Run(r) && Ready(r[0]) && h + 1 == i < |r|
    ensures RunInvariant(r[0], r[i])
    decreases h, 1
  {
    RunKeeps(r, h);
    KeepsAt(r, h, i);
  }

  lemma KeepsAt(r: seq<Sync>, h: nat, i: nat)
    requires Run(r) && Ready(r[0]) && h + 1 == i < |r| && RunInvariant(r[0], r[h])
    ensures RunInvariant(r[0], r[i])
  {
    Stepped(r, h, i);
    StepKeeps(r[0], r[h], r[i]);
  }

  lemma StepKeeps(y0: Sync, y: Sync, z: Sync)
    requires Ready(y0) && RunInvariant(y0, y) && Step(y, z)
    ensures RunInvariant(y0, z)
  {
    if z != y {
      AdvanceKeeps(y0, y, z);
    }
  }

  /** The apply equals one snapshot update, whatever the batches, aborts and crashes on the way. */
  lemma CompletedRunIsSnapshot(r: seq<Sync>)
    requires Run(r) && Ready(r[0]) && r[|r| - 1].completed
    ensures r[|r| - 1].live == Snapshot(r[0])
  {
    RunKeeps(r, |r| - 1);
  }

  ghost predicate PreviewInvariant(y0: Sync, y: Sync) {
    y == y0 || (y.completed && y.live == y0.live && y.userConflicts == ConflictedUsers(y0)
                && y.orgConflicts == ConflictedOrgs(y0.stage))
  }

  /** A preview finds the same conflicts and never changes a live row. */
  lemma {:induction false} PreviewChangesNothing(r: seq<Sync>, i: nat)
    requires Run(r) && r[0].mode == Preview && r[0].phase == Prepare && !r[0].completed && i < |r|
    ensures PreviewInvariant(r[0], r[i])
  {
    if i > 0 {
      PreviewChangesNothing(r, i - 1);
      assert StepAt(r, i);
    }
  }

  // ---- What the snapshot means row by row ----

  /** Rows of other sources, and conflicted rows of this one, keep every field. */
  lemma SnapshotKeepsForeignRows(y: Sync)
    ensures forall k :: k in y.live.users
                        && (!OwnUser(y, k) || (k.subject in y.stage.users && UserConflict(y, k.subject))) ==>
                          k in Snapshot(y).users && Snapshot(y).users[k] == y.live.users[k]
    ensures forall k :: k in y.live.orgs
                        && (!OwnOrg(y, k) || (k.externalId in y.stage.orgs && OrgConflict(y.stage, k.externalId))) ==>
                          k in Snapshot(y).orgs && Snapshot(y).orgs[k] == y.live.orgs[k]
    ensures forall k :: k in y.live.members && !k.sourceOwned ==>
                          k in Snapshot(y).members && Snapshot(y).members[k] == y.live.members[k]
  {
  }

  /**
   A safe staged user or organisation carries its staged values; one of this source that is
   not staged is disabled.
   */
  lemma SnapshotOfOwnRows(y: Sync)
    ensures forall s :: SafeUser(y, s) ==>
                          External(y.source, s) in Snapshot(y).users
                          && Snapshot(y).users[External(y.source, s)] == UserRowOf(y.stage.users[s], y.marker)
    ensures forall k :: k in y.live.users && OwnUser(y, k) && k.subject !in y.stage.users ==>
                          k in Snapshot(y).users && Snapshot(y).users[k] == y.live.users[k].(status := Disabled)
    ensures forall e :: SafeOrg(y, e) ==>
                          Directory(y.source, e) in Snapshot(y).orgs
                          && Snapshot(y).orgs[Directory(y.source, e)]
                             == OrgRow(y.stage.orgs[e].name, StagedParent(y, e), true, y.marker)
    ensures forall k :: k in y.live.orgs && OwnOrg(y, k) && k.externalId !in y.stage.orgs ==>
                          k in Snapshot(y).orgs && Snapshot(y).orgs[k] == y.live.orgs[k].(enabled := false)
  {
    forall s | SafeUser(y, s)
      ensures External(y.source, s) in Snapshot(y).users
    {
      assert s in SafeUsers(y);
    }
    forall e | SafeOrg(y, e)
      ensures Directory(y.source, e) in Snapshot(y).orgs
    {
      assert e in SafeOrgs(y);
    }
  }

  /**
   A source-owned membership of this source is active exactly when it is staged, except
   that a conflicted pair keeps its state.
   */
  lemma SnapshotMemberships(y: Sync, m: Pair)
    ensures var k := MemberOf(y.source, m);
            k in Snapshot(y).members && Snapshot(y).members[k] <==>
            m in y.stage.members && (SafeMember(y, m) || (k in y.live.members && y.live.members[k]))
  {
    MemberWith(y, SafeMembers(y), m);
  }

  lemma MemberWith(y: Sync, done: set<Pair>, m: Pair)
    ensures var k := MemberOf(y.source, m);
            Holds(MembersWith(y, done), k) <==> m in done || Holds(y.live.members, k)
  {
    assert forall n: Pair :: MemberOf(y.source, n) == MemberOf(y.source, m) ==> n == m;
  }
}
