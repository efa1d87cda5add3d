/**
 Whose sessions a synchronisation revokes: everyone whose access a transaction takes
 away or changes.  Over a whole run nobody's loss goes unnoticed.
 */
module DirectorySessions {
  import opened DirectoryModel
  import opened DirectorySync
  import opened Strings

  function NewlyDisabled(a: map<UserKey, UserRow>, b: map<UserKey, UserRow>): set<UserKey> {
    set k | k in a && k in b && a[k].status != Disabled && b[k].status == Disabled
  }

  /** The memberships that begin or end. */
  function Switched(a: map<MemberKey, bool>, b: map<MemberKey, bool>): set<MemberKey> {
    set k | k in a.Keys + b.Keys && Holds(a, k) != Holds(b, k)
  }

  function Closed(a: map<OrgKey, OrgRow>, b: map<OrgKey, OrgRow>): set<OrgKey> {
    set k | k in a && k in b && a[k].enabled && !b[k].enabled
  }

  function UsersOf(members: set<MemberKey>): set<UserKey> {
    set k | k in members :: k.user
  }

  /** The memberships that are active in one of these organisations. */
  function Inside(members: map<MemberKey, bool>, orgs: set<OrgKey>): set<MemberKey> {
    set k | k in members && Holds(members, k) && k.org in orgs
  }

  /** Whose sessions must end when the tables change from `a` to `b`. */
  function Affected(a: Live, b: Live): set<UserKey> {
    NewlyDisabled(a.users, b.users) + UsersOf(Switched(a.members, b.members))
    + UsersOf(Inside(b.members, Closed(a.orgs, b.orgs)))
  }

  /** Users and memberships as they were, and no organisation disabled. */
  lemma NobodyAffected(a: Live, b: Live)
    requires b.users == a.users && b.members == a.members && Closed(a.orgs, b.orgs) == {}
    ensures Affected(a, b) == {}
  {
  }

  /** One more user row on top of a change that left this row alone. */
  lemma AffectedByUser(a: Live, b: Live, c: Live, k: UserKey)
    requires c == b.(users := c.users) && c.users.Keys == b.users.Keys + {k}
    requires forall q :: q in b.users && q != k ==> c.users[q] == b.users[q]
    requires a.orgs == b.orgs && a.members == b.members
    requires (k in a.users <==> k in b.users) && (k in a.users ==> b.users[k] == a.users[k])
    requires a.users.Keys <= b.users.Keys
    ensures Affected(a, c) == Affected(a, b) + Affected(b, c)
  {
    assert NewlyDisabled(a.users, c.users) == NewlyDisabled(a.users, b.users) + NewlyDisabled(b.users, c.users);
  }

  lemma AffectedByRow(a: Live, k: UserKey, row: UserRow)
    ensures Affected(a, a.(users := a.users[k := row]))
         == if k in a.users && a.users[k].status != Disabled && row.status == Disabled then {k} else {}
  {
    var hit := if k in a.users && a.users[k].status != Disabled && row.status == Disabled then {k} else {};
    assert NewlyDisabled(a.users, a.users[k := row]) == hit;
  }

  /** One more membership that begins on top of others that began. */
  lemma AffectedByMember(a: Live, b: Live, k: MemberKey)
    requires a.users == b.users && a.orgs == b.orgs && forall q :: Holds(a.members, q) ==> Holds(b.members, q)
    ensures Affected(a, b.(members := b.members[k := true]))
         == Affected(a, b) + if Holds(b.members, k) then {} else {k.user}
  {
    var c := b.members[k := true];
    assert Switched(a.members, c) == Switched(a.members, b.members) + if Holds(b.members, k) then {} else {k};
    assert UsersOf(Switched(a.members, c))
        == UsersOf(Switched(a.members, b.members)) + if Holds(b.members, k) then {} else {k.user};
  }

  ghost predicate KeepsRows(a: Live, b: Live) {
    a.users.Keys <= b.users.Keys && a.orgs.Keys <= b.orgs.Keys && a.members.Keys <= b.members.Keys
  }

  // ---- Whole runs ----

  /** Whoever is affected by two changes together is affected by one of them. */
  lemma AffectedSplits(a: Live, b: Live, c: Live)
    requires KeepsRows(a, b) && KeepsRows(b, c)
    ensures Affected(a, c) <= Affected(a, b) + Affected(b, c)
  {
    assert Switched(a.members, c.members) <= Switched(a.members, b.members) + Switched(b.members, c.members);
    forall k | k in Inside(c.members, Closed(a.orgs, c.orgs))
      ensures k.user in Affected(a, b) + Affected(b, c)
    {
      if k.org in Closed(b.orgs, c.orgs) {
        assert k in Inside(c.members, Closed(b.orgs, c.orgs));
      } else if Holds(b.members, k) {
        assert k in Inside(b.members, Closed(a.orgs, b.orgs));
      } else {
        assert k in Switched(b.members, c.members);
      }
    }
  }

  lemma {:induction false} UserBatchKeepsRows(y: Sync, batch: seq<string>)
    requires Elements(batch) <= y.stage.users.Keys
    ensures KeepsRows(y.live, ApplyUserBatch(y, batch).live)
    decreases |batch|
  {
    if batch != [] {
      assert batch[0] in Elements(batch) && Elements(batch[1..]) <= Elements(batch);
      UserBatchKeepsRows(ApplyUser(y, batch[0]), batch[1..]);
    }
  }

  lemma {:induction false} OrgBatchKeepsRows(y: Sync, batch: seq<string>)
    requires Elements(batch) <= y.stage.orgs.Keys
    ensures KeepsRows(y.live, ApplyOrgBatch(y, batch).live)
    decreases |batch|
  {
    if batch != [] {
      assert batch[0] in Elements(batch) && Elements(batch[1..]) <= Elements(batch);
      OrgBatchKeepsRows(ApplyOrg(y, batch[0]), batch[1..]);
    }
  }

  lemma {:induction false} MemberBatchKeepsRows(y: Sync, batch: seq<Pair>)
    ensures KeepsRows(y.live, ApplyMemberBatch(y, batch).live)
    decreases |batch|
  {
    if batch != [] {
      MemberBatchKeepsRows(ApplyMember(y, batch[0]), batch[1..]);
    }
  }

  /** No transaction deletes a user, an organisation or a membership row. */
  lemma AdvanceKeepsRows(y: Sync, z: Sync)
    requires Advance(y, z)
    ensures KeepsRows(y.live, z.live)
  {
    if y.phase == ApplyUsers && z != y.(phase := ApplyOrganizations) {
      var batch :| Elements(batch) <= y.stage.users.Keys - y.doneUsers && z == ApplyUserBatch(y, batch);
      UserBatchKeepsRows(y, batch);
    } else if y.phase == ApplyOrganizations && !Linked(y, z) {
      var batch :| Elements(batch) <= y.stage.orgs.Keys - y.doneOrgs && z == ApplyOrgBatch(y, batch);
      OrgBatchKeepsRows(y, batch);
    } else if y.phase == ApplyMemberships && z != y.(phase := Finalize) {
      var batch :| z == ApplyMemberBatch(y, batch);
      MemberBatchKeepsRows(y, batch);
    }
  }

  lemma RunPrefix(r: seq<Sync>, n: nat)
    requires Run(r) && 0 < n <= |r|
    ensures Run(r[..n])
  {
    forall i | 0 < i < n
      ensures StepAt(r[..n], i)
    {
      assert StepAt(r, i);
    }
  }

  lemma StepKeepsRows(r: seq<Sync>, i: nat)
    requires Run(r) && 0 < i < |r|
    ensures KeepsRows(r[i - 1].live, r[i].live)
  {
    assert StepAt(r, i);
    if r[i] != r[i - 1] {
      AdvanceKeepsRows(r[i - 1], r[i]);
    }
  }

  /** The sessions revoked by the transactions of a run, each revoking those it affects. */
  ghost function RevokedIn(r: seq<Sync>): set<UserKey> {
    if |r| < 2 then {} else RevokedIn(r[..|r| - 1]) + Affected(r[|r| - 2].live, r[|r| - 1].live)
  }

  /**
   Whoever a run as a whole disables, moves in or out of an organisation, or leaves in a
   disabled one, was logged out on the way.
   */
  lemma {:induction false} NobodyKeepsAStaleSession(r: seq<Sync>)
    requires Run(r)
    ensures KeepsRows(r[0].live, r[|r| - 1].live)
    ensures Affected(r[0].live, r[|r| - 1].live) <= RevokedIn(r)
    decreases |r|
  {
    var n := |r| - 1;
    if n > 0 {
      RunPrefix(r, n);
      NobodyKeepsAStaleSession(r[..n]);
      StepKeepsRows(r, n);
      AffectedSplits(r[0].live, r[n - 1].live, r[n].live);
    }
  }
}
