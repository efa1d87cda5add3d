/**
 How many transactions a job still takes: every batch is full, so the number is exact
 and depends on the rows that are left and the batch size alone.
 */
module DirectoryBatches {
  import opened DirectoryHierarchy
  import opened DirectoryModel
  import opened DirectorySync
  import opened Strings

  /** `LIMIT n` over the rows that are left: all of them, or as many as a batch holds. */
  ghost predicate FullBatch<T(!new)>(batch: seq<T>, rest: set<T>, n: nat) {
    Elements(batch) <= rest && Distinct(batch) && |batch| == Min(n, |rest|)
  }

  ghost function UsersLeft(y: Sync): set<string> {
    y.stage.users.Keys - y.doneUsers
  }

  ghost function OrgsLeft(y: Sync): set<string> {
    y.stage.orgs.Keys - y.doneOrgs
  }

  ghost function MembersLeft(y: Sync): set<Pair> {
    y.stage.members - y.doneMembers
  }

  ghost predicate Shrinks<T>(n: nat, before: set<T>, after: set<T>) {
    |after| == |before| - Min(n, |before|)
  }

  /** A step that stays in its phase has processed a full batch of its rows. */
  ghost predicate TakesFullBatch(n: nat, y: Sync, z: Sync) {
    match y.phase
    case ApplyUsers => z.phase == ApplyUsers ==> Shrinks(n, UsersLeft(y), UsersLeft(z))
    case ApplyOrganizations => z.phase == ApplyOrganizations ==> Shrinks(n, OrgsLeft(y), OrgsLeft(z))
    case ApplyMemberships => z.phase == ApplyMemberships ==> Shrinks(n, MembersLeft(y), MembersLeft(z))
    case _ => true
  }

  /** One committed transaction of an executor with this batch size. */
  ghost predicate FullCommit(n: nat, y: Sync, z: Sync) {
    Advance(y, z) && TakesFullBatch(n, y, z)
  }

  lemma FullBatchShrinks<T(!new)>(batch: seq<T>, all: set<T>, done: set<T>, n: nat)
    requires FullBatch(batch, all - done, n)
    ensures Shrinks(n, all - done, all - (done + Elements(batch)))
  {
    DistinctSize(batch);
    assert all - (done + Elements(batch)) == (all - done) - Elements(batch);
    assert |(all - done) - Elements(batch)| == |all - done| - |Elements(batch)|;
  }

  // ---- Counting transactions ----

  /** The batches that so many rows fill, the last one perhaps only in part. */
  ghost function Batches(rows: nat, n: nat): nat
    requires n >= 1
  {
    if rows == 0 then 0 else 1 + Batches(rows - Min(n, rows), n)
  }

  /** That is the number of rows divided by the batch size, rounded up. */
  lemma {:induction false} BatchesRoundUp(rows: nat, n: nat)
    requires n >= 1
    ensures rows <= Batches(rows, n) * n < rows + n
  {
    if rows > 0 {
      BatchesRoundUp(rows - Min(n, rows), n);
      assert Batches(rows, n) * n == Batches(rows - Min(n, rows), n) * n + n;
      if rows < n {
        assert Batches(0, n) * n == 0;
      }
    }
  }

  lemma {:induction false} FewerBatches(rows: nat, more: nat, n: nat)
    requires n >= 1 && rows <= more
    ensures Batches(rows, n) <= Batches(more, n)
    decreases more
  {
    if rows > 0 {
      FewerBatches(rows - Min(n, rows), more - Min(n, more), n);
    }
  }

  /** The transactions from here on, once the conflicts are known: the batches of each phase, and its end. */
  ghost function Remaining(n: nat, y: Sync): nat
    requires n >= 1
  {
    if y.completed then 0
    else
      match y.phase
      case Prepare => 1
      case ApplyUsers => 4 + Batches(|UsersLeft(y)|, n) + Batches(|OrgsLeft(y)|, n) + Batches(|MembersLeft(y)|, n)
      case ApplyOrganizations => 3 + Batches(|OrgsLeft(y)|, n) + Batches(|MembersLeft(y)|, n)
      case ApplyMemberships => 2 + Batches(|MembersLeft(y)|, n)
      case Finalize => 1
  }

  ghost function Transactions(n: nat, y: Sync): nat
    requires n >= 1
  {
    if !y.completed && y.phase == Prepare then 1 + Remaining(n, Prepared(y)) else Remaining(n, y)
  }

  lemma EmptyLeft<T>(all: set<T>, done: set<T>)
    requires all <= done
    ensures all - done == {}
  {
  }

  lemma BatchCounts<T>(n: nat, batch: seq<T>, before: set<T>, after: set<T>)
    requires n >= 1 && batch != [] && Elements(batch) <= before && Shrinks(n, before, after)
    ensures Batches(|after|, n) == Batches(|before|, n) - 1
  {
    assert batch[0] in before by {
      assert batch[0] in Elements(batch);
    }
  }

  lemma UserStepCounts(n: nat, y: Sync, z: Sync)
    requires n >= 1 && y.phase == ApplyUsers && FullCommit(n, y, z)
    ensures Remaining(n, z) == Remaining(n, y) - 1 && z.phase != Prepare
  {
    if y.stage.users.Keys <= y.doneUsers && z == y.(phase := ApplyOrganizations) {
      EmptyLeft(y.stage.users.Keys, y.doneUsers);
    } else {
      var batch :| batch != [] && Elements(batch) <= y.stage.users.Keys - y.doneUsers && z == ApplyUserBatch(y, batch);
      UserBatchMarks(y, batch);
      BatchCounts(n, batch, UsersLeft(y), UsersLeft(z));
    }
  }

  lemma OrgStepCounts(n: nat, y: Sync, z: Sync)
    requires n >= 1 && y.phase == ApplyOrganizations && FullCommit(n, y, z)
    ensures Remaining(n, z) == Remaining(n, y) - 1 && z.phase != Prepare
  {
    if y.stage.orgs.Keys <= y.doneOrgs && Linked(y, z) {
      EmptyLeft(y.stage.orgs.Keys, y.doneOrgs);
    } else {
      var batch :| batch != [] && Elements(batch) <= y.stage.orgs.Keys - y.doneOrgs && z == ApplyOrgBatch(y, batch);
      OrgBatchMarks(y, batch);
      BatchCounts(n, batch, OrgsLeft(y), OrgsLeft(z));
    }
  }

  lemma MemberStepCounts(n: nat, y: Sync, z: Sync)
    requires n >= 1 && y.phase == ApplyMemberships && FullCommit(n, y, z)
    ensures Remaining(n, z) == Remaining(n, y) - 1 && z.phase != Prepare
  {
    if y.stage.members <= y.doneMembers && z == y.(phase := Finalize) {
      EmptyLeft(y.stage.members, y.doneMembers);
    } else {
      var batch :| batch != [] && Elements(batch) <= y.stage.members - y.doneMembers && z == ApplyMemberBatch(y, batch);
      MemberBatchMarks(y, batch);
      BatchCounts(n, batch, MembersLeft(y), MembersLeft(z));
    }
  }

  /** Every transaction counts: exactly one less is left. */
  lemma CommitCounts(n: nat, y: Sync, z: Sync)
    requires n >= 1 && FullCommit(n, y, z)
    ensures Transactions(n, z) == Transactions(n, y) - 1
  {
    match y.phase
    case Prepare =>
    case ApplyUsers => UserStepCounts(n, y, z);
    case ApplyOrganizations => OrgStepCounts(n, y, z);
    case ApplyMemberships => MemberStepCounts(n, y, z);
    case Finalize =>
  }

  lemma NoneLeftIffCompleted(n: nat, y: Sync)
    requires n >= 1
    ensures Transactions(n, y) == 0 <==> y.completed
  {
  }

  /** A whole job takes its five phase changes and the batches of its staged rows; conflicts only save batches. */
  lemma WholeJob(n: nat, y: Sync)
    requires n >= 1 && y.phase == Prepare && !y.completed
    ensures Transactions(n, y)
         <= 5 + Batches(|y.stage.users|, n) + Batches(|y.stage.orgs|, n) + Batches(|y.stage.members|, n)
  {
    if y.mode == Apply {
      RowsLeftAreStaged(y, Prepared(y));
      FewerBatches(|UsersLeft(Prepared(y))|, |y.stage.users|, n);
      FewerBatches(|OrgsLeft(Prepared(y))|, |y.stage.orgs|, n);
      FewerBatches(|MembersLeft(Prepared(y))|, |y.stage.members|, n);
    }
  }

  lemma RowsLeftAreStaged(y: Sync, z: Sync)
    requires z.stage == y.stage
    ensures |UsersLeft(z)| <= |y.stage.users| && |OrgsLeft(z)| <= |y.stage.orgs|
    ensures |MembersLeft(z)| <= |y.stage.members|
  {
    SubsetSize(UsersLeft(z), y.stage.users.Keys);
    SubsetSize(OrgsLeft(z), y.stage.orgs.Keys);
    SubsetSize(MembersLeft(z), y.stage.members);
    assert |y.stage.users| == |y.stage.users.Keys| && |y.stage.orgs| == |y.stage.orgs.Keys|;
  }
}
