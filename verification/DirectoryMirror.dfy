/**
 From the directory to the tables: fetching an unchanging directory and applying what was
 staged gives the snapshot of its listing, however it was paged, batched and retried.
 */
module DirectoryMirror {
  import opened DirectoryApply
  import opened DirectoryModel
  import opened DirectorySync
  import Listed = DirectoryListing
  import Paging = ScimPaging
  import Staging = DirectoryStaging

  type Items = seq<Paging.Item>

  /** The directory upserted entry by entry, without pages. */
  ghost function Listing(users: Items, groups: Items): Stage {
    Stage(Staging.UpsertUsers(map[], Paging.Collect(users, Paging.UserOf)),
          Staging.UpsertOrgs(map[], Paging.Collect(groups, Paging.OrgOf)),
          set m | m in Paging.Collect(groups, Paging.MembersOf), set x | x in Paging.Collect(groups, Paging.ParentsOf))
  }

  lemma ListingLists(users: Items, groups: Items)
    ensures Listed.Lists(Listing(users, groups), users, groups)
  {
    var subjects, ids := Paging.Collect(users, Paging.UserOf), Paging.Collect(groups, Paging.OrgOf);
    Staging.UpsertUsersStages(map[], [], subjects);
    Staging.UpsertOrgsStages(map[], [], ids);
    assert [] + subjects == subjects && [] + ids == ids;
    Staging.StreamsAreListed(Listing(users, groups), users, groups);
  }

  /** A run of workers that has fetched this directory completely. */
  ghost predicate FetchedAll(c: Paging.Config, jobs: seq<Staging.Job>, users: Items, groups: Items) {
    && Staging.JobRun(c, jobs)
    && var last := jobs[|jobs| - 1];
    last.phase == Staging.Preparing && last.status != Staging.Finished && Paging.AnsweredBy(last.log, users, groups)
  }

  lemma StageIsListing(c: Paging.Config, jobs: seq<Staging.Job>, users: Items, groups: Items)
    requires FetchedAll(c, jobs, users, groups)
    ensures jobs[|jobs| - 1].stage == Listing(users, groups)
  {
    Staging.StageIsDirectory(c, jobs, users, groups);
    ListingLists(users, groups);
    Listed.ListingIsUnique(jobs[|jobs| - 1].stage, Listing(users, groups), users, groups);
  }

  /** A completed apply of what such a fetch staged. */
  ghost predicate AppliedAll(r: seq<Sync>, stage: Stage) {
    Run(r) && Ready(r[0]) && r[0].stage == stage && r[|r| - 1].completed
  }

  /**
   The whole way: whatever the page size, the racing fetchers, the batches, the aborts and
   the crashes, the tables end as the snapshot of the directory's listing.
   */
  lemma DirectoryIsMirrored(
    c: Paging.Config, jobs: seq<Staging.Job>, users: Items, groups: Items, r: seq<Sync>)
    requires FetchedAll(c, jobs, users, groups) && AppliedAll(r, jobs[|jobs| - 1].stage)
    ensures r[|r| - 1].live == Snapshot(r[0].(stage := Listing(users, groups)))
  {
    StageIsListing(c, jobs, users, groups);
    CompletedRunIsSnapshot(r);
    assert r[0].(stage := Listing(users, groups)) == r[0];
  }

  /** Two synchronisations of one directory over the same tables end alike. */
  lemma PagingIsIrrelevant(
    c1: Paging.Config, jobs1: seq<Staging.Job>, r1: seq<Sync>,
    c2: Paging.Config, jobs2: seq<Staging.Job>, r2: seq<Sync>, users: Items, groups: Items)
    requires FetchedAll(c1, jobs1, users, groups) && AppliedAll(r1, jobs1[|jobs1| - 1].stage)
    requires FetchedAll(c2, jobs2, users, groups) && AppliedAll(r2, jobs2[|jobs2| - 1].stage)
    requires r2[0] == r1[0].(stage := r2[0].stage)
    ensures r1[|r1| - 1].live == r2[|r2| - 1].live
  {
    StageIsListing(c1, jobs1, users, groups);
    StageIsListing(c2, jobs2, users, groups);
    CompletedRunIsSnapshot(r1);
    CompletedRunIsSnapshot(r2);
  }
}
