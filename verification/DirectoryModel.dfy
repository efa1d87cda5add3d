/**
 The rows a directory synchronisation reads and writes.  A directory user or
 organisation is identified by its source and external id, which the database
 keeps unique; version and timestamp columns are not part of the model.
 */
module DirectoryModel {
  import opened Wrappers

  datatype UserStatus = Active | Disabled | Pending
  datatype UserKey = External(source: string, subject: string) | Local(id: string)
  datatype UserRow = UserRow(username: string, displayName: string, email: string, status: UserStatus, run: string)

  datatype OrgKey = Directory(source: string, externalId: string) | Platform(id: string)
  datatype OrgRow = OrgRow(name: string, parent: Option<OrgKey>, enabled: bool, run: string)

  /** `sourceOwned` is part of the primary key of a membership. */
  datatype MemberKey = Member(org: OrgKey, user: UserKey, sourceOwned: bool)

  /** A membership row maps to whether its status is `active` (otherwise `removed`). */
  datatype Live = Live(users: map<UserKey, UserRow>, orgs: map<OrgKey, OrgRow>, members: map<MemberKey, bool>)

  datatype StagedUser = StagedUser(username: string, displayName: string, email: string, enabled: bool,
                                   occurrences: nat)
  datatype StagedOrg = StagedOrg(name: string, occurrences: nat)
  datatype Pair = Pair(org: string, user: string)
  datatype Relation = Relation(child: string, parent: string)

  datatype Stage = Stage(
    users: map<string, StagedUser>,
    orgs: map<string, StagedOrg>,
    members: set<Pair>,
    parents: set<Relation>)

  datatype Mode = Preview | Apply
  datatype Phase = Prepare | ApplyUsers | ApplyOrganizations | ApplyMemberships | Finalize

  /** One job together with the tables it works on; the three `done` sets are the `processed` columns. */
  datatype Sync = Sync(
    source: string, marker: string, mode: Mode, phase: Phase, completed: bool,
    live: Live, stage: Stage,
    doneUsers: set<string>, doneOrgs: set<string>, doneMembers: set<Pair>,
    userConflicts: set<string>, orgConflicts: set<string>)
}
