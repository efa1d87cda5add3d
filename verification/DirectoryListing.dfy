/**
 What a directory lists, read off its entries: which users and groups, how often, with which
 values, and which memberships and parents its groups name.
 */
module DirectoryListing {
  import opened DirectoryModel
  import opened ScimPaging
  import opened Strings

  ghost predicate IsUser(items: seq<Item>, s: string, k: int) {
    0 <= k < |items| && items[k].UserResource? && items[k].user.subject == s
  }

  ghost predicate IsGroup(items: seq<Item>, e: string, k: int) {
    0 <= k < |items| && items[k].GroupResource? && items[k].id == e
  }

  ghost function UserPlaces(items: seq<Item>, s: string): set<int> {
    set k | 0 <= k < |items| && IsUser(items, s, k)
  }

  ghost function GroupPlaces(items: seq<Item>, e: string): set<int> {
    set k | 0 <= k < |items| && IsGroup(items, e, k)
  }

  /** `k` is where the directory lists this user first. */
  ghost predicate FirstUser(items: seq<Item>, s: string, k: int) {
    IsUser(items, s, k) && forall j :: IsUser(items, s, j) ==> k <= j
  }

  ghost predicate FirstGroup(items: seq<Item>, e: string, k: int) {
    IsGroup(items, e, k) && forall j :: IsGroup(items, e, j) ==> k <= j
  }

  /** An entry of group `o` names user `u` among its members. */
  ghost predicate NamesUser(groups: seq<Item>, o: string, u: string) {
    exists k :: IsGroup(groups, o, k) && u in groups[k].users
  }

  /** An entry of group `p` names group `c` among its members: `p` is a parent of `c`. */
  ghost predicate NamesChild(groups: seq<Item>, p: string, c: string) {
    exists k :: IsGroup(groups, p, k) && c in groups[k].groups
  }

  /** One row per listed user and group with its first values and its occurrences; the named pairs and parents. */
  ghost predicate Lists(stage: Stage, users: seq<Item>, groups: seq<Item>) {
    && (forall s :: s in stage.users <==> exists k :: IsUser(users, s, k))
    && (forall s, k :: FirstUser(users, s, k) ==> s in stage.users && UserListed(stage.users[s], users, s, k))
    && (forall e :: e in stage.orgs <==> exists k :: IsGroup(groups, e, k))
    && (forall e, k :: FirstGroup(groups, e, k) ==> e in stage.orgs && GroupListed(stage.orgs[e], groups, e, k))
    && (forall o, u :: Pair(o, u) in stage.members <==> NamesUser(groups, o, u))
    && (forall c, p :: Relation(c, p) in stage.parents <==> NamesChild(groups, p, c))
  }

  ghost predicate UserListed(row: StagedUser, users: seq<Item>, s: string, k: int)
    requires IsUser(users, s, k)
  {
    var u := users[k].user;
    && row.username == u.username && row.displayName == u.displayName && row.email == u.email
    && row.enabled == u.enabled && row.occurrences == |UserPlaces(users, s)|
  }

  ghost predicate GroupListed(row: StagedOrg, groups: seq<Item>, e: string, k: int)
    requires IsGroup(groups, e, k)
  {
    row.name == groups[k].name && row.occurrences == |GroupPlaces(groups, e)|
  }

  lemma {:induction false} FirstUserExists(items: seq<Item>, s: string, k: int) returns (first: int)
    requires IsUser(items, s, k)
    ensures FirstUser(items, s, first)
    decreases k
  {
    first := k;
    if j :| IsUser(items, s, j) && j < k {
      first := FirstUserExists(items, s, j);
    }
  }

  lemma {:induction false} FirstGroupExists(items: seq<Item>, e: string, k: int) returns (first: int)
    requires IsGroup(items, e, k)
    ensures FirstGroup(items, e, first)
    decreases k
  {
    first := k;
    if j :| IsGroup(items, e, j) && j < k {
      first := FirstGroupExists(items, e, j);
    }
  }

  /** A directory has one listing. */
  lemma ListingIsUnique(a: Stage, b: Stage, users: seq<Item>, groups: seq<Item>)
    requires Lists(a, users, groups) && Lists(b, users, groups)
    ensures a == b
  {
    forall s | s in a.users
      ensures a.users[s] == b.users[s]
    {
      var k :| IsUser(users, s, k);
      var first := FirstUserExists(users, s, k);
    }
    forall e | e in a.orgs
      ensures a.orgs[e] == b.orgs[e]
    {
      var k :| IsGroup(groups, e, k);
      var first := FirstGroupExists(groups, e, k);
    }
    SamePairs(a, b, users, groups);
    assert a.users == b.users && a.orgs == b.orgs;
  }

  lemma SamePairs(a: Stage, b: Stage, users: seq<Item>, groups: seq<Item>)
    requires Lists(a, users, groups) && Lists(b, users, groups)
    ensures a.members == b.members && a.parents == b.parents
  {
    forall m: Pair
      ensures m in a.members <==> m in b.members
    {
      assert m == Pair(m.org, m.user);
    }
    forall x: Relation
      ensures x in a.parents <==> x in b.parents
    {
      assert x == Relation(x.child, x.parent);
    }
  }

  // ---- What the entries contribute to the streams ----

  /** A value is collected exactly if some entry contributes it. */
  lemma {:induction false} CollectedMeans<T>(items: seq<Item>, f: Item -> seq<T>, x: T)
    ensures x in Collect(items, f) <==> exists k :: 0 <= k < |items| && x in f(items[k])
    decreases |items|
  {
    if items != [] {
      var before, last := items[..|items| - 1], items[|items| - 1];
      CollectedMeans(before, f, x);
      if k :| 0 <= k < |items| && x in f(items[k]) {
        assert k < |before| ==> before[k] == items[k];
      }
      if k :| 0 <= k < |before| && x in f(before[k]) {
        assert items[k] == before[k];
      }
    }
  }

  lemma MembersOfItem(item: Item, o: string, u: string)
    ensures Pair(o, u) in MembersOf(item) <==> item.GroupResource? && item.id == o && u in item.users
  {
    if item.GroupResource? && item.id == o && u in item.users {
      var i :| 0 <= i < |item.users| && item.users[i] == u;
      assert MembersOf(item)[i] == Pair(o, u);
    }
  }

  lemma ParentsOfItem(item: Item, c: string, p: string)
    ensures Relation(c, p) in ParentsOf(item) <==> item.GroupResource? && item.id == p && c in item.groups
  {
    if item.GroupResource? && item.id == p && c in item.groups {
      var i :| 0 <= i < |item.groups| && item.groups[i] == c;
      assert ParentsOf(item)[i] == Relation(c, p);
    }
  }

  /** A membership is collected exactly if an entry of its group names its user. */
  lemma MembersMean(groups: seq<Item>, o: string, u: string)
    ensures Pair(o, u) in Collect(groups, MembersOf) <==> NamesUser(groups, o, u)
  {
    CollectedMeans(groups, MembersOf, Pair(o, u));
    forall k | 0 <= k < |groups|
      ensures Pair(o, u) in MembersOf(groups[k]) <==> IsGroup(groups, o, k) && u in groups[k].users
    {
      MembersOfItem(groups[k], o, u);
    }
  }

  /** A parent is collected exactly if an entry of the parent names the child. */
  lemma ParentsMean(groups: seq<Item>, c: string, p: string)
    ensures Relation(c, p) in Collect(groups, ParentsOf) <==> NamesChild(groups, p, c)
  {
    CollectedMeans(groups, ParentsOf, Relation(c, p));
    forall k | 0 <= k < |groups|
      ensures Relation(c, p) in ParentsOf(groups[k]) <==> IsGroup(groups, p, k) && c in groups[k].groups
    {
      ParentsOfItem(groups[k], c, p);
    }
  }

  // ---- Occurrences, entry by entry ----

  lemma NextIsUser(items: seq<Item>, item: Item, s: string, k: int)
    ensures IsUser(items + [item], s, k) <==> IsUser(items, s, k) || (k == |items| && IsUser([item], s, 0))
  {
    if 0 <= k < |items| {
      assert (items + [item])[k] == items[k];
    }
  }

  lemma NextIsGroup(items: seq<Item>, item: Item, e: string, k: int)
    ensures IsGroup(items + [item], e, k) <==> IsGroup(items, e, k) || (k == |items| && IsGroup([item], e, 0))
  {
    if 0 <= k < |items| {
      assert (items + [item])[k] == items[k];
    }
  }

  lemma UserPlacesGrow(items: seq<Item>, item: Item, s: string)
    ensures |UserPlaces(items + [item], s)| == |UserPlaces(items, s)| + if IsUser([item], s, 0) then 1 else 0
    ensures forall k :: IsUser(items + [item], s, k) <==>
                        IsUser(items, s, k) || (k == |items| && IsUser([item], s, 0))
  {
    forall k
      ensures IsUser(items + [item], s, k) <==> IsUser(items, s, k) || (k == |items| && IsUser([item], s, 0))
    {
      NextIsUser(items, item, s, k);
    }
    SameElements(UserPlaces(items + [item], s), UserPlaces(items, s) + if IsUser([item], s, 0) then {|items|} else {});
  }

  lemma GroupPlacesGrow(items: seq<Item>, item: Item, e: string)
    ensures |GroupPlaces(items + [item], e)| == |GroupPlaces(items, e)| + if IsGroup([item], e, 0) then 1 else 0
    ensures forall k :: IsGroup(items + [item], e, k) <==>
                        IsGroup(items, e, k) || (k == |items| && IsGroup([item], e, 0))
  {
    forall k
      ensures IsGroup(items + [item], e, k) <==> IsGroup(items, e, k) || (k == |items| && IsGroup([item], e, 0))
    {
      NextIsGroup(items, item, e, k);
    }
    SameElements(GroupPlaces(items + [item], e),
                 GroupPlaces(items, e) + if IsGroup([item], e, 0) then {|items|} else {});
  }
}
