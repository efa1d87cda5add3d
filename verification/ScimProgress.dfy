/** Which responses are accepted after which pages, and that an honest directory is read to its end. */
module ScimProgress {
  import opened ScimPaging
  import opened Wrappers
  import Staging = DirectoryStaging

  // ---- Where a chain stands ----

  /** The resource and index to ask for next, from the pages so far. */
  ghost function Next(log: seq<Entry>): (Resource, int)
    decreases |log|
  {
    if log == [] then (Users, 1)
    else
      var r := log[|log| - 1].response;
      var (resource, index) := Next(log[..|log| - 1]);
      if index + |r.resources| <= r.total then (resource, index + |r.resources|) else (Groups, 1)
  }

  ghost function ObjectsOf(log: seq<Entry>): nat
    decreases |log|
  {
    if log == [] then 0 else ObjectsOf(log[..|log| - 1]) + ObjectsIn(log[|log| - 1].response.resources)
  }

  /** The position is what the pages so far make it. */
  ghost predicate StandsAt(log: seq<Entry>, p: Position) {
    && (p.resource, p.startIndex) == Next(log) && p.pages == |log| && p.objects == ObjectsOf(log) && WellFormed(p)
    && (p.startIndex > 1 ==>
          log != [] && PinnedBy(p) == Some(log[|log| - 1].response.total)
          && p.startIndex <= log[|log| - 1].response.total)
    && (p.startIndex == 1 ==> PinnedBy(p).None?)
  }

  function PinnedBy(p: Position): Option<int> {
    if p.resource == Users then p.usersTotal else p.groupsTotal
  }

  lemma NextPage(c: Config, log: seq<Entry>, e: Entry, p: Position)
    requires StandsAt(log, p) && Decode(e.cursor) == Some(p) && Fetched(c, e)
    requires p.resource == Users ==> p.groupsTotal.None?
    ensures !e.page.complete ==>
              e.page.next.Encoded? && StandsAt(log + [e], e.page.next.position)
              && (e.page.next.position.resource == Users ==> e.page.next.position.groupsTotal.None?)
    ensures e.page.complete <==> p.resource == Groups && p.startIndex + |e.response.resources| > e.response.total
  {
    var grown := log + [e];
    assert grown[..|grown| - 1] == log && grown[|grown| - 1] == e;
  }

  lemma {:induction false} ChainStandsAt(c: Config, log: seq<Entry>)
    requires Chain(c, log) && !Complete(log)
    ensures Decode(CursorAfter(log)).Some? && StandsAt(log, Decode(CursorAfter(log)).value)
    ensures var p := Decode(CursorAfter(log)).value; p.resource == Users ==> p.groupsTotal.None?
    decreases |log|
  {
    if log != [] {
      var before, e := log[..|log| - 1], log[|log| - 1];
      ChainStandsAt(c, before);
      assert log == before + [e];
      NextPage(c, before, e, Decode(e.cursor).value);
    }
  }

  // ---- Which responses are accepted ----

  ghost predicate OfKind(resource: Resource, items: seq<Item>) {
    forall item :: item in items ==> match resource case Users => item.UserResource? case Groups => item.GroupResource?
  }

  /** A list response that continues the pages so far: from the next index on, with the total announced before. */
  ghost predicate Continues(c: Config, log: seq<Entry>, r: ListResponse) {
    var (resource, index) := Next(log);
    && r.schema && r.start == index && r.itemsPerPage == |r.resources| && |r.resources| <= c.pageSize
    && r.total >= index - 1 + |r.resources| && (r.resources == [] ==> r.total < index)
    && (index > 1 ==> log != [] && r.total == log[|log| - 1].response.total)
    && OfKind(resource, r.resources)
  }

  ghost predicate WithinLimits(c: Config, log: seq<Entry>, r: ListResponse) {
    && |log| < c.maximumPages && ObjectsOf(log) < c.maximumObjects
    && ObjectsOf(log) + ObjectsIn(r.resources) <= c.maximumObjects
  }

  lemma ReadableMeansOfKind(resource: Resource, items: seq<Item>)
    ensures Readable(resource, items) <==> OfKind(resource, items)
  {
    forall i | 0 <= i < |items|
      ensures items[i] in items
    {
    }
  }

  /** After any pages a response is accepted exactly if it continues them and stays within the limits. */
  lemma AcceptedIffContinues(c: Config, log: seq<Entry>, r: ListResponse)
    requires Chain(c, log) && !Complete(log)
    ensures Fetch(c, CursorAfter(log), r).Some? <==> Continues(c, log, r) && WithinLimits(c, log, r)
  {
    ChainStandsAt(c, log);
    var p := Decode(CursorAfter(log)).value;
    ReadableMeansOfKind(p.resource, r.resources);
  }

  /** A cursor is refused exactly if its numbers cannot be those of a chain. */
  lemma DecodeRefuses(p: Position)
    ensures Decode(Encoded(p)).None? <==>
            || p.startIndex <= 0 || p.pages < 0 || p.objects < 0
            || (p.usersTotal.Some? && p.usersTotal.value < 0) || (p.groupsTotal.Some? && p.groupsTotal.value < 0)
            || (p.resource == Groups && p.usersTotal.None?)
    ensures Decode(Encoded(p)).Some? ==> Decode(Encoded(p)) == Some(p)
  {
  }

  // ---- An honest directory ----

  /** What a directory that follows the protocol answers: full pages up to its end. */
  ghost function Honest(c: Config, dir: seq<Item>, index: int): ListResponse
    requires 1 <= index <= |dir| + 1
  {
    var n := if |dir| - (index - 1) < c.pageSize then |dir| - (index - 1) else c.pageSize;
    ListResponse(true, |dir|, index, n, dir[index - 1..index - 1 + n])
  }

  ghost predicate Suffices(c: Config, users: seq<Item>, groups: seq<Item>) {
    && c.pageSize >= 1 && c.maximumPages >= AtLeastOne(|users|) + AtLeastOne(|groups|)
    && c.maximumObjects > ObjectsIn(users) + ObjectsIn(groups)
  }

  lemma {:induction false} ObjectsSplit(log: seq<Entry>)
    ensures ObjectsOf(log) == ObjectsIn(Items(log, Users)) + ObjectsIn(Items(log, Groups))
    decreases |log|
  {
    if log != [] {
      var before, e := log[..|log| - 1], log[|log| - 1];
      ObjectsSplit(before);
      ObjectsJoin(Items(before, Users), e.response.resources);
      ObjectsJoin(Items(before, Groups), e.response.resources);
      assert Items(before, Users) + [] == Items(before, Users) && Items(before, Groups) + [] == Items(before, Groups);
    }
  }

  lemma ObjectsJoin(a: seq<Item>, b: seq<Item>)
    ensures ObjectsIn(a + b) == ObjectsIn(a) + ObjectsIn(b)
  {
    Staging.CollectJoin(a, b, UserOf);
    Staging.CollectJoin(a, b, OrgOf);
    Staging.CollectJoin(a, b, MembersOf);
    Staging.CollectJoin(a, b, ParentsOf);
  }

  lemma ObjectsOfPrefix(a: seq<Item>, dir: seq<Item>)
    requires a <= dir
    ensures ObjectsIn(a) <= ObjectsIn(dir)
  {
    ObjectsJoin(a, dir[|a|..]);
    assert a + dir[|a|..] == dir;
  }

  /** A chain that is not complete still lacks something, and pages and objects are left for it. */
  lemma RoomIsLeft(c: Config, log: seq<Entry>, users: seq<Item>, groups: seq<Item>)
    requires Chain(c, log) && !Complete(log) && AnsweredBy(log, users, groups) && Suffices(c, users, groups)
    ensures |log| < AtLeastOne(|users|) + AtLeastOne(|groups|) && ObjectsOf(log) < c.maximumObjects
    ensures var (resource, index) := Next(log); 1 <= index <= |if resource == Users then users else groups| + 1
    ensures var (resource, index) := Next(log); index > 1 ==>
              log != [] && log[|log| - 1].response.total
                           == |if resource == Users then users else groups|
  {
    ChainStandsAt(c, log);
    PagingTerminates(c, log);
    PinnedTotal(c, log, users, groups);
    StreamIsPrefix(c, log, users, groups);
    ObjectsSplit(log);
    ObjectsOfPrefix(Items(log, Users), users);
    ObjectsOfPrefix(Items(log, Groups), groups);
    if log != [] {
      LastTotal(c, log, users, groups);
    }
  }

  lemma LastTotal(c: Config, log: seq<Entry>, users: seq<Item>, groups: seq<Item>)
    requires Chain(c, log) && !Complete(log) && AnsweredBy(log, users, groups) && log != []
    ensures var (resource, index) := Next(log);
            index > 1 ==> log[|log| - 1].response.total == |if resource == Users then users else groups|
  {
    var before, e := log[..|log| - 1], log[|log| - 1];
    ChainStandsAt(c, before);
    assert Answers(if ResourceOf(e) == Users then users else groups, e.response);
  }

  lemma SliceOfKind(resource: Resource, dir: seq<Item>, a: nat, b: nat)
    requires a <= b <= |dir| && OfKind(resource, dir)
    ensures OfKind(resource, dir[a..b])
  {
    forall item | item in dir[a..b]
      ensures item in dir
    {
    }
  }

  /** A full page, or the last one, from the directory's entries. */
  ghost predicate IsHonest(c: Config, dir: seq<Item>, index: int, r: ListResponse) {
    && Answers(dir, r) && r.schema && r.start == index && r.itemsPerPage == |r.resources| <= c.pageSize
    && (r.resources == [] ==> index > |dir|)
  }

  lemma HonestIsHonest(c: Config, dir: seq<Item>, index: int)
    requires 1 <= index <= |dir| + 1 && c.pageSize >= 1
    ensures IsHonest(c, dir, index, Honest(c, dir, index))
  {
  }

  lemma AnswerOfKind(resource: Resource, dir: seq<Item>, r: ListResponse)
    requires Answers(dir, r) && OfKind(resource, dir)
    ensures OfKind(resource, r.resources)
  {
    SliceOfKind(resource, dir, r.start - 1, r.start - 1 + |r.resources|);
  }

  lemma HonestContinues(
    c: Config, log: seq<Entry>, resource: Resource, index: int, dir: seq<Item>, r: ListResponse)
    requires Next(log) == (resource, index) && IsHonest(c, dir, index, r) && OfKind(resource, dir)
    requires index > 1 ==> log != [] && log[|log| - 1].response.total == |dir|
    ensures Continues(c, log, r)
  {
    AnswerOfKind(resource, dir, r);
  }

  /** With the next honest page a chain still holds no more objects than the directory. */
  lemma HonestFits(
    c: Config, log: seq<Entry>, users: seq<Item>, groups: seq<Item>, resource: Resource, index: int, r: ListResponse)
    requires Chain(c, log) && !Complete(log) && AnsweredBy(log, users, groups) && Next(log) == (resource, index)
    requires IsHonest(c, if resource == Users then users else groups, index, r)
    ensures ObjectsOf(log) + ObjectsIn(r.resources) <= ObjectsIn(users) + ObjectsIn(groups)
  {
    StreamIsPrefix(c, log, users, groups);
    ObjectsSplit(log);
    ObjectsOfPrefix(Items(log, Users), users);
    ObjectsOfPrefix(Items(log, Groups), groups);
    ReadSoFar(c, log, resource, index);
    MoreObjects(Items(log, resource), if resource == Users then users else groups, r);
  }

  lemma ReadSoFar(c: Config, log: seq<Entry>, resource: Resource, index: int)
    requires Chain(c, log) && !Complete(log) && Next(log) == (resource, index)
    ensures |Items(log, resource)| == index - 1
  {
    ChainStandsAt(c, log);
    ChainCovers(c, log);
  }

  lemma MoreObjects(read: seq<Item>, dir: seq<Item>, r: ListResponse)
    requires read <= dir && Answers(dir, r) && |read| == r.start - 1
    ensures ObjectsIn(read) + ObjectsIn(r.resources) <= ObjectsIn(dir)
  {
    PrefixGrows(read, dir, r);
    ObjectsJoin(read, r.resources);
    ObjectsOfPrefix(read + r.resources, dir);
  }

  lemma AddedPage(c: Config, log: seq<Entry>, users: seq<Item>, groups: seq<Item>, e: Entry)
    requires Chain(c, log) && !Complete(log) && AnsweredBy(log, users, groups)
    requires e.cursor == CursorAfter(log) && Fetched(c, e)
    requires Answers(if ResourceOf(e) == Users then users else groups, e.response)
    ensures Chain(c, log + [e]) && AnsweredBy(log + [e], users, groups)
  {
    var more := log + [e];
    assert more[..|more| - 1] == log;
    forall i | 0 <= i < |more|
      ensures Answers(if ResourceOf(more[i]) == Users then users else groups, more[i].response)
    {
      assert i < |log| ==> more[i] == log[i];
    }
  }

  lemma NextHonestPage(c: Config, log: seq<Entry>, users: seq<Item>, groups: seq<Item>) returns (more: seq<Entry>)
    requires Chain(c, log) && !Complete(log) && AnsweredBy(log, users, groups) && Suffices(c, users, groups)
    requires OfKind(Users, users) && OfKind(Groups, groups)
    ensures Chain(c, more) && AnsweredBy(more, users, groups) && |more| == |log| + 1
  {
    RoomIsLeft(c, log, users, groups);
    var (resource, index) := Next(log);
    var dir := if resource == Users then users else groups;
    HonestIsHonest(c, dir, index);
    more := AddHonestPage(c, log, users, groups, resource, index, Honest(c, dir, index));
  }

  lemma AddHonestPage(
    c: Config, log: seq<Entry>, users: seq<Item>, groups: seq<Item>, resource: Resource, index: int, r: ListResponse)
    returns (more: seq<Entry>)
    requires Chain(c, log) && !Complete(log) && AnsweredBy(log, users, groups) && Next(log) == (resource, index)
    requires OfKind(Users, users) && OfKind(Groups, groups)
    requires var dir := if resource == Users then users else groups;
             IsHonest(c, dir, index, r) && (index > 1 ==> log != [] && log[|log| - 1].response.total == |dir|)
    requires |log| < c.maximumPages && ObjectsOf(log) < c.maximumObjects
    requires ObjectsIn(users) + ObjectsIn(groups) <= c.maximumObjects
    ensures Chain(c, more) && AnsweredBy(more, users, groups) && |more| == |log| + 1
  {
    HonestContinues(c, log, resource, index, if resource == Users then users else groups, r);
    HonestFits(c, log, users, groups, resource, index, r);
    AcceptedIffContinues(c, log, r);
    ChainStandsAt(c, log);
    var e := Entry(CursorAfter(log), r, Fetch(c, CursorAfter(log), r).value);
    AddedPage(c, log, users, groups, e);
    more := log + [e];
  }

  lemma {:induction false} ReadToTheEnd(c: Config, log: seq<Entry>, users: seq<Item>, groups: seq<Item>)
    returns (all: seq<Entry>)
    requires Chain(c, log) && AnsweredBy(log, users, groups) && Suffices(c, users, groups)
    requires OfKind(Users, users) && OfKind(Groups, groups)
    requires |log| <= AtLeastOne(|users|) + AtLeastOne(|groups|)
    ensures Chain(c, all) && Complete(all) && AnsweredBy(all, users, groups)
    decreases AtLeastOne(|users|) + AtLeastOne(|groups|) - |log|
  {
    all := log;
    if !Complete(log) {
      RoomIsLeft(c, log, users, groups);
      var more := NextHonestPage(c, log, users, groups);
      all := ReadToTheEnd(c, more, users, groups);
    }
  }

  /**
   A directory that follows the protocol and holds still is read to its end, for every page size,
   if pages for all entries and room for all objects are allowed.
   */
  lemma HonestDirectoryIsFetched(c: Config, users: seq<Item>, groups: seq<Item>) returns (log: seq<Entry>)
    requires OfKind(Users, users) && OfKind(Groups, groups) && Suffices(c, users, groups)
    ensures Chain(c, log) && Complete(log) && Items(log, Users) == users && Items(log, Groups) == groups
  {
    log := ReadToTheEnd(c, [], users, groups);
    CompleteFetchIsDirectory(c, log, users, groups);
  }
}
