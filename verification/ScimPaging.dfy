/**
 Reading a SCIM directory page by page: cursors, the checks on a list response, and
 the chain of accepted pages.
 */
module ScimPaging {
  import opened Wrappers
  import opened DirectoryModel

  datatype Resource = Users | Groups

  /** What a cursor carries; a total is pinned by the first page of its resource. */
  datatype Position = Position(
    resource: Resource, startIndex: int, pages: int, objects: int,
    usersTotal: Option<int>, groupsTotal: Option<int>)

  /** The stored cursor column: blank at the start, otherwise an encoded position. */
  datatype Cursor = Blank | Encoded(position: Position)

  datatype UserItem = UserItem(subject: string, username: string, displayName: string, email: string, enabled: bool)
  datatype OrgItem = OrgItem(id: string, name: string, parent: string)

  /** One decoded entry of a list response. */
  datatype Item =
    | UserResource(user: UserItem)
    | GroupResource(id: string, name: string, users: seq<string>, groups: seq<string>)
    | Malformed

  datatype ListResponse = ListResponse(schema: bool, total: int, start: int, itemsPerPage: int, resources: seq<Item>)

  datatype Page = Page(
    users: seq<UserItem>, orgs: seq<OrgItem>, members: seq<Pair>, parents: seq<Relation>,
    next: Cursor, complete: bool)

  datatype Config = Config(pageSize: nat, maximumPages: nat, maximumObjects: nat)

  predicate WellFormed(p: Position) {
    && p.startIndex >= 1 && p.pages >= 0 && p.objects >= 0
    && (p.usersTotal.Some? ==> p.usersTotal.value >= 0)
    && (p.groupsTotal.Some? ==> p.groupsTotal.value >= 0)
    && (p.resource == Groups ==> p.usersTotal.Some?)
  }

  const START := Position(Users, 1, 0, 0, None, None)

  /** `decodeSCIMCursor` */
  function Decode(c: Cursor): Option<Position> {
    if c.Blank? then Some(START)
    else if WellFormed(c.position) then Some(c.position)
    else None
  }

  /** `validateSCIMListResponse` */
  predicate ValidResponse(r: ListResponse, expectedStart: int, pageSize: nat) {
    && r.schema && r.total >= 0 && r.start == expectedStart
    && r.itemsPerPage == |r.resources| && |r.resources| <= pageSize && expectedStart >= 1
    && expectedStart - 1 + |r.resources| <= r.total
    && !(expectedStart <= r.total && |r.resources| == 0)
  }

  /** `pinSCIMTotalResults` */
  function Pin(p: Position, total: int): Option<Position> {
    if total < 0 then None
    else if p.resource == Users then
      if p.usersTotal.None? then Some(p.(usersTotal := Some(total)))
      else if p.usersTotal.value == total then Some(p) else None
    else
    if p.groupsTotal.None? then Some(p.(groupsTotal := Some(total)))
    else if p.groupsTotal.value == total then Some(p) else None
  }

  predicate Readable(resource: Resource, items: seq<Item>) {
    forall i :: 0 <= i < |items| ==> if resource == Users then items[i].UserResource? else items[i].GroupResource?
  }

  /** What `f` takes from each item, in order. */
  function Collect<T>(items: seq<Item>, f: Item -> seq<T>): seq<T> {
    if items == [] then [] else Collect(items[..|items| - 1], f) + f(items[|items| - 1])
  }

  function UserOf(item: Item): seq<UserItem> {
    if item.UserResource? then [item.user] else []
  }

  /** A group names its children rather than its parent. */
  function OrgOf(item: Item): seq<OrgItem> {
    if item.GroupResource? then [OrgItem(item.id, item.name, "")] else []
  }

  function MembersOf(item: Item): seq<Pair> {
    if item.GroupResource?
    then seq(|item.users|, i requires 0 <= i < |item.users| => Pair(item.id, item.users[i])) else []
  }

  function ParentsOf(item: Item): seq<Relation> {
    if item.GroupResource?
    then seq(|item.groups|, i requires 0 <= i < |item.groups| => Relation(item.groups[i], item.id)) else []
  }

  function ObjectsIn(items: seq<Item>): nat {
    |Collect(items, UserOf)| + |Collect(items, OrgOf)| + |Collect(items, MembersOf)| + |Collect(items, ParentsOf)|
  }

  /** `Sync`, given what the directory answered. */
  function Fetch(c: Config, cursor: Cursor, r: ListResponse): Option<Page> {
    match Decode(cursor)
    case None => None
    case Some(p) =>
      if p.pages >= c.maximumPages || p.objects >= c.maximumObjects
         || !ValidResponse(r, p.startIndex, c.pageSize) then None
      else
        match Pin(p, r.total)
        case None => None
        case Some(pinned) =>
          var items := r.resources;
          var counted := pinned.(pages := p.pages + 1, objects := p.objects + ObjectsIn(items));
          if !Readable(p.resource, items) || counted.objects > c.maximumObjects then None
          else
            var page := Page(Collect(items, UserOf), Collect(items, OrgOf), Collect(items, MembersOf),
                             Collect(items, ParentsOf),
                             Blank, false);
            var nextIndex := r.start + |items|;
            if nextIndex <= r.total then Some(page.(next := Encoded(counted.(startIndex := nextIndex))))
            else if p.resource == Users then Some(page.(next := Encoded(counted.(resource := Groups, startIndex := 1))))
            else Some(page.(complete := true))
  }

  // ---- Chains of accepted pages ----

  /** The response and page that were accepted for one cursor. */
  datatype Entry = Entry(cursor: Cursor, response: ListResponse, page: Page)

  ghost predicate Fetched(c: Config, e: Entry) {
    Fetch(c, e.cursor, e.response) == Some(e.page)
  }

  function CursorAfter(log: seq<Entry>): Cursor {
    if log == [] then Blank else log[|log| - 1].page.next
  }

  predicate Complete(log: seq<Entry>) {
    log != [] && log[|log| - 1].page.complete
  }

  /** Each page was fetched at the cursor its predecessor left. */
  ghost predicate Chain(c: Config, log: seq<Entry>)
    decreases |log|
  {
    log != [] ==>
      var before, e := log[..|log| - 1], log[|log| - 1];
      Chain(c, before) && !Complete(before) && e.cursor == CursorAfter(before) && Fetched(c, e)
  }

  function ResourceOf(e: Entry): Resource {
    match Decode(e.cursor)
    case Some(p) => p.resource
    case None => Users
  }

  /** All entries of one resource, in the order in which they were accepted. */
  function Items(log: seq<Entry>, resource: Resource): seq<Item>
    decreases |log|
  {
    if log == [] then []
    else
      var e := log[|log| - 1];
      Items(log[..|log| - 1], resource) + if ResourceOf(e) == resource then e.response.resources else []
  }

  /** The position says exactly how much of each resource has been accepted. */
  ghost predicate Covers(log: seq<Entry>, p: Position) {
    && WellFormed(p) && p.pages == |log|
    && match p.resource
       case Users =>
         && |Items(log, Users)| == p.startIndex - 1 && Items(log, Groups) == []
         && (p.startIndex > 1 ==> p.usersTotal.Some? && p.startIndex <= p.usersTotal.value)
         && (p.startIndex == 1 ==> log == [] && p.usersTotal.None?) && p.groupsTotal.None?
       case Groups =>
         && |Items(log, Users)| == p.usersTotal.value && |Items(log, Groups)| == p.startIndex - 1
         && (p.startIndex > 1 ==> p.groupsTotal.Some? && p.startIndex <= p.groupsTotal.value)
         && (p.startIndex == 1 ==> p.groupsTotal.None?)
  }

  /** Both resources have been read from index 1 to the total their first page announced. */
  ghost predicate CoversAll(log: seq<Entry>)
    requires log != []
  {
    exists p: Position ::
      && Decode(log[|log| - 1].cursor) == Some(p) && p.usersTotal.Some? && |Items(log, Users)| == p.usersTotal.value
      && |Items(log, Groups)| == log[|log| - 1].response.total
  }

  lemma FetchCovers(c: Config, log: seq<Entry>, e: Entry, p: Position)
    requires Covers(log, p) && Decode(e.cursor) == Some(p) && Fetched(c, e)
    ensures !e.page.complete ==> e.page.next.Encoded? && Covers(log + [e], e.page.next.position)
    ensures e.page.complete ==> CoversAll(log + [e])
  {
    var grown := log + [e];
    assert grown[..|grown| - 1] == log;
  }

  /**
   The page count of a cursor is the number of accepted pages, and the start index
   continues them without gap or overlap.
   */
  lemma {:induction false} ChainCovers(c: Config, log: seq<Entry>)
    requires Chain(c, log)
    ensures !Complete(log) ==> Decode(CursorAfter(log)).Some? && Covers(log, Decode(CursorAfter(log)).value)
    ensures Complete(log) ==> CoversAll(log) && CursorAfter(log) == Blank
    decreases |log|
  {
    if log != [] {
      var before, e := log[..|log| - 1], log[|log| - 1];
      ChainCovers(c, before);
      assert log == before + [e];
      FetchCovers(c, before, e, Decode(e.cursor).value);
    }
  }

  lemma {:induction false} ChainPrefix(c: Config, log: seq<Entry>, i: nat)
    requires Chain(c, log) && i <= |log|
    ensures Chain(c, log[..i])
    ensures i < |log| ==> !Complete(log[..i]) && log[i].cursor == CursorAfter(log[..i]) && Fetched(c, log[i])
    decreases |log|
  {
    if i < |log| {
      var before := log[..|log| - 1];
      if i == |log| - 1 {
        assert log[..i] == before;
      } else {
        ChainPrefix(c, before, i);
        assert before[..i] == log[..i] && before[i] == log[i];
      }
    } else {
      assert log[..i] == log;
    }
  }

  /** The page count strictly grows, so a cursor that has been left never comes back. */
  lemma CursorsNeverRepeat(c: Config, log: seq<Entry>, i: nat, j: nat)
    requires Chain(c, log) && i < j < |log|
    ensures Decode(log[i].cursor).Some? && Decode(log[i].cursor).value.pages == i
    ensures log[i].cursor != log[j].cursor
    ensures !Complete(log) ==> log[i].cursor != CursorAfter(log)
  {
    ChainPrefix(c, log, i);
    ChainPrefix(c, log, j);
    ChainCovers(c, log[..i]);
    ChainCovers(c, log[..j]);
    ChainCovers(c, log);
  }

  // ---- Against a directory that holds still ----

  /** The answer is the directory's entries from the requested index on, as many as it cares to send. */
  ghost predicate Answers(dir: seq<Item>, r: ListResponse) {
    && r.total == |dir| && 1 <= r.start && r.start - 1 + |r.resources| <= |dir|
    && r.resources == dir[r.start - 1..r.start - 1 + |r.resources|]
  }

  ghost predicate AnsweredBy(log: seq<Entry>, users: seq<Item>, groups: seq<Item>) {
    forall i :: 0 <= i < |log| ==> Answers(if ResourceOf(log[i]) == Users then users else groups, log[i].response)
  }

  lemma PrefixGrows(stream: seq<Item>, dir: seq<Item>, r: ListResponse)
    requires stream <= dir && |stream| == r.start - 1 && Answers(dir, r)
    ensures stream + r.resources <= dir
  {
    var n := |stream| + |r.resources|;
    assert stream == dir[..|stream|];
    assert dir[..n] == dir[..|stream|] + dir[|stream|..n];
  }

  lemma {:induction false} StreamIsPrefix(c: Config, log: seq<Entry>, users: seq<Item>, groups: seq<Item>)
    requires Chain(c, log) && AnsweredBy(log, users, groups)
    ensures Items(log, Users) <= users && Items(log, Groups) <= groups
    decreases |log|
  {
    if log != [] {
      var before, e := log[..|log| - 1], log[|log| - 1];
      assert AnsweredBy(before, users, groups);
      StreamIsPrefix(c, before, users, groups);
      ChainCovers(c, before);
      if ResourceOf(e) == Users {
        PrefixGrows(Items(before, Users), users, e.response);
      } else {
        PrefixGrows(Items(before, Groups), groups, e.response);
      }
    }
  }

  /** The totals a position has pinned are the directory's. */
  lemma {:induction false} PinnedTotal(c: Config, log: seq<Entry>, users: seq<Item>, groups: seq<Item>)
    requires Chain(c, log) && !Complete(log) && AnsweredBy(log, users, groups)
    ensures Decode(CursorAfter(log)).Some?
    ensures var p := Decode(CursorAfter(log)).value; p.usersTotal.Some? ==> p.usersTotal.value == |users|
    decreases |log|
  {
    ChainCovers(c, log);
    if log != [] {
      var before, e := log[..|log| - 1], log[|log| - 1];
      assert AnsweredBy(before, users, groups);
      PinnedTotal(c, before, users, groups);
      assert Answers(if ResourceOf(e) == Users then users else groups, e.response);
    }
  }

  /** A complete chain against an unchanging directory reads all of it, in order, once. */
  lemma CompleteFetchIsDirectory(c: Config, log: seq<Entry>, users: seq<Item>, groups: seq<Item>)
    requires Chain(c, log) && Complete(log) && AnsweredBy(log, users, groups)
    ensures Items(log, Users) == users && Items(log, Groups) == groups
  {
    var before, e := log[..|log| - 1], log[|log| - 1];
    StreamIsPrefix(c, log, users, groups);
    ChainCovers(c, log);
    assert AnsweredBy(before, users, groups);
    PinnedTotal(c, before, users, groups);
    ChainCovers(c, before);
    assert Answers(if ResourceOf(e) == Users then users else groups, e.response);
  }

  // ---- Termination ----

  function AtLeastOne(n: int): int {
    if n < 1 then 1 else n
  }

  /** Pages needed for the entries up to a position. */
  ghost function Reached(p: Position): int
    requires WellFormed(p)
  {
    match p.resource
    case Users => p.startIndex - 1
    case Groups => AtLeastOne(p.usersTotal.value) + p.startIndex - 1
  }

  /** Paging never takes more pages than entries, counting an empty resource as one, and never more than the limit. */
  lemma {:induction false} PagingTerminates(c: Config, log: seq<Entry>)
    requires Chain(c, log)
    ensures |log| <= c.maximumPages
    ensures !Complete(log) ==> Decode(CursorAfter(log)).Some? && WellFormed(Decode(CursorAfter(log)).value)
                               && |log| <= Reached(Decode(CursorAfter(log)).value)
    ensures Complete(log) ==> |log| <= AtLeastOne(|Items(log, Users)|) + AtLeastOne(|Items(log, Groups)|)
    decreases |log|
  {
    ChainCovers(c, log);
    if log != [] {
      var before, e := log[..|log| - 1], log[|log| - 1];
      ChainCovers(c, before);
      PagingTerminates(c, before);
      assert Fetched(c, e);
    }
  }
}
