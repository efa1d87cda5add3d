/**
 Catalog publication: versions are reserved, a record is committed, its role objects
 are stored, and only then the current pointer moves.  Any number of workers may run
 the same job, at any time stop for good, or be retried.
 */
module Publication {
  import opened Wrappers

  datatype Role = Root | Targets | Snapshot | Timestamp | Revocation

  const ROLES: seq<Role> := [Root, Targets, Snapshot, Timestamp, Revocation]

  datatype Channel = Channel(product: string, name: string)
  datatype Versions = Versions(root: nat, targets: nat, snapshot: nat, timestamp: nat, revocation: nat)
  datatype Document = Document(envelope: string, digest: string)
  datatype Key = Key(catalog: string, role: Role)

  datatype Record = Record(
    attempt: string, release: string, channel: Channel, versions: Versions, documents: map<Role, Document>)

  datatype AttemptStatus = Pending | Succeeded | Failed

  /** A worker between loading its record and switching the pointer. */
  datatype Worker = Worker(catalog: string, verified: set<Role>)

  datatype World = World(
    records: map<string, Record>, created: seq<string>,
    counters: map<Channel, Versions>, current: map<Channel, string>,
    staging: map<Key, string>, objects: map<Key, string>,
    attempts: map<string, AttemptStatus>, workers: map<string, Worker>)

  // ---- Single operations ----

  /** `ReserveVersions`: the first reservation starts at 1, a later one adds 1 and refuses an older root. */
  function Reserved(w: World, channel: Channel, rootVersion: nat): Option<Versions> {
    if channel.product == "" || channel.name == "" || rootVersion == 0 then None
    else if channel !in w.counters then Some(Versions(rootVersion, 1, 1, 1, 1))
    else
      var v := w.counters[channel];
      if v.root > rootVersion then None
      else Some(Versions(rootVersion, v.targets + 1, v.snapshot + 1, v.timestamp + 1, v.revocation + 1))
  }

  predicate CompleteDocuments(documents: map<Role, Document>) {
    forall role: Role :: role in documents
  }

  /** The documents of a new record carry the digests of their envelopes. */
  ghost predicate Digested(sha: string -> string, documents: map<Role, Document>) {
    forall role :: role in documents ==> documents[role].digest == sha(documents[role].envelope)
  }

  /** `verifyRoleObject` */
  predicate ObjectVerifies(sha: string -> string, objects: map<Key, string>, key: Key, document: Document) {
    key in objects && |objects[key]| == |document.envelope| && sha(objects[key]) == document.digest
  }

  // ---- Steps ----

  datatype Event =
    | CreateRecord(catalog: string, record: Record, rootVersion: nat)
    | Load(worker: string, catalog: string)
    | Upload(worker: string, role: Role)
    | Promote(worker: string, role: Role)
    | DropStaging(key: Key)
    | VerifyObject(worker: string, role: Role)
    | Switch(worker: string)
    | DeadLetter(attempt: string)
    | Crash(worker: string)

  ghost predicate Creates(sha: string -> string, w: World, e: Event, z: World)
    requires e.CreateRecord?
  {
    var r := e.record;
    && e.catalog !in w.records
    && (forall id :: id in w.records ==> w.records[id].attempt != r.attempt)
    && Reserved(w, r.channel, e.rootVersion) == Some(r.versions)
    && CompleteDocuments(r.documents) && Digested(sha, r.documents)
    && z == w.(records := w.records[e.catalog := r], created := w.created + [e.catalog],
            counters := w.counters[r.channel := r.versions])
  }

  ghost predicate WorkerAt(w: World, worker: string) {
    worker in w.workers && w.workers[worker].catalog in w.records
    && CompleteDocuments(w.records[w.workers[worker].catalog].documents)
  }

  function DocumentOf(w: World, worker: string, role: Role): Document
    requires worker in w.workers && w.workers[worker].catalog in w.records
    requires role in w.records[w.workers[worker].catalog].documents
  {
    w.records[w.workers[worker].catalog].documents[role]
  }

  /** One committed transaction or one call to the object store. */
  ghost predicate Step(sha: string -> string, w: World, e: Event, z: World) {
    match e
    case CreateRecord(_, _, _) => Creates(sha, w, e, z)
    case Load(worker, catalog) =>
      catalog in w.records && z == w.(workers := w.workers[worker := Worker(catalog, {})])
    case Upload(worker, role) =>
      WorkerAt(w, worker)
      && var key := Key(w.workers[worker].catalog, role);
      z == w.(staging := w.staging[key := DocumentOf(w, worker, role).envelope])
    case Promote(worker, role) =>
      WorkerAt(w, worker)
      && var key := Key(w.workers[worker].catalog, role);
      key in w.staging && key !in w.objects && z == w.(objects := w.objects[key := w.staging[key]])
    case DropStaging(key) => z == w.(staging := w.staging - {key})
    case VerifyObject(worker, role) =>
      WorkerAt(w, worker)
      && var at := w.workers[worker];
      ObjectVerifies(sha, w.objects, Key(at.catalog, role), DocumentOf(w, worker, role))
      && z == w.(workers := w.workers[worker := at.(verified := at.verified + {role})])
    case Switch(worker) =>
      WorkerAt(w, worker)
      && var at := w.workers[worker];
      var r := w.records[at.catalog];
      && (forall role: Role :: role in at.verified)
      && r.attempt in w.attempts && w.attempts[r.attempt] == Pending
      && z == w.(current := w.current[r.channel := at.catalog], attempts := w.attempts[r.attempt := Succeeded],
              workers := w.workers - {worker})
    case DeadLetter(attempt) =>
      attempt in w.attempts && w.attempts[attempt] == Pending && z == w.(attempts := w.attempts[attempt := Failed])
    case Crash(worker) => z == w.(workers := w.workers - {worker})
  }

  ghost predicate Initial(w: World) {
    && w.records == map[] && w.created == [] && w.counters == map[] && w.current == map[]
    && w.staging == map[] && w.objects == map[] && w.workers == map[]
  }

  ghost predicate Run(sha: string -> string, r: seq<World>, events: seq<Event>) {
    && |r| == |events| + 1 && Initial(r[0])
    && forall i, j :: 0 <= i && j == i + 1 && j < |r| ==> Step(sha, r[i], events[i], r[j])
  }

  // ---- The invariant ----

  type Records = map<string, Record>

  /** The object of this role is the committed envelope, byte for byte. */
  ghost predicate RoleStored(records: Records, objects: map<Key, string>, catalog: string, role: Role) {
    && catalog in records && role in records[catalog].documents && Key(catalog, role) in objects
    && objects[Key(catalog, role)] == records[catalog].documents[role].envelope
  }

  ghost predicate AllStored(records: Records, objects: map<Key, string>, catalog: string) {
    forall role: Role :: RoleStored(records, objects, catalog, role)
  }

  /** Whatever is staged or stored under a key is the envelope committed for that key. */
  ghost predicate Committed(records: Records, contents: map<Key, string>) {
    forall key :: key in contents ==> RoleStored(records, contents, key.catalog, key.role)
  }

  ghost predicate Above(a: Versions, b: Versions) {
    a.root <= b.root && a.targets < b.targets && a.snapshot < b.snapshot && a.timestamp < b.timestamp
    && a.revocation < b.revocation
  }

  ghost predicate AtMost(a: Versions, b: Versions) {
    a == b || Above(a, b)
  }

  ghost predicate VersionsRise(records: Records, created: seq<string>, counters: map<Channel, Versions>) {
    && (forall id :: id in created <==> id in records)
    && (forall i, j :: 0 <= i < j < |created| ==> created[i] != created[j])
    && (forall i, j :: 0 <= i < j < |created| && records[created[i]].channel == records[created[j]].channel ==>
                         Above(records[created[i]].versions, records[created[j]].versions))
    && (forall id :: id in records ==>
                       records[id].channel in counters && AtMost(records[id].versions, counters[records[id].channel]))
  }

  ghost predicate PointersHold(records: Records, objects: map<Key, string>, current: map<Channel, string>) {
    forall c :: c in current ==>
                  current[c] in records && records[current[c]].channel == c && AllStored(records, objects, current[c])
  }

  ghost predicate WorkersHold(records: Records, objects: map<Key, string>, workers: map<string, Worker>) {
    forall k :: k in workers ==> WorkerHolds(records, objects, workers[k])
  }

  ghost predicate WorkerHolds(records: Records, objects: map<Key, string>, at: Worker) {
    && at.catalog in records
    && forall role :: role in at.verified ==> RoleStored(records, objects, at.catalog, role)
  }

  ghost predicate OneRecordPerAttempt(records: Records) {
    forall a, b :: a in records && b in records && records[a].attempt == records[b].attempt ==> a == b
  }

  ghost predicate RecordsHold(sha: string -> string, records: Records) {
    forall id :: id in records ==> CompleteDocuments(records[id].documents) && Digested(sha, records[id].documents)
  }

  ghost predicate Invariant(sha: string -> string, w: World) {
    && VersionsRise(w.records, w.created, w.counters) && OneRecordPerAttempt(w.records) && RecordsHold(sha, w.records)
    && Committed(w.records, w.staging) && Committed(w.records, w.objects)
    && PointersHold(w.records, w.objects, w.current) && WorkersHold(w.records, w.objects, w.workers)
  }

  ghost predicate Extends<K(!new), V>(m: map<K, V>, n: map<K, V>) {
    forall k :: k in m ==> k in n && n[k] == m[k]
  }

  /** What is stored stays stored: records and promoted objects are never replaced. */
  lemma StoredStays(w: World, z: World)
    requires Extends(w.records, z.records) && Extends(w.objects, z.objects)
    ensures PointersHold(w.records, w.objects, w.current) ==> PointersHold(z.records, z.objects, w.current)
    ensures WorkersHold(w.records, w.objects, w.workers) ==> WorkersHold(z.records, z.objects, w.workers)
  {
    forall id, role | RoleStored(w.records, w.objects, id, role)
      ensures RoleStored(z.records, z.objects, id, role)
    {
    }
    forall id | AllStored(w.records, w.objects, id)
      ensures AllStored(z.records, z.objects, id)
    {
      forall role: Role
        ensures RoleStored(z.records, z.objects, id, role)
      {
        assert RoleStored(w.records, w.objects, id, role);
      }
    }
  }

  lemma CreateRaises(w: World, z: World, catalog: string, r: Record, rootVersion: nat)
    requires VersionsRise(w.records, w.created, w.counters)
    requires catalog !in w.records && Reserved(w, r.channel, rootVersion) == Some(r.versions)
    requires z.records == w.records[catalog := r] && z.created == w.created + [catalog]
    requires z.counters == w.counters[r.channel := r.versions]
    ensures VersionsRise(z.records, z.created, z.counters)
  {
    var n := |w.created|;
    forall i | 0 <= i < n
      ensures w.created[i] in w.records && w.created[i] != catalog
      ensures w.records[w.created[i]].channel == r.channel ==> Above(w.records[w.created[i]].versions, r.versions)
    {
      assert w.created[i] in w.created;
    }
    forall id | id in z.records
      ensures z.records[id].channel in z.counters && AtMost(z.records[id].versions, z.counters[z.records[id].channel])
    {
      if id != catalog {
        assert AtMost(w.records[id].versions, w.counters[w.records[id].channel]);
      }
    }
  }

  lemma CommittedStays(records: Records, more: Records, contents: map<Key, string>)
    requires Committed(records, contents) && Extends(records, more)
    ensures Committed(more, contents)
  {
    forall key | key in contents
      ensures RoleStored(more, contents, key.catalog, key.role)
    {
      assert RoleStored(records, contents, key.catalog, key.role);
    }
  }

  lemma CreateKeeps(sha: string -> string, w: World, catalog: string, r: Record, rootVersion: nat, z: World)
    requires Invariant(sha, w) && Step(sha, w, CreateRecord(catalog, r, rootVersion), z)
    ensures Invariant(sha, z)
  {
    CreateRaises(w, z, catalog, r, rootVersion);
    StoredStays(w, z);
    CommittedStays(w.records, z.records, w.staging);
    CommittedStays(w.records, z.records, w.objects);
  }

  lemma LoadKeeps(sha: string -> string, w: World, worker: string, catalog: string, z: World)
    requires Invariant(sha, w) && Step(sha, w, Load(worker, catalog), z)
    ensures Invariant(sha, z)
  {
    assert WorkerHolds(w.records, w.objects, Worker(catalog, {}));
  }

  /** Putting the committed envelope under one more key. */
  lemma PutKeeps(records: Records, contents: map<Key, string>, key: Key, content: string)
    requires Committed(records, contents) && RoleStored(records, map[key := content], key.catalog, key.role)
    ensures Committed(records, contents[key := content])
  {
    forall other | other in contents[key := content]
      ensures RoleStored(records, contents[key := content], other.catalog, other.role)
    {
      if other != key {
        assert RoleStored(records, contents, other.catalog, other.role);
      }
    }
  }

  lemma UploadKeeps(sha: string -> string, w: World, worker: string, role: Role, z: World)
    requires Invariant(sha, w) && Step(sha, w, Upload(worker, role), z)
    ensures Invariant(sha, z)
  {
    PutKeeps(w.records, w.staging, Key(w.workers[worker].catalog, role), DocumentOf(w, worker, role).envelope);
  }

  lemma PromoteKeeps(sha: string -> string, w: World, worker: string, role: Role, z: World)
    requires Invariant(sha, w) && Step(sha, w, Promote(worker, role), z)
    ensures Invariant(sha, z)
  {
    var key := Key(w.workers[worker].catalog, role);
    assert RoleStored(w.records, w.staging, key.catalog, key.role);
    PutKeeps(w.records, w.objects, key, w.staging[key]);
    StoredStays(w, z);
  }

  lemma DropKeeps(sha: string -> string, w: World, key: Key, z: World)
    requires Invariant(sha, w) && Step(sha, w, DropStaging(key), z)
    ensures Invariant(sha, z)
  {
    forall other | other in z.staging
      ensures RoleStored(z.records, z.staging, other.catalog, other.role)
    {
      assert RoleStored(w.records, w.staging, other.catalog, other.role);
    }
  }

  lemma VerifyKeeps(sha: string -> string, w: World, worker: string, role: Role, z: World)
    requires Invariant(sha, w) && Step(sha, w, VerifyObject(worker, role), z)
    ensures Invariant(sha, z)
  {
    assert RoleStored(w.records, w.objects, w.workers[worker].catalog, role);
    assert WorkerHolds(w.records, w.objects, w.workers[worker]);
    assert WorkerHolds(w.records, w.objects, z.workers[worker]);
  }

  lemma SwitchKeeps(sha: string -> string, w: World, worker: string, z: World)
    requires Invariant(sha, w) && Step(sha, w, Switch(worker), z)
    ensures Invariant(sha, z)
  {
    assert WorkerHolds(w.records, w.objects, w.workers[worker]);
    assert AllStored(w.records, w.objects, w.workers[worker].catalog);
  }

  lemma StepKeeps(sha: string -> string, w: World, e: Event, z: World)
    requires Invariant(sha, w) && Step(sha, w, e, z)
    ensures Invariant(sha, z)
  {
    match e
    case CreateRecord(catalog, r, rootVersion) => CreateKeeps(sha, w, catalog, r, rootVersion, z);
    case Load(worker, catalog) => LoadKeeps(sha, w, worker, catalog, z);
    case Upload(worker, role) => UploadKeeps(sha, w, worker, role, z);
    case Promote(worker, role) => PromoteKeeps(sha, w, worker, role, z);
    case DropStaging(key) => DropKeeps(sha, w, key, z);
    case VerifyObject(worker, role) => VerifyKeeps(sha, w, worker, role, z);
    case Switch(worker) => SwitchKeeps(sha, w, worker, z);
    case _ =>
  }

  lemma {:induction false} RunKeeps(sha: string -> string, r: seq<World>, events: seq<Event>, i: nat)
    requires Run(sha, r, events) && i < |r|
    ensures Invariant(sha, r[i])
    decreases i
  {
    if i > 0 {
      RunKeeps(sha, r, events, i - 1);
      StepKeeps(sha, r[i - 1], events[i - 1], r[i]);
    }
  }

  /**
   In every reachable state the current pointer of a channel names a record of that
   channel whose five role objects are the committed envelopes, byte for byte.
   */
  lemma CurrentIsStored(sha: string -> string, r: seq<World>, events: seq<Event>, i: nat, c: Channel, role: Role)
    requires Run(sha, r, events) && i < |r| && c in r[i].current
    ensures var w := r[i];
            && w.current[c] in w.records && w.records[w.current[c]].channel == c
            && RoleStored(w.records, w.objects, w.current[c], role)
            && w.records[w.current[c]].documents[role].digest == sha(w.objects[Key(w.current[c], role)])
  {
    RunKeeps(sha, r, events, i);
    assert AllStored(r[i].records, r[i].objects, r[i].current[c]);
    assert RoleStored(r[i].records, r[i].objects, r[i].current[c], role);
  }

  /** Whatever any worker ever stored is the committed envelope, so verifying a stored object never fails. */
  lemma StoredObjectsVerify(sha: string -> string, r: seq<World>, events: seq<Event>, i: nat, key: Key)
    requires Run(sha, r, events) && i < |r| && key in r[i].objects
    ensures RoleStored(r[i].records, r[i].objects, key.catalog, key.role)
    ensures ObjectVerifies(sha, r[i].objects, key, r[i].records[key.catalog].documents[key.role])
  {
    RunKeeps(sha, r, events, i);
  }

  /**
   One attempt commits at most one record, and versions of a channel rise with every record
   while its root never falls.
   */
  lemma RecordsAreOrdered(sha: string -> string, r: seq<World>, events: seq<Event>, i: nat, a: nat, b: nat)
    requires Run(sha, r, events) && i < |r| && a < b < |r[i].created|
    ensures var w := r[i];
            && w.created[a] in w.records && w.created[b] in w.records
            && w.records[w.created[a]].attempt != w.records[w.created[b]].attempt
            && (w.records[w.created[a]].channel == w.records[w.created[b]].channel ==>
                  Above(w.records[w.created[a]].versions, w.records[w.created[b]].versions))
  {
    RunKeeps(sha, r, events, i);
    assert r[i].created[a] in r[i].created && r[i].created[b] in r[i].created;
  }
}
