/**
 One publication job as the service runs it, without interference; every state it
 passes through is recorded as a step of the runs in `Publication`.
 */
module PublicationService {
  import opened Publication
  import opened Wrappers

  class Service {
    const sha: string -> string
    var w: World
    ghost var past: seq<World>
    ghost var events: seq<Event>

    ghost predicate Valid()
      reads this
    {
      Run(sha, past, events) && w == past[|past| - 1]
    }

    constructor (sha: string -> string, attempts: map<string, AttemptStatus>)
      ensures Valid() && w == World(map[], [], map[], map[], map[], map[], attempts, map[])
      ensures this.sha == sha
    {
      this.sha := sha;
      w := World(map[], [], map[], map[], map[], map[], attempts, map[]);
      past, events := [World(map[], [], map[], map[], map[], map[], attempts, map[])], [];
    }

    ghost method Note(e: Event, before: World)
      requires Run(sha, past, events) && before == past[|past| - 1] && Step(sha, before, e, w)
      modifies `past, `events
      ensures Valid()
    {
      past, events := past + [w], events + [e];
    }

    /** Every state of the service is a state of a run. */
    lemma Holds()
      requires Valid()
      ensures Invariant(sha, w)
    {
      RunKeeps(sha, past, events, |past| - 1);
    }

    lemma Present(worker: string, role: Role)
      requires Valid() && WorkerAt(w, worker) && Key(w.workers[worker].catalog, role) in w.objects
      ensures RoleStored(w.records, w.objects, w.workers[worker].catalog, role)
      ensures ObjectVerifies(sha, w.objects, Key(w.workers[worker].catalog, role), DocumentOf(w, worker, role))
    {
      StoredObjectsVerify(sha, past, events, |past| - 1, Key(w.workers[worker].catalog, role));
    }

    /** `createPublicationRecordWithBuilder`: reserve, build and insert in one transaction. */
    method Create(
      catalog: string, attempt: string, release: string, channel: Channel, rootVersion: nat,
      envelopes: map<Role, string>)
      returns (ok: bool)
      requires Valid() && catalog !in w.records && forall role: Role :: role in envelopes
      modifies this
      ensures Valid()
      ensures var versions := Reserved(old(w), channel, rootVersion);
              && (ok <==> versions.Some? && forall id :: id in old(w.records) ==> old(w.records)[id].attempt != attempt)
              && (!ok ==> w == old(w))
              && (ok ==>
                    var record := Record(attempt, release, channel, versions.value, Documents(envelopes));
                    w == old(w).(records := old(w.records)[catalog := record], created := old(w.created) + [catalog],
                    counters := old(w.counters)[channel := versions.value]))
    {
      var before := w;
      var versions := Reserved(w, channel, rootVersion);
      if versions.None? || exists id :: id in w.records && w.records[id].attempt == attempt {
        return false;
      }
      var record := Record(attempt, release, channel, versions.value, Documents(envelopes));
      w := w.(records := w.records[catalog := record], created := w.created + [catalog],
      counters := w.counters[channel := versions.value]);
      Note(CreateRecord(catalog, record, rootVersion), before);
      ok := true;
    }

    /** The documents of a new record: each envelope with its digest. */
    function Documents(envelopes: map<Role, string>): map<Role, Document> {
      map role | role in envelopes :: Document(envelopes[role], sha(envelopes[role]))
    }

    /**
     `persistRole`: an existing object is only verified, a missing one is uploaded, promoted
     and verified; either way it is then there.
     */
    method PersistRole(worker: string, role: Role) returns (ok: bool)
      requires Valid() && WorkerAt(w, worker)
      modifies this
      ensures Valid() && WorkerAt(w, worker) && KeepsTables(old(w), w, worker)
      ensures ok && RoleStored(w.records, w.objects, w.workers[worker].catalog, role)
      ensures w.workers[worker].verified == old(w).workers[worker].verified + {role}
    {
      if Key(w.workers[worker].catalog, role) !in w.objects {
        Store(worker, role);
      }
      Present(worker, role);
      ok := Check(worker, role);
    }

    /** `verifyRoleObject` */
    method Check(worker: string, role: Role) returns (ok: bool)
      requires Valid() && WorkerAt(w, worker)
      modifies this
      ensures Valid()
      ensures ok <==> ObjectVerifies(sha, old(w.objects), Key(old(w).workers[worker].catalog, role),
                                     DocumentOf(old(w), worker, role))
      ensures var at := old(w).workers[worker];
              w == if ok then old(w).(workers := old(w.workers)[worker := Worker(at.catalog, at.verified + {role})])
              else old(w)
    {
      var at, document := w.workers[worker], DocumentOf(w, worker, role);
      var key := Key(at.catalog, role);
      ok := key in w.objects && |w.objects[key]| == |document.envelope| && sha(w.objects[key]) == document.digest;
      if ok {
        ghost var before := w;
        w := w.(workers := w.workers[worker := at.(verified := at.verified + {role})]);
        Note(VerifyObject(worker, role), before);
      }
    }

    method Store(worker: string, role: Role)
      requires Valid() && WorkerAt(w, worker) && Key(w.workers[worker].catalog, role) !in w.objects
      modifies this
      ensures Valid()
      ensures var key, envelope := Key(old(w).workers[worker].catalog, role), DocumentOf(old(w), worker, role).envelope;
              w == old(w).(staging := w.staging, objects := old(w.objects)[key := envelope])
    {
      var key, document := Key(w.workers[worker].catalog, role), DocumentOf(w, worker, role);
      ghost var before := w;
      w := w.(staging := w.staging[key := document.envelope]);
      Note(Upload(worker, role), before);
      ghost var uploaded := w;
      w := w.(objects := w.objects[key := w.staging[key]]);
      Note(Promote(worker, role), uploaded);
      ghost var promoted := w;
      w := w.(staging := w.staging - {key});
      Note(DropStaging(key), promoted);
    }

    /** The loop over the five roles. */
    method PersistAll(worker: string)
      requires Valid() && WorkerAt(w, worker)
      modifies this
      ensures Valid() && WorkerAt(w, worker) && KeepsTables(old(w), w, worker)
      ensures forall role: Role :: role in w.workers[worker].verified
    {
      ghost var start := w;
      for i := 0 to |ROLES|
        invariant Valid() && WorkerAt(w, worker) && KeepsTables(start, w, worker)
        invariant forall role: Role :: role in ROLES[..i] ==> role in w.workers[worker].verified
      {
        assert ROLES[..i + 1] == ROLES[..i] + [ROLES[i]];
        var ok := PersistRole(worker, ROLES[i]);
      }
      EveryRole();
      assert ROLES[..|ROLES|] == ROLES;
    }

    /**
     `Publish` and `Revoke` once their record is there: a pending attempt stores all five
     objects and then switches the pointer; a retry of a succeeded one changes nothing and
     succeeds exactly if the pointer still names its record; a failed one is refused.
     */
    method Publish(worker: string, catalog: string) returns (ok: bool)
      requires Valid() && catalog in w.records
      modifies this
      ensures Valid()
      ensures var r := old(w.records)[catalog];
              var status := StatusOf(old(w), r.attempt);
              && (ok <==> status == Some(Pending)
                          || (status == Some(Succeeded) && PointsTo(old(w), r.channel, catalog)))
              && (status != Some(Pending) ==> w == old(w))
              && (status == Some(Pending) ==>
                    && w == old(w).(current := old(w.current)[r.channel := catalog],
                            attempts := old(w.attempts)[r.attempt := Succeeded],
                            staging := w.staging, objects := w.objects, workers := w.workers)
                    && AllStored(w.records, w.objects, catalog))
    {
      var r := w.records[catalog];
      if r.attempt !in w.attempts || w.attempts[r.attempt] == Failed {
        return false;
      }
      if w.attempts[r.attempt] == Succeeded {
        return r.channel in w.current && w.current[r.channel] == catalog;
      }
      Holds();
      ghost var loading := w;
      w := w.(workers := w.workers[worker := Worker(catalog, {})]);
      Note(Load(worker, catalog), loading);
      PersistAll(worker);
      Switched(worker);
      ok := true;
    }

    method Switched(worker: string)
      requires Valid() && WorkerAt(w, worker) && forall role: Role :: role in w.workers[worker].verified
      requires StatusOf(w, w.records[w.workers[worker].catalog].attempt) == Some(Pending)
      modifies this
      ensures Valid()
      ensures var catalog := old(w).workers[worker].catalog;
              && catalog in old(w.records) && AllStored(w.records, w.objects, catalog)
              && var r := old(w.records)[catalog];
              w == old(w).(current := old(w.current)[r.channel := catalog],
              attempts := old(w.attempts)[r.attempt := Succeeded],
              workers := old(w.workers) - {worker})
    {
      ghost var before := w;
      var catalog := w.workers[worker].catalog;
      var r := w.records[catalog];
      w := w.(current := w.current[r.channel := catalog], attempts := w.attempts[r.attempt := Succeeded],
      workers := w.workers - {worker});
      Note(Switch(worker), before);
      Holds();
      assert w.current[r.channel] == catalog;
    }
  }

  function StatusOf(w: World, attempt: string): Option<AttemptStatus> {
    if attempt in w.attempts then Some(w.attempts[attempt]) else None
  }

  predicate PointsTo(w: World, c: Channel, catalog: string) {
    c in w.current && w.current[c] == catalog
  }

  ghost predicate KeepsTables(w: World, z: World, worker: string) {
    && z.records == w.records && z.created == w.created && z.counters == w.counters && z.current == w.current
    && z.attempts == w.attempts
    && worker in w.workers && worker in z.workers && z.workers[worker].catalog == w.workers[worker].catalog
  }

  lemma EveryRole()
    ensures forall role: Role :: role in ROLES
  {
    forall role: Role
      ensures role in ROLES
    {
      match role
      case Root => assert ROLES[0] == role;
      case Targets => assert ROLES[1] == role;
      case Snapshot => assert ROLES[2] == role;
      case Timestamp => assert ROLES[3] == role;
      case Revocation => assert ROLES[4] == role;
    }
  }
}
