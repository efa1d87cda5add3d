/** `Complete` as the service runs it, without interference, recorded as steps of the runs in `Artifacts`. */
module ArtifactService {
  import opened Artifacts
  import opened Wrappers

  datatype Outcome =
    Done | AlreadyDone | StateInvalid | UploadExpired | PartsIncomplete | AssembleFailed | DigestMismatch | Conflict

  /**
   The content that a completion verifies: the staged object, the object it is assembled
   to, or the one already at the final key.
   */
  ghost function Candidate(w: World, id: string, parts: seq<Part>): Option<string>
    requires id in w.uploads
  {
    if id in w.staging then Some(w.staging[id])
    else if id !in w.assembled then Some(Joined(parts))
    else if w.uploads[id].digest in w.objects then Some(w.objects[w.uploads[id].digest])
    else None
  }

  /** Whatever already stands under the digest, as an object or as an artifact, has the declared size. */
  ghost predicate Agrees(w: World, u: Upload) {
    && (u.digest in w.objects ==> |w.objects[u.digest]| == u.size)
    && (u.digest in w.artifacts ==> w.artifacts[u.digest] == u.size)
  }

  /** How the completion of an open upload with contiguous parts must end. */
  ghost function Ending(sha: string -> string, w: World, id: string, parts: seq<Part>): Outcome
    requires id in w.uploads
  {
    var candidate := Candidate(w, id, parts);
    if candidate.None? then AssembleFailed
    else if !Verifies(sha, candidate.value, w.uploads[id]) then DigestMismatch
    else if !Agrees(w, w.uploads[id]) then Conflict
    else Done
  }

  function StatusAfter(outcome: Outcome): UploadStatus {
    match outcome
    case Done => Completed
    case DigestMismatch => Quarantined
    case UploadExpired => Expired
    case _ => Uploading
  }

  class Service {
    const sha: string -> string
    var w: World
    ghost var past: seq<World>
    ghost var events: seq<Event>

    ghost predicate Valid()
      reads this
    {
      Run(sha, past, events) && w == past[|past| - 1]
    }

    constructor (sha: string -> string)
      ensures Valid() && w == EMPTY && this.sha == sha
    {
      this.sha, w, past, events := sha, EMPTY, [EMPTY], [];
    }

    ghost method Note(e: Event, before: World)
      requires Run(sha, past, events) && before == past[|past| - 1] && Step(sha, before, e, w)
      modifies `past, `events
      ensures Valid()
    {
      past, events := past + [w], events + [e];
    }

    lemma Holds()
      requires Valid()
      ensures Invariant(sha, w)
    {
      RunKeeps(sha, past, events, |past| - 1);
    }

    method Begin(id: string, size: nat, digest: string)
      requires Valid() && id !in w.uploads
      modifies this
      ensures Valid() && w == old(w).(uploads := old(w.uploads)[id := Upload(size, digest, Uploading)])
    {
      Holds();
      ghost var before := w;
      w := w.(uploads := w.uploads[id := Upload(size, digest, Uploading)]);
      Note(BeginUpload(id, size, digest), before);
    }

    method CloseUpload(id: string, status: UploadStatus)
      requires Valid() && id in w.uploads && w.uploads[id].status == Uploading
      requires status == Quarantined || status == Expired
      modifies this
      ensures Valid() && w == old(w).(uploads := old(w.uploads)[id := old(w.uploads)[id].(status := status)])
    {
      ghost var before := w;
      w := w.(uploads := w.uploads[id := w.uploads[id].(status := status)]);
      Note(Close(id, status), before);
    }

    /** Finds or makes the candidate; `final` says that it is the object at the final key. */
    method Gather(k: string, id: string, parts: seq<Part>) returns (content: Option<string>, final: bool)
      requires Valid() && id in w.uploads && w.uploads[id].status == Uploading && Contiguous(parts, w.uploads[id].size)
      modifies this
      ensures Valid() && w.uploads == old(w.uploads) && w.objects == old(w.objects) && w.artifacts == old(w.artifacts)
      ensures content == Candidate(old(w), id, parts)
      ensures k in w.workers && w.workers[k] == Worker(id, false, false)
      ensures content.Some? ==>
                if final then w.uploads[id].digest in w.objects && content.value == w.objects[w.uploads[id].digest]
                else id in w.staging && content.value == w.staging[id]
    {
      ghost var before := w;
      w := w.(workers := w.workers[k := Worker(id, false, false)]);
      Note(Start(k, id), before);
      final := false;
      if id in w.staging {
        content := Some(w.staging[id]);
      } else if id !in w.assembled {
        ghost var started := w;
        w := w.(assembled := w.assembled[id := parts], staging := w.staging[id := Joined(parts)]);
        Note(Assemble(k, parts), started);
        content := Some(w.staging[id]);
      } else if w.uploads[id].digest in w.objects {
        content, final := Some(w.objects[w.uploads[id].digest]), true;
      } else {
        content := None;
      }
    }

    /** Puts a verified candidate in place: it is promoted, or the object already there is kept. */
    method Place(k: string, id: string, final: bool) returns (ok: bool)
      requires Valid() && id in w.uploads && k in w.workers && w.workers[k] == Worker(id, false, false)
      requires if final then w.uploads[id].digest in w.objects
                             && Verifies(sha, w.objects[w.uploads[id].digest], w.uploads[id])
               else id in w.staging && Verifies(sha, w.staging[id], w.uploads[id])
      modifies this
      ensures Valid() && w.uploads == old(w.uploads) && w.artifacts == old(w.artifacts)
      ensures ok <==> w.uploads[id].digest in old(w.objects) ==>
                        |old(w.objects)[w.uploads[id].digest]| == w.uploads[id].size
      ensures ok ==> k in w.workers && w.workers[k].upload == id && w.workers[k].placed
      ensures w.objects == if w.uploads[id].digest in old(w.objects) then old(w.objects)
                           else old(w.objects)[w.uploads[id].digest := old(w.staging)[id]]
      ensures ok ==> InPlace(sha, w, w.uploads[id])
    {
      var u := w.uploads[id];
      Holds();
      ghost var before := w;
      if final {
        w := w.(workers := w.workers[k := w.workers[k].(placed := true)]);
        Note(VerifyFinal(k), before);
        return true;
      }
      w := w.(workers := w.workers[k := w.workers[k].(verified := true)]);
      Note(VerifyStaging(k), before);
      if u.digest in w.objects {
        if |w.objects[u.digest]| != u.size {
          return false;
        }
        KeepExisting(k, id);
      } else {
        ghost var verified := w;
        w := w.(objects := w.objects[u.digest := w.staging[id]],
        workers := w.workers[k := w.workers[k].(placed := true)]);
        Note(Promote(k), verified);
      }
      ok := true;
    }

    /** The object at the final key stays, the staged one goes. */
    method KeepExisting(k: string, id: string)
      requires Valid() && id in w.uploads && k in w.workers && w.workers[k] == Worker(id, true, false)
      requires w.uploads[id].digest in w.objects && |w.objects[w.uploads[id].digest]| == w.uploads[id].size
      modifies this
      ensures Valid()
      ensures w == old(w).(staging := old(w.staging) - {id}, workers := old(w.workers)[k := Worker(id, true, true)])
    {
      ghost var verified := w;
      w := w.(staging := w.staging - {id});
      Note(DeleteStaging(id), verified);
      ghost var dropped := w;
      w := w.(workers := w.workers[k := w.workers[k].(placed := true)]);
      Note(Deduplicate(k), dropped);
    }

    /** The repository's `Complete`, in its transaction. */
    method RecordUpload(k: string, id: string) returns (ok: bool)
      requires Valid() && id in w.uploads && w.uploads[id].status == Uploading
      requires k in w.workers && w.workers[k].upload == id && w.workers[k].placed
      modifies this
      ensures Valid()
      ensures var u := old(w.uploads)[id];
              && (ok <==> u.digest in old(w.artifacts) ==> old(w.artifacts)[u.digest] == u.size)
              && w == if ok
                      then old(w).(artifacts := old(w.artifacts)[u.digest := u.size],
                           uploads := old(w.uploads)[id := u.(status := Completed)])
                      else old(w)
    {
      var u := w.uploads[id];
      if u.digest in w.artifacts && w.artifacts[u.digest] != u.size {
        return false;
      }
      ghost var before := w;
      w := w.(artifacts := w.artifacts[u.digest := u.size], uploads := w.uploads[id := u.(status := Completed)]);
      Note(Record(k), before);
      ok := true;
    }

    /**
     `Complete`: every outcome has its exact reason, the status follows the outcome, and a
     completed upload has its object and its artifact.
     */
    method Complete(k: string, id: string, parts: seq<Part>, overdue: bool) returns (outcome: Outcome)
      requires Valid() && id in w.uploads
      modifies this
      ensures Valid()
      ensures var u := old(w.uploads)[id];
              && (u.status != Uploading ==>
                    w == old(w) && outcome == if u.status == Completed then AlreadyDone else StateInvalid)
              && (u.status == Uploading ==>
                    && w.uploads == old(w.uploads)[id := u.(status := StatusAfter(outcome))]
                    && outcome == if overdue then UploadExpired
                                  else if !Contiguous(parts, u.size) then PartsIncomplete
                                  else Ending(sha, old(w), id, parts))
              && (outcome == Done ==> InPlace(sha, w, u) && u.digest in w.artifacts && w.artifacts[u.digest] == u.size)
    {
      if w.uploads[id].status != Uploading {
        return if w.uploads[id].status == Completed then AlreadyDone else StateInvalid;
      }
      if overdue {
        CloseUpload(id, Expired);
        return UploadExpired;
      }
      var contiguous := ValidateParts(parts, w.uploads[id].size);
      if !contiguous {
        return PartsIncomplete;
      }
      outcome := Finish(k, id, parts);
    }

    method Finish(k: string, id: string, parts: seq<Part>) returns (outcome: Outcome)
      requires Valid() && id in w.uploads && w.uploads[id].status == Uploading && Contiguous(parts, w.uploads[id].size)
      modifies this
      ensures Valid() && outcome == Ending(sha, old(w), id, parts)
      ensures var u := old(w.uploads)[id];
              && w.uploads == old(w.uploads)[id := u.(status := StatusAfter(outcome))]
              && (outcome == Done ==> InPlace(sha, w, u) && u.digest in w.artifacts && w.artifacts[u.digest] == u.size)
    {
      var content, final := Gather(k, id, parts);
      if content.None? {
        return AssembleFailed;
      }
      if |content.value| != w.uploads[id].size || sha(content.value) != w.uploads[id].digest {
        CloseUpload(id, Quarantined);
        return DigestMismatch;
      }
      var placed := Place(k, id, final);
      if !placed {
        return Conflict;
      }
      var recorded := RecordUpload(k, id);
      outcome := if recorded then Done else Conflict;
    }
  }
}
