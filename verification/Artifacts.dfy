/**
 Content-addressed artifacts: multipart uploads are assembled, verified, promoted to
 the key of their digest, and recorded.  Any number of completions race and stop anywhere.
 */
module Artifacts {
  const MINIMUM_PART_SIZE := 5 * 1024 * 1024
  const MAXIMUM_PART_SIZE := 256 * 1024 * 1024
  const MAXIMUM_PART_COUNT := 10000

  datatype Part = Part(number: int, content: string)
  datatype UploadStatus = Uploading | Completed | Quarantined | Expired
  datatype Upload = Upload(size: nat, digest: string, status: UploadStatus)

  // ---- Parts ----

  function TotalSize(parts: seq<Part>): nat {
    if parts == [] then 0 else TotalSize(parts[..|parts| - 1]) + |parts[|parts| - 1].content|
  }

  function Joined(parts: seq<Part>): string {
    if parts == [] then "" else Joined(parts[..|parts| - 1]) + parts[|parts| - 1].content
  }

  /**
   Parts 1 to n without a gap, at most 10,000 of up to 256 MiB, every one but the last of at
   least 5 MiB, and together exactly the declared size.
   */
  ghost predicate Contiguous(parts: seq<Part>, size: nat) {
    && 1 <= |parts| <= 10_000 && TotalSize(parts) == size
    && (forall i :: 0 <= i < |parts| ==> parts[i].number == i + 1 && 0 < |parts[i].content| <= 268_435_456)
    && (forall i :: 0 <= i < |parts| - 1 ==> |parts[i].content| >= 5_242_880)
  }

  lemma {:induction false} JoinedSize(parts: seq<Part>)
    ensures |Joined(parts)| == TotalSize(parts)
    decreases |parts|
  {
    if parts != [] {
      JoinedSize(parts[..|parts| - 1]);
    }
  }

  /** The parts stand in the joined content one after the other. */
  lemma {:induction false} JoinedInOrder(parts: seq<Part>, i: nat)
    requires i < |parts|
    ensures var a, b := TotalSize(parts[..i]), TotalSize(parts[..i + 1]);
            a <= b <= |Joined(parts)| && Joined(parts)[a..b] == parts[i].content
    decreases |parts|
  {
    var before, last := parts[..|parts| - 1], parts[|parts| - 1];
    JoinedSize(before);
    JoinedSize(parts);
    assert parts[..i + 1][..i] == parts[..i];
    if i < |before| {
      JoinedInOrder(before, i);
      assert before[..i] == parts[..i] && before[..i + 1] == parts[..i + 1] && before[i] == parts[i];
    } else {
      assert parts[..i] == before && parts[..i + 1] == parts;
    }
  }

  lemma {:induction false} PrefixSize(parts: seq<Part>, i: nat)
    requires i <= |parts|
    ensures TotalSize(parts[..i]) <= TotalSize(parts)
    decreases |parts|
  {
    if i < |parts| {
      PrefixSize(parts[..|parts| - 1], i);
      assert parts[..|parts| - 1][..i] == parts[..i];
    } else {
      assert parts[..i] == parts;
    }
  }

  /** `validateCompletionParts` */
  method ValidateParts(parts: seq<Part>, size: nat) returns (ok: bool)
    ensures ok <==> Contiguous(parts, size)
  {
    if |parts| == 0 || |parts| > MAXIMUM_PART_COUNT {
      return false;
    }
    var total := 0;
    for i := 0 to |parts|
      invariant total == TotalSize(parts[..i]) <= size
      invariant forall k :: 0 <= k < i ==> parts[k].number == k + 1 && 0 < |parts[k].content| <= MAXIMUM_PART_SIZE
      invariant forall k :: 0 <= k < i && k < |parts| - 1 ==> |parts[k].content| >= MINIMUM_PART_SIZE
    {
      var part := parts[i];
      if part.number != i + 1 || |part.content| <= 0 || |part.content| > MAXIMUM_PART_SIZE {
        return false;
      }
      if i < |parts| - 1 && |part.content| < MINIMUM_PART_SIZE {
        return false;
      }
      assert parts[..i + 1][..i] == parts[..i];
      total := total + |part.content|;
      if total > size {
        PrefixSize(parts, i + 1);
        return false;
      }
    }
    assert parts[..|parts|] == parts;
    ok := total == size;
  }

  // ---- The store and the tables ----

  /** What a completion in flight knows: its upload, whether the candidate verified, whether the object is in place. */
  datatype Worker = Worker(upload: string, verified: bool, placed: bool)

  datatype World = World(
    uploads: map<string, Upload>,
    assembled: map<string, seq<Part>>,
    staging: map<string, string>,
    objects: map<string, string>,
    artifacts: map<string, nat>,
    workers: map<string, Worker>)

  datatype Event =
    | BeginUpload(upload: string, size: nat, digest: string)
    | Start(worker: string, upload: string)
    | Assemble(worker: string, parts: seq<Part>)
    | VerifyStaging(worker: string)
    | VerifyFinal(worker: string)
    | Deduplicate(worker: string)
    | Promote(worker: string)
    | DeleteStaging(upload: string)
    | Record(worker: string)
    | Close(upload: string, status: UploadStatus)
    | Crash(worker: string)

  ghost predicate At(w: World, k: string) {
    k in w.workers && w.workers[k].upload in w.uploads
  }

  function UploadOf(w: World, k: string): Upload
    requires k in w.workers && w.workers[k].upload in w.uploads
  {
    w.uploads[w.workers[k].upload]
  }

  /** `verifyObject` and the comparison that follows it. */
  predicate Verifies(sha: string -> string, content: string, u: Upload) {
    |content| == u.size && sha(content) == u.digest
  }

  ghost predicate Step(sha: string -> string, w: World, e: Event, z: World) {
    match e
    case BeginUpload(id, size, digest) =>
      id !in w.uploads && id !in w.assembled && z == w.(uploads := w.uploads[id := Upload(size, digest, Uploading)])
    case Start(k, id) => id in w.uploads && w.uploads[id].status == Uploading
                         && z == w.(workers := w.workers[k := Worker(id, false, false)])
    case Assemble(k, parts) =>
      // a multipart upload can be completed once
      At(w, k) && w.workers[k].upload !in w.assembled && Contiguous(parts, UploadOf(w, k).size)
      && z == w.(assembled := w.assembled[w.workers[k].upload := parts],
              staging := w.staging[w.workers[k].upload := Joined(parts)])
    case VerifyStaging(k) =>
      At(w, k) && w.workers[k].upload in w.staging && Verifies(sha, w.staging[w.workers[k].upload], UploadOf(w, k))
      && z == w.(workers := w.workers[k := w.workers[k].(verified := true)])
    case VerifyFinal(k) =>
      At(w, k) && UploadOf(w, k).digest in w.objects && Verifies(sha, w.objects[UploadOf(w, k).digest], UploadOf(w, k))
      && z == w.(workers := w.workers[k := w.workers[k].(placed := true)])
    case Deduplicate(k) =>
      At(w, k) && w.workers[k].verified && UploadOf(w, k).digest in w.objects
      && |w.objects[UploadOf(w, k).digest]| == UploadOf(w, k).size
      && z == w.(workers := w.workers[k := w.workers[k].(placed := true)])
    case Promote(k) =>
      At(w, k) && w.workers[k].verified && w.workers[k].upload in w.staging && UploadOf(w, k).digest !in w.objects
      && z == w.(objects := w.objects[UploadOf(w, k).digest := w.staging[w.workers[k].upload]],
              workers := w.workers[k := w.workers[k].(placed := true)])
    case DeleteStaging(id) => z == w.(staging := w.staging - {id})
    case Record(k) =>
      At(w, k) && w.workers[k].placed && UploadOf(w, k).status == Uploading
      && var u := UploadOf(w, k);
      (u.digest in w.artifacts ==> w.artifacts[u.digest] == u.size)
      && z == w.(artifacts := w.artifacts[u.digest := u.size],
              uploads := w.uploads[w.workers[k].upload := u.(status := Completed)])
    case Close(id, status) =>
      id in w.uploads && w.uploads[id].status == Uploading && (status == Quarantined || status == Expired)
      && z == w.(uploads := w.uploads[id := w.uploads[id].(status := status)])
    case Crash(k) => z == w.(workers := w.workers - {k})
  }

  const EMPTY := World(map[], map[], map[], map[], map[], map[])

  ghost predicate Run(sha: string -> string, r: seq<World>, events: seq<Event>) {
    && |r| == |events| + 1 && r[0] == EMPTY
    && forall i, j :: 0 <= i && j == i + 1 && j < |r| ==> Step(sha, r[i], events[i], r[j])
  }

  // ---- The invariant ----

  /** The object a completion counts on is in place with the declared size and digest. */
  ghost predicate InPlace(sha: string -> string, w: World, u: Upload) {
    u.digest in w.objects && Verifies(sha, w.objects[u.digest], u)
  }

  ghost predicate WorkerHolds(sha: string -> string, w: World, k: string) {
    k in w.workers && w.workers[k].upload in w.uploads
    && (w.workers[k].verified && w.workers[k].upload in w.staging ==>
          Verifies(sha, w.staging[w.workers[k].upload], UploadOf(w, k)))
    && (w.workers[k].verified ==> w.workers[k].upload in w.assembled)
    && (w.workers[k].placed ==> InPlace(sha, w, UploadOf(w, k)))
  }

  ghost predicate UploadHolds(sha: string -> string, w: World, id: string) {
    id in w.uploads && w.uploads[id].status == Completed ==>
      InPlace(sha, w, w.uploads[id]) && w.uploads[id].digest in w.artifacts
      && w.artifacts[w.uploads[id].digest] == w.uploads[id].size
  }

  /** Objects hash to their keys, and staged objects are what contiguous parts were assembled to. */
  ghost predicate ContentsHold(sha: string -> string, w: World) {
    && (forall d :: d in w.objects ==> sha(w.objects[d]) == d)
    && w.staging.Keys <= w.assembled.Keys && w.assembled.Keys <= w.uploads.Keys
    && (forall id :: id in w.staging ==> w.staging[id] == Joined(w.assembled[id]))
    && (forall id :: id in w.assembled ==> Contiguous(w.assembled[id], w.uploads[id].size))
  }

  ghost predicate Invariant(sha: string -> string, w: World) {
    && ContentsHold(sha, w)
    && (forall k :: k in w.workers ==> WorkerHolds(sha, w, k))
    && (forall id :: id in w.uploads ==> UploadHolds(sha, w, id))
  }

  /** What stays true whatever else happens: objects and declared sizes and digests never change. */
  ghost predicate Grows(w: World, z: World) {
    && (forall d :: d in w.objects ==> d in z.objects && z.objects[d] == w.objects[d])
    && (forall d :: d in w.artifacts ==> d in z.artifacts && z.artifacts[d] == w.artifacts[d])
    && (forall id :: id in w.uploads ==>
                       id in z.uploads && z.uploads[id].size == w.uploads[id].size
                       && z.uploads[id].digest == w.uploads[id].digest)
    && (forall id :: id in w.assembled ==> id in z.assembled && z.assembled[id] == w.assembled[id])
    && (forall id :: id in w.assembled && id in z.staging ==> id in w.staging && z.staging[id] == w.staging[id])
  }

  lemma WorkerStays(sha: string -> string, w: World, z: World, k: string)
    requires WorkerHolds(sha, w, k) && Grows(w, z) && k in z.workers && z.workers[k] == w.workers[k]
    ensures WorkerHolds(sha, z, k)
  {
  }

  lemma UploadStays(sha: string -> string, w: World, z: World, id: string)
    requires UploadHolds(sha, w, id) && Grows(w, z) && id in w.uploads && z.uploads[id].status == w.uploads[id].status
    ensures UploadHolds(sha, z, id)
  {
  }

  lemma AssembleGrows(sha: string -> string, w: World, e: Event, z: World)
    requires ContentsHold(sha, w) && e.Assemble? && Step(sha, w, e, z)
    ensures Grows(w, z) && ContentsHold(sha, z)
  {
  }

  lemma PromoteGrows(sha: string -> string, w: World, e: Event, z: World)
    requires ContentsHold(sha, w) && e.Promote? && Step(sha, w, e, z) && WorkerHolds(sha, w, e.worker)
    ensures Grows(w, z) && ContentsHold(sha, z)
  {
  }

  lemma RecordGrows(sha: string -> string, w: World, e: Event, z: World)
    requires ContentsHold(sha, w) && e.Record? && Step(sha, w, e, z)
    ensures Grows(w, z) && ContentsHold(sha, z)
  {
  }

  lemma RowsGrow(sha: string -> string, w: World, z: World)
    requires ContentsHold(sha, w)
    requires z == w.(uploads := z.uploads, staging := z.staging, workers := z.workers)
    requires forall id :: id in w.uploads ==>
                            id in z.uploads && z.uploads[id].size == w.uploads[id].size
                            && z.uploads[id].digest == w.uploads[id].digest
    requires forall id :: id in z.staging ==> id in w.staging && z.staging[id] == w.staging[id]
    ensures Grows(w, z) && ContentsHold(sha, z)
  {
  }

  lemma StepGrows(sha: string -> string, w: World, e: Event, z: World)
    requires Invariant(sha, w) && Step(sha, w, e, z)
    ensures Grows(w, z) && ContentsHold(sha, z)
  {
    if e.Assemble? {
      AssembleGrows(sha, w, e, z);
    } else if e.Promote? {
      PromoteGrows(sha, w, e, z);
    } else if e.Record? {
      RecordGrows(sha, w, e, z);
    } else {
      RowsGrow(sha, w, z);
    }
  }

  lemma PromoterHolds(sha: string -> string, w: World, k: string, z: World)
    requires WorkerHolds(sha, w, k) && Step(sha, w, Promote(k), z)
    ensures WorkerHolds(sha, z, k)
  {
  }

  lemma VerifierHolds(sha: string -> string, w: World, k: string, z: World)
    requires Invariant(sha, w) && WorkerHolds(sha, w, k)
    requires Step(sha, w, VerifyStaging(k), z) || Step(sha, w, VerifyFinal(k), z) || Step(sha, w, Deduplicate(k), z)
    ensures WorkerHolds(sha, z, k)
  {
  }

  /** The worker that took the step holds what it now claims. */
  lemma ActorHolds(sha: string -> string, w: World, e: Event, z: World, k: string)
    requires Invariant(sha, w) && Step(sha, w, e, z) && k in z.workers
    requires k !in w.workers || z.workers[k] != w.workers[k]
    ensures WorkerHolds(sha, z, k)
  {
    if !e.Start? {
      assert WorkerHolds(sha, w, k);
      if e.Promote? {
        PromoterHolds(sha, w, k, z);
      } else {
        VerifierHolds(sha, w, k, z);
      }
    }
  }

  lemma WorkersHold(sha: string -> string, w: World, e: Event, z: World)
    requires Invariant(sha, w) && Step(sha, w, e, z)
    ensures forall k :: k in z.workers ==> WorkerHolds(sha, z, k)
  {
    StepGrows(sha, w, e, z);
    forall k | k in z.workers
      ensures WorkerHolds(sha, z, k)
    {
      if k in w.workers && z.workers[k] == w.workers[k] {
        WorkerStays(sha, w, z, k);
      } else {
        ActorHolds(sha, w, e, z, k);
      }
    }
  }

  lemma RecordedHolds(sha: string -> string, w: World, e: Event, z: World, id: string)
    requires Invariant(sha, w) && Step(sha, w, e, z) && id in z.uploads
    requires id !in w.uploads || z.uploads[id].status != w.uploads[id].status
    ensures UploadHolds(sha, z, id)
  {
    if e.Record? {
      assert WorkerHolds(sha, w, e.worker);
    }
  }

  lemma UploadsHold(sha: string -> string, w: World, e: Event, z: World)
    requires Invariant(sha, w) && Step(sha, w, e, z)
    ensures forall id :: id in z.uploads ==> UploadHolds(sha, z, id)
  {
    StepGrows(sha, w, e, z);
    forall id | id in z.uploads
      ensures UploadHolds(sha, z, id)
    {
      if id in w.uploads && z.uploads[id].status == w.uploads[id].status {
        UploadStays(sha, w, z, id);
      } else {
        RecordedHolds(sha, w, e, z, id);
      }
    }
  }

  lemma StepKeeps(sha: string -> string, w: World, e: Event, z: World)
    requires Invariant(sha, w) && Step(sha, w, e, z)
    ensures Invariant(sha, z)
  {
    StepGrows(sha, w, e, z);
    WorkersHold(sha, w, e, z);
    UploadsHold(sha, w, e, z);
  }

  lemma {:induction false} RunKeeps(sha: string -> string, r: seq<World>, events: seq<Event>, i: nat)
    requires Run(sha, r, events) && i < |r|
    ensures Invariant(sha, r[i])
    decreases i
  {
    if i > 0 {
      RunKeeps(sha, r, events, i - 1);
      StepKeeps(sha, r[i - 1], events[i - 1], r[i]);
    }
  }

  /** Every object at a content-addressed key hashes to its key, in every reachable state. */
  lemma ObjectsHashToTheirKeys(sha: string -> string, r: seq<World>, events: seq<Event>, i: nat, d: string)
    requires Run(sha, r, events) && i < |r| && d in r[i].objects
    ensures sha(r[i].objects[d]) == d
  {
    RunKeeps(sha, r, events, i);
  }

  /**
   A completed upload names an artifact of its declared size and digest, and the object
   is there.  If it was assembled from parts, they were contiguous and of that size.
   */
  lemma CompletedUploadsHold(sha: string -> string, r: seq<World>, events: seq<Event>, i: nat, id: string)
    requires Run(sha, r, events) && i < |r| && id in r[i].uploads && r[i].uploads[id].status == Completed
    ensures var w, u := r[i], r[i].uploads[id];
            && u.digest in w.artifacts && w.artifacts[u.digest] == u.size
            && u.digest in w.objects && |w.objects[u.digest]| == u.size && sha(w.objects[u.digest]) == u.digest
            && (id in w.assembled ==> Contiguous(w.assembled[id], u.size) && |Joined(w.assembled[id])| == u.size)
  {
    RunKeeps(sha, r, events, i);
    assert UploadHolds(sha, r[i], id);
    if id in r[i].assembled {
      JoinedSize(r[i].assembled[id]);
    }
  }

  /** Size alone settles deduplication: the object already there is one the full check would have accepted. */
  lemma SizeCheckSuffices(sha: string -> string, r: seq<World>, events: seq<Event>, i: nat, k: string)
    requires Run(sha, r, events) && i < |r| && At(r[i], k) && UploadOf(r[i], k).digest in r[i].objects
    ensures |r[i].objects[UploadOf(r[i], k).digest]| == UploadOf(r[i], k).size <==>
            Verifies(sha, r[i].objects[UploadOf(r[i], k).digest], UploadOf(r[i], k))
  {
    RunKeeps(sha, r, events, i);
  }
}
