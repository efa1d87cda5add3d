/** The job handler's transition loop over a staged job, and what its executor can rely on. */
module DirectoryHandler {
  import opened DirectoryApply
  import opened DirectoryBatches
  import opened DirectoryExecutor
  import opened DirectoryModel
  import opened DirectorySessions
  import opened DirectorySync
  import opened Wrappers

  /** Every membership that is still to be applied resolves: its transaction never aborts for that. */
  lemma PendingMembersResolve(y0: Sync, y: Sync, m: Pair)
    requires Ready(y0) && Between(y0, y) && y.phase == ApplyMemberships
    requires m in y.stage.members - y.doneMembers
    ensures Resolvable(y, m)
  {
    UnprocessedIsSafe(y0, y);
    assert SafeMember(y0, m);
    assert m.org in y.doneOrgs * SafeOrgs(y0) && m.user in y.doneUsers * SafeUsers(y0);
  }

  /** In no run, preview or apply, is a membership pending that does not resolve. */
  lemma NothingUnresolved(past: seq<Sync>, i: nat)
    requires Run(past) && Staged(past[0]) && i < |past|
    ensures past[i].completed || !Unresolved(past[i])
  {
    if past[0].mode == Preview {
      PreviewChangesNothing(past, i);
    } else {
      RunKeeps(past, i);
      ResolvedBetween(past[0], past[i]);
    }
  }

  lemma ResolvedBetween(y0: Sync, y: Sync)
    requires Ready(y0) && RunInvariant(y0, y)
    ensures y.completed || !Unresolved(y)
  {
    if !y.completed && Unresolved(y) {
      var m :| m in y.stage.members - y.doneMembers && !Resolvable(y, m);
      PendingMembersResolve(y0, y, m);
    }
  }

  /** What one transition meets: the source when it loads the job and when it advances it, and the guard. */
  datatype Conditions = Conditions(sameAtLoad: bool, sameAtAdvance: bool, guard: Live -> bool)

  /** How a call ends; after `SourceFailed` the job is recorded as failed. */
  datatype Result = Finished | AlreadyFailed | SourceFailed | ApplyFailed | LimitExceeded

  ghost predicate SourceHolds(c: Conditions) {
    c.sameAtLoad && c.sameAtAdvance
  }

  /** Everybody affected since `before` is among those logged out. */
  ghost predicate LoggedOut(before: Live, was: set<UserKey>, after: Live, revoked: set<UserKey>) {
    KeepsRows(before, after) && was + Affected(before, after) <= revoked
  }

  /** What a finished job leaves: the snapshot of its start, or after a preview the start itself. */
  ghost function FinalTables(y0: Sync): Live {
    if y0.mode == Apply then Snapshot(y0) else y0.live
  }

  ghost predicate CommitAt(n: nat, r: seq<Sync>, i: nat)
    requires 0 < i < |r|
  {
    FullCommit(n, r[i - 1], r[i])
  }

  /**
   A run from a staged job, what earlier workers did and what one call added to it: each
   state after `past[from]` was committed by the call, in batches of `n`.
   */
  ghost predicate Turns(n: nat, past: seq<Sync>, from: nat) {
    && Run(past) && Staged(past[0]) && from < |past|
    && forall i :: from < i < |past| ==> CommitAt(n, past, i)
  }

  /** Such a run up to now, in which the call logged out whom it affected. */
  ghost predicate Handled(n: nat, past: seq<Sync>, from: nat, was: set<UserKey>, z: Sync, revoked: set<UserKey>) {
    Turns(n, past, from) && past[|past| - 1] == z && LoggedOut(past[from].live, was, z.live, revoked)
  }

  /**
   `Handle` past the fetch: at most `limit` transitions.  Whatever earlier workers did in
   `before`, a job that finishes holds the snapshot of its start, or after a preview what
   was there; a source that changed fails it, and a refusal of the guard ends the call.
   */
  method Handle(e: Executor, failed: bool, limit: nat, meets: nat -> Conditions, ghost before: seq<Sync>)
    returns (result: Result, ghost at: nat, ghost past: seq<Sync>, ghost refused: Sync)
    requires e.batchSize >= 1 && limit >= 1 && !(failed && e.completed)
    requires Run(before) && Staged(before[0]) && before[|before| - 1] == e.State()
    modifies e
    ensures before <= past && Handled(e.batchSize, past, |before| - 1, old(e.revoked), e.State(), e.revoked)
    ensures result == AlreadyFailed <==> failed
    ensures result == Finished <==> e.completed
    ensures result == Finished ==> e.State().live == FinalTables(before[0])
    ensures result == SourceFailed ==> at < limit && !SourceHolds(meets(at))
    ensures result == ApplyFailed ==> at < limit && Refusal(e.batchSize, meets(at).guard, e.State(), refused)
    ensures result == LimitExceeded ==> |past| == |before| + limit
  {
    ghost var was, n, from := e.revoked, e.batchSize, |before| - 1;
    past, refused := before, e.State();
    StartsHandled(n, before, from, e.State(), was);
    if failed {
      return AlreadyFailed, 0, past, refused;
    }
    for transition := 0 to limit
      invariant before <= past && |past| == |before| + transition
      invariant Handled(n, past, from, was, e.State(), e.revoked)
      invariant transition > 0 ==> !e.completed
    {
      if e.completed {
        FinishedIs(past, e.State());
        return Finished, transition, past, refused;
      }
      var stop;
      stop, past, refused := Transition(e, meets(transition), past, from, was);
      if stop.Some? {
        if stop.value == Finished {
          FinishedIs(past, e.State());
        }
        return stop.value, transition, past, refused;
      }
    }
    result, at := LimitExceeded, limit;
  }

  /** The full batch that the state would have gone to next, had the guard not refused it. */
  ghost predicate Refusal(n: nat, guard: Live -> bool, y: Sync, z: Sync) {
    FullCommit(n, y, z) && Refused(guard, y, z)
  }

  /** One turn of the loop: it ends the call, or it commits one more state. */
  method Transition(e: Executor, now: Conditions, ghost past: seq<Sync>, ghost from: nat, ghost was: set<UserKey>)
    returns (stop: Option<Result>, ghost next: seq<Sync>, ghost refused: Sync)
    requires e.batchSize >= 1 && !e.completed && Handled(e.batchSize, past, from, was, e.State(), e.revoked)
    modifies e
    ensures past <= next && Handled(e.batchSize, next, from, was, e.State(), e.revoked)
    ensures stop == Some(Finished) <==> e.completed
    ensures stop == None ==> |next| == |past| + 1
    ensures stop.Some? ==> stop.value in {Finished, SourceFailed, ApplyFailed}
    ensures stop == Some(SourceFailed) ==> !SourceHolds(now)
    ensures stop == Some(ApplyFailed) ==> Refusal(e.batchSize, now.guard, e.State(), refused)
  {
    ghost var y, so := e.State(), e.revoked;
    if !now.sameAtLoad {
      return Some(SourceFailed), past, y;
    }
    NothingUnresolved(past, |past| - 1);
    var outcome;
    outcome, refused := e.AdvanceJob(now.sameAtAdvance, now.guard);
    if outcome == SourceChanged {
      return Some(SourceFailed), past, refused;
    }
    if outcome == Aborted {
      return Some(ApplyFailed), past, refused;
    }
    StaysHandled(e.batchSize, past, from, was, y, so, e.State(), e.revoked);
    next := past + [e.State()];
    stop := if e.completed then Some(Finished) else None;
  }

  lemma FinishedIs(past: seq<Sync>, z: Sync)
    requires Run(past) && Staged(past[0]) && past[|past| - 1] == z && z.completed
    ensures z.live == FinalTables(past[0])
  {
    if past[0].mode == Preview {
      PreviewChangesNothing(past, |past| - 1);
    } else {
      CompletedRunIsSnapshot(past);
    }
  }

  lemma StartsHandled(n: nat, past: seq<Sync>, from: nat, z: Sync, was: set<UserKey>)
    requires Run(past) && Staged(past[0]) && from + 1 == |past| && past[from] == z
    ensures Handled(n, past, from, was, z, was)
  {
    NobodyAffected(z.live, z.live);
  }

  lemma TurnsGrow(n: nat, past: seq<Sync>, from: nat, y: Sync, z: Sync)
    requires Turns(n, past, from) && past[|past| - 1] == y && FullCommit(n, y, z)
    ensures Turns(n, past + [z], from)
  {
    var next := past + [z];
    forall i | 0 < i < |next|
      ensures StepAt(next, i) && (i > from ==> CommitAt(n, next, i))
    {
      if i < |past| {
        assert StepAt(past, i) && (i > from ==> CommitAt(n, past, i));
      }
    }
  }

  lemma LogsOut(before: Live, was: set<UserKey>, y: Sync, so: set<UserKey>, z: Sync, revoked: set<UserKey>)
    requires LoggedOut(before, was, y.live, so) && Advance(y, z) && revoked == so + Affected(y.live, z.live)
    ensures LoggedOut(before, was, z.live, revoked)
  {
    AdvanceKeepsRows(y, z);
    AffectedSplits(before, y.live, z.live);
  }

  lemma StaysHandled(
    n: nat, past: seq<Sync>, from: nat, was: set<UserKey>, y: Sync, so: set<UserKey>, z: Sync, revoked: set<UserKey>)
    requires Handled(n, past, from, was, y, so)
    requires FullCommit(n, y, z) && revoked == so + Affected(y.live, z.live)
    ensures Handled(n, past + [z], from, was, z, revoked)
  {
    TurnsGrow(n, past, from, y, z);
    LogsOut(past[from].live, was, y, so, z, revoked);
  }

  // ---- The transition limit ----

  lemma CommitOf(n: nat, past: seq<Sync>, from: nat, h: nat, i: nat)
    requires Turns(n, past, from) && from <= h && h + 1 == i < |past|
    ensures FullCommit(n, past[h], past[i])
  {
    assert CommitAt(n, past, i);
  }

  lemma TurnCounts(n: nat, past: seq<Sync>, from: nat, h: nat, i: nat)
    requires n >= 1 && Turns(n, past, from) && from <= h && h + 1 == i < |past|
    ensures Transactions(n, past[i]) == Transactions(n, past[h]) - 1
  {
    CommitOf(n, past, from, h, i);
    CommitCounts(n, past[h], past[i]);
  }

  lemma {:induction false} TurnsCount(n: nat, past: seq<Sync>, from: nat, i: nat)
    requires n >= 1 && Turns(n, past, from) && from <= i < |past|
    ensures Transactions(n, past[i]) == Transactions(n, past[from]) - (i - from)
    decreases i
  {
    if from < i {
      var h := i - 1;
      TurnsCount(n, past, from, h);
      TurnCounts(n, past, from, h, i);
    }
  }

  /**
   The limit a call needs is exactly the number of transactions that its job still takes:
   after so many turns it has finished, and after fewer it has not.
   */
  lemma LimitSuffices(n: nat, past: seq<Sync>, from: nat, i: nat)
    requires n >= 1 && Turns(n, past, from) && from <= i < |past|
    ensures i - from <= Transactions(n, past[from])
    ensures past[i].completed <==> i - from == Transactions(n, past[from])
  {
    TurnsCount(n, past, from, i);
    NoneLeftIffCompleted(n, past[i]);
  }
}
