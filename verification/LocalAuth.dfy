/**
 One local account under login, reauthentication, activation, rotation and recovery
 code regeneration.  A request works with the clock value and the account it read
 before its transaction; only the transaction itself is atomic.
 */
module LocalAuth {
  import opened Strings
  import opened Wrappers

  // ---- Lockout stages ----

  datatype Stage = Stage(attempts: nat, duration: int)

  const MINUTE := 60
  const DAY := 24 * 60 * 60

  ghost predicate ValidStages(stages: seq<Stage>) {
    && 1 <= |stages| <= 5
    && (forall i :: 0 <= i < |stages| ==> 3 <= stages[i].attempts <= 50 && MINUTE <= stages[i].duration <= DAY)
    && (forall i, j :: 0 <= i < j < |stages| ==>
                         stages[i].attempts < stages[j].attempts && stages[i].duration < stages[j].duration)
  }

  /** `validLockoutStages` */
  method CheckStages(stages: seq<Stage>) returns (ok: bool)
    ensures ok <==> ValidStages(stages)
  {
    if |stages| < 1 || |stages| > 5 {
      return false;
    }
    var attempts, duration := 0, 0;
    for i := 0 to |stages|
      invariant attempts == (if i == 0 then 0 else stages[i - 1].attempts)
      invariant duration == if i == 0 then 0 else stages[i - 1].duration
      invariant forall k :: 0 <= k < i ==> 3 <= stages[k].attempts <= 50 && MINUTE <= stages[k].duration <= DAY
      invariant forall j, k :: 0 <= j < k < i ==>
                                 stages[j].attempts < stages[k].attempts && stages[j].duration < stages[k].duration
    {
      var s := stages[i];
      if s.attempts < 3 || s.attempts > 50 || s.attempts <= attempts || s.duration < MINUTE || s.duration > DAY
         || s.duration <= duration {
        return false;
      }
      attempts, duration := s.attempts, s.duration;
    }
    ok := true;
  }

  /** A single stage may take 3 to 50 attempts, and last a minute to a day. */
  lemma StageBounds(stage: Stage)
    ensures ValidStages([stage]) <==> 3 <= stage.attempts <= 50 && 60 <= stage.duration <= 86400
  {
    assert [stage][0] == stage;
  }

  /** The duration of the highest stage that this many failures reach; none below the first stage. */
  ghost function StageFor(stages: seq<Stage>, failures: nat): Option<int> {
    if stages == [] then None
    else if failures >= stages[|stages| - 1].attempts then Some(stages[|stages| - 1].duration)
    else StageFor(stages[..|stages| - 1], failures)
  }

  ghost function LockFor(now: int, failures: nat, stages: seq<Stage>): Option<int> {
    if StageFor(stages, failures).Some? then Some(now + StageFor(stages, failures).value) else None
  }

  /** `lockUntilForAttempts` */
  method LockUntil(now: int, failures: nat, stages: seq<Stage>) returns (until: Option<int>)
    ensures until == LockFor(now, failures, stages)
  {
    var index := |stages|;
    assert stages[..index] == stages;
    while index > 0
      invariant 0 <= index <= |stages|
      invariant StageFor(stages, failures) == StageFor(stages[..index], failures)
    {
      index := index - 1;
      assert stages[..index + 1][..index] == stages[..index];
      if failures >= stages[index].attempts {
        return Some(now + stages[index].duration);
      }
    }
    until := None;
  }

  /** The stage is the highest one reached: it is reached, and every higher one is not. */
  lemma {:induction false} StageIsHighest(stages: seq<Stage>, failures: nat)
    requires ValidStages(stages)
    ensures StageFor(stages, failures).None? <==> failures < stages[0].attempts
    ensures forall i :: 0 <= i < |stages| && failures >= stages[i].attempts ==>
                          StageFor(stages, failures).Some? && stages[i].duration <= StageFor(stages, failures).value
    ensures StageFor(stages, failures).Some? ==>
              exists i :: 0 <= i < |stages| && failures >= stages[i].attempts
                          && StageFor(stages, failures).value == stages[i].duration
    decreases |stages|
  {
    var before := stages[..|stages| - 1];
    if failures < stages[|stages| - 1].attempts && |stages| > 1 {
      StageIsHighest(before, failures);
      if StageFor(before, failures).Some? {
        var i :| 0 <= i < |before| && failures >= before[i].attempts
                 && StageFor(before, failures).value == before[i].duration;
        assert stages[i] == before[i];
      }
      forall i | 0 <= i < |stages| && failures >= stages[i].attempts
        ensures StageFor(stages, failures).Some? && stages[i].duration <= StageFor(stages, failures).value
      {
        assert before[i] == stages[i];
      }
    }
  }

  // ---- The account ----

  datatype Code = Code(generation: string, used: bool)

  datatype Status = Pending | Active | Disabled

  datatype Account = Account(
    version: nat, administrator: bool, status: Status, enrolled: bool, password: string,
    secret: string, lastCounter: int, failures: nat, lockedUntil: Option<int>,
    codes: map<string, Code>, generations: set<string>)

  /** The TOTP a request carries, as the verifier judged it before the transaction. */
  datatype Totp = NoTotp | BadTotp | GoodTotp(counter: int)
  datatype Recovery = NoCode | MalformedCode | CodeDigest(digest: string)

  /** `entry` collects the checks on mode, kind and session; `strong` says that its kind of account must use MFA. */
  datatype Request = Request(
    now: int, entry: bool, strong: bool, seen: Account, passwordOk: bool, totp: Totp, recovery: Recovery)

  datatype Verdict = Ignored | Failed | Granted(totp: Option<int>, code: Option<string>)

  predicate Locked(a: Account, now: int) {
    a.lockedUntil.Some? && a.lockedUntil.value > now
  }

  predicate Eligible(a: Account, q: Request) {
    q.entry && a.status == Active && !Locked(a, q.now)
  }

  /** `sameLocalLoginPreflight` */
  predicate Same(seen: Account, a: Account) {
    && seen.version == a.version && seen.status == a.status && seen.enrolled == a.enrolled
    && seen.administrator == a.administrator && seen.secret == a.secret && seen.lastCounter == a.lastCounter
    && seen.failures == a.failures && seen.lockedUntil == a.lockedUntil && seen.password == a.password
  }

  predicate Consumable(a: Account, digest: string) {
    digest in a.codes && !a.codes[digest].used
  }

  /** A proof that belongs to the enrolled secret and has not been used. */
  predicate FreshTotp(a: Account, q: Request) {
    a.secret != "" && q.totp.GoodTotp? && q.totp.counter > a.lastCounter
  }

  predicate FreshCode(a: Account, q: Request) {
    q.recovery.CodeDigest? && Consumable(a, q.recovery.digest)
  }

  predicate MustUseMfa(a: Account, q: Request) {
    q.strong || a.administrator
  }

  /**
   What a login must carry: an enrolled account one unused factor and no other, an
   account without enrolment none at all, and then only if it need not use one.
   */
  predicate LoginFactors(a: Account, q: Request) {
    if a.enrolled then
      || (q.recovery == NoCode && FreshTotp(a, q))
      || (q.totp == NoTotp && FreshCode(a, q))
    else !MustUseMfa(a, q) && q.totp == NoTotp && q.recovery == NoCode
  }

  /** Reauthentication takes no recovery codes. */
  predicate ReauthenticationFactors(a: Account, q: Request) {
    if a.enrolled then FreshTotp(a, q) else !MustUseMfa(a, q) && q.totp == NoTotp
  }

  /** The account is the one that was read, and it was read with the right password. */
  predicate Known(a: Account, q: Request) {
    q.passwordOk && Same(q.seen, a)
  }

  function CounterOf(totp: Totp): Option<int> {
    if totp.GoodTotp? then Some(totp.counter) else None
  }

  function DigestOf(recovery: Recovery): Option<string> {
    if recovery.CodeDigest? then Some(recovery.digest) else None
  }

  function LoginVerdict(a: Account, q: Request): Verdict {
    if !Eligible(a, q) then Ignored
    else if Known(a, q) && LoginFactors(a, q) then Granted(CounterOf(q.totp), DigestOf(q.recovery))
    else Failed
  }

  function ReauthenticationVerdict(a: Account, q: Request): Verdict {
    if !Eligible(a, q) then Ignored
    else if Known(a, q) && ReauthenticationFactors(a, q) then Granted(CounterOf(q.totp), None)
    else Failed
  }

  function WithUsed(codes: map<string, Code>, digest: string): map<string, Code> {
    if digest in codes then codes[digest := codes[digest].(used := true)] else codes
  }

  ghost function AfterVerdict(a: Account, now: int, v: Verdict, stages: seq<Stage>): Account {
    match v
    case Ignored => a
    case Failed => a.(failures := a.failures + 1, lockedUntil := LockFor(now, a.failures + 1, stages))
    case Granted(totp, code) =>
      a.(failures := 0, lockedUntil := None,
      lastCounter := if totp.Some? && totp.value > a.lastCounter then totp.value else a.lastCounter,
      codes := if code.Some? then WithUsed(a.codes, code.value) else a.codes)
  }

  // ---- Replacing recovery codes ----

  function FreshCodes(generation: string, digests: seq<string>): map<string, Code> {
    map d | d in digests :: Code(generation, false)
  }

  /** Between one and 32 different digests, each of them a SHA-256 in lower-case hexadecimal. */
  predicate Replaceable(digests: seq<string>) {
    && 1 <= |digests| <= 32 && Distinct(digests)
    && forall i :: 0 <= i < |digests| ==> LowerHex(digests[i])
  }

  /** `ReplaceMFARecoveryCodes`: the old codes are deleted, all of the new ones are unused. */
  method ReplaceCodes(generation: string, digests: seq<string>) returns (codes: Option<map<string, Code>>)
    ensures codes.Some? <==> Replaceable(digests)
    ensures codes.Some? ==> codes.value == FreshCodes(generation, digests)
  {
    if |digests| < 1 || |digests| > 32 {
      return None;
    }
    var rows: map<string, Code> := map[];
    for i := 0 to |digests|
      invariant Distinct(digests[..i]) && forall k :: 0 <= k < i ==> LowerHex(digests[k])
      invariant rows == FreshCodes(generation, digests[..i])
    {
      assert digests[..i + 1] == digests[..i] + [digests[i]];
      if !LowerHex(digests[i]) {
        return None;
      }
      if digests[i] in rows {
        assert !Distinct(digests) by {
          var k :| 0 <= k < i && digests[..i][k] == digests[i];
          assert digests[k] == digests[i];
        }
        return None;
      }
      rows := rows[digests[i] := Code(generation, false)];
      assert rows.Keys == FreshCodes(generation, digests[..i + 1]).Keys;
    }
    assert digests[..|digests|] == digests;
    codes := Some(rows);
  }

  // ---- Steps ----

  datatype Event =
    | Login(request: Request)
    | Reauthenticate(request: Request)
    | Activate(secret: string, counter: int, password: string, generation: string, digests: seq<string>)
    | ActivateWithoutMfa(password: string)
    | Rotate(secret: string, counter: int, generation: string, digests: seq<string>)
    | Regenerate(generation: string, digests: seq<string>)
    | Administer(version: nat, status: Status, administrator: bool)

  /** A committed event and the time of its commit; a request read its clock no later. */
  datatype Commit = Commit(event: Event, at: int)

  ghost predicate NewCodes(a: Account, generation: string, digests: seq<string>) {
    generation !in a.generations && Replaceable(digests)
  }

  ghost function WithCodes(a: Account, generation: string, digests: seq<string>): Account {
    a.(codes := FreshCodes(generation, digests), generations := a.generations + {generation})
  }

  /** What every activation does: the secret, the counter and the codes stay unless an enrolment brings new ones. */
  ghost function Activated(a: Account, password: string): Account {
    a.(version := a.version + 1, status := Active, enrolled := false, password := password, failures := 0,
    lockedUntil := None)
  }

  ghost predicate Step(stages: seq<Stage>, a: Account, c: Commit, z: Account) {
    match c.event
    case Login(q) => q.now <= c.at && z == AfterVerdict(a, q.now, LoginVerdict(a, q), stages)
    case Reauthenticate(q) => q.now <= c.at && z == AfterVerdict(a, q.now, ReauthenticationVerdict(a, q), stages)
    case Activate(secret, counter, password, generation, digests) =>
      && a.status == Pending && counter > a.lastCounter && NewCodes(a, generation, digests)
      && z == Activated(WithCodes(a, generation, digests), password).(enrolled := true, secret := secret,
              lastCounter := counter)
    case ActivateWithoutMfa(password) =>
      a.status == Pending && z == Activated(a, password)
    case Rotate(secret, counter, generation, digests) =>
      && counter > a.lastCounter && NewCodes(a, generation, digests)
      && z == WithCodes(a, generation, digests).(version := a.version + 1, enrolled := true, secret := secret,
              lastCounter := counter)
    case Regenerate(generation, digests) =>
      NewCodes(a, generation, digests) && z == WithCodes(a, generation, digests).(version := a.version + 1)
    case Administer(version, status, administrator) =>
      && a.version <= version && (status != a.status ==> a.version < version)
      && z == a.(version := version, status := status, administrator := administrator)
  }

  ghost predicate Run(stages: seq<Stage>, r: seq<Account>, log: seq<Commit>) {
    && |r| == |log| + 1
    && (forall i, j :: 0 <= i && j == i + 1 && j < |r| ==> Step(stages, r[i], log[i], r[j]))
    && (forall i, j :: 0 <= i < j < |log| ==> log[i].at <= log[j].at)
    && forall d :: d in r[0].codes ==> r[0].codes[d].generation in r[0].generations
  }

  ghost function VerdictOf(a: Account, e: Event): Verdict {
    match e
    case Login(q) => LoginVerdict(a, q)
    case Reauthenticate(q) => ReauthenticationVerdict(a, q)
    case _ => Ignored
  }

  // ---- Counters ----

  /** The TOTP counter a step accepts. */
  ghost function Accepted(a: Account, e: Event): Option<int> {
    match e
    case Activate(_, counter, _, _, _) => Some(counter)
    case Rotate(_, counter, _, _) => Some(counter)
    case _ => if VerdictOf(a, e).Granted? then VerdictOf(a, e).totp else None
  }

  lemma StepRaisesCounter(stages: seq<Stage>, a: Account, c: Commit, z: Account)
    requires Step(stages, a, c, z)
    ensures a.lastCounter <= z.lastCounter
    ensures Accepted(a, c.event).Some? ==> a.lastCounter < Accepted(a, c.event).value == z.lastCounter
  {
  }

  lemma {:induction false} CounterNeverFalls(stages: seq<Stage>, r: seq<Account>, log: seq<Commit>, i: nat, j: nat)
    requires Run(stages, r, log) && i <= j < |r|
    ensures r[i].lastCounter <= r[j].lastCounter
    decreases j
  {
    if i < j {
      CounterNeverFalls(stages, r, log, i, j - 1);
      StepRaisesCounter(stages, r[j - 1], log[j - 1], r[j]);
    }
  }

  /** Every accepted counter exceeds every counter accepted before, so no code is accepted twice. */
  lemma AcceptedCountersRise(stages: seq<Stage>, r: seq<Account>, log: seq<Commit>, i: nat, j: nat)
    requires Run(stages, r, log) && i < j < |log| && Accepted(r[i], log[i].event).Some?
    requires Accepted(r[j], log[j].event).Some?
    ensures Accepted(r[i], log[i].event).value < Accepted(r[j], log[j].event).value
  {
    StepRaisesCounter(stages, r[i], log[i], r[i + 1]);
    CounterNeverFalls(stages, r, log, i + 1, j);
    StepRaisesCounter(stages, r[j], log[j], r[j + 1]);
  }

  // ---- Recovery codes ----

  /** The generation and digest of the recovery code a step accepts. */
  ghost function AcceptedCode(a: Account, e: Event): Option<(string, string)> {
    var v := VerdictOf(a, e);
    if v.Granted? && v.code.Some? && v.code.value in a.codes
    then Some((a.codes[v.code.value].generation, v.code.value))
    else None
  }

  ghost predicate CodesKnown(a: Account) {
    forall d :: d in a.codes ==> a.codes[d].generation in a.generations
  }

  /** This code can no longer be accepted: it is used, or its generation is gone for good. */
  ghost predicate Spent(a: Account, generation: string, digest: string) {
    generation in a.generations
    && (digest in a.codes && a.codes[digest].generation == generation ==> a.codes[digest].used)
  }

  lemma StepKeepsCodes(stages: seq<Stage>, a: Account, c: Commit, z: Account, generation: string, digest: string)
    requires CodesKnown(a) && Step(stages, a, c, z)
    ensures CodesKnown(z)
    ensures Spent(a, generation, digest) ==>
              Spent(z, generation, digest) && AcceptedCode(a, c.event) != Some((generation, digest))
    ensures AcceptedCode(a, c.event) == Some((generation, digest)) ==> Spent(z, generation, digest)
  {
  }

  lemma {:induction false} SpentStays(
    stages: seq<Stage>, r: seq<Account>, log: seq<Commit>, i: nat, j: nat, generation: string, digest: string)
    requires Run(stages, r, log) && i <= j < |r|
    ensures CodesKnown(r[j])
    ensures Spent(r[i], generation, digest) ==> Spent(r[j], generation, digest)
    decreases j
  {
    if i < j {
      SpentStays(stages, r, log, i, j - 1, generation, digest);
      StepKeepsCodes(stages, r[j - 1], log[j - 1], r[j], generation, digest);
    } else if j > 0 {
      SpentStays(stages, r, log, j - 1, j - 1, generation, digest);
      StepKeepsCodes(stages, r[j - 1], log[j - 1], r[j], generation, digest);
    }
  }

  /** A stored recovery code is accepted at most once. */
  lemma CodesAreAcceptedOnce(stages: seq<Stage>, r: seq<Account>, log: seq<Commit>, i: nat, j: nat)
    requires Run(stages, r, log) && i < j < |log| && AcceptedCode(r[i], log[i].event).Some?
    ensures AcceptedCode(r[j], log[j].event) != AcceptedCode(r[i], log[i].event)
  {
    var (generation, digest) := AcceptedCode(r[i], log[i].event).value;
    SpentStays(stages, r, log, i, i, generation, digest);
    StepKeepsCodes(stages, r[i], log[i], r[i + 1], generation, digest);
    SpentStays(stages, r, log, i + 1, j, generation, digest);
    StepKeepsCodes(stages, r[j], log[j], r[j + 1], generation, digest);
  }

  ghost predicate Replaces(e: Event) {
    e.Activate? || e.Rotate? || e.Regenerate?
  }

  /** After its generation is replaced, no code of it is ever accepted again. */
  lemma ReplacedCodesAreRefused(
    stages: seq<Stage>, r: seq<Account>, log: seq<Commit>, i: nat, j: nat, generation: string, digest: string)
    requires Run(stages, r, log) && i < j < |log| && Replaces(log[i].event) && generation in r[i].generations
    ensures AcceptedCode(r[j], log[j].event) != Some((generation, digest))
  {
    SpentStays(stages, r, log, i, i, generation, digest);
    assert Step(stages, r[i], log[i], r[i + 1]);
    assert Spent(r[i + 1], generation, digest);
    SpentStays(stages, r, log, i + 1, j, generation, digest);
    StepKeepsCodes(stages, r[j], log[j], r[j + 1], generation, digest);
  }

  // ---- Lockout ----

  ghost predicate Counted(a: Account, e: Event) {
    VerdictOf(a, e) == Failed
  }

  function ReadAt(e: Event): int {
    match e
    case Login(q) => q.now
    case Reauthenticate(q) => q.now
    case _ => 0
  }

  ghost predicate Clears(a: Account, e: Event) {
    VerdictOf(a, e).Granted? || e.Activate? || e.ActivateWithoutMfa?
  }

  /** Nothing between `i` and `j` clears the failures. */
  ghost predicate NoSuccess(r: seq<Account>, log: seq<Commit>, i: nat, j: nat)
    requires i <= j <= |log| && |log| < |r|
  {
    forall k :: i <= k < j ==> !Clears(r[k], log[k].event)
  }

  /** The duration that a counted failure imposes, given the failures it leaves. */
  ghost function Imposes(stages: seq<Stage>, a: Account, e: Event, failures: nat): int {
    if Counted(a, e) && StageFor(stages, failures).Some? then StageFor(stages, failures).value else 0
  }

  /** The durations that the counted failures from `i` up to `j` impose. */
  ghost function Imposed(stages: seq<Stage>, r: seq<Account>, log: seq<Commit>, i: nat, j: nat): int
    requires i <= j <= |log| && |log| < |r|
    decreases j
  {
    if i == j then 0
    else Imposed(stages, r, log, i, j - 1) + Imposes(stages, r[j - 1], log[j - 1].event, r[j].failures)
  }

  /** One step that clears nothing: a lock reaches as far as before, or from there by what the step imposes. */
  lemma LockStep(stages: seq<Stage>, a: Account, c: Commit, z: Account)
    requires ValidStages(stages) && Step(stages, a, c, z) && !Clears(a, c.event)
    ensures z.failures >= a.failures
    ensures Counted(a, c.event) && a.failures + 1 >= stages[0].attempts ==>
              && z.failures == a.failures + 1
              && z.lockedUntil == Some(ReadAt(c.event) + Imposes(stages, a, c.event, z.failures))
    ensures Counted(a, c.event) && a.lockedUntil.Some? ==> ReadAt(c.event) >= a.lockedUntil.value
    ensures !Counted(a, c.event) ==> z.lockedUntil == a.lockedUntil && Imposes(stages, a, c.event, z.failures) == 0
  {
    StageIsHighest(stages, z.failures);
  }

  /** A lock that is in force reaches further by what each step imposes. */
  lemma LockGrows(stages: seq<Stage>, a: Account, c: Commit, z: Account, base: int)
    requires ValidStages(stages) && Step(stages, a, c, z) && !Clears(a, c.event)
    requires a.failures >= stages[0].attempts && a.lockedUntil.Some? && a.lockedUntil.value >= base
    ensures z.failures >= stages[0].attempts && z.lockedUntil.Some?
    ensures z.lockedUntil.value >= base + Imposes(stages, a, c.event, z.failures)
  {
    LockStep(stages, a, c, z);
  }

  /** How far the lock in force at `j` reaches, counted from the failure at `i`. */
  lemma {:induction false} LockReaches(stages: seq<Stage>, r: seq<Account>, log: seq<Commit>, i: nat, j: nat)
    requires Run(stages, r, log) && i < j <= |log| && NoSuccess(r, log, i, j) && ValidStages(stages)
    requires Counted(r[i], log[i].event) && r[i].failures + 1 >= stages[0].attempts
    ensures r[j].failures >= stages[0].attempts
    ensures r[j].lockedUntil.Some?
    ensures r[j].lockedUntil.value >= ReadAt(log[i].event) + Imposed(stages, r, log, i, j)
    decreases j
  {
    var h := j - 1;
    assert Step(stages, r[h], log[h], r[j]);
    if h == i {
      LockStep(stages, r[h], log[h], r[j]);
      assert Imposed(stages, r, log, i, i) == 0;
    } else {
      LockReaches(stages, r, log, i, h);
      LockGrows(stages, r[h], log[h], r[j], ReadAt(log[i].event) + Imposed(stages, r, log, i, h));
    }
  }

  /**
   While nothing succeeds, a counted failure reads its clock no earlier than the first
   one plus all lock durations imposed in between, whatever the requests raced on.
   */
  lemma LockoutAddsUp(stages: seq<Stage>, r: seq<Account>, log: seq<Commit>, i: nat, j: nat)
    requires Run(stages, r, log) && i < j < |log| && NoSuccess(r, log, i, j) && ValidStages(stages)
    requires Counted(r[i], log[i].event) && r[i].failures + 1 >= stages[0].attempts && Counted(r[j], log[j].event)
    ensures ReadAt(log[j].event) >= ReadAt(log[i].event) + Imposed(stages, r, log, i, j)
    ensures log[j].at >= ReadAt(log[i].event) + Imposed(stages, r, log, i, j)
  {
    LockReaches(stages, r, log, i, j);
    assert Step(stages, r[j], log[j], r[j + 1]);
  }

  // ---- Requests that work with what they read ----

  /** A request is let in only on an account that is, but for its recovery codes, the one it read. */
  lemma GrantedOnWhatWasRead(a: Account, e: Event)
    requires VerdictOf(a, e).Granted?
    ensures e.Login? || e.Reauthenticate?
    ensures e.request.passwordOk && e.request.seen.(codes := a.codes, generations := a.generations) == a
  {
  }

  /** Whoever must use MFA gets in only enrolled, with a TOTP newer than the last one or an unused code. */
  lemma NobodySkipsMfa(a: Account, e: Event)
    requires VerdictOf(a, e).Granted? && (a.enrolled || a.administrator || e.request.strong)
    ensures a.enrolled
    ensures Accepted(a, e).Some? || AcceptedCode(a, e).Some?
    ensures Accepted(a, e).Some? ==> a.secret != "" && a.lastCounter < Accepted(a, e).value
    ensures AcceptedCode(a, e).Some? ==> var d := AcceptedCode(a, e).value.1; d in a.codes && !a.codes[d].used
  {
  }

  /** The account is replaced, or its status or password is. */
  ghost predicate Revises(a: Account, e: Event) {
    Replaces(e) || e.ActivateWithoutMfa? || (e.Administer? && e.status != a.status)
  }

  lemma StepRaisesVersion(stages: seq<Stage>, a: Account, c: Commit, z: Account)
    requires Step(stages, a, c, z)
    ensures a.version <= z.version
    ensures Revises(a, c.event) ==> a.version < z.version
  {
  }

  lemma {:induction false} VersionNeverFalls(stages: seq<Stage>, r: seq<Account>, log: seq<Commit>, i: nat, j: nat)
    requires Run(stages, r, log) && i <= j < |r|
    ensures r[i].version <= r[j].version
    decreases j
  {
    if i < j {
      VersionNeverFalls(stages, r, log, i, j - 1);
      StepRaisesVersion(stages, r[j - 1], log[j - 1], r[j]);
    }
  }

  /**
   A request that read the account before it was activated, rotated, given new codes or
   disabled, or before another request used a TOTP, is refused whatever it carries.
   */
  lemma StaleRequestsAreRefused(stages: seq<Stage>, r: seq<Account>, log: seq<Commit>, i: nat, k: nat, j: nat)
    requires Run(stages, r, log) && i <= k < j < |log|
    requires Revises(r[k], log[k].event) || Accepted(r[k], log[k].event).Some?
    requires log[j].event.Login? || log[j].event.Reauthenticate?
    requires log[j].event.request.seen == r[i]
    ensures !VerdictOf(r[j], log[j].event).Granted?
  {
    var z := k + 1;
    VersionNeverFalls(stages, r, log, i, k);
    StepRaisesVersion(stages, r[k], log[k], r[z]);
    VersionNeverFalls(stages, r, log, z, j);
    CounterNeverFalls(stages, r, log, i, k);
    StepRaisesCounter(stages, r[k], log[k], r[z]);
    CounterNeverFalls(stages, r, log, z, j);
  }

  lemma {:induction false} FailuresAddUp(stages: seq<Stage>, r: seq<Account>, log: seq<Commit>, i: nat, j: nat)
    requires Run(stages, r, log) && i <= j < |r| && NoSuccess(r, log, i, j)
    ensures r[i].failures <= r[j].failures
    decreases j
  {
    if i < j {
      FailuresAddUp(stages, r, log, i, j - 1);
      assert Step(stages, r[j - 1], log[j - 1], r[j]);
    }
  }

  /** A request that read the account before a counted failure is refused, unless failures were cleared since. */
  lemma RacingGuessesAreRefused(stages: seq<Stage>, r: seq<Account>, log: seq<Commit>, i: nat, k: nat, j: nat)
    requires Run(stages, r, log) && i <= k < j < |log| && Counted(r[k], log[k].event) && NoSuccess(r, log, i, j)
    requires log[j].event.Login? || log[j].event.Reauthenticate?
    requires log[j].event.request.seen == r[i]
    ensures !VerdictOf(r[j], log[j].event).Granted?
  {
    var z := k + 1;
    FailuresAddUp(stages, r, log, i, k);
    assert Step(stages, r[k], log[k], r[z]);
    FailuresAddUp(stages, r, log, z, j);
  }

  // ---- Spacing of commits ----

  /** No request waits longer than `limit` between reading its clock and committing. */
  ghost predicate Prompt(log: seq<Commit>, limit: int) {
    forall k :: 0 <= k < |log| && (log[k].event.Login? || log[k].event.Reauthenticate?) ==>
                  log[k].at <= ReadAt(log[k].event) + limit
  }

  /** A counted failure that imposes a lock, and a later counted one before anything succeeds. */
  ghost predicate Successive(stages: seq<Stage>, r: seq<Account>, log: seq<Commit>, i: nat, j: nat)
    requires |log| < |r|
  {
    && i < j < |log| && NoSuccess(r, log, i, j) && Counted(r[i], log[i].event) && Counted(r[j], log[j].event)
    && StageFor(stages, r[i + 1].failures).Some?
  }

  ghost predicate SpacedIn(stages: seq<Stage>, r: seq<Account>, log: seq<Commit>, slack: int, i: nat, j: nat)
    requires |log| < |r|
  {
    Successive(stages, r, log, i, j) ==> log[j].at >= log[i].at + StageFor(stages, r[i + 1].failures).value - slack
  }

  /**
   Measured between commits, a counted failure comes at most `slack` earlier than the lock
   duration after the one that imposed it, as long as no request waits longer than `limit`.
   */
  ghost predicate CommitsSpaced(stages: seq<Stage>, limit: int, slack: int) {
    forall r, log, i: nat, j: nat :: Run(stages, r, log) && Prompt(log, limit) ==> SpacedIn(stages, r, log, slack, i, j)
  }

  lemma {:induction false} ImposedCoversFirst(stages: seq<Stage>, r: seq<Account>, log: seq<Commit>, i: nat, j: nat)
    requires i < j <= |log| && |log| < |r| && ValidStages(stages)
    requires Counted(r[i], log[i].event) && StageFor(stages, r[i + 1].failures).Some?
    ensures Imposed(stages, r, log, i, j) >= StageFor(stages, r[i + 1].failures).value
    decreases j
  {
    StageIsHighest(stages, r[j].failures);
    if j == i + 1 {
      assert Imposed(stages, r, log, i, i) == 0;
    } else {
      ImposedCoversFirst(stages, r, log, i, j - 1);
    }
  }

  /** The wait of the first failure, but never more than the whole lock, is all that is lost. */
  lemma CommitsAreSpaced(stages: seq<Stage>, r: seq<Account>, log: seq<Commit>, limit: nat, i: nat, j: nat)
    requires ValidStages(stages) && Run(stages, r, log) && Prompt(log, limit)
    ensures SpacedIn(stages, r, log, Min(limit, Longest(stages)), i, j)
  {
    if Successive(stages, r, log, i, j) {
      assert Step(stages, r[i], log[i], r[i + 1]);
      StageIsHighest(stages, r[i + 1].failures);
      LockoutAddsUp(stages, r, log, i, j);
      ImposedCoversFirst(stages, r, log, i, j);
    }
  }

  ghost function Longest(stages: seq<Stage>): int
    requires stages != []
  {
    stages[|stages| - 1].duration
  }

  ghost function WrongPassword(now: int, a: Account): Event {
    Login(Request(now, true, false, a, false, NoTotp, NoCode))
  }

  /** A failure that commits as late as it may and one that reads its clock just as the longest lock ends. */
  ghost function LateAccounts(stages: seq<Stage>): seq<Account>
    requires ValidStages(stages)
  {
    var n := stages[|stages| - 1].attempts;
    var a := Account(1, false, Active, false, "", "", 0, n - 1, None, map[], {});
    [a, a.(failures := n, lockedUntil := LockFor(0, n, stages)),
     a.(failures := n + 1, lockedUntil := LockFor(Longest(stages), n + 1, stages))]
  }

  ghost function LateLog(stages: seq<Stage>, limit: int): seq<Commit>
    requires ValidStages(stages)
  {
    var r, end := LateAccounts(stages), Longest(stages);
    [Commit(WrongPassword(0, r[0]), limit), Commit(WrongPassword(end, r[1]), if limit > end then limit else end)]
  }

  lemma LateCommitsAreClose(stages: seq<Stage>, limit: nat, slack: int)
    requires ValidStages(stages) && slack < Min(limit, Longest(stages))
    ensures !CommitsSpaced(stages, limit, slack)
  {
    var r, log := LateAccounts(stages), LateLog(stages, limit);
    assert Step(stages, r[0], log[0], r[1]);
    assert Step(stages, r[1], log[1], r[2]);
    assert Run(stages, r, log) && Prompt(log, limit);
    assert Successive(stages, r, log, 0, 1) && !SpacedIn(stages, r, log, slack, 0, 1);
  }

  /** Between commits, exactly the longest wait is lost from a lock, or the longest lock if that is less. */
  lemma CommitSpacingIff(stages: seq<Stage>, limit: nat, slack: int)
    requires ValidStages(stages)
    ensures CommitsSpaced(stages, limit, slack) <==> slack >= Min(limit, Longest(stages))
  {
    if slack < Min(limit, Longest(stages)) {
      LateCommitsAreClose(stages, limit, slack);
    } else {
      forall r, log, i: nat, j: nat | Run(stages, r, log) && Prompt(log, limit)
        ensures SpacedIn(stages, r, log, slack, i, j)
      {
        CommitsAreSpaced(stages, r, log, limit, i, j);
      }
    }
  }

  // ---- The transactions ----

  /** `localFactorResult` */
  datatype Factors = Factors(authenticated: bool, failed: bool, counter: Option<int>)

  const REFUSED := Factors(false, true, None)

  class AccountRow {
    const stages: seq<Stage>
    var a: Account

    constructor (stages: seq<Stage>, a: Account)
      ensures this.stages == stages && this.a == a
    {
      this.stages, this.a := stages, a;
    }

    /**
     The transaction of `loginWithMethod`: it lets in exactly an eligible request with the
     right password, an account unchanged since it was read, and the factors it must carry.
     */
    method LogIn(q: Request) returns (granted: bool)
      modifies this
      ensures granted <==> Eligible(old(a), q) && Known(old(a), q) && LoginFactors(old(a), q)
      ensures Step(stages, old(a), Commit(Login(q), q.now), a)
    {
      var factors := VerifyLoginFactors(q, q.entry && a.status == Active && !Locked(a, q.now));
      if !factors.authenticated {
        if factors.failed {
          SaveFailure(q.now);
        }
        return false;
      }
      SaveSuccess(factors.counter);
      granted := true;
    }

    /** The transaction of `Reauthenticate`. */
    method Confirm(q: Request) returns (granted: bool)
      modifies this
      ensures granted <==> Eligible(old(a), q) && Known(old(a), q) && ReauthenticationFactors(old(a), q)
      ensures Step(stages, old(a), Commit(Reauthenticate(q), q.now), a)
    {
      var factors := VerifyLocalFactors(q, q.entry && a.status == Active && !Locked(a, q.now));
      if !factors.authenticated {
        if factors.failed {
          SaveFailure(q.now);
        }
        return false;
      }
      SaveSuccess(factors.counter);
      granted := true;
    }

    /** `verifyLoginFactors`: a recovery code is used up as it is verified. */
    method VerifyLoginFactors(q: Request, eligible: bool) returns (factors: Factors)
      modifies this
      ensures factors.authenticated <==> eligible && Known(old(a), q) && LoginFactors(old(a), q)
      ensures factors.failed <==> eligible && !factors.authenticated
      ensures factors.authenticated ==> factors.counter == CounterOf(q.totp)
      ensures a == if factors.authenticated && q.recovery.CodeDigest?
                   then old(a).(codes := WithUsed(old(a).codes, q.recovery.digest)) else old(a)
    {
      factors := Factors(eligible, false, None);
      if eligible && (!q.passwordOk || !Same(q.seen, a)) {
        factors := REFUSED;
      }
      if !factors.authenticated {
        return;
      }
      var totpPresent, recoveryPresent := q.totp != NoTotp, q.recovery != NoCode;
      if !a.enrolled && !MustUseMfa(a, q) {
        if totpPresent || recoveryPresent {
          factors := REFUSED;
        }
        return;
      }
      if !a.enrolled || totpPresent == recoveryPresent {
        return REFUSED;
      }
      if totpPresent {
        if a.secret == "" || q.totp.BadTotp? || q.totp.counter <= a.lastCounter {
          return REFUSED;
        }
        return Factors(true, false, Some(q.totp.counter));
      }
      if q.recovery.MalformedCode? {
        return REFUSED;
      }
      var consumed := Consume(q.recovery.digest);
      if !consumed {
        factors := REFUSED;
      }
    }

    /** `verifyLocalFactors` */
    method VerifyLocalFactors(q: Request, eligible: bool) returns (factors: Factors)
      ensures factors.authenticated <==> eligible && Known(a, q) && ReauthenticationFactors(a, q)
      ensures factors.failed <==> eligible && !factors.authenticated
      ensures factors.authenticated ==> factors.counter == CounterOf(q.totp)
    {
      factors := Factors(eligible, false, None);
      if eligible && (!q.passwordOk || !Same(q.seen, a)) {
        factors := REFUSED;
      }
      if factors.authenticated && (a.enrolled || MustUseMfa(a, q)) {
        if !a.enrolled || a.secret == "" || q.totp == NoTotp {
          factors := REFUSED;
        } else if q.totp.BadTotp? || q.totp.counter <= a.lastCounter {
          factors := REFUSED;
        } else {
          factors := factors.(counter := Some(q.totp.counter));
        }
      } else if factors.authenticated && q.totp != NoTotp {
        factors := REFUSED;
      }
    }

    /** `ConsumeMFARecoveryCode` */
    method Consume(digest: string) returns (consumed: bool)
      modifies this
      ensures consumed <==> Consumable(old(a), digest)
      ensures a == if consumed then old(a).(codes := WithUsed(old(a).codes, digest)) else old(a)
    {
      consumed := digest in a.codes && !a.codes[digest].used;
      if consumed {
        a := a.(codes := a.codes[digest := a.codes[digest].(used := true)]);
      }
    }

    /** `SaveAuthenticationFailure` */
    method SaveFailure(now: int)
      modifies this
      ensures a == AfterVerdict(old(a), now, Failed, stages)
    {
      var until := LockUntil(now, a.failures + 1, stages);
      a := a.(failures := a.failures + 1, lockedUntil := until);
    }

    /** `SaveAuthenticationSuccess` and `SaveReauthenticationSuccess` */
    method SaveSuccess(counter: Option<int>)
      modifies this
      ensures a == AfterVerdict(old(a), 0, Granted(counter, None), stages)
    {
      a := a.(failures := 0, lockedUntil := None);
      if counter.Some? && counter.value > a.lastCounter {
        a := a.(lastCounter := counter.value);
      }
    }

    /** `RegenerateMFARecoveryCodes`, once its actor and proof are accepted. */
    method RegenerateCodes(generation: string, digests: seq<string>) returns (ok: bool)
      requires generation !in a.generations
      modifies this
      ensures ok <==> NewCodes(old(a), generation, digests)
      ensures a == if ok then WithCodes(old(a), generation, digests).(version := old(a).version + 1) else old(a)
    {
      var codes := ReplaceCodes(generation, digests);
      if codes.None? {
        return false;
      }
      a := a.(codes := codes.value, generations := a.generations + {generation}, version := a.version + 1);
      ok := true;
    }

    /** The credential part of `ConfirmMFARotation`. */
    method ConfirmRotation(secret: string, counter: int, generation: string, digests: seq<string>) returns (ok: bool)
      requires generation !in a.generations
      modifies this
      ensures ok <==> counter > old(a).lastCounter && NewCodes(old(a), generation, digests)
      ensures if ok then Step(stages, old(a), Commit(Rotate(secret, counter, generation, digests), 0), a)
              else a == old(a)
    {
      var codes := ReplaceCodes(generation, digests);
      if counter <= a.lastCounter || codes.None? {
        return false;
      }
      a := a.(codes := codes.value, generations := a.generations + {generation}, version := a.version + 1,
      enrolled := true, secret := secret, lastCounter := counter);
      ok := true;
    }

    /** The credential part of `ActivateWithResult` with an enrolment. */
    method ActivateAccount(secret: string, counter: int, password: string, generation: string, digests: seq<string>)
      returns (ok: bool)
      requires generation !in a.generations
      modifies this
      ensures ok <==> old(a).status == Pending && counter > old(a).lastCounter && NewCodes(old(a), generation, digests)
      ensures if ok then Step(stages, old(a), Commit(Activate(secret, counter, password, generation, digests), 0), a)
              else a == old(a)
    {
      var codes := ReplaceCodes(generation, digests);
      if a.status != Pending || counter <= a.lastCounter || codes.None? {
        return false;
      }
      a := a.(version := a.version + 1, status := Active, enrolled := true, password := password,
      secret := secret, lastCounter := counter, failures := 0, lockedUntil := None);
      a := a.(codes := codes.value, generations := a.generations + {generation});
      ok := true;
    }

    /**
     The same without one: an earlier secret, counter and codes stay, but the account no
     longer counts as enrolled.
     */
    method ActivateWithoutEnrolment(strong: bool, password: string) returns (ok: bool)
      modifies this
      ensures ok <==> old(a).status == Pending && !strong
      ensures if ok then Step(stages, old(a), Commit(ActivateWithoutMfa(password), 0), a) else a == old(a)
    {
      if a.status != Pending || strong {
        return false;
      }
      a := a.(version := a.version + 1, status := Active, enrolled := false, password := password,
      failures := 0, lockedUntil := None);
      ok := true;
    }
  }
}
