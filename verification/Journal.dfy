/** The operation journal: its records, the rules both validators apply to it, and the validator's
    own loop over them.

    Text fields that carry no rule of their own (reasons, digests, adapters) are kept
    as plain strings; time stamps are numbers ordered like the ISO texts. */
module Journal {
  import opened Options
  import opened Texts

  datatype State =
    | Planned | Staged | Verified | RecoverySaved
    | Applying | Checking | Committed
    | Recovering | Recovered | RecoveryRequired | Interrupted

  datatype Kind = Transaction | Legacy

  datatype Action =
    | Install | Update | Downgrade | Rollback | Recover | Uninstall
    | Restore | Migrate | Backup | VaultRecover | Restart

  datatype Cause = TrapRan | Abandoned | ApplyFailed | CheckFailed | RecoveryFailed

  datatype Outcome = ClosedCommitted | ClosedRecovered | ClosedRefused | ClosedInterrupted | ClosedManual

  datatype ExitName =
    | USAGE | UNSUPPORTED | NETWORK | TRUST | PERMISSION
    | PREFLIGHT | RECOVERED | MANUAL | LOCKED | INTERRUPTED

  datatype Failure = Failure(code: ExitName, reason: string)

  datatype Checkpoint = Checkpoint(
    sequence: int,
    state: State,
    step: Option<string>,
    cause: Option<Cause>,
    checkpoint: Option<State>,
    outcome: Option<Outcome>,
    error: Option<Failure>)

  datatype Reference = Reference(operation: string, manifest: string)

  datatype Release = Release(version: string, digest: Option<string>)

  datatype Evidence = Evidence(check: string, result: string, detail: Option<string>)

  datatype Journal = Journal(
    operation: string,
    kind: Kind,
    action: Action,
    generation: int,
    planDigest: Option<string>,
    target: Option<Release>,
    recovery: Option<Reference>,
    evidence: seq<Evidence>,
    startedAt: int,
    updatedAt: int,
    checkpoints: seq<Checkpoint>)

  const MAX_RECOVERY_ATTEMPTS: nat := 3
  const MAX_CHECKPOINTS: nat := 32
  const MAX_EVIDENCE: nat := 16

  // --- The x-lifecycle table.

  predicate PreMutation(s: State) {
    s in {Planned, Staged, Verified, RecoverySaved}
  }

  predicate Progress(s: State) {
    s in {Applying, Checking, Recovering}
  }

  function Initial(kind: Kind): State {
    if kind == Transaction then Planned else Applying
  }

  function Causes(s: State): set<Cause> {
    match s
    case Interrupted => {TrapRan, Abandoned}
    case RecoveryRequired => {TrapRan, ApplyFailed, CheckFailed, RecoveryFailed}
    case _ => {}
  }

  function Successors(kind: Kind, s: State): set<State> {
    match kind
    case Transaction => (
      match s
      case Planned => {Staged, Interrupted}
      case Staged => {Verified, Interrupted}
      case Verified => {RecoverySaved, Applying, Interrupted}
      case RecoverySaved => {Applying, Interrupted}
      case Applying => {Checking, Recovering, RecoveryRequired, Interrupted}
      case Checking => {Committed, Recovering, RecoveryRequired, Interrupted}
      case Recovering => {Recovered, RecoveryRequired, Interrupted}
      case RecoveryRequired => {Recovering}
      case Interrupted => {Recovering, RecoveryRequired}
      case _ => {})
    case Legacy => (
      match s
      case Applying => {Checking, Committed, Recovering, RecoveryRequired, Interrupted}
      case Checking => {Committed, Recovering, RecoveryRequired, Interrupted}
      case Recovering => {Recovered, RecoveryRequired, Interrupted}
      case _ => {})
  }

  predicate IsTransition(kind: Kind, source: State, target: State) {
    target in Successors(kind, source)
  }

  // --- Rules about one record.

  datatype ErrorUse = AsRefused | AsRecovered | AsRecoveryRequired | AsInterrupted | AsNone

  /** Which codes an error of that outcome may use. */
  predicate ErrorCodeOk(use: ErrorUse, code: ExitName) {
    match use
    case AsRecovered => code == RECOVERED
    case AsRecoveryRequired => code == MANUAL || code == INTERRUPTED
    case AsInterrupted => code == INTERRUPTED
    case _ => code != RECOVERED && code != INTERRUPTED
  }

  function ErrorAs(c: Checkpoint): ErrorUse {
    if c.outcome == Some(ClosedRefused) then AsRefused
    else match c.state
      case Recovered => AsRecovered
      case RecoveryRequired => AsRecoveryRequired
      case Interrupted => AsInterrupted
      case _ => AsNone
  }

  predicate BeforeMutation(checkpoint: Option<State>) {
    checkpoint.Some? && PreMutation(checkpoint.value)
  }

  predicate CheckpointOk(c: Checkpoint) {
    var allowed := Causes(c.state);
    var use := ErrorAs(c);
    var needsError := use in {AsRefused, AsRecovered, AsRecoveryRequired};
    && (c.step.Some? ==> Progress(c.state))
    && (allowed != {} ==> c.cause.Some? && c.cause.value in allowed)
    && (allowed == {} ==> c.cause.None?)
    && (c.state == Interrupted <==> c.checkpoint.Some?)
    && (c.state == Committed <==> c.outcome == Some(ClosedCommitted))
    && (c.state == Recovered <==> c.outcome == Some(ClosedRecovered))
    && (c.outcome == Some(ClosedRefused) ==> PreMutation(c.state))
    && (c.outcome == Some(ClosedInterrupted) ==> c.state == Interrupted && BeforeMutation(c.checkpoint))
    && (c.state == Interrupted && BeforeMutation(c.checkpoint) ==> c.outcome == Some(ClosedInterrupted))
    && (c.state == Interrupted && !BeforeMutation(c.checkpoint) ==> c.cause == Some(Abandoned))
    && (c.outcome == Some(ClosedManual) ==> c.state == RecoveryRequired)
    && (needsError ==> c.error.Some?)
    && (c.error.Some? && !needsError ==> use == AsInterrupted)
    && (c.error.Some? ==> ErrorCodeOk(use, c.error.value.code))
    && (c.state == RecoveryRequired ==> (c.cause == Some(TrapRan) <==> c.error.value.code == INTERRUPTED))
  }

  // --- Rules about two neighbouring records and about the whole journal.

  predicate FollowOk(kind: Kind, action: Action, prev: Checkpoint, c: Checkpoint) {
    && prev.outcome.None?
    && prev.sequence < c.sequence
    && (c.state == Interrupted ==> c.checkpoint == Some(prev.state))
    && (c.outcome == Some(ClosedManual) ==> prev.state == RecoveryRequired)
    && (if prev.state == c.state then
          var progress := c.step.Some? && Progress(c.state);
          var closing := c.outcome in {Some(ClosedRefused), Some(ClosedManual)};
          !(progress && prev.step.Some?) && (progress || closing)
        else
          IsTransition(kind, prev.state, c.state)
          && !(prev.state == Verified && c.state == Applying && action != Install))
  }

  predicate StartsAttempt(prev: Checkpoint, c: Checkpoint) {
    c.state == Recovering && prev.state != Recovering
  }

  /** How many recovery attempts the records hold. */
  function Attempts(cs: seq<Checkpoint>): nat {
    if |cs| <= 1 then 0
    else Attempts(cs[..|cs|-1]) + (if StartsAttempt(cs[|cs|-2], cs[|cs|-1]) then 1 else 0)
  }

  predicate ResolvesRelease(a: Action) {
    a in {Install, Update, Downgrade}
  }

  /** What the schema alone fixes about the members modelled here. */
  predicate Shape(j: Journal) {
    && 1 <= |j.checkpoints| <= MAX_CHECKPOINTS
    && |j.evidence| <= MAX_EVIDENCE
    && 1 <= j.generation <= MAX_SAFE
    && forall i :: 0 <= i < |j.checkpoints| ==> 1 <= j.checkpoints[i].sequence <= MAX_SAFE
  }

  /** The walk rules: everything the validator asks of the record list itself. */
  predicate Walk(kind: Kind, action: Action, cs: seq<Checkpoint>) {
    && |cs| >= 1
    && cs[0].state == Initial(kind)
    && (forall i :: 0 <= i < |cs| ==> CheckpointOk(cs[i]))
    && (forall i :: 1 <= i < |cs| ==> FollowOk(kind, action, cs[i-1], cs[i]))
    && Attempts(cs) <= MAX_RECOVERY_ATTEMPTS
  }

  /** The release-name pattern `N.N.N` with an optional `-suffix`, at most 64 characters. */
  predicate IsRelease(v: string) {
    && |v| <= 64
    && exists i, j, k ::
      && 0 < i < j < k <= |v|
      && j - i > 1 && k - j > 1
      && v[i] == '.' && v[j] == '.'
      && (forall n :: 0 <= n < k && n != i && n != j ==> IsDigit(v[n]))
      && (k < |v| ==>
            && v[k] == '-' && k + 1 < |v|
            && forall n :: k < n < |v| ==>
              IsDigit(v[n]) || 'A' <= v[n] <= 'Z' || 'a' <= v[n] <= 'z' || v[n] == '.' || v[n] == '-')
  }

  predicate TargetOk(j: Journal) {
    j.kind == Transaction && ResolvesRelease(j.action) && j.target.Some? ==> IsRelease(j.target.value.version)
  }

  predicate HasRecoverySaved(cs: seq<Checkpoint>) {
    exists i :: 0 <= i < |cs| && cs[i].state == RecoverySaved
  }

  /** A journal both validators accept (byte-size cap aside). */
  predicate Valid(j: Journal) {
    && Shape(j)
    && Walk(j.kind, j.action, j.checkpoints)
    && (j.kind == Transaction <==> j.planDigest.Some?)
    && j.generation >= |j.checkpoints|
    && TargetOk(j)
    && (HasRecoverySaved(j.checkpoints) ==> j.recovery.Some?)
  }

  function Last(j: Journal): Checkpoint
    requires |j.checkpoints| > 0
  {
    j.checkpoints[|j.checkpoints| - 1]
  }

  predicate Finished(j: Journal)
    requires |j.checkpoints| > 0
  {
    Last(j).outcome.Some?
  }

  predicate InProgress(j: Journal)
    requires |j.checkpoints| > 0
  {
    !Finished(j) && Last(j).state != RecoveryRequired && Last(j).state != Interrupted
  }

  // --- The validator itself: a loop with an attempts counter and early exits.

  lemma {:induction false} AttemptsPrefix(cs: seq<Checkpoint>, i: nat)
    requires i <= |cs|
    ensures Attempts(cs[..i]) <= Attempts(cs)
    decreases |cs| - i
  {
    if i < |cs| {
      assert cs[..i+1][..i] == cs[..i];
      AttemptsPrefix(cs, i + 1);
    } else {
      assert cs[..i] == cs;
    }
  }

  /** The loop over the records. It stops at the first offending record with a running
      count of attempts; its verdict is the declarative walk predicate. */
  method CheckWalk(kind: Kind, action: Action, cs: seq<Checkpoint>) returns (ok: bool)
    requires |cs| >= 1
    ensures ok <==> Walk(kind, action, cs)
  {
    hide CheckpointOk, FollowOk;
    if cs[0].state != Initial(kind) {
      return false;
    }
    var attempts := 0;
    var i := 0;
    while i < |cs|
      invariant 0 <= i <= |cs|
      invariant forall k :: 0 <= k < i ==> CheckpointOk(cs[k])
      invariant forall k :: 1 <= k < i ==> FollowOk(kind, action, cs[k-1], cs[k])
      invariant attempts == Attempts(cs[..i]) <= MAX_RECOVERY_ATTEMPTS
    {
      assert cs[..i+1][..i] == cs[..i];
      if !CheckpointOk(cs[i]) {
        return false;
      }
      if i > 0 {
        if !FollowOk(kind, action, cs[i-1], cs[i]) {
          return false;
        }
        if StartsAttempt(cs[i-1], cs[i]) {
          attempts := attempts + 1;
          if attempts > MAX_RECOVERY_ATTEMPTS {
            AttemptsPrefix(cs, i + 1);
            return false;
          }
        }
      }
      i := i + 1;
    }
    assert cs[..i] == cs;
    return true;
  }
}
