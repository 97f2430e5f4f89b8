/** The result the coordinator builds for a native step that stopped without writing its own. */
module ExitResult {
  import opened Options
  import opened Journal
  import JournalFacts
  import Writes

  datatype ResultAction = InstallResult | UpdateResult | DowngradeResult | RollbackResult | RecoverResult | UninstallResult | HistoryResult

  datatype ResultOutcome =
    | SaysVerified | SaysRefused | SaysAvailable | SaysNoChange | SaysCommitted | SaysRecovered
    | SaysRecoveryRequired | SaysInterrupted | SaysListed

  datatype PlanField = TargetField | BundleField | TrustField | ArchiveField | ServerField

  /** A result document; `None` is an absent member, `Some(None)` one that is null. */
  datatype Document = Document(
    action: ResultAction,
    outcome: ResultOutcome,
    plan: bool,
    operationId: Option<Option<string>>,
    currentVersion: Option<Option<string>>,
    targetVersion: Option<Option<string>>,
    recoveryAvailable: Option<bool>,
    error: Option<Failure>,
    planFields: set<PlanField>,
    operations: bool)

  predicate Resolves(a: ResultAction) {
    a in {InstallResult, UpdateResult, DowngradeResult}
  }

  predicate FailureOutcome(o: ResultOutcome) {
    o in {SaysRefused, SaysRecovered, SaysRecoveryRequired, SaysInterrupted}
  }

  function UseOf(o: ResultOutcome): ErrorUse {
    match o
    case SaysRecovered => AsRecovered
    case SaysRecoveryRequired => AsRecoveryRequired
    case SaysInterrupted => AsInterrupted
    case _ => AsRefused
  }

  /** The cross-field rules of a result. */
  predicate ResultRules(r: Document) {
    var history := r.action == HistoryResult;
    && (history ==> r.outcome in {SaysListed, SaysRefused})
    && (r.outcome == SaysListed ==> history)
    && (r.plan ==> !history && r.outcome in {SaysVerified, SaysRefused} && (r.operationId.Some? ==> r.operationId.value.None?))
    && (r.outcome == SaysVerified ==> r.plan)
    && (if r.outcome == SaysVerified
        then r.planFields == {TargetField, BundleField, TrustField, ArchiveField, ServerField}
        else r.planFields == {})
    && (r.outcome == SaysListed <==> r.operations)
    && (history ==> r.operationId.None? && r.currentVersion.None? && r.targetVersion.None? && r.recoveryAvailable.None?)
    && (!history && !r.plan ==>
          r.operationId.Some? && r.currentVersion.Some? && r.targetVersion.Some? && r.recoveryAvailable.Some?)
    && (FailureOutcome(r.outcome) <==> r.error.Some?)
    && (r.error.Some? ==> ErrorCodeOk(UseOf(r.outcome), r.error.value.code))
    && (r.outcome in {SaysCommitted, SaysRecovered, SaysRecoveryRequired} ==> r.operationId != Some(None))
    && (r.outcome == SaysAvailable ==> r.operationId == Some(None) && r.targetVersion != Some(None))
    && (Resolves(r.action) && r.targetVersion.Some? && r.targetVersion.value.Some? ==> IsRelease(r.targetVersion.value.value))
  }

  /** The name of an exit status; 0 has one too, but no result is built for it. */
  function ExitNameOf(code: int): Option<ExitName> {
    match code
    case 2 => Some(USAGE)
    case 3 => Some(UNSUPPORTED)
    case 4 => Some(NETWORK)
    case 5 => Some(TRUST)
    case 6 => Some(PERMISSION)
    case 7 => Some(PREFLIGHT)
    case 8 => Some(RECOVERED)
    case 9 => Some(MANUAL)
    case 10 => Some(LOCKED)
    case 130 => Some(INTERRUPTED)
    case _ => None
  }

  predicate Killed(code: int) {
    130 < code <= 128 + 64
  }

  function StatusName(code: int): Option<ExitName> {
    if Killed(code) then Some(INTERRUPTED) else ExitNameOf(code)
  }

  /** The status alone can carry a result. */
  predicate Speaks(code: int) {
    StatusName(code).Some? && code != 8 && code != 9
  }

  /** The journal argument: not given, no operation begun, or the operation's journal. */
  datatype Given = NotGiven | NoOperation | Operation(journal: Journal)

  function Members(action: ResultAction, outcome: ResultOutcome, error: Failure, j: Option<Journal>,
                   current: Option<string>, target: Option<string>): Document {
    Document(action, outcome, false,
             Some(if j.Some? then Some(j.value.operation) else None),
             Some(current), Some(target),
             Some(j.Some? && j.value.recovery.Some?),
             Some(error), {}, false)
  }

  predicate ClosedInSuccess(c: Checkpoint) {
    if c.outcome.Some? then c.outcome.value in {ClosedCommitted, ClosedRecovered, ClosedManual}
    else c.state in {Committed, Recovered}
  }

  /** Stands for the sentence the coordinator words itself. */
  const FRESH_REASON: string := ""

  /** What a status and the operation's last record say together. */
  function Verdict(name: ExitName, last: Checkpoint): (ResultOutcome, Failure) {
    if last.outcome == Some(ClosedRefused) && last.error.Some? then (SaysRefused, last.error.value)
    else if last.state == RecoveryRequired && last.error.Some? then (SaysRecoveryRequired, last.error.value)
    else if last.state == Interrupted then
      var reason := if last.error.Some? then last.error.value.reason else FRESH_REASON;
      (SaysInterrupted, Failure(INTERRUPTED, reason))
    else if PreMutation(last.state) then (Stopped(name), Failure(name, FRESH_REASON))
    else (SaysInterrupted, Failure(INTERRUPTED, FRESH_REASON))
  }

  function Stopped(name: ExitName): ResultOutcome {
    if name == INTERRUPTED then SaysInterrupted else SaysRefused
  }

  /** The result, or none where the native result alone can say what happened. */
  function FromExit(code: int, action: ResultAction, given: Given, current: Option<string>, target: Option<string>): Option<Document> {
    if !Speaks(code) || given.NotGiven? then None
    else
      var name := StatusName(code).value;
      if given.NoOperation? then
        Some(Members(action, Stopped(name), Failure(name, FRESH_REASON), None, current, target))
      else if !Valid(given.journal) || ClosedInSuccess(Last(given.journal)) then None
      else
        var (outcome, error) := Verdict(name, Last(given.journal));
        Some(Members(action, outcome, error, Some(given.journal), current, target))
  }

  /** Some record of the journal is at or past `applying`. */
  ghost predicate TouchedHost(j: Journal) {
    exists i :: 0 <= i < |j.checkpoints| && JournalFacts.Mutating(j.checkpoints[i])
  }

  lemma PreMutationTouchesNothing(j: Journal)
    requires Valid(j) && PreMutation(Last(j).state)
    ensures !TouchedHost(j)
  {
    hide CheckpointOk, FollowOk, Attempts;
    var n := |j.checkpoints| - 1;
    if j.kind == Legacy {
      Writes.LegacyNeverPreMutation(j.action, j.checkpoints, n);
    } else {
      JournalFacts.PreMutationPlace(j.action, j.checkpoints, n);
    }
  }

  lemma ClosingRecords(c: Checkpoint)
    requires CheckpointOk(c)
    ensures c.outcome == Some(ClosedRefused) ==> PreMutation(c.state) && c.error.Some? && ErrorCodeOk(AsRefused, c.error.value.code)
    ensures c.state == RecoveryRequired ==> c.error.Some? && ErrorCodeOk(AsRecoveryRequired, c.error.value.code)
  {
  }

  /** A status that can carry a result is an interruption or the code of a check that refused. */
  lemma SpeakingNames(code: int)
    requires Speaks(code)
    ensures StatusName(code).value == INTERRUPTED || ErrorCodeOk(AsRefused, StatusName(code).value)
  {
  }

  /** The outcomes a stopped step can have, with the codes each may use. */
  predicate Fits(outcome: ResultOutcome, error: Failure, j: Option<Journal>) {
    && outcome in {SaysRefused, SaysInterrupted, SaysRecoveryRequired}
    && ErrorCodeOk(UseOf(outcome), error.code)
    && (outcome == SaysRecoveryRequired ==> j.Some?)
  }

  lemma VerdictFits(name: ExitName, j: Journal)
    requires Valid(j) && (name == INTERRUPTED || ErrorCodeOk(AsRefused, name))
    ensures var (outcome, error) := Verdict(name, Last(j));
      && Fits(outcome, error, Some(j))
      && (outcome == SaysRefused ==> PreMutation(Last(j).state))
      && (outcome == SaysRecoveryRequired <==> Last(j).state == RecoveryRequired)
  {
    hide Valid, CheckpointOk;
    LastRecordOk(j);
    ClosingRecords(Last(j));
  }

  lemma MembersValid(action: ResultAction, outcome: ResultOutcome, error: Failure, j: Option<Journal>,
                     current: Option<string>, target: Option<string>)
    requires Fits(outcome, error, j)
    ensures ResultRules(Members(action, outcome, error, j, current, target)) <==>
      action != HistoryResult && (Resolves(action) && target.Some? ==> IsRelease(target.value))
  {
    hide IsRelease;
  }

  lemma LastRecordOk(j: Journal)
    requires Valid(j)
    ensures |j.checkpoints| > 0 && CheckpointOk(Last(j))
  {
    hide CheckpointOk, FollowOk, Attempts;
  }

  /** A result built from a status and a journal obeys every result rule exactly when the caller
      asked for something other than the history and named a release where one is needed. */
  lemma ExitResultIsValid(code: int, action: ResultAction, given: Given, current: Option<string>, target: Option<string>)
    requires FromExit(code, action, given, current, target).Some?
    ensures var r := FromExit(code, action, given, current, target).value;
      ResultRules(r) <==> action != HistoryResult && (Resolves(action) && target.Some? ==> IsRelease(target.value))
  {
    hide Valid, IsRelease, ResultRules, Members, StatusName, Verdict;
    var name := StatusName(code).value;
    SpeakingNames(code);
    if given.Operation? {
      LastRecordOk(given.journal);
      VerdictFits(name, given.journal);
      var (outcome, error) := Verdict(name, Last(given.journal));
      MembersValid(action, outcome, error, Some(given.journal), current, target);
    } else {
      MembersValid(action, Stopped(name), Failure(name, FRESH_REASON), None, current, target);
    }
  }

  /** It never claims success, says `refused` only when nothing was changed, names the operation
      and its recovery point as the journal has them, and once the host was touched it reports
      an interruption or a needed recovery whatever the exit status says. */
  lemma ExitResultIsHonest(code: int, action: ResultAction, given: Given, current: Option<string>, target: Option<string>)
    requires FromExit(code, action, given, current, target).Some?
    ensures var r := FromExit(code, action, given, current, target).value;
      && r.outcome in {SaysRefused, SaysInterrupted, SaysRecoveryRequired} && r.error.Some?
      && (given.Operation? ==>
            && r.operationId == Some(Some(given.journal.operation))
            && r.recoveryAvailable == Some(given.journal.recovery.Some?)
            && (TouchedHost(given.journal) ==> r.outcome in {SaysInterrupted, SaysRecoveryRequired})
            && (r.outcome == SaysRecoveryRequired <==> Last(given.journal).state == RecoveryRequired))
      && (given.NoOperation? ==>
            && r.operationId == Some(None) && r.recoveryAvailable == Some(false)
            && (r.outcome == SaysInterrupted <==> StatusName(code) == Some(INTERRUPTED)))
  {
    hide Valid, TouchedHost, StatusName, Verdict;
    SpeakingNames(code);
    if given.Operation? {
      var j := given.journal;
      LastRecordOk(j);
      VerdictFits(StatusName(code).value, j);
      if PreMutation(Last(j).state) {
        PreMutationTouchesNothing(j);
      }
    }
  }

  /** It declines exactly when the status has no lifecycle meaning of its own (success, 8 and 9
      included), no journal was given, or the journal is refused or closed in success. */
  lemma ExitResultDeclinesExactly(code: int, action: ResultAction, given: Given, current: Option<string>, target: Option<string>)
    ensures FromExit(code, action, given, current, target).None? <==>
      || !(code in {2, 3, 4, 5, 6, 7, 10} || 130 <= code <= 192)
      || given.NotGiven?
      || (given.Operation? && (!Valid(given.journal) || Last(given.journal).outcome in
            {Some(ClosedCommitted), Some(ClosedRecovered), Some(ClosedManual)}))
  {
    hide Valid, CheckpointOk;
    if given.Operation? && Valid(given.journal) {
      LastRecordOk(given.journal);
      JournalFacts.ClosedStates(Last(given.journal));
    }
  }

  /** The code and outcome of a step that stopped before it changed anything. */
  predicate SaysStatus(r: Document, code: int) {
    && r.error.Some?
    && (code == 2 ==> r.error.value.code == USAGE)
    && (code == 3 ==> r.error.value.code == UNSUPPORTED)
    && (code == 4 ==> r.error.value.code == NETWORK)
    && (code == 5 ==> r.error.value.code == TRUST)
    && (code == 6 ==> r.error.value.code == PERMISSION)
    && (code == 7 ==> r.error.value.code == PREFLIGHT)
    && (code == 10 ==> r.error.value.code == LOCKED)
    && (130 <= code <= 192 ==> r.error.value.code == INTERRUPTED)
    && r.outcome == if code >= 130 then SaysInterrupted else SaysRefused
  }

  /** Who speaks: the status while no operation, or only an open one that changed nothing, stands
      behind it; the last record where that was refused or awaits recovery; and everywhere else the
      result is an interruption, whatever the status. The versions are the caller's. */
  lemma ExitResultExactly(code: int, action: ResultAction, given: Given, current: Option<string>, target: Option<string>)
    requires FromExit(code, action, given, current, target).Some?
    ensures var r := FromExit(code, action, given, current, target).value;
      && r.action == action && !r.plan && r.planFields == {} && !r.operations
      && r.currentVersion == Some(current) && r.targetVersion == Some(target)
      && (given.NoOperation? ==> SaysStatus(r, code))
    ensures var r := FromExit(code, action, given, current, target).value;
      given.Operation? ==>
        && |given.journal.checkpoints| > 0
        && var last := Last(given.journal);
        if last.outcome == Some(ClosedRefused) then r.outcome == SaysRefused && r.error == last.error
        else if last.state == RecoveryRequired then r.outcome == SaysRecoveryRequired && r.error == last.error
        else if last.state in {Planned, Staged, Verified, RecoverySaved} then SaysStatus(r, code)
        else
          && r.outcome == SaysInterrupted && r.error.Some? && r.error.value.code == INTERRUPTED
          && (last.state == Interrupted && last.error.Some? ==> r.error == last.error)
  {
    hide Valid, CheckpointOk;
    if given.Operation? {
      LastRecordOk(given.journal);
      ClosingRecords(Last(given.journal));
      InterruptedError(Last(given.journal));
    }
  }

  lemma InterruptedError(c: Checkpoint)
    requires CheckpointOk(c)
    ensures c.state == Interrupted && c.error.Some? ==> c.error.value.code == INTERRUPTED
  {
  }
}
