/** The three writes a journal ever receives: its first record, a checkpoint, and the
    record that closes or parks the journal of a killed process. */
module Writes {
  import opened Options
  import opened Texts
  import opened Journal
  import JournalFacts

  // --- Growth: what a later journal of the same operation keeps of an earlier one.

  /** `later` is `c`, or the later step of the same state that replaced it in place. */
  predicate KeptOrReplaced(c: Checkpoint, later: Checkpoint) {
    || later == c
    || (c.state == later.state && c.step.Some? && later.step.Some? && c.outcome.None? && c.sequence < later.sequence)
  }

  predicate Extends(j: Journal, k: Journal) {
    var n := |j.checkpoints|;
    && 0 < n <= |k.checkpoints|
    && j.operation == k.operation && j.kind == k.kind && j.action == k.action
    && j.planDigest == k.planDigest && j.target == k.target && j.startedAt == k.startedAt
    && (j.recovery.Some? ==> k.recovery == j.recovery)
    && j.evidence <= k.evidence
    && (forall i :: 0 <= i < n - 1 ==> k.checkpoints[i] == j.checkpoints[i])
    && KeptOrReplaced(Last(j), k.checkpoints[n-1])
    && j.generation <= k.generation
    && (j.generation == k.generation ==> j == k)
    && (j.generation < k.generation ==> Last(j).sequence < Last(k).sequence && Last(j).outcome.None?)
  }

  lemma ExtendsItself(j: Journal)
    requires |j.checkpoints| > 0
    ensures Extends(j, j)
  {
  }

  lemma ExtendsTransitive(j: Journal, k: Journal, l: Journal)
    requires Extends(j, k) && Extends(k, l)
    ensures Extends(j, l)
  {
    var n := |j.checkpoints|;
    assert forall i :: 0 <= i < n - 1 ==> l.checkpoints[i] == k.checkpoints[i];
    if |k.checkpoints| > n {
      assert l.checkpoints[n-1] == k.checkpoints[n-1];
    }
  }

  /** A closed journal is never written again. */
  lemma ClosedIsFinal(j: Journal, k: Journal)
    requires Extends(j, k) && Finished(j)
    ensures k == j
  {
  }

  // --- Sequences.

  function MaxSequence(cs: seq<Checkpoint>): int
    requires |cs| > 0
  {
    if |cs| == 1 then cs[0].sequence
    else
      var rest := MaxSequence(cs[..|cs|-1]);
      if rest >= cs[|cs|-1].sequence then rest else cs[|cs|-1].sequence
  }

  lemma {:induction false} MaxSequenceIsLast(kind: Kind, action: Action, cs: seq<Checkpoint>, n: nat)
    requires Walk(kind, action, cs) && 0 < n <= |cs|
    ensures MaxSequence(cs[..n]) == cs[n-1].sequence
  {
    hide CheckpointOk, FollowOk, Attempts;
    if n > 1 {
      MaxSequenceIsLast(kind, action, cs, n - 1);
      assert cs[..n][..n-1] == cs[..n-1];
      assert FollowOk(kind, action, cs[n-2], cs[n-1]);
      JournalFacts.ClosesNothing(kind, action, cs[n-2], cs[n-1]);
    }
  }

  /** Above both the counter and every recorded sequence. */
  function NextSequence(counter: nat, j: Journal): int
    requires |j.checkpoints| > 0
  {
    var durable := MaxSequence(j.checkpoints);
    (if counter >= durable then counter else durable) + 1
  }

  lemma NextSequenceIsNew(counter: nat, j: Journal)
    requires Valid(j)
    ensures NextSequence(counter, j) > counter
    ensures NextSequence(counter, j) > Last(j).sequence
    ensures NextSequence(counter, j) <= 1 + if counter > Last(j).sequence then counter else Last(j).sequence
    ensures forall i :: 0 <= i < |j.checkpoints| ==> NextSequence(counter, j) > j.checkpoints[i].sequence
  {
    hide CheckpointOk, FollowOk, Attempts;
    var cs := j.checkpoints;
    MaxSequenceIsLast(j.kind, j.action, cs, |cs|);
    assert cs[..|cs|] == cs;
    JournalFacts.SequencesRise(j.kind, j.action, cs, |cs| - 1);
  }

  // --- Requests.

  datatype Result<+T> = Ok(value: T) | Refused(code: ExitName)

  /** The members of a checkpoint request; `stamp` is the clock the utility reads. */
  datatype CheckpointRequest = CheckpointRequest(
    expected: int,
    state: State,
    step: Option<string>,
    cause: Option<Cause>,
    outcome: Option<Outcome>,
    errorCode: Option<ExitName>,
    errorReason: Option<string>,
    recoveryOperation: Option<string>,
    recoveryManifest: Option<string>,
    evidenceCheck: Option<string>,
    evidenceResult: Option<string>,
    evidenceDetail: Option<string>,
    stamp: int)

  function RecoveryOf(operation: Option<string>, manifest: Option<string>): Result<Option<Reference>> {
    if operation.None? && manifest.None? then Ok(None)
    else if operation.None? || manifest.None? then Refused(USAGE)
    else Ok(Some(Reference(operation.value, manifest.value)))
  }

  function EvidenceOf(check: Option<string>, result: Option<string>, detail: Option<string>): Result<seq<Evidence>> {
    if check.None? && result.None? && detail.None? then Ok([])
    else if check.None? || result.None? then Refused(USAGE)
    else Ok([Evidence(check.value, result.value, detail)])
  }

  function Entry(counter: nat, j: Journal, r: CheckpointRequest): Checkpoint
    requires |j.checkpoints| > 0
    requires r.errorCode.Some? <==> r.errorReason.Some?
  {
    Checkpoint(
      NextSequence(counter, j), r.state, r.step, r.cause,
      if r.state == Interrupted then Some(Last(j).state) else None,
      r.outcome,
      if r.errorCode.Some? then Some(Failure(r.errorCode.value, r.errorReason.value)) else None)
  }

  /** A later step of the state the journal is in replaces the stepped record. */
  function Placed(j: Journal, entry: Checkpoint): seq<Checkpoint>
    requires |j.checkpoints| > 0
  {
    var cs := j.checkpoints;
    if entry.step.Some? && Last(j).step.Some? && Last(j).state == entry.state
    then cs[..|cs|-1] + [entry]
    else cs + [entry]
  }

  /** The journal a checkpoint request asks for, or the refusal. */
  function NextJournal(counter: nat, j: Journal, r: CheckpointRequest): Result<Journal>
    requires |j.checkpoints| > 0
  {
    var wanted := RecoveryOf(r.recoveryOperation, r.recoveryManifest);
    var evidence := EvidenceOf(r.evidenceCheck, r.evidenceResult, r.evidenceDetail);
    if r.errorCode.Some? != r.errorReason.Some? then Refused(USAGE)
    else if wanted.Refused? then Refused(USAGE)
    else if wanted.value.Some? && j.recovery.Some? && j.recovery != wanted.value then Refused(USAGE)
    else if evidence.Refused? then Refused(USAGE)
    else
      var updated := j.(
        checkpoints := Placed(j, Entry(counter, j, r)),
        generation := j.generation + 1,
        updatedAt := r.stamp,
        recovery := if wanted.value.Some? then wanted.value else j.recovery,
        evidence := j.evidence + evidence.value);
      if Valid(updated) then Ok(updated) else Refused(USAGE)
  }

  /** An accepted checkpoint grows the journal by one durable write: one generation, one fresh
      sequence, nothing recorded earlier lost but a step its successor replaced. */
  lemma NextJournalExtends(counter: nat, j: Journal, r: CheckpointRequest)
    requires Valid(j) && NextJournal(counter, j, r).Ok?
    ensures var k := NextJournal(counter, j, r).value;
      && Valid(k) && Extends(j, k)
      && k.generation == j.generation + 1
      && Last(k).sequence == NextSequence(counter, j)
      && Last(k).state == r.state
  {
    hide CheckpointOk, FollowOk, Attempts;
    var k := NextJournal(counter, j, r).value;
    NextSequenceIsNew(counter, j);
    var entry := Entry(counter, j, r);
    var cs := j.checkpoints;
    if entry.step.Some? && Last(j).step.Some? && Last(j).state == entry.state {
      SteppedIsOpen(Last(j));
    } else {
      assert FollowOk(k.kind, k.action, k.checkpoints[|cs|-1], k.checkpoints[|cs|]);
      JournalFacts.ClosesNothing(k.kind, k.action, k.checkpoints[|cs|-1], k.checkpoints[|cs|]);
    }
  }

  lemma SteppedIsOpen(c: Checkpoint)
    requires CheckpointOk(c) && c.step.Some?
    ensures c.outcome.None?
  {
    if c.outcome.Some? {
      match c.outcome.value
      case ClosedCommitted =>
      case ClosedRecovered =>
      case ClosedRefused =>
      case ClosedInterrupted =>
      case ClosedManual =>
    }
  }

  // --- What an accepted checkpoint records, and when it is accepted.

  /** `c` is the record `r` asks for after `j`, numbered `n`. */
  predicate IsRequested(c: Checkpoint, j: Journal, r: CheckpointRequest, n: int)
    requires |j.checkpoints| > 0
  {
    && c.sequence == n && c.state == r.state && c.step == r.step && c.cause == r.cause && c.outcome == r.outcome
    && c.checkpoint == (if r.state == Interrupted then Some(Last(j).state) else None)
    && (r.errorCode.None? && r.errorReason.None? ==> c.error.None?)
    && (r.errorCode.Some? && r.errorReason.Some? ==> c.error == Some(Failure(r.errorCode.value, r.errorReason.value)))
  }

  predicate Replaces(j: Journal, r: CheckpointRequest)
    requires |j.checkpoints| > 0
  {
    r.step.Some? && Last(j).step.Some? && Last(j).state == r.state
  }

  /** `k` is `j` with what `r` asks for recorded under number `n`, and with nothing else changed. */
  predicate Carries(j: Journal, k: Journal, r: CheckpointRequest, n: int)
    requires |j.checkpoints| > 0
  {
    && |k.checkpoints| == |j.checkpoints| + (if Replaces(j, r) then 0 else 1)
    && (forall i :: 0 <= i < |k.checkpoints| - 1 ==> k.checkpoints[i] == j.checkpoints[i])
    && IsRequested(Last(k), j, r, n)
    && k.recovery == (if r.recoveryOperation.Some? && r.recoveryManifest.Some?
                      then Some(Reference(r.recoveryOperation.value, r.recoveryManifest.value)) else j.recovery)
    && k.evidence == j.evidence + (if r.evidenceCheck.Some? && r.evidenceResult.Some?
                                   then [Evidence(r.evidenceCheck.value, r.evidenceResult.value, r.evidenceDetail)] else [])
    && k.generation == j.generation + 1 && k.updatedAt == r.stamp
    && k.operation == j.operation && k.kind == j.kind && k.action == j.action && k.planDigest == j.planDigest
    && k.target == j.target && k.startedAt == j.startedAt
  }

  function Larger(a: int, b: int): int {
    if a > b then a else b
  }

  /** The walk rules for one record more: a later step may always take the place of a stepped record
      of its state; anything else must be allowed to follow the last record. */
  predicate Fits(j: Journal, r: CheckpointRequest, c: Checkpoint)
    requires |j.checkpoints| > 0
  {
    && CheckpointOk(c)
    && (Replaces(j, r) ||
        (FollowOk(j.kind, j.action, Last(j), c)
         && (StartsAttempt(Last(j), c) ==> Attempts(j.checkpoints) < MAX_RECOVERY_ATTEMPTS)))
  }

  ghost predicate SomeRecordFits(j: Journal, r: CheckpointRequest, n: int)
    requires |j.checkpoints| > 0
  {
    exists c :: IsRequested(c, j, r, n) && Fits(j, r, c)
  }

  /** The members that only make sense together are given together. */
  predicate Paired(r: CheckpointRequest) {
    && (r.errorCode.Some? <==> r.errorReason.Some?)
    && (r.recoveryOperation.Some? <==> r.recoveryManifest.Some?)
    && (r.evidenceCheck.Some? <==> r.evidenceResult.Some?)
    && (r.evidenceDetail.Some? ==> r.evidenceCheck.Some?)
  }

  /** Members given in pairs, no second recovery point, every number a safe integer, room for the
      evidence, a point before it is called saved, and a record the walk allows. */
  ghost predicate Acceptable(counter: nat, j: Journal, r: CheckpointRequest)
    requires |j.checkpoints| > 0
  {
    && Paired(r)
    && (r.recoveryOperation.Some? && j.recovery.Some? ==>
          j.recovery.value == Reference(r.recoveryOperation.value, r.recoveryManifest.value))
    && (r.state == RecoverySaved ==> r.recoveryOperation.Some? || j.recovery.Some?)
    && (r.evidenceCheck.Some? ==> |j.evidence| < MAX_EVIDENCE)
    && counter < MAX_SAFE && Last(j).sequence < MAX_SAFE && j.generation < MAX_SAFE
    && SomeRecordFits(j, r, Larger(counter, Last(j).sequence) + 1)
  }

  lemma NextSequenceIs(counter: nat, j: Journal)
    requires Valid(j)
    ensures NextSequence(counter, j) == Larger(counter, Last(j).sequence) + 1
  {
    hide Valid;
    NextSequenceIsNew(counter, j);
  }

  lemma PlacedCarries(j: Journal, r: CheckpointRequest, c: Checkpoint)
    requires |j.checkpoints| > 0 && c.step == r.step && c.state == r.state
    ensures |Placed(j, c)| == |j.checkpoints| + (if Replaces(j, r) then 0 else 1)
    ensures Placed(j, c)[|Placed(j, c)| - 1] == c
    ensures forall i :: 0 <= i < |Placed(j, c)| - 1 ==> Placed(j, c)[i] == j.checkpoints[i]
  {
  }

  lemma NextJournalCarries(counter: nat, j: Journal, r: CheckpointRequest)
    requires Valid(j) && NextJournal(counter, j, r).Ok?
    ensures Carries(j, NextJournal(counter, j, r).value, r, Larger(counter, Last(j).sequence) + 1)
  {
    NextSequenceIs(counter, j);
    hide Valid, NextSequence, Placed, Replaces, Larger;
    PlacedCarries(j, r, Entry(counter, j, r));
  }

  lemma ReplacingFollows(kind: Kind, action: Action, prev: Checkpoint, last: Checkpoint, c: Checkpoint)
    requires CheckpointOk(last) && CheckpointOk(c) && FollowOk(kind, action, prev, last)
    requires c.step.Some? && last.step.Some? && last.state == c.state && last.sequence < c.sequence
    ensures FollowOk(kind, action, prev, c)
  {
    SteppedIsOpen(last);
    SteppedIsOpen(c);
  }

  lemma SteppedIsInProgress(c: Checkpoint)
    requires CheckpointOk(c) && c.step.Some?
    ensures Progress(c.state)
  {
  }

  lemma LastIsOk(kind: Kind, action: Action, cs: seq<Checkpoint>)
    requires Walk(kind, action, cs) && |cs| >= 2
    ensures CheckpointOk(cs[|cs|-1]) && FollowOk(kind, action, cs[|cs|-2], cs[|cs|-1])
    ensures Attempts(cs) <= MAX_RECOVERY_ATTEMPTS
  {
    hide CheckpointOk, FollowOk, Attempts;
    var n := |cs| - 1;
    assert FollowOk(kind, action, cs[n-1], cs[n]);
  }

  lemma WalkSnocExactly(kind: Kind, action: Action, cs: seq<Checkpoint>, c: Checkpoint)
    requires Walk(kind, action, cs)
    ensures Walk(kind, action, cs + [c]) <==>
              && CheckpointOk(c) && FollowOk(kind, action, cs[|cs|-1], c)
              && (StartsAttempt(cs[|cs|-1], c) ==> Attempts(cs) < MAX_RECOVERY_ATTEMPTS)
  {
    assert |cs| >= 1;
    hide CheckpointOk, FollowOk, Walk, Attempts;
    if Walk(kind, action, cs + [c]) {
      JournalFacts.AttemptsSnoc(cs, c);
      LastIsOk(kind, action, cs + [c]);
    } else if CheckpointOk(c) && FollowOk(kind, action, cs[|cs|-1], c)
      && (StartsAttempt(cs[|cs|-1], c) ==> Attempts(cs) < MAX_RECOVERY_ATTEMPTS)
    {
      JournalFacts.WalkSnoc(kind, action, cs, c);
    }
  }

  lemma WalkPrefix(kind: Kind, action: Action, cs: seq<Checkpoint>)
    requires Walk(kind, action, cs) && |cs| > 1
    ensures Walk(kind, action, cs[..|cs|-1])
  {
    hide CheckpointOk, FollowOk;
    AttemptsPrefix(cs, |cs| - 1);
  }

  /** Taking the place of a stepped record of the same state keeps the walk legal. */
  lemma WalkReplaced(kind: Kind, action: Action, cs: seq<Checkpoint>, c: Checkpoint)
    requires Walk(kind, action, cs) && CheckpointOk(c)
    requires var last := cs[|cs|-1]; c.step.Some? && last.step.Some? && last.state == c.state && last.sequence < c.sequence
    ensures Walk(kind, action, cs[..|cs|-1] + [c])
  {
    var n := |cs| - 1;
    var first, last := cs[..n], cs[n];
    assert CheckpointOk(last) && cs[0].state == Initial(kind);
    hide CheckpointOk, FollowOk, Attempts, Walk;
    assert cs == first + [last];
    if n > 0 {
      WalkPrefix(kind, action, cs);
      WalkSnocExactly(kind, action, first, last);
      ReplacingFollows(kind, action, cs[n-1], last, c);
      WalkSnocExactly(kind, action, first, c);
    } else {
      JournalFacts.StartIsLegal(kind, action, c);
      assert first + [c] == [c];
    }
  }

  lemma PointIsSaved(cs: seq<Checkpoint>, c: Checkpoint)
    ensures HasRecoverySaved(cs + [c]) <==> HasRecoverySaved(cs) || c.state == RecoverySaved
  {
    if c.state == RecoverySaved {
      assert (cs + [c])[|cs|].state == RecoverySaved;
    } else {
      NoNewPoint(cs, c);
    }
  }

  lemma PlacedExactly(j: Journal, r: CheckpointRequest, c: Checkpoint)
    requires Valid(j) && Last(j).sequence < c.sequence
    requires c.step == r.step && c.state == r.state
    ensures Walk(j.kind, j.action, Placed(j, c)) <==> Fits(j, r, c)
    ensures Fits(j, r, c) ==> |Placed(j, c)| <= MAX_CHECKPOINTS
    ensures Fits(j, r, c) ==> (HasRecoverySaved(Placed(j, c)) <==> HasRecoverySaved(j.checkpoints) || r.state == RecoverySaved)
  {
    hide CheckpointOk, FollowOk, Attempts;
    var cs := j.checkpoints;
    if Replaces(j, r) {
      if CheckpointOk(c) {
        WalkReplaced(j.kind, j.action, cs, c);
        SteppedIsInProgress(c);
        PointIsSaved(cs[..|cs|-1], c);
        PointIsSaved(cs[..|cs|-1], Last(j));
        assert cs == cs[..|cs|-1] + [Last(j)];
      } else {
        assert !CheckpointOk(Placed(j, c)[|cs| - 1]);
      }
    } else {
      WalkSnocExactly(j.kind, j.action, cs, c);
      PointIsSaved(cs, c);
    }
    if Walk(j.kind, j.action, Placed(j, c)) {
      JournalFacts.WalkIsBounded(j.kind, j.action, Placed(j, c));
    }
  }

  /** The journal asked for is valid exactly when its new record fits and its members stay in bounds. */
  lemma GrownIsValid(j: Journal, k: Journal, r: CheckpointRequest, c: Checkpoint)
    requires Valid(j) && Last(j).sequence < c.sequence && c.step == r.step && c.state == r.state
    requires k == j.(checkpoints := Placed(j, c), generation := j.generation + 1, updatedAt := k.updatedAt,
                     recovery := k.recovery, evidence := k.evidence)
    requires j.recovery.Some? ==> k.recovery.Some?
    ensures Valid(k) <==>
              && Fits(j, r, c) && c.sequence <= MAX_SAFE && j.generation < MAX_SAFE && |k.evidence| <= MAX_EVIDENCE
              && (r.state == RecoverySaved ==> k.recovery.Some?)
  {
    hide CheckpointOk, FollowOk, Attempts, Walk, HasRecoverySaved, IsRelease, Fits;
    PlacedExactly(j, r, c);
    var cs := k.checkpoints;
    assert cs[|cs|-1] == c && c.sequence >= 1;
    assert forall i :: 0 <= i < |cs| - 1 ==> cs[i] == j.checkpoints[i];
  }

  lemma EntryIsRequested(counter: nat, j: Journal, r: CheckpointRequest, n: int)
    requires Valid(j) && Paired(r) && n == Larger(counter, Last(j).sequence) + 1
    ensures Entry(counter, j, r).sequence == n
    ensures SomeRecordFits(j, r, n) <==> Fits(j, r, Entry(counter, j, r))
  {
    NextSequenceIs(counter, j);
    hide Valid, NextSequence, Larger, Fits;
    var c := Entry(counter, j, r);
    assert IsRequested(c, j, r, n);
    assert forall d :: IsRequested(d, j, r, n) ==> d == c;
  }

  lemma PairedIsRead(r: CheckpointRequest)
    ensures Paired(r) <==>
              && r.errorCode.Some? == r.errorReason.Some?
              && RecoveryOf(r.recoveryOperation, r.recoveryManifest).Ok?
              && EvidenceOf(r.evidenceCheck, r.evidenceResult, r.evidenceDetail).Ok?
    ensures Paired(r) ==>
              && RecoveryOf(r.recoveryOperation, r.recoveryManifest).value.Some? == r.recoveryOperation.Some?
              && |EvidenceOf(r.evidenceCheck, r.evidenceResult, r.evidenceDetail).value| == if r.evidenceCheck.Some? then 1 else 0
    ensures Paired(r) && r.recoveryOperation.Some? ==>
              RecoveryOf(r.recoveryOperation, r.recoveryManifest).value
                == Some(Reference(r.recoveryOperation.value, r.recoveryManifest.value))
  {
  }

  lemma AskedFor(counter: nat, j: Journal, r: CheckpointRequest) returns (k: Journal)
    requires |j.checkpoints| > 0 && Paired(r)
    ensures var named := r.recoveryOperation.Some?;
      var point := if named then Some(Reference(r.recoveryOperation.value, r.recoveryManifest.value)) else j.recovery;
      && k == j.(checkpoints := Placed(j, Entry(counter, j, r)), generation := j.generation + 1, updatedAt := r.stamp,
                 recovery := point, evidence := k.evidence)
      && |k.evidence| == |j.evidence| + (if r.evidenceCheck.Some? then 1 else 0)
      && (NextJournal(counter, j, r).Ok? <==> !(named && j.recovery.Some? && j.recovery != point) && Valid(k))
  {
    PairedIsRead(r);
    var wanted := RecoveryOf(r.recoveryOperation, r.recoveryManifest).value;
    var evidence := EvidenceOf(r.evidenceCheck, r.evidenceResult, r.evidenceDetail).value;
    hide Valid, Placed, Entry, RecoveryOf, EvidenceOf;
    k := j.(
      checkpoints := Placed(j, Entry(counter, j, r)), generation := j.generation + 1, updatedAt := r.stamp,
      recovery := if wanted.Some? then wanted else j.recovery, evidence := j.evidence + evidence);
  }

  /** A checkpoint of a valid journal is accepted exactly when it is acceptable. */
  lemma AcceptsExactly(counter: nat, j: Journal, r: CheckpointRequest)
    requires Valid(j)
    ensures NextJournal(counter, j, r).Ok? <==> Acceptable(counter, j, r)
  {
    assert |j.checkpoints| > 0 && |j.evidence| <= MAX_EVIDENCE;
    PairedIsRead(r);
    hide Valid, Placed, Fits, SomeRecordFits;
    if Paired(r) {
      EntryIsRequested(counter, j, r, Larger(counter, Last(j).sequence) + 1);
      var c := Entry(counter, j, r);
      assert c.step == r.step && c.state == r.state;
      var k := AskedFor(counter, j, r);
      hide NextJournal, Entry;
      GrownIsValid(j, k, r, c);
    }
  }

  lemma RefusesAsUsage(counter: nat, j: Journal, r: CheckpointRequest)
    requires |j.checkpoints| > 0
    ensures NextJournal(counter, j, r).Refused? ==> NextJournal(counter, j, r).code == USAGE
  {
    hide Valid, Entry, Placed;
  }

  // --- The record reconciliation writes for a killed process.

  function AbandonEntry(counter: nat, j: Journal): Checkpoint
    requires |j.checkpoints| > 0
  {
    var previous := Last(j).state;
    Checkpoint(NextSequence(counter, j), Interrupted, None, Some(Abandoned), Some(previous),
               if PreMutation(previous) then Some(ClosedInterrupted) else None, None)
  }

  function Abandon(counter: nat, j: Journal, stamp: int): Journal
    requires |j.checkpoints| > 0
  {
    j.(checkpoints := j.checkpoints + [AbandonEntry(counter, j)], generation := j.generation + 1, updatedAt := stamp)
  }

  lemma AbandonFollows(kind: Kind, action: Action, prev: Checkpoint, c: Checkpoint)
    requires CheckpointOk(prev) && prev.outcome.None? && prev.sequence < c.sequence
    requires prev.state != RecoveryRequired && prev.state != Interrupted
    requires kind == Legacy ==> !PreMutation(prev.state)
    requires c == Checkpoint(c.sequence, Interrupted, None, Some(Abandoned), Some(prev.state),
                             if PreMutation(prev.state) then Some(ClosedInterrupted) else None, None)
    ensures CheckpointOk(c) && FollowOk(kind, action, prev, c)
  {
  }

  /** `k` is `j` parked under number `n`: closed when nothing had been applied, and left for recovery
      otherwise, with nothing else changed. */
  predicate Parks(j: Journal, k: Journal, n: int, stamp: int)
    requires |j.checkpoints| > 0
  {
    && |k.checkpoints| == |j.checkpoints| + 1 && k.checkpoints[..|j.checkpoints|] == j.checkpoints
    && Last(k).sequence == n && Last(k).state == Interrupted && Last(k).cause == Some(Abandoned)
    && Last(k).checkpoint == Some(Last(j).state) && Last(k).step.None? && Last(k).error.None?
    && Last(k).outcome == (if Last(j).state in {Planned, Staged, Verified, RecoverySaved} then Some(ClosedInterrupted) else None)
    && k.generation == j.generation + 1 && k.updatedAt == stamp
    && k == j.(checkpoints := k.checkpoints, generation := k.generation, updatedAt := k.updatedAt)
  }

  lemma AbandonParks(counter: nat, j: Journal, stamp: int)
    requires Valid(j)
    ensures Parks(j, Abandon(counter, j, stamp), Larger(counter, Last(j).sequence) + 1, stamp)
  {
    NextSequenceIs(counter, j);
    hide Valid, NextSequence;
  }

  /** Every journal left in progress has a legal interrupted record, as long as its numbers still
      fit the safe integers a document may carry, and only then. */
  lemma AbandonIsLegal(counter: nat, j: Journal, stamp: int)
    requires Valid(j) && InProgress(j)
    ensures Valid(Abandon(counter, j, stamp)) <==>
              NextSequence(counter, j) <= MAX_SAFE && j.generation < MAX_SAFE
    ensures !InProgress(Abandon(counter, j, stamp))
    ensures Finished(Abandon(counter, j, stamp)) <==> PreMutation(Last(j).state)
    ensures Valid(Abandon(counter, j, stamp)) ==> Extends(j, Abandon(counter, j, stamp))
  {
    hide CheckpointOk, FollowOk, Attempts;
    var cs, c := j.checkpoints, AbandonEntry(counter, j);
    var k := Abandon(counter, j, stamp);
    NextSequenceIsNew(counter, j);
    if j.kind == Legacy {
      LegacyNeverPreMutation(j.action, cs, |cs| - 1);
    }
    AbandonFollows(j.kind, j.action, Last(j), c);
    JournalFacts.WalkSnoc(j.kind, j.action, cs, c);
    JournalFacts.WalkIsBounded(j.kind, j.action, k.checkpoints);
    assert k.checkpoints[|cs|] == c;
    NoNewPoint(cs, c);
  }

  lemma NoNewPoint(cs: seq<Checkpoint>, c: Checkpoint)
    requires c.state != RecoverySaved
    ensures HasRecoverySaved(cs + [c]) <==> HasRecoverySaved(cs)
  {
    var more := cs + [c];
    if i :| 0 <= i < |more| && more[i].state == RecoverySaved {
      assert cs[i].state == RecoverySaved;
    }
    if i :| 0 <= i < |cs| && cs[i].state == RecoverySaved {
      assert more[i].state == RecoverySaved;
    }
  }

  lemma LegacyStep(action: Action, prev: Checkpoint, c: Checkpoint)
    requires CheckpointOk(prev) && CheckpointOk(c) && FollowOk(Legacy, action, prev, c)
    requires !PreMutation(prev.state)
    ensures !PreMutation(c.state)
  {
  }

  lemma {:induction false} LegacyNeverPreMutation(action: Action, cs: seq<Checkpoint>, i: nat)
    requires Walk(Legacy, action, cs) && i < |cs|
    ensures !PreMutation(cs[i].state)
  {
    hide CheckpointOk, FollowOk, Attempts;
    if i > 0 {
      LegacyNeverPreMutation(action, cs, i - 1);
      assert FollowOk(Legacy, action, cs[i-1], cs[i]);
      LegacyStep(action, cs[i-1], cs[i]);
    }
  }

  /** Reconciling a legacy operation therefore leaves a record nothing can ever close. */
  lemma AbandonedLegacyNeverFinishes(counter: nat, j: Journal, stamp: int)
    requires Valid(j) && InProgress(j) && j.kind == Legacy && Valid(Abandon(counter, j, stamp))
    ensures !JournalFacts.CanFinish(Legacy, j.action, Abandon(counter, j, stamp).checkpoints)
  {
    hide CheckpointOk, FollowOk, Attempts;
    var k := Abandon(counter, j, stamp);
    LegacyNeverPreMutation(j.action, j.checkpoints, |j.checkpoints| - 1);
    JournalFacts.FinishableExactly(Legacy, j.action, k.checkpoints);
  }

  // --- The first record.

  /** The members of a begin request that reach the journal. */
  datatype BeginRequest = BeginRequest(
    kind: Kind,
    action: Action,
    planDigest: Option<string>,
    target: Option<Release>,
    recoveryOperation: Option<string>,
    recoveryManifest: Option<string>,
    evidenceCheck: Option<string>,
    evidenceResult: Option<string>,
    evidenceDetail: Option<string>,
    stamp: int)

  function FirstJournal(operation: string, r: BeginRequest): Result<Journal> {
    var recovery := RecoveryOf(r.recoveryOperation, r.recoveryManifest);
    var evidence := EvidenceOf(r.evidenceCheck, r.evidenceResult, r.evidenceDetail);
    if recovery.Refused? || evidence.Refused? then Refused(USAGE)
    else
      var first := Checkpoint(1, Initial(r.kind), None, None, None, None, None);
      var j := Journal(operation, r.kind, r.action, 1, r.planDigest, r.target, recovery.value,
                       evidence.value, r.stamp, r.stamp, [first]);
      if Valid(j) then Ok(j) else Refused(USAGE)
  }

  /** `j` is the new operation `r` asks for: one record, the first of its kind. */
  predicate Begins(j: Journal, operation: string, r: BeginRequest) {
    && j.operation == operation && j.kind == r.kind && j.action == r.action
    && j.planDigest == r.planDigest && j.target == r.target
    && j.recovery == (if r.recoveryOperation.Some? && r.recoveryManifest.Some?
                      then Some(Reference(r.recoveryOperation.value, r.recoveryManifest.value)) else None)
    && j.evidence == (if r.evidenceCheck.Some? && r.evidenceResult.Some?
                      then [Evidence(r.evidenceCheck.value, r.evidenceResult.value, r.evidenceDetail)] else [])
    && j.generation == 1 && j.startedAt == r.stamp && j.updatedAt == r.stamp
    && |j.checkpoints| == 1 && Last(j).sequence == 1
    && Last(j).state == (if r.kind == Transaction then Planned else Applying)
    && Last(j).step.None? && Last(j).cause.None? && Last(j).checkpoint.None? && Last(j).outcome.None? && Last(j).error.None?
  }

  /** A first journal is legal exactly when members given in pairs are complete, a transaction binds a
      plan digest (a legacy record has none) and names a release where its action resolves one; it
      then carries what the request said. */
  lemma FirstJournalIsLegal(operation: string, r: BeginRequest)
    ensures FirstJournal(operation, r).Ok? <==>
              && (r.recoveryOperation.Some? <==> r.recoveryManifest.Some?)
              && (r.evidenceCheck.Some? <==> r.evidenceResult.Some?)
              && (r.evidenceDetail.Some? ==> r.evidenceCheck.Some?)
              && (r.kind == Transaction <==> r.planDigest.Some?)
              && (r.kind == Transaction && ResolvesRelease(r.action) && r.target.Some? ==> IsRelease(r.target.value.version))
    ensures FirstJournal(operation, r).Ok? ==>
              InProgress(FirstJournal(operation, r).value) && Begins(FirstJournal(operation, r).value, operation, r)
  {
    hide IsRelease;
    var first := Checkpoint(1, Initial(r.kind), None, None, None, None, None);
    JournalFacts.StartIsLegal(r.kind, r.action, first);
    assert !HasRecoverySaved([first]);
    hide Walk;
  }
}
