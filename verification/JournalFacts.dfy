/** What the journal rules imply for every journal they accept. */
module JournalFacts {
  import opened Options
  import opened Journal

  // --- The walk rules alone bound a journal.

  /** The most records a walk can hold once it has reached `c` after `a` recovery attempts. */
  function MostRecords(kind: Kind, c: Checkpoint, a: nat): nat {
    var stepped := if c.step.Some? then 1 else 0;
    var closed := if c.outcome.Some? then 1 else 0;
    match kind
    case Transaction => (
      match c.state
      case Planned => 1 + closed
      case Staged => 2 + closed
      case Verified => 3 + closed
      case RecoverySaved => 4 + closed
      case Applying => 5 + stepped
      case Checking => 7 + stepped
      case Committed => 9
      case Recovering => 7 + 4 * a + stepped
      case Recovered => 9 + 4 * a
      case Interrupted => 9 + 4 * a
      case RecoveryRequired => 10 + 4 * a + closed)
    case Legacy => (
      match c.state
      case Applying => 1 + stepped
      case Checking => 3 + stepped
      case Recovering => 5 + stepped
      case Interrupted => 7
      case _ => 7 + closed)
  }

  lemma OneMoreRecord(kind: Kind, action: Action, prev: Checkpoint, c: Checkpoint, a: nat, n: nat)
    requires CheckpointOk(prev) && CheckpointOk(c) && FollowOk(kind, action, prev, c)
    requires n <= MostRecords(kind, prev, a)
    ensures n + 1 <= MostRecords(kind, c, a + if StartsAttempt(prev, c) then 1 else 0)
  {
  }

  lemma {:induction false} RecordsUpTo(kind: Kind, action: Action, cs: seq<Checkpoint>, i: nat)
    requires Walk(kind, action, cs) && i < |cs|
    ensures i + 1 <= MostRecords(kind, cs[i], Attempts(cs[..i+1]))
  {
    hide CheckpointOk, FollowOk;
    if i > 0 {
      RecordsUpTo(kind, action, cs, i - 1);
      assert cs[..i+1][..i] == cs[..i];
      OneMoreRecord(kind, action, cs[i-1], cs[i], Attempts(cs[..i]), i);
    } else {
      MostRecordsAtStart(kind, cs[0], Attempts(cs[..1]));
    }
  }

  lemma MostRecordsAtStart(kind: Kind, c: Checkpoint, a: nat)
    ensures MostRecords(kind, c, a) >= 1
  {
  }

  lemma MostRecordsOverall(kind: Kind, c: Checkpoint, a: nat)
    requires CheckpointOk(c) && a <= MAX_RECOVERY_ATTEMPTS
    ensures MostRecords(kind, c, a) <= if kind == Transaction then 23 else 8
  {
  }

  /** The record cap never binds: the walk rules alone stop at 23 (8 for a legacy record). */
  lemma WalkIsBounded(kind: Kind, action: Action, cs: seq<Checkpoint>)
    requires Walk(kind, action, cs)
    ensures |cs| <= (if kind == Transaction then 23 else 8) < MAX_CHECKPOINTS
  {
    hide CheckpointOk, FollowOk, MostRecords;
    var n := |cs| - 1;
    RecordsUpTo(kind, action, cs, n);
    assert cs[..n+1] == cs;
    MostRecordsOverall(kind, cs[n], Attempts(cs));
  }

  function Plain(n: int, s: State): Checkpoint {
    Checkpoint(n, s, None, None, None, None, None)
  }

  function Stepped(n: int, s: State): Checkpoint {
    Plain(n, s).(step := Some("step"))
  }

  function GivenUp(n: int, at: State): Checkpoint {
    Plain(n, Interrupted).(cause := Some(Abandoned), checkpoint := Some(at))
  }

  function NeedsRecovery(n: int): Checkpoint {
    Plain(n, RecoveryRequired).(cause := Some(RecoveryFailed), error := Some(Failure(MANUAL, "")))
  }

  /** A run of one recovery attempt that a killed process left behind. */
  function FailedAttempt(n: int): seq<Checkpoint> {
    [Plain(n, Recovering), Stepped(n + 1, Recovering), GivenUp(n + 2, Recovering), NeedsRecovery(n + 3)]
  }

  function LongestTransaction(): seq<Checkpoint> {
    [Plain(1, Planned), Plain(2, Staged), Plain(3, Verified), Plain(4, RecoverySaved),
     Plain(5, Applying), Stepped(6, Applying), Plain(7, Checking), Stepped(8, Checking),
     GivenUp(9, Checking), NeedsRecovery(10)]
    + FailedAttempt(11) + FailedAttempt(15) + FailedAttempt(19)
    + [NeedsRecovery(23).(outcome := Some(ClosedManual))]
  }

  function LongestLegacy(): seq<Checkpoint> {
    [Plain(1, Applying), Stepped(2, Applying), Plain(3, Checking), Stepped(4, Checking),
     Plain(5, Recovering), Stepped(6, Recovering), NeedsRecovery(7),
     NeedsRecovery(8).(outcome := Some(ClosedManual))]
  }

  lemma AttemptsSnoc(cs: seq<Checkpoint>, c: Checkpoint)
    requires |cs| > 0
    ensures Attempts(cs + [c]) == Attempts(cs) + if StartsAttempt(cs[|cs|-1], c) then 1 else 0
  {
    assert (cs + [c])[..|cs|] == cs;
  }

  /** One legal record more keeps the walk legal. */
  lemma WalkSnoc(kind: Kind, action: Action, cs: seq<Checkpoint>, c: Checkpoint)
    requires Walk(kind, action, cs)
    requires CheckpointOk(c) && FollowOk(kind, action, cs[|cs|-1], c)
    requires StartsAttempt(cs[|cs|-1], c) ==> Attempts(cs) < MAX_RECOVERY_ATTEMPTS
    ensures Walk(kind, action, cs + [c])
    ensures Attempts(cs + [c]) == Attempts(cs) + if StartsAttempt(cs[|cs|-1], c) then 1 else 0
  {
    hide CheckpointOk, FollowOk;
    AttemptsSnoc(cs, c);
  }

  lemma FailedAttemptExtends(action: Action, cs: seq<Checkpoint>, n: int)
    requires Walk(Transaction, action, cs) && Attempts(cs) < MAX_RECOVERY_ATTEMPTS
    requires cs[|cs|-1] == NeedsRecovery(n - 1)
    ensures Walk(Transaction, action, cs + FailedAttempt(n))
    ensures Attempts(cs + FailedAttempt(n)) == Attempts(cs) + 1
  {
    hide Walk, Attempts;
    var a := FailedAttempt(n);
    WalkSnoc(Transaction, action, cs, a[0]);
    WalkSnoc(Transaction, action, cs + [a[0]], a[1]);
    WalkSnoc(Transaction, action, cs + [a[0]] + [a[1]], a[2]);
    WalkSnoc(Transaction, action, cs + [a[0]] + [a[1]] + [a[2]], a[3]);
    assert cs + a == cs + [a[0]] + [a[1]] + [a[2]] + [a[3]];
  }

  lemma WalkSnocTwo(kind: Kind, action: Action, cs: seq<Checkpoint>, a: Checkpoint, b: Checkpoint)
    requires Walk(kind, action, cs)
    requires CheckpointOk(a) && FollowOk(kind, action, cs[|cs|-1], a) && a.state != Recovering
    requires CheckpointOk(b) && FollowOk(kind, action, a, b) && b.state != Recovering
    ensures Walk(kind, action, cs + [a, b]) && Attempts(cs + [a, b]) == Attempts(cs)
  {
    hide CheckpointOk, FollowOk, Walk, Attempts;
    WalkSnoc(kind, action, cs, a);
    WalkSnoc(kind, action, cs + [a], b);
    assert cs + [a] + [b] == cs + [a, b];
  }

  lemma StartIsLegal(kind: Kind, action: Action, c: Checkpoint)
    requires CheckpointOk(c) && c.state == Initial(kind)
    ensures Walk(kind, action, [c]) && Attempts([c]) == 0
  {
    hide CheckpointOk, FollowOk;
  }

  lemma LongestTransactionToApplying(action: Action)
    ensures Walk(Transaction, action, LongestTransaction()[..5]) && Attempts(LongestTransaction()[..5]) == 0
  {
    hide Walk, Attempts;
    var a := [Plain(1, Planned)];
    StartIsLegal(Transaction, action, a[0]);
    WalkSnocTwo(Transaction, action, a, Plain(2, Staged), Plain(3, Verified));
    var b := a + [Plain(2, Staged), Plain(3, Verified)];
    WalkSnocTwo(Transaction, action, b, Plain(4, RecoverySaved), Plain(5, Applying));
    assert LongestTransaction()[..5] == b + [Plain(4, RecoverySaved), Plain(5, Applying)];
  }

  lemma LongestTransactionToChecking(action: Action)
    ensures Walk(Transaction, action, LongestTransaction()[..7]) && Attempts(LongestTransaction()[..7]) == 0
  {
    hide Walk, Attempts;
    LongestTransactionToApplying(action);
    var c := LongestTransaction()[..5];
    WalkSnocTwo(Transaction, action, c, Stepped(6, Applying), Plain(7, Checking));
    assert LongestTransaction()[..7] == c + [Stepped(6, Applying), Plain(7, Checking)];
  }

  lemma LongestTransactionStart(action: Action)
    ensures Walk(Transaction, action, LongestTransaction()[..10]) && Attempts(LongestTransaction()[..10]) == 0
  {
    hide Walk, Attempts;
    LongestTransactionToChecking(action);
    var d := LongestTransaction()[..7];
    WalkSnocTwo(Transaction, action, d, Stepped(8, Checking), GivenUp(9, Checking));
    var e := d + [Stepped(8, Checking), GivenUp(9, Checking)];
    WalkSnoc(Transaction, action, e, NeedsRecovery(10));
    assert LongestTransaction()[..10] == e + [NeedsRecovery(10)];
  }

  /** Both bounds are reached. */
  lemma BoundsAreTight(action: Action)
    ensures |LongestTransaction()| == 23 && Walk(Transaction, action, LongestTransaction())
    ensures |LongestLegacy()| == 8 && Walk(Legacy, action, LongestLegacy())
  {
    hide Walk, Attempts;
    var cs := LongestTransaction();
    LongestTransactionStart(action);
    FailedAttemptExtends(action, cs[..10], 11);
    FailedAttemptExtends(action, cs[..10] + FailedAttempt(11), 15);
    FailedAttemptExtends(action, cs[..10] + FailedAttempt(11) + FailedAttempt(15), 19);
    var most := cs[..10] + FailedAttempt(11) + FailedAttempt(15) + FailedAttempt(19);
    WalkSnoc(Transaction, action, most, cs[22]);
    assert cs == most + [cs[22]];
    LongestLegacyIsLegal(action);
  }

  lemma LongestLegacyToChecking(action: Action)
    ensures Walk(Legacy, action, LongestLegacy()[..4]) && Attempts(LongestLegacy()[..4]) == 0
  {
    hide Walk, Attempts;
    var a := [Plain(1, Applying)];
    StartIsLegal(Legacy, action, a[0]);
    WalkSnocTwo(Legacy, action, a, Stepped(2, Applying), Plain(3, Checking));
    var b := a + [Stepped(2, Applying), Plain(3, Checking)];
    WalkSnoc(Legacy, action, b, Stepped(4, Checking));
    assert LongestLegacy()[..4] == b + [Stepped(4, Checking)];
  }

  lemma LongestLegacyIsLegal(action: Action)
    ensures Walk(Legacy, action, LongestLegacy())
  {
    hide Walk, Attempts;
    LongestLegacyToChecking(action);
    var b := LongestLegacy()[..4];
    WalkSnoc(Legacy, action, b, Plain(5, Recovering));
    var c := b + [Plain(5, Recovering)];
    WalkSnoc(Legacy, action, c, Stepped(6, Recovering));
    var end := NeedsRecovery(8).(outcome := Some(ClosedManual));
    WalkSnocTwo(Legacy, action, c + [Stepped(6, Recovering)], NeedsRecovery(7), end);
    assert LongestLegacy() == c + [Stepped(6, Recovering)] + [NeedsRecovery(7), end];
  }

  // --- Order of the states inside a transaction.

  /** Where a pre-mutation state stands in a transaction. */
  function Rank(s: State): nat
    requires PreMutation(s)
  {
    match s
    case Planned => 0
    case Staged => 1
    case Verified => 2
    case RecoverySaved => 3
  }

  /** A record at or past `applying`: the host may have been changed. */
  predicate Mutating(c: Checkpoint) {
    !PreMutation(c.state) && c.outcome != Some(ClosedInterrupted)
  }

  lemma PlaceStep(action: Action, prev: Checkpoint, c: Checkpoint, i: nat)
    requires CheckpointOk(prev) && CheckpointOk(c) && FollowOk(Transaction, action, prev, c)
    requires PreMutation(c.state)
    requires PreMutation(prev.state) && prev.outcome.None? ==> i == Rank(prev.state)
    ensures PreMutation(prev.state)
    ensures Rank(c.state) <= i + 1 <= Rank(c.state) + if c.outcome.Some? then 1 else 0
  {
  }

  lemma ClosesNothing(kind: Kind, action: Action, prev: Checkpoint, c: Checkpoint)
    requires FollowOk(kind, action, prev, c)
    ensures prev.outcome.None? && prev.sequence < c.sequence
  {
  }

  /** An open pre-mutation record stands at its state's own index, a closing one at most one
      later, and everything before it is pre-mutation too. */
  lemma {:induction false} PreMutationPlace(action: Action, cs: seq<Checkpoint>, i: nat)
    requires Walk(Transaction, action, cs) && i < |cs| && PreMutation(cs[i].state)
    ensures Rank(cs[i].state) <= i <= Rank(cs[i].state) + if cs[i].outcome.Some? then 1 else 0
    ensures forall k :: 0 <= k < i ==> PreMutation(cs[k].state) && cs[k].outcome.None? && Rank(cs[k].state) == k
  {
    hide CheckpointOk, FollowOk, Attempts;
    if i > 0 {
      var prev := cs[i-1];
      assert FollowOk(Transaction, action, cs[i-1], cs[i]);
      ClosesNothing(Transaction, action, prev, cs[i]);
      if PreMutation(prev.state) {
        PreMutationPlace(action, cs, i - 1);
      }
      PlaceStep(action, prev, cs[i], i - 1);
    }
  }

  lemma MutationStep(action: Action, prev: Checkpoint, c: Checkpoint)
    requires CheckpointOk(prev) && CheckpointOk(c) && FollowOk(Transaction, action, prev, c)
    requires Mutating(c) && !Mutating(prev)
    ensures c.state == Applying
    ensures prev.state == RecoverySaved || (prev.state == Verified && action == Install)
  {
  }

  /** In a transaction that is not an install, nothing is applied before a recovery point was saved. */
  lemma {:induction false} MutationFollowsRecoveryPoint(action: Action, cs: seq<Checkpoint>, i: nat)
    requires Walk(Transaction, action, cs) && i < |cs| && Mutating(cs[i])
    ensures i >= 3 && cs[0].state == Planned && cs[1].state == Staged && cs[2].state == Verified
    ensures action != Install ==> i >= 4 && cs[3].state == RecoverySaved
  {
    hide CheckpointOk, FollowOk, Attempts;
    if i > 0 {
      var prev := cs[i-1];
      assert FollowOk(Transaction, action, cs[i-1], cs[i]);
      ClosesNothing(Transaction, action, prev, cs[i]);
      if Mutating(prev) {
        MutationFollowsRecoveryPoint(action, cs, i - 1);
      } else {
        MutationStep(action, prev, cs[i]);
        PreMutationPlace(action, cs, i - 1);
        RanksName(cs, i);
      }
    }
  }

  lemma RanksName(cs: seq<Checkpoint>, n: nat)
    requires n <= |cs|
    requires forall k :: 0 <= k < n ==> PreMutation(cs[k].state) && Rank(cs[k].state) == k
    ensures n > 0 ==> cs[0].state == Planned
    ensures n > 1 ==> cs[1].state == Staged
    ensures n > 2 ==> cs[2].state == Verified
    ensures n > 3 ==> cs[3].state == RecoverySaved
  {
  }

  lemma CommitStep(action: Action, prev: Checkpoint, c: Checkpoint)
    requires CheckpointOk(prev) && CheckpointOk(c) && FollowOk(Transaction, action, prev, c)
    ensures c.state == Committed ==> prev.state == Checking && c.outcome.Some?
  {
  }

  /** Everything the contract promises about the order inside an accepted transaction journal. */
  lemma TransactionOrder(j: Journal, i: nat)
    requires Valid(j) && j.kind == Transaction && i < |j.checkpoints|
    ensures Mutating(j.checkpoints[i]) && j.action != Install ==>
              i >= 4 && j.checkpoints[3].state == RecoverySaved && j.recovery.Some?
    ensures j.checkpoints[i].state == Committed ==>
              i == |j.checkpoints| - 1 && i >= 1 && j.checkpoints[i-1].state == Checking
    ensures j.checkpoints[i].outcome.Some? ==> i == |j.checkpoints| - 1
    ensures forall k :: 0 <= k < i ==> j.checkpoints[k].sequence < j.checkpoints[i].sequence
  {
    hide CheckpointOk, FollowOk, Attempts;
    var cs := j.checkpoints;
    SequencesRise(j.kind, j.action, cs, i);
    if i + 1 < |cs| {
      assert FollowOk(Transaction, j.action, cs[i+1-1], cs[i+1]);
      ClosesNothing(Transaction, j.action, cs[i], cs[i+1]);
    }
    if i > 0 {
      assert FollowOk(Transaction, j.action, cs[i-1], cs[i]);
      CommitStep(j.action, cs[i-1], cs[i]);
    }
    ClosedStates(cs[i]);
    if Mutating(cs[i]) && j.action != Install {
      MutationFollowsRecoveryPoint(j.action, cs, i);
      assert cs[3].state == RecoverySaved;
      assert HasRecoverySaved(cs);
    }
  }

  lemma ClosedStates(c: Checkpoint)
    requires CheckpointOk(c)
    ensures c.state == Committed ==> c.outcome.Some?
    ensures c.state == Recovered ==> c.outcome.Some?
  {
  }

  lemma {:induction false} SequencesRise(kind: Kind, action: Action, cs: seq<Checkpoint>, i: nat)
    requires Walk(kind, action, cs) && i < |cs|
    ensures forall k :: 0 <= k < i ==> cs[k].sequence < cs[i].sequence
  {
    hide CheckpointOk, FollowOk, Attempts;
    if i > 0 {
      SequencesRise(kind, action, cs, i - 1);
      assert FollowOk(kind, action, cs[i-1], cs[i]);
      ClosesNothing(kind, action, cs[i-1], cs[i]);
    }
  }

  // --- Whether an open journal can still be closed.

  /** Some legal continuation ends with an outcome. */
  ghost predicate CanFinish(kind: Kind, action: Action, cs: seq<Checkpoint>) {
    exists more: seq<Checkpoint> ::
      |more| > 0 && Walk(kind, action, cs + more) && more[|more|-1].outcome.Some?
  }

  lemma RefusalCloses(kind: Kind, action: Action, prev: Checkpoint) returns (c: Checkpoint)
    requires CheckpointOk(prev) && prev.outcome.None? && PreMutation(prev.state)
    ensures CheckpointOk(c) && FollowOk(kind, action, prev, c) && c.outcome.Some? && c.state != Recovering
  {
    c := Plain(prev.sequence + 1, prev.state).(outcome := Some(ClosedRefused), error := Some(Failure(PREFLIGHT, "")));
  }

  lemma ManualCloses(kind: Kind, action: Action, prev: Checkpoint) returns (c: Checkpoint)
    requires CheckpointOk(prev) && prev.outcome.None? && prev.state == RecoveryRequired
    ensures CheckpointOk(c) && FollowOk(kind, action, prev, c) && c.outcome.Some? && c.state != Recovering
  {
    c := NeedsRecovery(prev.sequence + 1).(outcome := Some(ClosedManual));
  }

  lemma ParksForRecovery(kind: Kind, action: Action, prev: Checkpoint) returns (c: Checkpoint)
    requires CheckpointOk(prev) && prev.outcome.None?
    requires Progress(prev.state) || (prev.state == Interrupted && kind == Transaction)
    ensures CheckpointOk(c) && FollowOk(kind, action, prev, c)
    ensures c.outcome.None? && c.state == RecoveryRequired
  {
    c := NeedsRecovery(prev.sequence + 1);
  }

  lemma LegacyInterruptedIsStuck(action: Action, prev: Checkpoint, c: Checkpoint)
    requires CheckpointOk(c) && prev.state == Interrupted
    ensures !FollowOk(Legacy, action, prev, c)
  {
  }

  /** The contract says no legal journal reaches a state with no legal way to finish. That holds
      of every open journal except a legacy record whose process was killed while it changed
      the host: no record may follow its `interrupted` one. */
  lemma FinishableExactly(kind: Kind, action: Action, cs: seq<Checkpoint>)
    requires Walk(kind, action, cs) && cs[|cs|-1].outcome.None?
    ensures CanFinish(kind, action, cs) <==> !(kind == Legacy && cs[|cs|-1].state == Interrupted)
  {
    hide CheckpointOk, FollowOk, Attempts;
    var last := cs[|cs|-1];
    ClosedStates(last);
    if kind == Legacy && last.state == Interrupted {
      forall more: seq<Checkpoint> | |more| > 0
        ensures !Walk(kind, action, cs + more)
      {
        if Walk(kind, action, cs + more) {
          assert FollowOk(kind, action, (cs + more)[|cs|-1], (cs + more)[|cs|]);
          assert CheckpointOk((cs + more)[|cs|]);
          LegacyInterruptedIsStuck(action, last, more[0]);
        }
      }
    } else if PreMutation(last.state) {
      var c := RefusalCloses(kind, action, last);
      WalkSnoc(kind, action, cs, c);
      assert [c][|[c]|-1].outcome.Some?;
    } else if last.state == RecoveryRequired {
      var c := ManualCloses(kind, action, last);
      WalkSnoc(kind, action, cs, c);
      assert [c][|[c]|-1].outcome.Some?;
    } else {
      var p := ParksForRecovery(kind, action, last);
      var c := ManualCloses(kind, action, p);
      WalkSnocTwo(kind, action, cs, p, c);
      assert [p, c][|[p, c]|-1].outcome.Some?;
    }
  }
}
