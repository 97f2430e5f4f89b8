/** Where an open journal can still go: exactly which of them can commit and which can recover. */
module JournalReach {
  import opened Options
  import opened Journal
  import opened JournalFacts
  import Writes

  /** Some legal continuation ends in that state. */
  ghost predicate CanReach(kind: Kind, action: Action, cs: seq<Checkpoint>, state: State) {
    exists more: seq<Checkpoint> :: |more| > 0 && Walk(kind, action, cs + more) && more[|more|-1].state == state
  }

  /** Past the point of committing. */
  predicate Late(s: State) {
    s in {Recovering, Recovered, RecoveryRequired, Interrupted}
  }

  lemma ReachOne(kind: Kind, action: Action, cs: seq<Checkpoint>, c: Checkpoint)
    requires Walk(kind, action, cs) && CheckpointOk(c) && FollowOk(kind, action, cs[|cs|-1], c)
    requires StartsAttempt(cs[|cs|-1], c) ==> Attempts(cs) < MAX_RECOVERY_ATTEMPTS
    ensures Walk(kind, action, cs + [c]) && CanReach(kind, action, cs, c.state)
  {
    hide Walk, CheckpointOk, FollowOk, Attempts;
    WalkSnoc(kind, action, cs, c);
    assert [c][|[c]|-1].state == c.state;
  }

  lemma ReachThrough(kind: Kind, action: Action, cs: seq<Checkpoint>, c: Checkpoint, state: State)
    requires CanReach(kind, action, cs + [c], state)
    ensures CanReach(kind, action, cs, state)
  {
    hide Walk;
    var more: seq<Checkpoint> :| |more| > 0 && Walk(kind, action, cs + [c] + more) && more[|more|-1].state == state;
    assert cs + [c] + more == cs + ([c] + more);
    assert ([c] + more)[|[c] + more|-1].state == state;
  }

  // --- What can follow one record.

  /** The way to the commit. */
  function Ahead(s: State): State
    requires PreMutation(s) || s == Applying
  {
    match s
    case Planned => Staged
    case Staged => Verified
    case Verified => RecoverySaved
    case RecoverySaved => Applying
    case Applying => Checking
  }

  function Distance(s: State): nat {
    match s
    case Planned => 5
    case Staged => 4
    case Verified => 3
    case RecoverySaved => 2
    case Applying => 1
    case _ => 0
  }

  lemma Advances(kind: Kind, action: Action, prev: Checkpoint) returns (c: Checkpoint)
    requires CheckpointOk(prev) && prev.outcome.None? && (kind == Legacy ==> !PreMutation(prev.state))
    requires PreMutation(prev.state) || prev.state == Applying
    ensures CheckpointOk(c) && FollowOk(kind, action, prev, c) && c.outcome.None?
    ensures c.state == Ahead(prev.state) && Distance(c.state) < Distance(prev.state)
  {
    c := Plain(prev.sequence + 1, Ahead(prev.state));
  }

  lemma Commits(kind: Kind, action: Action, prev: Checkpoint) returns (c: Checkpoint)
    requires CheckpointOk(prev) && prev.outcome.None? && prev.state == Checking
    ensures CheckpointOk(c) && FollowOk(kind, action, prev, c) && c.state == Committed
  {
    c := Plain(prev.sequence + 1, Committed).(outcome := Some(ClosedCommitted));
  }

  lemma Recovers(kind: Kind, action: Action, prev: Checkpoint) returns (c: Checkpoint)
    requires CheckpointOk(prev) && prev.outcome.None? && prev.state == Recovering
    ensures CheckpointOk(c) && FollowOk(kind, action, prev, c) && c.state == Recovered
  {
    c := Plain(prev.sequence + 1, Recovered).(outcome := Some(ClosedRecovered), error := Some(Failure(RECOVERED, "")));
  }

  lemma StartsRecovering(kind: Kind, action: Action, prev: Checkpoint) returns (c: Checkpoint)
    requires CheckpointOk(prev) && prev.outcome.None? && prev.state != Recovering && !PreMutation(prev.state)
    requires kind == Legacy ==> Progress(prev.state)
    ensures CheckpointOk(c) && FollowOk(kind, action, prev, c) && c.state == Recovering && c.outcome.None?
  {
    c := Plain(prev.sequence + 1, Recovering);
  }

  lemma LateStaysLate(kind: Kind, action: Action, prev: Checkpoint, c: Checkpoint)
    requires CheckpointOk(prev) && CheckpointOk(c) && FollowOk(kind, action, prev, c) && Late(prev.state)
    ensures Late(c.state)
    ensures kind == Legacy && prev.state != Recovering ==> c.state != Recovering && c.state != Recovered
  {
  }

  lemma RecoveredFollowsRecovering(kind: Kind, action: Action, prev: Checkpoint, c: Checkpoint)
    requires CheckpointOk(prev) && CheckpointOk(c) && FollowOk(kind, action, prev, c) && c.state == Recovered
    ensures prev.state == Recovering
  {
  }

  lemma RecordOk(kind: Kind, action: Action, cs: seq<Checkpoint>, i: nat)
    requires Walk(kind, action, cs) && i < |cs|
    ensures CheckpointOk(cs[i]) && (i > 0 ==> FollowOk(kind, action, cs[i-1], cs[i]))
  {
    hide CheckpointOk, FollowOk, Attempts;
  }

  // --- Committing.

  lemma {:induction false} CommitIsAhead(kind: Kind, action: Action, cs: seq<Checkpoint>)
    requires Walk(kind, action, cs) && cs[|cs|-1].outcome.None?
    requires PreMutation(cs[|cs|-1].state) || cs[|cs|-1].state == Applying || cs[|cs|-1].state == Checking
    ensures CanReach(kind, action, cs, Committed)
    decreases Distance(cs[|cs|-1].state)
  {
    hide CheckpointOk, FollowOk, Attempts, CanReach;
    var last := cs[|cs|-1];
    RecordOk(kind, action, cs, |cs| - 1);
    if last.state == Checking {
      var c := Commits(kind, action, last);
      ReachOne(kind, action, cs, c);
    } else {
      if kind == Legacy {
        Writes.LegacyNeverPreMutation(action, cs, |cs| - 1);
      }
      var c := Advances(kind, action, last);
      ReachOne(kind, action, cs, c);
      CommitIsAhead(kind, action, cs + [c]);
      ReachThrough(kind, action, cs, c, Committed);
    }
  }

  lemma {:induction false} LateFromThen(kind: Kind, action: Action, cs: seq<Checkpoint>, n: nat, i: nat)
    requires Walk(kind, action, cs) && n <= i < |cs| && Late(cs[n].state)
    ensures Late(cs[i].state)
    ensures kind == Legacy && cs[n].state in {RecoveryRequired, Interrupted} ==> cs[i].state in {RecoveryRequired, Interrupted}
    decreases i
  {
    hide CheckpointOk, FollowOk, Attempts;
    if i > n {
      LateFromThen(kind, action, cs, n, i - 1);
      RecordOk(kind, action, cs, i - 1);
      RecordOk(kind, action, cs, i);
      LateStaysLate(kind, action, cs[i-1], cs[i]);
    }
  }

  /** An open journal can still commit exactly when it has not begun to recover, was not given up and
      awaits nobody. */
  lemma CommittableExactly(kind: Kind, action: Action, cs: seq<Checkpoint>)
    requires Walk(kind, action, cs) && cs[|cs|-1].outcome.None?
    ensures CanReach(kind, action, cs, Committed) <==> !Late(cs[|cs|-1].state)
  {
    assert |cs| >= 1;
    hide CheckpointOk, FollowOk, Attempts, Walk;
    var n := |cs| - 1;
    RecordOk(kind, action, cs, n);
    ClosedStates(cs[n]);
    if Late(cs[n].state) {
      forall more: seq<Checkpoint> | |more| > 0 && Walk(kind, action, cs + more)
        ensures more[|more|-1].state != Committed
      {
        LateFromThen(kind, action, cs + more, n, |cs + more| - 1);
      }
    } else {
      CommitIsAhead(kind, action, cs);
    }
  }

  // --- Recovering.

  /** No recovery was attempted on the way to a state before it. */
  lemma {:induction false} EarlyHasNoAttempts(kind: Kind, action: Action, cs: seq<Checkpoint>, i: nat)
    requires Walk(kind, action, cs) && i < |cs| && !Late(cs[i].state)
    ensures Attempts(cs[..i+1]) == 0
  {
    hide CheckpointOk, FollowOk;
    if i > 0 {
      if Late(cs[i-1].state) {
        LateFromThen(kind, action, cs, i - 1, i);
      }
      EarlyHasNoAttempts(kind, action, cs, i - 1);
      assert cs[..i+1][..i] == cs[..i];
    }
  }

  lemma RecoveryIsAhead(kind: Kind, action: Action, cs: seq<Checkpoint>)
    requires Walk(kind, action, cs) && cs[|cs|-1].outcome.None? && cs[|cs|-1].state == Recovering
    ensures CanReach(kind, action, cs, Recovered)
  {
    hide CheckpointOk, FollowOk, Attempts, CanReach;
    RecordOk(kind, action, cs, |cs| - 1);
    var c := Recovers(kind, action, cs[|cs|-1]);
    ReachOne(kind, action, cs, c);
  }

  lemma {:induction false} AttemptIsAhead(kind: Kind, action: Action, cs: seq<Checkpoint>)
    requires Walk(kind, action, cs) && cs[|cs|-1].outcome.None? && cs[|cs|-1].state != Recovering
    requires kind == Legacy ==> Progress(cs[|cs|-1].state)
    requires Attempts(cs) < MAX_RECOVERY_ATTEMPTS
    ensures CanReach(kind, action, cs, Recovered)
    decreases Distance(cs[|cs|-1].state)
  {
    assert |cs| >= 1;
    hide CheckpointOk, FollowOk, Attempts, CanReach, Walk;
    var last := cs[|cs|-1];
    RecordOk(kind, action, cs, |cs| - 1);
    if PreMutation(last.state) {
      var c := Advances(kind, action, last);
      ReachOne(kind, action, cs, c);
      AttemptsSnoc(cs, c);
      AttemptIsAhead(kind, action, cs + [c]);
      ReachThrough(kind, action, cs, c, Recovered);
    } else {
      var c := StartsRecovering(kind, action, last);
      ReachOne(kind, action, cs, c);
      RecoveryIsAhead(kind, action, cs + [c]);
      ReachThrough(kind, action, cs, c, Recovered);
    }
  }

  /** Once the attempts are used up no other begins. */
  lemma {:induction false} NoOtherAttempt(kind: Kind, action: Action, cs: seq<Checkpoint>, n: nat, i: nat)
    requires Walk(kind, action, cs) && n <= i < |cs| && cs[n].state != Recovering
    requires Attempts(cs[..n+1]) >= MAX_RECOVERY_ATTEMPTS
    ensures cs[i].state != Recovering && Attempts(cs[..i+1]) >= MAX_RECOVERY_ATTEMPTS
    decreases i
  {
    hide CheckpointOk, FollowOk;
    if i > n {
      NoOtherAttempt(kind, action, cs, n, i - 1);
      assert cs[..i+1][..i] == cs[..i];
      AttemptsPrefix(cs, i + 1);
    }
  }

  lemma NeverRecovers(kind: Kind, action: Action, cs: seq<Checkpoint>, n: nat)
    requires Walk(kind, action, cs) && n + 1 < |cs| && cs[n].state != Recovering
    requires (kind == Legacy && Late(cs[n].state)) || Attempts(cs[..n+1]) >= MAX_RECOVERY_ATTEMPTS
    requires cs[n].outcome.None?
    ensures cs[|cs|-1].state != Recovered
  {
    hide CheckpointOk, FollowOk, Attempts, Walk;
    var i := |cs| - 1;
    RecordOk(kind, action, cs, n);
    ClosedStates(cs[n]);
    RecordOk(kind, action, cs, i - 1);
    RecordOk(kind, action, cs, i);
    if cs[i].state == Recovered {
      RecoveredFollowsRecovering(kind, action, cs[i-1], cs[i]);
      if kind == Legacy && Late(cs[n].state) {
        LateFromThen(kind, action, cs, n, i - 1);
      } else {
        NoOtherAttempt(kind, action, cs, n, i - 1);
      }
    }
  }

  /** An open journal can still recover exactly when a recovery is under way or may yet begin: any of
      three attempts in a transaction, none in a legacy record that was parked. */
  lemma RecoverableExactly(kind: Kind, action: Action, cs: seq<Checkpoint>)
    requires Walk(kind, action, cs) && cs[|cs|-1].outcome.None?
    ensures var last := cs[|cs|-1];
      CanReach(kind, action, cs, Recovered) <==>
        last.state == Recovering || (if kind == Transaction then Attempts(cs) < 3 else !Late(last.state))
  {
    assert |cs| >= 1;
    hide CheckpointOk, FollowOk, Walk, Attempts;
    var n := |cs| - 1;
    var last := cs[n];
    assert cs[..n+1] == cs;
    RecordOk(kind, action, cs, n);
    ClosedStates(last);
    if last.state == Recovering {
      RecoveryIsAhead(kind, action, cs);
    } else if kind == Transaction && Attempts(cs) < 3 {
      AttemptIsAhead(kind, action, cs);
    } else if kind == Legacy && !Late(last.state) {
      Writes.LegacyNeverPreMutation(action, cs, n);
      EarlyHasNoAttempts(kind, action, cs, n);
      AttemptIsAhead(kind, action, cs);
    } else {
      forall more: seq<Checkpoint> | |more| > 0 && Walk(kind, action, cs + more)
        ensures more[|more|-1].state != Recovered
      {
        assert (cs + more)[..n+1] == cs;
        NeverRecovers(kind, action, cs + more, n);
      }
    }
  }
}
