/** Power loss and the one-open-transaction promise: exactly when it holds, and a run that
    breaks it. */
module ProtocolPower {
  import opened Options
  import opened Journal
  import opened Writes
  import opened Protocol
  import opened ProtocolInvariant
  import opened ProtocolSteps
  import opened ProtocolRuns
  import JournalFacts
  import OperationIds

  /** No power loss from here leaves two unfinished transactions. */
  ghost predicate PowerSafe(s: System) {
    forall counters, journals, names :: SingleOpen(Apply(s, PowerLoss(counters, journals, names)))
  }

  lemma CutKeepsSingle(s: System, counters: set<Name>, journals: set<Name>, names: set<Name>)
    requires Inv(s) && DurablySingle(s)
    ensures SingleOpen(Apply(s, PowerLoss(counters, journals, names)))
  {
    hide Inv, OpenTransaction;
    forall n | n in s.ops
      ensures OpenTransaction(s.ops[n].journal) ==> OpenTransaction(s.ops[n].journalOnDisk)
    {
      VisiblyOpenIsOnDisk(s, n);
    }
  }

  /** In every reachable state, that is so if and only if the disk holds at most one. */
  lemma PowerSafeIsDurablySingle(s: System)
    requires Inv(s)
    ensures PowerSafe(s) <==> DurablySingle(s)
    ensures DurablySingle(s) ==> SingleOpen(s)
  {
    hide Inv, OpenTransaction;
    forall n | n in s.ops
      ensures OpenTransaction(s.ops[n].journal) ==> OpenTransaction(s.ops[n].journalOnDisk)
    {
      VisiblyOpenIsOnDisk(s, n);
    }
    if DurablySingle(s) {
      forall counters, journals, names ensures SingleOpen(Apply(s, PowerLoss(counters, journals, names))) {
        CutKeepsSingle(s, counters, journals, names);
      }
    } else {
      var m, n :| m in s.ops && n in s.ops && m != n
        && OpenTransaction(s.ops[m].journalOnDisk) && OpenTransaction(s.ops[n].journalOnDisk);
      TwoComeBack(s, m, n);
    }
  }

  lemma TwoComeBack(s: System, m: Name, n: Name)
    requires m in s.ops && n in s.ops && m != n
    requires OpenTransaction(s.ops[m].journalOnDisk) && OpenTransaction(s.ops[n].journalOnDisk)
    ensures !SingleOpen(Apply(s, PowerLoss({}, {m, n}, {})))
  {
    hide OpenTransaction;
    var t := Apply(s, PowerLoss({}, {m, n}, {}));
    assert m in Survivors(s, {}) && n in Survivors(s, {});
    assert m in t.ops && n in t.ops;
  }

  // --- The guard begin lacks.

  /** A transaction is put in place only while no other one is unfinished by what is on disk. */
  predicate Guarded(s: System, step: Step) {
    step.RenameStaging? && s.writer.Creating? && OpenTransaction(s.writer.first) ==>
      forall n :: n in s.ops ==> !OpenTransaction(s.ops[n].journalOnDisk)
  }

  /** What a step leaves on disk was there or was visible. */
  lemma {:induction false} DiskFollows(s: System, step: Step, n: Name)
    requires Enabled(s, step) && n in s.ops && n in Apply(s, step).ops
    ensures var k := Apply(s, step).ops[n].journalOnDisk; k == s.ops[n].journalOnDisk || k == s.ops[n].journal
  {
    hide Valid, NextJournal, NextSequence, Abandon, FirstJournal, Active, Blocked, Answered;
  }

  /** On disk a step reopens nothing, and only the rename of a begin adds an operation. */
  lemma {:induction false} StepOpensNoneOnDisk(s: System, step: Step, n: Name)
    requires Inv(s) && Enabled(s, step) && n in Apply(s, step).ops
    ensures var t := Apply(s, step);
      && (n in s.ops ==> (OpenTransaction(t.ops[n].journalOnDisk) ==> OpenTransaction(s.ops[n].journalOnDisk)))
      && (n !in s.ops ==>
            step.RenameStaging? && s.writer.Creating? && n == s.writer.created && t.ops[n].journalOnDisk == s.writer.first)
  {
    hide Inv, Enabled, Apply, OpenTransaction;
    if n in s.ops {
      VisiblyOpenIsOnDisk(s, n);
      DiskFollows(s, step, n);
    } else {
      StepAdds(s, step, n);
    }
  }

  /** A step from a state that is safe against power loss leads to one exactly when it meets the
      guard. */
  lemma StepKeepsDurablySingle(s: System, step: Step)
    requires Inv(s) && Enabled(s, step) && DurablySingle(s)
    ensures DurablySingle(Apply(s, step)) <==> Guarded(s, step)
  {
    hide Inv, NextJournal, NextSequence, Abandon, FirstJournal, OpenTransaction, Active, Blocked;
    forall n | n in Apply(s, step).ops
      ensures n in s.ops ==> (OpenTransaction(Apply(s, step).ops[n].journalOnDisk) ==> OpenTransaction(s.ops[n].journalOnDisk))
      ensures n !in s.ops ==> step.RenameStaging? && n == s.writer.created && Apply(s, step).ops[n].journalOnDisk == s.writer.first
    {
      StepOpensNoneOnDisk(s, step, n);
    }
    if !Guarded(s, step) {
      var n :| n in s.ops && OpenTransaction(s.ops[n].journalOnDisk);
      PlacedBeside(s, n);
    }
  }

  lemma PlacedBeside(s: System, n: Name)
    requires Enabled(s, RenameStaging) && n in s.ops
    requires OpenTransaction(s.ops[n].journalOnDisk) && OpenTransaction(s.writer.first)
    ensures !DurablySingle(Apply(s, RenameStaging))
  {
    hide OpenTransaction;
    var t := Apply(s, RenameStaging);
    assert n in t.ops && s.writer.created in t.ops && n != s.writer.created;
  }

  /** Every placement of the run meets the guard. */
  predicate GuardedRun(s: System, steps: seq<Step>)
    requires Runs(s, steps)
    decreases |steps|
  {
    steps == [] || (Guarded(s, steps[0]) && GuardedRun(Apply(s, steps[0]), steps[1..]))
  }

  /** No power loss at any point of the run leaves two unfinished transactions. */
  ghost predicate AlwaysPowerSafe(s: System, steps: seq<Step>)
    requires Runs(s, steps)
    decreases |steps|
  {
    PowerSafe(s) && (steps == [] || AlwaysPowerSafe(Apply(s, steps[0]), steps[1..]))
  }

  lemma {:induction false} GuardedIsAlwaysSafe(s: System, steps: seq<Step>)
    requires Inv(s) && DurablySingle(s) && Runs(s, steps)
    ensures AlwaysPowerSafe(s, steps) <==> GuardedRun(s, steps)
    ensures GuardedRun(s, steps) ==> AlwaysSingle(s, steps)
    decreases |steps|
  {
    hide Inv, Enabled, DurablySingle, Guarded, PowerSafe, SingleOpen;
    PowerSafeIsDurablySingle(s);
    if steps != [] {
      var t := Apply(s, steps[0]);
      StepKeepsInv(s, steps[0]);
      StepKeepsDurablySingle(s, steps[0]);
      PowerSafeIsDurablySingle(t);
      if DurablySingle(t) {
        GuardedIsAlwaysSafe(t, steps[1..]);
      } else {
        UnsafeAtOnce(t, steps[1..]);
      }
    }
  }

  lemma UnsafeAtOnce(s: System, steps: seq<Step>)
    requires Runs(s, steps) && !PowerSafe(s)
    ensures !AlwaysPowerSafe(s, steps)
  {
    hide PowerSafe, Enabled, Apply;
  }

  /** Over every run, with any number of power losses: every state is safe against the next power
      loss if and only if every transaction was put in place while no other one was unfinished on
      disk; and then at most one transaction is ever unfinished. */
  lemma PowerSafeRunsExactly(steps: seq<Step>)
    requires Runs(Init(), steps)
    ensures AlwaysPowerSafe(Init(), steps) <==> GuardedRun(Init(), steps)
    ensures GuardedRun(Init(), steps) ==> AlwaysSingle(Init(), steps)
  {
    hide Enabled;
    InitInv();
    GuardedIsAlwaysSafe(Init(), steps);
  }

  /** Every transaction closed in the visible journal is closed on disk too. */
  predicate ClosingSynced(s: System, except: Name) {
    forall n :: n in s.ops && n != except && s.ops[n].journal.kind == Transaction && Closed(s.ops[n].journal)
      ==> Closed(s.ops[n].journalOnDisk)
  }

  lemma OpenOnDiskOnly(s: System, n: Name)
    requires Inv(s) && n in s.ops && !OpenTransaction(s.ops[n].journal)
    ensures OpenTransaction(s.ops[n].journalOnDisk) <==>
      s.ops[n].journal.kind == Transaction && Closed(s.ops[n].journal) && !Closed(s.ops[n].journalOnDisk)
  {
    hide Valid, Extends, TracesOk, SequencesOk, WriterOk;
    EntryJournalValid(s, n);
    SameKind(s.ops[n].journalOnDisk, s.ops[n].journal);
  }

  /** What a begin would have to see to before it puts a transaction in place: it looks at visible
      journals only, so the guard is met exactly when every other closing record was synced. */
  lemma GuardIsClosingSynced(steps: seq<Step>)
    requires Runs(Init(), steps)
    requires StateAfter(Init(), steps).writer.Creating? && StateAfter(Init(), steps).writer.stage == Built
    requires OpenTransaction(StateAfter(Init(), steps).writer.first)
    ensures var s := StateAfter(Init(), steps);
      Guarded(s, RenameStaging) <==> ClosingSynced(s, s.writer.created)
  {
    hide Enabled, Inv, OpenTransaction, Closed;
    var s := StateAfter(Init(), steps);
    Reached(steps);
    InitInv();
    RunKeepsAlone(Init(), steps);
    NotYetThere(s);
    LegacyIsNoTransaction(s.writer.first);
    forall n | n in s.ops
      ensures OpenTransaction(s.ops[n].journalOnDisk) <==>
        s.ops[n].journal.kind == Transaction && Closed(s.ops[n].journal) && !Closed(s.ops[n].journalOnDisk)
    {
      OpenOnDiskOnly(s, n);
    }
  }

  lemma NotYetThere(s: System)
    requires Inv(s) && s.writer.Creating?
    ensures s.writer.stage == Built ==> s.writer.created !in s.ops
    ensures s.writer.stage != Built ==> s.writer.created in s.ops && s.ops[s.writer.created].journalOnDisk == s.writer.first
  {
    hide Valid, Extends, EntriesOk, TracesOk, SequencesOk, ScanOk;
  }

  /** From the moment a begin of a transaction has put it in place, every power loss leaves at most
      one unfinished transaction if and only if the closing record of every other one was synced. */
  lemma PowerSafeExactly(steps: seq<Step>)
    requires Runs(Init(), steps)
    requires StateAfter(Init(), steps).writer.Creating? && StateAfter(Init(), steps).writer.stage != Built
    requires OpenTransaction(StateAfter(Init(), steps).writer.first)
    ensures var s := StateAfter(Init(), steps);
      PowerSafe(s) <==> ClosingSynced(s, s.writer.created)
  {
    hide Enabled, Inv, OpenTransaction, Closed, PowerSafe;
    var s := StateAfter(Init(), steps);
    Reached(steps);
    InitInv();
    RunKeepsAlone(Init(), steps);
    PowerSafeIsDurablySingle(s);
    NotYetThere(s);
    LegacyIsNoTransaction(s.writer.first);
    forall n | n in s.ops && n != s.writer.created
      ensures OpenTransaction(s.ops[n].journalOnDisk) <==>
        s.ops[n].journal.kind == Transaction && Closed(s.ops[n].journal) && !Closed(s.ops[n].journalOnDisk)
    {
      OpenOnDiskOnly(s, n);
    }
  }

  predicate Closed(j: Journal) {
    |j.checkpoints| > 0 && Finished(j)
  }

  lemma SameKind(j: Journal, k: Journal)
    requires Extends(j, k)
    ensures j.kind == k.kind && |j.checkpoints| > 0 && |k.checkpoints| > 0
  {
  }

  // --- Uninterrupted requests, as pieces of a run.

  lemma {:induction false} RunsAppend(s: System, steps: seq<Step>, step: Step)
    requires Runs(s, steps) && Enabled(StateAfter(s, steps), step)
    ensures Runs(s, steps + [step]) && StateAfter(s, steps + [step]) == Apply(StateAfter(s, steps), step)
    decreases |steps|
  {
    hide Enabled, Apply;
    if steps == [] {
      assert steps + [step] == [step];
      assert [step][1..] == [];
    } else {
      RunsAppend(Apply(s, steps[0]), steps[1..], step);
      assert (steps + [step])[1..] == steps[1..] + [step];
    }
  }

  lemma {:induction false} RunsConcat(s: System, steps: seq<Step>, more: seq<Step>)
    requires Runs(s, steps) && Runs(StateAfter(s, steps), more)
    ensures Runs(s, steps + more) && StateAfter(s, steps + more) == StateAfter(StateAfter(s, steps), more)
    decreases |steps|
  {
    hide Enabled, Apply;
    if steps == [] {
      assert steps + more == more;
    } else {
      RunsConcat(Apply(s, steps[0]), steps[1..], more);
      assert (steps + more)[1..] == steps[1..] + more;
    }
  }

  function NewEntry(j: Journal): Entry {
    Entry(1, 1, j, j, true, true, false)
  }

  predicate Quiet(s: System) {
    && s.writer.Free? && s.junk == {}
    && forall n :: n in s.ops ==> s.ops[n].readable && s.ops[n].named && Closed(s.ops[n].journal)
  }

  lemma QuietScan(s: System)
    requires Quiet(s)
    ensures forall n :: n in s.ops ==> !Active(s.ops[n].journal) && !OpenTransaction(s.ops[n].journal)
  {
  }

  lemma BeginClears(s: System, r: BeginRequest, day: string, number: nat)
    requires Quiet(s) && 1 <= number <= OperationIds.LAST_NUMBER
    requires OperationIds.IsHighest(s.ops.Keys, day, number - 1)
    requires FirstJournal(OperationIds.OperationName(day, number), r).Ok?
    ensures Enabled(s, StartReconcile(None, BeginGoal(r, day)))
    ensures var s1 := Apply(s, StartReconcile(None, BeginGoal(r, day)));
      var op := OperationIds.OperationName(day, number);
      && Enabled(s1, StartCreate(number))
      && Apply(s1, StartCreate(number)) == s.(writer := Creating(op, FirstJournal(op, r).value, Built, Scan(None, s.ops.Keys, {}, {})))
      && op !in s.ops
  {
    hide FirstJournal, Valid, OperationIds.OperationName, OperationIds.IsHighest, Active, OpenTransaction, Closed,
         NextJournal, NextSequence, Abandon;
    OperationIds.AllocatedIsFresh(s.ops.Keys, day, number - 1);
    QuietScan(s);
    var s1 := Apply(s, StartReconcile(None, BeginGoal(r, day)));
    assert s1.writer.scan.seen == s.ops.Keys && s1.writer.scan.todo == {};
    assert s1.ops.Keys + s1.junk == s.ops.Keys;
  }

  lemma PutsInPlace(s: System, op: Name, j: Journal, scan: Scan) returns (s3: System, s4: System)
    requires s.writer == Creating(op, j, Built, scan) && op !in s.ops && s.junk == {}
    requires forall n :: n in s.ops ==> s.ops[n].named
    ensures Enabled(s, RenameStaging) && s3 == Apply(s, RenameStaging)
    ensures Enabled(s3, SyncNames) && s4 == Apply(s3, SyncNames)
    ensures s4.writer == Creating(op, j, Durable, scan) && s4.junk == {} && s4.ops == s.ops[op := NewEntry(j)]
  {
    hide FirstJournal, Valid, NextJournal, NextSequence, Abandon, Blocked, LastSequence, Active, Answered;
    s3 := Apply(s, RenameStaging);
    s4 := Apply(s3, SyncNames);
    assert s4.ops == s.ops[op := NewEntry(j)];
  }

  lemma CreateCompletes(s: System, op: Name, j: Journal, scan: Scan) returns (s3: System, s4: System, s5: System, s6: System)
    requires s.writer == Creating(op, j, Built, scan) && op !in s.ops && s.junk == {}
    requires forall n :: n in s.ops ==> s.ops[n].named
    ensures Enabled(s, RenameStaging) && s3 == Apply(s, RenameStaging)
    ensures Enabled(s3, SyncNames) && s4 == Apply(s3, SyncNames)
    ensures Enabled(s4, PutEvent) && s5 == Apply(s4, PutEvent)
    ensures Enabled(s5, Answer) && s6 == Apply(s5, Answer)
    ensures s6.writer.Free? && s6.junk == {} && Answered(s6, op) && s6.ops == s.ops[op := NewEntry(j)]
  {
    s3, s4 := PutsInPlace(s, op, j, scan);
    hide FirstJournal, Valid, NextJournal, NextSequence, Abandon, Blocked, LastSequence, Active;
    s5 := Apply(s4, PutEvent);
    s6 := Apply(s5, Answer);
    assert s6.acks[|s6.acks|-1].op == op;
  }

  /** A begin that nothing disturbs. */
  lemma BeginCompletes(s: System, r: BeginRequest, day: string, number: nat) returns (steps: seq<Step>)
    requires Quiet(s) && 1 <= number <= OperationIds.LAST_NUMBER
    requires OperationIds.IsHighest(s.ops.Keys, day, number - 1)
    requires FirstJournal(OperationIds.OperationName(day, number), r).Ok?
    ensures Runs(s, steps) && NoPowerLoss(steps)
    ensures var op := OperationIds.OperationName(day, number);
      var j, t := FirstJournal(op, r).value, StateAfter(s, steps);
      && op !in s.ops && t.writer.Free? && t.junk == {} && Answered(t, op)
      && t.ops == s.ops[op := NewEntry(j)]
  {
    hide FirstJournal, Enabled, Apply, OperationIds.OperationName, OperationIds.IsHighest, Closed, NewEntry, Answered;
    var op := OperationIds.OperationName(day, number);
    var all := [StartReconcile(None, BeginGoal(r, day)), StartCreate(number), RenameStaging, SyncNames, PutEvent, Answer];
    BeginClears(s, r, day, number);
    var s1 := Apply(s, all[0]);
    var s2 := Apply(s1, all[1]);
    var s3, s4, s5, s6 := CreateCompletes(s2, op, FirstJournal(op, r).value, Scan(None, s.ops.Keys, {}, {}));
    RunsSix(s, all, s1, s2, s3, s4, s5, s6);
    steps := all;
  }

  lemma RunsSix(s: System, all: seq<Step>, s1: System, s2: System, s3: System, s4: System, s5: System, s6: System)
    requires |all| == 6
    requires Enabled(s, all[0]) && s1 == Apply(s, all[0])
    requires Enabled(s1, all[1]) && s2 == Apply(s1, all[1])
    requires Enabled(s2, all[2]) && s3 == Apply(s2, all[2])
    requires Enabled(s3, all[3]) && s4 == Apply(s3, all[3])
    requires Enabled(s4, all[4]) && s5 == Apply(s4, all[4])
    requires Enabled(s5, all[5]) && s6 == Apply(s5, all[5])
    ensures Runs(s, all) && StateAfter(s, all) == s6
  {
    hide Enabled, Apply;
    assert Runs(s, []);
    RunsAppend(s, [], all[0]);
    RunsAppend(s, [] + [all[0]], all[1]);
    RunsAppend(s, [] + [all[0]] + [all[1]], all[2]);
    RunsAppend(s, [] + [all[0]] + [all[1]] + [all[2]], all[3]);
    RunsAppend(s, [] + [all[0]] + [all[1]] + [all[2]] + [all[3]], all[4]);
    RunsAppend(s, [] + [all[0]] + [all[1]] + [all[2]] + [all[3]] + [all[4]], all[5]);
    assert all == [] + [all[0]] + [all[1]] + [all[2]] + [all[3]] + [all[4]] + [all[5]];
  }

  // --- The run that breaks the promise.

  function ARequest(): BeginRequest {
    BeginRequest(Transaction, Rollback, Some("plan"), None, None, None, None, None, None, 0)
  }

  function ARefusal(): CheckpointRequest {
    CheckpointRequest(1, Planned, None, None, Some(ClosedRefused), Some(PREFLIGHT), Some(""), None, None, None, None, None, 0)
  }

  lemma RefusalIsLegal(j: Journal)
    requires Valid(j) && j.generation == 1 && Active(j) && |j.checkpoints| == 1 && j.kind == Transaction
    requires Last(j).sequence == 1
    ensures NextSequence(1, j) == 2
    ensures NextJournal(1, j, ARefusal()).Ok? && Closed(NextJournal(1, j, ARefusal()).value)
  {
    var c := Checkpoint(2, Planned, None, None, None, Some(ClosedRefused), Some(Failure(PREFLIGHT, "")));
    assert NextSequence(1, j) == 2;
    JournalFacts.WalkSnoc(j.kind, j.action, j.checkpoints, c);
    assert j.evidence + [] == j.evidence;
    var k := j.(checkpoints := j.checkpoints + [c], generation := 2, updatedAt := 0);
    assert Shape(k);
    assert !HasRecoverySaved(k.checkpoints);
  }

  /** A refusal whose process is killed after the journal rename and before its directory sync. */
  lemma RefusalCutShort(s: System, op: Name, j: Journal) returns (steps: seq<Step>)
    requires s.writer.Free? && op in s.ops && op in s.used && Answered(s, op) && s.ops[op] == NewEntry(j)
    requires |j.checkpoints| > 0 && j.generation == 1
    requires NextSequence(1, j) == 2 && NextJournal(1, j, ARefusal()).Ok?
    ensures Runs(s, steps) && NoPowerLoss(steps)
    ensures var t := StateAfter(s, steps);
      t.writer.Free? && t.junk == s.junk && t.ops == s.ops[op := Entry(2, 2, NextJournal(1, j, ARefusal()).value, j, true, true, false)]
  {
    hide NextSequence, NextJournal, Valid, Answered, FirstJournal, Abandon;
    var all := [StartCheckpoint(op, ARefusal()), RenameCounter, SyncDirectory, RenameJournal, Kill, Kill];
    var s1 := Apply(s, all[0]);
    var s2 := Apply(s1, all[1]);
    var s3 := Apply(s2, all[2]);
    var s4 := Apply(s3, all[3]);
    var s5 := Apply(s4, all[4]);
    RunsSix(s, all, s1, s2, s3, s4, s5, s5);
    steps := all;
  }

  lemma FirstTwoNames(day: string)
    ensures OperationIds.IsHighest({}, day, 0)
    ensures OperationIds.IsHighest({OperationIds.OperationName(day, 1)}, day, 1)
    ensures OperationIds.OperationName(day, 1) != OperationIds.OperationName(day, 2)
  {
    OperationIds.NameReadsBack(day, 1);
    OperationIds.NameReadsBack(day, 2);
  }

  lemma ARequestIsLegal(op: Name)
    ensures FirstJournal(op, ARequest()).Ok?
    ensures var j := FirstJournal(op, ARequest()).value;
      && Valid(j) && Active(j) && OpenTransaction(j) && j.generation == 1
      && |j.checkpoints| == 1 && j.kind == Transaction && Last(j).sequence == 1
  {
    FirstJournalIsLegal(op, ARequest());
  }

  /** The promise fails: a transaction closed by a record whose directory sync never happened,
      a new one begun after it, and a power loss that takes the closing record back. */
  lemma PowerLossReopensATransaction(day: string) returns (steps: seq<Step>, cut: Step)
    ensures Runs(Init(), steps) && NoPowerLoss(steps) && cut.PowerLoss?
    ensures !SingleOpen(Apply(StateAfter(Init(), steps), cut))
  {
    hide Enabled, Apply, FirstJournal, NextJournal, NextSequence, OperationIds.OperationName, OperationIds.IsHighest,
         Valid, Active, OpenTransaction;
    var op1, op2 := OperationIds.OperationName(day, 1), OperationIds.OperationName(day, 2);
    FirstTwoNames(day);
    ARequestIsLegal(op1);
    ARequestIsLegal(op2);
    var j1, j2 := FirstJournal(op1, ARequest()).value, FirstJournal(op2, ARequest()).value;
    assert Init().ops.Keys == {};
    var a := BeginCompletes(Init(), ARequest(), day, 1);
    var s := StateAfter(Init(), a);
    assert s.ops == map[op1 := NewEntry(j1)];
    Reached(a);
    UsedHasOps(s);
    RefusalIsLegal(j1);
    var b := RefusalCutShort(s, op1, j1);
    var t := StateAfter(s, b);
    var k1 := NextJournal(1, j1, ARefusal()).value;
    assert t.ops == map[op1 := Entry(2, 2, k1, j1, true, true, false)];
    assert t.ops.Keys == {op1};
    var c := BeginCompletes(t, ARequest(), day, 2);
    var u := StateAfter(t, c);
    RunsConcat(Init(), a, b);
    RunsConcat(Init(), a + b, c);
    steps := a + b + c;
    cut := PowerLoss({}, {op1}, {});
    CutReopens(u, op1, op2);
  }

  lemma UsedHasOps(s: System)
    requires Inv(s)
    ensures s.used.Keys == s.ops.Keys
  {
    hide Valid, Extends, EntriesOk, TracesOk, WriterOk, UsedOk;
  }

  lemma CutReopens(u: System, op1: Name, op2: Name)
    requires op1 != op2 && op1 in u.ops && op2 in u.ops && u.ops[op1].named && u.ops[op2].named
    requires OpenTransaction(u.ops[op1].journalOnDisk) && OpenTransaction(u.ops[op2].journal)
    ensures !SingleOpen(Apply(u, PowerLoss({}, {op1}, {})))
  {
    hide OpenTransaction;
    var v := Apply(u, PowerLoss({}, {op1}, {}));
    assert op1 in Survivors(u, {}) && op2 in Survivors(u, {});
    assert op1 in v.ops && op2 in v.ops;
  }
}
