/** What holds over whole runs: any number of processes, kills, restarts and power losses. */
module ProtocolRuns {
  import opened Options
  import opened Journal
  import opened Writes
  import opened Protocol
  import opened ProtocolInvariant
  import opened ProtocolSteps
  import OperationIds

  lemma InitInv()
    ensures Inv(Init())
  {
  }

  lemma {:induction false} RunKeepsInv(s: System, steps: seq<Step>)
    requires Inv(s) && Runs(s, steps)
    ensures Inv(StateAfter(s, steps))
    decreases |steps|
  {
    hide Inv, Enabled;
    if steps != [] {
      StepKeepsInv(s, steps[0]);
      RunKeepsInv(Apply(s, steps[0]), steps[1..]);
    }
  }

  lemma Reached(steps: seq<Step>)
    requires Runs(Init(), steps)
    ensures Inv(StateAfter(Init(), steps))
  {
    InitInv();
    RunKeepsInv(Init(), steps);
  }

  // --- Sequences.

  /** On the event descriptor the sequences of an operation strictly rise while its counter file
      survives; its checkpoint events rise even if that file is lost. */
  lemma EventSequencesRise(steps: seq<Step>, i: nat, k: nat)
    requires Runs(Init(), steps)
    requires i < k < |StateAfter(Init(), steps).events|
    requires StateAfter(Init(), steps).events[i].op == StateAfter(Init(), steps).events[k].op
    ensures var s := StateAfter(Init(), steps);
      (s.events[i].op !in s.lost || (s.events[i].checkpoint && s.events[k].checkpoint))
        ==> s.events[i].sequence < s.events[k].sequence
  {
    hide Enabled, Valid, Extends, EntriesOk, SequencesOk, WriterOk;
    Reached(steps);
  }

  lemma EventSequencesArePositive(steps: seq<Step>, i: nat)
    requires Runs(Init(), steps) && i < |StateAfter(Init(), steps).events|
    ensures StateAfter(Init(), steps).events[i].sequence >= 1
  {
    hide Enabled, Valid, Extends, EntriesOk, SequencesOk, WriterOk;
    Reached(steps);
  }

  /** While its counter file survives, an operation never puts one number on two records or
      events, whatever was killed in between. */
  lemma SequencesSpentOnce(steps: seq<Step>, op: Name, i: nat, k: nat)
    requires Runs(Init(), steps)
    requires op in StateAfter(Init(), steps).used && op !in StateAfter(Init(), steps).lost
    requires i < k < |StateAfter(Init(), steps).used[op]|
    ensures StateAfter(Init(), steps).used[op][i] < StateAfter(Init(), steps).used[op][k]
  {
    hide Enabled, Valid, Extends, EntriesOk, TracesOk, WriterOk;
    Reached(steps);
    var s := StateAfter(Init(), steps);
    assert UsedOk(s.ops[op], s.used[op]);
  }

  // --- Growth of the journals along a run.

  predicate GrowsDurably(s: System, t: System, n: Name) {
    n in s.ops && s.ops[n].named ==>
      n in t.ops && t.ops[n].named && Extends(s.ops[n].journalOnDisk, t.ops[n].journalOnDisk)
  }

  predicate GrowsVisibly(s: System, t: System, n: Name) {
    n in s.ops ==> n in t.ops && Extends(s.ops[n].journal, t.ops[n].journal)
  }

  lemma StaysDurable(s: System, n: Name)
    requires EntriesOk(s)
    ensures n in s.ops ==> Extends(s.ops[n].journalOnDisk, s.ops[n].journalOnDisk)
    ensures n in s.ops ==> Extends(s.ops[n].journal, s.ops[n].journal)
    ensures n in s.ops ==> Extends(s.ops[n].journalOnDisk, s.ops[n].journal)
  {
    hide Valid, Extends;
    if n in s.ops {
      EntryJournalValid(s, n);
      ExtendsFacts(s.ops[n].journalOnDisk, s.ops[n].journal);
      ExtendsItself(s.ops[n].journal);
      ExtendsItself(s.ops[n].journalOnDisk);
    }
  }

  lemma StepGrowsDurably(s: System, step: Step, n: Name)
    requires Inv(s) && Enabled(s, step)
    ensures GrowsDurably(s, Apply(s, step), n)
  {
    hide Valid, Extends, TracesOk, SequencesOk, WriterOk, NextJournal, NextSequence, Abandon, FirstJournal, Blocked;
    StaysDurable(s, n);
    if step.PowerLoss? && n in s.ops {
      SurvivorOk(n, s.ops[n], n in s.lost, n in step.counters, n in step.journals);
    }
  }

  lemma StepGrowsVisibly(s: System, step: Step, n: Name)
    requires Inv(s) && Enabled(s, step) && !step.PowerLoss?
    ensures GrowsVisibly(s, Apply(s, step), n)
  {
    hide Valid, Extends, TracesOk, SequencesOk, NextJournal, NextSequence, Abandon, FirstJournal, Blocked;
    StaysDurable(s, n);
    if step.RenameJournal? {
      assert WritingOk(s, s.writer);
    }
  }

  /** Whatever happens, power losses included, the on-disk journal of an operation only grows. */
  lemma {:induction false} RunGrowsDurably(s: System, steps: seq<Step>, n: Name)
    requires Inv(s) && Runs(s, steps)
    ensures GrowsDurably(s, StateAfter(s, steps), n)
    decreases |steps|
  {
    hide Inv, Enabled, Valid, Extends;
    if steps == [] {
      InvEntries(s);
      StaysDurable(s, n);
    } else {
      var t, u := Apply(s, steps[0]), StateAfter(s, steps);
      StepKeepsInv(s, steps[0]);
      StepGrowsDurably(s, steps[0], n);
      RunGrowsDurably(t, steps[1..], n);
      if n in s.ops && s.ops[n].named {
        ExtendsTransitive(s.ops[n].journalOnDisk, t.ops[n].journalOnDisk, u.ops[n].journalOnDisk);
      }
    }
  }

  lemma InvEntries(s: System)
    requires Inv(s)
    ensures EntriesOk(s)
  {
  }

  predicate NoPowerLoss(steps: seq<Step>) {
    forall i :: 0 <= i < |steps| ==> !steps[i].PowerLoss?
  }

  /** Without a power loss so does the visible one. */
  lemma {:induction false} RunGrowsVisibly(s: System, steps: seq<Step>, n: Name)
    requires Inv(s) && Runs(s, steps) && NoPowerLoss(steps)
    ensures GrowsVisibly(s, StateAfter(s, steps), n)
    decreases |steps|
  {
    hide Inv, Enabled, Valid, Extends;
    if steps == [] {
      InvEntries(s);
      StaysDurable(s, n);
    } else {
      var t, u := Apply(s, steps[0]), StateAfter(s, steps);
      StepKeepsInv(s, steps[0]);
      StepGrowsVisibly(s, steps[0], n);
      RunGrowsVisibly(t, steps[1..], n);
      if n in s.ops {
        ExtendsTransitive(s.ops[n].journal, t.ops[n].journal, u.ops[n].journal);
      }
    }
  }

  // --- Acknowledged means durable and never lost.

  /** The last record of `j` is still where it was in `k`, or a later step of its state is. */
  predicate LastRecordKept(j: Journal, k: Journal) {
    && 0 < |j.checkpoints| <= |k.checkpoints|
    && KeptOrReplaced(Last(j), k.checkpoints[|j.checkpoints|-1])
    && j.generation <= k.generation
    && (j.recovery.Some? ==> k.recovery == j.recovery)
  }

  lemma AcksOnlyGrow(s: System, step: Step)
    requires Enabled(s, step)
    ensures s.acks <= Apply(s, step).acks
  {
  }

  lemma {:induction false} RunAcksOnlyGrow(s: System, steps: seq<Step>)
    requires Runs(s, steps)
    ensures s.acks <= StateAfter(s, steps).acks
    decreases |steps|
  {
    hide Enabled;
    if steps != [] {
      AcksOnlyGrow(s, steps[0]);
      RunAcksOnlyGrow(Apply(s, steps[0]), steps[1..]);
    }
  }

  /** A record acknowledged at any point of a run is in the on-disk and in the visible journal at
      every later point, unless a later step of the same state has taken its place. */
  lemma AcknowledgedIsKept(steps: seq<Step>, more: seq<Step>, i: nat)
    requires Runs(Init(), steps) && Runs(StateAfter(Init(), steps), more)
    requires i < |StateAfter(Init(), steps).acks|
    ensures var s := StateAfter(Init(), steps);
      var t := StateAfter(s, more);
      var a := s.acks[i];
      && i < |t.acks| && t.acks[i] == a && a.op in t.ops
      && LastRecordKept(a.journal, t.ops[a.op].journalOnDisk)
      && LastRecordKept(a.journal, t.ops[a.op].journal)
  {
    hide Enabled, Inv, Valid, Extends;
    var s := StateAfter(Init(), steps);
    var t := StateAfter(s, more);
    Reached(steps);
    RunKeepsInv(s, more);
    RunAcksOnlyGrow(s, more);
    var a := t.acks[i];
    AckHolds(t, i);
    ExtendsTransitive(a.journal, t.ops[a.op].journalOnDisk, t.ops[a.op].journal);
    ExtendsKeepsLast(a.journal, t.ops[a.op].journalOnDisk);
    ExtendsKeepsLast(a.journal, t.ops[a.op].journal);
  }

  lemma AckHolds(t: System, i: nat)
    requires Inv(t) && i < |t.acks|
    ensures t.acks[i].op in t.ops
    ensures Extends(t.acks[i].journal, t.ops[t.acks[i].op].journalOnDisk)
    ensures Extends(t.ops[t.acks[i].op].journalOnDisk, t.ops[t.acks[i].op].journal)
  {
    hide Valid, Extends;
    assert AckOk(t.ops, t.acks[i]);
    EntryJournalValid(t, t.acks[i].op);
  }

  lemma ExtendsKeepsLast(j: Journal, k: Journal)
    requires Extends(j, k)
    ensures LastRecordKept(j, k)
  {
  }

  /** Of two requests that named the same generation of an operation at most one was
      acknowledged: no two acknowledgements of an operation share a generation. */
  lemma GenerationsAcknowledgedOnce(steps: seq<Step>, i: nat, k: nat)
    requires Runs(Init(), steps) && i < k < |StateAfter(Init(), steps).acks|
    requires StateAfter(Init(), steps).acks[i].op == StateAfter(Init(), steps).acks[k].op
    ensures StateAfter(Init(), steps).acks[i].journal.generation < StateAfter(Init(), steps).acks[k].journal.generation
  {
    hide Enabled, Valid, Extends, EntriesOk, SequencesOk, WriterOk;
    Reached(steps);
  }

  /** A request is answered with the generation after the one it named. */
  lemma AnswersNextGeneration(s: System, op: Name, r: CheckpointRequest)
    requires Inv(s) && Enabled(s, StartCheckpoint(op, r))
    ensures Apply(s, StartCheckpoint(op, r)).writer.next.value.generation == r.expected + 1
  {
    hide Valid, Extends, NextSequence, TracesOk, SequencesOk, WriterOk;
    EntryJournalValid(s, op);
    NextJournalExtends(s.ops[op].counter, s.ops[op].journal, r);
  }

  /** Killed or cut off at any point, a write leaves the old journal or the new one, whole. Only
      before its own first directory sync can a power loss bring back an older one, which then
      was never synced and which the old one extends. */
  lemma WriteIsAllOrNothing(steps: seq<Step>, crash: Step)
    requires Runs(Init(), steps) && StateAfter(Init(), steps).writer.Writing?
    requires crash.Kill? || crash.PowerLoss?
    ensures var s := StateAfter(Init(), steps);
      var w, t := s.writer, Apply(s, crash);
      w.op in s.ops && (w.op in t.ops ==>
        var j := t.ops[w.op].journal;
        && Valid(j)
        && (|| j == w.base
            || (w.next.Some? && j == w.next.value)
            || (crash.PowerLoss? && w.phase in {Ready, CounterRenamed} && j == s.ops[w.op].journalOnDisk && Extends(j, w.base))))
  {
    hide Valid, Extends, TracesOk, SequencesOk, ScanOk;
    Reached(steps);
    var s := StateAfter(Init(), steps);
    EntryJournalValid(s, s.writer.op);
    assert WritingOk(s, s.writer);
  }

  // --- One open transaction at a time.

  predicate SingleOpen(s: System) {
    forall m, n :: m in s.ops && n in s.ops && OpenTransaction(s.ops[m].journal) && OpenTransaction(s.ops[n].journal) ==> m == n
  }

  /** At most one operation is an unfinished transaction by what is on disk. */
  predicate DurablySingle(s: System) {
    forall m, n :: m in s.ops && n in s.ops && OpenTransaction(s.ops[m].journalOnDisk) && OpenTransaction(s.ops[n].journalOnDisk)
      ==> m == n
  }

  /** While a begin creates a transaction, no other one is open. */
  predicate BeginAlone(s: System) {
    s.writer.Creating? && s.writer.first.kind == Transaction ==>
      forall n :: n in s.ops && n != s.writer.created ==> !OpenTransaction(s.ops[n].journal)
  }

  lemma OnlyOpenIsWritten(j: Journal, k: Journal)
    requires Extends(j, k)
    ensures OpenTransaction(k) ==> OpenTransaction(j)
  {
    if |j.checkpoints| > 0 && Finished(j) {
      ClosedIsFinal(j, k);
    }
  }

  /** Only the rename of a begin adds an entry. */
  lemma {:induction false} StepAdds(s: System, step: Step, n: Name)
    requires Enabled(s, step) && n in Apply(s, step).ops && n !in s.ops
    ensures step.RenameStaging? && s.writer.Creating? && n == s.writer.created
    ensures Apply(s, step).ops[n].journal == Apply(s, step).ops[n].journalOnDisk == s.writer.first
  {
    hide Valid, NextJournal, NextSequence, Abandon, FirstJournal, Active, Blocked, Answered;
  }

  /** No step reopens a transaction, and only the rename of a begin adds one. */
  lemma {:induction false} StepOpensNone(s: System, step: Step, n: Name)
    requires Inv(s) && Enabled(s, step) && !step.PowerLoss?
    ensures var t := Apply(s, step);
      && (n in s.ops ==> n in t.ops && (OpenTransaction(t.ops[n].journal) ==> OpenTransaction(s.ops[n].journal)))
      && (n in t.ops && n !in s.ops ==>
            step.RenameStaging? && s.writer.Creating? && n == s.writer.created && t.ops[n].journal == s.writer.first)
  {
    hide Inv, Enabled, Apply, Extends, OpenTransaction;
    if n in s.ops {
      StepGrowsVisibly(s, step, n);
      OnlyOpenIsWritten(s.ops[n].journal, Apply(s, step).ops[n].journal);
    } else if n in Apply(s, step).ops {
      StepAdds(s, step, n);
    }
  }

  /** A begin creates a transaction only while no other one is open, and nothing opens one beside
      it: so at every point of every run, power losses included. */
  lemma StepKeepsAlone(s: System, step: Step)
    requires Inv(s) && Enabled(s, step) && BeginAlone(s)
    ensures BeginAlone(Apply(s, step))
  {
    hide Inv, NextJournal, NextSequence, Abandon, FirstJournal, OpenTransaction, Active;
    if step.StartCreate? {
      CreatesAlone(s, step);
    } else if !step.PowerLoss? {
      forall n {
        StepOpensNone(s, step, n);
      }
    }
  }

  lemma CreatesAlone(s: System, step: Step)
    requires Inv(s) && Enabled(s, step) && step.StartCreate?
    ensures BeginAlone(Apply(s, step))
  {
    hide Valid, Extends, TracesOk, SequencesOk, EntriesOk, FirstJournal, OpenTransaction, Active;
    FirstJournalFacts(Apply(s, step).writer.created, s.writer.goal.request);
  }

  lemma LegacyIsNoTransaction(j: Journal)
    ensures j.kind == Legacy ==> !OpenTransaction(j)
  {
  }

  lemma VisiblyOpenIsOnDisk(s: System, n: Name)
    requires Inv(s) && n in s.ops
    ensures OpenTransaction(s.ops[n].journal) ==> OpenTransaction(s.ops[n].journalOnDisk)
  {
    hide Valid, Extends, TracesOk, SequencesOk, WriterOk, OpenTransaction;
    EntryJournalValid(s, n);
    OnlyOpenIsWritten(s.ops[n].journalOnDisk, s.ops[n].journal);
  }

  /** The power loss takes back the closing record of a transaction, which was not on disk. */
  predicate Reopens(s: System, cut: Step, n: Name)
    requires cut.PowerLoss?
  {
    && n in s.ops && n in Survivors(s, cut.names) && n in cut.journals
    && OpenTransaction(s.ops[n].journalOnDisk) && !OpenTransaction(s.ops[n].journal)
  }

  /** A power loss reopens no transaction beside another that it leaves open or reopens. */
  predicate Harmless(s: System, step: Step) {
    step.PowerLoss? ==>
      forall m, n :: n in s.ops && Reopens(s, step, n) && m in Survivors(s, step.names) && m != n ==>
        m in s.ops && !OpenTransaction(s.ops[m].journal) && !Reopens(s, step, m)
  }

  lemma OpenAfterCut(s: System, cut: Step, n: Name)
    requires Inv(s) && Enabled(s, cut) && cut.PowerLoss? && n in s.ops && n in Survivors(s, cut.names)
    ensures n in Apply(s, cut).ops
    ensures OpenTransaction(Apply(s, cut).ops[n].journal) <==> OpenTransaction(s.ops[n].journal) || Reopens(s, cut, n)
  {
    hide Inv, OpenTransaction;
    VisiblyOpenIsOnDisk(s, n);
  }

  lemma CutIsHarmlessExactly(s: System, cut: Step)
    requires Inv(s) && Enabled(s, cut) && SingleOpen(s) && cut.PowerLoss?
    ensures SingleOpen(Apply(s, cut)) <==> Harmless(s, cut)
  {
    hide Inv, OpenTransaction, Reopens;
    var t := Apply(s, cut);
    assert t.ops.Keys == Survivors(s, cut.names);
    forall n | n in s.ops && n in Survivors(s, cut.names)
      ensures OpenTransaction(t.ops[n].journal) <==> OpenTransaction(s.ops[n].journal) || Reopens(s, cut, n)
    {
      OpenAfterCut(s, cut, n);
    }
    assert forall n :: n in s.ops && Reopens(s, cut, n) ==> n in Survivors(s, cut.names) by { ReopenedSurvives(s, cut); }
  }

  lemma ReopenedSurvives(s: System, cut: Step)
    requires cut.PowerLoss?
    ensures forall n :: n in s.ops && Reopens(s, cut, n) ==> n in Survivors(s, cut.names)
  {
    hide OpenTransaction;
  }

  /** From a state with at most one unfinished transaction a step leads to one exactly when it is
      not a power loss that reopens one beside another. */
  lemma StepKeepsSingle(s: System, step: Step)
    requires Inv(s) && Enabled(s, step) && SingleOpen(s) && BeginAlone(s)
    ensures SingleOpen(Apply(s, step)) <==> Harmless(s, step)
  {
    hide Inv, NextJournal, NextSequence, Abandon, FirstJournal, OpenTransaction, Active;
    if step.PowerLoss? {
      CutIsHarmlessExactly(s, step);
    } else {
      forall n {
        StepOpensNone(s, step, n);
      }
      if step.RenameStaging? {
        LegacyIsNoTransaction(s.writer.first);
      }
    }
  }

  /** In every state of the run at most one transaction is unfinished. */
  predicate AlwaysSingle(s: System, steps: seq<Step>)
    requires Runs(s, steps)
    decreases |steps|
  {
    SingleOpen(s) && (steps == [] || AlwaysSingle(Apply(s, steps[0]), steps[1..]))
  }

  /** No power loss of the run reopens a transaction beside another. */
  predicate HarmlessCuts(s: System, steps: seq<Step>)
    requires Runs(s, steps)
    decreases |steps|
  {
    steps == [] || (Harmless(s, steps[0]) && HarmlessCuts(Apply(s, steps[0]), steps[1..]))
  }

  lemma {:induction false} RunKeepsSingle(s: System, steps: seq<Step>)
    requires Inv(s) && SingleOpen(s) && BeginAlone(s) && Runs(s, steps)
    ensures AlwaysSingle(s, steps) <==> HarmlessCuts(s, steps)
    decreases |steps|
  {
    hide Inv, Enabled, SingleOpen, BeginAlone, Harmless;
    if steps != [] {
      var t := Apply(s, steps[0]);
      StepKeepsInv(s, steps[0]);
      StepKeepsAlone(s, steps[0]);
      StepKeepsSingle(s, steps[0]);
      if SingleOpen(t) {
        RunKeepsSingle(t, steps[1..]);
      } else {
        NotSingleAtOnce(t, steps[1..]);
      }
    }
  }

  lemma NotSingleAtOnce(s: System, steps: seq<Step>)
    requires Runs(s, steps) && !SingleOpen(s)
    ensures !AlwaysSingle(s, steps)
  {
    hide SingleOpen, Enabled, Apply;
  }

  lemma {:induction false} RunKeepsAlone(s: System, steps: seq<Step>)
    requires Inv(s) && BeginAlone(s) && Runs(s, steps)
    ensures BeginAlone(StateAfter(s, steps))
    decreases |steps|
  {
    hide Inv, Enabled, BeginAlone;
    if steps != [] {
      StepKeepsInv(s, steps[0]);
      StepKeepsAlone(s, steps[0]);
      RunKeepsAlone(Apply(s, steps[0]), steps[1..]);
    }
  }

  /** Every state of a run has at most one unfinished transaction if and only if no power loss of it
      reopens one beside another: nothing else the utility or its environment does leads there. */
  lemma AtMostOneOpenTransaction(steps: seq<Step>)
    requires Runs(Init(), steps)
    ensures AlwaysSingle(Init(), steps) <==> HarmlessCuts(Init(), steps)
  {
    hide Enabled;
    InitInv();
    RunKeepsSingle(Init(), steps);
  }

  // --- Begin.

  /** When a begin is about to answer, its operation is in place, durable and in progress, and no
      other record it read is, unless that has run out of numbers or lost its counter since. A
      begin of a transaction has read every other record. */
  lemma BeginLeavesOneInProgress(steps: seq<Step>)
    requires Runs(Init(), steps) && StateAfter(Init(), steps).writer.Creating? && StateAfter(Init(), steps).writer.stage == Told
    ensures var s := StateAfter(Init(), steps);
      var w := s.writer;
      && w.created in s.ops && s.ops[w.created].named && s.ops[w.created].journal == s.ops[w.created].journalOnDisk == w.first
      && Valid(w.first) && Active(w.first)
      && (forall n :: n in w.cleared.seen && n in s.ops && Active(s.ops[n].journal) ==> n in s.lost || Exhausted(s.ops[n]))
      && (w.first.kind == Transaction ==> forall n :: n in s.ops && n != w.created ==> n in w.cleared.seen)
  {
    hide Valid, Extends, EntriesOk, TracesOk, SequencesOk, Active, Enabled, Exhausted;
    Reached(steps);
  }

  /** Over every run, reconciliation leaves a record in progress only when a number its next record
      would need is out of range, or was when its counter was still there. */
  lemma OnlyExhaustedIsLeft(steps: seq<Step>, n: Name)
    requires Runs(Init(), steps) && StateAfter(Init(), steps).writer.Reconciling?
    requires StateAfter(Init(), steps).writer.scan.todo == {} && n in StateAfter(Init(), steps).writer.scan.seen
    requires StateAfter(Init(), steps).writer.scan.mine != Some(n)
    ensures var s := StateAfter(Init(), steps);
      n in s.ops && (Active(s.ops[n].journal) ==> n in s.lost || Exhausted(s.ops[n]))
  {
    hide Valid, Extends, EntriesOk, TracesOk, SequencesOk, Active, Enabled, Exhausted;
    Reached(steps);
  }

  /** A begin cut off at any point leaves no operation, or a complete valid one whose identifier
      was in use by nothing before. */
  lemma BeginIsAllOrNothing(steps: seq<Step>, crash: Step)
    requires Runs(Init(), steps) && StateAfter(Init(), steps).writer.Creating?
    requires crash.Kill? || crash.PowerLoss?
    ensures var s := StateAfter(Init(), steps);
      var w, t := s.writer, Apply(s, crash);
      && (w.stage == Built ==> w.created !in s.ops && w.created !in t.ops)
      && (w.created in t.ops ==> t.ops[w.created].journal == w.first && Valid(w.first)
                                 && w.first.operation == w.created && w.first.generation == 1)
      && (w.stage in {Durable, Told} ==> w.created in t.ops)
  {
    hide Valid, Extends, TracesOk, SequencesOk, ScanOk;
    Reached(steps);
  }
}
