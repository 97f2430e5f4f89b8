/** Every step keeps the invariant, one lemma a step. */
module ProtocolSteps {
  import opened Options
  import opened Journal
  import opened Writes
  import opened Protocol
  import opened ProtocolInvariant
  import OperationIds

  lemma ExtendsFacts(j: Journal, k: Journal)
    requires Extends(j, k)
    ensures LastSequence(j) <= LastSequence(k) && j.generation <= k.generation
    ensures |j.checkpoints| > 0 && |k.checkpoints| > 0 && j.operation == k.operation
  {
  }

  lemma SpentIsAbove(counter: nat, j: Journal)
    requires Valid(j)
    ensures |j.checkpoints| > 0
    ensures NextSequence(counter, j) > counter && NextSequence(counter, j) > LastSequence(j) >= 1
  {
    NextSequenceIsNew(counter, j);
  }

  /** Taking the lock for a write: the number it will spend is above everything in use. */
  lemma WriteStarts(s: System, op: Name, spent: int, next: Option<Journal>, after: After)
    requires Inv(s) && op in s.ops && Valid(s.ops[op].journal)
    requires |s.ops[op].journal.checkpoints| > 0 && spent == NextSequence(s.ops[op].counter, s.ops[op].journal)
    requires next.Some? ==> NextOk(s.ops[op].journal, next.value, spent)
    requires next.None? ==> after.Reply?
    requires after.Reply? ==> s.ops[op].named
    requires after.Resume? ==>
      && next.Some? && !Active(next.value) && ScanOk(s, after.rest, {op}) && op !in after.rest.todo
      && (after.upTo.BeginGoal? ==> after.rest.mine.None?)
    ensures Inv(s.(writer := Writing(op, s.ops[op].journal, spent, next, Ready, after)))
  {
    hide Valid, Extends, NextSequence;
    var e := s.ops[op];
    assert EntryOk(op, e, op in s.lost);
    SpentIsAbove(e.counter, e.journal);
    ExtendsFacts(e.journalOnDisk, e.journal);
    forall i | 0 <= i < |s.acks| && s.acks[i].op == op
      ensures s.acks[i].journal.generation <= e.journal.generation
    {
      assert AckOk(s.ops, s.acks[i]);
      ExtendsFacts(s.acks[i].journal, e.journalOnDisk);
    }
    forall i | 0 <= i < |s.events| && s.events[i].op == op
      ensures op !in s.lost ==> s.events[i].sequence < spent
      ensures s.events[i].checkpoint ==> s.events[i].sequence < spent
    {
      assert EventOk(s.ops, s.lost, s.events[i]);
    }
  }

  lemma AnsweredIsNamed(s: System, op: Name)
    requires Inv(s) && Answered(s, op)
    ensures op in s.ops && s.ops[op].named
  {
    hide Valid, Extends;
    var i :| 0 <= i < |s.acks| && s.acks[i].op == op;
    assert AckOk(s.ops, s.acks[i]);
  }

  lemma KeepsStartCheckpoint(s: System, op: Name, r: CheckpointRequest)
    requires Inv(s) && Enabled(s, StartCheckpoint(op, r))
    ensures Inv(Apply(s, StartCheckpoint(op, r)))
  {
    hide Valid, Extends, NextSequence, NextJournal, WriterOk, TracesOk, SequencesOk, EntryOk;
    var e := s.ops[op];
    EntryJournalValid(s, op);
    var k := NextJournal(e.counter, e.journal, r).value;
    NextJournalExtends(e.counter, e.journal, r);
    ExtendsFacts(e.journal, k);
    NextIsOk(e.counter, e.journal, k);
    AnsweredIsNamed(s, op);
    WriteStarts(s, op, NextSequence(e.counter, e.journal), Some(k), Reply);
  }

  lemma EntryJournalValid(s: System, op: Name)
    requires EntriesOk(s) && op in s.ops
    ensures Valid(s.ops[op].journal) && Valid(s.ops[op].journalOnDisk)
    ensures Extends(s.ops[op].journalOnDisk, s.ops[op].journal)
    ensures s.ops[op].journal.operation == op
  {
    hide Valid, Extends;
  }

  lemma NextIsOk(counter: nat, j: Journal, k: Journal)
    requires |j.checkpoints| > 0 && |k.checkpoints| > 0
    requires Valid(k) && Extends(j, k) && k.generation == j.generation + 1 && Last(k).sequence == NextSequence(counter, j)
    ensures NextOk(j, k, NextSequence(counter, j))
  {
    hide Valid, Extends, NextSequence;
  }

  lemma KeepsStartEmit(s: System, op: Name)
    requires Inv(s) && Enabled(s, StartEmit(op))
    ensures Inv(Apply(s, StartEmit(op)))
  {
    hide Valid, Extends, NextSequence, WriterOk, TracesOk, SequencesOk, EntryOk;
    var e := s.ops[op];
    EntryJournalValid(s, op);
    AnsweredIsNamed(s, op);
    WriteStarts(s, op, NextSequence(e.counter, e.journal), None, Reply);
  }

  lemma KeepsAbandonOne(s: System, op: Name, stamp: int)
    requires Inv(s) && Enabled(s, AbandonOne(op, stamp))
    ensures Inv(Apply(s, AbandonOne(op, stamp)))
  {
    hide Valid, Extends, NextSequence, TracesOk, SequencesOk, EntryOk, Walk;
    var e := s.ops[op];
    EntryJournalValid(s, op);
    assert ScanOk(s, s.writer.scan, {});
    assert Active(e.journal);
    AbandonIsLegal(e.counter, e.journal, stamp);
    NextIsOk(e.counter, e.journal, Abandon(e.counter, e.journal, stamp));
    var rest := s.writer.scan.(todo := s.writer.scan.todo - {op});
    assert ScanOk(s, rest, {op});
    WriteStarts(s, op, NextSequence(e.counter, e.journal), Some(Abandon(e.counter, e.journal, stamp)),
                Resume(rest, s.writer.goal));
  }

  // --- The durable actions of a write.

  /** Changing one directory keeps everything outside the request in flight, as long as what is
      on disk only grows. */
  lemma EntryChanged(s: System, t: System, op: Name, f: Entry)
    requires EntriesOk(s) && TracesOk(s) && SequencesOk(s) && op in s.ops && op in t.used
    requires t.ops == s.ops[op := f] && t.events == s.events && t.acks == s.acks && t.lost == s.lost
    requires t.used == s.used[op := t.used[op]]
    requires EntryOk(op, f, op in s.lost) && f.named == s.ops[op].named
    requires Extends(s.ops[op].journalOnDisk, f.journalOnDisk)
    requires op !in s.lost ==> s.ops[op].counterOnDisk <= f.counterOnDisk && UsedOk(f, t.used[op])
    ensures EntriesOk(t) && TracesOk(t) && SequencesOk(t)
  {
    hide Valid, Extends, EntryOk, UsedOk;
    ExtendsFacts(s.ops[op].journalOnDisk, f.journalOnDisk);
    forall i | 0 <= i < |t.events| ensures EventOk(t.ops, t.lost, t.events[i]) {
      assert EventOk(s.ops, s.lost, s.events[i]);
    }
    forall i | 0 <= i < |t.acks| ensures AckOk(t.ops, t.acks[i]) {
      assert AckOk(s.ops, s.acks[i]);
      if t.acks[i].op == op {
        ExtendsTransitive(s.acks[i].journal, s.ops[op].journalOnDisk, f.journalOnDisk);
      }
    }
  }

  /** The records other than that of `op` did not change, so neither did the rest of a scan. */
  lemma ScanBusy(s: System, t: System, scan: Scan, op: Name)
    requires ScanOk(s, scan, {op}) && op !in scan.todo && op in s.ops
    requires t.ops.Keys == s.ops.Keys && t.lost == s.lost && forall n :: n in s.ops && n != op ==> t.ops[n] == s.ops[n]
    ensures ScanOk(t, scan, {op})
  {
    hide Active, Exhausted;
  }

  lemma KeepsRenameCounter(s: System)
    requires Inv(s) && Enabled(s, RenameCounter)
    ensures Inv(Apply(s, RenameCounter))
  {
    hide Valid, Extends, ScanOk, TracesOk;
    var t, op := Apply(s, RenameCounter), s.writer.op;
    var e := s.ops[op];
    assert EntryOk(op, e, op in s.lost);
    ExtendsFacts(e.journalOnDisk, e.journal);
    ExtendsItself(e.journalOnDisk);
    EntryChanged(s, t, op, t.ops[op]);
    if s.writer.after.Resume? {
      ScanBusy(s, t, s.writer.after.rest, op);
    }
    assert WritingOk(t, t.writer);
  }

  lemma SyncKeepsRecords(s: System)
    requires Inv(s) && Enabled(s, SyncDirectory)
    ensures var t := Apply(s, SyncDirectory); EntriesOk(t) && TracesOk(t) && SequencesOk(t)
  {
    hide Valid, Extends, ScanOk, TracesOk;
    var t, op := Apply(s, SyncDirectory), s.writer.op;
    var e := s.ops[op];
    assert EntryOk(op, e, op in s.lost);
    ExtendsFacts(e.journalOnDisk, e.journal);
    ExtendsItself(e.journal);
    EntryChanged(s, t, op, t.ops[op]);
  }

  lemma KeepsSyncDirectory(s: System)
    requires Inv(s) && Enabled(s, SyncDirectory)
    ensures Inv(Apply(s, SyncDirectory))
  {
    hide Valid, Extends, ScanOk, EntriesOk, TracesOk, SequencesOk;
    var t, op := Apply(s, SyncDirectory), s.writer.op;
    SyncKeepsRecords(s);
    if s.writer.after.Resume? {
      ScanBusy(s, t, s.writer.after.rest, op);
    }
    assert WritingOk(t, t.writer);
  }

  lemma RenameJournalKeepsRecords(s: System)
    requires Inv(s) && Enabled(s, RenameJournal)
    ensures var t := Apply(s, RenameJournal); EntriesOk(t) && TracesOk(t) && SequencesOk(t)
  {
    hide Valid, Extends, ScanOk, TracesOk, UsedOk;
    var t, op := Apply(s, RenameJournal), s.writer.op;
    var e := s.ops[op];
    assert EntryOk(op, e, op in s.lost);
    ExtendsFacts(s.writer.base, s.writer.next.value);
    ExtendsItself(s.writer.base);
    assert EntryOk(op, t.ops[op], op in t.lost);
    if op !in s.lost {
      UsedSnoc(e, t.ops[op], s.used[op], s.writer.spent);
    }
    EntryChanged(s, t, op, t.ops[op]);
  }

  lemma KeepsRenameJournal(s: System)
    requires Inv(s) && Enabled(s, RenameJournal)
    ensures Inv(Apply(s, RenameJournal))
  {
    hide Valid, Extends, ScanOk, EntriesOk, TracesOk, SequencesOk;
    var t, op := Apply(s, RenameJournal), s.writer.op;
    RenameJournalKeepsRecords(s);
    if s.writer.after.Resume? {
      ScanBusy(s, t, s.writer.after.rest, op);
    }
    assert WritingOk(t, t.writer);
  }

  lemma UsedSnoc(e: Entry, f: Entry, xs: seq<int>, x: int)
    requires UsedOk(e, xs) && e.counterOnDisk <= f.counterOnDisk && x <= f.counterOnDisk
    requires forall i :: 0 <= i < |xs| ==> xs[i] < x
    ensures UsedOk(f, xs + [x])
  {
  }

  lemma EventsSnoc(events: seq<Event>, lost: set<Name>, ev: Event)
    requires EventsRise(events, lost)
    requires ev.op !in lost ==> forall i :: 0 <= i < |events| && events[i].op == ev.op ==> events[i].sequence < ev.sequence
    requires ev.checkpoint ==>
      forall i :: 0 <= i < |events| && events[i].op == ev.op && events[i].checkpoint ==> events[i].sequence < ev.sequence
    ensures EventsRise(events + [ev], lost)
  {
  }

  lemma TracesSnoc(s: System, t: System, ev: Event)
    requires TracesOk(s) && t.ops == s.ops && t.acks == s.acks && t.lost == s.lost
    requires t.events == s.events + [ev] && EventOk(s.ops, s.lost, ev) && EventsRise(t.events, t.lost)
    ensures TracesOk(t)
  {
    hide AckOk, AcksRise, EventsRise;
    forall i | 0 <= i < |t.events| ensures EventOk(t.ops, t.lost, t.events[i]) {
      if i < |s.events| {
        assert EventOk(s.ops, s.lost, s.events[i]);
      }
    }
  }

  lemma KeepsPutEventWriting(s: System)
    requires Inv(s) && Enabled(s, PutEvent) && s.writer.Writing?
    ensures Inv(Apply(s, PutEvent))
  {
    hide Valid, Extends, ScanOk, UsedOk, AckOk, AcksRise, EventsRise;
    var t, op := Apply(s, PutEvent), s.writer.op;
    assert EntryOk(op, s.ops[op], op in s.lost);
    var ev := Event(op, s.writer.spent, s.writer.next.Some?);
    EventsSnoc(s.events, s.lost, ev);
    TracesSnoc(s, t, ev);
    if s.writer.next.None? && op !in s.lost {
      UsedSnoc(s.ops[op], t.ops[op], s.used[op], s.writer.spent);
    }
    assert SequencesOk(t);
    assert WritingOk(t, t.writer);
  }

  lemma KeepsPutEventCreating(s: System)
    requires Inv(s) && Enabled(s, PutEvent) && s.writer.Creating?
    ensures Inv(Apply(s, PutEvent))
  {
    hide Valid, Extends, ScanOk, UsedOk, AckOk, AcksRise, EventsRise;
    var t, op := Apply(s, PutEvent), s.writer.created;
    assert EntryOk(op, s.ops[op], op in s.lost);
    var ev := Event(op, LastSequence(s.writer.first), true);
    EventsSnoc(s.events, s.lost, ev);
    TracesSnoc(s, t, ev);
    ScanFrameSameOps(s, t, s.writer.cleared, {op});
    assert CreatingOk(t, t.writer);
  }

  lemma ScanFrameSameOps(s: System, t: System, scan: Scan, busy: set<Name>)
    requires t.ops == s.ops && t.lost == s.lost && ScanOk(s, scan, busy)
    ensures ScanOk(t, scan, busy)
  {
  }

  lemma KeepsAnswer(s: System)
    requires Inv(s) && Enabled(s, Answer)
    ensures Inv(Apply(s, Answer))
  {
    hide Valid, Extends;
    var t := Apply(s, Answer);
    var op := if s.writer.Writing? then s.writer.op else s.writer.created;
    assert EntryOk(op, s.ops[op], op in s.lost);
    ExtendsFacts(s.ops[op].journalOnDisk, s.ops[op].journal);
    ExtendsItself(s.ops[op].journal);
    assert AcksRise(s.acks);
  }

  // --- Reconciliation and creation.

  lemma KeepsStartReconcile(s: System, bound: Option<Name>, goal: Goal)
    requires Inv(s) && Enabled(s, StartReconcile(bound, goal))
    ensures Inv(Apply(s, StartReconcile(bound, goal)))
  {
    hide Valid, Extends, EntryOk, EventOk, AckOk;
  }

  lemma KeepsSkipOne(s: System, op: Name)
    requires Inv(s) && Enabled(s, SkipOne(op))
    ensures Inv(Apply(s, SkipOne(op)))
  {
    hide Valid, Extends, EntryOk, EventOk, AckOk, NextSequence, Abandon;
    SkippedIsExhausted(s, op);
  }

  /** Reconciliation leaves a record only when a number it would need is out of range. */
  lemma SkippedIsExhausted(s: System, op: Name)
    requires Inv(s) && Enabled(s, SkipOne(op))
    ensures Exhausted(s.ops[op])
  {
    hide Valid, Extends, NextSequence, TracesOk, SequencesOk, EntryOk;
    EntryJournalValid(s, op);
    assert ScanOk(s, s.writer.scan, {});
    AbandonIsLegal(s.ops[op].counter, s.ops[op].journal, 0);
  }

  lemma KeepsStartCreate(s: System, number: nat)
    requires Inv(s) && Enabled(s, StartCreate(number))
    ensures Inv(Apply(s, StartCreate(number)))
  {
    hide Valid, Extends, EntryOk, EventOk, AckOk, FirstJournal, OperationIds.IsHighest, OperationIds.OperationName, Active;
    var day := s.writer.goal.day;
    var op := OperationIds.OperationName(day, number);
    OperationIds.AllocatedIsFresh(s.ops.Keys + s.junk, day, number - 1);
    FirstJournalFacts(op, s.writer.goal.request);
    assert ScanOk(s, s.writer.scan, {});
  }

  lemma FirstJournalFacts(op: Name, r: BeginRequest)
    requires FirstJournal(op, r).Ok?
    ensures var j := FirstJournal(op, r).value;
      Valid(j) && j.operation == op && LastSequence(j) == 1 && j.generation == 1 && j.kind == r.kind && Active(j)
  {
    FirstJournalIsLegal(op, r);
  }

  /** A new directory changes nothing about the others. */
  lemma EntryAdded(s: System, t: System, op: Name, f: Entry)
    requires EntriesOk(s) && TracesOk(s) && SequencesOk(s) && op !in s.ops && op in t.used
    requires t.ops == s.ops[op := f] && t.events == s.events && t.acks == s.acks && t.lost == s.lost
    requires t.used == s.used[op := t.used[op]] && EntryOk(op, f, op in s.lost) && UsedOk(f, t.used[op])
    ensures EntriesOk(t) && TracesOk(t) && SequencesOk(t)
    ensures forall i :: 0 <= i < |t.events| ==> t.events[i].op != op
    ensures forall i :: 0 <= i < |t.acks| ==> t.acks[i].op != op
  {
    hide Valid, Extends, EntryOk, UsedOk;
    forall i | 0 <= i < |t.events| ensures EventOk(t.ops, t.lost, t.events[i]) && t.events[i].op != op {
      assert EventOk(s.ops, s.lost, s.events[i]);
    }
    forall i | 0 <= i < |t.acks| ensures AckOk(t.ops, t.acks[i]) && t.acks[i].op != op {
      assert AckOk(s.ops, s.acks[i]);
    }
  }

  lemma KeepsRenameStaging(s: System)
    requires Inv(s) && Enabled(s, RenameStaging)
    ensures Inv(Apply(s, RenameStaging))
  {
    hide Valid, Extends, TracesOk, ScanOk;
    var t, op := Apply(s, RenameStaging), s.writer.created;
    ExtendsItself(s.writer.first);
    assert EntryOk(op, t.ops[op], op in t.lost);
    EntryAdded(s, t, op, t.ops[op]);
    ScanAdded(s, t, s.writer.cleared, op);
    assert CreatingOk(t, t.writer);
  }

  lemma ScanAdded(s: System, t: System, scan: Scan, op: Name)
    requires ScanOk(s, scan, {op}) && op !in s.ops
    requires t.lost == s.lost && forall n :: n in s.ops ==> n in t.ops && t.ops[n] == s.ops[n]
    ensures ScanOk(t, scan, {op})
  {
    hide Active, Exhausted;
  }

  lemma KeepsSyncNames(s: System)
    requires Inv(s) && Enabled(s, SyncNames)
    ensures Inv(Apply(s, SyncNames))
  {
    hide Valid, Extends;
    var t := Apply(s, SyncNames);
    assert t.ops.Keys == s.ops.Keys;
    forall i | 0 <= i < |t.events| ensures EventOk(t.ops, t.lost, t.events[i]) {
      assert EventOk(s.ops, s.lost, s.events[i]);
    }
    forall i | 0 <= i < |t.acks| ensures AckOk(t.ops, t.acks[i]) {
      assert AckOk(s.ops, s.acks[i]);
    }
    forall n | n in t.ops ensures EntryOk(n, t.ops[n], n in t.lost) {
      assert EntryOk(n, s.ops[n], n in s.lost);
    }
    assert SequencesOk(t);
    assert CreatingOk(t, t.writer);
  }

  // --- The environment.

  lemma KeepsFreeing(s: System)
    requires Inv(s)
    ensures Inv(s.(writer := Free))
  {
    hide Valid, Extends, EntryOk, EventOk, AckOk;
  }

  /** `t` differs from `s` only in what may be read, in the counters of lost operations, and in
      what the disk has caught up with. */
  predicate SameRecords(s: System, t: System) {
    && t.writer == s.writer && t.events == s.events && t.acks == s.acks && t.used == s.used
    && t.ops.Keys == s.ops.Keys && s.lost <= t.lost
    && forall n :: n in s.ops ==>
      && t.ops[n].journal == s.ops[n].journal
      && (t.ops[n].journalOnDisk == s.ops[n].journalOnDisk || t.ops[n].journalOnDisk == s.ops[n].journal)
      && (s.ops[n].named ==> t.ops[n].named)
      && (n !in t.lost ==> t.ops[n].counter == s.ops[n].counter)
      && (n !in t.lost ==> t.ops[n].counterOnDisk == s.ops[n].counterOnDisk || t.ops[n].counterOnDisk == s.ops[n].counter)
  }

  lemma ScanFrame(s: System, t: System, scan: Scan, busy: set<Name>)
    requires SameRecords(s, t) && ScanOk(s, scan, busy)
    ensures ScanOk(t, scan, busy)
  {
    hide Active;
  }

  lemma WritingFrame(s: System, t: System)
    requires SameRecords(s, t) && s.writer.Writing? && WritingOk(s, s.writer)
    ensures WritingOk(t, t.writer)
  {
    hide Valid, Extends, ScanOk;
    if s.writer.after.Resume? {
      ScanFrame(s, t, s.writer.after.rest, {s.writer.op});
    }
  }

  lemma CreatingFrame(s: System, t: System)
    requires SameRecords(s, t) && s.writer.Creating? && CreatingOk(s, s.writer)
    ensures CreatingOk(t, t.writer)
  {
    hide Valid, Extends, ScanOk;
    ScanFrame(s, t, s.writer.cleared, {s.writer.created});
  }

  lemma SameEntry(s: System, t: System, n: Name)
    requires EntriesOk(s) && SameRecords(s, t) && n in s.ops
    ensures EntryOk(n, t.ops[n], n in t.lost) && Extends(s.ops[n].journalOnDisk, t.ops[n].journalOnDisk)
    ensures LastSequence(s.ops[n].journalOnDisk) <= LastSequence(t.ops[n].journalOnDisk)
    ensures n !in t.lost ==> s.ops[n].counterOnDisk <= t.ops[n].counterOnDisk
  {
    hide Valid, Extends;
    var e := s.ops[n];
    assert EntryOk(n, e, n in s.lost);
    ExtendsFacts(e.journalOnDisk, e.journal);
    ExtendsItself(e.journalOnDisk);
    ExtendsItself(e.journal);
  }

  lemma KeepsSameRecords(s: System, t: System)
    requires Inv(s) && SameRecords(s, t)
    ensures Inv(t)
  {
    hide Valid, Extends, WritingOk, CreatingOk, EntryOk, Active, Exhausted;
    forall n | n in s.ops
      ensures EntryOk(n, t.ops[n], n in t.lost) && Extends(s.ops[n].journalOnDisk, t.ops[n].journalOnDisk)
      ensures LastSequence(s.ops[n].journalOnDisk) <= LastSequence(t.ops[n].journalOnDisk)
      ensures n !in t.lost ==> s.ops[n].counterOnDisk <= t.ops[n].counterOnDisk
    {
      SameEntry(s, t, n);
    }
    forall i | 0 <= i < |t.events| ensures EventOk(t.ops, t.lost, t.events[i]) {
      assert EventOk(s.ops, s.lost, s.events[i]);
    }
    forall i | 0 <= i < |t.acks| ensures AckOk(t.ops, t.acks[i]) {
      assert AckOk(s.ops, s.acks[i]);
      var op := s.acks[i].op;
      ExtendsTransitive(s.acks[i].journal, s.ops[op].journalOnDisk, t.ops[op].journalOnDisk);
    }
    if s.writer.Writing? {
      WritingFrame(s, t);
    } else if s.writer.Creating? {
      CreatingFrame(s, t);
    } else if s.writer.Reconciling? {
      ScanFrame(s, t, s.writer.scan, {});
    }
  }

  lemma KeepsLoseCounter(s: System, op: Name)
    requires Inv(s) && Enabled(s, LoseCounter(op))
    ensures Inv(Apply(s, LoseCounter(op)))
  {
    hide Inv;
    KeepsSameRecords(s, Apply(s, LoseCounter(op)));
  }

  lemma KeepsSetReadable(s: System, op: Name, readable: bool, newer: bool)
    requires Inv(s) && Enabled(s, SetReadable(op, readable, newer))
    ensures Inv(Apply(s, SetReadable(op, readable, newer)))
  {
    hide Inv;
    KeepsSameRecords(s, Apply(s, SetReadable(op, readable, newer)));
  }

  lemma KeepsSetJunk(s: System, names: set<Name>)
    requires Inv(s)
    ensures Inv(s.(junk := names))
  {
    hide Valid, Extends, EntryOk, EventOk, AckOk;
  }

  lemma KeepsWriteBack(s: System, op: Name, counter: bool, journal: bool, name: bool)
    requires Inv(s) && Enabled(s, WriteBack(op, counter, journal, name))
    ensures Inv(Apply(s, WriteBack(op, counter, journal, name)))
  {
    hide Inv;
    KeepsSameRecords(s, Apply(s, WriteBack(op, counter, journal, name)));
  }

  lemma SurvivorOk(n: Name, e: Entry, lost: bool, dropCounter: bool, dropJournal: bool)
    requires EntryOk(n, e, lost)
    ensures var f := Survivor(e, dropCounter, dropJournal);
      && EntryOk(n, f, lost) && Extends(e.journalOnDisk, f.journalOnDisk)
      && LastSequence(e.journalOnDisk) <= LastSequence(f.journalOnDisk)
      && (!lost ==> e.counterOnDisk <= f.counterOnDisk)
  {
    hide Valid, Extends;
    ExtendsFacts(e.journalOnDisk, e.journal);
    ExtendsItself(e.journal);
    ExtendsItself(e.journalOnDisk);
  }

  lemma KeepsPowerLoss(s: System, counters: set<Name>, journals: set<Name>, names: set<Name>)
    requires Inv(s)
    ensures Inv(Apply(s, PowerLoss(counters, journals, names)))
  {
    hide Valid, Extends;
    var t := Apply(s, PowerLoss(counters, journals, names));
    forall n | n in t.ops
      ensures EntryOk(n, t.ops[n], n in t.lost)
      ensures n !in t.lost ==> UsedOk(t.ops[n], t.used[n])
    {
      SurvivorOk(n, s.ops[n], n in s.lost, n in counters, n in journals);
    }
    forall i | 0 <= i < |t.events| ensures EventOk(t.ops, t.lost, t.events[i]) {
      var op := s.events[i].op;
      assert EventOk(s.ops, s.lost, s.events[i]);
      assert op in Survivors(s, names);
      SurvivorOk(op, s.ops[op], op in s.lost, op in counters, op in journals);
    }
    forall i | 0 <= i < |t.acks| ensures AckOk(t.ops, t.acks[i]) {
      var op := s.acks[i].op;
      assert AckOk(s.ops, s.acks[i]);
      assert op in Survivors(s, names);
      SurvivorOk(op, s.ops[op], op in s.lost, op in counters, op in journals);
      ExtendsTransitive(s.acks[i].journal, s.ops[op].journalOnDisk, t.ops[op].journalOnDisk);
    }
    assert EventsRise(t.events, t.lost) by {
      assert forall i :: 0 <= i < |s.events| ==> s.events[i].op in t.ops;
      assert EventsRise(s.events, s.lost);
    }
    assert t.used.Keys == t.ops.Keys;
  }

  /** The induction step: whatever happens next, the invariant survives it. */
  lemma StepKeepsInv(s: System, step: Step)
    requires Inv(s) && Enabled(s, step)
    ensures Inv(Apply(s, step))
  {
    hide Inv;
    match step
    case StartCheckpoint(op, r) => KeepsStartCheckpoint(s, op, r);
    case StartEmit(op) => KeepsStartEmit(s, op);
    case StartReconcile(bound, goal) => KeepsStartReconcile(s, bound, goal);
    case RenameCounter => KeepsRenameCounter(s);
    case SyncDirectory => KeepsSyncDirectory(s);
    case RenameJournal => KeepsRenameJournal(s);
    case PutEvent => if s.writer.Writing? { KeepsPutEventWriting(s); } else { KeepsPutEventCreating(s); }
    case Answer => KeepsAnswer(s);
    case AbandonOne(op, stamp) => KeepsAbandonOne(s, op, stamp);
    case SkipOne(op) => KeepsSkipOne(s, op);
    case StartCreate(number) => KeepsStartCreate(s, number);
    case RenameStaging => KeepsRenameStaging(s);
    case SyncNames => KeepsSyncNames(s);
    case Kill => KeepsFreeing(s);
    case LoseCounter(op) => KeepsLoseCounter(s, op);
    case SetReadable(op, readable, newer) => KeepsSetReadable(s, op, readable, newer);
    case SetJunk(names) => KeepsSetJunk(s, names);
    case WriteBack(op, counter, journal, name) => KeepsWriteBack(s, op, counter, journal, name);
    case PowerLoss(counters, journals, names) => KeepsPowerLoss(s, counters, journals, names);
  }
}
