/** The write requests of the state utility, each a straight run of protocol steps under the
    writer lock. `history` is the run so far, so everything proved of runs holds of every
    state an object of this class goes through. */
module Handlers {
  import opened Options
  import opened Texts
  import opened Journal
  import opened Writes
  import opened Protocol
  import opened ProtocolInvariant
  import opened ProtocolSteps
  import opened ProtocolRuns
  import opened ProtocolPower
  import OperationIds
  import Retention

  /** Why a record that requires inspection is refused. */
  function Inspection(e: Entry): ExitName {
    if !e.readable && e.newer then UNSUPPORTED else MANUAL
  }

  /** The journal a checkpoint request is acknowledged with, or its refusal. */
  function CheckpointReply(s: System, bound: Option<Name>, op: Name, r: CheckpointRequest): Result<Journal> {
    if bound != Some(op) || op !in s.ops then Refused(USAGE)
    else if !s.ops[op].readable || |s.ops[op].journal.checkpoints| == 0 then Refused(Inspection(s.ops[op]))
    else if r.expected != s.ops[op].journal.generation then Refused(MANUAL)
    else NextJournal(s.ops[op].counter, s.ops[op].journal, r)
  }

  /** `t` is `s` with journal `k` recorded for `op`, announced and acknowledged, everything synced. */
  predicate Recorded(s: System, t: System, op: Name, k: Journal)
    requires op in s.ops && op in s.used
  {
    && |s.ops[op].journal.checkpoints| > 0
    && var n := NextSequence(s.ops[op].counter, s.ops[op].journal);
    && n >= 0
    && t == s.(
      ops := s.ops[op := Entry(n, n, k, k, s.ops[op].named, s.ops[op].readable, s.ops[op].newer)],
      used := s.used[op := s.used[op] + [n]],
      events := s.events + [Event(op, n, true)],
      acks := s.acks + [Ack(op, k)])
  }

  /** The sequence an emit request is answered with, or its refusal; `legal` says whether its members
      make an event the contract allows. */
  function EmitReply(s: System, bound: Option<Name>, op: Name, legal: bool): Result<int> {
    if bound != Some(op) || op !in s.ops then Refused(USAGE)
    else if !s.ops[op].readable || |s.ops[op].journal.checkpoints| == 0 then Refused(Inspection(s.ops[op]))
    else
      var n := NextSequence(s.ops[op].counter, s.ops[op].journal);
      if !legal || n > MAX_SAFE then Refused(USAGE) else Ok(n)
  }

  /** What reconciliation makes of one directory; `mine` marks the lock's own operation. */
  function Parked(e: Entry, mine: bool, stamp: int): Entry {
    if e.readable && !mine && Active(e.journal) && Valid(Abandon(e.counter, e.journal, stamp)) then
      var n := NextSequence(e.counter, e.journal);
      if n < 0 then e else
      var k := Abandon(e.counter, e.journal, stamp);
      Entry(n, n, k, k, e.named, e.readable, e.newer)
    else e
  }

  /** An operation left in progress is parked while its numbers still fit, and otherwise untouched. */
  lemma ParkedExactly(e: Entry, stamp: int)
    requires e.readable && Valid(e.journal)
    ensures var n := Larger(e.counter, Last(e.journal).sequence) + 1;
      var p := Parked(e, false, stamp);
      if InProgress(e.journal) && n <= MAX_SAFE && e.journal.generation < MAX_SAFE then
        && Parks(e.journal, p.journal, n, stamp) && p.journalOnDisk == p.journal
        && p.counter == p.counterOnDisk == n && p.named == e.named && p.readable
      else p == e
    ensures Parked(e, true, stamp) == e
  {
    NextSequenceIs(e.counter, e.journal);
    if InProgress(e.journal) {
      AbandonIsLegal(e.counter, e.journal, stamp);
      AbandonParks(e.counter, e.journal, stamp);
    }
    hide Valid, NextSequence, Parks, Abandon;
  }

  predicate Reconciled(s: System, t: System, bound: Option<Name>, stamp: int) {
    && t.ops.Keys == s.ops.Keys && t.junk == s.junk && t.events == s.events && t.acks == s.acks && t.lost == s.lost
    && forall n :: n in s.ops ==> t.ops[n] == Parked(s.ops[n], bound == Some(n), stamp)
  }

  /** An unfinished transaction is left once the others are parked, or, before a transaction, an
      entry that cannot be read. */
  ghost predicate InTheWay(s: System, kind: Kind, stamp: int) {
    || (exists n :: n in s.ops && s.ops[n].readable && OpenTransaction(Parked(s.ops[n], false, stamp).journal))
    || (kind == Transaction && (s.junk != {} || exists n :: n in s.ops && !s.ops[n].readable))
  }

  /** The day's identifiers are used up, or the request has no legal first record. */
  ghost predicate NoFirstRecord(names: set<Name>, day: string, r: BeginRequest) {
    exists h: nat :: OperationIds.IsHighest(names, day, h)
      && (h >= OperationIds.LAST_NUMBER || FirstJournal(OperationIds.OperationName(day, h + 1), r).Refused?)
  }

  /** The identifier after the day's highest one. */
  ghost predicate IsNextName(names: set<Name>, day: string, op: Name) {
    exists h: nat :: OperationIds.IsHighest(names, day, h) && op == OperationIds.OperationName(day, h + 1)
  }

  lemma OnlyHighest(names: set<Name>, day: string, h: nat, r: BeginRequest)
    requires OperationIds.IsHighest(names, day, h)
    ensures NoFirstRecord(names, day, r) <==>
              (h >= OperationIds.LAST_NUMBER || FirstJournal(OperationIds.OperationName(day, h + 1), r).Refused?)
  {
    hide OperationIds.IsHighest, OperationIds.OperationName, FirstJournal;
    forall k: nat | OperationIds.IsHighest(names, day, k) ensures k == h {
      OperationIds.HighestIsUnique(names, day, h, k);
    }
  }

  /** A readable operation that committed and saved a recovery point. */
  predicate CommittedWithPoint(e: Entry) {
    && e.readable && e.journal.recovery.Some?
    && |e.journal.checkpoints| > 0 && Last(e.journal).outcome == Some(ClosedCommitted)
  }

  function AsRead(e: Entry): Retention.Record {
    if e.readable then Retention.Readable(e.journal) else Retention.Doubtful
  }

  method ListNames(names: set<Name>) returns (listing: seq<Name>)
    ensures (set n | n in listing) == names
  {
    listing := [];
    var rest := names;
    while rest != {}
      invariant rest <= names && forall n :: n in listing <==> n in names && n !in rest
      decreases rest
    {
      var n :| n in rest;
      listing := listing + [n];
      rest := rest - {n};
    }
  }

  class Utility {
    var sys: System
    ghost var history: seq<Step>

    ghost predicate Consistent()
      reads this
    {
      Runs(Init(), history) && StateAfter(Init(), history) == sys
    }

    constructor ()
      ensures Consistent() && sys == Init()
    {
      sys := Init();
      history := [];
    }

    /** One durable action, or one thing the environment does. */
    method Do(step: Step)
      requires Consistent() && Enabled(sys, step)
      modifies this
      ensures Consistent() && sys == Apply(old(sys), step) && history == old(history) + [step]
    {
      hide Enabled, Apply;
      RunsAppend(Init(), history, step);
      sys := Apply(sys, step);
      history := history + [step];
    }

    /** Both atomic replacements of a write: counter first, then journal, each synced. */
    method WriteRecord()
      requires Consistent() && sys.writer.Writing? && sys.writer.phase == Ready && sys.writer.next.Some?
      modifies this
      ensures Consistent() && old(history) <= history
      ensures old(sys.writer.op in sys.ops && sys.writer.op in sys.used && sys.writer.spent >= 0)
      ensures var w := old(sys.writer);
        var e := old(sys.ops[w.op]);
        sys == old(sys).(
          ops := old(sys.ops)[w.op := Entry(w.spent, w.spent, w.next.value, w.next.value, e.named, e.readable, e.newer)],
          used := old(sys.used)[w.op := old(sys.used[w.op]) + [w.spent]],
          writer := w.(phase := JournalSynced))
    {
      hide Valid, Extends, Inv, NextJournal, NextSequence, FirstJournal, Abandon, Blocked, Active, Answered;
      Reached(history);
      WriterInFlight(sys);
      Do(RenameCounter);
      Do(SyncDirectory);
      Do(RenameJournal);
      Do(SyncDirectory);
    }

    /** Appends, or for a later step replaces, one record of the operation the lock is bound to. */
    method HandleCheckpoint(bound: Option<Name>, op: Name, r: CheckpointRequest) returns (reply: Result<Journal>)
      requires Consistent() && sys.writer.Free?
      requires bound.Some? && bound.value in sys.ops ==> Answered(sys, bound.value)
      modifies this
      ensures Consistent() && old(history) <= history
      ensures reply == CheckpointReply(old(sys), bound, op, r)
      ensures reply.Refused? ==> sys == old(sys)
      ensures reply.Refused? && bound == Some(op) && op in old(sys.ops) ==>
        && (!old(sys.ops[op].readable) ==> reply.code == if old(sys.ops[op].newer) then UNSUPPORTED else MANUAL)
        && (old(sys.ops[op].readable) ==> reply.code == if r.expected != old(sys.ops[op].journal.generation) then MANUAL else USAGE)
      ensures reply.Refused? && !(bound == Some(op) && op in old(sys.ops)) ==> reply.code == USAGE
      ensures reply.Ok? ==> op in old(sys).ops && op in old(sys).used && Recorded(old(sys), sys, op, reply.value)
      ensures reply.Ok? <==>
        && bound == Some(op) && op in old(sys.ops) && old(sys.ops[op].readable)
        && |old(sys.ops[op].journal.checkpoints)| > 0 && r.expected == old(sys.ops[op].journal.generation)
        && Acceptable(old(sys.ops[op].counter), old(sys.ops[op].journal), r)
      ensures reply.Ok? ==>
        && sys.ops[op].journal == sys.ops[op].journalOnDisk == reply.value
        && Carries(old(sys.ops[op].journal), reply.value, r,
                   Larger(old(sys.ops[op].counter), Last(old(sys.ops[op].journal)).sequence) + 1)
    {
      hide Valid, Extends, Inv, NextJournal, NextSequence, FirstJournal, Abandon, Blocked, Active, Acceptable, Carries, Larger;
      if bound != Some(op) || op !in sys.ops {
        return Refused(USAGE);
      }
      HasRecords(sys, history, op);
      if !sys.ops[op].readable || |sys.ops[op].journal.checkpoints| == 0 {
        return Refused(Inspection(sys.ops[op]));
      }
      if r.expected != sys.ops[op].journal.generation {
        return Refused(MANUAL);
      }
      CheckpointIsExact(sys, history, op, r);
      reply := NextJournal(sys.ops[op].counter, sys.ops[op].journal, r);
      if reply.Ok? {
        RecordNext(op, r);
      }
    }

    /** The durable part of a checkpoint: both replacements, the event, the answer. */
    method RecordNext(op: Name, r: CheckpointRequest)
      requires Consistent() && Enabled(sys, StartCheckpoint(op, r))
      modifies this
      ensures Consistent() && old(history) <= history
      ensures op in old(sys).ops && op in old(sys).used && |old(sys.ops[op].journal.checkpoints)| > 0
      ensures var next := NextJournal(old(sys.ops[op].counter), old(sys.ops[op].journal), r);
        next.Ok? && Recorded(old(sys), sys, op, next.value)
    {
      hide Valid, Extends, Inv, NextJournal, NextSequence, FirstJournal, Abandon, Blocked, Active;
      Do(StartCheckpoint(op, r));
      WriteRecord();
      Do(PutEvent);
      Do(Answer);
    }

    /** Spends one sequence on an event; the journal is not touched. */
    method HandleEmit(bound: Option<Name>, op: Name, legal: bool) returns (reply: Result<int>)
      requires Consistent() && sys.writer.Free?
      requires bound.Some? && bound.value in sys.ops ==> Answered(sys, bound.value)
      modifies this
      ensures Consistent() && old(history) <= history
      ensures reply == EmitReply(old(sys), bound, op, legal)
      ensures reply.Refused? ==> sys == old(sys)
      ensures reply.Refused? && bound == Some(op) && op in old(sys.ops) && !old(sys.ops[op].readable) ==>
        reply.code == if old(sys.ops[op].newer) then UNSUPPORTED else MANUAL
      ensures reply.Refused? && !(bound == Some(op) && op in old(sys.ops) && !old(sys.ops[op].readable)) ==> reply.code == USAGE
      ensures reply.Ok? <==>
        && bound == Some(op) && op in old(sys.ops) && old(sys.ops[op].readable) && legal
        && |old(sys.ops[op].journal.checkpoints)| > 0
        && Larger(old(sys.ops[op].counter), Last(old(sys.ops[op].journal)).sequence) < 9007199254740991
      ensures reply.Ok? ==>
        && bound == Some(op) && op in old(sys.ops) && op in sys.ops && |old(sys.ops[op].journal.checkpoints)| > 0
        && reply.value == Larger(old(sys.ops[op].counter), Last(old(sys.ops[op].journal)).sequence) + 1
        && sys.ops[op].counter == sys.ops[op].counterOnDisk == reply.value
        && sys.ops[op].journal == sys.ops[op].journalOnDisk == old(sys.ops[op].journal)
        && sys.events == old(sys.events) + [Event(op, reply.value, false)]
        && sys.acks == old(sys.acks) && sys.writer.Free?
        && forall n :: n in old(sys.ops) && n != op ==> n in sys.ops && sys.ops[n] == old(sys.ops[n])
    {
      hide Valid, Extends, Inv, NextJournal, NextSequence, FirstJournal, Abandon, Blocked, Active, Larger;
      if bound != Some(op) || op !in sys.ops {
        return Refused(USAGE);
      }
      HasRecords(sys, history, op);
      if !sys.ops[op].readable || |sys.ops[op].journal.checkpoints| == 0 {
        return Refused(Inspection(sys.ops[op]));
      }
      var n := NextSequence(sys.ops[op].counter, sys.ops[op].journal);
      NextNumberIs(sys, history, op);
      if !legal || n > MAX_SAFE {
        return Refused(USAGE);
      }
      SpendOne(op);
      reply := Ok(n);
    }

    /** The counter, replaced and synced, and then the event line. */
    method SpendOne(op: Name)
      requires Consistent() && Enabled(sys, StartEmit(op))
      modifies this
      ensures Consistent() && old(history) <= history
      ensures op in old(sys.ops) && op in sys.ops && |old(sys.ops[op].journal.checkpoints)| > 0
      ensures var n := NextSequence(old(sys.ops[op].counter), old(sys.ops[op].journal));
        && sys.ops[op].counter == sys.ops[op].counterOnDisk == n
        && sys.ops[op].journal == sys.ops[op].journalOnDisk == old(sys.ops[op].journal)
        && sys.events == old(sys.events) + [Event(op, n, false)]
      ensures sys.acks == old(sys.acks) && sys.writer.Free?
      ensures forall n :: n in old(sys.ops) && n != op ==> n in sys.ops && sys.ops[n] == old(sys.ops[n])
    {
      hide Valid, Extends, Inv, NextJournal, NextSequence, FirstJournal, Abandon, Blocked, Active, Answered;
      Do(StartEmit(op));
      Reached(history);
      WriterInFlight(sys);
      Do(RenameCounter);
      Do(SyncDirectory);
      Do(PutEvent);
      Do(Answer);
    }

    /** Parks every readable operation left in progress, other than the lock's own. */
    method Reconcile(bound: Option<Name>, goal: Goal, stamp: int)
      requires Consistent() && sys.writer.Free? && (goal.BeginGoal? ==> bound.None?)
      modifies this
      ensures Consistent() && old(history) <= history
      ensures sys.writer.Reconciling? && sys.writer.goal == goal && sys.writer.scan.todo == {}
      ensures sys.writer.scan.seen == set n | n in old(sys.ops) && old(sys.ops[n].readable)
      ensures Reconciled(old(sys), sys, bound, stamp)
    {
      hide Valid, Extends, Inv, NextJournal, NextSequence, FirstJournal, Abandon, Blocked, Active, Answered, Apply, Enabled;
      ghost var s := sys;
      StartsScan(sys, bound, goal);
      Do(StartReconcile(bound, goal));
      ghost var todo0 := sys.writer.scan.todo;
      while sys.writer.scan.todo != {}
        invariant Consistent() && old(history) <= history
        invariant sys.writer.Reconciling? && sys.writer.goal == goal && sys.writer.scan.todo <= todo0
        invariant forall n :: n in todo0 ==> n in s.ops && s.ops[n].readable
        invariant sys.writer.scan.seen == set n | n in s.ops && s.ops[n].readable
        invariant sys.ops.Keys == s.ops.Keys && sys.junk == s.junk && sys.events == s.events && sys.acks == s.acks && sys.lost == s.lost
        invariant forall n :: n in s.ops ==>
          sys.ops[n] == if n in sys.writer.scan.todo then s.ops[n] else Parked(s.ops[n], bound == Some(n), stamp)
        decreases sys.writer.scan.todo
      {
        var op :| op in sys.writer.scan.todo;
        ParkOne(op, stamp);
      }
    }

    /** One turn of the reconciliation loop. */
    method ParkOne(op: Name, stamp: int)
      requires Consistent() && sys.writer.Reconciling? && op in sys.writer.scan.todo
      requires op in sys.ops && sys.ops[op].readable
      modifies this
      ensures Consistent() && old(history) <= history
      ensures sys.writer.Reconciling? && sys.writer.goal == old(sys.writer.goal)
      ensures sys.writer.scan.todo == old(sys.writer.scan.todo) - {op} && sys.writer.scan.seen == old(sys.writer.scan.seen)
      ensures sys.ops == old(sys.ops)[op := Parked(old(sys.ops[op]), false, stamp)]
      ensures sys.junk == old(sys.junk) && sys.events == old(sys.events) && sys.acks == old(sys.acks) && sys.lost == old(sys.lost)
    {
      hide Valid, Extends, Inv, NextJournal, NextSequence, FirstJournal, Abandon, Blocked, Answered;
      Reached(history);
      ScanInFlight(sys, op);
      var e := sys.ops[op];
      if Valid(Abandon(e.counter, e.journal, stamp)) {
        Do(AbandonOne(op, stamp));
        WriteRecord();
        Do(Answer);
      } else {
        StampDoesNotMatter(e.counter, e.journal, stamp, 0);
        Do(SkipOne(op));
      }
    }

    /** Allocates an identifier, creates the operation and acknowledges it, unless an unfinished
        transaction (or, for a transaction, a record that requires inspection) is in the way. */
    method HandleBegin(bound: Option<Name>, r: BeginRequest, day: string) returns (reply: Result<Name>)
      requires Consistent() && sys.writer.Free?
      modifies this
      ensures Consistent() && old(history) <= history && sys.writer.Free?
      ensures bound.Some? ==> reply == Refused(USAGE) && sys == old(sys)
      ensures reply.Refused? && bound.None? ==> Reconciled(old(sys), sys, None, r.stamp)
      ensures bound.None? ==> (reply == Refused(MANUAL) <==> InTheWay(old(sys), r.kind, r.stamp))
      ensures bound.None? && !InTheWay(old(sys), r.kind, r.stamp) ==>
        (reply.Refused? <==> NoFirstRecord(old(sys.ops.Keys + sys.junk), day, r))
      ensures reply.Ok? ==>
        && bound.None? && reply.value !in old(sys.ops) && reply.value !in old(sys.junk)
        && reply.value in sys.ops && Answered(sys, reply.value)
        && FirstJournal(reply.value, r).Ok? && sys.ops[reply.value] == NewEntry(FirstJournal(reply.value, r).value)
        && Begins(sys.ops[reply.value].journal, reply.value, r)
        && IsNextName(old(sys.ops.Keys + sys.junk), day, reply.value)
        && sys.events == old(sys.events) + [Event(reply.value, 1, true)]
        && sys.ops.Keys == old(sys.ops.Keys) + {reply.value}
        && forall n :: n in old(sys.ops) ==>
          && sys.ops[n] == Parked(old(sys.ops[n]), false, r.stamp).(named := true)
          && (old(sys.ops[n].readable) ==> !OpenTransaction(sys.ops[n].journal))
          && (r.kind == Transaction ==> old(sys.ops[n].readable))
    {
      hide Valid, Extends, Inv, NextJournal, NextSequence, FirstJournal, Abandon, Active, Parked, OpenTransaction,
           OperationIds.IsHighest, OperationIds.OperationName, Apply, Enabled, Begins;
      if bound.Some? {
        return Refused(USAGE);
      }
      ghost var s := sys;
      Reconcile(None, BeginGoal(r, day), r.stamp);
      ghost var t := sys;
      BlockedMeans(s, t, r.kind, r.stamp);
      if Blocked(sys, sys.writer.scan.seen, r.kind) {
        Release();
        return Refused(MANUAL);
      }
      var listing := ListNames(sys.ops.Keys + sys.junk);
      var highest := OperationIds.TodayHighest(listing, day);
      assert s.ops.Keys + s.junk == sys.ops.Keys + sys.junk;
      OnlyHighest(s.ops.Keys + s.junk, day, highest, r);
      if highest + 1 > OperationIds.LAST_NUMBER {
        Release();
        return Refused(PREFLIGHT);
      }
      var op := OperationIds.OperationName(day, highest + 1);
      if FirstJournal(op, r).Refused? {
        Release();
        return Refused(USAGE);
      }
      FirstJournalIsLegal(op, r);
      OperationIds.AllocatedIsFresh(sys.ops.Keys + sys.junk, day, highest);
      CreateEnabled(sys, highest + 1);
      Create(highest + 1);
      reply := Ok(op);
      NotBlockedMeans(t, t.writer.scan.seen, r.kind);
    }

    /** Renames the complete staging directory into place and syncs the directory above it. */
    method PlaceDirectory()
      requires Consistent() && sys.writer.Creating? && sys.writer.stage == Built
      requires sys.writer.created !in sys.ops && sys.writer.created !in sys.junk
      modifies this
      ensures Consistent() && old(history) <= history
      ensures sys.writer == old(sys.writer).(stage := Durable)
      ensures sys.ops.Keys == old(sys.ops.Keys) + {sys.writer.created}
      ensures sys.writer.created in sys.ops && sys.ops[sys.writer.created] == NewEntry(sys.writer.first)
      ensures forall n :: n in old(sys.ops) ==> sys.ops[n] == old(sys.ops[n]).(named := true)
      ensures sys.events == old(sys.events) && sys.acks == old(sys.acks)
    {
      hide Valid, NextJournal, NextSequence, FirstJournal, Abandon, Active, Blocked, LastSequence, OpenTransaction, Answered,
           OperationIds.IsHighest, OperationIds.OperationName;
      Do(RenameStaging);
      Do(SyncNames);
    }

    /** The durable part of a begin. */
    method Create(number: nat)
      requires Consistent() && Enabled(sys, StartCreate(number))
      requires OperationIds.OperationName(sys.writer.goal.day, number) !in sys.ops
      requires OperationIds.OperationName(sys.writer.goal.day, number) !in sys.junk
      modifies this
      ensures Consistent() && old(history) <= history && sys.writer.Free?
      ensures old(sys.writer.Reconciling? && sys.writer.goal.BeginGoal?)
      ensures var r, op := old(sys.writer.goal.request), OperationIds.OperationName(old(sys.writer.goal.day), number);
        && FirstJournal(op, r).Ok? && op in sys.ops && sys.ops[op] == NewEntry(FirstJournal(op, r).value)
        && Answered(sys, op) && sys.events == old(sys.events) + [Event(op, 1, true)]
        && sys.ops.Keys == old(sys.ops.Keys) + {op}
        && forall n :: n in old(sys.ops) ==> sys.ops[n] == old(sys.ops[n]).(named := true)
    {
      hide Valid, Extends, Inv, NextJournal, NextSequence, FirstJournal, Abandon, Active, Blocked, LastSequence, OpenTransaction,
           Answered, OperationIds.IsHighest, OperationIds.OperationName;
      ghost var op := OperationIds.OperationName(sys.writer.goal.day, number);
      FirstJournalFacts(op, sys.writer.goal.request);
      Do(StartCreate(number));
      PlaceDirectory();
      Tell();
    }

    method Tell()
      requires Consistent() && sys.writer.Creating? && sys.writer.stage == Durable
      modifies this
      ensures Consistent() && old(history) <= history && sys.writer.Free? && sys.ops == old(sys.ops)
      ensures sys.events == old(sys.events) + [Event(old(sys.writer.created), LastSequence(old(sys.writer.first)), true)]
      ensures Answered(sys, old(sys.writer.created))
    {
      hide Valid, NextJournal, NextSequence, FirstJournal, Abandon, Active, Blocked, LastSequence, OpenTransaction,
           OperationIds.IsHighest, OperationIds.OperationName;
      Do(PutEvent);
      Do(Answer);
      assert sys.acks[|sys.acks|-1].op == old(sys.writer.created);
    }

    /** A refused request, like a killed one, only gives the lock back. */
    method Release()
      requires Consistent()
      modifies this
      ensures Consistent() && old(history) <= history && sys == old(sys).(writer := Free)
    {
      Do(Kill);
    }

    /** Every entry of the operations directory, as a reader sees it. */
    method ReadRecords() returns (records: seq<Retention.Record>)
      ensures Retention.IsListing(sys, records)
    {
      var listing := ListNames(sys.ops.Keys);
      records := [];
      for i := 0 to |listing|
        invariant |records| == i
        invariant forall k :: 0 <= k < i ==> listing[k] in sys.ops && records[k] == AsRead(sys.ops[listing[k]])
      {
        assert listing[i] in (set n | n in listing);
        records := records + [AsRead(sys.ops[listing[i]])];
      }
      ghost var named := records;
      if sys.junk != {} {
        records := records + [Retention.Doubtful];
      }
      ListingIsComplete(sys, listing, named, records);
    }

    /** Parks abandoned operations and reports what retention must keep. */
    method HandleList(bound: Option<Name>, stamp: int) returns (report: Retention.Report, ghost records: seq<Retention.Record>)
      requires Consistent() && sys.writer.Free?
      modifies this
      ensures Consistent() && old(history) <= history && sys.writer.Free?
      ensures Reconciled(old(sys), sys, bound, stamp)
      ensures Retention.IsListing(sys, records)
      ensures report.protected !! report.releasable
      ensures report.complete <==> sys.junk == {} && forall n :: n in sys.ops ==> sys.ops[n].readable
      ensures if report.complete then report.protected + report.releasable == Retention.References(records) else report.releasable == {}
      ensures forall n :: n in sys.ops && Retention.Unfinished(sys.ops[n].journal) && sys.ops[n].journal.recovery.Some? ==>
        sys.ops[n].journal.recovery.value !in report.releasable
      ensures forall n :: n in sys.ops && CommittedWithPoint(sys.ops[n]) ==> exists m ::
        && m in sys.ops && CommittedWithPoint(sys.ops[m]) && sys.ops[m].journal.recovery.value in report.protected
        && forall k :: k in sys.ops && CommittedWithPoint(sys.ops[k]) ==>
          sys.ops[k].journal.updatedAt <= sys.ops[m].journal.updatedAt
    {
      hide Valid, Extends, Inv, NextJournal, NextSequence, FirstJournal, Abandon, Active, Blocked, Parked,
           Retention.Unfinished, Apply, Enabled;
      Reconcile(bound, ListGoal, stamp);
      var read := ReadRecords();
      records := read;
      var newest;
      report, newest := Retention.Retain(read);
      UnfinishedIsKept(sys, records, Retention.NewestPoint(records, newest));
      NewestIsKept(sys, records, newest);
      Release();
    }
  }

  lemma HasRecords(s: System, steps: seq<Step>, op: Name)
    requires Runs(Init(), steps) && StateAfter(Init(), steps) == s && op in s.ops
    ensures |s.ops[op].journal.checkpoints| > 0
  {
    hide Walk, Inv;
    Reached(steps);
    EntryJournalValid(s, op);
  }

  lemma NextNumberIs(s: System, steps: seq<Step>, op: Name)
    requires Runs(Init(), steps) && StateAfter(Init(), steps) == s && op in s.ops && |s.ops[op].journal.checkpoints| > 0
    ensures var e := s.ops[op];
      NextSequence(e.counter, e.journal) == Larger(e.counter, Last(e.journal).sequence) + 1
  {
    hide Valid, Inv, NextSequence;
    Reached(steps);
    EntryJournalValid(s, op);
    NextSequenceIs(s.ops[op].counter, s.ops[op].journal);
  }

  lemma CheckpointIsExact(s: System, steps: seq<Step>, op: Name, r: CheckpointRequest)
    requires Runs(Init(), steps) && StateAfter(Init(), steps) == s && op in s.ops && |s.ops[op].journal.checkpoints| > 0
    ensures var e := s.ops[op];
      var next := NextJournal(e.counter, e.journal, r);
      && (next.Ok? <==> Acceptable(e.counter, e.journal, r)) && (next.Refused? ==> next.code == USAGE)
      && (next.Ok? ==> Carries(e.journal, next.value, r, Larger(e.counter, Last(e.journal).sequence) + 1))
  {
    hide Valid, Inv, NextJournal, Acceptable, Carries, Larger;
    Reached(steps);
    EntryJournalValid(s, op);
    AcceptsExactly(s.ops[op].counter, s.ops[op].journal, r);
    RefusesAsUsage(s.ops[op].counter, s.ops[op].journal, r);
    if NextJournal(s.ops[op].counter, s.ops[op].journal, r).Ok? {
      NextJournalCarries(s.ops[op].counter, s.ops[op].journal, r);
    }
  }

  lemma CreateEnabled(s: System, number: nat)
    requires s.writer.Reconciling? && s.writer.scan.todo == {} && s.writer.goal.BeginGoal?
    requires !Blocked(s, s.writer.scan.seen, s.writer.goal.request.kind)
    requires 1 <= number <= OperationIds.LAST_NUMBER
    requires OperationIds.IsHighest(s.ops.Keys + s.junk, s.writer.goal.day, number - 1)
    requires FirstJournal(OperationIds.OperationName(s.writer.goal.day, number), s.writer.goal.request).Ok?
    ensures Enabled(s, StartCreate(number))
  {
    hide Blocked, OperationIds.IsHighest, OperationIds.OperationName, FirstJournal;
  }

  lemma ListingIsComplete(s: System, listing: seq<Name>, named: seq<Retention.Record>, records: seq<Retention.Record>)
    requires (set n | n in listing) == s.ops.Keys && |named| == |listing|
    requires forall k :: 0 <= k < |listing| ==> listing[k] in s.ops && named[k] == AsRead(s.ops[listing[k]])
    requires records == named + if s.junk != {} then [Retention.Doubtful] else []
    ensures Retention.IsListing(s, records)
  {
    forall n | n in s.ops
      ensures AsRead(s.ops[n]) in records
    {
      assert n in (set m | m in listing);
      var k :| 0 <= k < |listing| && listing[k] == n;
      assert records[k] in records;
    }
    forall r | r in records && !(s.junk != {} && r.Doubtful?)
      ensures exists n :: n in s.ops && r == AsRead(s.ops[n])
    {
      var k :| 0 <= k < |records| && records[k] == r;
      assert k < |named| && listing[k] in s.ops;
    }
  }

  lemma UnfinishedIsKept(s: System, records: seq<Retention.Record>, newest: set<Reference>)
    requires Retention.IsListing(s, records)
    ensures forall n :: n in s.ops && Retention.Unfinished(s.ops[n].journal) && s.ops[n].journal.recovery.Some? ==>
      s.ops[n].journal.recovery.value !in Retention.Releasable(records, newest)
  {
    hide Retention.Unfinished;
    forall n | n in s.ops && Retention.Unfinished(s.ops[n].journal) && s.ops[n].journal.recovery.Some?
      ensures s.ops[n].journal.recovery.value !in Retention.Releasable(records, newest)
    {
      if s.ops[n].readable {
        var i :| 0 <= i < |records| && records[i] == Retention.Readable(s.ops[n].journal);
        assert Retention.HoldsPoint(records[i]) && records[i].journal.recovery.value in Retention.Held(records);
      }
    }
  }

  lemma NewestIsKept(s: System, records: seq<Retention.Record>, newest: Option<nat>)
    requires Retention.IsListing(s, records)
    requires newest.Some? ==> Retention.IsNewest(records, newest.value) && Retention.IsLatest(records, newest.value)
    requires newest.None? ==> forall i :: 0 <= i < |records| ==> !Retention.CommittedPoint(records[i])
    ensures forall n :: n in s.ops && CommittedWithPoint(s.ops[n]) ==> exists m ::
      && m in s.ops && CommittedWithPoint(s.ops[m])
      && s.ops[m].journal.recovery.value in Retention.NewestPoint(records, newest)
      && forall k :: k in s.ops && CommittedWithPoint(s.ops[k]) ==> s.ops[k].journal.updatedAt <= s.ops[m].journal.updatedAt
  {
    hide Retention.IsNewest, Retention.Older;
    forall n | n in s.ops && CommittedWithPoint(s.ops[n])
      ensures newest.Some?
      ensures s.ops[n].journal.updatedAt <= records[newest.value].journal.updatedAt
    {
      var i :| 0 <= i < |records| && records[i] == Retention.Readable(s.ops[n].journal);
      assert Retention.CommittedPoint(records[i]);
    }
    if newest.Some? {
      var r := records[newest.value];
      assert r in records && Retention.CommittedPoint(r);
      var m :| m in s.ops && s.ops[m].readable && s.ops[m].journal == r.journal;
      assert CommittedWithPoint(s.ops[m]);
    }
  }

  lemma BlockedMeans(s: System, t: System, kind: Kind, stamp: int)
    requires t.writer.Reconciling? && Reconciled(s, t, None, stamp)
    requires t.writer.scan.seen == set n | n in s.ops && s.ops[n].readable
    ensures Blocked(t, t.writer.scan.seen, kind) <==> InTheWay(s, kind, stamp)
  {
    hide OpenTransaction, Parked;
  }

  lemma NotBlockedMeans(s: System, seen: set<Name>, kind: Kind)
    requires !Blocked(s, seen, kind)
    ensures forall n :: n in s.ops && n in seen ==> !OpenTransaction(s.ops[n].journal)
    ensures kind == Transaction ==> s.junk == {} && forall n :: n in s.ops ==> n in seen
  {
    hide OpenTransaction;
  }

  lemma StartsScan(s: System, bound: Option<Name>, goal: Goal)
    requires s.writer.Free? && (goal.BeginGoal? ==> bound.None?)
    ensures Enabled(s, StartReconcile(bound, goal))
    ensures var t := Apply(s, StartReconcile(bound, goal));
      && t == s.(writer := t.writer) && t.writer.Reconciling? && t.writer.goal == goal
      && t.writer.scan.seen == (set n | n in s.ops && s.ops[n].readable)
      && t.writer.scan.todo == set n | n in s.ops && s.ops[n].readable && bound != Some(n) && Active(s.ops[n].journal)
  {
    hide Active;
  }

  lemma ScanInFlight(s: System, op: Name)
    requires Inv(s) && s.writer.Reconciling? && op in s.writer.scan.todo
    ensures op in s.ops && Active(s.ops[op].journal) && Valid(s.ops[op].journal)
    ensures NextSequence(s.ops[op].counter, s.ops[op].journal) >= 1
  {
    hide Valid, Extends, TracesOk, SequencesOk, NextSequence, EntryOk;
    assert ScanOk(s, s.writer.scan, {});
    EntryJournalValid(s, op);
    SpentIsAbove(s.ops[op].counter, s.ops[op].journal);
  }

  lemma StampDoesNotMatter(counter: nat, j: Journal, stamp: int, other: int)
    requires |j.checkpoints| > 0
    ensures Valid(Abandon(counter, j, stamp)) <==> Valid(Abandon(counter, j, other))
  {
    hide Walk, IsRelease;
  }

  lemma WriterInFlight(s: System)
    requires Inv(s) && s.writer.Writing?
    ensures s.writer.op in s.ops && s.writer.op in s.used && s.writer.spent >= 1
  {
    hide Valid, Extends, EntriesOk, TracesOk, SequencesOk, ScanOk;
  }
}
