/** The invariant every step of the protocol keeps. */
module ProtocolInvariant {
  import opened Options
  import opened Texts
  import opened Journal
  import opened Writes
  import opened Protocol
  import OperationIds

  // --- One directory, one event, one acknowledgement, the sequences of one operation.

  predicate EntryOk(n: Name, e: Entry, lost: bool) {
    && Valid(e.journal) && Valid(e.journalOnDisk)
    && e.journal.operation == n
    && Extends(e.journalOnDisk, e.journal)
    && (!lost ==> LastSequence(e.journal) <= e.counterOnDisk <= e.counter)
  }

  predicate EventOk(ops: map<Name, Entry>, lost: set<Name>, ev: Event) {
    && ev.op in ops && ops[ev.op].named && ev.sequence >= 1
    && (ev.op !in lost ==> ev.sequence <= ops[ev.op].counterOnDisk)
    && (ev.checkpoint ==> ev.sequence <= LastSequence(ops[ev.op].journalOnDisk))
  }

  predicate AckOk(ops: map<Name, Entry>, a: Ack) {
    && a.op in ops && ops[a.op].named
    && Extends(a.journal, ops[a.op].journalOnDisk)
  }

  predicate Rising(xs: seq<int>) {
    forall i, k :: 0 <= i < k < |xs| ==> xs[i] < xs[k]
  }

  predicate UsedOk(e: Entry, xs: seq<int>) {
    Rising(xs) && forall i :: 0 <= i < |xs| ==> xs[i] <= e.counterOnDisk
  }

  predicate EventsRise(events: seq<Event>, lost: set<Name>) {
    forall i, k :: 0 <= i < k < |events| && events[i].op == events[k].op
      && (events[i].op !in lost || (events[i].checkpoint && events[k].checkpoint))
      ==> events[i].sequence < events[k].sequence
  }

  predicate AcksRise(acks: seq<Ack>) {
    forall i, k :: 0 <= i < k < |acks| && acks[i].op == acks[k].op
      ==> acks[i].journal.generation < acks[k].journal.generation
  }

  // --- The request in flight.

  /** Nothing was put on a record or an event under `spent` or above. */
  predicate Unused(s: System, op: Name, spent: int) {
    && (op in s.used ==> forall i :: 0 <= i < |s.used[op]| ==> s.used[op][i] < spent)
    && NotAnnounced(s, op, spent)
  }

  predicate NotAnnounced(s: System, op: Name, spent: int) {
    forall i :: 0 <= i < |s.events| && s.events[i].op == op ==> s.events[i].sequence < spent
  }

  predicate CheckpointsBelow(s: System, op: Name, spent: int) {
    forall i :: 0 <= i < |s.events| && s.events[i].op == op && s.events[i].checkpoint ==> s.events[i].sequence < spent
  }

  predicate AcksBelow(s: System, op: Name, generation: int) {
    forall i :: 0 <= i < |s.acks| && s.acks[i].op == op ==> s.acks[i].journal.generation < generation
  }

  /** `next` is one legal write beyond `base`. */
  predicate NextOk(base: Journal, next: Journal, spent: int) {
    && Valid(next) && Extends(base, next)
    && next.generation == base.generation + 1
    && LastSequence(next) == spent
  }

  predicate JournalOfPhase(e: Entry, w: Writer)
    requires w.Writing?
  {
    match w.phase
    case JournalRenamed => w.next.Some? && e.journal == w.next.value && (e.journalOnDisk == w.base || e.journalOnDisk == e.journal)
    case JournalSynced => w.next.Some? && e.journal == e.journalOnDisk == w.next.value
    case Announced => e.journal == e.journalOnDisk == if w.next.Some? then w.next.value else w.base
    case CounterSynced => e.journal == e.journalOnDisk == w.base
    case _ => e.journal == w.base
  }

  predicate CounterOfPhase(s: System, e: Entry, w: Writer)
    requires w.Writing?
  {
    match w.phase
    case Ready => e.counter < w.spent && Unused(s, w.op, w.spent)
    case CounterRenamed => e.counterOnDisk <= e.counter == w.spent && Unused(s, w.op, w.spent)
    case CounterSynced => e.counterOnDisk == e.counter == w.spent && Unused(s, w.op, w.spent)
    case JournalRenamed => e.counterOnDisk == e.counter == w.spent && NotAnnounced(s, w.op, w.spent)
    case JournalSynced => e.counterOnDisk == e.counter == w.spent && NotAnnounced(s, w.op, w.spent)
    case Announced => e.counterOnDisk == e.counter == w.spent
  }

  /** A number its next record would need is beyond the safe integers. */
  predicate Exhausted(e: Entry) {
    |e.journal.checkpoints| > 0 && (NextSequence(e.counter, e.journal) > MAX_SAFE || e.journal.generation >= MAX_SAFE)
  }

  /** Every record that was read is still to be parked, is being parked, is the lock's own, had to
      be left, or is not in progress; and one that had to be left has run out of numbers, unless
      its counter was lost. */
  predicate ScanOk(s: System, scan: Scan, busy: set<Name>) {
    && (forall n :: n in scan.seen ==> n in s.ops)
    && (forall n :: n in scan.todo ==> n in s.ops && n in scan.seen && n !in scan.left && Active(s.ops[n].journal))
    && (forall n :: n in scan.left ==> n in s.ops && n !in busy && (n in s.lost || Exhausted(s.ops[n])))
    && (forall n :: n in scan.seen && n !in scan.todo && n !in scan.left && n !in busy && scan.mine != Some(n) ==>
          n in s.ops && !Active(s.ops[n].journal))
  }

  predicate WritingOk(s: System, w: Writer)
    requires w.Writing?
  {
    && w.op in s.ops && w.op in s.used && w.spent >= 1
    && JournalOfPhase(s.ops[w.op], w)
    && (w.op !in s.lost ==> CounterOfPhase(s, s.ops[w.op], w))
    && (w.next.Some? ==>
          && NextOk(w.base, w.next.value, w.spent)
          && AcksBelow(s, w.op, w.next.value.generation)
          && (w.phase != Announced ==> CheckpointsBelow(s, w.op, w.spent)))
    && (w.next.None? ==> w.phase !in {JournalRenamed, JournalSynced} && w.after.Reply?)
    && (w.after.Reply? ==> s.ops[w.op].named)
    && (w.after.Resume? ==>
          && w.next.Some? && !Active(w.next.value) && ScanOk(s, w.after.rest, {w.op}) && w.op !in w.after.rest.todo
          && (w.after.upTo.BeginGoal? ==> w.after.rest.mine.None?))
  }

  predicate CreatingOk(s: System, w: Writer)
    requires w.Creating?
  {
    && Valid(w.first) && w.first.operation == w.created && Active(w.first)
    && LastSequence(w.first) == 1 && w.first.generation == 1
    && (w.stage == Built ==> w.created !in s.ops)
    && (w.stage != Built ==>
          && w.created in s.ops
          && s.ops[w.created].journal == s.ops[w.created].journalOnDisk == w.first
          && (w.created !in s.lost ==> s.ops[w.created].counter == s.ops[w.created].counterOnDisk == 1)
          && (forall i :: 0 <= i < |s.acks| ==> s.acks[i].op != w.created))
    && (w.stage in {InPlace, Durable} ==> forall i :: 0 <= i < |s.events| ==> s.events[i].op != w.created)
    && (w.stage in {Durable, Told} ==> s.ops[w.created].named)
    && w.created !in w.cleared.seen && w.cleared.todo == {} && w.cleared.mine.None? && ScanOk(s, w.cleared, {w.created})
    && (w.first.kind == Transaction ==> forall n :: n in s.ops && n != w.created ==> n in w.cleared.seen)
  }

  predicate WriterOk(s: System) {
    match s.writer
    case Writing(_, _, _, _, _, _) => WritingOk(s, s.writer)
    case Creating(_, _, _, _) => CreatingOk(s, s.writer)
    case Reconciling(scan, goal) => ScanOk(s, scan, {}) && (goal.BeginGoal? ==> scan.mine.None?)
    case Free => true
  }

  // --- The whole.

  predicate EntriesOk(s: System) {
    forall n :: n in s.ops ==> EntryOk(n, s.ops[n], n in s.lost)
  }

  predicate TracesOk(s: System) {
    && (forall i :: 0 <= i < |s.events| ==> EventOk(s.ops, s.lost, s.events[i]))
    && (forall i :: 0 <= i < |s.acks| ==> AckOk(s.ops, s.acks[i]))
    && EventsRise(s.events, s.lost)
    && AcksRise(s.acks)
  }

  predicate SequencesOk(s: System) {
    && s.used.Keys == s.ops.Keys
    && forall n :: n in s.ops && n !in s.lost ==> UsedOk(s.ops[n], s.used[n])
  }

  predicate Inv(s: System) {
    EntriesOk(s) && TracesOk(s) && SequencesOk(s) && WriterOk(s)
  }
}
