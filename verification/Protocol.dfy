/** The crash-tolerant write protocol of the native state utility, as a state machine.

    One step is one durable action of a request (a rename, a directory sync, an event line,
    the acknowledgement) or one thing the environment does: a kill, a power loss, a counter
    file that disappears, a record that cannot be read for a while. Requests of all
    processes interleave freely; the writer lock admits one at a time.

    A checkpoint or an event is taken only for an operation whose begin was answered: the host
    lock is bound to an operation by the shell that read the answer (deploy/lib/lifecycle.sh),
    and the utility itself checks only that binding. */
module Protocol {
  import opened Options
  import opened Texts
  import opened Journal
  import opened Writes
  import OperationIds

  type Name = string

  /** One operation directory. A rename shows at once; a power loss may take it back until a
      directory sync, or the disk in its own time, has made it durable, so every file has a
      visible and an on-disk content. */
  datatype Entry = Entry(
    counter: nat,            // the visible sequence file; 0 when missing or not a number
    counterOnDisk: nat,
    journal: Journal,        // the visible journal.json
    journalOnDisk: Journal,
    named: bool,             // the directory's own name is on disk
    readable: bool,          // false: the record requires inspection
    newer: bool)             // an unreadable record is of a contract this utility does not know

  /** One line on the event descriptor. */
  datatype Event = Event(op: Name, sequence: int, checkpoint: bool)

  /** One acknowledged begin or checkpoint, with the journal it acknowledged. */
  datatype Ack = Ack(op: Name, journal: Journal)

  /** How far a begin has brought its new directory. */
  datatype Stage = Built | InPlace | Durable | Told

  datatype Phase = Ready | CounterRenamed | CounterSynced | JournalRenamed | JournalSynced | Announced

  /** What a request still does once the reconciliation it starts with is over. */
  datatype Goal = ListGoal | BeginGoal(request: BeginRequest, day: string)

  /** A reconciliation under way: the lock's own operation, the records it could read, those of
      them it still has to park, and those it had to leave because they have no legal record. */
  datatype Scan = Scan(mine: Option<Name>, seen: set<Name>, todo: set<Name>, left: set<Name>)

  datatype After = Reply | Resume(rest: Scan, upTo: Goal)

  /** The request that holds the writer lock. */
  datatype Writer =
    | Free
    | Writing(op: Name, base: Journal, spent: int, next: Option<Journal>, phase: Phase, after: After)
    | Reconciling(scan: Scan, goal: Goal)
    | Creating(created: Name, first: Journal, stage: Stage, cleared: Scan)

  datatype System = System(
    ops: map<Name, Entry>,
    junk: set<Name>,              // other entries of the operations directory
    writer: Writer,
    events: seq<Event>,
    acks: seq<Ack>,
    used: map<Name, seq<int>>,    // the sequences each operation put on a record or an event
    lost: set<Name>)              // operations whose counter file was lost once

  datatype Step =
    // requests taking the writer lock
    | StartCheckpoint(op: Name, request: CheckpointRequest)
    | StartEmit(op: Name)
    | StartReconcile(bound: Option<Name>, goal: Goal)
    // the durable actions of a write
    | RenameCounter | SyncDirectory | RenameJournal | PutEvent | Answer
    // reconciliation and creation
    | AbandonOne(op: Name, stamp: int)
    | SkipOne(op: Name)
    | StartCreate(number: nat)
    | RenameStaging | SyncNames
    // the environment
    | Kill    // the request in flight ends here: killed, failed, refused, or (a list) done
    | LoseCounter(op: Name)
    | SetReadable(op: Name, readable: bool, newer: bool)
    | SetJunk(names: set<Name>)
    | WriteBack(op: Name, counter: bool, journal: bool, name: bool)   // the disk catches up unasked
    | PowerLoss(counters: set<Name>, journals: set<Name>, names: set<Name>)

  function Init(): System {
    System(map[], {}, Free, [], [], map[], {})
  }

  predicate Answered(s: System, op: Name) {
    exists i :: 0 <= i < |s.acks| && s.acks[i].op == op
  }

  /** A transaction whose journal carries no outcome. */
  predicate OpenTransaction(j: Journal) {
    j.kind == Transaction && |j.checkpoints| > 0 && !Finished(j)
  }

  predicate Active(j: Journal) {
    |j.checkpoints| > 0 && InProgress(j)
  }

  function LastSequence(j: Journal): int {
    if |j.checkpoints| == 0 then 0 else Last(j).sequence
  }

  /** What blocks a begin: an open transaction it could read, or, for a transaction, any record
      it could not read. */
  predicate Blocked(s: System, seen: set<Name>, kind: Kind) {
    || (exists n :: n in seen && n in s.ops && OpenTransaction(s.ops[n].journal))
    || (kind == Transaction && (s.junk != {} || exists n :: n in s.ops && n !in seen))
  }

  predicate Enabled(s: System, step: Step) {
    match step
    case StartCheckpoint(op, r) =>
      && s.writer.Free? && op in s.ops && s.ops[op].readable && Answered(s, op)
      && |s.ops[op].journal.checkpoints| > 0
      && r.expected == s.ops[op].journal.generation
      && NextJournal(s.ops[op].counter, s.ops[op].journal, r).Ok?
    case StartEmit(op) =>
      && s.writer.Free? && op in s.ops && s.ops[op].readable && Answered(s, op)
      && |s.ops[op].journal.checkpoints| > 0
      && NextSequence(s.ops[op].counter, s.ops[op].journal) <= MAX_SAFE
    case StartReconcile(bound, goal) => s.writer.Free? && (goal.BeginGoal? ==> bound.None?)
    case RenameCounter => s.writer.Writing? && s.writer.phase == Ready && s.writer.op in s.ops && s.writer.spent >= 0
    case SyncDirectory =>
      && s.writer.Writing? && s.writer.op in s.ops
      && s.writer.phase in {CounterRenamed, JournalRenamed}
    case RenameJournal =>
      && s.writer.Writing? && s.writer.op in s.ops && s.writer.op in s.used
      && s.writer.phase == CounterSynced && s.writer.next.Some?
    case PutEvent => (
      match s.writer
      case Writing(op, _, _, next, phase, after) =>
        op in s.used && after.Reply? && phase == if next.Some? then JournalSynced else CounterSynced
      case Creating(_, _, stage, _) => stage == Durable
      case _ => false)
    case Answer => (
      match s.writer
      case Writing(_, _, _, next, phase, after) =>
        if after.Reply? then phase == Announced else phase == JournalSynced
      case Creating(_, _, stage, _) => stage == Told
      case _ => false)
    case AbandonOne(op, stamp) =>
      && s.writer.Reconciling? && op in s.writer.scan.todo && op in s.ops
      && |s.ops[op].journal.checkpoints| > 0
      && Valid(Abandon(s.ops[op].counter, s.ops[op].journal, stamp))
    case SkipOne(op) =>
      && s.writer.Reconciling? && op in s.writer.scan.todo && op in s.ops
      && |s.ops[op].journal.checkpoints| > 0
      && !Valid(Abandon(s.ops[op].counter, s.ops[op].journal, 0))
    case StartCreate(number) =>
      && s.writer.Reconciling? && s.writer.scan.todo == {} && s.writer.goal.BeginGoal?
      && !Blocked(s, s.writer.scan.seen, s.writer.goal.request.kind)
      && 1 <= number <= OperationIds.LAST_NUMBER
      && OperationIds.IsHighest(s.ops.Keys + s.junk, s.writer.goal.day, number - 1)
      && FirstJournal(OperationIds.OperationName(s.writer.goal.day, number), s.writer.goal.request).Ok?
    case RenameStaging =>
      s.writer.Creating? && s.writer.stage == Built && s.writer.created !in s.ops && s.writer.created !in s.junk
    case SyncNames => s.writer.Creating? && s.writer.stage == InPlace
    case Kill => true
    case LoseCounter(op) => op in s.ops
    case SetReadable(op, _, _) => op in s.ops
    case SetJunk(names) => names !! s.ops.Keys
    case WriteBack(op, _, _, _) => op in s.ops
    case PowerLoss(_, _, _) => true
  }

  function Synced(e: Entry): Entry {
    e.(counterOnDisk := e.counter, journalOnDisk := e.journal)
  }

  /** What was renamed may reach the disk before any sync. */
  function CaughtUp(e: Entry, counter: bool, journal: bool, name: bool): Entry {
    e.(counterOnDisk := if counter then e.counter else e.counterOnDisk,
       journalOnDisk := if journal then e.journal else e.journalOnDisk,
       named := e.named || name)
  }

  /** What is left of one directory once the power is back. */
  function Survivor(e: Entry, dropCounter: bool, dropJournal: bool): Entry {
    var c := if dropCounter then e.counterOnDisk else e.counter;
    var j := if dropJournal then e.journalOnDisk else e.journal;
    Entry(c, c, j, j, true, e.readable, e.newer)
  }

  function Survivors(s: System, names: set<Name>): set<Name> {
    set n | n in s.ops && (s.ops[n].named || n !in names)
  }

  function Apply(s: System, step: Step): System
    requires Enabled(s, step)
  {
    match step
    case StartCheckpoint(op, r) =>
      var e := s.ops[op];
      s.(writer := Writing(op, e.journal, NextSequence(e.counter, e.journal),
                           Some(NextJournal(e.counter, e.journal, r).value), Ready, Reply))
    case StartEmit(op) =>
      var e := s.ops[op];
      s.(writer := Writing(op, e.journal, NextSequence(e.counter, e.journal), None, Ready, Reply))
    case StartReconcile(bound, goal) =>
      var seen := set n | n in s.ops && s.ops[n].readable;
      var todo := set n | n in seen && n in s.ops && bound != Some(n) && Active(s.ops[n].journal);
      s.(writer := Reconciling(Scan(bound, seen, todo, {}), goal))
    case RenameCounter =>
      var op := s.writer.op;
      s.(ops := s.ops[op := s.ops[op].(counter := s.writer.spent)],
         writer := s.writer.(phase := CounterRenamed))
    case SyncDirectory =>
      var op := s.writer.op;
      s.(ops := s.ops[op := Synced(s.ops[op])],
         writer := s.writer.(phase := if s.writer.phase == CounterRenamed then CounterSynced else JournalSynced))
    case RenameJournal =>
      var op := s.writer.op;
      s.(ops := s.ops[op := s.ops[op].(journal := s.writer.next.value)],
         used := s.used[op := s.used[op] + [s.writer.spent]],
         writer := s.writer.(phase := JournalRenamed))
    case PutEvent => (
      match s.writer
      case Writing(op, _, spent, next, _, _) =>
        s.(events := s.events + [Event(op, spent, next.Some?)],
           used := if next.Some? then s.used else s.used[op := s.used[op] + [spent]],
           writer := s.writer.(phase := Announced))
      case Creating(op, first, _, _) =>
        s.(events := s.events + [Event(op, LastSequence(first), true)],
           writer := s.writer.(stage := Told)))
    case Answer => (
      match s.writer
      case Writing(op, _, _, next, _, after) =>
        var w := match after case Reply => Free case Resume(rest, upTo) => Reconciling(rest, upTo);
        s.(acks := if next.Some? && after.Reply? then s.acks + [Ack(op, next.value)] else s.acks, writer := w)
      case Creating(op, first, _, _) =>
        s.(acks := s.acks + [Ack(op, first)], writer := Free))
    case AbandonOne(op, stamp) =>
      var e := s.ops[op];
      var w := s.writer;
      s.(writer := Writing(op, e.journal, NextSequence(e.counter, e.journal),
                           Some(Abandon(e.counter, e.journal, stamp)), Ready,
                           Resume(w.scan.(todo := w.scan.todo - {op}), w.goal)))
    case SkipOne(op) =>
      var scan := s.writer.scan;
      s.(writer := s.writer.(scan := scan.(todo := scan.todo - {op}, left := scan.left + {op})))
    case StartCreate(number) =>
      var op := OperationIds.OperationName(s.writer.goal.day, number);
      s.(writer := Creating(op, FirstJournal(op, s.writer.goal.request).value, Built, s.writer.scan))
    case RenameStaging =>
      var op, j := s.writer.created, s.writer.first;
      s.(ops := s.ops[op := Entry(1, 1, j, j, false, true, false)],
         used := s.used[op := [1]],
         writer := s.writer.(stage := InPlace))
    case SyncNames =>
      s.(ops := map n | n in s.ops :: s.ops[n].(named := true),
         writer := s.writer.(stage := Durable))
    case Kill => s.(writer := Free)
    case LoseCounter(op) =>
      s.(ops := s.ops[op := s.ops[op].(counter := 0, counterOnDisk := 0)], lost := s.lost + {op})
    case SetReadable(op, readable, newer) => s.(ops := s.ops[op := s.ops[op].(readable := readable, newer := newer)])
    case SetJunk(names) => s.(junk := names)
    case WriteBack(op, counter, journal, name) =>
      s.(ops := s.ops[op := CaughtUp(s.ops[op], counter, journal, name)])
    case PowerLoss(counters, journals, names) =>
      var kept := Survivors(s, names);
      s.(ops := map n | n in kept && n in s.ops :: Survivor(s.ops[n], n in counters, n in journals),
         used := map n | n in kept && n in s.used :: s.used[n],
         lost := s.lost * kept,
         writer := Free)
  }

  // --- Runs.

  /** The state after a list of steps, each enabled when it is taken. */
  predicate Runs(s: System, steps: seq<Step>)
    decreases |steps|
  {
    steps == [] || (Enabled(s, steps[0]) && Runs(Apply(s, steps[0]), steps[1..]))
  }

  function StateAfter(s: System, steps: seq<Step>): System
    requires Runs(s, steps)
    decreases |steps|
  {
    if steps == [] then s else StateAfter(Apply(s, steps[0]), steps[1..])
  }
}
