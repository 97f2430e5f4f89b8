# Lifecycle state, release intake and reporting: a Dafny model

This project models the parts of the Circuit Breaker command line and its native helpers where a
mistake would be hard to see, and proves what they promise.

* **The lifecycle journal.** Operations are recorded in journals that walk a fixed transition table
  (`Journal`, `JournalFacts`, `JournalReach`), grow by three kinds of write (`Writes`), and are written by a
  crash-tolerant utility: a counter and a journal per operation, each replaced atomically under one
  writer lock, with a kill or a power loss possible between any two durable actions (`Protocol`,
  `ProtocolInvariant`, `ProtocolSteps`, `ProtocolRuns`, `ProtocolPower`). `Handlers` is the utility
  itself, an object whose every state lies on such a run; `Retention` decides which recovery points
  may go; `ExitResult` is what the coordinator reports when a native step dies.
* **Release intake.** A streaming tar scan (`ArchiveScan`, `PaxRecords`) against a declarative
  archive format (`ArchiveFormat`) and what its members declare (`ArchiveMeaning`), with a lexical link check that bounds the physical walk
  (`ArchiveLinks`), a resumable download over three files
  (`Download`), and an in-place snappy decoder (`Snappy`, `Bytes`).
* **Documents and streams.** The canonical JSON text and the scan of received texts (`Canonical`,
  `JsonScan`, `CanonicalScan`), redaction of free text (`Redaction`), and the event descriptor from
  the native utility to the coordinator (`Events`, `EventRelay`).
* **Ordering and totals.** Version precedence in its two implementations (`Versions`) and resource
  totals over nested scopes (`Resources`).

`Options`, `Sequences` and `Texts` hold small shared definitions. `dafny verify dfyconfig.toml` checks everything.

Code that updates things step by step is a class or a method with loops, tied by its contract to a
function or predicate on values; the results over all inputs and all runs are lemmas about those.
The environment enters as parameters: the answers of a server, the masking pass of redaction, the
JSON parser's reading of a string, the spelling of a tar number field, the validity of an event.

## What turned out not to hold

Each of these is proved as it is, with the exact condition under which the promise does hold.

* Every legal journal can still finish: not a legacy record parked as `interrupted`
  (`JournalFacts.FinishableExactly`, `Writes.AbandonedLegacyNeverFinishes`).
* Every journal in progress has a legal abandoned record: not once a sequence or generation would
  leave the safe integers (`Writes.AbandonIsLegal`, `ProtocolRuns.OnlyExhaustedIsLeft`).
* At most one transaction is unfinished: a power loss can bring one back whose closing record was
  renamed but not synced, since begin looks at visible journals only. The exact guard it would need,
  and that the guard is enough over every run, are proved (`ProtocolPower.PowerSafeRunsExactly`,
  `ProtocolPower.GuardIsClosingSynced`, `ProtocolPower.PowerLossReopensATransaction`).
* The partial file is always a prefix of the content: not after a 206 for later bytes to a request
  without a range (`Download.SafeExactlyWhenSolicited`, `Download.UnsolicitedAnswerIsServed`).
  Digest and signature checks after the download are what catches this.
* `compareVersions` is an order: not between two spellings of one numeric identifier
  (`Versions.AntisymmetricExactly`, `Versions.RespelledVersions`).

Where code and documentation differ the model follows the code: the contract document says a
`manual` record repeats the cause and error of the record it closes, which neither validator checks;
and a pax record named `__proto__` is parsed and then neither kept nor refused, because the table is
a plain JavaScript object (`PaxRecords.Stored`).

## Model

| member | source | states |
|---|---|---|
| `Journal.CheckWalk` | deploy/scripts/lifecycle-state.py:533-585 | The validator's loop, with its running count of recovery attempts, accepts a record list if and only if the list satisfies the declarative walk rules. |
| `Journal.AttemptsPrefix` | deploy/scripts/lifecycle-state.py:565-573 | A prefix of the records never holds more recovery attempts than the whole, which is why stopping at the first excess is right. |
| `JournalFacts.RecordsUpTo` | deploy/scripts/lifecycle-state.py:533-585 | Along every legal walk the number of records so far is bounded by the state reached, whether it has a step, and the attempts used. |
| `JournalFacts.WalkIsBounded` | deploy/scripts/lifecycle-state.py:533-585 | The walk rules alone stop a transaction at 23 records and a legacy record at 8, so the 32-record cap of the schema never refuses a legal next record. |
| `JournalFacts.BoundsAreTight` | deploy/scripts/lifecycle-state.py:533-585 | Both bounds are reached by legal journals. |
| `JournalFacts.WalkSnoc` | deploy/scripts/lifecycle-state.py:533-585 | Appending one record that is legal by itself and after the last one, within the attempt limit, keeps the walk legal. |
| `JournalFacts.PreMutationPlace` | deploy/scripts/lifecycle-state.py:533-585 | A record before mutation stands at the index of its state; every record before it is open and stands at its own. |
| `JournalFacts.MutationFollowsRecoveryPoint` | deploy/scripts/lifecycle-state.py:533-585 | Any transaction record at or past `applying` comes after planned, staged and verified, and unless the action is an install also after `recovery_saved`. |
| `JournalFacts.SequencesRise` | deploy/scripts/lifecycle-state.py:533-585 | Sequences strictly rise along every legal walk. |
| `JournalFacts.TransactionOrder` | deploy/scripts/lifecycle-state.py:533-585 | In every valid transaction journal: mutation only after a saved point that the journal names (installs aside), `committed` directly after `checking`, nothing after an outcome, rising sequences. |
| `JournalFacts.FinishableExactly` | specs/install/lifecycle-contract.md:271-276 | The documented promise that every legal journal can still finish holds if and only if the journal is not a legacy record whose last record is `interrupted`. |
| `JournalReach.CommittableExactly` | deploy/scripts/lifecycle-state.py:533-585 | An open journal can still be continued legally to a commit if and only if it has not begun to recover, was not given up and awaits no recovery, for both kinds and every action. |
| `JournalReach.RecoverableExactly` | deploy/scripts/lifecycle-state.py:533-585 | An open journal can still be continued to `recovered` if and only if a recovery is under way or may yet begin: fewer than three attempts in a transaction, and no parking before it in a legacy record. |
| `Writes.ExtendsTransitive` | deploy/scripts/lifecycle-state.py:1797-1830 | Being a later version of a journal (every record kept, or replaced by a later step of its state; recovery reference and identity unchanged) composes over any number of writes. |
| `Writes.ClosedIsFinal` | deploy/scripts/lifecycle-state.py:1158-1160 | A journal closed by an outcome has no later version but itself. |
| `Writes.MaxSequenceIsLast` | deploy/scripts/lifecycle-state.py:1441-1444 | The highest recorded sequence is that of the last record, at every prefix of a legal walk. |
| `Writes.NextSequenceIsNew` | deploy/scripts/lifecycle-state.py:1441-1444 | The next sequence is above the counter and above every recorded one, by no more than one beyond the larger of the two. |
| `Writes.NextJournalExtends` | deploy/scripts/lifecycle-state.py:1797-1830 | An accepted checkpoint request yields a valid later version of the journal, one generation on, whose last record has the requested state and the fresh sequence. |
| `Writes.NextJournalCarries` | deploy/scripts/lifecycle-state.py:1797-1830 | The accepted journal carries the named recovery reference (else the old one), the old evidence and the requested item, and one last record with exactly the requested state, step, cause, outcome and error, the previous state when interrupted, and the number after the larger of counter and last record; the record count grows by one unless a stepped record of that state was replaced, and nothing else changes. |
| `Writes.AcceptsExactly` | deploy/scripts/lifecycle-state.py:1797-1830 | A checkpoint of a valid journal is accepted if and only if members that belong together are given together, a named reference does not clash, a point is named before it is called saved, numbers stay safe integers, the evidence has room, and the requested record is legal by itself and may follow the last one within the attempt limit, or takes the place of a stepped record of its state. |
| `Writes.WalkReplaced` | deploy/scripts/lifecycle-state.py:1806-1816 | A later step of the same state may always take the place of a stepped last record: the walk stays legal. |
| `Writes.AbandonIsLegal` | deploy/scripts/lifecycle-state.py:1538-1566 | For every valid journal in progress, the record reconciliation writes is legal if and only if the next sequence and generation are still safe integers; it ends progress, closes exactly the operations that had changed nothing, and loses nothing. |
| `Writes.AbandonParks` | deploy/scripts/lifecycle-state.py:1538-1566 | The parked journal is the old one with one more record: interrupted, abandoned, naming the state it was left in, closed exactly before mutation, without step or error, under the next number, generation and stamp. |
| `Writes.LegacyNeverPreMutation` | deploy/scripts/lifecycle-state.py:533-585 | No record of a legacy walk is in a pre-mutation state. |
| `Writes.AbandonedLegacyNeverFinishes` | deploy/scripts/lifecycle-state.py:1538-1566 | So a legacy operation that reconciliation parked can never be closed by any legal continuation. |
| `Writes.FirstJournalIsLegal` | deploy/scripts/lifecycle-state.py:1693-1711 | A begin request has a legal first journal if and only if members that belong together are given together, a transaction binds a plan digest (a legacy record none) and names a release where its action resolves one; that journal carries the request's action, plan digest, target, recovery reference and evidence, and one plain first record, at generation and sequence 1. |
| `OperationIds.TodayHighest` | deploy/scripts/lifecycle-state.py:1653-1659 | The scan of the listing finds the highest number among the names of that day. |
| `OperationIds.NameReadsBack` | deploy/scripts/lifecycle-state.py:1653-1692 | A formatted identifier is read back as its own number on its own day, and has three digits below a thousand. |
| `OperationIds.AllocatedIsFresh` | deploy/scripts/lifecycle-state.py:1685-1692 | The identifier allocated after the highest one is in no listing. |
| `ProtocolSteps.StepKeepsInv` | deploy/scripts/lifecycle-state.py:1593-1867 | Every step of every request, kill, power loss, early write-back, counter loss or change of readability keeps the protocol invariant (valid journals, on-disk extended by visible, counters ahead of everything used, acknowledgements on disk, the request in flight and its reconciliation consistent with its phase). |
| `ProtocolSteps.SkippedIsExhausted` | deploy/scripts/lifecycle-state.py:1538-1566 | Reconciliation skips a record only when its next sequence or generation is beyond the safe integers. |
| `ProtocolRuns.RunKeepsInv` | deploy/scripts/lifecycle-state.py:1593-1867 | The invariant holds after every finite interleaving of requests, crashes and restarts. |
| `ProtocolRuns.EventSequencesRise` | deploy/scripts/lifecycle-state.py:1833-1864 | Over every run, the sequences an operation puts on the event descriptor strictly rise while its counter survives, and those of its checkpoint events even if the counter file is lost. |
| `ProtocolRuns.EventSequencesArePositive` | deploy/scripts/lifecycle-state.py:1441-1444 | Every event carries a positive sequence. |
| `ProtocolRuns.SequencesSpentOnce` | deploy/scripts/lifecycle-state.py:1429-1444 | While the counter survives no sequence is put on two records or events, whatever was killed in between. |
| `ProtocolRuns.RunGrowsDurably` | deploy/scripts/lifecycle-state.py:1018-1038 | From any reachable state on, power losses included, the on-disk journal of every operation whose name is on disk only grows. |
| `ProtocolRuns.RunGrowsVisibly` | deploy/scripts/lifecycle-state.py:1018-1038 | Without a power loss the same holds of the visible journal. |
| `ProtocolRuns.AcknowledgedIsKept` | deploy/scripts/lifecycle-state.py:1752-1791 | An acknowledged record is in the on-disk and the visible journal at every later point of every run, unless a later step of the same state replaced it. |
| `ProtocolRuns.GenerationsAcknowledgedOnce` | deploy/scripts/lifecycle-state.py:1771-1777 | No two acknowledgements of an operation share a generation, so of two writers naming the same generation at most one succeeds. |
| `ProtocolRuns.AnswersNextGeneration` | deploy/scripts/lifecycle-state.py:1797-1830 | A request is answered with the generation after the one it named. |
| `ProtocolRuns.WriteIsAllOrNothing` | deploy/scripts/lifecycle-state.py:1018-1038 | A write killed or cut off at any point leaves the whole old or the whole new journal, or, before its own first sync, an older one that was never synced away. |
| `ProtocolRuns.StepOpensNone` | deploy/scripts/lifecycle-state.py:1662-1732 | No step reopens a finished transaction, and only the rename of a begin adds an operation. |
| `ProtocolRuns.StepKeepsSingle` | deploy/scripts/lifecycle-state.py:1569-1579 | From a state with at most one unfinished transaction a step leads to one if and only if it is not a power loss that takes back a closing record beside another transaction it leaves open or reopens. |
| `ProtocolRuns.AtMostOneOpenTransaction` | deploy/scripts/lifecycle-state.py:1569-1579 | Over every run, any number of power losses included: every state has at most one unfinished transaction if and only if no power loss of the run reopens one beside another. |
| `ProtocolRuns.RunKeepsAlone` | deploy/scripts/lifecycle-state.py:1662-1686 | At every point of every run, while a begin creates a transaction no other one is open in the visible journals. |
| `ProtocolRuns.BeginLeavesOneInProgress` | deploy/scripts/lifecycle-state.py:1662-1732 | When a begin is about to answer, its operation is valid, durable and in progress, and no other record it read is, unless that ran out of safe numbers or lost its counter; a begin of a transaction has read every other record. |
| `ProtocolRuns.OnlyExhaustedIsLeft` | deploy/scripts/lifecycle-state.py:1538-1579 | Over every run, once a reconciliation has no more to park, a record it read is still in progress only when its next sequence or generation is beyond the safe integers, its counter was lost, or it is the lock's own: otherwise the "no legal interrupted record" branch is unreachable. |
| `ProtocolRuns.BeginIsAllOrNothing` | deploy/scripts/lifecycle-state.py:1715-1727 | A begin killed or cut off anywhere leaves no operation or a complete valid one. |
| `ProtocolPower.PowerSafeIsDurablySingle` | deploy/scripts/lifecycle-state.py:1018-1038 | In every reachable state, no power loss leaves two unfinished transactions if and only if at most one is unfinished by what is on disk; then at most one is unfinished visibly too. |
| `ProtocolPower.StepKeepsDurablySingle` | deploy/scripts/lifecycle-state.py:1722-1723 | A step from such a state leads to one if and only if it does not put a transaction in place while another is unfinished on disk: the guard begin lacks. |
| `ProtocolPower.PowerSafeRunsExactly` | deploy/scripts/lifecycle-state.py:1569-1579 | Over every run, any number of power losses included: every state is safe against the next power loss if and only if every placement met that guard; and then at most one transaction is ever unfinished. |
| `ProtocolPower.GuardIsClosingSynced` | deploy/scripts/lifecycle-state.py:1674-1686 | When a begin is about to put a transaction in place, the guard is met if and only if the closing record of every other closed transaction was synced, which begin does not check. |
| `ProtocolPower.PowerSafeExactly` | deploy/scripts/lifecycle-state.py:1662-1732 | From then on until it answers, in every run, every power loss leaves at most one unfinished transaction if and only if the closing record of every other one was synced. |
| `ProtocolPower.BeginCompletes` | deploy/scripts/lifecycle-state.py:1662-1732 | From any quiet state an uninterrupted begin runs through and leaves exactly the new operation added, durable and answered. |
| `ProtocolPower.PowerLossReopensATransaction` | deploy/scripts/lifecycle-state.py:1018-1038 | A concrete run in which a process killed between rename and directory sync, a later begin and a power loss leave two unfinished transactions. |
| `Retention.Retain` | deploy/scripts/lifecycle-state.py:1512-1532 | Protected references are those unfinished operations hold and that of a committed operation no other committed one was written later than; protected and releasable are disjoint, together they are all references when every record is readable, and nothing is releasable otherwise. |
| `Retention.HeldPointIsNeverReleased` | deploy/scripts/lifecycle-state.py:1512-1532 | Over whole runs, power losses included, a recovery point an operation durably holds stays its reference and is never releasable while the operation is unfinished. |
| `Handlers.Utility.Do` | deploy/scripts/lifecycle-state.py:1018-1038 | One durable action moves the object along a run of the protocol, so everything proved of runs holds of every state it passes. |
| `Handlers.Utility.WriteRecord` | deploy/scripts/lifecycle-state.py:1777-1786 | Counter first, then journal, each replaced and synced: the whole new state, nothing else changed. |
| `Handlers.Utility.HandleCheckpoint` | deploy/scripts/lifecycle-state.py:1752-1794 | Accepted if and only if the lock is bound to that operation, its record is readable, the request names its generation and is acceptable; the journal left, on disk and visible, then carries exactly what the request asked for, announced and acknowledged. A refusal changes nothing and has the code of its reason. |
| `Handlers.Utility.HandleEmit` | deploy/scripts/lifecycle-state.py:1833-1867 | Accepted if and only if the lock is bound to that operation, its record is readable, the members are legal and a safe sequence is left; the answer is the number after the larger of counter and last record, and only the counter and the event stream change. A refusal changes nothing and has the code of its reason. |
| `Handlers.Utility.SpendOne` | deploy/scripts/lifecycle-state.py:1853-1864 | The counter is durable before the event line is written, under the next sequence. |
| `Handlers.Utility.Reconcile` | deploy/scripts/lifecycle-state.py:1569-1579 | Every readable operation left in progress, other than the lock's own, is parked with its interrupted record; every other entry is untouched. |
| `Handlers.Utility.ParkOne` | deploy/scripts/lifecycle-state.py:1538-1566 | One operation is parked, or left as it is when no legal record exists. |
| `Handlers.ParkedExactly` | deploy/scripts/lifecycle-state.py:1538-1566 | What parking makes of an entry: while its numbers still fit, the interrupted record on top of an otherwise unchanged journal, on disk and visible; otherwise the entry as it was. |
| `Handlers.Utility.HandleBegin` | deploy/scripts/lifecycle-state.py:1662-1732 | Refused with MANUAL if and only if an unfinished transaction (or, before a transaction, an unreadable entry) is in the way after parking; otherwise refused if and only if the day has no identifier left or the request no legal first record; on success the operation after the day's highest is added, durable, announced and answered, its journal carries what the request said, and no other readable transaction is open. |
| `Handlers.Utility.PlaceDirectory` | deploy/scripts/lifecycle-state.py:1715-1723 | The complete staging directory appears under its name and its name is synced. |
| `Handlers.Utility.Create` | deploy/scripts/lifecycle-state.py:1693-1730 | The durable part of a begin, from the first journal to the answer. |
| `Handlers.Utility.ReadRecords` | deploy/scripts/lifecycle-state.py:1143-1149 | The records read are exactly those of the readable operations, with a doubtful one if and only if some entry cannot be read. |
| `Handlers.Utility.HandleList` | deploy/scripts/lifecycle-state.py:1870-1896 | After parking, the report is complete exactly when every entry is readable, splits all references then and releases none otherwise, never releases a reference an unfinished operation holds, and protects that of a committed operation written no earlier than any other. |
| `ExitResult.ExitResultIsValid` | packages/cli/src/lifecycle-state.js:225-276 | A result built from an exit status and a journal (or none) satisfies every result rule if and only if the action is not history and a resolved release is named where the action needs one. |
| `ExitResult.ExitResultIsHonest` | packages/cli/src/lifecycle-state.js:225-276 | It never claims success, says refused only when no record is at or past `applying`, reports recovery_required exactly for such a journal, and names operation and recovery point as the journal has them. |
| `ExitResult.ExitResultExactly` | packages/cli/src/lifecycle-state.js:225-276 | With no operation, or an open journal that had changed nothing, the error code is USAGE, UNSUPPORTED, NETWORK, TRUST, PERMISSION, PREFLIGHT or LOCKED for status 2, 3, 4, 5, 6, 7 or 10 and INTERRUPTED for 130 to 192; a journal closed as refused or awaiting recovery speaks with the error of its last record; every other one is INTERRUPTED. Both versions are the caller's. |
| `ExitResult.ExitResultDeclinesExactly` | packages/cli/src/lifecycle-state.js:225-250 | It declines exactly for statuses without a meaning of their own, a missing journal, a journal the contract refuses, or one closed in success. |
| `ExitResult.VerdictFits` | packages/cli/src/lifecycle-contract.js:179-184 | Each verdict uses an error code its outcome allows; refused only before mutation. |
| `ExitResult.PreMutationTouchesNothing` | packages/cli/src/lifecycle-contract.js:302-341 | A valid journal whose last record is pre-mutation has no record at or past `applying`. |
| `Snappy.RepeatIsThePeriodicRun` | packages/cli/src/snappy.js:70-74 | A copy appends the one run of its length in which every byte equals the one `offset` places before it, overlaps included. |
| `Snappy.NextOfEncode` | packages/cli/src/snappy.js:39-69 | Reading the encoding of any element gives that element and its length, whatever follows. |
| `Snappy.EncodeOfNext` | packages/cli/src/snappy.js:39-69 | An element is read only from its own encoding. |
| `Snappy.RunOfEncodeAll` | packages/cli/src/snappy.js:33-78 | Decoding the encoding of a well-formed list of elements yields exactly its expansion. |
| `Snappy.EncodeAllOfRun` | packages/cli/src/snappy.js:33-78 | Whatever decodes is the encoding of some well-formed list with that expansion. |
| `Snappy.MeansOneThing` | packages/cli/src/snappy.js:33-78 | An input stands for at most one output. |
| `Snappy.ReadLength` | packages/cli/src/snappy.js:13-24 | The varint header is read exactly when it ends within five bytes and fits 32 bits, with its declared value. |
| `Snappy.ReadLittleEndian` | packages/cli/src/snappy.js:26-31 | The little-endian value of the bytes asked for, or nothing when they run past the input. |
| `Snappy.RepeatInPlace` | packages/cli/src/snappy.js:73-74 | The byte-by-byte copy inside the one output buffer leaves the periodic run. |
| `Snappy.TakeLiteral` | packages/cli/src/snappy.js:43-56 | One literal element: the buffer, both positions and the refusals are those of the element read. |
| `Snappy.TakeCopy` | packages/cli/src/snappy.js:58-75 | The same for one copy element. |
| `Snappy.SnappyDecode` | packages/cli/src/snappy.js:33-78 | The in-place decoder returns the output the input stands for, and refuses exactly the inputs that stand for none. |
| `ArchiveLinks.SegmentsOfJoin` | packages/cli/src/archive-check.js:35-40 | Joining clean segments and splitting again gives the same segments, so a joined text in the symlink set stands for one path. |
| `ArchiveLinks.SegmentsAreClean` | packages/cli/src/archive-check.js:35-40 | Every segment a split produces is non-empty, is not a dot and holds no slash. |
| `ArchiveLinks.CheckLink` | packages/cli/src/archive-check.js:44-64 | The stack walk over a link target accepts it if and only if the target is relative, never climbs above the root, meets no symlink before its last part, and (for a hard link) does not end at one. |
| `ArchiveLinks.LinkOkExactly` | packages/cli/src/archive-check.js:44-64 | A link passes if and only if its target is relative and not empty and there is a walk along it, following no link and never above the root, that stands on no symlink of the archive before its last place, nor, for a hard link, there. |
| `ArchiveLinks.CrossCheck` | packages/cli/src/archive-check.js:114-126 | The two loops over all entries and links decide exactly whether no entry is written through a symlink and every link is acceptable. |
| `ArchiveLinks.LinksNeverEscape` | packages/cli/src/archive-check.js:44-64 | In an accepted archive, following any link component by component, and further links to any depth in any extraction order, never climbs above the bundle root. |
| `ArchiveLinks.EntriesAreWrittenDirectly` | packages/cli/src/archive-check.js:114-120 | Whatever was extracted before, the walk to an entry follows no link before its last part. |
| `ArchiveLinks.LexicalAgreesWithPhysical` | packages/cli/src/archive-check.js:44-64 | The lexical stack is where the physical walk of an accepted target stands at every step before its last part is resolved. |
| `ArchiveLinks.EntriesNeverEscape` | packages/cli/src/archive-check.js:114-126 | Nor does the walk to any entry ever leave the bundle. |
| `PaxRecords.BodyOfNext` | packages/cli/src/archive-check.js:71-84 | A record is read only from bytes that are exactly that record, its decimal length counting itself. |
| `PaxRecords.DecimalIsPositional` | packages/cli/src/archive-check.js:75-76 | A run of digits is read in base ten, highest digit first. |
| `PaxRecords.NextOfBody` | packages/cli/src/archive-check.js:71-84 | And the bytes of a well-formed record give it back, whatever follows. |
| `PaxRecords.RecordsExactly` | packages/cli/src/archive-check.js:68-86 | A header is accepted if and only if it is a concatenation of well-formed records, and in only one way. |
| `PaxRecords.ParsePax` | packages/cli/src/archive-check.js:68-86 | The loop returns the table of those records, later ones overriding, or nothing. |
| `ArchiveScan.CheckChecksum` | packages/cli/src/archive-check.js:26-30 | The checksum loop counts the header with its own field read as eight spaces. |
| `ArchiveScan.FieldExactly` | packages/cli/src/archive-check.js:10-14 | A header field is the longest beginning of its bytes without a zero byte. |
| `ArchiveScan.DrainInTwo` | packages/cli/src/archive-check.js:129-215 | Working off a longer buffer is working it off in two parts, in every mode of the scanner. |
| `ArchiveScan.FeedAllFlattens` | packages/cli/src/archive-check.js:129-215 | Feeding chunks one by one is feeding their concatenation. |
| `ArchiveScan.ChunksDoNotMatter` | packages/cli/src/archive-check.js:92-215 | For every split into chunks the verdict, entry count and byte total are those of one parse of the concatenated bytes. |
| `ArchiveScan.EntryKeepsSound` | packages/cli/src/archive-check.js:182-213 | Each accepted entry is counted, has no parent segment, keeps both limits and clears what the extended headers had announced. |
| `ArchiveScan.AcceptedArchive` | packages/cli/src/archive-check.js:163-168 | An accepted archive passed the cross check over all its entries and links, counted every entry and kept both limits. |
| `ArchiveScan.AcceptedArchiveIsContained` | packages/cli/src/archive-check.js:92-215 | When the scan accepts, whatever the chunks, no walk to an entry and no chain of links ever leaves the bundle. |
| `ArchiveScan.ArchiveScanner.TakeHeader` | packages/cli/src/archive-check.js:160-181 | One header block moves the object as the machine says, with its own symlink set kept equal to that of its links. |
| `ArchiveScan.ArchiveScanner.TakeEntry` | packages/cli/src/archive-check.js:182-191 | Size, name and link of an entry come from the extended headers when they announced them; what that means over the members of an archive is `ArchiveMeaning.MemberExactly`. |
| `ArchiveScan.ArchiveScanner.PlaceEntry` | packages/cli/src/archive-check.js:192-213 | Limits, name and type checks, bookkeeping and the bytes to skip. |
| `ArchiveScan.ArchiveScanner.TakeExtension` | packages/cli/src/archive-check.js:145-155 | A complete extended header announces path, link path or size, or refuses. |
| `ArchiveScan.ArchiveScanner.TakeCollected` | packages/cli/src/archive-check.js:139-159 | Bytes of an extended header are collected until it is complete. |
| `ArchiveScan.ArchiveScanner.Write` | packages/cli/src/archive-check.js:129-215 | One chunk worked off in place leaves the object in exactly the state the machine reaches. |
| `ArchiveScan.ArchiveScanner.Finish` | packages/cli/src/archive-check.js:216-217 | The end of the stream settles an unsettled scan as a failure and changes nothing else. |
| `ArchiveScan.ScanArchive` | packages/cli/src/archive-check.js:237-249 | Scanning a stream chunk by chunk gives the verdict of the one-shot parse of its bytes. |
| `ArchiveFormat.ExtrasAreRead` | packages/cli/src/archive-check.js:139-181 | The extended headers of one member, with blanks before them, are read as what they announce together. |
| `ArchiveFormat.MembersAreRead` | packages/cli/src/archive-check.js:129-215 | Parsing the bytes of a well-formed list of members, whatever follows the end marker, is folding over the list. |
| `ArchiveFormat.ParsesBack` | packages/cli/src/archive-check.js:129-215 | Every accepted archive is the bytes of a well-formed list of members: extended headers and then their one entry, padded as its size says, and two zero blocks. |
| `ArchiveFormat.ScanFoldsMembers` | packages/cli/src/archive-check.js:92-215 | For every split into chunks the scan of an archive gives the verdict of its members, each entry under its own extended headers and no other's. |
| `ArchiveFormat.AcceptedExactly` | packages/cli/src/archive-check.js:92-215 | The scan accepts with given totals if and only if the bytes begin with an archive whose members fold to those totals. |
| `ArchiveMeaning.LastOfExactly` | packages/cli/src/archive-check.js:82-82 | Of several records of one key in a pax header the last one counts. |
| `ArchiveMeaning.ExtensionExactly` | packages/cli/src/archive-check.js:145-155 | One extended header announces its path (type L), its link path (type K), or the last path, link path and size records it holds (type x), each over what was announced before; it is refused exactly when a pax header does not parse or uses an unknown key. |
| `ArchiveMeaning.AnnouncedExactly` | packages/cli/src/archive-check.js:145-155 | The extended headers of one member announce, for path, link path and size, what the last of them to mention it says. |
| `ArchiveMeaning.MemberExactly` | packages/cli/src/archive-check.js:182-213 | A member is counted if and only if it is lawful and there is room for it; it adds its name (announced path, else prefix and name of its header), its bytes if it is a file (announced size, else that of its header), and, exactly for types 1 and 2, its link under its announced target, else the one of its header. |
| `ArchiveMeaning.ScanAcceptsExactly` | packages/cli/src/archive-check.js:92-215 | For every split into chunks, the scan accepts with given totals if and only if the bytes begin with a lawful archive that declares them: as many entries as members, the sum of the sizes of its files, the names and links of its members in order, within both limits and past the cross check. |
| `ArchiveMeaning.ExtractionStaysInside` | packages/cli/src/archive-check.js:113-126 | When the scan accepts an archive, neither the walk to the declared name of a member nor that to a declared link target, through any links in any order, ever leaves the bundle. |
| `Download.AttemptOk` | packages/cli/src/release-download.js:25-66 | One attempt against an honest answer keeps the partial file a prefix of the content the sidecar names, at every byte written, and completes only with the declared size. |
| `Download.StageOk` | packages/cli/src/release-download.js:90-124 | Every state of a whole call, at every point it could be killed, is consistent; the file a successful call returns is the content up to its declared size; at most retries + 1 requests are made. |
| `Download.FinishedIsReused` | packages/cli/src/release-download.js:93-94 | A finished file beside its own sidecar is always reused and nothing is written. |
| `Download.HistoryKeepsDisk` | packages/cli/src/release-download.js:76-124 | After any history of downloads and discards of any assets under one name, each killed anywhere, the three files are consistent. |
| `Download.SuccessIsTheContent` | packages/cli/src/release-download.js:90-124 | So whatever happened before, a call that reports success leaves exactly the asset's content in the final file. |
| `Download.SafeExactlyWhenSolicited` | packages/cli/src/release-download.js:26-39 | An attempt keeps a prefix for every content and honest body if and only if the answer is not a 206 for other than the first bytes to a request without a range, which the code does not check. |
| `Download.UnsolicitedAnswerIsServed` | packages/cli/src/release-download.js:25-39 | A concrete honest server whose unsolicited 206, cut short and resumed, ends in a finished file of the right size and wrong bytes. |
| `Download.StageCompletes` | packages/cli/src/release-download.js:107-123 | With room on the disk a call succeeds if any of its retries + 1 requests is answered in full, whatever passing failures came before. |
| `Download.StageResumes` | packages/cli/src/release-download.js:93-123 | Starting from the bytes an earlier call left under the same identity, a call asks each time for exactly what is still missing, through interruptions, unreachable or failing servers, ignored or wrong ranges and short bodies, and ends with the whole content after as many requests as the server needed, whatever it would answer to any other request. |
| `Download.EveryByteIsStored` | packages/cli/src/release-download.js:49-57 | A call may be killed after every single byte it stores: each longer beginning of the content is a state it passes, beside the sidecar of the asset and no final file. |
| `Download.StageFails` | packages/cli/src/release-download.js:90-123 | Too little room is reported if and only if the free space is below the bytes still missing and 64 MiB; an invalid size and a reuse exactly when they are; passing trouble only after the last retry, and bytes that cannot belong are then gone. |
| `Download.RefusalStops` | packages/cli/src/release-download.js:114-119 | A status below 500 ends the call at its first request, and the bytes stay for the next one. |
| `Download.WriteFailureStops` | packages/cli/src/release-download.js:55-59 | So does a write the disk refuses; every byte it stored stays. |
| `Download.DiscardOk` | packages/cli/src/release-download.js:76-79 | Every state of a discard is consistent, and nothing is left. |
| `Download.Staging.TakeBody` | packages/cli/src/release-download.js:49-65 | The body loop writes the chunks, refuses a body too long or too short, and passes exactly the states of the specification. |
| `Download.Staging.TakeAnswer` | packages/cli/src/release-download.js:25-48 | Range check, truncation or append, and the refusals, as specified. |
| `Download.Staging.TryOnce` | packages/cli/src/release-download.js:107-122 | One round: resume point, attempt, then rename or cleaning up. |
| `Download.Staging.TryAll` | packages/cli/src/release-download.js:107-123 | The retry loop passes exactly the states of the specification and stops as it says. |
| `Download.Staging.StageAsset` | packages/cli/src/release-download.js:90-124 | The whole call: reuse, removal of what belongs to another identity, the space check before the first byte, the sidecar, the retries; every state on the way is recorded. |
| `Download.Staging.DownloadAsset` | packages/cli/src/release-download.js:81-124 | On the files themselves: a call resumes from the bytes it finds under the same identity and leaves exactly the content, with no partial file, after the requests the server needed; it reports too little room if and only if what is missing and the margin do not fit. |
| `Download.Staging.DiscardAsset` | packages/cli/src/release-download.js:76-79 | Final file, partial file and sidecar go in that order. |
| `Events.FramesInTwo` | packages/cli/src/events.js:107-140 | Framing a stream in two parts is framing the whole, over-long lines included. |
| `Events.FramesAreTheLines` | packages/cli/src/events.js:107-140 | The frames of a stream are its lines between newlines in order, each longer one cut to the bound, and what follows the last newline is held, or framed at once when it is already too long. |
| `Events.HoldsLittle` | packages/cli/src/events.js:113-131 | Between chunks at most the bound's bytes of one unfinished line are held. |
| `Events.LineSplitter.Turn` | packages/cli/src/events.js:115-131 | One turn of the splitter adds exactly the frames the bytes up to the next newline complete. |
| `Events.LineSplitter.Push` | packages/cli/src/events.js:113-132 | Over all chunks the frames handed on are those of the stream, and what is kept is its unfinished line. |
| `Events.LineSplitter.Rest` | packages/cli/src/events.js:134-138 | What is left is the unfinished line, or the news that it was dropped. |
| `Events.EventDecoder.Accept` | packages/cli/src/events.js:148-169 | A line is accepted or rejected as its parse, source and sequence say, and only acceptance moves the last sequence. |
| `Events.EventDecoder.Push` | packages/cli/src/events.js:176-176 | Reports so far are those of the frames of everything pushed. |
| `Events.EventDecoder.End` | packages/cli/src/events.js:177-180 | Closing rejects a line left unfinished, and only one that was not already dropped. |
| `Events.Decode` | packages/cli/src/events.js:146-182 | For every split into chunks the reports, in order, are those of the stream. |
| `Events.AcceptedEventsRise` | packages/cli/src/events.js:161-168 | Of two accepted events of one operation the later has the higher sequence. |
| `Events.AcceptedIsTheLine` | packages/cli/src/events.js:148-169 | Nothing is accepted but the native event a whole line parses to; an over-long, invalid or coordinator-claimed line is rejected under its own reason. |
| `Events.DroppedExactly` | packages/cli/src/events.js:161-168 | A valid native event is dropped if and only if its sequence is not positive or an event already accepted for its operation has one as high. |
| `Events.EventWriter.Emit` | packages/cli/src/events.js:31-41 | A valid coordinator event is sent under the next number of its operation; a refused one is not sent and its number stays free. |
| `Events.EventWriter.Relay` | packages/cli/src/events.js:62-64 | A relayed event takes no number. |
| `Events.OwnEventsRise` | packages/cli/src/events.js:28-41 | Own events of an operation strictly rise along the stream, whatever is relayed between. |
| `EventRelay.FramesOfWritten` | packages/cli/src/events.js:107-140 | Lines of any length written one after the other, and an unfinished one of any length, are framed back one by one, each over-long one as its first bytes only. |
| `EventRelay.PieceIsReported` | packages/cli/src/events.js:146-182 | A whole line is accepted unless it is glued to what a stopped writer left directly before it. |
| `EventRelay.RisingStreamIsRelayed` | packages/cli/src/events.js:146-182 | Of rising native events every whole line that does not directly follow an unfinished one is relayed in order, however the bytes were cut and however often a writer stopped in the middle of a line; a glued line is rejected, and an unfinished one at the end too. |
| `EventRelay.NativeEventsAreRelayed` | deploy/scripts/lifecycle-state.py:1342-1423 | In every run of the native utility without a lost counter, whatever was killed, the events of any of its processes reach the coordinator in order, all but those whose line directly follows another process's unfinished one. |
| `Canonical.ReadsEscaped` | packages/cli/src/lifecycle-contract.js:55-58 | Every escape the printer writes is read back as its character by the escapes of section 7 of RFC 8259. |
| `Canonical.QuotedIsUnique` | packages/cli/src/lifecycle-contract.js:55-58 | An escaped string in quotes can be read back in only one way, whatever follows. |
| `Canonical.SignedIsUnique` | packages/cli/src/lifecycle-contract.js:59-62 | So can a number. |
| `Canonical.PrintIsUnique` | packages/cli/src/lifecycle-contract.js:52-72 | Printing in a given member order is unambiguous on all values, nested to any depth. |
| `Canonical.SortedIsUnique` | packages/cli/src/lifecycle-contract.js:65-70 | There is one way to put members in name order. |
| `Canonical.NamesAreInOrder` | packages/cli/src/lifecycle-contract.js:65-70 | Of two members of an object, the one whose name is a beginning of the other's, or has the smaller character where they first differ, is printed first. |
| `Texts.TextLessExactly` | packages/cli/src/lifecycle-contract.js:65-70 | A text is less than another if and only if it is a proper beginning of it, or its character is the smaller at the first place where they differ. |
| `Canonical.NormalKeepsMeaning` | packages/cli/src/lifecycle-contract.js:65-70 | Sorting the members of every object leaves the JSON value. |
| `Canonical.SameMeaningSameNormal` | packages/cli/src/lifecycle-contract.js:65-70 | Equal JSON values have the same sorted form. |
| `Canonical.CanonicalTextIsTheValue` | packages/cli/src/lifecycle-contract.js:52-78 | Two printable values have the same canonical text if and only if they are the same JSON value: member order is all the text forgets. |
| `Canonical.PlanTextBindsThePlan` | packages/cli/src/lifecycle-contract.js:80-84 | The text a plan digest is taken of is the same if and only if the plans agree on everything but presentation and the digest itself. |
| `Canonical.CanonicalizesExactly` | packages/cli/src/lifecycle-contract.js:52-72 | A value has a canonical text if and only if everything under it, at every path, lies at most 32 levels down, is a safe integer if a number, has lower-case names if an object, and is a value JSON has. |
| `JsonScan.ScanAcceptsExactlyClean` | packages/cli/src/lifecycle-contract.js:392-425 | A valid JSON text, with any white space and escapes, is refused if and only if some object repeats a decoded name or some number is not a plain safe integer. |
| `JsonScan.ScanTree` | packages/cli/src/lifecycle-contract.js:392-425 | Inside any text the scan passes a value with its stack unchanged, exactly when the value is clean. |
| `JsonScan.CheckText` | packages/cli/src/lifecycle-contract.js:392-425 | The index loop with its stack of key sets decides exactly the scan. |
| `CanonicalScan.PlainSafeExactly` | packages/cli/src/lifecycle-contract.js:417-421 | A number token passes if and only if it is the plain decimal spelling of an integer between -(2^53-1) and 2^53-1. |
| `CanonicalScan.RendersAsPrinted` | packages/cli/src/lifecycle-contract.js:52-72 | The printer's text is the text of a well-formed JSON tree. |
| `CanonicalScan.CanonicalTextPasses` | packages/cli/src/lifecycle-contract.js:392-425 | Every canonical text passes the scan. |
| `Versions.ParsesExactly` | packages/cli/src/lifecycle.js:127-127 | A text is read as a version if and only if it is that version's spelling: digits three times, and identifiers joined by dots after a hyphen. |
| `Versions.CompareVersions` | packages/cli/src/lifecycle.js:126-144 | A comparison fails exactly when one of the texts is no version; otherwise it is 1 if and only if the first comes after the second by section 11 of SemVer 2.0.0, and -1 if and only if it comes before it or the two first differ in the spelling of one number. |
| `Versions.CompareParsed` | packages/cli/src/lifecycle.js:129-143 | The loops with early returns compute the comparison by core numbers, then prerelease, then the first identifier that differs. |
| `Versions.PrecedenceExactly` | packages/cli/src/lifecycle.js:126-144 | By section 11 itself: three numbers by value, a prerelease before its release, then the first identifiers that differ: numbers by value, a number before a text, texts by their first differing character, a beginning before what it begins, and a shorter list before a longer one. |
| `Texts.ValueIsPositional` | packages/cli/src/lifecycle.js:129-129 | The value of a run of digits is that in base ten, highest digit first. |
| `Versions.KeysFollowPrecedence` | scripts/post_release_bump.py:91-121 | The release script's key order is that precedence too, unless the two versions first differ in the spelling of one number. |
| `Versions.KeyOrder` | scripts/post_release_bump.py:91-121 | The key order is irreflexive, antisymmetric and total. |
| `Versions.KeyTransitive` | scripts/post_release_bump.py:91-121 | And transitive. |
| `Versions.AgreesUnlessRespelled` | packages/cli/src/lifecycle.js:126-144 | The comparison agrees with the release script's key order on all versions that do not first differ in the spelling of one number. |
| `Versions.AntisymmetricExactly` | packages/cli/src/lifecycle.js:137-143 | It is antisymmetric on two versions if and only if they do not first differ in the spelling of one number; there it calls each the older. |
| `Versions.StrictVersionsAgree` | packages/cli/src/lifecycle.js:126-144 | Without leading zeros the two implementations agree, the comparison is antisymmetric and is zero only on the same version. |
| `Versions.StrictVersionsAreOrdered` | packages/cli/src/lifecycle.js:126-144 | And it is transitive there. |
| `Versions.RespelledVersions` | packages/cli/src/lifecycle.js:141-141 | `1.0.0-01` and `1.0.0-1` are each called older than the other. |
| `Versions.NothingButPrereleasesBetween` | scripts/post_release_bump.py:128-143 | The next patch is above the release, and what lies between the two is exactly the prereleases of that patch. |
| `Versions.NextVersionIsBeyond` | scripts/post_release_bump.py:146-169 | The version dev carries next is beyond the release and not below what it carried, opening again changes nothing, and it is refused exactly when dev is behind or at a prerelease. |
| `Resources.OwnedIsCounted` | deploy/cli/cb_resources.py:938-952 | Every owned boundary lies in an included row's boundary. |
| `Resources.CountedOnce` | deploy/cli/cb_resources.py:938-952 | No place lies in two included boundaries. |
| `Resources.CountedAreDisjoint` | deploy/cli/cb_resources.py:938-952 | Included boundaries are never equal or nested. |
| `Resources.CompleteExactly` | deploy/cli/cb_resources.py:955-965 | A total is complete exactly when something is included and every included row was measured. |
| `Resources.TotalAddsUp` | deploy/cli/cb_resources.py:955-965 | The value of a total is the sum over the included rows that were measured, and none if and only if no included row was; the two counts are those of included and of measured rows. |
| `Resources.TotalIsConserved` | deploy/cli/cb_resources.py:936-965 | If every owned row measured what its scope uses, the total is complete and is what the owned scopes use together, each use once, however they are nested or repeated. |
| `Resources.LookupOrders` | deploy/cli/cb_resources.py:946-946 | Looking rows up by equality orders them by place even when rows are equal, because rows already marked differ from those not yet marked. |
| `Resources.IsDuplicate` | deploy/cli/cb_resources.py:939-949 | The inner loop finds exactly whether another owned row already accounts for the scope. |
| `Resources.Mark` | deploy/cli/cb_resources.py:937-952 | The rows are marked in place, each exactly when it counts. |
| `Resources.AddUp` | deploy/cli/cb_resources.py:954-965 | Sum, completeness and counts of one metric over the included rows. |
| `Resources.Report` | deploy/cli/cb_resources.py:936-965 | Each row is marked exactly when it counts, and every total is the sum over the counted rows that were measured, with its completeness and counts. |
| `Redaction.EscapedHasNone` | packages/cli/src/lifecycle-contract.js:464-466 | After escaping no forbidden control character is left, and a text without one is unchanged. |
| `Redaction.EscapedInPlace` | packages/cli/src/lifecycle-contract.js:464-466 | Each control character becomes, in its place, `\u00` and its own two hexadecimal digits; every other character stays. |
| `Redaction.EllipsisCompletes` | packages/cli/src/lifecycle-contract.js:491-498 | The only credential shape an ellipsis can complete is an assignment it would be the value of. |
| `Redaction.TrimmedHasNone` | packages/cli/src/lifecycle-contract.js:491-498 | Dropping the separators before the ellipsis removes every shape the cut could make. |
| `Redaction.UnredactableHasNone` | packages/cli/src/lifecycle-contract.js:475-475 | The replacement for what no round could mask has no shape itself. |
| `Redaction.Cut` | packages/cli/src/lifecycle-contract.js:489-498 | A cut text keeps the first characters up to the bound less one, drops only separators and only where the ellipsis would look like a value, ends in the ellipsis, and has neither shape nor control character. |
| `Redaction.RedactText` | packages/cli/src/lifecycle-contract.js:484-499 | Every text, for every positive bound, comes out with no forbidden control character, no credential shape and within the bound; a text that was already fine comes out unchanged, one that fits after masking as masked, one no round could mask as the fixed note, and a longer one as its cut. |

## Left out

- The generic schema checker, regular expressions of the schemas and all byte-size caps: documents are shape-valid, and only cross-field rules are modelled.
- System calls, ownership and lock checks: the writer lock is mutual exclusion, a rename is one atomic step that a directory sync makes durable, and leftovers of temporary files are not represented.
- Time stamps are numbers in the order of their texts; backoff, stall timeouts and the descriptor's give-up after a stalled write are not represented.
- Handlers.Utility.HandleCheckpoint: does not cover a lock bound to an operation whose begin was never answered; `deploy/lib/lifecycle.sh:1014` binds it only after the answer, and the utility checks the binding alone. The durability results rest on this.
- Writes.NextJournalExtends: does not model the redaction of an error's reason, which is kept as given.
- Handlers.Utility.Reconcile: does not model a directory that can be read and then not opened, which the source skips with a warning; records are read at one moment under the lock.
- Handlers.Utility.HandleEmit: does not model what makes the members of an event legal, which is a parameter, and like the checkpoint takes the lock to be bound to an answered operation.
- Handlers.Utility.HandleList: does not model `history.json`, its derived index and its trimming (`build_index`), nor warnings and reply lines.
- ExitResult.ExitResultIsHonest: does not model the wording of reasons the coordinator writes itself; reasons taken from the journal are kept.
- The inspect request, the history reader and its salvage of a damaged index: reading only, with no state of their own.
- ArchiveScan.ChunksDoNotMatter: does not model decompression, nor how a header field spells a number (a parameter here), and names are bytes where the source decodes UTF-8.
- Download.StageOk: does not model a power loss, two processes staging the same name at once, or a file write that stores less than it was given without failing.
- EventRelay.RisingStreamIsRelayed: does not model why a line glued to an unfinished one is no document; that it is none, or too long, is assumed of the parser.
- Events.Decode: does not model `parseDocument`, which is a parameter; coordinator events carry only their operation and number, not durations or text.
- Canonical.CanonicalTextIsTheValue: does not model lone surrogates or other values JSON cannot hold beyond refusing them, and the SHA-256 of the text is not modelled.
- JsonScan.CheckText: refuses an unclosed quote where the source would not return; the source never scans such a text.
- Redaction.RedactText: does not model the four masking substitutions, only that they write no control character; whether a shape is left is decided on their result.
- Versions.KeyOrder: does not model the release script's own, stricter grammar or the leading `v` it tolerates; it orders whatever both grammars accept.
- Resources.Report: does not model rates, percentages of capacity or the rest of the report; rows come unmarked, as the collectors make them.
- Stale draft selection, changelog rewriting, plan and event cross-field rules, and the native twin of redaction and canonical printing: they would only add easy or repeated members.
- Terminal rendering, help, the HTTP client, identity lookup, process spawning, signature verification, the web frontend and packaging scripts.
