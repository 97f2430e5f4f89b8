/** Which recovery points must be kept, and why one still needed is never offered for release. */
module Retention {
  import opened Options
  import opened Texts
  import opened Journal
  import opened Writes
  import opened Protocol
  import opened ProtocolInvariant
  import opened ProtocolSteps
  import opened ProtocolRuns

  /** One entry of the operations directory as the reader sees it. */
  datatype Record = Readable(journal: Journal) | Doubtful

  datatype Report = Report(protected: set<Reference>, releasable: set<Reference>, complete: bool)

  /** The order of the sort key: time of the last write, then the identifier. */
  predicate Older(j: Journal, k: Journal) {
    j.updatedAt < k.updatedAt || (j.updatedAt == k.updatedAt && TextLess(j.operation, k.operation))
  }

  predicate HoldsPoint(r: Record) {
    r.Readable? && r.journal.recovery.Some?
  }

  predicate Unfinished(j: Journal) {
    |j.checkpoints| > 0 && !Finished(j)
  }

  predicate CommittedPoint(r: Record) {
    HoldsPoint(r) && |r.journal.checkpoints| > 0 && Last(r.journal).outcome == Some(ClosedCommitted)
  }

  function References(records: seq<Record>): set<Reference> {
    set i | 0 <= i < |records| && HoldsPoint(records[i]) :: records[i].journal.recovery.value
  }

  function Held(records: seq<Record>): set<Reference> {
    set i | 0 <= i < |records| && HoldsPoint(records[i]) && Unfinished(records[i].journal) :: records[i].journal.recovery.value
  }

  /** No committed operation with a point is newer than `k`. */
  predicate IsNewest(records: seq<Record>, k: nat) {
    && k < |records| && CommittedPoint(records[k])
    && forall i :: 0 <= i < |records| && CommittedPoint(records[i]) ==> !Older(records[k].journal, records[i].journal)
  }

  function NewestPoint(records: seq<Record>, newest: Option<nat>): set<Reference>
    requires newest.Some? ==> IsNewest(records, newest.value)
  {
    if newest.Some? then {records[newest.value].journal.recovery.value} else {}
  }

  /** What no record needs: nothing at all while one of them could not be read. */
  function Releasable(records: seq<Record>, newest: set<Reference>): set<Reference> {
    if Doubtful in records then {} else References(records) - Held(records) - newest
  }

  lemma NotOlderThanNewer(i: Journal, j: Journal, k: Journal)
    requires !Older(j, i) && Older(j, k)
    ensures !Older(k, i)
  {
    if Older(k, i) {
      if j.updatedAt == k.updatedAt == i.updatedAt {
        TextLessTransitive(j.operation, k.operation, i.operation);
      }
    }
  }

  /** The record `k` committed with a point, and no other that did was written later. */
  predicate IsLatest(records: seq<Record>, k: nat) {
    && k < |records| && CommittedPoint(records[k])
    && forall i :: 0 <= i < |records| && CommittedPoint(records[i]) ==> records[i].journal.updatedAt <= records[k].journal.updatedAt
  }

  /** Every reference an unfinished operation holds is protected, and so is the newest point of an
      operation that committed. The rest may go, unless some record could not be read. */
  method Retain(records: seq<Record>) returns (report: Report, newest: Option<nat>)
    ensures newest.Some? ==> IsNewest(records, newest.value) && IsLatest(records, newest.value)
    ensures newest.None? ==> forall i :: 0 <= i < |records| ==> !CommittedPoint(records[i])
    ensures report.protected == Held(records) + NewestPoint(records, newest)
    ensures report.complete <==> Doubtful !in records
    ensures report.releasable == Releasable(records, NewestPoint(records, newest))
    ensures report.protected !! report.releasable
    ensures report.complete ==> report.protected + report.releasable == References(records)
  {
    newest := None;
    var complete := true;
    for i := 0 to |records|
      invariant newest.Some? ==> IsNewest(records[..i], newest.value)
      invariant newest.None? ==> forall k :: 0 <= k < i ==> !CommittedPoint(records[k])
      invariant complete <==> forall k :: 0 <= k < i ==> records[k].Readable?
    {
      if records[i].Doubtful? {
        complete := false;
      }
      if CommittedPoint(records[i]) {
        if newest.None? {
          assert !Older(records[i].journal, records[i].journal) by {
            TextLessAsymmetric(records[i].journal.operation, records[i].journal.operation);
          }
          newest := Some(i);
        } else if Older(records[newest.value].journal, records[i].journal) {
          NewerTakesOver(records, i, newest.value);
          newest := Some(i);
        }
      }
    }
    assert records[..|records|] == records;
    var protected := Held(records);
    if newest.Some? {
      protected := protected + {records[newest.value].journal.recovery.value};
    }
    var releasable := if complete then References(records) - protected else {};
    report := Report(protected, releasable, complete);
    assert protected <= References(records);
  }

  lemma NewerTakesOver(records: seq<Record>, i: nat, k: nat)
    requires i < |records| && IsNewest(records[..i], k) && CommittedPoint(records[i])
    requires Older(records[k].journal, records[i].journal)
    ensures IsNewest(records[..i+1], i)
  {
    TextLessAsymmetric(records[i].journal.operation, records[i].journal.operation);
    forall n | 0 <= n < i && CommittedPoint(records[n]) ensures !Older(records[i].journal, records[n].journal) {
      assert records[..i][n] == records[n];
      NotOlderThanNewer(records[n].journal, records[k].journal, records[i].journal);
    }
  }

  // --- Over runs.

  /** The records a listing of that state reads. */
  ghost predicate IsListing(s: System, records: seq<Record>) {
    && (forall n :: n in s.ops && s.ops[n].readable ==> Readable(s.ops[n].journal) in records)
    && (forall r :: r in records && r.Readable? ==> exists n :: n in s.ops && s.ops[n].readable && s.ops[n].journal == r.journal)
    && (Doubtful in records <==> s.junk != {} || exists n :: n in s.ops && !s.ops[n].readable)
  }

  /** A recovery point an operation durably holds is never releasable while that operation is
      unfinished, at any later point of any run, power losses included. */
  lemma HeldPointIsNeverReleased(steps: seq<Step>, more: seq<Step>, n: Name, records: seq<Record>, newest: set<Reference>)
    requires Runs(Init(), steps) && Runs(StateAfter(Init(), steps), more)
    requires n in StateAfter(Init(), steps).ops && StateAfter(Init(), steps).ops[n].named
    requires StateAfter(Init(), steps).ops[n].journalOnDisk.recovery.Some?
    requires IsListing(StateAfter(StateAfter(Init(), steps), more), records)
    ensures var s := StateAfter(Init(), steps);
      var t := StateAfter(s, more);
      && n in t.ops
      && t.ops[n].journal.recovery == s.ops[n].journalOnDisk.recovery
      && (Unfinished(t.ops[n].journal) ==> s.ops[n].journalOnDisk.recovery.value !in Releasable(records, newest))
  {
    hide Enabled, Inv, Valid, Extends, Unfinished;
    var s := StateAfter(Init(), steps);
    var t := StateAfter(s, more);
    Reached(steps);
    RunKeepsInv(s, more);
    RunGrowsDurably(s, more, n);
    InvEntries(t);
    StaysDurable(t, n);
    KeepsPoint(s.ops[n].journalOnDisk, t.ops[n].journalOnDisk);
    KeepsPoint(t.ops[n].journalOnDisk, t.ops[n].journal);
    if t.ops[n].readable && Unfinished(t.ops[n].journal) {
      var i :| 0 <= i < |records| && records[i] == Readable(t.ops[n].journal);
      assert HoldsPoint(records[i]) && records[i].journal.recovery.value in Held(records);
    }
  }

  lemma KeepsPoint(j: Journal, k: Journal)
    requires Extends(j, k) && j.recovery.Some?
    ensures k.recovery == j.recovery
  {
  }
}
