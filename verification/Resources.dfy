/** Resource totals: rows for nested accounting scopes, of which each owned scope must be counted
    exactly once. */
module Resources {
  import opened Options
  import opened Sequences

  /** What one row says of its scope; a row without an accounting boundary has the empty one. */
  datatype Scope = Scope(owned: bool, boundary: string, values: map<string, Option<int>>)

  // --- Nesting.

  predicate Below(b: string, a: string) {
    a + "/" <= b
  }

  /** `b` lies in the scope of `a`. */
  predicate Covers(a: string, b: string) {
    a == b || Below(b, a)
  }

  lemma CoversTransitive(a: string, b: string, c: string)
    requires Covers(a, b) && Covers(b, c)
    ensures Covers(a, c)
  {
    if Below(b, a) && Below(c, b) {
      assert a + "/" <= b <= b + "/" <= c;
    }
  }

  /** Two scopes around one place are one inside the other. */
  lemma CoversIsLinear(a: string, b: string, c: string)
    requires Covers(a, c) && Covers(b, c)
    ensures a == b || Below(b, a) || Below(a, b)
  {
    if |a| < |b| {
      assert a + "/" <= c && b <= c;
      assert a + "/" <= b;
    } else if |b| < |a| {
      assert b + "/" <= c && a <= c;
      assert b + "/" <= a;
    } else {
      assert a <= c && b <= c;
    }
  }

  // --- Which rows count.

  /** Another owned row already accounts for the scope of row `k`. */
  predicate Duplicates(scopes: seq<Scope>, i: int, k: int)
    requires 0 <= i < |scopes| && 0 <= k < |scopes|
  {
    && i != k && scopes[i].owned && scopes[i].boundary != [] && scopes[k].boundary != []
    && (Below(scopes[k].boundary, scopes[i].boundary) || (scopes[k].boundary == scopes[i].boundary && i < k))
  }

  predicate Counts(scopes: seq<Scope>, k: int)
    requires 0 <= k < |scopes|
  {
    scopes[k].owned && forall i :: 0 <= i < |scopes| ==> !Duplicates(scopes, i, k)
  }

  predicate CountsFor(scopes: seq<Scope>, k: int, place: string) {
    0 <= k < |scopes| && Counts(scopes, k) && scopes[k].boundary != [] && Covers(scopes[k].boundary, place)
  }

  /** Every owned scope lies in one that counts, */
  lemma {:induction false} OwnedIsCounted(scopes: seq<Scope>, k: nat) returns (i: nat)
    requires k < |scopes| && scopes[k].owned && scopes[k].boundary != []
    ensures CountsFor(scopes, i, scopes[k].boundary)
    decreases |scopes[k].boundary|, k
  {
    if Counts(scopes, k) {
      i := k;
    } else {
      var m :| 0 <= m < |scopes| && Duplicates(scopes, m, k);
      i := OwnedIsCounted(scopes, m);
      CoversTransitive(scopes[i].boundary, scopes[m].boundary, scopes[k].boundary);
    }
  }

  /** and no place lies in two that count. */
  lemma CountedOnce(scopes: seq<Scope>, i: nat, k: nat, place: string)
    requires CountsFor(scopes, i, place) && CountsFor(scopes, k, place)
    ensures i == k
  {
    CoversIsLinear(scopes[i].boundary, scopes[k].boundary, place);
    assert !Duplicates(scopes, i, k) && !Duplicates(scopes, k, i);
  }

  /** Scopes that count are never nested. */
  lemma CountedAreDisjoint(scopes: seq<Scope>, i: nat, k: nat)
    requires i < |scopes| && k < |scopes| && Counts(scopes, i) && Counts(scopes, k) && i != k
    requires scopes[i].boundary != [] && scopes[k].boundary != []
    ensures !Covers(scopes[i].boundary, scopes[k].boundary)
  {
    if Covers(scopes[i].boundary, scopes[k].boundary) {
      CountedOnce(scopes, i, k, scopes[k].boundary);
    }
  }

  // --- Totals.

  datatype Total = Total(value: Option<int>, complete: bool, measured: nat, expected: nat)

  /** The first `n` rows that count. */
  function Counted(scopes: seq<Scope>, n: nat): seq<Scope>
    requires n <= |scopes|
  {
    if n == 0 then []
    else if Counts(scopes, n - 1) then Counted(scopes, n - 1) + [scopes[n-1]]
    else Counted(scopes, n - 1)
  }

  function Reading(s: Scope, name: string): Option<int> {
    if name in s.values then s.values[name] else None
  }

  function Readings(rows: seq<Scope>, name: string): seq<int> {
    if rows == [] then []
    else
      var last := Reading(rows[|rows|-1], name);
      Readings(rows[..|rows|-1], name) + if last.Some? then [last.value] else []
  }

  function Sum(xs: seq<int>): int {
    if xs == [] then 0 else Sum(xs[..|xs|-1]) + xs[|xs|-1]
  }

  function TotalOf(rows: seq<Scope>, name: string): Total {
    var xs := Readings(rows, name);
    Total(if xs == [] then None else Some(Sum(xs)), |xs| == |rows| && rows != [], |xs|, |rows|)
  }

  method AddUp(rows: seq<Scope>, name: string) returns (total: Total)
    ensures total == TotalOf(rows, name)
  {
    var sum, measured := 0, 0;
    for i := 0 to |rows|
      invariant sum == Sum(Readings(rows[..i], name)) && measured == |Readings(rows[..i], name)|
    {
      var x := Reading(rows[i], name);
      assert rows[..i+1][..i] == rows[..i];
      ghost var before := Readings(rows[..i], name);
      assert before + [] == before;
      if x.Some? {
        assert (before + [x.value])[..|before|] == before;
        sum, measured := sum + x.value, measured + 1;
      }
    }
    assert rows[..|rows|] == rows;
    total := Total(if measured == 0 then None else Some(sum), measured == |rows| && rows != [], measured, |rows|);
  }

  /** A total is complete exactly when something counts and every row that counts was measured. */
  lemma {:induction false} CompleteExactly(rows: seq<Scope>, name: string)
    ensures TotalOf(rows, name).measured <= TotalOf(rows, name).expected
    ensures TotalOf(rows, name).complete <==> rows != [] && forall i :: 0 <= i < |rows| ==> Reading(rows[i], name).Some?
  {
    ReadingsMiss(rows, name);
  }

  lemma {:induction false} ReadingsMiss(rows: seq<Scope>, name: string)
    ensures |Readings(rows, name)| <= |rows|
    ensures |Readings(rows, name)| == |rows| <==> forall i :: 0 <= i < |rows| ==> Reading(rows[i], name).Some?
  {
    if rows != [] {
      var before := rows[..|rows|-1];
      ReadingsMiss(before, name);
      assert forall i :: 0 <= i < |before| ==> before[i] == rows[i];
    }
  }

  /** The places of the rows that count, among the first `n`; */
  ghost function Included(scopes: seq<Scope>, n: nat): set<int>
    requires n <= |scopes|
  {
    set k | 0 <= k < n && Counts(scopes, k)
  }

  /** of those that count and were measured; */
  ghost function Measured(scopes: seq<Scope>, name: string, n: nat): set<int>
    requires n <= |scopes|
  {
    set k | 0 <= k < n && Counts(scopes, k) && Reading(scopes[k], name).Some?
  }

  /** and what these measured together. */
  function MeasuredSum(scopes: seq<Scope>, name: string, n: nat): int
    requires n <= |scopes|
  {
    if n == 0 then 0
    else
      var x := Reading(scopes[n-1], name);
      MeasuredSum(scopes, name, n - 1) + if Counts(scopes, n - 1) && x.Some? then x.value else 0
  }

  /** The sum of what was measured where it counts, or nothing if nothing was; complete exactly when
      something counts and all of it was measured. */
  ghost predicate AddsUp(total: Total, scopes: seq<Scope>, name: string) {
    var included, measured := Included(scopes, |scopes|), Measured(scopes, name, |scopes|);
    && total.value == (if measured == {} then None else Some(MeasuredSum(scopes, name, |scopes|)))
    && total.expected == |included| && total.measured == |measured|
    && (total.complete <==> included != {} && measured == included)
  }

  lemma IncludedStep(scopes: seq<Scope>, name: string, n: nat)
    requires 0 < n <= |scopes|
    ensures |Included(scopes, n)| == |Included(scopes, n - 1)| + (if Counts(scopes, n - 1) then 1 else 0)
    ensures |Measured(scopes, name, n)|
         == |Measured(scopes, name, n - 1)| + (if Counts(scopes, n - 1) && Reading(scopes[n-1], name).Some? then 1 else 0)
  {
    hide Counts, Reading;
    var counts := Counts(scopes, n - 1);
    var measured := counts && Reading(scopes[n-1], name).Some?;
    assert Included(scopes, n) == Included(scopes, n - 1) + if counts then {n - 1} else {};
    assert Measured(scopes, name, n) == Measured(scopes, name, n - 1) + if measured then {n - 1} else {};
  }

  lemma ReadingsSnoc(rows: seq<Scope>, row: Scope, name: string)
    ensures var x := Reading(row, name);
      && Readings(rows + [row], name) == Readings(rows, name) + (if x.Some? then [x.value] else [])
      && Sum(Readings(rows + [row], name)) == Sum(Readings(rows, name)) + (if x.Some? then x.value else 0)
  {
    var xs, x := Readings(rows, name), Reading(row, name);
    assert (rows + [row])[..|rows|] == rows && xs + [] == xs;
    if x.Some? {
      assert (xs + [x.value])[..|xs|] == xs;
    }
  }

  lemma {:induction false} CountedAddsUp(scopes: seq<Scope>, name: string, n: nat)
    requires n <= |scopes|
    ensures |Counted(scopes, n)| == |Included(scopes, n)|
    ensures |Readings(Counted(scopes, n), name)| == |Measured(scopes, name, n)|
    ensures Sum(Readings(Counted(scopes, n), name)) == MeasuredSum(scopes, name, n)
  {
    hide Counts, Reading, Readings, Included, Measured, Sum;
    if n == 0 {
      NothingCounted(scopes, name);
    } else {
      CountedAddsUp(scopes, name, n - 1);
      IncludedStep(scopes, name, n);
      ReadingsSnoc(Counted(scopes, n - 1), scopes[n-1], name);
    }
  }

  lemma NothingCounted(scopes: seq<Scope>, name: string)
    ensures Included(scopes, 0) == {} && Measured(scopes, name, 0) == {} && Readings([], name) == [] && Sum([]) == 0
  {
    hide Counts, Reading;
  }

  lemma TotalAddsUp(scopes: seq<Scope>, name: string)
    ensures AddsUp(TotalOf(Counted(scopes, |scopes|), name), scopes, name)
  {
    hide Counts, Counted, Readings;
    CountedAddsUp(scopes, name, |scopes|);
    SameSize(Measured(scopes, name, |scopes|), Included(scopes, |scopes|));
  }

  lemma SameSize(a: set<int>, b: set<int>)
    requires a <= b
    ensures |a| == |b| <==> a == b
  {
    assert b == a + (b - a);
  }

  // --- Conservation: what is used somewhere is counted once.

  /** Something used at one place of the tree of scopes. */
  datatype Use = Use(place: string, amount: int)

  /** What is used in one scope. */
  function UsedIn(uses: seq<Use>, boundary: string): int {
    if uses == [] then 0
    else UsedIn(uses[..|uses|-1], boundary) + if Covers(boundary, uses[|uses|-1].place) then uses[|uses|-1].amount else 0
  }

  predicate Owned(scopes: seq<Scope>, place: string) {
    exists k :: 0 <= k < |scopes| && scopes[k].owned && scopes[k].boundary != [] && Covers(scopes[k].boundary, place)
  }

  /** What is used in any owned scope at all. */
  function UsedInOwned(scopes: seq<Scope>, uses: seq<Use>): int {
    if uses == [] then 0
    else UsedInOwned(scopes, uses[..|uses|-1]) + if Owned(scopes, uses[|uses|-1].place) then uses[|uses|-1].amount else 0
  }

  /** The first `n` rows that count, together. */
  function UsedInCounted(scopes: seq<Scope>, uses: seq<Use>, n: nat): int
    requires n <= |scopes|
  {
    if n == 0 then 0
    else
      var b := scopes[n-1].boundary;
      UsedInCounted(scopes, uses, n - 1) + if Counts(scopes, n - 1) && b != [] then UsedIn(uses, b) else 0
  }

  function IsAmong(scopes: seq<Scope>, place: string, n: nat): nat
    requires n <= |scopes|
  {
    if n == 0 then 0 else IsAmong(scopes, place, n - 1) + if CountsFor(scopes, n - 1, place) then 1 else 0
  }

  lemma {:induction false} AtMostOne(scopes: seq<Scope>, place: string, n: nat)
    requires n <= |scopes|
    ensures IsAmong(scopes, place, n) <= 1
    ensures IsAmong(scopes, place, n) == 1 <==> exists k :: k < n && CountsFor(scopes, k, place)
  {
    if n > 0 {
      AtMostOne(scopes, place, n - 1);
      if CountsFor(scopes, n - 1, place) && IsAmong(scopes, place, n - 1) == 1 {
        var k :| k < n - 1 && CountsFor(scopes, k, place);
        CountedOnce(scopes, k, n - 1, place);
      }
    }
  }

  lemma {:induction false} AddOneUse(scopes: seq<Scope>, uses: seq<Use>, n: nat)
    requires n <= |scopes| && uses != []
    ensures var last := uses[|uses|-1];
      UsedInCounted(scopes, uses, n) == UsedInCounted(scopes, uses[..|uses|-1], n) + last.amount * IsAmong(scopes, last.place, n)
  {
    hide Counts, Covers;
    if n > 0 {
      AddOneUse(scopes, uses, n - 1);
      CountsForExactly(scopes, n - 1, uses[|uses|-1].place);
    }
  }

  lemma CountsForExactly(scopes: seq<Scope>, k: nat, place: string)
    requires k < |scopes|
    ensures CountsFor(scopes, k, place) <==> Counts(scopes, k) && scopes[k].boundary != [] && Covers(scopes[k].boundary, place)
  {
  }

  lemma OwnedExactly(scopes: seq<Scope>, place: string)
    ensures Owned(scopes, place) <==> exists k :: k < |scopes| && CountsFor(scopes, k, place)
  {
    if Owned(scopes, place) {
      var k :| 0 <= k < |scopes| && scopes[k].owned && scopes[k].boundary != [] && Covers(scopes[k].boundary, place);
      var i := OwnedIsCounted(scopes, k);
      CoversTransitive(scopes[i].boundary, scopes[k].boundary, place);
      assert CountsFor(scopes, i, place);
    }
  }

  lemma {:induction false} NoUses(scopes: seq<Scope>, n: nat)
    requires n <= |scopes|
    ensures UsedInCounted(scopes, [], n) == 0
  {
    if n > 0 {
      NoUses(scopes, n - 1);
    }
  }

  /** Over the rows that count, every use in an owned scope is counted once and no other use at all. */
  lemma {:induction false} UsesAreCountedOnce(scopes: seq<Scope>, uses: seq<Use>)
    ensures UsedInCounted(scopes, uses, |scopes|) == UsedInOwned(scopes, uses)
    decreases |uses|
  {
    if uses == [] {
      NoUses(scopes, |scopes|);
    } else {
      hide Counts, Covers, CountsFor, Owned;
      var last := uses[|uses|-1];
      UsesAreCountedOnce(scopes, uses[..|uses|-1]);
      AddOneUse(scopes, uses, |scopes|);
      AtMostOne(scopes, last.place, |scopes|);
      OwnedExactly(scopes, last.place);
    }
  }

  /** Each row measured what was used in its scope. */
  predicate Measures(scopes: seq<Scope>, uses: seq<Use>, name: string) {
    forall k :: 0 <= k < |scopes| && scopes[k].owned ==>
      scopes[k].boundary != [] && Reading(scopes[k], name) == Some(UsedIn(uses, scopes[k].boundary))
  }

  lemma {:induction false} SumOfCounted(scopes: seq<Scope>, uses: seq<Use>, name: string, n: nat)
    requires n <= |scopes| && Measures(scopes, uses, name)
    ensures Sum(Readings(Counted(scopes, n), name)) == UsedInCounted(scopes, uses, n)
  {
    hide UsedIn, Duplicates;
    if n > 0 {
      SumOfCounted(scopes, uses, name, n - 1);
      if Counts(scopes, n - 1) {
        ReadingsSnoc(Counted(scopes, n - 1), scopes[n-1], name);
      }
    }
  }

  lemma {:induction false} CountedIsThere(scopes: seq<Scope>, i: nat, n: nat)
    requires i < n <= |scopes| && Counts(scopes, i)
    ensures Counted(scopes, n) != []
  {
    hide Counts;
    if i < n - 1 {
      CountedIsThere(scopes, i, n - 1);
    }
  }

  lemma {:induction false} CountedIsMeasured(scopes: seq<Scope>, uses: seq<Use>, name: string, n: nat)
    requires n <= |scopes| && Measures(scopes, uses, name)
    ensures forall i :: 0 <= i < |Counted(scopes, n)| ==> Reading(Counted(scopes, n)[i], name).Some?
  {
    hide UsedIn, Duplicates;
    if n > 0 {
      CountedIsMeasured(scopes, uses, name, n - 1);
    }
  }

  /** If every owned row measured its scope, the total is complete and is what the owned scopes use
      together, however they are nested or repeated. */
  lemma TotalIsConserved(scopes: seq<Scope>, uses: seq<Use>, name: string, k: nat)
    requires Measures(scopes, uses, name) && k < |scopes| && scopes[k].owned
    ensures var total := TotalOf(Counted(scopes, |scopes|), name);
      total.complete && total.value == Some(UsedInOwned(scopes, uses))
  {
    hide UsedIn, UsedInOwned, UsedInCounted, Duplicates, Counts;
    var i := OwnedIsCounted(scopes, k);
    CountedIsThere(scopes, i, |scopes|);
    CountedIsMeasured(scopes, uses, name, |scopes|);
    ReadingsMiss(Counted(scopes, |scopes|), name);
    SumOfCounted(scopes, uses, name, |scopes|);
    UsesAreCountedOnce(scopes, uses);
  }

  // --- The report, which marks its rows in place.

  /** A row as a dictionary compares: by everything it holds, the mark included once it is set. */
  datatype Content = Content(id: string, scope: Scope, mark: Option<bool>)

  class Row {
    const id: string
    const scope: Scope
    var mark: Option<bool>

    constructor (id: string, scope: Scope)
      ensures this.id == id && this.scope == scope && mark == None
    {
      this.id, this.scope, mark := id, scope, None;
    }

    function Now(): Content
      reads this
    {
      Content(id, scope, mark)
    }
  }

  function Contents(rows: seq<Row>): (r: seq<Content>)
    reads rows
    ensures |r| == |rows|
  {
    seq(|rows|, i requires 0 <= i < |rows| reads rows => rows[i].Now())
  }

  function Scopes(rows: seq<Row>): (r: seq<Scope>)
    ensures |r| == |rows|
  {
    seq(|rows|, i requires 0 <= i < |rows| => rows[i].scope)
  }

  /** While the rows before `k` are marked and the others are not, looking rows up by equality
      orders them by place, equal rows too. */
  lemma LookupOrders(cs: seq<Content>, i: nat, k: nat)
    requires i < |cs| && k < |cs| && i != k
    requires forall j :: 0 <= j < |cs| ==> (cs[j].mark.Some? <==> j < k)
    ensures FirstAt(cs, cs[i]) < FirstAt(cs, cs[k]) <==> i < k
  {
    assert FirstAt(cs, cs[k]) == k;
  }

  predicate DistinctRows(rows: seq<Row>) {
    forall i, k :: 0 <= i < k < |rows| ==> rows[i] != rows[k]
  }

  method IsDuplicate(rows: seq<Row>, k: nat) returns (duplicate: bool)
    requires k < |rows| && DistinctRows(rows) && forall j :: 0 <= j < |rows| ==> (rows[j].mark.Some? <==> j < k)
    ensures duplicate <==> exists i :: 0 <= i < |rows| && Duplicates(Scopes(rows), i, k)
  {
    var boundary := rows[k].scope.boundary;
    var cs := Contents(rows);
    duplicate := false;
    for i := 0 to |rows|
      invariant duplicate <==> exists j :: 0 <= j < i && Duplicates(Scopes(rows), j, k)
    {
      var r := rows[i].scope;
      if i != k {
        LookupOrders(cs, i, k);
      }
      assert rows[i] != rows[k] <==> i != k;
      if boundary != [] && r.owned && rows[i] != rows[k] && r.boundary != []
        && (Below(boundary, r.boundary) || (boundary == r.boundary && FirstAt(cs, rows[i].Now()) < FirstAt(cs, rows[k].Now())))
      {
        assert Duplicates(Scopes(rows), i, k);
        duplicate := true;
      }
    }
  }

  /** Marks every row, and collects those that count. */
  method Mark(rows: seq<Row>) returns (included: seq<Scope>)
    requires DistinctRows(rows) && forall j :: 0 <= j < |rows| ==> rows[j].mark.None?
    modifies rows
    ensures forall k :: 0 <= k < |rows| ==> rows[k].mark == Some(Counts(Scopes(rows), k))
    ensures included == Counted(Scopes(rows), |rows|)
  {
    hide Counts, Duplicates;
    included := [];
    for k := 0 to |rows|
      invariant forall j :: 0 <= j < k ==> rows[j].mark == Some(Counts(Scopes(rows), j))
      invariant forall j :: k <= j < |rows| ==> rows[j].mark.None?
      invariant included == Counted(Scopes(rows), k)
    {
      var duplicate := IsDuplicate(rows, k);
      CountsExactly(Scopes(rows), k);
      var counts := rows[k].scope.owned && !duplicate;
      rows[k].mark := Some(counts);
      if counts {
        included := included + [rows[k].scope];
      }
    }
  }

  method Report(rows: seq<Row>, names: seq<string>) returns (totals: map<string, Total>)
    requires DistinctRows(rows) && forall j :: 0 <= j < |rows| ==> rows[j].mark.None?
    modifies rows
    ensures forall k :: 0 <= k < |rows| ==> rows[k].mark == Some(Counts(Scopes(rows), k))
    ensures totals.Keys == (set n | n in names)
    ensures forall n :: n in names ==> totals[n] == TotalOf(Counted(Scopes(rows), |rows|), n)
    ensures forall n :: n in names ==> AddsUp(totals[n], Scopes(rows), n)
  {
    hide AddsUp, TotalOf;
    var included := Mark(rows);
    totals := AddUpAll(included, names);
    forall n | n in names ensures AddsUp(totals[n], Scopes(rows), n) {
      TotalAddsUp(Scopes(rows), n);
    }
  }

  method AddUpAll(rows: seq<Scope>, names: seq<string>) returns (totals: map<string, Total>)
    ensures totals.Keys == (set n | n in names)
    ensures forall n :: n in names ==> totals[n] == TotalOf(rows, n)
  {
    totals := map[];
    for m := 0 to |names|
      invariant totals.Keys == (set n | n in names[..m])
      invariant forall n :: n in totals ==> totals[n] == TotalOf(rows, n)
    {
      var total := AddUp(rows, names[m]);
      totals := totals[names[m] := total];
      assert names[..m+1] == names[..m] + [names[m]];
    }
    assert names[..|names|] == names;
  }

  lemma CountsExactly(scopes: seq<Scope>, k: nat)
    requires k < |scopes|
    ensures Counts(scopes, k) <==> scopes[k].owned && !exists i :: 0 <= i < |scopes| && Duplicates(scopes, i, k)
  {
  }
}
