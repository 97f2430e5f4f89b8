/** Pax extended header records, `<length> <key>=<value>\n`, where the decimal length counts the
    whole record, itself included. */
module PaxRecords {
  import opened Options
  import opened Bytes
  import opened Sequences
  import opened ArchiveLinks
  import Texts

  const SPACE: Byte := 0x20
  const NEWLINE: Byte := 0x0a
  const EQUALS: Byte := 0x3d

  /** The one key a plain JavaScript object does not take from an assignment: a record under it is
      parsed, and then neither kept nor reported. */
  const PROTO: Text := [0x5f, 0x5f, 0x70, 0x72, 0x6f, 0x74, 0x6f, 0x5f, 0x5f]

  predicate IsDecimal(t: Text) {
    t != [] && forall i :: 0 <= i < |t| ==> 48 <= t[i] <= 57
  }

  function DecimalValue(t: Text): nat
    requires forall i :: 0 <= i < |t| ==> 48 <= t[i] <= 57
  {
    if t == [] then 0 else 10 * DecimalValue(t[..|t|-1]) + (t[|t|-1] - 48)
  }

  /** The first digit weighs a power of ten for every digit after it. */
  lemma {:induction false} DecimalIsPositional(t: Text)
    requires IsDecimal(t)
    ensures DecimalValue(t) == (t[0] - 48) * Power(10, |t| - 1) + DecimalValue(t[1..])
    decreases |t|
  {
    var d, n := t[0] - 48, |t| - 1;
    if n > 0 {
      DecimalIsPositional(t[..n]);
      assert t[..n][1..] == t[1..][..n-1];
      var p, v := Power(10, n - 1), DecimalValue(t[1..n]);
      Texts.TenTimes(d, p, v);
    }
  }

  // --- What a record is.

  datatype Record = Record(digits: Text, key: Text, value: Text)

  function Body(r: Record): Text {
    r.digits + [SPACE] + r.key + [EQUALS] + r.value + [NEWLINE]
  }

  /** The length a record spells counts its own bytes; leading zeros are allowed. */
  predicate WellFormed(r: Record) {
    && IsDecimal(r.digits) && r.key != [] && EQUALS !in r.key
    && DecimalValue(r.digits) == |Body(r)|
  }

  predicate AllWellFormed(rs: seq<Record>) {
    forall i :: 0 <= i < |rs| ==> WellFormed(rs[i])
  }

  function Concat(rs: seq<Record>): seq<Byte> {
    if rs == [] then [] else Body(rs[0]) + Concat(rs[1..])
  }

  /** A later record of a key overrides an earlier one. */
  function Stored(rs: seq<Record>): map<Text, Text> {
    if rs == [] then map[]
    else
      var last := rs[|rs|-1];
      var before := Stored(rs[..|rs|-1]);
      if last.key == PROTO then before else before[last.key := last.value]
  }

  // --- Reading one record.

  function Next(data: seq<Byte>): Option<(Record, nat)> {
    var space := FirstAt(data, SPACE);
    if space == |data| then None
    else if !IsDecimal(data[..space]) then None
    else
      var length := DecimalValue(data[..space]);
      if length <= space + 1 || length > |data| || data[length-1] != NEWLINE then None
      else
        var record := data[space+1..length-1];
        var eq := FirstAt(record, EQUALS);
        if eq == |record| || eq < 1 then None
        else Some((Record(data[..space], record[..eq], record[eq+1..]), length))
  }

  /** A record is read only from its own bytes. */
  lemma BodyOfNext(data: seq<Byte>)
    requires Next(data).Some?
    ensures var (r, n) := Next(data).value;
      WellFormed(r) && 1 <= n <= |data| && Body(r) == data[..n]
  {
    hide FirstAt, DecimalValue;
    var (r, n) := Next(data).value;
    var space := FirstAt(data, SPACE);
    var record := data[space+1..n-1];
    var eq := FirstAt(record, EQUALS);
    assert record == r.key + [EQUALS] + r.value;
    assert record[0..eq] == r.key;
    assert data[..n] == data[..space] + [data[space]] + record + [data[n-1]];
    assert Body(r) == data[..n];
  }

  /** And the bytes of a record give it back, whatever follows. */
  lemma NextOfBody(r: Record, rest: seq<Byte>)
    requires WellFormed(r)
    ensures Next(Body(r) + rest) == Some((r, |Body(r)|))
  {
    hide FirstAt, DecimalValue;
    var data, d, n := Body(r) + rest, |r.digits|, |Body(r)|;
    assert data[..d] == r.digits;
    assert SPACE !in r.digits;
    FirstAtIs(data, SPACE, d);
    var record := r.key + [EQUALS] + r.value;
    assert data[d+1..n-1] == record;
    assert record[..|r.key|] == r.key;
    FirstAtIs(record, EQUALS, |r.key|);
    assert record[|r.key|+1..] == r.value;
    assert data[n-1] == NEWLINE;
  }

  // --- The whole header.

  function Records(data: seq<Byte>): Option<seq<Record>>
    decreases |data|
  {
    if data == [] then Some([])
    else
      var next := Next(data);
      if next.None? || !(1 <= next.value.1 <= |data|) then None
      else
        var rest := Records(data[next.value.1..]);
        if rest.None? then None else Some([next.value.0] + rest.value)
  }

  lemma {:induction false} ConcatOfRecords(data: seq<Byte>)
    requires Records(data).Some?
    ensures AllWellFormed(Records(data).value) && Concat(Records(data).value) == data
    decreases |data|
  {
    hide Next, WellFormed, Body;
    if data != [] {
      var (r, n) := Next(data).value;
      BodyOfNext(data);
      ConcatOfRecords(data[n..]);
      var rest := Records(data[n..]).value;
      assert ([r] + rest)[1..] == rest;
      assert data == data[..n] + data[n..];
    }
  }

  lemma BodyIsNotEmpty(r: Record)
    ensures |Body(r)| >= 1
  {
  }

  lemma {:induction false} RecordsOfConcat(rs: seq<Record>)
    requires AllWellFormed(rs)
    ensures Records(Concat(rs)) == Some(rs)
    decreases |rs|
  {
    hide Next, WellFormed, Body;
    if rs != [] {
      var data, n := Concat(rs), |Body(rs[0])|;
      NextOfBody(rs[0], Concat(rs[1..]));
      BodyIsNotEmpty(rs[0]);
      RecordsOfConcat(rs[1..]);
      assert data[n..] == Concat(rs[1..]);
      assert rs == [rs[0]] + rs[1..];
    }
  }

  /** A header is accepted exactly when it is a concatenation of well-formed records, and it is
      one in only one way. */
  lemma RecordsExactly(data: seq<Byte>, rs: seq<Record>)
    ensures Records(data) == Some(rs) <==> AllWellFormed(rs) && Concat(rs) == data
  {
    if Records(data) == Some(rs) {
      ConcatOfRecords(data);
    }
    if AllWellFormed(rs) && Concat(rs) == data {
      RecordsOfConcat(rs);
    }
  }

  function Pax(data: seq<Byte>): Option<map<Text, Text>> {
    var rs := Records(data);
    if rs.None? then None else Some(Stored(rs.value))
  }

  lemma {:induction false} StoredConcat(rs: seq<Record>, r: Record, more: seq<Record>)
    ensures (rs + [r]) + more == rs + ([r] + more)
    ensures Stored(rs + [r]) == if r.key == PROTO then Stored(rs) else Stored(rs)[r.key := r.value]
  {
    assert (rs + [r])[..|rs|] == rs;
  }

  /** The parser: an offset advancing record by record, and one table. */
  method ParsePax(data: seq<Byte>) returns (out: Option<map<Text, Text>>)
    ensures out == Pax(data)
  {
    hide Next, PROTO;
    var table: map<Text, Text> := map[];
    var offset := 0;
    ghost var done: seq<Record> := [];
    assert data[0..] == data;
    while offset < |data|
      invariant 0 <= offset <= |data|
      invariant table == Stored(done)
      invariant Records(data).Some? <==> Records(data[offset..]).Some?
      invariant Records(data).Some? ==> Records(data).value == done + Records(data[offset..]).value
      decreases |data| - offset
    {
      var next := Next(data[offset..]);
      if next.None? {
        return None;
      }
      BodyOfNext(data[offset..]);
      var (r, n) := next.value;
      assert data[offset..][n..] == data[offset+n..];
      ghost var rest := Records(data[offset+n..]);
      StoredConcat(done, r, if rest.Some? then rest.value else []);
      if r.key != PROTO {
        table := table[r.key := r.value];
      }
      done := done + [r];
      offset := offset + n;
    }
    assert data[offset..] == [];
    assert done + [] == done;
    return Some(table);
  }
}
