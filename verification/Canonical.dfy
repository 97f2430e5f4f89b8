/** The canonical JSON text both validators hash and size: sorted snake_case names, no white space,
    safe integers only. Strings are well-formed; anything else is not printable. */
module Canonical {
  import opened Options
  import opened Sequences
  import opened Texts
  import opened Journal

  const MAX_DEPTH: nat := 32

  datatype Member = Member(key: string, value: Value)

  /** `Unprintable` stands for every other JavaScript value: fractions, -0, NaN, lone surrogates, functions. */
  datatype Value =
    | Null | Bool(b: bool) | Num(n: int) | Str(s: string)
    | Arr(items: seq<Value>) | Obj(members: seq<Member>) | Unprintable

  /** The value a JSON text stands for; an object has no order (section 4 of RFC 8259). */
  datatype Json =
    | JNull | JBool(b: bool) | JNum(n: int) | JStr(s: string)
    | JArr(items: seq<Json>) | JObj(members: map<string, Json>) | JOther

  function Meaning(v: Value): Json {
    match v
    case Null => JNull
    case Bool(b) => JBool(b)
    case Num(n) => JNum(n)
    case Str(s) => JStr(s)
    case Arr(items) => JArr(Meanings(items))
    case Obj(members) => JObj(MemberMeanings(members))
    case Unprintable => JOther
  }

  function Meanings(items: seq<Value>): seq<Json> {
    if items == [] then [] else [Meaning(items[0])] + Meanings(items[1..])
  }

  function MemberMeanings(ms: seq<Member>): map<string, Json> {
    if ms == [] then map[] else MemberMeanings(ms[1..])[ms[0].key := Meaning(ms[0].value)]
  }

  // --- Strings and numbers.

  function HexDigit(d: nat): char
    requires d < 16
  {
    if d < 10 then ('0' as int + d) as char else ('a' as int + (d - 10)) as char
  }

  function EscapeChar(c: char): (s: string)
    ensures |s| >= 1
  {
    if c == '"' then "\\\""
    else if c == '\\' then "\\\\"
    else if c as int == 8 then "\\b"
    else if c as int == 9 then "\\t"
    else if c as int == 10 then "\\n"
    else if c as int == 12 then "\\f"
    else if c as int == 13 then "\\r"
    else if c as int < 32 then "\\u00" + [HexDigit(c as int / 16), HexDigit(c as int % 16)]
    else [c]
  }

  function Escape(s: string): string {
    if s == [] then [] else EscapeChar(s[0]) + Escape(s[1..])
  }

  function Quote(s: string): string {
    "\"" + Escape(s) + "\""
  }

  function Signed(n: int): string {
    if n < 0 then "-" + Decimal(-n) else Decimal(n)
  }

  // --- Printing in the order given.

  function Print(v: Value): string {
    match v
    case Null => "null"
    case Bool(b) => if b then "true" else "false"
    case Num(n) => Signed(n)
    case Str(s) => Quote(s)
    case Arr(items) => "[" + PrintItems(items) + "]"
    case Obj(members) => "{" + PrintMembers(members) + "}"
    case Unprintable => []
  }

  function PrintItems(items: seq<Value>): string {
    if items == [] then []
    else if |items| == 1 then Print(items[0])
    else Print(items[0]) + "," + PrintItems(items[1..])
  }

  function PrintMember(m: Member): string {
    Quote(m.key) + ":" + Print(m.value)
  }

  function PrintMembers(ms: seq<Member>): string {
    if ms == [] then []
    else if |ms| == 1 then PrintMember(ms[0])
    else PrintMember(ms[0]) + "," + PrintMembers(ms[1..])
  }

  // --- The canonical text.

  predicate IsKey(k: string) {
    k != [] && 'a' <= k[0] <= 'z'
    && forall i :: 0 <= i < |k| ==> 'a' <= k[i] <= 'z' || IsDigit(k[i]) || k[i] == '_'
  }

  predicate Printable(v: Value, depth: nat) {
    && depth <= MAX_DEPTH
    && match v
       case Num(n) => -MAX_SAFE <= n <= MAX_SAFE
       case Arr(items) => forall i :: 0 <= i < |items| ==> Printable(items[i], depth + 1)
       case Obj(ms) => forall i :: 0 <= i < |ms| ==> IsKey(ms[i].key) && Printable(ms[i].value, depth + 1)
       case Unprintable => false
       case _ => true
  }

  /** No object repeats a name: a JavaScript object cannot. */
  predicate Distinct(v: Value) {
    match v
    case Arr(items) => forall i :: 0 <= i < |items| ==> Distinct(items[i])
    case Obj(ms) => DistinctKeys(ms) && forall i :: 0 <= i < |ms| ==> Distinct(ms[i].value)
    case _ => true
  }

  predicate DistinctKeys(ms: seq<Member>) {
    forall i, k :: 0 <= i < k < |ms| ==> ms[i].key != ms[k].key
  }

  function Insert(m: Member, ms: seq<Member>): seq<Member> {
    if ms == [] then [m]
    else if TextLess(ms[0].key, m.key) then [ms[0]] + Insert(m, ms[1..])
    else [m] + ms
  }

  /** The value with the members of every object in the order of their names. */
  function Normal(v: Value): Value {
    match v
    case Arr(items) => Arr(NormalItems(items))
    case Obj(ms) => Obj(NormalMembers(ms))
    case _ => v
  }

  function NormalItems(items: seq<Value>): seq<Value> {
    if items == [] then [] else [Normal(items[0])] + NormalItems(items[1..])
  }

  function NormalMembers(ms: seq<Member>): seq<Member> {
    if ms == [] then [] else Insert(Member(ms[0].key, Normal(ms[0].value)), NormalMembers(ms[1..]))
  }

  function Canonicalize(v: Value): Option<string> {
    if Printable(v, 0) then Some(Print(Normal(v))) else None
  }

  // --- What has a canonical text.

  /** The value under a path of places, item or member by number. */
  function Under(v: Value, path: seq<nat>): Option<Value>
    decreases |path|
  {
    if path == [] then Some(v)
    else
      match v
      case Arr(items) => if path[0] < |items| then Under(items[path[0]], path[1..]) else None
      case Obj(ms) => if path[0] < |ms| then Under(ms[path[0]].value, path[1..]) else None
      case _ => None
  }

  /** At most 32 levels down, a safe integer if a number, lower-case names if an object, and no value
      JSON does not have. */
  predicate Plain(v: Value, depth: nat) {
    && depth <= 32 && !v.Unprintable?
    && (v.Num? ==> -9007199254740991 <= v.n <= 9007199254740991)
    && (v.Obj? ==> forall i :: 0 <= i < |v.members| ==> IsKey(v.members[i].key))
  }

  lemma {:induction false} PrintableUnder(v: Value, depth: nat, path: seq<nat>)
    requires Printable(v, depth) && Under(v, path).Some?
    ensures Plain(Under(v, path).value, depth + |path|)
    decreases |path|
  {
    hide IsKey;
    if path != [] {
      match v
      case Arr(items) => PrintableUnder(items[path[0]], depth + 1, path[1..]);
      case Obj(ms) => PrintableUnder(ms[path[0]].value, depth + 1, path[1..]);
    }
  }

  lemma {:induction false} UnprintableUnder(v: Value, depth: nat) returns (path: seq<nat>)
    requires !Printable(v, depth)
    ensures Under(v, path).Some? && !Plain(Under(v, path).value, depth + |path|)
    decreases v
  {
    hide IsKey;
    path := [];
    if Plain(v, depth) {
      match v
      case Arr(items) =>
        var i :| 0 <= i < |items| && !Printable(items[i], depth + 1);
        var rest := UnprintableUnder(items[i], depth + 1);
        path := [i] + rest;
        assert path[1..] == rest;
      case Obj(ms) =>
        var i :| 0 <= i < |ms| && !Printable(ms[i].value, depth + 1);
        var rest := UnprintableUnder(ms[i].value, depth + 1);
        path := [i] + rest;
        assert path[1..] == rest;
    }
  }

  /** A value has a canonical text exactly when everything under it is plain, however deep. */
  lemma CanonicalizesExactly(v: Value)
    ensures Canonicalize(v).Some? <==> forall path :: Under(v, path).Some? ==> Plain(Under(v, path).value, |path|)
  {
    hide Printable, Plain, Print, Normal;
    if Canonicalize(v).Some? {
      forall path | Under(v, path).Some? ensures Plain(Under(v, path).value, |path|) {
        PrintableUnder(v, 0, path);
      }
    } else {
      var path := UnprintableUnder(v, 0);
    }
  }

  // --- Reading back one character, one string, one number.

  function HexValue(c: char): nat {
    if IsDigit(c) then c as int - '0' as int else if 'a' <= c <= 'f' then c as int - 'a' as int + 10 else 0
  }

  /** The first character an escaped text stands for, and how many characters spell it. */
  function ReadChar(t: string): Option<(int, nat)> {
    if t == [] || t[0] == '"' then None
    else if t[0] != '\\' then Some((t[0] as int, 1))
    else if |t| < 2 then None
    else if t[1] == '"' then Some(('"' as int, 2))
    else if t[1] == '\\' then Some(('\\' as int, 2))
    else if t[1] == 'b' then Some((8, 2))
    else if t[1] == 't' then Some((9, 2))
    else if t[1] == 'n' then Some((10, 2))
    else if t[1] == 'f' then Some((12, 2))
    else if t[1] == 'r' then Some((13, 2))
    else if |t| < 6 then None
    else Some((16 * HexValue(t[4]) + HexValue(t[5]), 6))
  }

  lemma ReadsEscaped(c: char, x: string)
    ensures ReadChar(EscapeChar(c) + x) == Some((c as int, |EscapeChar(c)|))
  {
    if c as int < 32 {
      var d, e := c as int / 16, c as int % 16;
      assert HexValue(HexDigit(d)) == d && HexValue(HexDigit(e)) == e;
    }
  }

  lemma {:induction false} EscapedIsUnique(s: string, t: string, a: string, b: string)
    requires Escape(s) + "\"" + a == Escape(t) + "\"" + b
    ensures s == t && a == b
    decreases |s| + |t|
  {
    hide EscapeChar, ReadChar;
    var x, y := Escape(s) + "\"" + a, Escape(t) + "\"" + b;
    EndsAtQuote(a);
    EndsAtQuote(b);
    assert s == [] ==> x == "\"" + a;
    assert t == [] ==> y == "\"" + b;
    if s != [] {
      StartsWith(s, a);
    }
    if t != [] {
      StartsWith(t, b);
    }
    if s != [] && t != [] {
      var n := |EscapeChar(s[0])|;
      assert x[n..] == Escape(s[1..]) + "\"" + a;
      assert y[n..] == Escape(t[1..]) + "\"" + b;
      EscapedIsUnique(s[1..], t[1..], a, b);
      assert s == [s[0]] + s[1..] && t == [t[0]] + t[1..];
    } else {
      assert x[1..] == a && y[1..] == b;
    }
  }

  lemma EndsAtQuote(a: string)
    ensures ReadChar("\"" + a) == None
  {
  }

  lemma StartsWith(s: string, a: string)
    requires s != []
    ensures ReadChar(Escape(s) + "\"" + a) == Some((s[0] as int, |EscapeChar(s[0])|))
  {
    assert Escape(s) + "\"" + a == EscapeChar(s[0]) + (Escape(s[1..]) + "\"" + a);
    ReadsEscaped(s[0], Escape(s[1..]) + "\"" + a);
  }

  lemma QuotedIsUnique(s: string, t: string, a: string, b: string)
    requires Quote(s) + a == Quote(t) + b
    ensures s == t && a == b
  {
    assert (Quote(s) + a)[1..] == Escape(s) + "\"" + a;
    assert (Quote(t) + b)[1..] == Escape(t) + "\"" + b;
    EscapedIsUnique(s, t, a, b);
  }

  /** Where a value may end. */
  predicate Stops(a: string) {
    a == [] || a[0] == ',' || a[0] == ']' || a[0] == '}'
  }

  lemma ShorterFirst(n: nat, m: nat, a: string, b: string)
    requires Decimal(n) + a == Decimal(m) + b && Stops(a)
    ensures |Decimal(n)| >= |Decimal(m)|
  {
    DigitsFirst(m, b);
    assert a != [] ==> (Decimal(n) + a)[|Decimal(n)|] == a[0];
  }

  lemma DigitsFirst(n: nat, a: string)
    ensures forall i :: 0 <= i < |Decimal(n)| ==> IsDigit((Decimal(n) + a)[i])
  {
    DecimalReadsBack(n);
  }

  lemma DecimalIsUnique(n: nat, m: nat, a: string, b: string)
    requires Decimal(n) + a == Decimal(m) + b && Stops(a) && Stops(b)
    ensures n == m && a == b
  {
    ShorterFirst(n, m, a, b);
    ShorterFirst(m, n, b, a);
    var k := |Decimal(n)|;
    assert (Decimal(n) + a)[..k] == Decimal(n) && (Decimal(m) + b)[..k] == Decimal(m);
    assert (Decimal(n) + a)[k..] == a && (Decimal(m) + b)[k..] == b;
    DecimalReadsBack(n);
    DecimalReadsBack(m);
  }

  lemma SignedIsUnique(n: int, m: int, a: string, b: string)
    requires Signed(n) + a == Signed(m) + b && Stops(a) && Stops(b)
    ensures n == m && a == b
  {
    hide Decimal;
    SignedHead(n);
    SignedHead(m);
    assert (Signed(n) + a)[0] == Signed(n)[0] && (Signed(m) + b)[0] == Signed(m)[0];
    if n < 0 {
      AfterMinus(n, a);
      AfterMinus(m, b);
      DecimalIsUnique(-n, -m, a, b);
    } else {
      DecimalIsUnique(n, m, a, b);
    }
  }

  lemma AfterMinus(n: int, a: string)
    requires n < 0
    ensures (Signed(n) + a)[1..] == Decimal(-n) + a
  {
    hide Decimal;
  }

  lemma SignedHead(n: int)
    ensures Signed(n) != [] && (if n < 0 then Signed(n)[0] == '-' else IsDigit(Signed(n)[0]))
  {
    if n >= 0 {
      DecimalReadsBack(n);
    }
  }

  // --- Printing loses nothing.

  predicate Sound(v: Value) {
    match v
    case Arr(items) => forall i :: 0 <= i < |items| ==> Sound(items[i])
    case Obj(ms) => forall i :: 0 <= i < |ms| ==> Sound(ms[i].value)
    case Unprintable => false
    case _ => true
  }

  datatype Kind = KNull | KTrue | KFalse | KNum | KStr | KArr | KObj | KOther

  function KindOf(v: Value): Kind {
    match v
    case Null => KNull
    case Bool(b) => if b then KTrue else KFalse
    case Num(_) => KNum
    case Str(_) => KStr
    case Arr(_) => KArr
    case Obj(_) => KObj
    case Unprintable => KOther
  }

  function KindOfHead(c: char): Kind {
    if c == 'n' then KNull else if c == 't' then KTrue else if c == 'f' then KFalse
    else if c == '"' then KStr else if c == '[' then KArr else if c == '{' then KObj
    else if c == '-' || IsDigit(c) then KNum else KOther
  }

  /** The first character of a text tells which kind of value it is. */
  lemma HeadTellsKind(v: Value)
    requires Sound(v)
    ensures Print(v) != [] && KindOfHead(Print(v)[0]) == KindOf(v)
  {
    if v.Num? {
      SignedHead(v.n);
    }
  }

  lemma {:induction false} PrintIsUnique(v: Value, w: Value, a: string, b: string)
    requires Sound(v) && Sound(w) && Print(v) + a == Print(w) + b && Stops(a) && Stops(b)
    ensures v == w && a == b
    decreases v, 1
  {
    hide PrintItems, PrintMembers, Escape, Signed;
    HeadTellsKind(v);
    HeadTellsKind(w);
    var x, y := Print(v) + a, Print(w) + b;
    assert x[0] == Print(v)[0] && y[0] == Print(w)[0];
    assert x[|Print(v)|..] == a && y[|Print(w)|..] == b;
    match v
    case Num(n) => SignedIsUnique(n, w.n, a, b);
    case Str(s) => QuotedIsUnique(s, w.s, a, b);
    case Arr(items) =>
      assert x[1..] == PrintItems(items) + ("]" + a);
      assert y[1..] == PrintItems(w.items) + ("]" + b);
      ItemsAreUnique(items, w.items, "]" + a, "]" + b);
      assert ("]" + a)[1..] == a && ("]" + b)[1..] == b;
    case Obj(ms) =>
      assert x[1..] == PrintMembers(ms) + ("}" + a);
      assert y[1..] == PrintMembers(w.members) + ("}" + b);
      MembersAreUnique(ms, w.members, "}" + a, "}" + b);
      assert ("}" + a)[1..] == a && ("}" + b)[1..] == b;
    case _ =>
  }

  /** What closes a list. */
  predicate Closes(a: string, c: char) {
    a != [] && a[0] == c
  }

  /** The first item and what follows it in the text. */
  function AfterItem(items: seq<Value>, a: string): string
    requires items != []
  {
    if |items| == 1 then a else "," + PrintItems(items[1..]) + a
  }

  lemma FirstItem(items: seq<Value>, a: string)
    requires items != [] && Sound(items[0]) && Closes(a, ']')
    ensures PrintItems(items) + a == Print(items[0]) + AfterItem(items, a)
    ensures Stops(AfterItem(items, a)) && Print(items[0]) != [] && Print(items[0])[0] != ']'
  {
    hide Print;
    HeadTellsKind(items[0]);
    if |items| > 1 {
      Associate(Print(items[0]) + ",", PrintItems(items[1..]), a);
      Associate(Print(items[0]), ",", PrintItems(items[1..]) + a);
      Associate(",", PrintItems(items[1..]), a);
    }
  }

  lemma OtherItems(items: seq<Value>, a: string)
    requires items != [] && Closes(a, ']')
    ensures |items| == 1 ==> AfterItem(items, a) == a && items == [items[0]]
    ensures |items| > 1 ==> AfterItem(items, a)[0] == ',' && AfterItem(items, a)[1..] == PrintItems(items[1..]) + a
  {
    hide PrintItems;
    assert ("," + PrintItems(items[1..]) + a)[1..] == PrintItems(items[1..]) + a;
  }

  lemma {:induction false} ItemsAreUnique(u: seq<Value>, w: seq<Value>, a: string, b: string)
    requires (forall i :: 0 <= i < |u| ==> Sound(u[i])) && (forall i :: 0 <= i < |w| ==> Sound(w[i]))
    requires PrintItems(u) + a == PrintItems(w) + b && Closes(a, ']') && Closes(b, ']')
    ensures u == w && a == b
    decreases u, 0
  {
    hide Print, PrintItems, Sound, AfterItem;
    NoItems(a);
    NoItems(b);
    if u != [] {
      FirstItem(u, a);
      assert (PrintItems(u) + a)[0] == Print(u[0])[0];
    }
    if w != [] {
      FirstItem(w, b);
      assert (PrintItems(w) + b)[0] == Print(w[0])[0];
    }
    if u != [] && w != [] {
      PrintIsUnique(u[0], w[0], AfterItem(u, a), AfterItem(w, b));
      OtherItems(u, a);
      OtherItems(w, b);
      if |u| > 1 && |w| > 1 {
        ItemsAreUnique(u[1..], w[1..], a, b);
        assert u == [u[0]] + u[1..] && w == [w[0]] + w[1..];
      }
    }
  }

  lemma NoItems(a: string)
    ensures PrintItems([]) + a == a && PrintMembers([]) + a == a
  {
  }

  function AfterMember(ms: seq<Member>, a: string): string
    requires ms != []
  {
    if |ms| == 1 then a else "," + PrintMembers(ms[1..]) + a
  }

  lemma FirstMember(ms: seq<Member>, a: string)
    requires ms != [] && Closes(a, '}')
    ensures PrintMembers(ms) + a == Quote(ms[0].key) + (":" + (Print(ms[0].value) + AfterMember(ms, a)))
    ensures Stops(AfterMember(ms, a))
  {
    hide Quote, Print;
    var k, p, rest := Quote(ms[0].key), Print(ms[0].value), AfterMember(ms, a);
    Associate(k + ":", p, rest);
    Associate(k, ":", p + rest);
    if |ms| > 1 {
      Associate(PrintMember(ms[0]) + ",", PrintMembers(ms[1..]), a);
      Associate(PrintMember(ms[0]), ",", PrintMembers(ms[1..]) + a);
      Associate(",", PrintMembers(ms[1..]), a);
    }
  }

  lemma {:induction false} MembersAreUnique(u: seq<Member>, w: seq<Member>, a: string, b: string)
    requires (forall i :: 0 <= i < |u| ==> Sound(u[i].value)) && (forall i :: 0 <= i < |w| ==> Sound(w[i].value))
    requires PrintMembers(u) + a == PrintMembers(w) + b && Closes(a, '}') && Closes(b, '}')
    ensures u == w && a == b
    decreases u, 0
  {
    hide Print, PrintMembers, Sound, AfterMember;
    NoItems(a);
    NoItems(b);
    if u != [] {
      StartsWithQuote(u, a);
    }
    if w != [] {
      StartsWithQuote(w, b);
    }
    if u != [] && w != [] {
      SameFirstName(u, w, a, b);
      PrintIsUnique(u[0].value, w[0].value, AfterMember(u, a), AfterMember(w, b));
      OtherMembers(u, a);
      OtherMembers(w, b);
      if |u| > 1 && |w| > 1 {
        MembersAreUnique(u[1..], w[1..], a, b);
        assert u == [u[0]] + u[1..] && w == [w[0]] + w[1..];
      }
    }
  }

  lemma StartsWithQuote(ms: seq<Member>, a: string)
    requires ms != [] && Closes(a, '}')
    ensures PrintMembers(ms) + a != [] && (PrintMembers(ms) + a)[0] == '"' && Stops(AfterMember(ms, a))
  {
    hide Print, PrintMembers, Escape;
    FirstMember(ms, a);
  }

  lemma SameFirstName(u: seq<Member>, w: seq<Member>, a: string, b: string)
    requires u != [] && w != [] && Closes(a, '}') && Closes(b, '}') && PrintMembers(u) + a == PrintMembers(w) + b
    ensures u[0].key == w[0].key && Print(u[0].value) + AfterMember(u, a) == Print(w[0].value) + AfterMember(w, b)
  {
    hide Print, PrintMembers, Quote, AfterMember;
    FirstMember(u, a);
    FirstMember(w, b);
    var x, y := Print(u[0].value) + AfterMember(u, a), Print(w[0].value) + AfterMember(w, b);
    QuotedIsUnique(u[0].key, w[0].key, ":" + x, ":" + y);
    assert (":" + x)[1..] == x && (":" + y)[1..] == y;
  }

  lemma OtherMembers(ms: seq<Member>, a: string)
    requires ms != [] && Closes(a, '}')
    ensures |ms| == 1 ==> AfterMember(ms, a) == a && ms == [ms[0]]
    ensures |ms| > 1 ==> AfterMember(ms, a)[0] == ',' && AfterMember(ms, a)[1..] == PrintMembers(ms[1..]) + a
  {
    hide PrintMembers;
    assert ("," + PrintMembers(ms[1..]) + a)[1..] == PrintMembers(ms[1..]) + a;
  }

  // --- Sorting changes neither the meaning nor what is printable.

  function Lookup(ms: seq<Member>): map<string, Value> {
    if ms == [] then map[] else Lookup(ms[1..])[ms[0].key := ms[0].value]
  }

  lemma {:induction false} LookupFinds(ms: seq<Member>, k: string)
    ensures k in Lookup(ms) <==> k in MemberMeanings(ms)
    ensures k in Lookup(ms) ==> MemberMeanings(ms)[k] == Meaning(Lookup(ms)[k])
    ensures k in Lookup(ms) ==> exists i :: 0 <= i < |ms| && ms[i].key == k && ms[i].value == Lookup(ms)[k]
    ensures (exists i :: 0 <= i < |ms| && ms[i].key == k) ==> k in Lookup(ms)
  {
    if ms != [] {
      LookupFinds(ms[1..], k);
      if k in Lookup(ms) {
        if ms[0].key != k {
          var i :| 0 <= i < |ms[1..]| && ms[1..][i].key == k && ms[1..][i].value == Lookup(ms[1..])[k];
          assert ms[i+1] == ms[1..][i];
        }
      }
      if i :| 0 <= i < |ms| && ms[i].key == k {
        assert i > 0 ==> ms[1..][i-1].key == k;
      }
    }
  }

  lemma {:induction false} InsertAdds(m: Member, ms: seq<Member>)
    requires m.key !in Lookup(ms)
    ensures Lookup(Insert(m, ms)) == Lookup(ms)[m.key := m.value]
  {
    if ms != [] && TextLess(ms[0].key, m.key) {
      InsertAdds(m, ms[1..]);
      assert Insert(m, ms)[1..] == Insert(m, ms[1..]);
    } else {
      assert ([m] + ms)[1..] == ms;
    }
  }

  predicate SortedKeys(ms: seq<Member>) {
    forall i, k :: 0 <= i < k < |ms| ==> TextLess(ms[i].key, ms[k].key)
  }

  lemma {:induction false} InsertSorts(m: Member, ms: seq<Member>)
    requires SortedKeys(ms) && m.key !in Lookup(ms)
    ensures SortedKeys(Insert(m, ms))
    ensures forall i :: 0 <= i < |Insert(m, ms)| ==> Insert(m, ms)[i] == m || Insert(m, ms)[i] in ms
  {
    if ms != [] {
      LookupFinds(ms, ms[0].key);
      assert ms[0].key != m.key;
      TextLessTotal(ms[0].key, m.key);
      if TextLess(ms[0].key, m.key) {
        InsertSorts(m, ms[1..]);
      } else {
        forall i | 0 <= i < |ms| ensures TextLess(m.key, ms[i].key) {
          if i > 0 {
            TextLessTransitive(m.key, ms[0].key, ms[i].key);
          }
        }
      }
    }
  }

  lemma TailIsDistinct(ms: seq<Member>)
    requires DistinctKeys(ms) && ms != []
    ensures DistinctKeys(ms[1..]) && ms[0].key !in Lookup(ms[1..])
  {
    LookupFinds(ms[1..], ms[0].key);
    assert forall i :: 0 <= i < |ms[1..]| ==> ms[1..][i] == ms[i+1];
  }

  /** The members in name order, each under its own normal value. */
  lemma {:induction false} NormalLooksUp(ms: seq<Member>, k: string)
    requires DistinctKeys(ms)
    ensures SortedKeys(NormalMembers(ms))
    ensures k in Lookup(NormalMembers(ms)) <==> k in Lookup(ms)
    ensures k in Lookup(ms) ==> Lookup(NormalMembers(ms))[k] == Normal(Lookup(ms)[k])
  {
    hide Normal, Insert, TextLess;
    if ms != [] {
      var m, rest := ms[0], ms[1..];
      TailIsDistinct(ms);
      NormalLooksUp(rest, k);
      NormalLooksUp(rest, m.key);
      var n := Member(m.key, Normal(m.value));
      InsertAdds(n, NormalMembers(rest));
      InsertSorts(n, NormalMembers(rest));
    }
  }

  lemma LookupTail(ms: seq<Member>)
    requires SortedKeys(ms) && ms != []
    ensures ms[0].key !in Lookup(ms[1..]) && Lookup(ms[1..]) == Lookup(ms) - {ms[0].key}
    ensures forall k :: k in Lookup(ms) && k != ms[0].key ==> TextLess(ms[0].key, k)
  {
    hide TextLess, MemberMeanings, Meaning;
    TextLessAsymmetric(ms[0].key, ms[0].key);
    forall k | k in Lookup(ms[1..]) ensures TextLess(ms[0].key, k) {
      LookupFinds(ms[1..], k);
      var i :| 0 <= i < |ms[1..]| && ms[1..][i].key == k;
      assert ms[i+1].key == k;
    }
  }

  lemma NothingToLookUp(ms: seq<Member>)
    ensures Lookup(ms) == map[] <==> ms == []
  {
    if ms != [] {
      assert ms[0].key in Lookup(ms);
    }
  }

  /** There is one way to put members in order. */
  lemma {:induction false} SortedIsUnique(u: seq<Member>, w: seq<Member>)
    requires SortedKeys(u) && SortedKeys(w) && Lookup(u) == Lookup(w)
    ensures u == w
  {
    hide TextLess;
    NothingToLookUp(u);
    NothingToLookUp(w);
    if u != [] && w != [] {
      LookupTail(u);
      LookupTail(w);
      assert u[0].key in Lookup(w) && w[0].key in Lookup(u);
      TextLessAsymmetric(u[0].key, w[0].key);
      assert Lookup(u)[u[0].key] == u[0].value && Lookup(w)[w[0].key] == w[0].value;
      SortedIsUnique(u[1..], w[1..]);
      assert u == [u[0]] + u[1..] && w == [w[0]] + w[1..];
    }
  }

  lemma {:induction false} SameMeaningSameNormal(v: Value, w: Value)
    requires Distinct(v) && Distinct(w) && Meaning(v) == Meaning(w)
    ensures Normal(v) == Normal(w)
    decreases v, 1
  {
    hide NormalMembers, MemberMeanings, Lookup;
    match v
    case Arr(items) => SameItems(items, w.items);
    case Obj(u) =>
      forall k ensures k in Lookup(NormalMembers(u)) <==> k in Lookup(NormalMembers(w.members))
        ensures k in Lookup(NormalMembers(u)) ==> Lookup(NormalMembers(u))[k] == Lookup(NormalMembers(w.members))[k]
      {
        NormalLooksUp(u, k);
        NormalLooksUp(w.members, k);
        LookupFinds(u, k);
        LookupFinds(w.members, k);
        if k in Lookup(u) {
          var i :| 0 <= i < |u| && u[i].key == k && u[i].value == Lookup(u)[k];
          var j :| 0 <= j < |w.members| && w.members[j].key == k && w.members[j].value == Lookup(w.members)[k];
          SameMeaningSameNormal(u[i].value, w.members[j].value);
        }
      }
      NormalLooksUp(u, "");
      NormalLooksUp(w.members, "");
      assert Lookup(NormalMembers(u)) == Lookup(NormalMembers(w.members));
      SortedIsUnique(NormalMembers(u), NormalMembers(w.members));
    case _ =>
  }

  lemma {:induction false} SameItems(u: seq<Value>, w: seq<Value>)
    requires (forall i :: 0 <= i < |u| ==> Distinct(u[i])) && (forall i :: 0 <= i < |w| ==> Distinct(w[i]))
    requires Meanings(u) == Meanings(w)
    ensures NormalItems(u) == NormalItems(w)
    decreases u, 0
  {
    hide Normal, Meaning, Distinct;
    if u != [] && w != [] {
      assert Meanings(u)[0] == Meaning(u[0]) && Meanings(w)[0] == Meaning(w[0]);
      assert Meanings(u)[1..] == Meanings(u[1..]) && Meanings(w)[1..] == Meanings(w[1..]);
      SameMeaningSameNormal(u[0], w[0]);
      SameItems(u[1..], w[1..]);
    }
  }

  /** Sorting the members of every object leaves the value it stands for. */
  lemma {:induction false} NormalKeepsMeaning(v: Value)
    requires Distinct(v)
    ensures Meaning(Normal(v)) == Meaning(v)
    decreases v, 1
  {
    hide NormalMembers, MemberMeanings, Lookup;
    match v
    case Arr(items) => ItemsKeepMeaning(items);
    case Obj(u) =>
      forall k ensures k in MemberMeanings(NormalMembers(u)) <==> k in MemberMeanings(u)
        ensures k in MemberMeanings(u) ==> MemberMeanings(NormalMembers(u))[k] == MemberMeanings(u)[k]
      {
        NormalLooksUp(u, k);
        LookupFinds(u, k);
        LookupFinds(NormalMembers(u), k);
        if k in Lookup(u) {
          var i :| 0 <= i < |u| && u[i].key == k && u[i].value == Lookup(u)[k];
          NormalKeepsMeaning(u[i].value);
        }
      }
    case _ =>
  }

  lemma {:induction false} ItemsKeepMeaning(items: seq<Value>)
    requires forall i :: 0 <= i < |items| ==> Distinct(items[i])
    ensures Meanings(NormalItems(items)) == Meanings(items)
    decreases items, 0
  {
    hide Normal, Meaning, Distinct;
    if items != [] {
      NormalKeepsMeaning(items[0]);
      ItemsKeepMeaning(items[1..]);
      assert NormalItems(items)[1..] == NormalItems(items[1..]);
    }
  }

  lemma {:induction false} NormalIsSound(v: Value, depth: nat)
    requires Printable(v, depth)
    ensures Sound(Normal(v))
    decreases v, 1
  {
    match v
    case Arr(items) => ItemsAreSound(items, depth + 1);
    case Obj(ms) => MembersAreSound(ms, depth + 1);
    case _ =>
  }

  lemma {:induction false} ItemsAreSound(items: seq<Value>, depth: nat)
    requires forall i :: 0 <= i < |items| ==> Printable(items[i], depth)
    ensures forall i :: 0 <= i < |NormalItems(items)| ==> Sound(NormalItems(items)[i])
    decreases items, 0
  {
    hide Normal, Printable, Sound;
    if items != [] {
      NormalIsSound(items[0], depth);
      ItemsAreSound(items[1..], depth);
    }
  }

  lemma {:induction false} MembersAreSound(ms: seq<Member>, depth: nat)
    requires forall i :: 0 <= i < |ms| ==> Printable(ms[i].value, depth)
    ensures forall i :: 0 <= i < |NormalMembers(ms)| ==> Sound(NormalMembers(ms)[i].value)
    decreases ms, 0
  {
    hide Normal, Printable, Sound;
    if ms != [] {
      NormalIsSound(ms[0].value, depth);
      MembersAreSound(ms[1..], depth);
      InsertKeepsSound(Member(ms[0].key, Normal(ms[0].value)), NormalMembers(ms[1..]));
    }
  }

  lemma {:induction false} InsertKeepsSound(m: Member, ms: seq<Member>)
    requires Sound(m.value) && forall i :: 0 <= i < |ms| ==> Sound(ms[i].value)
    ensures forall i :: 0 <= i < |Insert(m, ms)| ==> Sound(Insert(m, ms)[i].value)
  {
    hide Sound, TextLess;
    if ms != [] && TextLess(ms[0].key, m.key) {
      InsertKeepsSound(m, ms[1..]);
    }
  }

  /** Two printable values have the same canonical text exactly when they are the same JSON value:
      member order is all that the text forgets. */
  lemma CanonicalTextIsTheValue(v: Value, w: Value)
    requires Distinct(v) && Distinct(w) && Canonicalize(v).Some? && Canonicalize(w).Some?
    ensures Canonicalize(v) == Canonicalize(w) <==> Meaning(v) == Meaning(w)
  {
    hide Print, Meaning, Normal, Distinct, Printable, Sound;
    if Meaning(v) == Meaning(w) {
      SameMeaningSameNormal(v, w);
    }
    if Canonicalize(v) == Canonicalize(w) {
      NormalIsSound(v, 0);
      NormalIsSound(w, 0);
      PrintIsUnique(Normal(v), Normal(w), [], []);
      NormalKeepsMeaning(v);
      NormalKeepsMeaning(w);
    }
  }

  // --- The order of the text.

  lemma {:induction false} PrintedBefore(ms: seq<Member>, i: nat) returns (before: string, after: string)
    requires i < |ms|
    ensures PrintMembers(ms) == before + PrintMember(ms[i]) + after
    ensures i + 1 < |ms| ==> after == "," + PrintMembers(ms[i+1..])
    decreases |ms|
  {
    hide PrintMember;
    if i == 0 {
      before, after := "", if |ms| == 1 then "" else "," + PrintMembers(ms[1..]);
    } else {
      before, after := PrintedBefore(ms[1..], i - 1);
      var first := PrintMember(ms[0]) + ",";
      assert ms[1..][i-1] == ms[i] && (i + 1 < |ms| ==> ms[1..][i..] == ms[i+1..]);
      assert first + (before + PrintMember(ms[i]) + after) == first + before + PrintMember(ms[i]) + after;
      before := first + before;
    }
  }

  lemma PrintedInOrder(ms: seq<Member>, i: nat, k: nat) returns (before: string, between: string, after: string)
    requires i < k < |ms|
    ensures PrintMembers(ms) == before + PrintMember(ms[i]) + between + PrintMember(ms[k]) + after
  {
    hide PrintMember, PrintMembers;
    var rest;
    before, rest := PrintedBefore(ms, i);
    assert ms[i+1..][k-i-1] == ms[k];
    between, after := PrintedBefore(ms[i+1..], k - i - 1);
    assert before + PrintMember(ms[i]) + ("," + (between + PrintMember(ms[k]) + after))
        == before + PrintMember(ms[i]) + ("," + between) + PrintMember(ms[k]) + after;
    between := "," + between;
  }

  lemma NormalHas(ms: seq<Member>, p: nat) returns (i: nat)
    requires DistinctKeys(ms) && p < |ms|
    ensures i < |NormalMembers(ms)| && NormalMembers(ms)[i] == Member(ms[p].key, Normal(ms[p].value))
  {
    hide Normal, NormalMembers, Meaning, MemberMeanings;
    var key := ms[p].key;
    NormalLooksUp(ms, key);
    LookupFinds(ms, key);
    LookupFinds(NormalMembers(ms), key);
    i :| 0 <= i < |NormalMembers(ms)| && NormalMembers(ms)[i].key == key && NormalMembers(ms)[i].value == Lookup(NormalMembers(ms))[key];
  }

  /** Of two members of an object, the one whose name comes first by its characters is printed first. */
  lemma NamesAreInOrder(ms: seq<Member>, p: nat, q: nat) returns (before: string, between: string, after: string)
    requires DistinctKeys(ms) && p < |ms| && q < |ms| && ComesFirst(ms[p].key, ms[q].key)
    requires Canonicalize(Obj(ms)).Some?
    ensures Canonicalize(Obj(ms)).value
         == before + Quote(ms[p].key) + ":" + Print(Normal(ms[p].value)) + between
            + Quote(ms[q].key) + ":" + Print(Normal(ms[q].value)) + after
  {
    var ns := NormalMembers(ms);
    assert Canonicalize(Obj(ms)).value == "{" + PrintMembers(ns) + "}";
    hide Normal, NormalMembers, Print, PrintMembers, Printable, TextLess, ComesFirst, Quote, Canonicalize;
    var i := NormalHas(ms, p);
    var k := NormalHas(ms, q);
    NormalLooksUp(ms, ms[p].key);
    TextLessExactly(ms[p].key, ms[q].key);
    TextLessAsymmetric(ms[p].key, ms[q].key);
    assert !TextLess(ns[k].key, ns[i].key) && TextLess(ns[i].key, ns[k].key);
    TextLessAsymmetric(ns[i].key, ns[i].key);
    assert i < k;
    before, between, after := PrintedInOrder(ns, i, k);
    MembersSpelled(before, ns[i], between, ns[k], after);
    before, after := "{" + before, after + "}";
  }

  lemma MembersSpelled(a: string, m: Member, b: string, n: Member, c: string)
    ensures "{" + (a + PrintMember(m) + b + PrintMember(n) + c) + "}"
         == ("{" + a) + Quote(m.key) + ":" + Print(m.value) + b + Quote(n.key) + ":" + Print(n.value) + (c + "}")
  {
    hide Print, Quote;
  }

  // --- What a plan digest is taken of.

  const NOT_BOUND: set<string> := {"plan_digest", "presentation"}

  function Bound(ms: seq<Member>): seq<Member> {
    if ms == [] then []
    else if ms[0].key in NOT_BOUND then Bound(ms[1..])
    else [ms[0]] + Bound(ms[1..])
  }

  function PlanText(ms: seq<Member>): Option<string> {
    Canonicalize(Obj(Bound(ms)))
  }

  lemma {:induction false} BoundIsThere(ms: seq<Member>, i: nat)
    requires i < |Bound(ms)|
    ensures Bound(ms)[i] in ms
  {
    if ms[0].key in NOT_BOUND {
      BoundIsThere(ms[1..], i);
    } else if i > 0 {
      BoundIsThere(ms[1..], i - 1);
    }
  }

  lemma {:induction false} BoundIsDistinct(ms: seq<Member>)
    requires DistinctKeys(ms)
    ensures DistinctKeys(Bound(ms)) && MemberMeanings(Bound(ms)) == MemberMeanings(ms) - NOT_BOUND
  {
    hide Meaning;
    if ms != [] {
      TailIsDistinct(ms);
      BoundIsDistinct(ms[1..]);
      LookupFinds(ms[1..], ms[0].key);
      forall i | 0 <= i < |Bound(ms[1..])| ensures Bound(ms[1..])[i].key != ms[0].key {
        BoundIsThere(ms[1..], i);
        var k :| 0 <= k < |ms[1..]| && ms[1..][k] == Bound(ms[1..])[i];
        assert ms[k+1] == ms[1..][k];
      }
      assert ms[0].key !in NOT_BOUND ==> Bound(ms)[1..] == Bound(ms[1..]);
    }
  }

  /** Two plans give the digest the same text exactly when they agree on everything but their
      presentation and the digest itself. */
  lemma PlanTextBindsThePlan(u: seq<Member>, w: seq<Member>)
    requires Distinct(Obj(u)) && Distinct(Obj(w)) && PlanText(u).Some? && PlanText(w).Some?
    ensures PlanText(u) == PlanText(w) <==> MemberMeanings(u) - NOT_BOUND == MemberMeanings(w) - NOT_BOUND
  {
    BoundIsDistinct(u);
    BoundIsDistinct(w);
    forall i | 0 <= i < |Bound(u)| ensures Distinct(Bound(u)[i].value) {
      BoundIsThere(u, i);
    }
    forall i | 0 <= i < |Bound(w)| ensures Distinct(Bound(w)[i].value) {
      BoundIsThere(w, i);
    }
    CanonicalTextIsTheValue(Obj(Bound(u)), Obj(Bound(w)));
  }
}
