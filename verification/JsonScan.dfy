/** The scan a received text passes besides the JSON parser: no object may repeat a name and every
    number must be a plain safe integer. */
module JsonScan {
  import opened Options
  import opened Texts
  import opened Journal

  // --- Valid texts (sections 2 to 7 of RFC 8259), as trees that print to them.

  datatype Tree = Tree(before: string, core: Core, after: string)

  /** `raw` is what stands between the quotes; `gap` is the white space of an empty array or object. */
  datatype Core =
    | Literal(word: string)
    | Number(token: string)
    | Text(raw: string)
    | List(items: seq<Tree>, gap: string)
    | Object(fields: seq<Field>, gap: string)

  datatype Field = Field(before: string, raw: string, after: string, value: Tree)

  predicate IsSpace(c: char) {
    c == ' ' || c == '\t' || c == '\n' || c == '\r'
  }

  predicate Space(s: string) {
    forall i :: 0 <= i < |s| ==> IsSpace(s[i])
  }

  predicate NumberChar(c: char) {
    IsDigit(c) || c == '+' || c == '-' || c == '.' || c == 'e' || c == 'E'
  }

  /** Every JSON number is such a token; more are. */
  predicate Token(t: string) {
    t != [] && (t[0] == '-' || IsDigit(t[0])) && forall i :: 0 <= i < |t| ==> NumberChar(t[i])
  }

  /** Every backslash escapes the character after it, and no other quote stands inside. */
  predicate Raw(s: string)
    decreases |s|
  {
    if s == [] then true
    else if s[0] == '\\' then |s| >= 2 && Raw(s[2..])
    else s[0] != '"' && Raw(s[1..])
  }

  predicate Word(w: string) {
    w == "null" || w == "true" || w == "false"
  }

  predicate WellFormed(t: Tree) {
    && Space(t.before) && Space(t.after)
    && match t.core
       case Literal(word) => Word(word)
       case Number(token) => Token(token)
       case Text(raw) => Raw(raw)
       case List(items, gap) => Space(gap) && forall i :: 0 <= i < |items| ==> WellFormed(items[i])
       case Object(fields, gap) => Space(gap) && forall i :: 0 <= i < |fields| ==> FieldOk(fields[i])
  }

  predicate FieldOk(f: Field) {
    Space(f.before) && Raw(f.raw) && Space(f.after) && WellFormed(f.value)
  }

  function Render(t: Tree): string {
    t.before + RenderCore(t.core) + t.after
  }

  function RenderCore(c: Core): string {
    match c
    case Literal(word) => word
    case Number(token) => token
    case Text(raw) => "\"" + raw + "\""
    case List(items, gap) => "[" + gap + RenderItems(items) + "]"
    case Object(fields, gap) => "{" + gap + RenderFields(fields) + "}"
  }

  function RenderItems(items: seq<Tree>): string {
    if items == [] then []
    else if |items| == 1 then Render(items[0])
    else Render(items[0]) + "," + RenderItems(items[1..])
  }

  function RenderField(f: Field): string {
    f.before + "\"" + f.raw + "\"" + f.after + ":" + Render(f.value)
  }

  function RenderFields(fields: seq<Field>): string {
    if fields == [] then []
    else if |fields| == 1 then RenderField(fields[0])
    else RenderField(fields[0]) + "," + RenderFields(fields[1..])
  }

  // --- What the scan is for.

  /** What the parser makes of the text between two quotes. */
  type Decoder = string -> string

  /** Plain: no sign but a minus, no leading zero, no fraction or exponent, not -0; and safe. */
  predicate PlainSafe(t: string) {
    var digits := if t != [] && t[0] == '-' then t[1..] else t;
    && digits != [] && AllDigits(digits) && (digits[0] == '0' ==> |digits| == 1)
    && t != "-0" && Value(digits) <= MAX_SAFE
  }

  ghost predicate Clean(t: Tree, decode: Decoder) {
    match t.core
    case Number(token) => PlainSafe(token)
    case List(items, _) => forall i :: 0 <= i < |items| ==> Clean(items[i], decode)
    case Object(fields, _) => NoRepeats(fields, decode) && forall i :: 0 <= i < |fields| ==> Clean(fields[i].value, decode)
    case _ => true
  }

  /** No two names of one object are the same once decoded. */
  predicate NoRepeats(fields: seq<Field>, decode: Decoder) {
    forall i, k :: 0 <= i < k < |fields| ==> decode(fields[i].raw) != decode(fields[k].raw)
  }

  // --- The scan.

  datatype Frame = InList | InObject(keys: set<string>, expectKey: bool)

  function StringEnd(text: string, j: nat): (r: nat)
    ensures r >= j
    decreases |text| - j
  {
    if j >= |text| || text[j] == '"' then j
    else StringEnd(text, j + if text[j] == '\\' then 2 else 1)
  }

  function NumberEnd(text: string, j: nat): (r: nat)
    requires j <= |text|
    ensures j <= r <= |text|
    decreases |text| - j
  {
    if j < |text| && NumberChar(text[j]) then NumberEnd(text, j + 1) else j
  }

  function Popped(stack: seq<Frame>): seq<Frame> {
    if stack == [] then [] else stack[..|stack|-1]
  }

  predicate Expects(stack: seq<Frame>) {
    stack != [] && stack[|stack|-1].InObject? && stack[|stack|-1].expectKey
  }

  function WithKeys(stack: seq<Frame>, keys: set<string>, expectKey: bool): seq<Frame> {
    Popped(stack) + [InObject(keys, expectKey)]
  }

  function AfterComma(stack: seq<Frame>): seq<Frame> {
    if stack != [] && stack[|stack|-1].InObject? then WithKeys(stack, stack[|stack|-1].keys, true) else stack
  }

  /** One character or token. A quote that is never closed does not occur in a valid text. */
  datatype Turn = Refuse | Next(at: nat, stack: seq<Frame>)

  function Turned(text: string, stack: seq<Frame>, decode: Decoder): (r: Turn)
    requires text != []
    ensures r.Next? ==> 1 <= r.at <= |text|
  {
    var c := text[0];
    if c == '"' then
      var j := StringEnd(text, 1);
      if j >= |text| then Refuse
      else if Expects(stack) then
        var keys, key := stack[|stack|-1].keys, decode(text[1..j]);
        if key in keys then Refuse else Next(j + 1, WithKeys(stack, keys + {key}, false))
      else Next(j + 1, stack)
    else if c == '{' then Next(1, stack + [InObject({}, true)])
    else if c == '[' then Next(1, stack + [InList])
    else if c == '}' || c == ']' then Next(1, Popped(stack))
    else if c == ',' then Next(1, AfterComma(stack))
    else if c == '-' || IsDigit(c) then
      var j := NumberEnd(text, 1);
      if PlainSafe(text[..j]) then Next(j, stack) else Refuse
    else Next(1, stack)
  }

  predicate Scan(text: string, stack: seq<Frame>, decode: Decoder)
    decreases |text|
  {
    if text == [] then true
    else
      match Turned(text, stack, decode)
      case Refuse => false
      case Next(at, next) => Scan(text[at..], next, decode)
  }

  // --- One token at a time.

  lemma ScanDull(c: char, rest: string, stack: seq<Frame>, decode: Decoder)
    requires c !in {'"', '{', '[', '}', ']', ',', '-'} && !IsDigit(c)
    ensures Scan([c] + rest, stack, decode) == Scan(rest, stack, decode)
  {
    assert ([c] + rest)[1..] == rest;
  }

  lemma {:induction false} ScanSpace(s: string, rest: string, stack: seq<Frame>, decode: Decoder)
    requires Space(s)
    ensures Scan(s + rest, stack, decode) == Scan(rest, stack, decode)
  {
    hide Scan;
    if s == [] {
      assert s + rest == rest;
    } else {
      assert s + rest == [s[0]] + (s[1..] + rest);
      ScanDull(s[0], s[1..] + rest, stack, decode);
      ScanSpace(s[1..], rest, stack, decode);
    }
  }

  lemma {:induction false} ScanWord(w: string, rest: string, stack: seq<Frame>, decode: Decoder)
    requires forall i :: 0 <= i < |w| ==> 'a' <= w[i] <= 'z'
    ensures Scan(w + rest, stack, decode) == Scan(rest, stack, decode)
  {
    hide Scan;
    if w == [] {
      assert w + rest == rest;
    } else {
      assert w + rest == [w[0]] + (w[1..] + rest);
      ScanDull(w[0], w[1..] + rest, stack, decode);
      ScanWord(w[1..], rest, stack, decode);
    }
  }

  lemma {:induction false} NumberEndsThere(head: string, token: string, rest: string)
    requires (forall i :: 0 <= i < |token| ==> NumberChar(token[i])) && (rest == [] || !NumberChar(rest[0]))
    ensures NumberEnd(head + token + rest, |head|) == |head| + |token|
    decreases |token|
  {
    var text := head + token + rest;
    if token != [] {
      assert text[|head|] == token[0];
      assert text == (head + [token[0]]) + token[1..] + rest;
      NumberEndsThere(head + [token[0]], token[1..], rest);
    } else {
      assert text == head + rest;
      assert rest != [] ==> text[|head|] == rest[0];
    }
  }

  lemma ScanNumber(token: string, rest: string, stack: seq<Frame>, decode: Decoder)
    requires Token(token) && (rest == [] || !NumberChar(rest[0]))
    ensures Scan(token + rest, stack, decode) == (PlainSafe(token) && Scan(rest, stack, decode))
  {
    var text, j := token + rest, |token|;
    assert text == [token[0]] + token[1..] + rest;
    NumberEndsThere([token[0]], token[1..], rest);
    assert text[..j] == token && text[j..] == rest && text[0] == token[0];
  }

  lemma {:induction false} StringEndsThere(head: string, raw: string, rest: string)
    requires Raw(raw)
    ensures StringEnd(head + raw + "\"" + rest, |head|) == |head| + |raw|
    decreases |raw|
  {
    var text := head + raw + "\"" + rest;
    if raw == [] {
      assert text[|head|] == '"';
    } else {
      var n := if raw[0] == '\\' then 2 else 1;
      assert text[|head|] == raw[0];
      assert text == (head + raw[..n]) + raw[n..] + "\"" + rest;
      StringEndsThere(head + raw[..n], raw[n..], rest);
    }
  }

  lemma ScanText(raw: string, rest: string, stack: seq<Frame>, decode: Decoder)
    requires Raw(raw)
    ensures Scan("\"" + raw + "\"" + rest, stack, decode) ==
      if Expects(stack) then
        decode(raw) !in stack[|stack|-1].keys && Scan(rest, WithKeys(stack, stack[|stack|-1].keys + {decode(raw)}, false), decode)
      else Scan(rest, stack, decode)
  {
    var text := "\"" + raw + "\"" + rest;
    StringEndsThere("\"", raw, rest);
    assert text[1..1+|raw|] == raw;
    assert text[2+|raw|..] == rest;
  }

  lemma ScanOpen(rest: string, stack: seq<Frame>, decode: Decoder)
    ensures Scan("{" + rest, stack, decode) == Scan(rest, stack + [InObject({}, true)], decode)
    ensures Scan("[" + rest, stack, decode) == Scan(rest, stack + [InList], decode)
  {
    assert ("{" + rest)[1..] == rest && ("[" + rest)[1..] == rest;
  }

  lemma ScanClose(rest: string, stack: seq<Frame>, frame: Frame, decode: Decoder)
    ensures Scan("}" + rest, stack + [frame], decode) == Scan(rest, stack, decode)
    ensures Scan("]" + rest, stack + [frame], decode) == Scan(rest, stack, decode)
  {
    assert ("}" + rest)[1..] == rest && ("]" + rest)[1..] == rest;
    assert Popped(stack + [frame]) == stack;
  }

  lemma ScanComma(rest: string, stack: seq<Frame>, frame: Frame, decode: Decoder)
    ensures Scan("," + rest, stack + [frame], decode)
         == Scan(rest, stack + [if frame.InObject? then InObject(frame.keys, true) else frame], decode)
  {
    assert ("," + rest)[1..] == rest;
    assert Popped(stack + [frame]) == stack;
  }

  // --- Whole trees.

  /** What may follow a value. */
  predicate Follows(rest: string) {
    rest == [] || IsSpace(rest[0]) || rest[0] == ',' || rest[0] == ']' || rest[0] == '}'
  }

  lemma AfterSpace(s: string, rest: string)
    requires Space(s) && Follows(rest)
    ensures Follows(s + rest)
  {
    if s == [] {
      assert s + rest == rest;
    }
  }

  /** The value is passed, with the stack as it was, exactly when it is clean. */
  lemma {:induction false} ScanTree(t: Tree, rest: string, stack: seq<Frame>, decode: Decoder)
    requires WellFormed(t) && Follows(rest) && !Expects(stack)
    ensures Scan(Render(t) + rest, stack, decode) == (Clean(t, decode) && Scan(rest, stack, decode))
    decreases t, 3
  {
    hide Scan, RenderCore;
    var more := t.after + rest;
    assert Render(t) + rest == t.before + (RenderCore(t.core) + more);
    ScanSpace(t.before, RenderCore(t.core) + more, stack, decode);
    AfterSpace(t.after, rest);
    ScanSpace(t.after, rest, stack, decode);
    ScanCore(t, more, stack, decode);
  }

  lemma {:induction false} ScanCore(t: Tree, rest: string, stack: seq<Frame>, decode: Decoder)
    requires WellFormed(t) && Follows(rest) && !Expects(stack)
    ensures Scan(RenderCore(t.core) + rest, stack, decode) == (Clean(t, decode) && Scan(rest, stack, decode))
    decreases t, 2
  {
    hide Scan, RenderItems, RenderFields;
    match t.core
    case Literal(word) => ScanWord(word, rest, stack, decode);
    case Number(token) => ScanNumber(token, rest, stack, decode);
    case Text(raw) => ScanText(raw, rest, stack, decode);
    case List(items, gap) =>
      assert RenderCore(t.core) + rest == "[" + (gap + (RenderItems(items) + ("]" + rest)));
      ScanOpen(gap + (RenderItems(items) + ("]" + rest)), stack, decode);
      ScanSpace(gap, RenderItems(items) + ("]" + rest), stack + [InList], decode);
      ScanItems(items, rest, stack, decode);
    case Object(fields, gap) =>
      assert RenderCore(t.core) + rest == "{" + (gap + (RenderFields(fields) + ("}" + rest)));
      ScanOpen(gap + (RenderFields(fields) + ("}" + rest)), stack, decode);
      ScanSpace(gap, RenderFields(fields) + ("}" + rest), stack + [InObject({}, true)], decode);
      ScanFields(fields, {}, rest, stack, decode);
      assert Fresh(fields, {}, decode) == NoRepeats(fields, decode);
  }

  lemma {:induction false} ScanItems(items: seq<Tree>, rest: string, stack: seq<Frame>, decode: Decoder)
    requires forall i :: 0 <= i < |items| ==> WellFormed(items[i])
    ensures Scan(RenderItems(items) + ("]" + rest), stack + [InList], decode)
         == ((forall i :: 0 <= i < |items| ==> Clean(items[i], decode)) && Scan(rest, stack, decode))
    decreases items, 1
  {
    hide Scan, Render, WellFormed, Clean;
    ScanClose(rest, stack, InList, decode);
    if items == [] {
      assert RenderItems(items) + ("]" + rest) == "]" + rest;
    } else if |items| == 1 {
      ScanTree(items[0], "]" + rest, stack + [InList], decode);
    } else {
      var more := RenderItems(items[1..]) + ("]" + rest);
      assert RenderItems(items) + ("]" + rest) == Render(items[0]) + ("," + more);
      ScanTree(items[0], "," + more, stack + [InList], decode);
      ScanComma(more, stack, InList, decode);
      ScanItems(items[1..], rest, stack, decode);
      assert forall i :: 0 <= i < |items[1..]| ==> items[1..][i] == items[i+1];
    }
  }

  /** None of the names is among the keys seen so far, or repeated. */
  predicate Fresh(fields: seq<Field>, keys: set<string>, decode: Decoder) {
    NoRepeats(fields, decode) && forall i :: 0 <= i < |fields| ==> decode(fields[i].raw) !in keys
  }

  lemma FreshTail(fields: seq<Field>, keys: set<string>, decode: Decoder)
    requires fields != []
    ensures Fresh(fields, keys, decode) <==>
      decode(fields[0].raw) !in keys && Fresh(fields[1..], keys + {decode(fields[0].raw)}, decode)
  {
    var tail := fields[1..];
    assert forall i :: 0 <= i < |tail| ==> tail[i] == fields[i+1];
    if decode(fields[0].raw) !in keys && Fresh(tail, keys + {decode(fields[0].raw)}, decode) {
      forall i, k | 0 <= i < k < |fields| ensures decode(fields[i].raw) != decode(fields[k].raw) {
        assert fields[k] == tail[k-1];
        assert i > 0 ==> fields[i] == tail[i-1];
      }
      forall i | 0 <= i < |fields| ensures decode(fields[i].raw) !in keys {
        assert i > 0 ==> fields[i] == tail[i-1];
      }
    }
  }

  lemma {:induction false} ScanFields(fields: seq<Field>, keys: set<string>, rest: string, stack: seq<Frame>, decode: Decoder)
    requires forall i :: 0 <= i < |fields| ==> FieldOk(fields[i])
    ensures Scan(RenderFields(fields) + ("}" + rest), stack + [InObject(keys, true)], decode)
         == (Fresh(fields, keys, decode) && (forall i :: 0 <= i < |fields| ==> Clean(fields[i].value, decode)) && Scan(rest, stack, decode))
    decreases fields, 1
  {
    hide Scan, RenderField, WellFormed, Clean, Fresh;
    if fields == [] {
      NoFields(fields, keys, decode);
      ScanClose(rest, stack, InObject(keys, true), decode);
      assert RenderFields(fields) + ("}" + rest) == "}" + rest;
    } else {
      var key := decode(fields[0].raw);
      var open := InObject(keys + {key}, false);
      FreshTail(fields, keys, decode);
      assert forall i :: 0 <= i < |fields[1..]| ==> fields[1..][i] == fields[i+1];
      if |fields| == 1 {
        NoFields(fields[1..], keys + {key}, decode);
        ScanField(fields[0], keys, "}" + rest, stack, decode);
        ScanClose(rest, stack, open, decode);
      } else {
        var more := RenderFields(fields[1..]) + ("}" + rest);
        assert RenderFields(fields) + ("}" + rest) == RenderField(fields[0]) + ("," + more);
        ScanField(fields[0], keys, "," + more, stack, decode);
        ScanComma(more, stack, open, decode);
        ScanFields(fields[1..], keys + {key}, rest, stack, decode);
      }
    }
  }

  lemma NoFields(fields: seq<Field>, keys: set<string>, decode: Decoder)
    requires fields == []
    ensures Fresh(fields, keys, decode)
  {
  }

  lemma {:induction false} ScanField(f: Field, keys: set<string>, rest: string, stack: seq<Frame>, decode: Decoder)
    requires FieldOk(f) && Follows(rest)
    ensures Scan(RenderField(f) + rest, stack + [InObject(keys, true)], decode) ==
      (decode(f.raw) !in keys && Clean(f.value, decode) && Scan(rest, stack + [InObject(keys + {decode(f.raw)}, false)], decode))
    decreases f, 0
  {
    hide Scan, Render, WellFormed, Clean, Raw;
    var value := Render(f.value) + rest;
    var named := f.after + (":" + value);
    var before, after := stack + [InObject(keys, true)], stack + [InObject(keys + {decode(f.raw)}, false)];
    assert RenderField(f) + rest == f.before + ("\"" + f.raw + "\"" + named);
    ScanSpace(f.before, "\"" + f.raw + "\"" + named, before, decode);
    ScanText(f.raw, named, before, decode);
    assert WithKeys(before, keys + {decode(f.raw)}, false) == after;
    ScanSpace(f.after, ":" + value, after, decode);
    ScanDull(':', value, after, decode);
    ScanTree(f.value, rest, after, decode);
  }

  /** A valid text is refused exactly when some object of it repeats a name or some number of it is
      not a plain safe integer. */
  lemma ScanAcceptsExactlyClean(t: Tree, decode: Decoder)
    requires WellFormed(t)
    ensures Scan(Render(t), [], decode) <==> Clean(t, decode)
  {
    hide Scan, Render, Clean, WellFormed;
    ScanTree(t, [], [], decode);
    assert Render(t) + [] == Render(t);
    ScanEmpty([], decode);
  }

  method FindStringEnd(text: string, i: nat) returns (j: nat)
    requires i < |text|
    ensures j - i == StringEnd(text[i..], 1)
  {
    ghost var rest := text[i..];
    j := i + 1;
    while j < |text| && text[j] != '"'
      invariant i + 1 <= j
      invariant StringEnd(rest, 1) == StringEnd(rest, j - i)
      decreases |text| - j
    {
      assert rest[j-i] == text[j];
      j := j + if text[j] == '\\' then 2 else 1;
    }
    assert j < |text| ==> rest[j-i] == text[j];
  }

  method FindNumberEnd(text: string, i: nat) returns (j: nat)
    requires i < |text|
    ensures i < j <= |text| && j - i == NumberEnd(text[i..], 1)
  {
    ghost var rest := text[i..];
    j := i + 1;
    while j < |text| && NumberChar(text[j])
      invariant i + 1 <= j <= |text|
      invariant NumberEnd(rest, 1) == NumberEnd(rest, j - i)
    {
      assert rest[j-i] == text[j];
      j := j + 1;
    }
    assert j < |text| ==> rest[j-i] == text[j];
  }

  lemma ScanTurn(text: string, i: nat, stack: seq<Frame>, decode: Decoder)
    requires i < |text|
    ensures var turn := Turned(text[i..], stack, decode);
      Scan(text[i..], stack, decode) == (turn.Next? && Scan(text[i+turn.at..], turn.stack, decode))
  {
    hide Turned;
    var turn := Turned(text[i..], stack, decode);
    assert turn.Next? ==> text[i..][turn.at..] == text[i+turn.at..];
  }

  /** The scan as it runs: an index over the text and a stack changed in place. */
  method CheckText(text: string, decode: Decoder) returns (ok: bool)
    ensures ok <==> Scan(text, [], decode)
  {
    hide PlainSafe, Scan, StringEnd, NumberEnd;
    var stack: seq<Frame> := [];
    var i := 0;
    assert text[0..] == text;
    while i < |text|
      invariant 0 <= i <= |text|
      invariant Scan(text, [], decode) == Scan(text[i..], stack, decode)
    {
      var c := text[i];
      ScanTurn(text, i, stack, decode);
      if c == '"' {
        var j := FindStringEnd(text, i);
        if j >= |text| {
          return false;
        }
        if Expects(stack) {
          var keys, key := stack[|stack|-1].keys, decode(text[i+1..j]);
          assert text[i..][1..j-i] == text[i+1..j];
          if key in keys {
            return false;
          }
          stack := WithKeys(stack, keys + {key}, false);
        }
        i := j + 1;
      } else if c == '{' {
        stack := stack + [InObject({}, true)];
        i := i + 1;
      } else if c == '[' {
        stack := stack + [InList];
        i := i + 1;
      } else if c == '}' || c == ']' {
        stack := Popped(stack);
        i := i + 1;
      } else if c == ',' {
        stack := AfterComma(stack);
        i := i + 1;
      } else if c == '-' || IsDigit(c) {
        var j := FindNumberEnd(text, i);
        assert text[i..][..j-i] == text[i..j];
        if !PlainSafe(text[i..j]) {
          return false;
        }
        i := j;
      } else {
        i := i + 1;
      }
    }
    assert text[i..] == [];
    ScanEmpty(stack, decode);
    return true;
  }

  lemma ScanEmpty(stack: seq<Frame>, decode: Decoder)
    ensures Scan([], stack, decode)
  {
  }
}

/** Every canonical text passes the scan. */
module CanonicalScan {
  import opened Options
  import opened Texts
  import opened Journal
  import opened Canonical
  import opened JsonScan
  import Versions

  function TreeOf(v: Value): Tree {
    Tree([], CoreOf(v), [])
  }

  function CoreOf(v: Value): Core
    decreases v, 0
  {
    match v
    case Null => Literal("null")
    case Bool(b) => Literal(if b then "true" else "false")
    case Num(n) => Number(Signed(n))
    case Str(s) => Text(Escape(s))
    case Arr(items) => List(TreesOf(items), [])
    case Obj(ms) => Object(FieldsOf(ms), [])
    case Unprintable => Literal("")
  }

  function TreesOf(items: seq<Value>): (r: seq<Tree>)
    ensures |r| == |items|
    decreases items, 1
  {
    if items == [] then [] else [Tree([], CoreOf(items[0]), [])] + TreesOf(items[1..])
  }

  function FieldsOf(ms: seq<Member>): (r: seq<Field>)
    ensures |r| == |ms|
    decreases ms, 1
  {
    if ms == [] then [] else [Field([], Escape(ms[0].key), [], Tree([], CoreOf(ms[0].value), []))] + FieldsOf(ms[1..])
  }

  lemma {:induction false} TreesOfAt(items: seq<Value>, i: nat)
    requires i < |items|
    ensures TreesOf(items)[i] == TreeOf(items[i])
  {
    if i > 0 {
      TreesOfAt(items[1..], i - 1);
    }
  }

  lemma {:induction false} FieldsOfAt(ms: seq<Member>, i: nat)
    requires i < |ms|
    ensures FieldsOf(ms)[i] == Field([], Escape(ms[i].key), [], TreeOf(ms[i].value))
  {
    if i > 0 {
      FieldsOfAt(ms[1..], i - 1);
    }
  }

  // --- The tree prints what the printer prints.

  lemma {:induction false} RendersAsPrinted(v: Value)
    ensures Render(TreeOf(v)) == Print(v)
    decreases v, 1
  {
    hide RenderItems, RenderFields, PrintItems, PrintMembers, Escape, Signed, TreesOf, FieldsOf;
    var core := RenderCore(CoreOf(v));
    assert [] + core + [] == core;
    match v
    case Arr(items) =>
      ItemsRender(items);
      assert "[" + [] + PrintItems(items) + "]" == "[" + PrintItems(items) + "]";
    case Obj(ms) =>
      FieldsRender(ms);
      assert "{" + [] + PrintMembers(ms) + "}" == "{" + PrintMembers(ms) + "}";
    case _ =>
  }

  lemma {:induction false} ItemsRender(items: seq<Value>)
    ensures RenderItems(TreesOf(items)) == PrintItems(items)
    decreases items, 0
  {
    hide Render, Print, CoreOf;
    if items != [] {
      RendersAsPrinted(items[0]);
      ItemsRender(items[1..]);
      assert TreesOf(items)[1..] == TreesOf(items[1..]);
    }
  }

  lemma FieldRenders(m: Member)
    requires Render(TreeOf(m.value)) == Print(m.value)
    ensures RenderField(Field([], Escape(m.key), [], TreeOf(m.value))) == PrintMember(m)
  {
    hide Render, Print, Escape;
    var k, p := Escape(m.key), Print(m.value);
    assert [] + "\"" + k + "\"" + [] + ":" + p == "\"" + k + "\"" + ":" + p;
  }

  lemma {:induction false} FieldsRender(ms: seq<Member>)
    ensures RenderFields(FieldsOf(ms)) == PrintMembers(ms)
    decreases ms, 0
  {
    hide Render, Print, CoreOf, RenderField, PrintMember;
    if ms != [] {
      RendersAsPrinted(ms[0].value);
      FieldRenders(ms[0]);
      FieldsRender(ms[1..]);
      assert FieldsOf(ms)[1..] == FieldsOf(ms[1..]);
    }
  }

  // --- Its tokens are well-formed.

  lemma RawEscape(c: char, rest: string)
    ensures Raw(EscapeChar(c) + rest) == Raw(rest)
  {
    var t, n := EscapeChar(c) + rest, |EscapeChar(c)|;
    assert t[n..] == rest;
    if n == 2 {
      assert t[2..] == rest;
    } else if n == 6 {
      assert t[2..][1..] == t[3..] && t[3..][1..] == t[4..] && t[4..][1..] == t[5..] && t[5..][1..] == t[6..];
      assert Raw(t) == Raw(t[2..]);
      assert Raw(t[2..]) == Raw(t[3..]);
      assert Raw(t[3..]) == Raw(t[4..]);
      assert t[4] != '"' && t[4] != '\\' && t[5] != '"' && t[5] != '\\';
      assert Raw(t[4..]) == Raw(t[5..]);
      assert Raw(t[5..]) == Raw(t[6..]);
    }
  }

  lemma {:induction false} EscapeIsRaw(s: string)
    ensures Raw(Escape(s))
  {
    hide Raw, EscapeChar;
    if s == [] {
      EmptyIsRaw();
    } else {
      EscapeIsRaw(s[1..]);
      RawEscape(s[0], Escape(s[1..]));
    }
  }

  lemma EmptyIsRaw()
    ensures Raw([])
  {
  }

  lemma {:induction false} NoLeadingZero(n: nat)
    requires n > 0
    ensures Decimal(n)[0] != '0'
  {
    if n >= 10 {
      NoLeadingZero(n / 10);
    }
  }

  lemma SignedIsPlainSafe(n: int)
    requires -MAX_SAFE <= n <= MAX_SAFE
    ensures Token(Signed(n)) && PlainSafe(Signed(n))
  {
    var m: nat := if n < 0 then -n else n;
    DecimalReadsBack(m);
    if m > 0 {
      NoLeadingZero(m);
    }
    hide Texts.Value;
    assert n < 0 ==> Signed(n)[1..] == Decimal(m) && Signed(n)[1] == Decimal(m)[0];
  }

  lemma PlainSafeIsSigned(t: string)
    requires PlainSafe(t)
    ensures exists n :: -MAX_SAFE <= n <= MAX_SAFE && t == Signed(n)
  {
    var minus := t[0] == '-';
    var digits := if minus then t[1..] else t;
    var m: int := Texts.Value(digits);
    DecimalReadsBack(m);
    if m > 0 {
      NoLeadingZero(m);
    }
    Versions.OneSpelling(digits, Decimal(m));
    if minus {
      assert t == "-" + digits;
      assert m == 0 ==> digits == "0";
      assert t == Signed(-m);
    } else {
      assert t == Signed(m);
    }
  }

  /** A number passes exactly when it is the plain spelling of a safe integer. */
  lemma PlainSafeExactly(t: string)
    ensures PlainSafe(t) <==> exists n :: -9007199254740991 <= n <= 9007199254740991 && t == Signed(n)
  {
    if PlainSafe(t) {
      PlainSafeIsSigned(t);
    }
    hide Texts.Value;
    if n :| -9007199254740991 <= n <= 9007199254740991 && t == Signed(n) {
      SignedIsPlainSafe(n);
    }
  }

  predicate NoEscapes(k: string) {
    forall i :: 0 <= i < |k| ==> k[i] != '\\' && k[i] != '"' && k[i] as int >= 32
  }

  lemma {:induction false} KeyIsItself(k: string)
    requires NoEscapes(k)
    ensures Escape(k) == k
  {
    if k != [] {
      KeyIsItself(k[1..]);
    }
  }

  /** The one thing asked of the parser: a string without escapes stands for itself. */
  ghost predicate Plain(decode: Decoder) {
    forall k :: NoEscapes(k) ==> decode(k) == k
  }

  // --- And it is clean.

  lemma {:induction false} InsertIsThere(m: Member, ms: seq<Member>, i: nat)
    requires i < |Insert(m, ms)|
    ensures Insert(m, ms)[i] == m || Insert(m, ms)[i] in ms
  {
    hide TextLess;
    if ms != [] && TextLess(ms[0].key, m.key) && i > 0 {
      InsertIsThere(m, ms[1..], i - 1);
    }
  }

  lemma {:induction false} NormalIsThere(ms: seq<Member>, i: nat) returns (k: nat)
    requires i < |NormalMembers(ms)|
    ensures k < |ms| && NormalMembers(ms)[i] == Member(ms[k].key, Normal(ms[k].value))
  {
    hide Normal, Insert;
    var m, rest := Member(ms[0].key, Normal(ms[0].value)), NormalMembers(ms[1..]);
    InsertIsThere(m, rest, i);
    if NormalMembers(ms)[i] == m {
      k := 0;
    } else {
      var j :| 0 <= j < |rest| && rest[j] == NormalMembers(ms)[i];
      k := NormalIsThere(ms[1..], j);
      k := k + 1;
    }
  }

  lemma {:induction false} NormalItemsLength(items: seq<Value>)
    ensures |NormalItems(items)| == |items|
  {
    if items != [] {
      NormalItemsLength(items[1..]);
    }
  }

  lemma {:induction false} NormalItemsAt(items: seq<Value>, i: nat)
    requires i < |items|
    ensures i < |NormalItems(items)| && NormalItems(items)[i] == Normal(items[i])
  {
    NormalItemsLength(items);
    if i > 0 {
      NormalItemsAt(items[1..], i - 1);
    }
  }

  lemma {:induction false} NormalIsClean(v: Value, depth: nat, decode: Decoder)
    requires Printable(v, depth) && Distinct(v) && Plain(decode)
    ensures WellFormed(TreeOf(Normal(v))) && Clean(TreeOf(Normal(v)), decode)
  {
    hide Raw, Token, PlainSafe, Escape, Signed, TreesOf, FieldsOf, NormalItems, NormalMembers;
    match v
    case Num(n) => SignedIsPlainSafe(n);
    case Str(s) => EscapeIsRaw(s);
    case Arr(items) =>
      var trees := TreesOf(NormalItems(items));
      NormalItemsLength(items);
      forall i | 0 <= i < |trees| ensures WellFormed(trees[i]) && Clean(trees[i], decode) {
        NormalItemsAt(items, i);
        TreesOfAt(NormalItems(items), i);
        NormalIsClean(items[i], depth + 1, decode);
      }
    case Obj(ms) =>
      var fields := FieldsOf(NormalMembers(ms));
      forall i | 0 <= i < |fields| ensures FieldOk(fields[i]) && Clean(fields[i].value, decode)
        ensures fields[i].raw == decode(fields[i].raw) == NormalMembers(ms)[i].key
      {
        FieldsOfAt(NormalMembers(ms), i);
        var k := NormalIsThere(ms, i);
        NormalIsClean(ms[k].value, depth + 1, decode);
        assert NoEscapes(ms[k].key);
        KeyIsItself(ms[k].key);
        EscapeIsRaw(ms[k].key);
      }
      NormalLooksUp(ms, "");
      forall i, k | 0 <= i < k < |fields| ensures decode(fields[i].raw) != decode(fields[k].raw) {
        TextLessAsymmetric(NormalMembers(ms)[i].key, NormalMembers(ms)[k].key);
      }
    case _ =>
  }

  /** What one side prints, the other side's scan accepts. */
  lemma CanonicalTextPasses(v: Value, decode: Decoder)
    requires Distinct(v) && Canonicalize(v).Some? && Plain(decode)
    ensures Scan(Canonicalize(v).value, [], decode)
  {
    hide Scan, Render, WellFormed, Clean, Print, Normal, Distinct, TreeOf, Plain, Printable;
    NormalIsClean(v, 0, decode);
    RendersAsPrinted(Normal(v));
    ScanAcceptsExactlyClean(TreeOf(Normal(v)), decode);
  }
}
