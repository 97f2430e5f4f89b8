/** The raw snappy block decoder: an in-place decoder over one output buffer, and what it means
    in terms of the elements of the format. */
module Snappy {
  import opened Options
  import opened Bytes

  // --- Elements and their encodings (sections 1 and 2 of Snappy's format description).

  /** A literal names how many length bytes follow its tag (none below 61 bytes); a copy names how
      many offset bytes do. */
  datatype Element =
    | Literal(lengthBytes: nat, data: seq<Byte>)
    | Copy(offsetBytes: nat, length: nat, offset: nat)

  predicate WellFormed(e: Element) {
    match e
    case Literal(w, data) =>
      |data| >= 1 && w <= 4 && if w == 0 then |data| <= 60 else |data| - 1 < Power(256, w)
    case Copy(w, length, offset) =>
      || (w == 1 && 4 <= length <= 11 && offset < 2048)
      || (w == 2 && 1 <= length <= 64 && offset < Power(256, 2))
      || (w == 4 && 1 <= length <= 64 && offset < Power(256, 4))
  }

  function Encode(e: Element): seq<Byte>
    requires WellFormed(e)
  {
    match e
    case Literal(w, data) =>
      if w == 0 then [4 * (|data| - 1)] + data else [4 * (59 + w)] + LittleEndian(|data| - 1, w) + data
    case Copy(w, length, offset) =>
      if w == 1 then [1 + 4 * (length - 4) + 32 * (offset / 256), offset % 256]
      else if w == 2 then [2 + 4 * (length - 1)] + LittleEndian(offset, 2)
      else [3 + 4 * (length - 1)] + LittleEndian(offset, 4)
  }

  predicate AllWellFormed(es: seq<Element>) {
    forall i :: 0 <= i < |es| ==> WellFormed(es[i])
  }

  function EncodeAll(es: seq<Element>): seq<Byte>
    requires AllWellFormed(es)
  {
    if es == [] then [] else Encode(es[0]) + EncodeAll(es[1..])
  }

  // --- Their meaning.

  /** `n` more bytes, each repeating the one `offset` places before it. */
  function Repeat(out: seq<Byte>, offset: nat, n: nat): (r: seq<Byte>)
    requires 1 <= offset <= |out|
    ensures |r| == |out| + n && out <= r
  {
    if n == 0 then out else
    var longer := Repeat(out, offset, n - 1);
    longer + [longer[|longer| - offset]]
  }

  /** From index `from` on, every byte equals the one `offset` places before it. */
  predicate Periodic(r: seq<Byte>, from: nat, offset: nat)
    requires 1 <= offset <= from
  {
    forall i :: from <= i < |r| ==> r[i] == r[i - offset]
  }

  /** An overlapping copy is a periodic run, and the only one of its length. */
  lemma {:induction false} RepeatIsThePeriodicRun(out: seq<Byte>, offset: nat, n: nat, r: seq<Byte>)
    requires 1 <= offset <= |out| && |r| == |out| + n && out <= r
    ensures Periodic(r, |out|, offset) <==> r == Repeat(out, offset, n)
  {
    if n > 0 {
      var shorter := r[..|r|-1];
      RepeatIsThePeriodicRun(out, offset, n - 1, shorter);
      assert r == shorter + [r[|r|-1]];
      if Periodic(r, |out|, offset) {
        assert Periodic(shorter, |out|, offset);
        assert r[|r|-1] == r[|r|-1 - offset];
      }
      assert r == Repeat(out, offset, n) ==> shorter == Repeat(out, offset, n - 1);
    }
  }

  function Extend(out: seq<Byte>, e: Element): Option<seq<Byte>> {
    match e
    case Literal(_, data) => Some(out + data)
    case Copy(_, length, offset) => if 1 <= offset <= |out| then Some(Repeat(out, offset, length)) else None
  }

  /** What a list of elements stands for. */
  function Expand(out: seq<Byte>, es: seq<Element>): Option<seq<Byte>>
    decreases |es|
  {
    if es == [] then Some(out) else
    var longer := Extend(out, es[0]);
    if longer.None? then None else Expand(longer.value, es[1..])
  }

  // --- Reading one element.

  function Next(b: seq<Byte>): Option<(Element, nat)>
    requires b != []
  {
    var tag := b[0];
    if tag % 4 == 0 then
      var w := if tag / 4 >= 60 then tag / 4 - 59 else 0;
      if 1 + w > |b| then None else
      var run := 1 + if w == 0 then tag / 4 else Value(b[1..1+w]);
      if 1 + w + run > |b| then None else Some((Literal(w, b[1+w..1+w+run]), 1 + w + run))
    else
      var w := if tag % 4 == 1 then 1 else if tag % 4 == 2 then 2 else 4;
      if 1 + w > |b| then None else
      var length := if w == 1 then 4 + (tag / 4) % 8 else tag / 4 + 1;
      var offset := if w == 1 then (tag / 32) * 256 + b[1] else Value(b[1..1+w]);
      Some((Copy(w, length, offset), 1 + w))
  }

  lemma NextOfLiteral(w: nat, data: seq<Byte>, rest: seq<Byte>)
    requires WellFormed(Literal(w, data))
    ensures var e := Literal(w, data); Next(Encode(e) + rest) == Some((e, |Encode(e)|))
  {
    hide LittleEndian, Number;
    var e := Literal(w, data);
    var b := Encode(e) + rest;
    if w > 0 {
      var size := LittleEndian(|data| - 1, w);
      ValueOfLittleEndian(|data| - 1, w);
      assert b == [4 * (59 + w)] + size + data + rest;
      assert b[1..1+w] == size;
      assert Value(b[1..1+w]) == |data| - 1;
    } else {
      assert b == [4 * (|data| - 1)] + data + rest;
    }
    assert b[1+w..1+w+|data|] == data;
  }

  lemma NextOfCopy(w: nat, length: nat, offset: nat, rest: seq<Byte>)
    requires WellFormed(Copy(w, length, offset))
    ensures var e := Copy(w, length, offset); Next(Encode(e) + rest) == Some((e, |Encode(e)|))
  {
    var b := Encode(Copy(w, length, offset)) + rest;
    if w == 1 {
      ShortCopyTag(length - 4, offset / 256);
    } else {
      WideCopyTag(w, length);
      ValueOfLittleEndian(offset, w);
      assert b[1..1+w] == LittleEndian(offset, w);
    }
  }

  lemma ShortCopyTag(l: nat, h: nat)
    requires l < 8 && h < 8
    ensures var tag := 1 + 4 * l + 32 * h; tag < 256 && tag % 4 == 1 && (tag / 4) % 8 == l && tag / 32 == h
  {
  }

  lemma WideCopyTag(w: nat, length: nat)
    requires 1 <= length <= 64
    ensures (2 + 4 * (length - 1)) % 4 == 2 && (2 + 4 * (length - 1)) / 4 == length - 1
    ensures (3 + 4 * (length - 1)) % 4 == 3 && (3 + 4 * (length - 1)) / 4 == length - 1
  {
  }

  /** Reading an encoded element gives it back, whatever follows it. */
  lemma NextOfEncode(e: Element, rest: seq<Byte>)
    requires WellFormed(e)
    ensures |Encode(e)| >= 1 && Next(Encode(e) + rest) == Some((e, |Encode(e)|))
  {
    match e
    case Literal(w, data) => NextOfLiteral(w, data, rest);
    case Copy(w, length, offset) => NextOfCopy(w, length, offset, rest);
  }

  lemma EncodeOfNextLiteral(b: seq<Byte>)
    requires b != [] && b[0] % 4 == 0 && Next(b).Some?
    ensures var (e, n) := Next(b).value;
      WellFormed(e) && 1 <= n <= |b| && Encode(e) == b[..n]
  {
    var (e, n) := Next(b).value;
    var w, data := e.lengthBytes, e.data;
    if w > 0 {
      LittleEndianOfValue(b[1..1+w]);
      assert b[..n] == [b[0]] + b[1..1+w] + data;
    } else {
      assert b[..n] == [b[0]] + data;
    }
  }

  lemma EncodeOfNextShort(b: seq<Byte>)
    requires b != [] && b[0] % 4 == 1 && Next(b).Some?
    ensures var (e, n) := Next(b).value;
      WellFormed(e) && 1 <= n <= |b| && Encode(e) == b[..n]
  {
    ShortTag(b[0], b[1]);
    assert b[..2] == [b[0], b[1]];
  }

  /** Three bits of length and three of offset in one tag. */
  lemma ShortTag(tag: Byte, low: Byte)
    requires tag % 4 == 1
    ensures var length, offset := 4 + (tag / 4) % 8, (tag / 32) * 256 + low;
      && 4 <= length <= 11 && offset < 2048 && offset / 256 == tag / 32 && offset % 256 == low
      && 1 + 4 * (length - 4) + 32 * (offset / 256) == tag
  {
  }

  lemma EncodeOfNextLong(b: seq<Byte>)
    requires b != [] && b[0] % 4 >= 2 && Next(b).Some?
    ensures var (e, n) := Next(b).value;
      WellFormed(e) && 1 <= n <= |b| && Encode(e) == b[..n]
  {
    hide LittleEndian;
    var (e, n) := Next(b).value;
    LittleEndianOfValue(b[1..n]);
    assert b[..n] == [b[0]] + b[1..n];
  }

  /** And an element is read only from its own encoding. */
  lemma EncodeOfNext(b: seq<Byte>)
    requires b != [] && Next(b).Some?
    ensures var (e, n) := Next(b).value;
      WellFormed(e) && 1 <= n <= |b| && Encode(e) == b[..n]
  {
    if b[0] % 4 == 0 {
      EncodeOfNextLiteral(b);
    } else if b[0] % 4 == 1 {
      EncodeOfNextShort(b);
    } else {
      EncodeOfNextLong(b);
    }
  }

  // --- The whole block.

  /** The elements of `b`, read one after the other into a buffer of `length` bytes. */
  function Run(b: seq<Byte>, out: seq<Byte>, length: nat): Option<seq<Byte>>
    decreases |b|
  {
    if b == [] then (if |out| == length then Some(out) else None)
    else
      var next := Next(b);
      if next.None? then None
      else if !(1 <= next.value.1 <= |b|) then None
      else
        var longer := Extend(out, next.value.0);
        if longer.None? || |longer.value| > length then None
        else Run(b[next.value.1..], longer.value, length)
  }

  lemma ExtendGrows(out: seq<Byte>, e: Element)
    ensures Extend(out, e).Some? ==> |out| <= |Extend(out, e).value|
  {
  }

  lemma {:induction false} ExpandGrows(out: seq<Byte>, es: seq<Element>)
    ensures Expand(out, es).Some? ==> |out| <= |Expand(out, es).value|
    decreases |es|
  {
    if es != [] && Extend(out, es[0]).Some? {
      ExtendGrows(out, es[0]);
      ExpandGrows(Extend(out, es[0]).value, es[1..]);
    }
  }

  /** Every well-formed list of elements that fits is decoded to its expansion. */
  lemma {:induction false} RunOfEncodeAll(es: seq<Element>, out: seq<Byte>, length: nat)
    requires AllWellFormed(es)
    requires Expand(out, es).Some? && |Expand(out, es).value| == length
    ensures Run(EncodeAll(es), out, length) == Expand(out, es)
    decreases |es|
  {
    if es != [] {
      hide Next, Encode, Extend, WellFormed;
      var rest := EncodeAll(es[1..]);
      NextOfEncode(es[0], rest);
      var b, n := Encode(es[0]) + rest, |Encode(es[0])|;
      var longer := Extend(out, es[0]).value;
      ExpandGrows(longer, es[1..]);
      RunOfEncodeAll(es[1..], longer, length);
      assert b[n..] == rest;
      assert EncodeAll(es) == b;
    }
  }

  lemma OneElementMore(e: Element, more: seq<Element>, out: seq<Byte>, longer: seq<Byte>)
    requires WellFormed(e) && AllWellFormed(more) && Extend(out, e) == Some(longer)
    ensures AllWellFormed([e] + more) && EncodeAll([e] + more) == Encode(e) + EncodeAll(more)
    ensures Expand(out, [e] + more) == Expand(longer, more)
  {
    hide Encode, Extend, WellFormed;
    assert ([e] + more)[1..] == more;
  }

  lemma RunStep(b: seq<Byte>, out: seq<Byte>, length: nat) returns (e: Element, n: nat, longer: seq<Byte>)
    requires b != [] && Run(b, out, length).Some?
    ensures WellFormed(e) && 1 <= n <= |b| && Encode(e) == b[..n] && Extend(out, e) == Some(longer)
    ensures Run(b[n..], longer, length) == Run(b, out, length)
  {
    hide Next, Extend, Encode, WellFormed;
    EncodeOfNext(b);
    e, n := Next(b).value.0, Next(b).value.1;
    longer := Extend(out, e).value;
  }

  /** Whatever is decoded was such a list. */
  lemma {:induction false} EncodeAllOfRun(b: seq<Byte>, out: seq<Byte>, length: nat) returns (es: seq<Element>)
    requires Run(b, out, length).Some?
    ensures AllWellFormed(es) && EncodeAll(es) == b && Expand(out, es) == Run(b, out, length)
    decreases |b|
  {
    if b == [] {
      es := [];
    } else {
      hide Next, Encode, Extend, WellFormed, Run, EncodeAll, Expand, AllWellFormed;
      var e, n, longer := RunStep(b, out, length);
      var more := EncodeAllOfRun(b[n..], longer, length);
      es := [e] + more;
      OneElementMore(e, more, out, longer);
      assert b == b[..n] + b[n..];
    }
  }

  // --- The declared length: up to five bytes of seven bits, the last without its top bit.

  predicate IsHeader(h: seq<Byte>) {
    && 1 <= |h| <= 5
    && (forall i :: 0 <= i < |h| - 1 ==> h[i] >= 128)
    && h[|h|-1] < 128
  }

  function LowBits(h: seq<Byte>): seq<nat> {
    seq(|h|, i requires 0 <= i < |h| => h[i] % 128)
  }

  function Declared(h: seq<Byte>): nat {
    Number(128, LowBits(h))
  }

  const MAX_U32: nat := 0xffff_ffff

  /** What decoding an input means: a header, then a well-formed list of elements that expands to
      exactly as many bytes as the header declares. */
  ghost predicate Means(input: seq<Byte>, maxLength: nat, output: seq<Byte>) {
    exists h, es ::
      && IsHeader(h) && AllWellFormed(es) && input == h + EncodeAll(es)
      && Declared(h) == |output| && Declared(h) <= MAX_U32 && Declared(h) <= maxLength
      && Expand([], es) == Some(output)
  }

  // --- The decoder.

  method ReadLength(input: seq<Byte>) returns (r: Option<(nat, nat)>)
    ensures r.Some? ==>
      var (length, pos) := r.value;
      pos <= |input| && IsHeader(input[..pos]) && length == Declared(input[..pos]) && length <= MAX_U32
    ensures r.None? ==> forall h :: IsHeader(h) && h <= input ==> Declared(h) > MAX_U32
  {
    var value, i := 0, 0;
    while i < 5 && i < |input|
      invariant 0 <= i <= 5 && i <= |input|
      invariant forall k :: 0 <= k < i ==> input[k] >= 128
      invariant value == Declared(input[..i])
    {
      NumberSnoc(128, LowBits(input[..i]), input[i] % 128);
      assert LowBits(input[..i+1]) == LowBits(input[..i]) + [input[i] % 128];
      value := value + (input[i] % 128) * Power(128, i);
      if input[i] < 128 {
        forall h | IsHeader(h) && h <= input ensures h == input[..i+1] {
          HeaderIsUnique(h, input[..i+1], input);
        }
        return if value > MAX_U32 then None else Some((value, i + 1));
      }
      i := i + 1;
    }
    NoHeader(input);
    return None;
  }

  lemma NoHeader(input: seq<Byte>)
    requires forall k :: 0 <= k < 5 && k < |input| ==> input[k] >= 128
    ensures forall h :: IsHeader(h) ==> !(h <= input)
  {
    forall h: seq<Byte> | IsHeader(h) && |h| <= |input| ensures !(h <= input) {
      var last := |h| - 1;
      assert h[last] != input[last];
    }
  }

  predicate HeaderEnds(input: seq<Byte>, p: nat) {
    1 <= p <= |input| && input[p-1] < 128 && forall i :: 0 <= i < p - 1 ==> input[i] >= 128
  }

  lemma EndsThere(h: seq<Byte>, input: seq<Byte>)
    requires IsHeader(h) && h <= input
    ensures HeaderEnds(input, |h|)
  {
    assert forall i :: 0 <= i < |h| ==> input[i] == h[i];
  }

  lemma EndsOnce(input: seq<Byte>, p: nat, q: nat)
    requires HeaderEnds(input, p) && HeaderEnds(input, q)
    ensures p == q
  {
  }

  lemma HeaderIsUnique(h: seq<Byte>, k: seq<Byte>, input: seq<Byte>)
    requires IsHeader(h) && IsHeader(k) && h <= input && k <= input
    ensures h == k
  {
    EndsThere(h, input);
    EndsThere(k, input);
    EndsOnce(input, |h|, |k|);
  }

  method ReadLittleEndian(input: seq<Byte>, pos: nat, count: nat) returns (r: Option<nat>)
    ensures pos + count > |input| ==> r.None?
    ensures pos + count <= |input| ==> r == Some(Value(input[pos..pos+count]))
  {
    if pos + count > |input| {
      return None;
    }
    var value := 0;
    for i := 0 to count
      invariant value == Value(input[pos..pos+i])
    {
      NumberSnoc(256, input[pos..pos+i], input[pos+i]);
      assert input[pos..pos+i] + [input[pos+i]] == input[pos..pos+i+1];
      value := value + input[pos+i] * Power(256, i);
    }
    return Some(value);
  }

  /** One turn at `pos` with `out` bytes written either refuses, or writes the extended output in
      place and moves past the element. */
  twostate predicate Turn(input: seq<Byte>, pos: nat, output: array<Byte>, out: nat, ok: bool, p: nat, o: nat)
    requires pos < |input| && out <= output.Length
    reads output
  {
    var next := Next(input[pos..]);
    if ok then
      && next.Some? && 1 <= next.value.1 && p == pos + next.value.1 <= |input| && o <= output.Length
      && Extend(old(output[..out]), next.value.0) == Some(output[..o])
    else
      || next.None?
      || Extend(old(output[..out]), next.value.0).None?
      || |Extend(old(output[..out]), next.value.0).value| > output.Length
  }

  /** Appends `data` at `out`, byte by byte. */
  method Append(data: seq<Byte>, output: array<Byte>, out: nat)
    requires out + |data| <= output.Length
    modifies output
    ensures output[..out+|data|] == old(output[..out]) + data
  {
    for i := 0 to |data|
      invariant output[..out+i] == old(output[..out]) + data[..i]
    {
      output[out+i] := data[i];
      assert output[..out+i+1] == output[..out+i] + [data[i]];
    }
    assert data[..|data|] == data;
  }

  lemma LiteralNext(b: seq<Byte>, w: nat, run: nat)
    requires b != [] && b[0] % 4 == 0 && w == (if b[0] / 4 >= 60 then b[0] / 4 - 59 else 0) && 1 + w <= |b|
    requires run == 1 + if w == 0 then b[0] / 4 else Value(b[1..1+w])
    ensures Next(b) == if 1 + w + run > |b| then None else Some((Literal(w, b[1+w..1+w+run]), 1 + w + run))
  {
  }

  lemma LiteralCutShort(b: seq<Byte>)
    requires b != [] && b[0] % 4 == 0 && b[0] / 4 >= 60 && 1 + b[0] / 4 - 59 > |b|
    ensures Next(b).None?
  {
  }

  method TakeLiteral(input: seq<Byte>, pos: nat, output: array<Byte>, out: nat) returns (ok: bool, p: nat, o: nat)
    requires pos < |input| && out <= output.Length && input[pos] % 4 == 0
    modifies output
    ensures Turn(input, pos, output, out, ok, p, o)
  {
    hide Next, Value;
    ghost var b := input[pos..];
    p, o := pos + 1, out;
    var run := input[pos] / 4;
    if run >= 60 {
      var extra := run - 59;
      var value := ReadLittleEndian(input, p, extra);
      if value.None? {
        LiteralCutShort(b);
        return false, p, o;
      }
      assert b[1..1+extra] == input[p..p+extra];
      run := value.value;
      p := p + extra;
    }
    run := run + 1;
    LiteralNext(b, p - pos - 1, run);
    if p + run > |input| || out + run > output.Length {
      return false, p, o;
    }
    assert b[p-pos..p-pos+run] == input[p..p+run];
    Append(input[p..p+run], output, out);
    return true, p + run, out + run;
  }

  lemma CopyNext(b: seq<Byte>, w: nat)
    requires b != [] && b[0] % 4 != 0 && w == if b[0] % 4 == 1 then 1 else if b[0] % 4 == 2 then 2 else 4
    ensures 1 + w > |b| ==> Next(b).None?
    ensures 1 + w <= |b| ==>
      var length := if w == 1 then 4 + (b[0] / 4) % 8 else b[0] / 4 + 1;
      var offset := if w == 1 then (b[0] / 32) * 256 + Value(b[1..2]) else Value(b[1..1+w]);
      Next(b) == Some((Copy(w, length, offset), 1 + w))
  {
    if |b| >= 2 {
      assert b[1..2] == [b[1]];
      assert [b[1]][1..] == [];
      assert Number(256, [b[1]]) == b[1];
    }
  }

  /** Byte by byte, since a copy may overlap the bytes it is producing. */
  method RepeatInPlace(output: array<Byte>, out: nat, offset: nat, run: nat)
    requires 1 <= offset <= out && out + run <= output.Length
    modifies output
    ensures output[..out+run] == Repeat(old(output[..out]), offset, run)
  {
    for i := 0 to run
      invariant output[..out+i] == Repeat(old(output[..out]), offset, i)
    {
      output[out+i] := output[out-offset+i];
      assert output[..out+i+1] == output[..out+i] + [output[..out+i][out+i-offset]];
    }
  }

  method TakeCopy(input: seq<Byte>, pos: nat, output: array<Byte>, out: nat) returns (ok: bool, p: nat, o: nat)
    requires pos < |input| && out <= output.Length && input[pos] % 4 != 0
    modifies output
    ensures Turn(input, pos, output, out, ok, p, o)
  {
    hide Next, Value, LittleEndian;
    ghost var b := input[pos..];
    var tag: int := input[pos];
    p, o := pos + 1, out;
    var width := if tag % 4 == 1 then 1 else if tag % 4 == 2 then 2 else 4;
    CopyNext(b, width);
    var low := ReadLittleEndian(input, p, width);
    if low.None? {
      return false, p, o;
    }
    assert b[1..1+width] == input[p..p+width];
    var run := if width == 1 then 4 + (tag / 4) % 8 else tag / 4 + 1;
    var offset := if width == 1 then (tag / 32) * 256 + low.value else low.value;
    p := p + width;
    if offset == 0 || offset > out || out + run > output.Length {
      return false, p, o;
    }
    RepeatInPlace(output, out, offset, run);
    return true, p, out + run;
  }

  lemma TurnKeepsRun(input: seq<Byte>, pos: nat, before: seq<Byte>, after: seq<Byte>, p: nat, length: nat)
    requires pos < |input| && Next(input[pos..]).Some? && p == pos + Next(input[pos..]).value.1 <= |input|
    requires 1 <= Next(input[pos..]).value.1
    requires Extend(before, Next(input[pos..]).value.0) == Some(after) && |after| <= length
    ensures Run(input[pos..], before, length) == Run(input[p..], after, length)
  {
    hide Next, Extend;
    assert input[pos..][p-pos..] == input[p..];
  }

  /** Decodes a whole block into one fresh buffer, or refuses it. It accepts exactly the inputs that
      mean something, and then the buffer holds exactly what they mean. */
  method SnappyDecode(input: seq<Byte>, maxLength: nat) returns (ok: bool, output: array<Byte>)
    ensures fresh(output)
    ensures ok ==> Means(input, maxLength, output[..])
    ensures !ok ==> forall o :: !Means(input, maxLength, o)
  {
    hide Next, Extend, IsHeader, Declared, EncodeAll, Means;
    output := new Byte[0];
    var header := ReadLength(input);
    if header.None? || header.value.0 > maxLength {
      RefusesHeader(input, maxLength, header);
      return false, output;
    }
    var (length, start) := header.value;
    output := new Byte[length];
    var out, pos := 0, start;
    assert output[..0] == [];
    while pos < |input|
      invariant start <= pos <= |input| && out <= length
      invariant Run(input[start..], [], length) == Run(input[pos..], output[..out], length)
      decreases |input| - pos
    {
      ghost var before, was := output[..out], pos;
      if input[pos] % 4 == 0 {
        ok, pos, out := TakeLiteral(input, pos, output, out);
      } else {
        ok, pos, out := TakeCopy(input, pos, output, out);
      }
      if !ok {
        assert Run(input[was..], before, length).None?;
        RunDecides(input, maxLength, start, length);
        return false, output;
      }
      TurnKeepsRun(input, was, before, output[..out], pos, length);
    }
    ok := out == length;
    assert input[pos..] == [];
    assert output[..length] == output[..];
    RunDecides(input, maxLength, start, length);
  }

  lemma RefusesHeader(input: seq<Byte>, maxLength: nat, header: Option<(nat, nat)>)
    requires header.None? ==> forall h :: IsHeader(h) && h <= input ==> Declared(h) > MAX_U32
    requires header.Some? ==>
      && header.value.1 <= |input| && IsHeader(input[..header.value.1])
      && header.value.0 == Declared(input[..header.value.1]) > maxLength
    ensures forall o :: !Means(input, maxLength, o)
  {
    hide Expand, AllWellFormed, Declared, WellFormed;
    forall h, es: seq<Element> | IsHeader(h) && AllWellFormed(es) && input == h + EncodeAll(es)
      ensures Declared(h) > MAX_U32 || Declared(h) > maxLength
    {
      assert h <= input;
      if header.Some? {
        HeaderIsUnique(h, input[..header.value.1], input);
      }
    }
  }

  /** With the header read, running the elements decides what the input means. */
  lemma RunDecides(input: seq<Byte>, maxLength: nat, start: nat, length: nat)
    requires start <= |input| && IsHeader(input[..start]) && Declared(input[..start]) == length
    requires length <= MAX_U32 && length <= maxLength
    ensures Run(input[start..], [], length).Some? ==> Means(input, maxLength, Run(input[start..], [], length).value)
    ensures Run(input[start..], [], length).None? ==> forall o :: !Means(input, maxLength, o)
  {
    hide Next, Extend, Declared, WellFormed, Encode;
    var b := input[start..];
    if Run(b, [], length).Some? {
      var es := EncodeAllOfRun(b, [], length);
      assert input == input[..start] + EncodeAll(es);
      RunFillsExactly(b, [], length);
    } else {
      forall h, es: seq<Element>, o: seq<Byte> | IsHeader(h) && AllWellFormed(es) && input == h + EncodeAll(es)
        && Declared(h) == |o| && Expand([], es) == Some(o)
        ensures false
      {
        HeaderIsUnique(h, input[..start], input);
        assert b == EncodeAll(es);
        RunOfEncodeAll(es, [], length);
      }
    }
  }

  lemma {:induction false} RunFillsExactly(b: seq<Byte>, out: seq<Byte>, length: nat)
    ensures Run(b, out, length).Some? ==> |Run(b, out, length).value| == length
    decreases |b|
  {
    hide Next, Extend;
    if b != [] && Next(b).Some? && 1 <= Next(b).value.1 <= |b| && Extend(out, Next(b).value.0).Some? {
      RunFillsExactly(b[Next(b).value.1..], Extend(out, Next(b).value.0).value, length);
    }
  }

  /** An input means at most one thing. */
  lemma MeansOneThing(input: seq<Byte>, maxLength: nat, a: seq<Byte>, b: seq<Byte>)
    requires Means(input, maxLength, a) && Means(input, maxLength, b)
    ensures a == b
  {
    hide Next, Extend, WellFormed, Encode, Declared;
    var h, es :| && IsHeader(h) && AllWellFormed(es) && input == h + EncodeAll(es)
      && Declared(h) == |a| && Declared(h) <= MAX_U32 && Declared(h) <= maxLength && Expand([], es) == Some(a);
    var k, fs :| && IsHeader(k) && AllWellFormed(fs) && input == k + EncodeAll(fs)
      && Declared(k) == |b| && Declared(k) <= MAX_U32 && Declared(k) <= maxLength && Expand([], fs) == Some(b);
    HeaderIsUnique(h, k, input);
    assert EncodeAll(es) == input[|h|..] == EncodeAll(fs);
    RunOfEncodeAll(es, [], |a|);
    RunOfEncodeAll(fs, [], |b|);
  }
}
