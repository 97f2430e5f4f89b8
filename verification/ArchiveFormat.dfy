/** The archive as a format: a list of members, each an entry with the extended headers directly
    before it, and the scan's verdict as a fold over that list. */
module ArchiveFormat {
  import opened Options
  import opened Bytes
  import opened ArchiveLinks
  import opened ArchiveScan

  /** A header block; one zero block may stand before it. */
  datatype Header = Header(blank: bool, block: seq<Byte>)

  /** An extended header with its data and their padding. */
  datatype Extra = Extra(header: Header, data: seq<Byte>, pad: seq<Byte>)

  /** An entry with its content, padded, and the extended headers that apply to it. */
  datatype Member = Member(extras: seq<Extra>, header: Header, content: seq<Byte>)

  /** What stands before the two zero blocks; extended headers at the end apply to nothing. */
  datatype Archive = Archive(members: seq<Member>, trailing: seq<Extra>)

  function Zeros(n: nat): (z: seq<Byte>)
    ensures |z| == n && IsZero(z)
  {
    if n == 0 then [] else [0] + Zeros(n - 1)
  }

  // --- The bytes of an archive.

  function RenderHeader(h: Header): seq<Byte> {
    (if h.blank then Zeros(BLOCK) else []) + h.block
  }

  function RenderExtra(x: Extra): seq<Byte> {
    RenderHeader(x.header) + (x.data + x.pad)
  }

  function RenderExtras(xs: seq<Extra>): seq<Byte> {
    if xs == [] then [] else RenderExtra(xs[0]) + RenderExtras(xs[1..])
  }

  function RenderMember(m: Member): seq<Byte> {
    RenderExtras(m.extras) + (RenderHeader(m.header) + m.content)
  }

  function RenderMembers(ms: seq<Member>): seq<Byte> {
    if ms == [] then [] else RenderMember(ms[0]) + RenderMembers(ms[1..])
  }

  // --- Well-formed parts.

  predicate HeaderOk(h: Header, number: NumberReader) {
    |h.block| == BLOCK && !IsZero(h.block) && ChecksumOk(h.block, number)
  }

  predicate ExtraOk(x: Extra, number: NumberReader) {
    && HeaderOk(x.header, number) && IsExtension(HeaderKind(x.header.block))
    && |x.data| == number(x.header.block[124..136]) <= 1024 * 1024 && |x.pad| == PadOf(|x.data|)
  }

  predicate ExtrasOk(xs: seq<Extra>, number: NumberReader) {
    forall i :: 0 <= i < |xs| ==> ExtraOk(xs[i], number)
  }

  predicate IsEntry(h: Header, number: NumberReader) {
    HeaderOk(h, number) && HeaderKind(h.block) != 103 && !IsExtension(HeaderKind(h.block))
  }

  /** What the extended headers of one member announce together, on top of `p`. */
  function Announced(xs: seq<Extra>, p: Pending): Extended
    decreases |xs|
  {
    if xs == [] then Announces(p)
    else if |xs[0].header.block| != BLOCK then Refuses(CorruptHeader)
    else
      match Extension(HeaderKind(xs[0].header.block), xs[0].data, p)
      case Refuses(reason) => Refuses(reason)
      case Announces(q) => Announced(xs[1..], q)
  }

  // --- The verdict as a fold.

  function Content(mode: Mode): nat {
    match mode case Skipping(n) => n case _ => 0
  }

  /** A member: its own extended headers, and then its entry. */
  function Counts(m: Member, p: Pending, t: Totals, number: NumberReader, limits: Limits): Outcome {
    match Announced(m.extras, p)
    case Refuses(reason) => Stop(Bad(reason))
    case Announces(q) =>
      if |m.header.block| != BLOCK then Stop(Bad(CorruptHeader)) else Entry(m.header.block, number, limits, q, t)
  }

  /** The members are well formed and each carries as many bytes as its entry says. */
  predicate MembersOk(ms: seq<Member>, p: Pending, t: Totals, number: NumberReader, limits: Limits)
    decreases |ms|
  {
    ms == [] ||
    (&& ExtrasOk(ms[0].extras, number) && IsEntry(ms[0].header, number)
     && var out := Counts(ms[0], p, t, number, limits);
        out.Go? ==> |ms[0].content| == Content(out.mode) && MembersOk(ms[1..], NONE_PENDING, out.totals, number, limits))
  }

  predicate ArchiveOk(a: Archive, number: NumberReader, limits: Limits) {
    MembersOk(a.members, NONE_PENDING, NO_TOTALS, number, limits) && ExtrasOk(a.trailing, number)
  }

  /** The verdict of a list of members: every entry in turn, each under its own extended headers and
      no other's; then those at the end; then the cross check. */
  function Fold(ms: seq<Member>, trailing: seq<Extra>, p: Pending, t: Totals, number: NumberReader, limits: Limits): Verdict
    decreases |ms|
  {
    if ms == [] then
      match Announced(trailing, p)
      case Refuses(reason) => Bad(reason)
      case Announces(_) => if Accepted(t.seen, t.links) then Fine(t.(zeroBlocks := 2)) else Bad(UnsafeLinks)
    else
      match Counts(ms[0], p, t, number, limits)
      case Stop(verdict) => verdict
      case Go(_, _, u) => Fold(ms[1..], trailing, NONE_PENDING, u, number, limits)
  }

  // --- One header of the parse.

  function Resumed(ext: Extended, rest: seq<Byte>, t: Totals, number: NumberReader, limits: Limits): Verdict {
    match ext
    case Refuses(reason) => Bad(reason)
    case Announces(q) => OneShot(rest, number, limits, q, t)
  }

  function Proceeds(out: Outcome, rest: seq<Byte>, number: NumberReader, limits: Limits): Verdict {
    match out
    case Stop(verdict) => verdict
    case Go(_, _, u) => OneShot(rest, number, limits, NONE_PENDING, u)
  }

  lemma BlankIsSkipped(b: seq<Byte>, p: Pending, t: Totals, number: NumberReader, limits: Limits)
    requires |b| >= 2 * BLOCK && IsZero(b[..BLOCK]) && !IsZero(b[BLOCK..2*BLOCK]) && t.zeroBlocks == 0
    ensures OneShot(b, number, limits, p, t) == OneShot(b[BLOCK..], number, limits, p, t)
  {
    hide Entry, Extension, ChecksumOk, Accepted;
    assert b[BLOCK..][..BLOCK] == b[BLOCK..2*BLOCK];
  }

  lemma EndIsRead(b: seq<Byte>, p: Pending, t: Totals, number: NumberReader, limits: Limits)
    requires |b| >= 2 * BLOCK && IsZero(b[..BLOCK]) && IsZero(b[BLOCK..2*BLOCK]) && t.zeroBlocks == 0
    ensures OneShot(b, number, limits, p, t) == if Accepted(t.seen, t.links) then Fine(t.(zeroBlocks := 2)) else Bad(UnsafeLinks)
  {
    hide Entry, Extension, ChecksumOk, Accepted;
    assert b[BLOCK..][..BLOCK] == b[BLOCK..2*BLOCK];
  }

  /** The blank before a header changes nothing. */
  lemma HeaderIsRead(h: Header, rest: seq<Byte>, p: Pending, t: Totals, number: NumberReader, limits: Limits)
    requires HeaderOk(h, number) && t.zeroBlocks == 0
    ensures OneShot(RenderHeader(h) + rest, number, limits, p, t) == OneShot(h.block + rest, number, limits, p, t)
  {
    hide OneShot, ChecksumOk, Zeros, IsZero;
    var b := RenderHeader(h) + rest;
    if h.blank {
      assert b[..BLOCK] == Zeros(BLOCK) && b[BLOCK..2*BLOCK] == h.block && b[BLOCK..] == h.block + rest;
      BlankIsSkipped(b, p, t, number, limits);
    } else {
      assert b == h.block + rest;
    }
  }

  lemma ExtraIsRead(x: Extra, rest: seq<Byte>, p: Pending, t: Totals, number: NumberReader, limits: Limits)
    requires ExtraOk(x, number) && t.zeroBlocks == 0
    ensures OneShot(RenderExtra(x) + rest, number, limits, p, t)
         == Resumed(Extension(HeaderKind(x.header.block), x.data, p), rest, t, number, limits)
  {
    hide OneShot, Extension, ChecksumOk, RenderHeader, IsZero, PadOf;
    var h, after := x.header, x.data + x.pad + rest;
    assert RenderExtra(x) + rest == RenderHeader(h) + after;
    HeaderIsRead(h, after, p, t, number, limits);
    ExtraSlices(h.block, x.data, x.pad, rest);
    CollectIsRead(h.block + after, |x.data|, p, t, number, limits);
  }

  lemma ExtraSlices(block: seq<Byte>, data: seq<Byte>, pad: seq<Byte>, rest: seq<Byte>)
    ensures var b, n := block + (data + pad + rest), |block|;
      b[..n] == block && b[n..n+|data|] == data && b[n+|data|+|pad|..] == rest
  {
    var b := block + (data + pad + rest);
    assert b == block + data + pad + rest;
  }

  /** An extended header, read from its bytes. */
  lemma CollectIsRead(b: seq<Byte>, size: nat, p: Pending, t: Totals, number: NumberReader, limits: Limits)
    requires |b| >= BLOCK + size + PadOf(size) && t.zeroBlocks == 0 && size <= 1024 * 1024
    requires !IsZero(b[..BLOCK]) && ChecksumOk(b[..BLOCK], number)
    requires IsExtension(HeaderKind(b[..BLOCK])) && size == number(b[..BLOCK][124..136])
    ensures OneShot(b, number, limits, p, t)
         == Resumed(Extension(HeaderKind(b[..BLOCK]), b[BLOCK..BLOCK+size], p), b[BLOCK+size+PadOf(size)..], t, number, limits)
  {
    hide Entry, Extension, ChecksumOk, Accepted, IsZero, PadOf;
    assert [] + b[BLOCK..BLOCK+size] == b[BLOCK..BLOCK+size];
    assert t.(zeroBlocks := 0) == t;
  }

  lemma {:induction false} ExtrasAreRead(xs: seq<Extra>, rest: seq<Byte>, p: Pending, t: Totals, number: NumberReader, limits: Limits)
    requires ExtrasOk(xs, number) && t.zeroBlocks == 0
    ensures OneShot(RenderExtras(xs) + rest, number, limits, p, t) == Resumed(Announced(xs, p), rest, t, number, limits)
    decreases |xs|
  {
    hide OneShot, Extension, ExtraOk, RenderExtra, HeaderOk;
    if xs == [] {
      assert RenderExtras(xs) + rest == rest;
    } else {
      var more := RenderExtras(xs[1..]) + rest;
      assert RenderExtras(xs) + rest == RenderExtra(xs[0]) + more;
      ExtraHasBlock(xs[0], number);
      ExtraIsRead(xs[0], more, p, t, number, limits);
      match Extension(HeaderKind(xs[0].header.block), xs[0].data, p)
      case Refuses(_) =>
      case Announces(q) => ExtrasAreRead(xs[1..], rest, q, t, number, limits);
    }
  }

  lemma ExtraHasBlock(x: Extra, number: NumberReader)
    requires ExtraOk(x, number)
    ensures |x.header.block| == BLOCK
  {
  }

  lemma EntryMode(h: seq<Byte>, number: NumberReader, limits: Limits, p: Pending, t: Totals)
    requires |h| == BLOCK && Entry(h, number, limits, p, t).Go?
    ensures var out := Entry(h, number, limits, p, t);
      !out.mode.Collecting? && out.pending == NONE_PENDING && out.totals.zeroBlocks == t.zeroBlocks
  {
    hide Segments, Field;
  }

  lemma EntryIsRead(h: Header, content: seq<Byte>, rest: seq<Byte>, p: Pending, t: Totals, number: NumberReader, limits: Limits)
    requires IsEntry(h, number) && t.zeroBlocks == 0
    requires var out := Entry(h.block, number, limits, p, t); out.Go? ==> |content| == Content(out.mode)
    ensures OneShot(RenderHeader(h) + content + rest, number, limits, p, t)
         == Proceeds(Entry(h.block, number, limits, p, t), rest, number, limits)
  {
    hide Entry, Extension, ChecksumOk, Accepted, RenderHeader, IsZero;
    var after := content + rest;
    assert RenderHeader(h) + content + rest == RenderHeader(h) + after;
    HeaderIsRead(h, after, p, t, number, limits);
    var b, out := h.block + after, Entry(h.block, number, limits, p, t);
    assert b[..BLOCK] == h.block && b[BLOCK..] == after;
    assert t.(zeroBlocks := 0) == t;
    if out.Go? {
      EntryMode(h.block, number, limits, p, t);
      assert b[BLOCK+|content|..] == rest;
      assert content == [] ==> after == rest;
    }
  }

  // --- The parse of a rendering.

  /** The bytes up to and with the end marker. */
  function Whole(ms: seq<Member>, trailing: seq<Extra>): seq<Byte> {
    RenderMembers(ms) + (RenderExtras(trailing) + (Zeros(BLOCK) + Zeros(BLOCK)))
  }

  lemma TrailingIsRead(trailing: seq<Extra>, rest: seq<Byte>, p: Pending, t: Totals, number: NumberReader, limits: Limits)
    requires ExtrasOk(trailing, number) && t.zeroBlocks == 0
    ensures OneShot(Whole([], trailing) + rest, number, limits, p, t) == Fold([], trailing, p, t, number, limits)
  {
    hide OneShot, Zeros, IsZero, ExtrasOk, Announced, Accepted, RenderExtras;
    var end := Zeros(BLOCK) + Zeros(BLOCK) + rest;
    assert Whole([], trailing) + rest == RenderExtras(trailing) + end;
    ExtrasAreRead(trailing, end, p, t, number, limits);
    var ext := Announced(trailing, p);
    if ext.Announces? {
      assert end[..BLOCK] == Zeros(BLOCK) && end[BLOCK..2*BLOCK] == Zeros(BLOCK);
      EndIsRead(end, ext.pending, t, number, limits);
    }
  }

  lemma FirstMember(ms: seq<Member>, trailing: seq<Extra>, rest: seq<Byte>)
    requires ms != []
    ensures Whole(ms, trailing) + rest
         == RenderExtras(ms[0].extras) + (RenderHeader(ms[0].header) + ms[0].content + (Whole(ms[1..], trailing) + rest))
  {
    hide RenderExtras, RenderHeader, Zeros;
    var x, h, c := RenderExtras(ms[0].extras), RenderHeader(ms[0].header), ms[0].content;
    var more, end := RenderMembers(ms[1..]), RenderExtras(trailing) + (Zeros(BLOCK) + Zeros(BLOCK));
    assert (x + (h + c)) + more + end + rest == x + (h + c + (more + end + rest));
  }

  /** Reading the bytes of a well-formed list of members, whatever follows its end marker, is folding
      over the list. */
  lemma {:induction false} MembersAreRead(ms: seq<Member>, trailing: seq<Extra>, rest: seq<Byte>, p: Pending, t: Totals,
                                          number: NumberReader, limits: Limits)
    requires MembersOk(ms, p, t, number, limits) && ExtrasOk(trailing, number) && t.zeroBlocks == 0
    ensures OneShot(Whole(ms, trailing) + rest, number, limits, p, t) == Fold(ms, trailing, p, t, number, limits)
    decreases |ms|
  {
    hide OneShot, Entry, ExtrasOk, Announced, RenderExtras, RenderHeader, Whole, IsEntry;
    if ms == [] {
      TrailingIsRead(trailing, rest, p, t, number, limits);
    } else {
      var m, more := ms[0], Whole(ms[1..], trailing) + rest;
      var tail := RenderHeader(m.header) + m.content + more;
      FirstMember(ms, trailing, rest);
      ExtrasAreRead(m.extras, tail, p, t, number, limits);
      var ext := Announced(m.extras, p);
      if ext.Announces? {
        EntryHasBlock(m.header, number);
        EntryIsRead(m.header, m.content, more, ext.pending, t, number, limits);
        var out := Entry(m.header.block, number, limits, ext.pending, t);
        if out.Go? {
          EntryMode(m.header.block, number, limits, ext.pending, t);
          MembersAreRead(ms[1..], trailing, rest, NONE_PENDING, out.totals, number, limits);
        }
      }
    }
  }

  lemma EntryHasBlock(h: Header, number: NumberReader)
    requires IsEntry(h, number)
    ensures |h.block| == BLOCK
  {
  }

  // --- And back: what is accepted is a rendering.

  /** The same list with one more extended header in front. */
  function WithExtra(x: Extra, ms: seq<Member>, trailing: seq<Extra>): (seq<Member>, seq<Extra>) {
    if ms == [] then ([], [x] + trailing)
    else ([ms[0].(extras := [x] + ms[0].extras)] + ms[1..], trailing)
  }

  lemma WithExtraRenders(x: Extra, ms: seq<Member>, trailing: seq<Extra>)
    ensures var (us, more) := WithExtra(x, ms, trailing); Whole(us, more) == RenderExtra(x) + Whole(ms, trailing)
  {
    hide RenderExtra, RenderHeader, Zeros;
    var end := Zeros(BLOCK) + Zeros(BLOCK);
    if ms == [] {
      assert ([x] + trailing)[1..] == trailing;
      assert RenderExtra(x) + RenderExtras(trailing) + end == RenderExtra(x) + (RenderExtras(trailing) + end);
      assert [] + Whole([], trailing) == Whole([], trailing);
    } else {
      var m := ms[0].(extras := [x] + ms[0].extras);
      var us := [m] + ms[1..];
      assert us[1..] == ms[1..] && ([x] + ms[0].extras)[1..] == ms[0].extras;
      var a, b, c := RenderExtra(x), RenderExtras(ms[0].extras), RenderHeader(ms[0].header) + ms[0].content;
      var d, e := RenderMembers(ms[1..]), RenderExtras(trailing) + end;
      assert RenderMember(m) == a + b + c;
      assert (a + b + c) + d + e == a + ((b + c) + d + e);
    }
  }

  lemma WithExtraOk(x: Extra, ms: seq<Member>, trailing: seq<Extra>, p: Pending, q: Pending, t: Totals,
                                       number: NumberReader, limits: Limits)
    requires ExtraOk(x, number) && Extension(HeaderKind(x.header.block), x.data, p) == Announces(q)
    requires MembersOk(ms, q, t, number, limits) && ExtrasOk(trailing, number)
    ensures var (us, more) := WithExtra(x, ms, trailing); MembersOk(us, p, t, number, limits) && ExtrasOk(more, number)
  {
    hide Entry, Extension, IsEntry, ExtraOk;
    if ms != [] {
      var m := ms[0].(extras := [x] + ms[0].extras);
      assert ([m] + ms[1..])[1..] == ms[1..] && ([x] + ms[0].extras)[1..] == ms[0].extras;
      ExtraHasBlock(x, number);
      assert Announced(m.extras, p) == Announced(ms[0].extras, q);
    }
  }

  /** The next header of a scan that will accept, and whether a blank stands before it. */
  lemma NextHeader(b: seq<Byte>, p: Pending, t: Totals, number: NumberReader, limits: Limits) returns (blank: bool)
    requires t.zeroBlocks == 0 && OneShot(b, number, limits, p, t).Fine?
    requires |b| >= 2 * BLOCK ==> !(IsZero(b[..BLOCK]) && IsZero(b[BLOCK..2*BLOCK]))
    ensures var o := if blank then BLOCK else 0;
      && |b| >= o + BLOCK && !IsZero(b[o..o+BLOCK]) && (blank ==> b[..BLOCK] == Zeros(BLOCK))
      && OneShot(b[o..], number, limits, p, t) == OneShot(b, number, limits, p, t)
  {
    hide Entry, Extension, ChecksumOk, Accepted, Zeros;
    blank := IsZero(b[..BLOCK]);
    if blank {
      assert |b| >= 2 * BLOCK;
      BlankIsSkipped(b, p, t, number, limits);
    } else {
      assert b[0..] == b && b[0..BLOCK] == b[..BLOCK];
    }
  }

  lemma NothingIsRefused(p: Pending, t: Totals, number: NumberReader, limits: Limits)
    ensures OneShot([], number, limits, p, t) == Bad(Ended)
  {
  }

  /** A header that goes on: an extended header or an entry, all its bytes there. */
  lemma AcceptedHeader(b: seq<Byte>, p: Pending, t: Totals, number: NumberReader, limits: Limits)
    requires t.zeroBlocks == 0 && |b| >= BLOCK && !IsZero(b[..BLOCK]) && OneShot(b, number, limits, p, t).Fine?
    ensures ChecksumOk(b[..BLOCK], number) && HeaderKind(b[..BLOCK]) != 103
    ensures var kind, size := HeaderKind(b[..BLOCK]), number(b[..BLOCK][124..136]);
      if IsExtension(kind) then size <= 1024 * 1024 && |b| >= BLOCK + size + PadOf(size)
      else
        var out := Entry(b[..BLOCK], number, limits, p, t);
        out.Go? && !out.mode.Collecting? && |b| >= BLOCK + Content(out.mode)
  {
    hide Entry, Extension, ChecksumOk, Accepted, IsZero, PadOf;
    assert t.(zeroBlocks := 0) == t;
    var h := b[..BLOCK];
    var kind, size := HeaderKind(h), number(h[124..136]);
    if IsExtension(kind) {
      var ext := Extension(kind, [] + b[BLOCK..BLOCK+size], p);
      NothingIsRefused(ext.pending, t, number, limits);
    } else {
      EntryNeverAccepts(h, number, limits, p, t);
      var out := Entry(h, number, limits, p, t);
      EntryMode(h, number, limits, p, t);
      NothingIsRefused(out.pending, out.totals, number, limits);
    }
  }

  /** Every accepted archive is the rendering of a well-formed list of members. */
  lemma {:induction false} ParsesBack(b: seq<Byte>, p: Pending, t: Totals, number: NumberReader, limits: Limits)
    returns (ms: seq<Member>, trailing: seq<Extra>, rest: seq<Byte>)
    requires t.zeroBlocks == 0 && OneShot(b, number, limits, p, t).Fine?
    ensures MembersOk(ms, p, t, number, limits) && ExtrasOk(trailing, number) && b == Whole(ms, trailing) + rest
    decreases |b|, 1
  {
    hide OneShot, Entry, Extension, ChecksumOk, IsZero, PadOf, Zeros, Whole, MembersOk, RenderHeader;
    if |b| >= 2 * BLOCK && IsZero(b[..BLOCK]) && IsZero(b[BLOCK..2*BLOCK]) {
      ms, trailing, rest := [], [], b[2*BLOCK..];
      OnlyTheEnd(b, p, t, number, limits);
      return;
    }
    var blank := NextHeader(b, p, t, number, limits);
    var o := if blank then BLOCK else 0;
    var c := b[o..];
    var h := Header(blank, c[..BLOCK]);
    assert b[o..o+BLOCK] == c[..BLOCK];
    AcceptedHeader(c, p, t, number, limits);
    HeaderRenders(b, blank);
    if IsExtension(HeaderKind(h.block)) {
      ms, trailing, rest := ParsesBackExtra(b, h, o, p, t, number, limits);
    } else {
      ms, trailing, rest := ParsesBackEntry(b, h, o, p, t, number, limits);
    }
  }

  /** The header `h` stands at `o` of `b`, or the blank before it at the beginning. */
  predicate HeaderAt(b: seq<Byte>, h: Header, o: nat) {
    && |b| >= o + BLOCK && h.block == b[o..][..BLOCK] && !IsZero(h.block)
    && b == RenderHeader(h) + b[o+BLOCK..]
  }

  lemma {:induction false} ParsesBackExtra(b: seq<Byte>, h: Header, o: nat, p: Pending, t: Totals, number: NumberReader, limits: Limits)
    returns (ms: seq<Member>, trailing: seq<Extra>, rest: seq<Byte>)
    requires HeaderAt(b, h, o) && t.zeroBlocks == 0 && OneShot(b[o..], number, limits, p, t).Fine?
    requires ChecksumOk(h.block, number) && IsExtension(HeaderKind(h.block))
    requires var size := number(h.block[124..136]); size <= 1024 * 1024 && |b| >= o + BLOCK + size + PadOf(size)
    ensures MembersOk(ms, p, t, number, limits) && ExtrasOk(trailing, number) && b == Whole(ms, trailing) + rest
    decreases |b|, 0
  {
    hide OneShot, Entry, Extension, ChecksumOk, IsZero, PadOf, Zeros, Whole, MembersOk, RenderHeader, WithExtra;
    var c, size := b[o..], number(h.block[124..136]);
    var after := c[BLOCK+size+PadOf(size)..];
    var x := Extra(h, c[BLOCK..BLOCK+size], c[BLOCK+size..BLOCK+size+PadOf(size)]);
    CollectIsRead(c, size, p, t, number, limits);
    var q := Extension(HeaderKind(h.block), x.data, p).pending;
    var us, more;
    us, more, rest := ParsesBack(after, q, t, number, limits);
    WithExtraRenders(x, us, more);
    WithExtraOk(x, us, more, p, q, t, number, limits);
    ms, trailing := WithExtra(x, us, more).0, WithExtra(x, us, more).1;
    assert b[o+BLOCK..] == x.data + x.pad + after;
    assert b == RenderExtra(x) + after;
    assert RenderExtra(x) + (Whole(us, more) + rest) == RenderExtra(x) + Whole(us, more) + rest;
  }

  lemma {:induction false} ParsesBackEntry(b: seq<Byte>, h: Header, o: nat, p: Pending, t: Totals, number: NumberReader, limits: Limits)
    returns (ms: seq<Member>, trailing: seq<Extra>, rest: seq<Byte>)
    requires HeaderAt(b, h, o) && t.zeroBlocks == 0 && OneShot(b[o..], number, limits, p, t).Fine?
    requires IsEntry(h, number)
    requires var out := Entry(h.block, number, limits, p, t); out.Go? && |b| >= o + BLOCK + Content(out.mode)
    ensures MembersOk(ms, p, t, number, limits) && ExtrasOk(trailing, number) && b == Whole(ms, trailing) + rest
    decreases |b|, 0
  {
    hide OneShot, Entry, ChecksumOk, IsZero, PadOf, Zeros, Whole, RenderHeader, MembersOk;
    var c, out := b[o..], Entry(h.block, number, limits, p, t);
    var n := Content(out.mode);
    var content, after := c[BLOCK..BLOCK+n], c[BLOCK+n..];
    PlainHeader(c, n);
    EntryIsRead(Header(false, h.block), content, after, p, t, number, limits);
    EntryMode(h.block, number, limits, p, t);
    var us;
    us, trailing, rest := ParsesBack(after, NONE_PENDING, out.totals, number, limits);
    ms := [Member([], h, content)] + us;
    assert ms[1..] == us;
    FirstMember(ms, trailing, rest);
    assert RenderExtras([]) == [];
    assert b[o+BLOCK..] == content + after;
    assert b == RenderHeader(h) + content + after;
    OneMemberMore(h, content, us, p, t, number, limits);
  }

  lemma PlainHeader(c: seq<Byte>, n: nat)
    requires |c| >= BLOCK + n
    ensures c == RenderHeader(Header(false, c[..BLOCK])) + c[BLOCK..BLOCK+n] + c[BLOCK+n..]
  {
  }

  lemma OneMemberMore(h: Header, content: seq<Byte>, us: seq<Member>, p: Pending, t: Totals,
                                         number: NumberReader, limits: Limits)
    requires IsEntry(h, number)
    requires var out := Entry(h.block, number, limits, p, t);
      out.Go? && |content| == Content(out.mode) && MembersOk(us, NONE_PENDING, out.totals, number, limits)
    ensures MembersOk([Member([], h, content)] + us, p, t, number, limits)
  {
    hide Entry, HeaderOk;
    var ms := [Member([], h, content)] + us;
    assert ms[1..] == us && ms[0] == Member([], h, content);
    EntryHasBlock(h, number);
  }

  lemma OnlyTheEnd(b: seq<Byte>, p: Pending, t: Totals, number: NumberReader, limits: Limits)
    requires |b| >= 2 * BLOCK && IsZero(b[..BLOCK]) && IsZero(b[BLOCK..2*BLOCK])
    ensures MembersOk([], p, t, number, limits) && b == Whole([], []) + b[2*BLOCK..]
  {
    hide Zeros;
    assert b[..BLOCK] == Zeros(BLOCK) && b[BLOCK..2*BLOCK] == Zeros(BLOCK);
    assert b == b[..BLOCK] + b[BLOCK..2*BLOCK] + b[2*BLOCK..];
  }

  lemma HeaderRenders(b: seq<Byte>, blank: bool)
    requires var o := if blank then BLOCK else 0; |b| >= o + BLOCK && (blank ==> b[..BLOCK] == Zeros(BLOCK))
    ensures var o := if blank then BLOCK else 0;
      b == RenderHeader(Header(blank, b[o..][..BLOCK])) + b[o+BLOCK..]
  {
    hide Zeros;
    var o := if blank then BLOCK else 0;
    assert b == b[..o] + b[o..][..BLOCK] + b[o+BLOCK..];
  }

  // --- Both ways, for every split into chunks.

  ghost predicate IsArchive(b: seq<Byte>, a: Archive, number: NumberReader, limits: Limits) {
    ArchiveOk(a, number, limits) && Whole(a.members, a.trailing) <= b
  }

  function VerdictOf(a: Archive, number: NumberReader, limits: Limits): Verdict {
    Fold(a.members, a.trailing, NONE_PENDING, NO_TOTALS, number, limits)
  }

  /** The scan of the bytes of an archive gives the verdict of its members, however the bytes are cut
      into chunks: every extended header applies to the entry directly after it and to no other. */
  lemma ScanFoldsMembers(chunks: seq<seq<Byte>>, a: Archive, number: NumberReader, limits: Limits)
    requires IsArchive(Flatten(chunks), a, number, limits)
    ensures End(FeedAll(NEW, chunks, number, limits)) == VerdictOf(a, number, limits)
  {
    hide OneShot, FeedAll, Whole, Fold, MembersOk;
    var b := Flatten(chunks);
    var rest := b[|Whole(a.members, a.trailing)|..];
    assert b == Whole(a.members, a.trailing) + rest;
    ChunksDoNotMatter(chunks, number, limits);
    MembersAreRead(a.members, a.trailing, rest, NONE_PENDING, NO_TOTALS, number, limits);
  }

  /** And the scan accepts, with these totals, exactly the bytes of archives whose members fold to
      them. */
  lemma AcceptedExactly(chunks: seq<seq<Byte>>, number: NumberReader, limits: Limits, u: Totals)
    ensures End(FeedAll(NEW, chunks, number, limits)) == Fine(u) <==>
      exists a :: IsArchive(Flatten(chunks), a, number, limits) && VerdictOf(a, number, limits) == Fine(u)
  {
    hide OneShot, FeedAll, Whole, Fold, MembersOk;
    if End(FeedAll(NEW, chunks, number, limits)) == Fine(u) {
      ChunksDoNotMatter(chunks, number, limits);
      var ms, trailing, rest := ParsesBack(Flatten(chunks), NONE_PENDING, NO_TOTALS, number, limits);
      var a := Archive(ms, trailing);
      assert IsArchive(Flatten(chunks), a, number, limits);
      ScanFoldsMembers(chunks, a, number, limits);
    }
    if a :| IsArchive(Flatten(chunks), a, number, limits) && VerdictOf(a, number, limits) == Fine(u) {
      ScanFoldsMembers(chunks, a, number, limits);
    }
  }
}
