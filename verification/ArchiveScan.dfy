/** The streaming tar scan: a machine fed with chunks of any size, the class that runs it in place,
    and the one-shot parse it is equal to. How a header field spells a number is a parameter. */
module ArchiveScan {
  import opened Options
  import opened Bytes
  import opened Sequences
  import opened ArchiveLinks
  import opened PaxRecords

  type NumberReader = seq<Byte> -> nat

  datatype Limits = Limits(maxEntries: nat, maxTotalBytes: nat)

  datatype Reason =
    | MalformedPax | UnsupportedKeyword | CorruptHeader | GlobalHeader | OversizedHeader
    | PaxSizeOnNonFile | MalformedSize | TooManyEntries | BadName | UnsupportedType
    | TooManyBytes | UnsafeLinks | Ended

  /** What extended headers say about the next entry. */
  datatype Pending = Pending(path: Option<Text>, linkpath: Option<Text>, size: Option<Text>)

  const NONE_PENDING: Pending := Pending(None, None, None)

  datatype Totals = Totals(entries: nat, totalBytes: nat, zeroBlocks: nat, seen: seq<seq<Text>>, links: seq<Link>)

  const NO_TOTALS: Totals := Totals(0, 0, 0, [], [])

  datatype Verdict = Fine(totals: Totals) | Bad(reason: Reason)

  /** What the bytes after the last whole header are for. */
  datatype Mode = AtHeader | Skipping(n: nat) | Collecting(kind: Byte, remaining: nat, data: seq<Byte>, pad: nat)

  datatype Scanner =
    | Settled(verdict: Verdict)
    | Running(buffer: seq<Byte>, mode: Mode, pending: Pending, totals: Totals)

  const BLOCK: nat := 512

  // --- One header block.

  /** The bytes before the first zero, or all of them. */
  function Field(bs: seq<Byte>): Text {
    bs[..FirstAt(bs, 0)]
  }

  lemma FieldExactly(bs: seq<Byte>, t: Text)
    ensures t == Field(bs) <==> t <= bs && 0 !in t && (|t| < |bs| ==> bs[|t|] == 0)
  {
    if t <= bs && 0 !in t && (|t| < |bs| ==> bs[|t|] == 0) {
      assert t == bs[..|t|];
      FirstAtIs(bs, 0, |t|);
    }
  }

  function Sum(bs: seq<Byte>): nat {
    if bs == [] then 0 else Sum(bs[..|bs|-1]) + bs[|bs|-1]
  }

  /** A header with its checksum field read as eight spaces. */
  function Blanked(h: seq<Byte>): (r: seq<Byte>)
    requires |h| == BLOCK
    ensures |r| == BLOCK && forall i :: 0 <= i < BLOCK ==> r[i] == if 148 <= i < 156 then 32 else h[i]
  {
    h[..148] + [32, 32, 32, 32, 32, 32, 32, 32] + h[156..]
  }

  predicate ChecksumOk(h: seq<Byte>, number: NumberReader)
    requires |h| == BLOCK
  {
    Sum(Blanked(h)) == number(h[148..156])
  }

  method CheckChecksum(h: seq<Byte>, number: NumberReader) returns (ok: bool)
    requires |h| == BLOCK
    ensures ok <==> ChecksumOk(h, number)
  {
    var sum: nat := 0;
    ghost var blanked := Blanked(h);
    for i := 0 to BLOCK
      invariant sum == Sum(blanked[..i])
    {
      assert blanked[..i+1][..i] == blanked[..i];
      var b: nat := if 148 <= i < 156 then 32 else h[i];
      sum := sum + b;
    }
    assert blanked[..BLOCK] == blanked;
    return sum == number(h[148..156]);
  }

  predicate IsZero(h: seq<Byte>) {
    forall i :: 0 <= i < |h| ==> h[i] == 0
  }

  function PadOf(size: nat): nat {
    (512 - size % 512) % 512
  }

  function Rest(n: nat): Mode {
    if n == 0 then AtHeader else Skipping(n)
  }

  predicate IsFile(kind: Byte) { kind == 48 || kind == 0 || kind == 55 }

  predicate IsExtension(kind: Byte) { kind == 76 || kind == 75 || kind == 120 }

  predicate IsKnown(kind: Byte) { IsFile(kind) || kind == 53 || kind == 49 || kind == 50 }

  predicate NameOk(name: Text) {
    !(name != [] && name[0] == SLASH) && DOT_DOT !in Segments(name)
  }

  datatype Outcome = Stop(verdict: Verdict) | Go(mode: Mode, pending: Pending, totals: Totals)

  function HeaderKind(h: seq<Byte>): Byte
    requires |h| == BLOCK
  {
    if h[156] == 0 then 48 else h[156]
  }

  function HeaderName(h: seq<Byte>): Text
    requires |h| == BLOCK
  {
    var prefix := Field(h[345..500]);
    if prefix != [] then prefix + [SLASH] + Field(h[..100]) else Field(h[..100])
  }

  /** An entry under its final name: counted, noted for the cross check, its content skipped. */
  function Placed(kind: Byte, name: Text, link: Text, size: nat, limits: Limits, t: Totals): Outcome {
    if t.entries + 1 > limits.maxEntries then Stop(Bad(TooManyEntries))
    else if !NameOk(name) then Stop(Bad(BadName))
    else if !IsKnown(kind) then Stop(Bad(UnsupportedType))
    else
      var bytes := t.totalBytes + if IsFile(kind) then size else 0;
      var u := t.(
        entries := t.entries + 1,
        totalBytes := bytes,
        seen := t.seen + [Segments(name)],
        links := if kind == 49 || kind == 50 then t.links + [Link(kind == 50, Segments(name), link)] else t.links);
      if IsFile(kind) && bytes > limits.maxTotalBytes then Stop(Bad(TooManyBytes))
      else Go(Rest(if IsFile(kind) then size + PadOf(size) else 0), NONE_PENDING, u)
  }

  /** An entry header: name, link and size may come from the extended headers before it. */
  function Entry(h: seq<Byte>, number: NumberReader, limits: Limits, p: Pending, t: Totals): Outcome
    requires |h| == BLOCK
  {
    var kind := HeaderKind(h);
    if p.size.Some? && !IsFile(kind) then Stop(Bad(PaxSizeOnNonFile))
    else if p.size.Some? && !IsDecimal(p.size.value) then Stop(Bad(MalformedSize))
    else
      var size := if p.size.Some? then DecimalValue(p.size.value) else number(h[124..136]);
      var name := if p.path.Some? then p.path.value else HeaderName(h);
      var link := if p.linkpath.Some? then p.linkpath.value else Field(h[157..257]);
      Placed(kind, name, link, size, limits, t)
  }

  function HeaderBlock(h: seq<Byte>, number: NumberReader, limits: Limits, p: Pending, t: Totals): Outcome
    requires |h| == BLOCK
  {
    if IsZero(h) then
      var u := t.(zeroBlocks := t.zeroBlocks + 1);
      if u.zeroBlocks < 2 then Go(AtHeader, p, u)
      else Stop(if Accepted(t.seen, t.links) then Fine(u) else Bad(UnsafeLinks))
    else if !ChecksumOk(h, number) then Stop(Bad(CorruptHeader))
    else
      var kind, size := HeaderKind(h), number(h[124..136]);
      var u := t.(zeroBlocks := 0);
      if kind == 103 then Stop(Bad(GlobalHeader))
      else if IsExtension(kind) then
        if size > 1024 * 1024 then Stop(Bad(OversizedHeader)) else Go(Collecting(kind, size, [], PadOf(size)), p, u)
      else Entry(h, number, limits, p, u)
  }

  // --- One extended header.

  function Ascii(s: string): Text {
    seq(|s|, i requires 0 <= i < |s| => (s[i] as int) % 256)
  }

  function PaxKeys(): set<Text> {
    {Ascii("path"), Ascii("linkpath"), Ascii("size"), Ascii("mtime"), Ascii("atime"),
     Ascii("ctime"), Ascii("uid"), Ascii("gid"), Ascii("uname"), Ascii("gname")}
  }

  function Override(m: map<Text, Text>, key: Text, before: Option<Text>): Option<Text> {
    if key in m then Some(m[key]) else before
  }

  datatype Extended = Refuses(reason: Reason) | Announces(pending: Pending)

  function Extension(kind: Byte, data: seq<Byte>, p: Pending): Extended {
    if kind == 76 then Announces(p.(path := Some(Field(data))))
    else if kind == 75 then Announces(p.(linkpath := Some(Field(data))))
    else
      var pax := Pax(data);
      if pax.None? then Refuses(MalformedPax)
      else if !(pax.value.Keys <= PaxKeys()) then Refuses(UnsupportedKeyword)
      else Announces(Pending(Override(pax.value, Ascii("path"), p.path),
                             Override(pax.value, Ascii("linkpath"), p.linkpath),
                             Override(pax.value, Ascii("size"), p.size)))
  }

  // --- The machine.

  function Weight(m: Mode): nat {
    match m case AtHeader => 0 case Skipping(_) => 1 case Collecting(_, _, _, _) => 2
  }

  /** Works through the buffer until it settles or has to wait for more bytes. */
  function Drain(s: Scanner, number: NumberReader, limits: Limits): Scanner
    decreases if s.Running? then |s.buffer| else 0, if s.Running? then Weight(s.mode) else 0
  {
    match s
    case Settled(_) => s
    case Running(b, mode, p, t) =>
      match mode
      case Skipping(n) =>
        if |b| < n then Running([], Skipping(n - |b|), p, t)
        else Drain(Running(b[n..], AtHeader, p, t), number, limits)
      case Collecting(kind, remaining, data, pad) =>
        if |b| < remaining then Running([], Collecting(kind, remaining - |b|, data + b, pad), p, t)
        else (
          match Extension(kind, data + b[..remaining], p)
          case Refuses(reason) => Settled(Bad(reason))
          case Announces(q) => Drain(Running(b[remaining..], Rest(pad), q, t), number, limits))
      case AtHeader =>
        if |b| < BLOCK then s
        else
          match HeaderBlock(b[..BLOCK], number, limits, p, t)
          case Stop(verdict) => Settled(verdict)
          case Go(next, q, u) => Drain(Running(b[BLOCK..], next, q, u), number, limits)
  }

  function Feed(s: Scanner, chunk: seq<Byte>, number: NumberReader, limits: Limits): Scanner {
    if s.Settled? then s else Drain(s.(buffer := s.buffer + chunk), number, limits)
  }

  function FeedAll(s: Scanner, chunks: seq<seq<Byte>>, number: NumberReader, limits: Limits): Scanner
    decreases |chunks|
  {
    if chunks == [] then s else FeedAll(Feed(s, chunks[0], number, limits), chunks[1..], number, limits)
  }

  /** The verdict once the stream ends. */
  function End(s: Scanner): Verdict {
    if s.Settled? then s.verdict else Bad(Ended)
  }

  const NEW: Scanner := Running([], AtHeader, NONE_PENDING, NO_TOTALS)

  // --- Chunks do not matter.

  lemma SkipWaits(b: seq<Byte>, n: nat, chunk: seq<Byte>, p: Pending, t: Totals, number: NumberReader, limits: Limits)
    requires |b| < n
    ensures Drain(Running(b + chunk, Skipping(n), p, t), number, limits)
         == Drain(Running(chunk, Skipping(n - |b|), p, t), number, limits)
  {
    hide HeaderBlock, Extension;
    if |b + chunk| >= n {
      assert (b + chunk)[n..] == chunk[n-|b|..];
    }
  }

  lemma CollectWaits(b: seq<Byte>, m: Mode, chunk: seq<Byte>, p: Pending, t: Totals, number: NumberReader, limits: Limits)
    requires m.Collecting? && |b| < m.remaining
    ensures Drain(Running(b + chunk, m, p, t), number, limits)
         == Drain(Running(chunk, m.(remaining := m.remaining - |b|, data := m.data + b), p, t), number, limits)
  {
    hide HeaderBlock, Extension;
    assert m.data + b + chunk == m.data + (b + chunk);
    if |b + chunk| >= m.remaining {
      assert (b + chunk)[m.remaining..] == chunk[m.remaining-|b|..];
      assert m.data + (b + chunk)[..m.remaining] == m.data + b + chunk[..m.remaining-|b|];
    }
  }

  /** Draining a longer buffer is draining it in two parts. */
  lemma {:induction false} DrainInTwo(s: Scanner, chunk: seq<Byte>, number: NumberReader, limits: Limits)
    requires s.Running?
    ensures Drain(s.(buffer := s.buffer + chunk), number, limits) == Feed(Drain(s, number, limits), chunk, number, limits)
    decreases |s.buffer|, Weight(s.mode)
  {
    hide HeaderBlock, Extension, Rest;
    var b := s.buffer;
    match s.mode
    case Skipping(n) =>
      if |b| < n {
        assert [] + chunk == chunk;
        SkipWaits(b, n, chunk, s.pending, s.totals, number, limits);
      } else {
        CutFirst(b, n, chunk);
        DrainInTwo(Running(b[n..], AtHeader, s.pending, s.totals), chunk, number, limits);
      }
    case Collecting(kind, remaining, data, pad) =>
      if |b| < remaining {
        assert [] + chunk == chunk;
        CollectWaits(b, s.mode, chunk, s.pending, s.totals, number, limits);
      } else {
        CutFirst(b, remaining, chunk);
        match Extension(kind, data + b[..remaining], s.pending)
        case Refuses(_) =>
        case Announces(q) =>
          RestIsShort(pad);
          DrainInTwo(Running(b[remaining..], Rest(pad), q, s.totals), chunk, number, limits);
      }
    case AtHeader =>
      if |b| >= BLOCK {
        CutFirst(b, BLOCK, chunk);
        match HeaderBlock(b[..BLOCK], number, limits, s.pending, s.totals)
        case Stop(_) =>
        case Go(next, q, u) => DrainInTwo(Running(b[BLOCK..], next, q, u), chunk, number, limits);
      }
  }

  lemma CutFirst(b: seq<Byte>, n: nat, chunk: seq<Byte>)
    requires n <= |b|
    ensures (b + chunk)[..n] == b[..n] && (b + chunk)[n..] == b[n..] + chunk
  {
  }

  lemma RestIsShort(n: nat)
    ensures Weight(Rest(n)) < 2
  {
  }

  lemma {:induction false} FeedTwice(s: Scanner, a: seq<Byte>, b: seq<Byte>, number: NumberReader, limits: Limits)
    ensures Feed(Feed(s, a, number, limits), b, number, limits) == Feed(s, a + b, number, limits)
  {
    hide Drain;
    if s.Running? {
      DrainInTwo(s.(buffer := s.buffer + a), b, number, limits);
      assert s.buffer + a + b == s.buffer + (a + b);
    }
  }

  lemma {:induction false} FeedAllFlattens(s: Scanner, chunks: seq<seq<Byte>>, number: NumberReader, limits: Limits)
    requires chunks != []
    ensures FeedAll(s, chunks, number, limits) == Feed(s, Flatten(chunks), number, limits)
    decreases |chunks|
  {
    hide Feed;
    if |chunks| == 1 {
      assert chunks[0] + [] == chunks[0];
      assert Flatten(chunks[1..]) == [];
    } else {
      FeedAllFlattens(Feed(s, chunks[0], number, limits), chunks[1..], number, limits);
      FeedTwice(s, chunks[0], Flatten(chunks[1..]), number, limits);
    }
  }

  // --- The one-shot parse.

  function Drop(b: seq<Byte>, n: nat): seq<Byte> {
    if n <= |b| then b[n..] else []
  }

  /** Parses the whole archive from its bytes at hand; `p` is what the extended headers directly
      before the next entry said. */
  function OneShot(b: seq<Byte>, number: NumberReader, limits: Limits, p: Pending, t: Totals): Verdict
    decreases |b|
  {
    if |b| < BLOCK then Bad(Ended)
    else
      match HeaderBlock(b[..BLOCK], number, limits, p, t)
      case Stop(verdict) => verdict
      case Go(mode, q, u) =>
        match mode
        case AtHeader => OneShot(b[BLOCK..], number, limits, q, u)
        case Skipping(n) => OneShot(Drop(b, BLOCK + n), number, limits, q, u)
        case Collecting(kind, size, data, pad) =>
          if |b| < BLOCK + size then Bad(Ended)
          else
            match Extension(kind, data + b[BLOCK..BLOCK+size], q)
            case Refuses(reason) => Bad(reason)
            case Announces(r) => OneShot(Drop(b, BLOCK + size + pad), number, limits, r, u)
  }

  lemma DrainRest(b: seq<Byte>, n: nat, p: Pending, t: Totals, number: NumberReader, limits: Limits)
    ensures End(Drain(Running(b, Rest(n), p, t), number, limits)) == End(Drain(Running(Drop(b, n), AtHeader, p, t), number, limits))
  {
    if n == 0 {
      assert b[0..] == b;
    }
  }

  lemma {:induction false} DrainIsOneShot(b: seq<Byte>, number: NumberReader, limits: Limits, p: Pending, t: Totals)
    ensures End(Drain(Running(b, AtHeader, p, t), number, limits)) == OneShot(b, number, limits, p, t)
    decreases |b|
  {
    hide HeaderBlock, Extension;
    if |b| >= BLOCK {
      var out := HeaderBlock(b[..BLOCK], number, limits, p, t);
      if out.Go? {
        var rest := b[BLOCK..];
        match out.mode
        case AtHeader => DrainIsOneShot(rest, number, limits, out.pending, out.totals);
        case Skipping(n) =>
          DrainIsOneShot(Drop(b, BLOCK + n), number, limits, out.pending, out.totals);
          assert n <= |rest| ==> rest[n..] == b[BLOCK+n..];
        case Collecting(kind, size, data, pad) =>
          if |b| >= BLOCK + size {
            assert rest[..size] == b[BLOCK..BLOCK+size];
            match Extension(kind, data + rest[..size], out.pending)
            case Refuses(_) =>
            case Announces(q) =>
              DrainRest(rest[size..], pad, q, out.totals, number, limits);
              assert Drop(rest[size..], pad) == Drop(b, BLOCK + size + pad);
              DrainIsOneShot(Drop(b, BLOCK + size + pad), number, limits, q, out.totals);
          }
      }
    }
  }

  /** However the decompressed bytes were cut into chunks, the verdict, with its entry count and
      byte total, is that of the one-shot parse of their concatenation. */
  lemma ChunksDoNotMatter(chunks: seq<seq<Byte>>, number: NumberReader, limits: Limits)
    ensures End(FeedAll(NEW, chunks, number, limits)) == OneShot(Flatten(chunks), number, limits, NONE_PENDING, NO_TOTALS)
  {
    if chunks != [] {
      FeedAllFlattens(NEW, chunks, number, limits);
      assert [] + Flatten(chunks) == Flatten(chunks);
      DrainIsOneShot(Flatten(chunks), number, limits, NONE_PENDING, NO_TOTALS);
    }
  }

  // --- What an accepted archive is.

  predicate NoParents(seen: seq<seq<Text>>) {
    forall i, k :: 0 <= i < |seen| && 0 <= k < |seen[i]| ==> seen[i][k] != DOT_DOT
  }

  predicate Sound(t: Totals, limits: Limits) {
    && |t.seen| == t.entries <= limits.maxEntries && t.totalBytes <= limits.maxTotalBytes && NoParents(t.seen)
    && forall i :: 0 <= i < |t.links| ==> t.links[i].segments in t.seen
  }

  lemma EntryKeepsSound(h: seq<Byte>, number: NumberReader, limits: Limits, p: Pending, t: Totals)
    requires |h| == BLOCK && Sound(t, limits) && Entry(h, number, limits, p, t).Go?
    ensures var out := Entry(h, number, limits, p, t);
      Sound(out.totals, limits) && out.pending == NONE_PENDING
  {
    hide Segments, Field;
    var u := Entry(h, number, limits, p, t).totals;
    var name := if p.path.Some? then p.path.value else HeaderName(h);
    assert forall k :: 0 <= k < |Segments(name)| ==> Segments(name)[k] != DOT_DOT;
    assert u.seen[|t.seen|] == Segments(name);
    assert forall i :: 0 <= i < |t.links| ==> t.links[i].segments in u.seen;
  }

  lemma BlockKeepsSound(h: seq<Byte>, number: NumberReader, limits: Limits, p: Pending, t: Totals)
    requires |h| == BLOCK && Sound(t, limits)
    ensures var out := HeaderBlock(h, number, limits, p, t);
      && (out.Go? ==> Sound(out.totals, limits))
      && (out.Stop? && out.verdict.Fine? ==>
            && out.verdict.totals == t.(zeroBlocks := t.zeroBlocks + 1)
            && Sound(out.verdict.totals, limits) && Accepted(t.seen, t.links))
  {
    hide Accepted, Entry, ChecksumOk, Sound;
    var u := t.(zeroBlocks := 0);
    SoundIgnoresZeros(t, 0, limits);
    SoundIgnoresZeros(t, t.zeroBlocks + 1, limits);
    EntryNeverAccepts(h, number, limits, p, u);
    if Entry(h, number, limits, p, u).Go? {
      EntryKeepsSound(h, number, limits, p, u);
    }
  }

  lemma EntryNeverAccepts(h: seq<Byte>, number: NumberReader, limits: Limits, p: Pending, t: Totals)
    requires |h| == BLOCK
    ensures var out := Entry(h, number, limits, p, t); out.Stop? ==> out.verdict.Bad?
  {
    hide Segments, Field;
  }

  lemma SoundIgnoresZeros(t: Totals, zeros: nat, limits: Limits)
    requires Sound(t, limits)
    ensures Sound(t.(zeroBlocks := zeros), limits)
  {
  }

  /** When the scan accepts an archive, its entries and links pass the cross check, none of its
      names has a parent segment, it counted every entry, and both limits were kept. */
  lemma {:induction false} AcceptedArchive(b: seq<Byte>, number: NumberReader, limits: Limits, p: Pending, t: Totals)
    requires Sound(t, limits) && OneShot(b, number, limits, p, t).Fine?
    ensures var u := OneShot(b, number, limits, p, t).totals;
      Sound(u, limits) && Accepted(u.seen, u.links)
    decreases |b|
  {
    hide HeaderBlock, Extension, Sound, Accepted;
    BlockKeepsSound(b[..BLOCK], number, limits, p, t);
    var out := HeaderBlock(b[..BLOCK], number, limits, p, t);
    if out.Go? {
      match out.mode
      case AtHeader => AcceptedArchive(b[BLOCK..], number, limits, out.pending, out.totals);
      case Skipping(n) => AcceptedArchive(Drop(b, BLOCK + n), number, limits, out.pending, out.totals);
      case Collecting(kind, size, data, pad) =>
        var ext := Extension(kind, data + b[BLOCK..BLOCK+size], out.pending);
        AcceptedArchive(Drop(b, BLOCK + size + pad), number, limits, ext.pending, out.totals);
    }
  }

  /** So an accepted archive is safe to extract in any order: whatever the chunks were, no walk to an
      entry and no chain of its links ever leaves the bundle. */
  lemma AcceptedArchiveIsContained(chunks: seq<seq<Byte>>, number: NumberReader, limits: Limits, ws: seq<Walker>, n: nat, i: nat)
    requires End(FeedAll(NEW, chunks, number, limits)).Fine?
    requires var t := End(FeedAll(NEW, chunks, number, limits)).totals;
      && Journey(t.links, ws) && n < |ws|
      && (|| (i < |t.seen| && ws[0] == Walker([], t.seen[i]))
          || (i < |t.links| && ws[0] == Walker(Start(t.links[i]), Segments(t.links[i].target))))
    ensures !Escapes(ws[n])
  {
    hide OneShot, FeedAll, Accepted, Segments, Start, Escapes;
    ChunksDoNotMatter(chunks, number, limits);
    AcceptedArchive(Flatten(chunks), number, limits, NONE_PENDING, NO_TOTALS);
    var t := End(FeedAll(NEW, chunks, number, limits)).totals;
    if i < |t.seen| && ws[0] == Walker([], t.seen[i]) {
      EntriesNeverEscape(t.seen, t.links, i, ws, n);
    } else {
      LinksNeverEscape(t.seen, t.links, i, ws, n);
    }
  }

  // --- The scanner object.

  datatype Collect = Collect(kind: Byte, remaining: nat, data: seq<Byte>, pad: nat)

  class ArchiveScanner {
    const number: NumberReader
    const limits: Limits
    var buffer: seq<Byte>
    var skip: nat
    var collect: Option<Collect>
    var pending: Pending
    var entries: nat
    var totalBytes: nat
    var zeroBlocks: nat
    var symlinks: set<Text>
    var seen: seq<seq<Text>>
    var links: seq<Link>
    var verdict: Option<Verdict>

    /** The scanner's own set of symlinks is that of its links, and it waits for one thing at a time. */
    ghost predicate Valid()
      reads this
    {
      symlinks == Symlinks(links) && (skip > 0 ==> collect.None?)
    }

    ghost function Counted(): Totals
      reads this
    {
      Totals(entries, totalBytes, zeroBlocks, seen, links)
    }

    ghost function Waiting(): Mode
      reads this
    {
      if collect.Some? then Collecting(collect.value.kind, collect.value.remaining, collect.value.data, collect.value.pad)
      else Rest(skip)
    }

    /** The state of the machine this object is in. */
    ghost function State(): Scanner
      reads this
    {
      if verdict.Some? then Settled(verdict.value) else Running(buffer, Waiting(), pending, Counted())
    }

    constructor (number: NumberReader, limits: Limits)
      ensures Valid() && State() == NEW && this.number == number && this.limits == limits
    {
      this.number, this.limits := number, limits;
      buffer, skip, collect, pending := [], 0, None, NONE_PENDING;
      entries, totalBytes, zeroBlocks := 0, 0, 0;
      symlinks, seen, links, verdict := {}, [], [], None;
    }

    /** The object is where the outcome of a block says. */
    ghost predicate Reached(out: Outcome)
      reads this
    {
      match out
      case Stop(v) => verdict == Some(v)
      case Go(mode, q, u) => verdict.None? && Waiting() == mode && pending == q && Counted() == u
    }

    method AddEntry(kind: Byte, name: Text, link: Text)
      requires Valid() && IsKnown(kind)
      modifies `seen, `symlinks, `links
      ensures Valid() && seen == old(seen) + [Segments(name)]
      ensures links == if kind == 49 || kind == 50 then old(links) + [Link(kind == 50, Segments(name), link)] else old(links)
    {
      hide Segments, Join;
      var segments := Segments(name);
      seen := seen + [segments];
      if kind == 50 {
        symlinks := symlinks + {Join(segments)};
      }
      if kind == 49 || kind == 50 {
        ghost var before := links;
        var l := Link(kind == 50, segments, link);
        links := links + [l];
        SymlinksGrow(before, l);
      }
    }

    method TakeEntry(h: seq<Byte>)
      requires |h| == BLOCK && Valid() && verdict.None? && skip == 0 && collect.None?
      modifies this
      ensures Valid() && buffer == old(buffer)
      ensures Reached(Entry(h, number, limits, old(pending), old(Counted())))
    {
      hide Field, Symlinks, DecimalValue, HeaderName, HeaderKind, Placed;
      var kind, size := HeaderKind(h), number(h[124..136]);
      if pending.size.Some? && !IsFile(kind) {
        verdict := Some(Bad(PaxSizeOnNonFile));
        return;
      }
      if pending.size.Some? {
        if !IsDecimal(pending.size.value) {
          verdict := Some(Bad(MalformedSize));
          return;
        }
        size := DecimalValue(pending.size.value);
      }
      var name := if pending.path.Some? then pending.path.value else HeaderName(h);
      var link := if pending.linkpath.Some? then pending.linkpath.value else Field(h[157..257]);
      PlaceEntry(kind, name, link, size);
    }

    method PlaceEntry(kind: Byte, name: Text, link: Text, size: nat)
      requires Valid() && verdict.None? && skip == 0 && collect.None?
      modifies this
      ensures Valid() && buffer == old(buffer)
      ensures Reached(Placed(kind, name, link, size, limits, old(Counted())))
    {
      hide Segments, Symlinks, Join, IsKnown, NameOk, PadOf;
      pending := NONE_PENDING;
      entries := entries + 1;
      if entries > limits.maxEntries {
        verdict := Some(Bad(TooManyEntries));
        return;
      }
      if !NameOk(name) {
        verdict := Some(Bad(BadName));
        return;
      }
      if !IsKnown(kind) {
        verdict := Some(Bad(UnsupportedType));
        return;
      }
      AddEntry(kind, name, link);
      if IsFile(kind) {
        totalBytes := totalBytes + size;
        if totalBytes > limits.maxTotalBytes {
          verdict := Some(Bad(TooManyBytes));
          return;
        }
      }
      skip := if IsFile(kind) then size + PadOf(size) else 0;
    }

    method TakeHeader(h: seq<Byte>)
      requires |h| == BLOCK && Valid() && verdict.None? && skip == 0 && collect.None?
      modifies this
      ensures Valid() && buffer == old(buffer)
      ensures Reached(HeaderBlock(h, number, limits, old(pending), old(Counted())))
    {
      hide Entry, ChecksumOk, Accepted, Symlinks;
      if IsZero(h) {
        zeroBlocks := zeroBlocks + 1;
        if zeroBlocks >= 2 {
          var fine := CrossCheck(seen, links, symlinks);
          verdict := Some(if fine then Fine(Totals(entries, totalBytes, zeroBlocks, seen, links)) else Bad(UnsafeLinks));
        }
        return;
      }
      zeroBlocks := 0;
      var fine := CheckChecksum(h, number);
      if !fine {
        verdict := Some(Bad(CorruptHeader));
        return;
      }
      var kind, size := HeaderKind(h), number(h[124..136]);
      if kind == 103 {
        verdict := Some(Bad(GlobalHeader));
      } else if IsExtension(kind) {
        if size > 1024 * 1024 {
          verdict := Some(Bad(OversizedHeader));
        } else {
          collect := Some(Collect(kind, size, [], PadOf(size)));
        }
      } else {
        TakeEntry(h);
      }
    }

    /** An extended header whose bytes are all there. */
    method TakeExtension(kind: Byte, data: seq<Byte>)
      requires verdict.None?
      modifies `pending, `verdict
      ensures match Extension(kind, data, old(pending))
        case Refuses(reason) => verdict == Some(Bad(reason))
        case Announces(q) => verdict.None? && pending == q
    {
      hide Pax, PaxKeys, Ascii, Field;
      if kind == 76 {
        pending := pending.(path := Some(Field(data)));
      } else if kind == 75 {
        pending := pending.(linkpath := Some(Field(data)));
      } else {
        var records := ParsePax(data);
        if records.None? {
          verdict := Some(Bad(MalformedPax));
          return;
        }
        if !(records.value.Keys <= PaxKeys()) {
          verdict := Some(Bad(UnsupportedKeyword));
          return;
        }
        if Ascii("path") in records.value {
          pending := pending.(path := Some(records.value[Ascii("path")]));
        }
        if Ascii("linkpath") in records.value {
          pending := pending.(linkpath := Some(records.value[Ascii("linkpath")]));
        }
        if Ascii("size") in records.value {
          pending := pending.(size := Some(records.value[Ascii("size")]));
        }
      }
    }

    /** The next bytes of an extended header. */
    method TakeCollected() returns (waits: bool)
      requires Valid() && verdict.None? && collect.Some?
      modifies `buffer, `skip, `collect, `pending, `verdict
      ensures Valid()
      ensures waits ==> State() == Drain(old(State()), number, limits)
      ensures !waits ==> |buffer| <= |old(buffer)| && collect.None? && Drain(State(), number, limits) == Drain(old(State()), number, limits)
    {
      hide HeaderBlock, Extension, Symlinks;
      var c := collect.value;
      var n := if c.remaining < |buffer| then c.remaining else |buffer|;
      var data, rest := c.data + buffer[..n], buffer[n..];
      assert n == |buffer| ==> buffer[..n] == buffer && rest == [];
      buffer := rest;
      if c.remaining > n {
        collect := Some(c.(remaining := c.remaining - n, data := data));
        return true;
      }
      TakeExtension(c.kind, data);
      skip := c.pad;
      collect := None;
      return false;
    }

    /** One chunk, worked off in place. */
    method Write(chunk: seq<Byte>)
      requires Valid()
      modifies this
      ensures Valid() && State() == Feed(old(State()), chunk, number, limits)
    {
      hide HeaderBlock, Extension, Symlinks;
      if verdict.Some? {
        return;
      }
      buffer := buffer + chunk;
      while verdict.None?
        invariant Valid()
        invariant Drain(State(), number, limits) == Feed(old(State()), chunk, number, limits)
        decreases verdict.None?, |buffer|, Weight(Waiting())
      {
        if skip > 0 {
          var n := if skip < |buffer| then skip else |buffer|;
          skip := skip - n;
          buffer := buffer[n..];
          if skip > 0 {
            return;
          }
        } else if collect.Some? {
          var waits := TakeCollected();
          if waits {
            return;
          }
        } else {
          if |buffer| < BLOCK {
            return;
          }
          var header := buffer[..BLOCK];
          buffer := buffer[BLOCK..];
          TakeHeader(header);
        }
      }
    }

    /** The end of the stream. */
    method Finish() returns (v: Verdict)
      modifies `verdict
      ensures v == End(old(State())) && verdict == Some(v)
    {
      if verdict.None? {
        verdict := Some(Bad(Ended));
      }
      v := verdict.value;
    }
  }

  lemma SymlinksGrow(links: seq<Link>, l: Link)
    ensures Symlinks(links + [l]) == Symlinks(links) + if l.symbolic then {Join(l.segments)} else {}
  {
    hide Join;
    var more := links + [l];
    forall t | t in Symlinks(links) ensures t in Symlinks(more) {
      var i :| 0 <= i < |links| && links[i].symbolic && Join(links[i].segments) == t;
      assert more[i] == links[i];
    }
    assert more[|links|] == l;
  }

  /** Scans a whole stream, chunk by chunk; a settled scanner is fed no more. */
  method ScanArchive(chunks: seq<seq<Byte>>, number: NumberReader, limits: Limits) returns (v: Verdict)
    ensures v == OneShot(Flatten(chunks), number, limits, NONE_PENDING, NO_TOTALS)
  {
    hide Feed, End, OneShot;
    var scanner := new ArchiveScanner(number, limits);
    ghost var fed := NEW;
    var i := 0;
    while i < |chunks|
      invariant 0 <= i <= |chunks| && scanner.Valid() && fresh(scanner)
      invariant scanner.number == number && scanner.limits == limits
      invariant FeedAll(NEW, chunks, number, limits) == FeedAll(scanner.State(), chunks[i..], number, limits)
    {
      assert chunks[i..][1..] == chunks[i+1..];
      scanner.Write(chunks[i]);
      i := i + 1;
    }
    ChunksDoNotMatter(chunks, number, limits);
    v := scanner.Finish();
  }
}
