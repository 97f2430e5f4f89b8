/** What an archive declares, read off its members, and that the scan accepts exactly the archives
    whose declarations are lawful, with their declared totals. */
module ArchiveMeaning {
  import opened Options
  import opened Bytes
  import Sequences
  import opened ArchiveLinks
  import opened PaxRecords
  import opened ArchiveScan
  import opened ArchiveFormat

  const PATH: Text := [112, 97, 116, 104]
  const LINKPATH: Text := [108, 105, 110, 107, 112, 97, 116, 104]
  const SIZE: Text := [115, 105, 122, 101]

  // --- What extended headers say.

  /** The value of the last record of that key. */
  function LastOf(rs: seq<Record>, key: Text): Option<Text> {
    if rs == [] then None
    else if rs[|rs|-1].key == key then Some(rs[|rs|-1].value)
    else LastOf(rs[..|rs|-1], key)
  }

  /** A long name (type L) gives a path, a long link (type K) a link path, and a pax header (type x)
      the last record of each key. */
  function Says(x: Extra, key: Text): Option<Text>
    requires |x.header.block| == 512
  {
    if x.header.block[156] == 76 then (if key == PATH then Some(Field(x.data)) else None)
    else if x.header.block[156] == 75 then (if key == LINKPATH then Some(Field(x.data)) else None)
    else if Records(x.data).Some? then LastOf(Records(x.data).value, key)
    else None
  }

  predicate Blocks(xs: seq<Extra>) {
    forall i :: 0 <= i < |xs| ==> |xs[i].header.block| == 512
  }

  /** What the last of the headers to mention it says. */
  function Said(xs: seq<Extra>, key: Text): Option<Text>
    requires Blocks(xs)
  {
    if xs == [] then None
    else
      var later := Said(xs[1..], key);
      if later.Some? then later else Says(xs[0], key)
  }

  predicate AllowedKey(key: Text) {
    key == PROTO || key in {
      PATH, LINKPATH, SIZE,
      [109, 116, 105, 109, 101], [97, 116, 105, 109, 101], [99, 116, 105, 109, 101],
      [117, 105, 100], [103, 105, 100], [117, 110, 97, 109, 101], [103, 110, 97, 109, 101]}
  }

  /** A pax header must parse, and may use only the keys known to the scan. */
  predicate Readable(x: Extra)
    requires |x.header.block| == 512
  {
    x.header.block[156] == 120 ==>
      && Records(x.data).Some?
      && forall i :: 0 <= i < |Records(x.data).value| ==> AllowedKey(Records(x.data).value[i].key)
  }

  /** A checked header block of type L, K or x, at most a mebibyte of data, padded to whole blocks. */
  predicate LawfulExtra(x: Extra, number: NumberReader) {
    && HeaderOk(x.header, number) && x.header.block[156] in {76, 75, 120}
    && |x.data| == number(x.header.block[124..136]) <= 1048576
    && |x.pad| < 512 && (|x.data| + |x.pad|) % 512 == 0
    && Readable(x)
  }

  // --- What a member declares.

  function OrElse(said: Option<Text>, otherwise: Text): Text {
    if said.Some? then said.value else otherwise
  }

  predicate HasBlocks(m: Member) {
    |m.header.block| == 512 && Blocks(m.extras)
  }

  /** Its own extended headers' path, or the prefix and name of its header. */
  function Name(m: Member): Text
    requires HasBlocks(m)
  {
    var prefix, name := Field(m.header.block[345..500]), Field(m.header.block[0..100]);
    OrElse(Said(m.extras, PATH), if prefix == [] then name else prefix + [47] + name)
  }

  function Target(m: Member): Text
    requires HasBlocks(m)
  {
    OrElse(Said(m.extras, LINKPATH), Field(m.header.block[157..257]))
  }

  predicate DeclaresFile(m: Member)
    requires HasBlocks(m)
  {
    m.header.block[156] in {0, 48, 55}
  }

  predicate DeclaresLink(m: Member)
    requires HasBlocks(m)
  {
    m.header.block[156] in {49, 50}
  }

  /** The bytes of a file: the pax size, or the size of its header. Everything else has none. */
  function Size(m: Member, number: NumberReader): nat
    requires HasBlocks(m)
  {
    var said := Said(m.extras, SIZE);
    if !DeclaresFile(m) then 0
    else if said.Some? && IsDecimal(said.value) then DecimalValue(said.value)
    else number(m.header.block[124..136])
  }

  function LinkOf(m: Member): Link
    requires HasBlocks(m)
  {
    Link(m.header.block[156] == 50, Segments(Name(m)), Target(m))
  }

  /** Files, directories and links only; no absolute name and none with a parent segment; a pax size
      only on a file, and decimal; exactly the content it announces, padded to whole blocks. */
  predicate LawfulMember(m: Member, number: NumberReader) {
    && HeaderOk(m.header, number) && (forall i :: 0 <= i < |m.extras| ==> LawfulExtra(m.extras[i], number))
    && m.header.block[156] in {0, 48, 55, 53, 49, 50}
    && (Said(m.extras, SIZE).Some? ==> DeclaresFile(m) && IsDecimal(Said(m.extras, SIZE).value))
    && (Name(m) == [] || Name(m)[0] != 47) && [46, 46] !in Segments(Name(m))
    && Size(m, number) <= |m.content| < Size(m, number) + 512 && |m.content| % 512 == 0
  }

  // --- What the members declare together.

  predicate AllBlocks(ms: seq<Member>) {
    forall i :: 0 <= i < |ms| ==> HasBlocks(ms[i])
  }

  function Names(ms: seq<Member>): seq<seq<Text>>
    requires AllBlocks(ms)
  {
    seq(|ms|, i requires 0 <= i < |ms| => Segments(Name(ms[i])))
  }

  function LinksOf(ms: seq<Member>): seq<Link>
    requires AllBlocks(ms)
  {
    if ms == [] then []
    else (if DeclaresLink(ms[0]) then [LinkOf(ms[0])] else []) + LinksOf(ms[1..])
  }

  function BytesOf(ms: seq<Member>, number: NumberReader): nat
    requires AllBlocks(ms)
  {
    if ms == [] then 0 else Size(ms[0], number) + BytesOf(ms[1..], number)
  }

  predicate LawfulMembers(ms: seq<Member>, number: NumberReader) {
    forall i :: 0 <= i < |ms| ==> LawfulMember(ms[i], number)
  }

  predicate LawfulExtras(xs: seq<Extra>, number: NumberReader) {
    forall i :: 0 <= i < |xs| ==> LawfulExtra(xs[i], number)
  }

  /** `a` is lawful and declares exactly the totals `u`. */
  predicate Declares(a: Archive, number: NumberReader, limits: Limits, u: Totals) {
    && LawfulMembers(a.members, number) && LawfulExtras(a.trailing, number)
    && AllBlocks(a.members)
    && u.entries == |a.members| <= limits.maxEntries
    && u.totalBytes == BytesOf(a.members, number) <= limits.maxTotalBytes
    && u.seen == Names(a.members) && u.links == LinksOf(a.members) && u.zeroBlocks == 2
    && Accepted(u.seen, u.links)
  }

  // --- One extended header.

  lemma KeysAre()
    ensures Ascii("path") == PATH && Ascii("linkpath") == LINKPATH && Ascii("size") == SIZE
    ensures forall key :: key in PaxKeys() || key == PROTO <==> AllowedKey(key)
  {
    assert Ascii("path") == PATH;
    assert Ascii("linkpath") == LINKPATH;
    assert Ascii("size") == SIZE;
    assert Ascii("mtime") == [109, 116, 105, 109, 101];
    assert Ascii("atime") == [97, 116, 105, 109, 101];
    assert Ascii("ctime") == [99, 116, 105, 109, 101];
    assert Ascii("uid") == [117, 105, 100];
    assert Ascii("gid") == [103, 105, 100];
    assert Ascii("uname") == [117, 110, 97, 109, 101];
    assert Ascii("gname") == [103, 110, 97, 109, 101];
  }

  lemma {:induction false} StoredIs(rs: seq<Record>, key: Text)
    ensures key in Stored(rs) <==> key != PROTO && LastOf(rs, key).Some?
    ensures key in Stored(rs) ==> LastOf(rs, key) == Some(Stored(rs)[key])
  {
    hide PROTO;
    if rs != [] {
      StoredIs(rs[..|rs|-1], key);
    }
  }

  lemma {:induction false} LastOfExactly(rs: seq<Record>, key: Text)
    ensures LastOf(rs, key).Some? <==> exists i :: 0 <= i < |rs| && rs[i].key == key
    ensures LastOf(rs, key).Some? ==> exists i ::
              && 0 <= i < |rs| && rs[i].key == key && rs[i].value == LastOf(rs, key).value
              && forall k :: i < k < |rs| ==> rs[k].key != key
  {
    if rs != [] && rs[|rs|-1].key != key {
      LastOfExactly(rs[..|rs|-1], key);
      assert forall i :: 0 <= i < |rs| - 1 ==> rs[..|rs|-1][i] == rs[i];
    }
  }

  lemma StoredKeys(rs: seq<Record>)
    ensures Stored(rs).Keys <= PaxKeys() <==> forall i :: 0 <= i < |rs| ==> AllowedKey(rs[i].key)
  {
    hide PaxKeys, PROTO, AllowedKey, Stored;
    KeysAre();
    forall i | 0 <= i < |rs|
      ensures rs[i].key == PROTO || rs[i].key in Stored(rs)
    {
      StoredIs(rs, rs[i].key);
      LastOfExactly(rs, rs[i].key);
    }
    forall key | key in Stored(rs)
      ensures key != PROTO && exists i :: 0 <= i < |rs| && rs[i].key == key
    {
      StoredIs(rs, key);
      LastOfExactly(rs, key);
    }
    assert AllowedKey(PROTO);
  }

  function Over(said: Option<Text>, before: Option<Text>): Option<Text> {
    if said.Some? then said else before
  }

  /** What is pending once a header, or a list of them, has spoken. */
  function Spoken(path: Option<Text>, linkpath: Option<Text>, size: Option<Text>, p: Pending): Pending {
    Pending(Over(path, p.path), Over(linkpath, p.linkpath), Over(size, p.size))
  }

  lemma KeysDiffer()
    ensures PATH != LINKPATH && PATH != SIZE && LINKPATH != SIZE
    ensures PATH != PROTO && LINKPATH != PROTO && SIZE != PROTO
  {
    assert |PATH| == 4 && |LINKPATH| == 8 && |SIZE| == 4 && |PROTO| == 9 && PATH[0] != SIZE[0];
  }

  lemma ExtensionExactly(x: Extra, p: Pending)
    requires |x.header.block| == 512 && x.header.block[156] in {76, 75, 120}
    ensures Extension(HeaderKind(x.header.block), x.data, p)
         == Announces(Spoken(Says(x, PATH), Says(x, LINKPATH), Says(x, SIZE), p))
         || Extension(HeaderKind(x.header.block), x.data, p).Refuses?
    ensures Extension(HeaderKind(x.header.block), x.data, p).Announces? <==> Readable(x)
  {
    hide PaxKeys, Ascii, AllowedKey, Field, PATH, LINKPATH, SIZE, PROTO, Records;
    KeysAre();
    KeysDiffer();
    if x.header.block[156] == 120 && Records(x.data).Some? {
      var rs := Records(x.data).value;
      StoredKeys(rs);
      StoredIs(rs, PATH);
      StoredIs(rs, LINKPATH);
      StoredIs(rs, SIZE);
    }
  }

  lemma LawfulExtraIs(x: Extra, number: NumberReader)
    ensures LawfulExtra(x, number) <==> ExtraOk(x, number) && Readable(x)
  {
    hide ChecksumOk, Records, AllowedKey, IsZero;
    if HeaderOk(x.header, number) {
      PaddedIs(|x.data|, |x.data| + |x.pad|);
    }
  }

  lemma PaddedIs(size: nat, n: nat)
    ensures n == size + PadOf(size) <==> size <= n < size + 512 && n % 512 == 0
  {
  }

  lemma {:induction false} AnnouncedExactly(xs: seq<Extra>, p: Pending, number: NumberReader)
    requires ExtrasOk(xs, number)
    ensures Blocks(xs)
    ensures Announced(xs, p).Announces? <==> LawfulExtras(xs, number)
    ensures Announced(xs, p).Announces? ==>
              Announced(xs, p).pending == Spoken(Said(xs, PATH), Said(xs, LINKPATH), Said(xs, SIZE), p)
    decreases |xs|
  {
    hide Extension, LawfulExtra, Readable, Says, PATH, LINKPATH, SIZE;
    assert forall i :: 0 <= i < |xs| ==> ExtraOk(xs[i], number);
    if xs != [] {
      ExtensionExactly(xs[0], p);
      LawfulExtraIs(xs[0], number);
      var ext := Extension(HeaderKind(xs[0].header.block), xs[0].data, p);
      if ext.Announces? {
        AnnouncedExactly(xs[1..], ext.pending, number);
        assert forall i :: 1 <= i < |xs| ==> xs[1..][i-1] == xs[i];
      }
    }
  }

  // --- One member.

  /** The totals after `m`. */
  function After(m: Member, t: Totals, number: NumberReader): Totals
    requires HasBlocks(m)
  {
    Totals(t.entries + 1, t.totalBytes + Size(m, number), t.zeroBlocks, t.seen + [Segments(Name(m))],
           t.links + if DeclaresLink(m) then [LinkOf(m)] else [])
  }

  predicate WellFormedMember(m: Member, number: NumberReader) {
    ExtrasOk(m.extras, number) && IsEntry(m.header, number)
  }

  lemma WellFormedHasBlocks(m: Member, number: NumberReader)
    requires WellFormedMember(m, number)
    ensures HasBlocks(m)
  {
    hide ChecksumOk, IsZero;
    forall i | 0 <= i < |m.extras| ensures |m.extras[i].header.block| == 512 {
      assert ExtraOk(m.extras[i], number);
    }
  }

  /** What `m` declares is allowed, its bytes aside. */
  predicate Allowed(m: Member)
    requires HasBlocks(m)
  {
    && m.header.block[156] in {0, 48, 55, 53, 49, 50}
    && (Said(m.extras, SIZE).Some? ==> DeclaresFile(m) && IsDecimal(Said(m.extras, SIZE).value))
    && (Name(m) == [] || Name(m)[0] != 47) && [46, 46] !in Segments(Name(m))
  }

  predicate Room(m: Member, t: Totals, number: NumberReader, limits: Limits)
    requires HasBlocks(m)
  {
    t.entries + 1 <= limits.maxEntries && t.totalBytes + Size(m, number) <= limits.maxTotalBytes
  }

  lemma EntryExactly(m: Member, t: Totals, number: NumberReader, limits: Limits)
    requires HasBlocks(m) && t.totalBytes <= limits.maxTotalBytes
    requires HeaderKind(m.header.block) != 103 && !IsExtension(HeaderKind(m.header.block))
    ensures var p := Spoken(Said(m.extras, PATH), Said(m.extras, LINKPATH), Said(m.extras, SIZE), NONE_PENDING);
      var out := Entry(m.header.block, number, limits, p, t);
      && (out.Go? <==> Allowed(m) && Room(m, t, number, limits))
      && (out.Go? ==> Content(out.mode) == Size(m, number) + PadOf(Size(m, number)) && out.totals == After(m, t, number))
  {
    hide Segments, Field, DecimalValue, IsDecimal, Said, PATH, LINKPATH, SIZE;
    assert m.header.block[0..100] == m.header.block[..100];
    assert t.links + [] == t.links;
  }

  lemma MemberExactly(m: Member, t: Totals, number: NumberReader, limits: Limits)
    requires WellFormedMember(m, number) && t.totalBytes <= limits.maxTotalBytes
    ensures HasBlocks(m)
    ensures var out := Counts(m, NONE_PENDING, t, number, limits);
      && (out.Go? && |m.content| == Content(out.mode) <==> LawfulMember(m, number) && Room(m, t, number, limits))
      && (out.Go? ==> out.totals == After(m, t, number))
  {
    hide Entry, HeaderOk, ExtrasOk, LawfulExtra, Announced, PadOf, Said, Name, Size, Segments, PATH, LINKPATH, SIZE;
    WellFormedHasBlocks(m, number);
    AnnouncedExactly(m.extras, NONE_PENDING, number);
    EntryExactly(m, t, number, limits);
    PaddedIs(Size(m, number), |m.content|);
  }

  lemma LawfulIsWellFormed(m: Member, number: NumberReader)
    requires LawfulMember(m, number)
    ensures WellFormedMember(m, number)
  {
    hide HeaderOk, LawfulExtra, Name, Size, Segments, Said;
    forall i | 0 <= i < |m.extras| ensures ExtraOk(m.extras[i], number) {
      LawfulExtraIs(m.extras[i], number);
    }
  }

  // --- All members.

  predicate Declared(ms: seq<Member>, trailing: seq<Extra>, t: Totals, u: Totals, number: NumberReader, limits: Limits) {
    && LawfulMembers(ms, number) && LawfulExtras(trailing, number) && AllBlocks(ms)
    && t.entries + |ms| <= limits.maxEntries && t.totalBytes + BytesOf(ms, number) <= limits.maxTotalBytes
    && u == Totals(t.entries + |ms|, t.totalBytes + BytesOf(ms, number), 2, t.seen + Names(ms), t.links + LinksOf(ms))
    && Accepted(u.seen, u.links)
  }

  lemma DeclaredNone(trailing: seq<Extra>, t: Totals, u: Totals, number: NumberReader, limits: Limits)
    requires ExtrasOk(trailing, number) && t.entries <= limits.maxEntries && t.totalBytes <= limits.maxTotalBytes
    ensures Fold([], trailing, NONE_PENDING, t, number, limits) == Fine(u) <==> Declared([], trailing, t, u, number, limits)
  {
    hide ExtrasOk, LawfulExtra, Announced, Accepted;
    AnnouncedExactly(trailing, NONE_PENDING, number);
    assert Names([]) == [];
    assert t.seen + [] == t.seen && t.links + [] == t.links;
  }

  lemma TotalsOfFirst(ms: seq<Member>, t: Totals, number: NumberReader)
    requires ms != [] && AllBlocks(ms)
    ensures AllBlocks(ms[1..])
    ensures var more, v := ms[1..], After(ms[0], t, number);
      && t.seen + Names(ms) == v.seen + Names(more) && t.links + LinksOf(ms) == v.links + LinksOf(more)
      && BytesOf(ms, number) == Size(ms[0], number) + BytesOf(more, number)
  {
    hide Name, Size, Segments, HasBlocks, DeclaresLink, LinkOf;
    var more := ms[1..];
    assert Names(ms) == [Segments(Name(ms[0]))] + Names(more);
    Sequences.Associate(t.seen, [Segments(Name(ms[0]))], Names(more));
    Sequences.Associate(t.links, if DeclaresLink(ms[0]) then [LinkOf(ms[0])] else [], LinksOf(more));
  }

  lemma AllFirst(ms: seq<Member>, number: NumberReader)
    requires ms != []
    ensures LawfulMembers(ms, number) <==> LawfulMember(ms[0], number) && LawfulMembers(ms[1..], number)
    ensures AllBlocks(ms) <==> HasBlocks(ms[0]) && AllBlocks(ms[1..])
  {
    hide LawfulMember, HasBlocks;
    assert forall i :: 1 <= i < |ms| ==> ms[1..][i-1] == ms[i];
  }

  /** Declaring a list is declaring its first member and then the others. */
  lemma DeclaredFirst(ms: seq<Member>, trailing: seq<Extra>, t: Totals, u: Totals, number: NumberReader, limits: Limits)
    requires ms != [] && HasBlocks(ms[0])
    ensures Declared(ms, trailing, t, u, number, limits) <==>
              && LawfulMember(ms[0], number) && Room(ms[0], t, number, limits)
              && Declared(ms[1..], trailing, After(ms[0], t, number), u, number, limits)
  {
    hide LawfulMember, LawfulMembers, LawfulExtras, Accepted, Name, Size, Segments, HasBlocks, AllBlocks, DeclaresLink, LinkOf,
         Names, LinksOf, BytesOf;
    AllFirst(ms, number);
    if AllBlocks(ms) {
      TotalsOfFirst(ms, t, number);
    }
  }

  lemma {:induction false} FoldExactly(ms: seq<Member>, trailing: seq<Extra>, t: Totals, u: Totals, number: NumberReader, limits: Limits)
    requires t.entries <= limits.maxEntries && t.totalBytes <= limits.maxTotalBytes && ExtrasOk(trailing, number)
    ensures MembersOk(ms, NONE_PENDING, t, number, limits)
         && Fold(ms, trailing, NONE_PENDING, t, number, limits) == Fine(u)
        <==> Declared(ms, trailing, t, u, number, limits)
    decreases |ms|
  {
    hide Counts, LawfulMember, Declared, ExtrasOk, IsEntry, After, Content, Room;
    if ms == [] {
      DeclaredNone(trailing, t, u, number, limits);
    } else {
      CountsNeverAccepts(ms[0], t, number, limits);
      if WellFormedMember(ms[0], number) {
        MemberExactly(ms[0], t, number, limits);
        DeclaredFirst(ms, trailing, t, u, number, limits);
        if Counts(ms[0], NONE_PENDING, t, number, limits).Go? {
          WithinRoom(ms[0], t, number, limits);
          FoldExactly(ms[1..], trailing, After(ms[0], t, number), u, number, limits);
        }
      } else if Declared(ms, trailing, t, u, number, limits) {
        DeclaredIsWellFormed(ms, trailing, t, u, number, limits);
      }
    }
  }

  lemma CountsNeverAccepts(m: Member, t: Totals, number: NumberReader, limits: Limits)
    ensures var out := Counts(m, NONE_PENDING, t, number, limits); out.Stop? ==> out.verdict.Bad?
  {
    hide Entry, Announced;
    if |m.header.block| == BLOCK {
      var ext := Announced(m.extras, NONE_PENDING);
      if ext.Announces? {
        EntryNeverAccepts(m.header.block, number, limits, ext.pending, t);
      }
    }
  }

  lemma WithinRoom(m: Member, t: Totals, number: NumberReader, limits: Limits)
    requires WellFormedMember(m, number) && t.totalBytes <= limits.maxTotalBytes
    requires Counts(m, NONE_PENDING, t, number, limits).Go?
    ensures HasBlocks(m) && After(m, t, number).entries <= limits.maxEntries && After(m, t, number).totalBytes <= limits.maxTotalBytes
  {
    hide Entry, HeaderOk, ExtrasOk, LawfulExtra, Announced, Said, Name, Size, Segments, PATH, LINKPATH, SIZE;
    WellFormedHasBlocks(m, number);
    AnnouncedExactly(m.extras, NONE_PENDING, number);
    EntryExactly(m, t, number, limits);
  }

  lemma DeclaredIsWellFormed(ms: seq<Member>, trailing: seq<Extra>, t: Totals, u: Totals, number: NumberReader, limits: Limits)
    requires ms != [] && Declared(ms, trailing, t, u, number, limits)
    ensures WellFormedMember(ms[0], number)
  {
    hide LawfulMember, WellFormedMember, LawfulExtra, Accepted;
    LawfulIsWellFormed(ms[0], number);
  }

  // --- The scan.

  lemma LawfulExtrasAreOk(xs: seq<Extra>, number: NumberReader)
    requires LawfulExtras(xs, number)
    ensures ExtrasOk(xs, number)
  {
    hide ExtraOk, LawfulExtra;
    forall i | 0 <= i < |xs| ensures ExtraOk(xs[i], number) {
      LawfulExtraIs(xs[i], number);
    }
  }

  /** An archive is well formed with verdict `Fine(u)` exactly when it is lawful and declares `u`. */
  lemma VerdictExactly(a: Archive, number: NumberReader, limits: Limits, u: Totals)
    ensures ArchiveOk(a, number, limits) && VerdictOf(a, number, limits) == Fine(u) <==> Declares(a, number, limits, u)
  {
    hide MembersOk, Fold, LawfulMember, LawfulExtra, ExtraOk, Accepted;
    if LawfulExtras(a.trailing, number) {
      LawfulExtrasAreOk(a.trailing, number);
    }
    if ExtrasOk(a.trailing, number) {
      FoldExactly(a.members, a.trailing, NO_TOTALS, u, number, limits);
      if AllBlocks(a.members) {
        assert [] + Names(a.members) == Names(a.members) && [] + LinksOf(a.members) == LinksOf(a.members);
      }
    }
  }

  /** However the bytes are cut into chunks, the scan accepts with totals `u` exactly when they begin
      with a lawful archive, end marker included, that declares `u`. */
  lemma ScanAcceptsExactly(chunks: seq<seq<Byte>>, number: NumberReader, limits: Limits, u: Totals)
    ensures End(FeedAll(NEW, chunks, number, limits)) == Fine(u) <==>
      exists a :: Declares(a, number, limits, u) && Whole(a.members, a.trailing) <= Flatten(chunks)
  {
    hide FeedAll, Whole, Declares, ArchiveOk, VerdictOf;
    AcceptedExactly(chunks, number, limits, u);
    forall a | IsArchive(Flatten(chunks), a, number, limits) && VerdictOf(a, number, limits) == Fine(u)
      ensures Declares(a, number, limits, u)
    {
      VerdictExactly(a, number, limits, u);
    }
    forall a | Declares(a, number, limits, u)
      ensures ArchiveOk(a, number, limits) && VerdictOf(a, number, limits) == Fine(u)
    {
      VerdictExactly(a, number, limits, u);
    }
  }

  // --- Extraction.

  lemma {:induction false} LinkIsListed(ms: seq<Member>, i: nat) returns (k: nat)
    requires AllBlocks(ms) && i < |ms| && DeclaresLink(ms[i])
    ensures k < |LinksOf(ms)| && LinksOf(ms)[k] == LinkOf(ms[i])
    decreases |ms|
  {
    hide DeclaresLink, LinkOf, HasBlocks;
    if i == 0 {
      k := 0;
    } else {
      k := LinkIsListed(ms[1..], i - 1);
      k := k + if DeclaresLink(ms[0]) then 1 else 0;
    }
  }

  /** Whatever order the members of an accepted archive are extracted in, and whatever links are
      followed on the way, neither the walk to a declared name nor that to a declared link target
      ever leaves the bundle. */
  lemma ExtractionStaysInside(chunks: seq<seq<Byte>>, a: Archive, number: NumberReader, limits: Limits, ws: seq<Walker>, n: nat, i: nat)
    requires ArchiveOk(a, number, limits) && Whole(a.members, a.trailing) <= Flatten(chunks)
    requires End(FeedAll(NEW, chunks, number, limits)).Fine?
    requires AllBlocks(a.members) && Journey(LinksOf(a.members), ws) && n < |ws| && i < |a.members|
    requires || ws[0] == Walker([], Segments(Name(a.members[i])))
             || (DeclaresLink(a.members[i]) && ws[0] == Walker(Start(LinkOf(a.members[i])), Segments(Target(a.members[i]))))
    ensures !Escapes(ws[n])
  {
    hide FeedAll, Whole, ArchiveOk, Accepted, Segments, Start, Escapes, HasBlocks, Name, Target, Size, DeclaresLink, Journey;
    ScanFoldsMembers(chunks, a, number, limits);
    var u := End(FeedAll(NEW, chunks, number, limits)).totals;
    VerdictExactly(a, number, limits, u);
    var m := a.members[i];
    assert LawfulMember(m, number);
    if ws[0] == Walker([], Segments(Name(m))) {
      assert u.seen[i] == Segments(Name(m)) && DOT_DOT == [46, 46];
      EntriesNeverEscape(u.seen, u.links, i, ws, n);
    } else {
      var k := LinkIsListed(a.members, i);
      LinksNeverEscape(u.seen, u.links, k, ws, n);
    }
  }
}
