/** Version precedence, written twice in the system: the coordinator's `compareVersions` and the
    release script's sort key; both mean section 11 of SemVer 2.0.0. */
module Versions {
  import opened Options
  import opened Sequences
  import opened Texts

  /** A version both grammars accept, in its parts; a release has no identifiers after its core. */
  datatype Version = Version(major: string, minor: string, patch: string, pre: seq<string>)

  predicate Numeric(id: string) {
    id != [] && AllDigits(id)
  }

  predicate WellFormed(v: Version) {
    Numeric(v.major) && Numeric(v.minor) && Numeric(v.patch)
  }

  // --- Reading a version: `N.N.N`, and after a hyphen identifiers separated by dots.

  predicate IdChar(c: char) {
    IsDigit(c) || 'A' <= c <= 'Z' || 'a' <= c <= 'z' || c == '-'
  }

  predicate Identifier(id: string) {
    forall i :: 0 <= i < |id| ==> IdChar(id[i])
  }

  /** What a version text may be made of; an identifier may be empty, the whole suffix may not. */
  predicate Readable(v: Version) {
    WellFormed(v) && v.pre != [""] && forall i :: 0 <= i < |v.pre| ==> Identifier(v.pre[i])
  }

  function Spelled(v: Version): string {
    v.major + "." + v.minor + "." + v.patch + if v.pre == [] then "" else "-" + Joined(v.pre, '.')
  }

  function Parse(s: string): (r: Option<Version>)
    ensures r.Some? ==> WellFormed(r.value)
  {
    var h := FirstAt(s, '-');
    var core := Pieces(s[..h], '.');
    if |core| != 3 || !Numeric(core[0]) || !Numeric(core[1]) || !Numeric(core[2]) then None
    else if h == |s| then Some(Version(core[0], core[1], core[2], []))
    else
      var pre := s[h+1..];
      if pre == [] || !Dotted(pre) then None
      else Some(Version(core[0], core[1], core[2], Pieces(pre, '.')))
  }

  function CoreText(v: Version): string {
    v.major + "." + v.minor + "." + v.patch
  }

  lemma CoreSplits(v: Version)
    requires WellFormed(v)
    ensures Pieces(CoreText(v), '.') == [v.major, v.minor, v.patch] && '-' !in CoreText(v)
  {
    assert CoreText(v) == v.major + "." + (v.minor + "." + v.patch);
    PiecesOfFirst(v.major, v.minor + "." + v.patch, '.');
    PiecesOfFirst(v.minor, v.patch, '.');
    PiecesOfPlain(v.patch, '.');
  }

  lemma CoreJoins(core: seq<string>)
    requires |core| == 3
    ensures Joined(core, '.') == core[0] + "." + core[1] + "." + core[2]
  {
    assert Joined(core[1..], '.') == core[1] + "." + core[2];
    assert core[0] + "." + (core[1] + "." + core[2]) == core[0] + "." + core[1] + "." + core[2];
  }

  predicate Dotted(s: string) {
    forall k :: 0 <= k < |s| ==> IdChar(s[k]) || s[k] == '.'
  }

  lemma DottedParts(head: string, tail: string)
    ensures Dotted(head + "." + tail) <==> Dotted(head) && Dotted(tail)
  {
    var s := head + "." + tail;
    assert forall k :: 0 <= k < |head| ==> s[k] == head[k];
    assert forall k :: 0 <= k < |tail| ==> s[|head|+1+k] == tail[k];
  }

  lemma DottedPlain(s: string)
    requires '.' !in s
    ensures Dotted(s) <==> Identifier(s)
  {
    assert forall k :: 0 <= k < |s| ==> s[k] in s;
  }

  lemma {:induction false} IdentifiersJoined(parts: seq<string>)
    requires parts != [] && forall i :: 0 <= i < |parts| ==> '.' !in parts[i]
    ensures Dotted(Joined(parts, '.')) <==> forall i :: 0 <= i < |parts| ==> Identifier(parts[i])
  {
    hide Dotted, Identifier;
    DottedPlain(parts[0]);
    if |parts| > 1 {
      DottedParts(parts[0], Joined(parts[1..], '.'));
      IdentifiersJoined(parts[1..]);
      assert forall i :: 0 <= i < |parts[1..]| ==> parts[1..][i] == parts[i+1];
      assert (forall i :: 0 <= i < |parts| ==> Identifier(parts[i])) <==>
        Identifier(parts[0]) && forall i :: 0 <= i < |parts[1..]| ==> Identifier(parts[1..][i]);
    }
  }

  lemma ParseOfSpelled(v: Version)
    requires Readable(v)
    ensures Parse(Spelled(v)) == Some(v)
  {
    hide Pieces, FirstAt, Numeric;
    var s, core := Spelled(v), CoreText(v);
    CoreSplits(v);
    assert s[..|core|] == core;
    FirstAtIs(s, '-', |core|);
    if v.pre != [] {
      var pre := Joined(v.pre, '.');
      assert s[|core|+1..] == pre;
      assert forall i :: 0 <= i < |v.pre| ==> '.' !in v.pre[i];
      PiecesOfJoined(v.pre, '.');
      IdentifiersJoined(v.pre);
      if pre == [] {
        EmptySplits();
      }
    }
  }

  lemma EmptySplits()
    ensures Pieces("", '.') == [""]
  {
  }

  lemma SpelledOfParse(s: string)
    requires Parse(s).Some?
    ensures Readable(Parse(s).value) && Spelled(Parse(s).value) == s
  {
    hide Pieces, FirstAt, Numeric;
    var h, v := FirstAt(s, '-'), Parse(s).value;
    JoinedOfPieces(s[..h], '.');
    CoreJoins(Pieces(s[..h], '.'));
    assert CoreText(v) == s[..h];
    if h < |s| {
      var pre := s[h+1..];
      JoinedOfPieces(pre, '.');
      PiecesHaveNoSeparator(pre, '.');
      IdentifiersJoined(v.pre);
      assert s == s[..h] + ("-" + pre);
    } else {
      assert s == s[..h];
    }
  }

  /** The grammar: a text is read as a version if and only if it is that version's spelling, so two
      texts with the same suffix have the same identifiers and the other way round. */
  lemma ParsesExactly(s: string, v: Version)
    ensures Parse(s) == Some(v) <==> Readable(v) && Spelled(v) == s
  {
    hide Parse, Spelled, Readable;
    if Parse(s) == Some(v) {
      SpelledOfParse(s);
    }
    if Readable(v) && Spelled(v) == s {
      ParseOfSpelled(v);
    }
  }

  // --- The coordinator's comparison.

  function Sign(d: int): int {
    if d > 0 then 1 else if d < 0 then -1 else 0
  }

  function CompareIds(a: string, b: string): int {
    if Numeric(a) && Numeric(b) then (if Value(a) > Value(b) then 1 else -1)
    else if Numeric(a) != Numeric(b) then (if Numeric(a) then -1 else 1)
    else if TextLess(b, a) then 1 else -1
  }

  /** From the first identifier that differs. */
  function ComparePre(left: seq<string>, right: seq<string>): int
    decreases |left|
  {
    if left == [] || right == [] then Sign(|left| - |right|)
    else if left[0] == right[0] then ComparePre(left[1..], right[1..])
    else CompareIds(left[0], right[0])
  }

  function CompareCore(x: Version, y: Version): int
    requires WellFormed(x) && WellFormed(y)
  {
    if Value(x.major) != Value(y.major) then Sign(Value(x.major) - Value(y.major))
    else if Value(x.minor) != Value(y.minor) then Sign(Value(x.minor) - Value(y.minor))
    else Sign(Value(x.patch) - Value(y.patch))
  }

  function Compare(x: Version, y: Version): int
    requires WellFormed(x) && WellFormed(y)
  {
    if CompareCore(x, y) != 0 then CompareCore(x, y)
    else if x.pre == y.pre then 0
    else if x.pre == [] then 1
    else if y.pre == [] then -1
    else ComparePre(x.pre, y.pre)
  }

  // --- Precedence in the words of section 11.

  /** Numbers by value, a number before a text, texts by their characters. */
  ghost predicate IdBefore(a: string, b: string) {
    if Numeric(a) && Numeric(b) then Value(a) < Value(b)
    else if Numeric(a) || Numeric(b) then Numeric(a)
    else ComesFirst(a, b)
  }

  /** The first identifier in which they differ decides; if there is none, the shorter list is first. */
  ghost predicate PreBefore(left: seq<string>, right: seq<string>) {
    || (|left| < |right| && left == right[..|left|])
    || exists i :: 0 <= i < |left| && i < |right| && left[..i] == right[..i] && left[i] != right[i] && IdBefore(left[i], right[i])
  }

  /** By the three numbers, then a prerelease before its release, then by the identifiers. */
  ghost predicate Before(x: Version, y: Version)
    requires WellFormed(x) && WellFormed(y)
  {
    if Value(x.major) != Value(y.major) then Value(x.major) < Value(y.major)
    else if Value(x.minor) != Value(y.minor) then Value(x.minor) < Value(y.minor)
    else if Value(x.patch) != Value(y.patch) then Value(x.patch) < Value(y.patch)
    else if x.pre == [] || y.pre == [] then x.pre != [] && y.pre == []
    else PreBefore(x.pre, y.pre)
  }

  lemma PreBeforeTail(left: seq<string>, right: seq<string>)
    requires left != [] && right != [] && left[0] == right[0]
    ensures PreBefore(left, right) <==> PreBefore(left[1..], right[1..])
  {
    hide IdBefore;
    var c, d := left[1..], right[1..];
    assert left == [left[0]] + c && right == [right[0]] + d;
    if i :| 0 <= i < |left| && i < |right| && left[..i] == right[..i] && left[i] != right[i] && IdBefore(left[i], right[i]) {
      assert c[..i-1] == left[..i][1..] && d[..i-1] == right[..i][1..];
      assert c[i-1] != d[i-1] && IdBefore(c[i-1], d[i-1]);
    }
    if i :| 0 <= i < |c| && i < |d| && c[..i] == d[..i] && c[i] != d[i] && IdBefore(c[i], d[i]) {
      assert left[..i+1] == [left[0]] + c[..i] && right[..i+1] == [right[0]] + d[..i];
      assert left[i+1] != right[i+1] && IdBefore(left[i+1], right[i+1]);
    }
    if |c| < |d| && c == d[..|c|] {
      assert right[..|left|] == [right[0]] + d[..|c|];
    }
    if |left| < |right| && left == right[..|left|] {
      assert d[..|c|] == right[..|left|][1..];
    }
  }

  lemma FirstIdDecides(left: seq<string>, right: seq<string>)
    requires left != [] && right != [] && left[0] != right[0]
    ensures PreBefore(left, right) <==> IdBefore(left[0], right[0])
  {
    hide IdBefore;
    if IdBefore(left[0], right[0]) {
      assert left[..0] == right[..0];
    }
    assert |left| < |right| ==> right[..|left|][0] == right[0];
    if i :| 0 <= i < |left| && i < |right| && left[..i] == right[..i] && left[i] != right[i] && IdBefore(left[i], right[i]) {
      assert i > 0 ==> left[..i][0] == right[..i][0];
    }
  }

  lemma CompareIdsExactly(a: string, b: string)
    requires a != b
    ensures CompareIds(a, b) == 1 <==> IdBefore(b, a)
    ensures CompareIds(a, b) == -1 <==> IdBefore(a, b) || (Numeric(a) && Numeric(b) && Value(a) == Value(b))
  {
    hide TextLess, ComesFirst, Value;
    TextLessExactly(a, b);
    TextLessExactly(b, a);
    TextLessTotal(a, b);
    TextLessAsymmetric(a, b);
  }

  lemma {:induction false} ComparePreExactly(left: seq<string>, right: seq<string>)
    ensures ComparePre(left, right) == 1 <==> PreBefore(right, left)
    ensures ComparePre(left, right) == -1 <==> PreBefore(left, right) || Respelled(left, right)
    ensures ComparePre(left, right) == 0 <==> left == right
    ensures -1 <= ComparePre(left, right) <= 1
    decreases |left|
  {
    hide CompareIds, IdBefore, PreBefore;
    if left == [] || right == [] {
      EmptyIsFirst(left, right);
      EmptyIsFirst(right, left);
    } else if left[0] == right[0] {
      PreBeforeTail(left, right);
      PreBeforeTail(right, left);
      ComparePreExactly(left[1..], right[1..]);
      assert left == [left[0]] + left[1..] && right == [right[0]] + right[1..];
    } else {
      FirstIdDecides(left, right);
      FirstIdDecides(right, left);
      CompareIdsExactly(left[0], right[0]);
      CompareIdsIsASign(left[0], right[0]);
    }
  }

  lemma EmptyIsFirst(left: seq<string>, right: seq<string>)
    requires left == [] || right == []
    ensures PreBefore(left, right) <==> |left| < |right|
  {
    hide IdBefore;
  }

  lemma CompareIdsIsASign(a: string, b: string)
    ensures CompareIds(a, b) == 1 || CompareIds(a, b) == -1
  {
  }

  /** The comparison is that of section 11 wherever it can be: it says newer exactly when the first
      version comes after the second, the same exactly when they differ in the spelling of their three
      numbers at most, and older exactly when it comes before it or the two first differ in the
      spelling of one number. */
  lemma PrecedenceExactly(x: Version, y: Version)
    requires WellFormed(x) && WellFormed(y)
    ensures Compare(x, y) == 1 <==> Before(y, x)
    ensures Compare(x, y) == -1 <==> Before(x, y) || Clash(x, y)
    ensures Compare(x, y) == 0 <==> CompareCore(x, y) == 0 && x.pre == y.pre
    ensures -1 <= Compare(x, y) <= 1
  {
    hide Value, ComparePre, PreBefore, Respelled;
    ComparePreExactly(x.pre, y.pre);
    if Respelled(x.pre, y.pre) {
      RespelledIsNotEmpty(x.pre, y.pre);
    }
  }

  lemma RespelledIsNotEmpty(left: seq<string>, right: seq<string>)
    requires Respelled(left, right)
    ensures left != [] && right != []
  {
  }

  /** The key order is the same one, unless the two first differ in the spelling of one number. */
  lemma KeysFollowPrecedence(x: Version, y: Version)
    requires WellFormed(x) && WellFormed(y) && !Clash(x, y)
    ensures KeyLess(KeyOf(x), KeyOf(y)) <==> Before(x, y)
  {
    hide Value, Before, KeyLess, KeyOf, Clash;
    PrecedenceExactly(x, y);
    AgreesUnlessRespelled(x, y);
    KeyOrder(KeyOf(x), KeyOf(y));
  }

  /** Both texts are read first; the comparison fails when one is no version. */
  method CompareVersions(a: string, b: string) returns (r: Option<int>)
    ensures r == if Parse(a).None? || Parse(b).None? then None else Some(Compare(Parse(a).value, Parse(b).value))
    ensures r.Some? ==>
      var x, y := Parse(a).value, Parse(b).value;
      && -1 <= r.value <= 1
      && (r.value == 1 <==> Before(y, x))
      && (r.value == -1 <==> Before(x, y) || Clash(x, y))
  {
    hide Parse, Before, Clash;
    var x, y := Parse(a), Parse(b);
    if x.None? || y.None? {
      return None;
    }
    var order := CompareParsed(x.value, y.value);
    PrecedenceExactly(x.value, y.value);
    return Some(order);
  }

  method CompareParsed(x: Version, y: Version) returns (r: int)
    requires WellFormed(x) && WellFormed(y)
    ensures r == Compare(x, y)
  {
    var xs, ys := [x.major, x.minor, x.patch], [y.major, y.minor, y.patch];
    for i := 0 to 3
      invariant forall k :: 0 <= k < i ==> Value(xs[k]) == Value(ys[k])
    {
      var d := Value(xs[i]) - Value(ys[i]);
      if d != 0 {
        assert i > 0 ==> Value(xs[0]) == Value(ys[0]);
        assert i > 1 ==> Value(xs[1]) == Value(ys[1]);
        return if d > 0 then 1 else -1;
      }
    }
    assert Value(xs[0]) == Value(ys[0]) && Value(xs[1]) == Value(ys[1]) && Value(xs[2]) == Value(ys[2]);
    if x.pre == y.pre {
      return 0;
    }
    if x.pre == [] {
      return 1;
    }
    if y.pre == [] {
      return -1;
    }
    var left, right, i := x.pre, y.pre, 0;
    assert left[0..] == left && right[0..] == right;
    while i < |left| || i < |right|
      invariant 0 <= i <= |left| && i <= |right|
      invariant ComparePre(left, right) == ComparePre(left[i..], right[i..])
      decreases |left| + |right| - i
    {
      if i == |left| {
        return -1;
      }
      if i == |right| {
        return 1;
      }
      if left[i] != right[i] {
        return CompareIds(left[i], right[i]);
      }
      assert left[i..][1..] == left[i+1..] && right[i..][1..] == right[i+1..];
      i := i + 1;
    }
    return 0;
  }

  // --- The release script's key.

  /** `(0, number, "")` for a numeric identifier, `(1, 0, text)` for any other. */
  datatype IdKey = IdKey(kind: nat, number: nat, text: string)

  datatype Key = Key(major: nat, minor: nat, patch: nat, released: nat, ids: seq<IdKey>)

  function KeyOfId(id: string): IdKey {
    if Numeric(id) then IdKey(0, Value(id), "") else IdKey(1, 0, id)
  }

  function KeysOf(ids: seq<string>): (r: seq<IdKey>)
    ensures |r| == |ids|
  {
    seq(|ids|, i requires 0 <= i < |ids| => KeyOfId(ids[i]))
  }

  function KeyOf(v: Version): Key
    requires WellFormed(v)
  {
    Key(Value(v.major), Value(v.minor), Value(v.patch), if v.pre != [] then 0 else 1, KeysOf(v.pre))
  }

  predicate IdLess(a: IdKey, b: IdKey) {
    a.kind < b.kind || (a.kind == b.kind && (a.number < b.number || (a.number == b.number && TextLess(a.text, b.text))))
  }

  predicate IdsLess(a: seq<IdKey>, b: seq<IdKey>)
    decreases |a|
  {
    if a == [] then b != []
    else if b == [] then false
    else IdLess(a[0], b[0]) || (a[0] == b[0] && IdsLess(a[1..], b[1..]))
  }

  function Core(k: Key): (nat, nat, nat, nat) {
    (k.major, k.minor, k.patch, k.released)
  }

  predicate CoreLess(a: Key, b: Key) {
    || a.major < b.major
    || (a.major == b.major && (a.minor < b.minor
    || (a.minor == b.minor && (a.patch < b.patch
    || (a.patch == b.patch && a.released < b.released)))))
  }

  predicate KeyLess(a: Key, b: Key) {
    CoreLess(a, b) || (Core(a) == Core(b) && IdsLess(a.ids, b.ids))
  }

  // --- The key order is a strict total order.

  lemma IdOrder(a: IdKey, b: IdKey, c: IdKey)
    ensures !(IdLess(a, b) && IdLess(b, a)) && !IdLess(a, a)
    ensures IdLess(a, b) || a == b || IdLess(b, a)
    ensures IdLess(a, b) && IdLess(b, c) ==> IdLess(a, c)
  {
    hide TextLess;
    TextLessAsymmetric(a.text, b.text);
    TextLessAsymmetric(a.text, a.text);
    TextLessTotal(a.text, b.text);
    if TextLess(a.text, b.text) && TextLess(b.text, c.text) {
      TextLessTransitive(a.text, b.text, c.text);
    }
  }

  lemma {:induction false} IdsOrder(a: seq<IdKey>, b: seq<IdKey>)
    ensures !(IdsLess(a, b) && IdsLess(b, a))
    ensures IdsLess(a, b) || a == b || IdsLess(b, a)
    decreases |a|
  {
    hide IdLess;
    if a != [] && b != [] {
      IdOrder(a[0], b[0], a[0]);
      IdsOrder(a[1..], b[1..]);
      assert a == [a[0]] + a[1..] && b == [b[0]] + b[1..];
    }
  }

  lemma {:induction false} IdsTransitive(a: seq<IdKey>, b: seq<IdKey>, c: seq<IdKey>)
    requires IdsLess(a, b) && IdsLess(b, c)
    ensures IdsLess(a, c)
    decreases |a|
  {
    hide IdLess;
    if a != [] {
      IdOrder(a[0], b[0], c[0]);
      if a[0] == b[0] == c[0] {
        IdsTransitive(a[1..], b[1..], c[1..]);
      }
    }
  }

  lemma KeyOrder(a: Key, b: Key)
    ensures !(KeyLess(a, b) && KeyLess(b, a))
    ensures KeyLess(a, b) || a == b || KeyLess(b, a)
  {
    IdsOrder(a.ids, b.ids);
  }

  lemma KeyTransitive(a: Key, b: Key, c: Key)
    requires KeyLess(a, b) && KeyLess(b, c)
    ensures KeyLess(a, c)
  {
    if IdsLess(a.ids, b.ids) && IdsLess(b.ids, c.ids) {
      IdsTransitive(a.ids, b.ids, c.ids);
    }
  }

  // --- Where the two agree.

  /** The first identifiers that differ are one number spelled in two ways, which only a leading
      zero allows. */
  predicate Respelled(left: seq<string>, right: seq<string>)
    decreases |left|
  {
    left != [] && right != [] &&
    if left[0] == right[0] then Respelled(left[1..], right[1..])
    else Numeric(left[0]) && Numeric(right[0]) && Value(left[0]) == Value(right[0])
  }

  predicate Clash(x: Version, y: Version)
    requires WellFormed(x) && WellFormed(y)
  {
    CompareCore(x, y) == 0 && Respelled(x.pre, y.pre)
  }

  lemma SameIdKey(a: string, b: string)
    ensures KeyOfId(a) == KeyOfId(b) <==> a == b || (Numeric(a) && Numeric(b) && Value(a) == Value(b))
  {
  }

  lemma IdsAgree(a: string, b: string)
    requires a != b && KeyOfId(a) != KeyOfId(b)
    ensures CompareIds(a, b) == (if IdLess(KeyOfId(a), KeyOfId(b)) then -1 else 1)
  {
    hide Value;
    TextLessTotal(a, b);
    TextLessAsymmetric(a, b);
    TextLessAsymmetric([], []);
  }

  lemma {:induction false} PreAgree(left: seq<string>, right: seq<string>)
    requires left != right && !Respelled(left, right)
    ensures ComparePre(left, right) == (if IdsLess(KeysOf(left), KeysOf(right)) then -1 else 1)
    ensures KeysOf(left) != KeysOf(right)
    decreases |left|
  {
    hide CompareIds, IdLess, KeyOfId;
    if left != [] && right != [] {
      var a, b := KeysOf(left), KeysOf(right);
      assert a[1..] == KeysOf(left[1..]) && b[1..] == KeysOf(right[1..]);
      assert a[0] == KeyOfId(left[0]) && b[0] == KeyOfId(right[0]);
      SameIdKey(left[0], right[0]);
      if left[0] == right[0] {
        assert left == [left[0]] + left[1..] && right == [right[0]] + right[1..];
        IdOrder(a[0], b[0], a[0]);
        PreAgree(left[1..], right[1..]);
      } else {
        IdsAgree(left[0], right[0]);
      }
    }
  }

  lemma {:induction false} PreClash(left: seq<string>, right: seq<string>)
    requires Respelled(left, right)
    ensures left != right && ComparePre(left, right) == -1 && Respelled(right, left)
    decreases |left|
  {
    hide Value;
    if left[0] == right[0] {
      PreClash(left[1..], right[1..]);
    }
  }

  /** What the comparison returns is what the key order says. */
  predicate Agrees(x: Version, y: Version)
    requires WellFormed(x) && WellFormed(y)
  {
    Compare(x, y) == if KeyLess(KeyOf(x), KeyOf(y)) then -1 else if KeyLess(KeyOf(y), KeyOf(x)) then 1 else 0
  }

  lemma AgreesUnlessRespelled(x: Version, y: Version)
    requires WellFormed(x) && WellFormed(y) && !Clash(x, y)
    ensures Agrees(x, y)
    ensures Compare(x, y) == 0 <==> KeyOf(x) == KeyOf(y)
    ensures KeyOf(x) == KeyOf(y) ==> x.pre == y.pre
  {
    hide Value, ComparePre, IdsLess;
    var a, b := KeyOf(x), KeyOf(y);
    KeyOrder(a, b);
    if CompareCore(x, y) == 0 && x.pre != y.pre {
      PreAgree(x.pre, y.pre);
      IdsOrder(a.ids, b.ids);
    }
  }

  /** The comparison is antisymmetric on two versions exactly when they do not first differ in the
      spelling of one number; there it calls each the older. */
  lemma AntisymmetricExactly(x: Version, y: Version)
    requires WellFormed(x) && WellFormed(y)
    ensures Compare(x, y) == -Compare(y, x) <==> !Clash(x, y)
    ensures Clash(x, y) ==> Compare(x, y) == Compare(y, x) == -1
  {
    hide Value, ComparePre, KeyLess;
    if Clash(x, y) {
      PreClash(x.pre, y.pre);
      PreClash(y.pre, x.pre);
    } else {
      ClashSymmetric(x, y);
      AgreesUnlessRespelled(x, y);
      AgreesUnlessRespelled(y, x);
      KeyOrder(KeyOf(x), KeyOf(y));
    }
  }

  lemma ClashSymmetric(x: Version, y: Version)
    requires WellFormed(x) && WellFormed(y)
    ensures Clash(x, y) == Clash(y, x)
  {
    if Respelled(x.pre, y.pre) {
      PreClash(x.pre, y.pre);
    }
    if Respelled(y.pre, x.pre) {
      PreClash(y.pre, x.pre);
    }
  }

  // --- Versions without leading zeros.

  predicate NoLeadingZero(id: string) {
    Numeric(id) && |id| > 1 ==> id[0] != '0'
  }

  /** What SemVer asks of a version. */
  predicate Strict(v: Version) {
    && WellFormed(v) && NoLeadingZero(v.major) && NoLeadingZero(v.minor) && NoLeadingZero(v.patch)
    && forall i :: 0 <= i < |v.pre| ==> NoLeadingZero(v.pre[i])
  }

  lemma {:induction false} ValueGrows(s: string)
    requires Numeric(s) && s[0] != '0'
    ensures Value(s) >= 1
  {
    if |s| > 1 {
      ValueGrows(s[..|s|-1]);
    } else {
      assert s[..0] == [];
    }
  }

  /** A number has one spelling without leading zeros. */
  lemma {:induction false} OneSpelling(a: string, b: string)
    requires Numeric(a) && Numeric(b) && NoLeadingZero(a) && NoLeadingZero(b) && Value(a) == Value(b)
    ensures a == b
    decreases |a|
  {
    var p, q := a[..|a|-1], b[..|b|-1];
    assert a == p + [a[|a|-1]] && b == q + [b[|b|-1]];
    assert Value(p) == Value(q) && DigitValue(a[|a|-1]) == DigitValue(b[|b|-1]);
    if p != [] {
      ValueGrows(p);
    }
    if q != [] {
      ValueGrows(q);
    }
    if p != [] && q != [] {
      OneSpelling(p, q);
    }
  }

  lemma {:induction false} StrictIsNeverRespelled(left: seq<string>, right: seq<string>)
    requires (forall i :: 0 <= i < |left| ==> NoLeadingZero(left[i])) && (forall i :: 0 <= i < |right| ==> NoLeadingZero(right[i]))
    ensures !Respelled(left, right)
    decreases |left|
  {
    if left != [] && right != [] {
      if left[0] == right[0] {
        StrictIsNeverRespelled(left[1..], right[1..]);
      } else if Numeric(left[0]) && Numeric(right[0]) && Value(left[0]) == Value(right[0]) {
        OneSpelling(left[0], right[0]);
      }
    }
  }

  /** On strict versions the two implementations agree, and the comparison is zero only on the
      same version. */
  lemma StrictVersionsAgree(x: Version, y: Version)
    requires Strict(x) && Strict(y)
    ensures Agrees(x, y) && Compare(x, y) == -Compare(y, x)
    ensures Compare(x, y) == 0 <==> x == y
  {
    hide Value, Compare, CompareCore, ComparePre, KeyLess;
    StrictIsNeverRespelled(x.pre, y.pre);
    AgreesUnlessRespelled(x, y);
    AntisymmetricExactly(x, y);
    if KeyOf(x) == KeyOf(y) {
      OneSpelling(x.major, y.major);
      OneSpelling(x.minor, y.minor);
      OneSpelling(x.patch, y.patch);
    }
  }

  lemma StrictVersionsAreOrdered(x: Version, y: Version, z: Version)
    requires Strict(x) && Strict(y) && Strict(z) && Compare(x, y) < 0 && Compare(y, z) < 0
    ensures Compare(x, z) < 0
  {
    hide Value, Compare, KeyLess, KeyOf;
    StrictVersionsAgree(x, y);
    StrictVersionsAgree(y, z);
    StrictVersionsAgree(x, z);
    KeyTransitive(KeyOf(x), KeyOf(y), KeyOf(z));
  }

  /** `1.0.0-01` and `1.0.0-1` are each called older than the other. */
  lemma RespelledVersions()
    ensures var x, y := Version("1", "0", "0", ["01"]), Version("1", "0", "0", ["1"]);
      WellFormed(x) && WellFormed(y) && Compare(x, y) == Compare(y, x) == -1
  {
    var zero: string := "0";
    LeadingZeros(zero, "1");
    assert zero + "1" == "01";
    var x, y := Version("1", "0", "0", ["01"]), Version("1", "0", "0", ["1"]);
    assert Respelled(x.pre, y.pre);
    AntisymmetricExactly(x, y);
  }

  // --- Opening the next version.

  datatype Opened = Open(version: Version) | Refused

  predicate IsPrerelease(v: Version) {
    v.pre != []
  }

  function NextPatch(v: Version): Opened
    requires WellFormed(v)
  {
    if IsPrerelease(v) then Refused
    else Open(Version(Decimal(Value(v.major)), Decimal(Value(v.minor)), Decimal(Value(v.patch) + 1), []))
  }

  /** The canonical spelling. */
  function Printed(v: Version): Version
    requires WellFormed(v)
  {
    Version(Decimal(Value(v.major)), Decimal(Value(v.minor)), Decimal(Value(v.patch)), v.pre)
  }

  /** Equality of parsed versions compares numbers and identifier texts. */
  predicate Same(x: Version, y: Version)
    requires WellFormed(x) && WellFormed(y)
  {
    CompareCore(x, y) == 0 && x.pre == y.pre
  }

  function ResolveNext(current: Version, released: Version): Opened
    requires WellFormed(current) && WellFormed(released)
  {
    if Same(current, released) then NextPatch(released)
    else if KeyLess(KeyOf(released), KeyOf(current)) then Open(Printed(current))
    else Refused
  }

  lemma PrintedIsTheSame(v: Version)
    requires WellFormed(v)
    ensures WellFormed(Printed(v)) && KeyOf(Printed(v)) == KeyOf(v) && Printed(Printed(v)) == Printed(v) && Same(v, Printed(v))
  {
    DecimalReadsBack(Value(v.major));
    DecimalReadsBack(Value(v.minor));
    DecimalReadsBack(Value(v.patch));
  }

  /** Between a release and its next patch lie only the prereleases of that patch. */
  lemma NothingButPrereleasesBetween(v: Version, w: Version)
    requires WellFormed(v) && WellFormed(w) && !IsPrerelease(v)
    ensures NextPatch(v).Open? && WellFormed(NextPatch(v).version)
    ensures var next := KeyOf(NextPatch(v).version);
      && KeyLess(KeyOf(v), next)
      && ((KeyLess(KeyOf(v), KeyOf(w)) && KeyLess(KeyOf(w), next)) <==>
            (IsPrerelease(w) && KeyOf(w).major == next.major && KeyOf(w).minor == next.minor && KeyOf(w).patch == next.patch))
  {
    hide Value;
    DecimalReadsBack(Value(v.major));
    DecimalReadsBack(Value(v.minor));
    DecimalReadsBack(Value(v.patch) + 1);
  }

  /** What dev carries next is beyond the release and never below what it carried; running it again
      changes nothing; and it is refused exactly when dev is not at or beyond the release, or is at
      a prerelease. */
  lemma NextVersionIsBeyond(current: Version, released: Version)
    requires WellFormed(current) && WellFormed(released)
    ensures var r := ResolveNext(current, released);
      && (r.Refused? <==> if Same(current, released) then IsPrerelease(released) else !KeyLess(KeyOf(released), KeyOf(current)))
      && (r.Open? ==> WellFormed(r.version) && KeyLess(KeyOf(released), KeyOf(r.version)) && !KeyLess(KeyOf(r.version), KeyOf(current)))
      && (r.Open? ==> ResolveNext(r.version, released) == r)
  {
    hide Value, KeyLess, KeyOf;
    PrintedIsTheSame(current);
    var r := ResolveNext(current, released);
    if Same(current, released) {
      SameKey(current, released);
      if !IsPrerelease(released) {
        NothingButPrereleasesBetween(released, released);
        KeyOrder(KeyOf(released), KeyOf(r.version));
        PrintedIsTheSame(r.version);
        NextIsPrinted(released);
        DifferentKeys(r.version, released);
      }
    } else if r.Open? {
      KeyOrder(KeyOf(r.version), KeyOf(current));
      KeyOrder(KeyOf(r.version), KeyOf(released));
      DifferentKeys(r.version, released);
    }
  }

  lemma SameKey(x: Version, y: Version)
    requires WellFormed(x) && WellFormed(y) && Same(x, y)
    ensures KeyOf(x) == KeyOf(y)
  {
  }

  lemma DifferentKeys(x: Version, y: Version)
    requires WellFormed(x) && WellFormed(y) && KeyOf(x) != KeyOf(y)
    ensures !Same(x, y)
  {
    if Same(x, y) {
      SameKey(x, y);
    }
  }

  lemma NextIsPrinted(v: Version)
    requires WellFormed(v) && !IsPrerelease(v)
    ensures WellFormed(NextPatch(v).version) && Printed(NextPatch(v).version) == NextPatch(v).version
  {
    DecimalReadsBack(Value(v.major));
    DecimalReadsBack(Value(v.minor));
    DecimalReadsBack(Value(v.patch) + 1);
  }
}
