/** The lexical link check of the archive scan, and why it bounds the physical walk. Names are
    kept as bytes. */
module ArchiveLinks {
  import opened Options
  import opened Bytes
  import opened Sequences

  type Text = seq<Byte>

  const SLASH: Byte := 47
  const DOT: Text := [46]
  const DOT_DOT: Text := [46, 46]

  // --- Splitting and joining names.

  /** The segments of a name; empty and dot segments are dropped. */
  function Segments(name: Text): seq<Text> {
    Kept(Pieces(name, SLASH))
  }

  function Join(segments: seq<Text>): Text {
    Joined(segments, SLASH)
  }

  function Kept(pieces: seq<Text>): seq<Text> {
    if pieces == [] then []
    else if pieces[0] == [] || pieces[0] == DOT then Kept(pieces[1..])
    else [pieces[0]] + Kept(pieces[1..])
  }

  /** A segment a split can produce. */
  predicate CleanSegment(s: Text) {
    s != [] && s != DOT && SLASH !in s
  }

  predicate Clean(segments: seq<Text>) {
    forall i :: 0 <= i < |segments| ==> CleanSegment(segments[i])
  }

  lemma {:induction false} KeptIsClean(pieces: seq<Text>)
    requires forall i :: 0 <= i < |pieces| ==> SLASH !in pieces[i]
    ensures Clean(Kept(pieces))
  {
    if pieces != [] {
      KeptIsClean(pieces[1..]);
    }
  }

  lemma SegmentsAreClean(name: Text)
    ensures Clean(Segments(name))
  {
    PiecesHaveNoSeparator(name, SLASH);
    KeptIsClean(Pieces(name, SLASH));
  }

  lemma {:induction false} CleanIsKept(segments: seq<Text>)
    requires Clean(segments)
    ensures Kept(segments) == segments
  {
    if segments != [] {
      CleanIsKept(segments[1..]);
      assert segments == [segments[0]] + segments[1..];
    }
  }

  /** Joining and splitting again gives the same segments, so the joined text the scan keeps in
      its set stands for exactly one path. */
  lemma SegmentsOfJoin(segments: seq<Text>)
    requires Clean(segments)
    ensures Segments(Join(segments)) == segments
  {
    if segments == [] {
      var none: seq<Text> := [[]];
      assert none[1..] == [];
      assert Kept(none) == [];
    } else {
      PiecesOfJoined(segments, SLASH);
      CleanIsKept(segments);
    }
  }

  // --- The lexical check.

  datatype Link = Link(symbolic: bool, segments: seq<Text>, target: Text)

  function Parent(segments: seq<Text>): seq<Text> {
    if segments == [] then [] else segments[..|segments|-1]
  }

  /** The stack after the parts, or nothing once it would climb above the root. */
  function Lexical(start: seq<Text>, parts: seq<Text>): Option<seq<Text>> {
    if parts == [] then Some(start)
    else
      var before := Lexical(start, parts[..|parts|-1]);
      var part := parts[|parts|-1];
      if before.None? then None
      else if part == DOT_DOT then (if before.value == [] then None else Some(Parent(before.value)))
      else Some(before.value + [part])
  }

  /** The walk stays inside and meets no symlink before its last part. */
  predicate StaysInside(start: seq<Text>, parts: seq<Text>, symlinks: set<Text>) {
    && Lexical(start, parts).Some?
    && (forall k :: 0 <= k <= |parts| ==> Lexical(start, parts[..k]).Some?)
    && (forall k :: 1 <= k < |parts| ==> Join(Lexical(start, parts[..k]).value) !in symlinks)
  }

  function Start(l: Link): seq<Text> {
    if l.symbolic then Parent(l.segments) else []
  }

  predicate LinkOk(l: Link, symlinks: set<Text>) {
    var parts := Segments(l.target);
    && l.target != [] && l.target[0] != SLASH
    && StaysInside(Start(l), parts, symlinks)
    && (!l.symbolic ==> Join(Lexical([], parts).value) !in symlinks)
  }

  /** The check as the scan runs it: one stack, pushed and popped along the target. */
  method CheckLink(l: Link, symlinks: set<Text>) returns (ok: bool)
    ensures ok <==> LinkOk(l, symlinks)
  {
    hide Join, Segments;
    if l.target == [] || l.target[0] == SLASH {
      return false;
    }
    var parts := Segments(l.target);
    var stack := Start(l);
    var i := 0;
    while i < |parts|
      invariant 0 <= i <= |parts|
      invariant Lexical(Start(l), parts[..i]) == Some(stack)
      invariant forall k :: 0 <= k <= i ==> Lexical(Start(l), parts[..k]).Some?
      invariant forall k :: 1 <= k <= i && k < |parts| ==> Join(Lexical(Start(l), parts[..k]).value) !in symlinks
    {
      assert parts[..i+1][..i] == parts[..i];
      if parts[i] == DOT_DOT {
        if stack == [] {
          assert Lexical(Start(l), parts[..i+1]).None?;
          return false;
        }
        stack := Parent(stack);
      } else {
        stack := stack + [parts[i]];
      }
      assert Lexical(Start(l), parts[..i+1]) == Some(stack);
      if i < |parts| - 1 && Join(stack) in symlinks {
        return false;
      }
      i := i + 1;
    }
    assert parts[..i] == parts;
    if !l.symbolic && Join(stack) in symlinks {
      return false;
    }
    return true;
  }

  // --- The whole archive.

  function Symlinks(links: seq<Link>): set<Text> {
    set i | 0 <= i < |links| && links[i].symbolic :: Join(links[i].segments)
  }

  predicate WrittenDirectly(segments: seq<Text>, symlinks: set<Text>) {
    forall i :: 1 <= i < |segments| ==> Join(segments[..i]) !in symlinks
  }

  /** The final cross check over all entries and links. */
  predicate Accepted(seen: seq<seq<Text>>, links: seq<Link>) {
    && (forall i :: 0 <= i < |seen| ==> WrittenDirectly(seen[i], Symlinks(links)))
    && (forall i :: 0 <= i < |links| ==> LinkOk(links[i], Symlinks(links)))
  }

  method CrossCheck(seen: seq<seq<Text>>, links: seq<Link>, symlinks: set<Text>) returns (ok: bool)
    requires symlinks == Symlinks(links)
    ensures ok <==> Accepted(seen, links)
  {
    for n := 0 to |seen|
      invariant forall i :: 0 <= i < n ==> WrittenDirectly(seen[i], symlinks)
    {
      var i := 1;
      while i < |seen[n]|
        invariant 1 <= i
        invariant forall k :: 1 <= k < i && k < |seen[n]| ==> Join(seen[n][..k]) !in symlinks
      {
        if Join(seen[n][..i]) in symlinks {
          return false;
        }
        i := i + 1;
      }
    }
    for n := 0 to |links|
      invariant forall i :: 0 <= i < n ==> LinkOk(links[i], symlinks)
    {
      var fine := CheckLink(links[n], symlinks);
      if !fine {
        return false;
      }
    }
    return true;
  }

  // --- The physical walk.

  /** Where a walk stands: a directory below the root, and the parts still to follow. */
  datatype Walker = Walker(at: seq<Text>, rest: seq<Text>)

  /** A walker about to leave the bundle. */
  predicate Escapes(w: Walker) {
    w.rest != [] && w.rest[0] == DOT_DOT && w.at == []
  }

  /** The next part is a symlink of the archive (`l`, extracted by now), and the walker follows it. */
  predicate Follows(l: Link, w: Walker, v: Walker) {
    && l.symbolic && w.rest != [] && w.rest[0] != DOT_DOT
    && l.segments == w.at + [w.rest[0]]
    && v == Walker(w.at, Segments(l.target) + w.rest[1..])
  }

  /** The next part is taken as a directory or file, or as the parent directory. */
  predicate Enters(w: Walker, v: Walker) {
    && w.rest != [] && !Escapes(w)
    && v.rest == w.rest[1..]
    && v.at == if w.rest[0] == DOT_DOT then Parent(w.at) else w.at + [w.rest[0]]
  }

  /** One physical step. A symlink may or may not have been extracted when the walker comes by, so
      both are possible at one: every extraction order is covered. */
  predicate Moves(links: seq<Link>, w: Walker, v: Walker) {
    || Enters(w, v)
    || exists i :: 0 <= i < |links| && Follows(links[i], w, v)
  }

  predicate Journey(links: seq<Link>, ws: seq<Walker>) {
    |ws| >= 1 && forall i :: 1 <= i < |ws| ==> Moves(links, ws[i-1], ws[i])
  }

  /** `w` has taken the first `k` parts of a checked walk, without having followed any link in it. */
  predicate OnTrail(w: Walker, start: seq<Text>, parts: seq<Text>, k: nat, symlinks: set<Text>) {
    && k <= |parts| && StaysInside(start, parts, symlinks)
    && Lexical(start, parts[..k]) == Some(w.at) && w.rest == parts[k..]
  }

  ghost predicate Checked(w: Walker, symlinks: set<Text>) {
    exists start, parts, k :: OnTrail(w, start, parts, k, symlinks)
  }

  lemma TrailStaysInside(w: Walker, start: seq<Text>, parts: seq<Text>, k: nat, symlinks: set<Text>)
    requires OnTrail(w, start, parts, k, symlinks)
    ensures !Escapes(w)
  {
    if k < |parts| {
      assert parts[..k+1][..k] == parts[..k];
      assert Lexical(start, parts[..k+1]).Some?;
    }
  }

  lemma TrailEnters(w: Walker, v: Walker, start: seq<Text>, parts: seq<Text>, k: nat, symlinks: set<Text>)
    requires OnTrail(w, start, parts, k, symlinks) && Enters(w, v)
    ensures OnTrail(v, start, parts, k + 1, symlinks)
  {
    assert parts[..k+1][..k] == parts[..k];
    assert parts[k..][1..] == parts[k+1..];
  }

  /** A link can only be followed at the end of a checked walk, where its own checked walk begins. */
  lemma TrailFollows(links: seq<Link>, i: nat, w: Walker, v: Walker, start: seq<Text>, parts: seq<Text>, k: nat)
    requires i < |links| && LinkOk(links[i], Symlinks(links)) && Follows(links[i], w, v)
    requires OnTrail(w, start, parts, k, Symlinks(links))
    ensures k + 1 == |parts| && w.at == Start(links[i])
    ensures OnTrail(v, Start(links[i]), Segments(links[i].target), 0, Symlinks(links))
  {
    var l := links[i];
    assert parts[..k+1][..k] == parts[..k];
    assert Lexical(start, parts[..k+1]) == Some(l.segments);
    assert Join(l.segments) in Symlinks(links);
    assert k + 1 == |parts|;
    assert parts[k..][1..] == [];
    assert v.rest == Segments(l.target);
    assert l.segments[..|l.segments|-1] == w.at;
  }

  lemma {:induction false} JourneyStaysChecked(seen: seq<seq<Text>>, links: seq<Link>, ws: seq<Walker>, n: nat)
    requires Accepted(seen, links) && Journey(links, ws) && n < |ws| && Checked(ws[0], Symlinks(links))
    ensures Checked(ws[n], Symlinks(links))
  {
    if n > 0 {
      JourneyStaysChecked(seen, links, ws, n - 1);
      var w, v := ws[n-1], ws[n];
      var start, parts, k :| OnTrail(w, start, parts, k, Symlinks(links));
      assert Moves(links, w, v);
      if Enters(w, v) {
        TrailEnters(w, v, start, parts, k, Symlinks(links));
      } else {
        var i :| 0 <= i < |links| && Follows(links[i], w, v);
        TrailFollows(links, i, w, v, start, parts, k);
      }
    }
  }

  /** In an accepted archive, following the target of any link from where the link lies, and any
      further links met on the way to any depth and in any extraction order, never climbs above
      the bundle root. */
  lemma LinksNeverEscape(seen: seq<seq<Text>>, links: seq<Link>, i: nat, ws: seq<Walker>, n: nat)
    requires Accepted(seen, links) && i < |links| && Journey(links, ws) && n < |ws|
    requires ws[0] == Walker(Start(links[i]), Segments(links[i].target))
    ensures !Escapes(ws[n])
  {
    var parts := Segments(links[i].target);
    assert parts[..0] == [] && parts[0..] == parts;
    assert OnTrail(ws[0], Start(links[i]), parts, 0, Symlinks(links));
    JourneyStaysChecked(seen, links, ws, n);
    var start, rest, k :| OnTrail(ws[n], start, rest, k, Symlinks(links));
    TrailStaysInside(ws[n], start, rest, k, Symlinks(links));
  }

  /** No entry name may hold a parent segment, so its own lexical walk is the path itself. */
  lemma {:induction false} PlainPath(segments: seq<Text>)
    requires forall i :: 0 <= i < |segments| ==> segments[i] != DOT_DOT
    ensures Lexical([], segments) == Some(segments)
  {
    if segments != [] {
      PlainPath(segments[..|segments|-1]);
      assert segments == segments[..|segments|-1] + [segments[|segments|-1]];
    }
  }

  lemma NoneToFollow(links: seq<Link>, w: Walker, v: Walker, path: seq<Text>, n: nat)
    requires 1 <= n < |path| && WrittenDirectly(path, Symlinks(links)) && w.rest != [] && w.at + [w.rest[0]] == path[..n]
    ensures forall i :: 0 <= i < |links| ==> !Follows(links[i], w, v)
  {
    assert Join(path[..n]) !in Symlinks(links);
    assert forall i :: 0 <= i < |links| && links[i].symbolic ==> Join(links[i].segments) in Symlinks(links);
  }

  /** Whatever was extracted before it, an entry is written where its name says: the walk to it
      follows no link until its last part. */
  lemma {:induction false} EntriesAreWrittenDirectly(seen: seq<seq<Text>>, links: seq<Link>, e: nat, ws: seq<Walker>, n: nat)
    requires Accepted(seen, links) && e < |seen| && Journey(links, ws)
    requires forall i :: 0 <= i < |seen[e]| ==> seen[e][i] != DOT_DOT
    requires ws[0] == Walker([], seen[e]) && n < |seen[e]| && n < |ws|
    ensures ws[n] == Walker(seen[e][..n], seen[e][n..])
  {
    if n > 0 {
      EntriesAreWrittenDirectly(seen, links, e, ws, n - 1);
      var w, v, path := ws[n-1], ws[n], seen[e];
      assert Moves(links, w, v);
      assert WrittenDirectly(path, Symlinks(links));
      assert path[..n] == path[..n-1] + [path[n-1]];
      NoneToFollow(links, w, v, path, n);
      assert path[n-1..][1..] == path[n..];
    }
  }

  /** The lexical stack is where the physical walk of a checked target arrives, before whatever
      stands there is itself resolved. */
  lemma {:induction false} LexicalAgreesWithPhysical(seen: seq<seq<Text>>, links: seq<Link>, i: nat, ws: seq<Walker>, n: nat)
    requires Accepted(seen, links) && i < |links| && Journey(links, ws)
    requires ws[0] == Walker(Start(links[i]), Segments(links[i].target))
    requires n < |ws| && n < |Segments(links[i].target)|
    ensures Lexical(Start(links[i]), Segments(links[i].target)[..n]) == Some(ws[n].at)
    ensures ws[n].rest == Segments(links[i].target)[n..]
  {
    hide Segments, Join, Symlinks;
    var parts := Segments(links[i].target);
    if n == 0 {
      assert parts[..0] == [] && parts[0..] == parts;
    } else {
      LexicalAgreesWithPhysical(seen, links, i, ws, n - 1);
      var w, v := ws[n-1], ws[n];
      assert OnTrail(w, Start(links[i]), parts, n - 1, Symlinks(links));
      assert Moves(links, w, v);
      if !Enters(w, v) {
        var m :| 0 <= m < |links| && Follows(links[m], w, v);
        TrailFollows(links, m, w, v, Start(links[i]), parts, n - 1);
        assert false;
      }
      TrailEnters(w, v, Start(links[i]), parts, n - 1, Symlinks(links));
    }
  }

  /** Nor does the walk to an entry, links at its last part included, ever leave the bundle. */
  lemma EntriesNeverEscape(seen: seq<seq<Text>>, links: seq<Link>, e: nat, ws: seq<Walker>, n: nat)
    requires Accepted(seen, links) && e < |seen| && Journey(links, ws) && n < |ws|
    requires forall i :: 0 <= i < |seen[e]| ==> seen[e][i] != DOT_DOT
    requires ws[0] == Walker([], seen[e])
    ensures !Escapes(ws[n])
  {
    var path := seen[e];
    forall k | 0 <= k <= |path| ensures Lexical([], path[..k]) == Some(path[..k]) {
      PlainPath(path[..k]);
    }
    assert path[..|path|] == path && path[..0] == [] && path[0..] == path;
    assert WrittenDirectly(path, Symlinks(links));
    assert OnTrail(ws[0], [], path, 0, Symlinks(links));
    JourneyStaysChecked(seen, links, ws, n);
    var start, parts, k :| OnTrail(ws[n], start, parts, k, Symlinks(links));
    TrailStaysInside(ws[n], start, parts, k, Symlinks(links));
  }

  // --- And nothing else is refused: a link whose own walk is plain passes.

  /** `ws` walks the parts one by one, following no link and never above the root. */
  predicate PlainWalk(ws: seq<Walker>, start: seq<Text>, parts: seq<Text>) {
    && |ws| == |parts| + 1 && ws[0] == Walker(start, parts)
    && forall k :: 1 <= k < |ws| ==> Enters(ws[k-1], ws[k])
  }

  lemma {:induction false} PlainWalkIsLexical(ws: seq<Walker>, start: seq<Text>, parts: seq<Text>, k: nat)
    requires PlainWalk(ws, start, parts) && k <= |parts|
    ensures ws[k].rest == parts[k..] && Lexical(start, parts[..k]) == Some(ws[k].at)
  {
    if k == 0 {
      assert parts[0..] == parts && parts[..0] == [];
    } else {
      PlainWalkIsLexical(ws, start, parts, k - 1);
      assert Enters(ws[k-1], ws[k]);
      assert parts[..k][..k-1] == parts[..k-1] && parts[k-1..][1..] == parts[k..];
    }
  }

  lemma WalksPlainly(start: seq<Text>, parts: seq<Text>) returns (ws: seq<Walker>)
    requires forall k :: 0 <= k <= |parts| ==> Lexical(start, parts[..k]).Some?
    ensures PlainWalk(ws, start, parts)
  {
    ws := seq(|parts| + 1, k requires 0 <= k <= |parts| => Walker(Lexical(start, parts[..k]).value, parts[k..]));
    assert parts[0..] == parts && parts[..0] == [];
    forall k | 1 <= k < |ws| ensures Enters(ws[k-1], ws[k]) {
      assert parts[..k][..k-1] == parts[..k-1] && parts[k-1..][1..] == parts[k..];
      assert Lexical(start, parts[..k]).Some?;
    }
  }

  /** A link passes exactly when its target is relative and not empty, a plain walk along it stays
      inside, no place before its last is a symlink of the archive, and for a hard link nor is that. */
  lemma LinkOkExactly(l: Link, symlinks: set<Text>)
    ensures LinkOk(l, symlinks) <==>
      && l.target != [] && l.target[0] != SLASH
      && exists ws: seq<Walker> ::
        && PlainWalk(ws, Start(l), Segments(l.target))
        && (forall k :: 1 <= k < |ws| - 1 ==> Join(ws[k].at) !in symlinks)
        && (!l.symbolic ==> Join(ws[|ws|-1].at) !in symlinks)
  {
    hide Segments, Join, Enters;
    var start, parts := Start(l), Segments(l.target);
    assert parts[..|parts|] == parts;
    if LinkOk(l, symlinks) {
      var ws := WalksPlainly(start, parts);
      forall k | 0 <= k <= |parts| ensures Lexical(start, parts[..k]) == Some(ws[k].at) {
        PlainWalkIsLexical(ws, start, parts, k);
      }
    }
    forall ws: seq<Walker> | PlainWalk(ws, start, parts)
      ensures forall k :: 0 <= k <= |parts| ==> Lexical(start, parts[..k]) == Some(ws[k].at)
    {
      forall k | 0 <= k <= |parts| ensures Lexical(start, parts[..k]) == Some(ws[k].at) {
        PlainWalkIsLexical(ws, start, parts, k);
      }
    }
  }
}
