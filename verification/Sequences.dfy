/** Sequences of any element: the first place of one, splitting at it and joining again. */
module Sequences {
  lemma Associate<T>(a: seq<T>, b: seq<T>, c: seq<T>)
    ensures a + b + c == a + (b + c)
  {
  }

  /** The first place of `x`, or the length when there is none. */
  function FirstAt<T(==)>(s: seq<T>, x: T): (i: nat)
    ensures i <= |s| && x !in s[..i] && (i < |s| ==> s[i] == x)
  {
    if s == [] || s[0] == x then 0
    else
      var i := FirstAt(s[1..], x);
      assert s[..i+1] == [s[0]] + s[1..][..i];
      i + 1
  }

  lemma FirstAtIs<T>(s: seq<T>, x: T, i: nat)
    requires i <= |s| && x !in s[..i] && (i < |s| ==> s[i] == x)
    ensures FirstAt(s, x) == i
  {
    var k := FirstAt(s, x);
    assert forall m :: 0 <= m < i ==> s[..i][m] == s[m];
    assert forall m :: 0 <= m < k ==> s[..k][m] == s[m];
  }

  /** The parts between the separators; one more than there are separators. */
  function Pieces<T(==)>(s: seq<T>, sep: T): (r: seq<seq<T>>)
    ensures |r| >= 1
    decreases |s|
  {
    if s == [] then [[]]
    else
      var rest := Pieces(s[1..], sep);
      if s[0] == sep then [[]] + rest else [[s[0]] + rest[0]] + rest[1..]
  }

  function Joined<T>(parts: seq<seq<T>>, sep: T): seq<T> {
    if parts == [] then []
    else if |parts| == 1 then parts[0]
    else parts[0] + [sep] + Joined(parts[1..], sep)
  }

  lemma {:induction false} PiecesHaveNoSeparator<T>(s: seq<T>, sep: T)
    ensures forall i :: 0 <= i < |Pieces(s, sep)| ==> sep !in Pieces(s, sep)[i]
    decreases |s|
  {
    if s != [] {
      PiecesHaveNoSeparator(s[1..], sep);
    }
  }

  lemma {:induction false} PiecesOfPlain<T>(s: seq<T>, sep: T)
    requires sep !in s
    ensures Pieces(s, sep) == [s]
    decreases |s|
  {
    if s != [] {
      PiecesOfPlain(s[1..], sep);
      assert s == [s[0]] + s[1..];
    }
  }

  lemma {:induction false} PiecesOfFirst<T>(s: seq<T>, rest: seq<T>, sep: T)
    requires sep !in s
    ensures Pieces(s + [sep] + rest, sep) == [s] + Pieces(rest, sep)
    decreases |s|
  {
    var t := s + [sep] + rest;
    if s == [] {
      assert t[1..] == rest;
    } else {
      assert t[1..] == s[1..] + [sep] + rest;
      PiecesOfFirst(s[1..], rest, sep);
      assert s == [s[0]] + s[1..];
    }
  }

  /** Joining and splitting again gives the same parts, */
  lemma {:induction false} PiecesOfJoined<T>(parts: seq<seq<T>>, sep: T)
    requires parts != [] && forall i :: 0 <= i < |parts| ==> sep !in parts[i]
    ensures Pieces(Joined(parts, sep), sep) == parts
    decreases |parts|
  {
    if |parts| == 1 {
      PiecesOfPlain(parts[0], sep);
    } else {
      PiecesOfFirst(parts[0], Joined(parts[1..], sep), sep);
      PiecesOfJoined(parts[1..], sep);
    }
  }

  lemma {:induction false} JoinedLonger<T>(x: T, parts: seq<seq<T>>, sep: T)
    requires parts != []
    ensures Joined([[x] + parts[0]] + parts[1..], sep) == [x] + Joined(parts, sep)
    ensures Joined([[]] + parts, sep) == [sep] + Joined(parts, sep)
  {
    var longer := [[x] + parts[0]] + parts[1..];
    assert longer[1..] == parts[1..] && ([[]] + parts)[1..] == parts;
    if |parts| > 1 {
      var rest := Joined(parts[1..], sep);
      Associate([x] + parts[0], [sep], rest);
      Associate([x], parts[0], [sep] + rest);
      Associate(parts[0], [sep], rest);
    }
  }

  /** and so does splitting and joining the text. */
  lemma {:induction false} JoinedOfPieces<T>(s: seq<T>, sep: T)
    ensures Joined(Pieces(s, sep), sep) == s
    decreases |s|
  {
    hide Joined;
    if s == [] {
      JoinedAlone([], sep);
    } else {
      JoinedOfPieces(s[1..], sep);
      JoinedLonger(s[0], Pieces(s[1..], sep), sep);
      assert s == [s[0]] + s[1..];
    }
  }

  lemma JoinedAlone<T>(part: seq<T>, sep: T)
    ensures Joined([part], sep) == part
  {
  }
}
