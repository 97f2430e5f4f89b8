/** What a producer does to free text before it writes it into a document: control characters become
    visible escapes, credential shapes are masked, and the text is cut to its bound. The masking
    pass itself is a parameter; whether a shape is left is checked on its result. */
module Redaction {
  import opened Texts
  import Sequences
  import Canonical

  // --- Control characters.

  predicate IsControl(c: char, singleLine: bool) {
    || (c as int < 0x20 && (singleLine || (c != '\t' && c != '\n')))
    || 0x7f <= c as int <= 0x9f
  }

  predicate NoControl(s: string, singleLine: bool) {
    forall i :: 0 <= i < |s| ==> !IsControl(s[i], singleLine)
  }

  function Visible(c: char): (s: string)
    requires c as int < 0x100
    ensures forall singleLine :: NoControl(s, singleLine)
  {
    "\\u00" + [Canonical.HexDigit(c as int / 16), Canonical.HexDigit(c as int % 16)]
  }

  function EscapeControls(s: string, singleLine: bool): string {
    if s == [] then []
    else (if IsControl(s[0], singleLine) then Visible(s[0]) else [s[0]]) + EscapeControls(s[1..], singleLine)
  }

  lemma {:induction false} EscapedHasNone(s: string, singleLine: bool)
    ensures NoControl(EscapeControls(s, singleLine), singleLine)
    ensures NoControl(s, singleLine) ==> EscapeControls(s, singleLine) == s
  {
    if s != [] {
      EscapedHasNone(s[1..], singleLine);
      assert s == [s[0]] + s[1..];
    }
  }

  lemma EscapeOne(c: char, singleLine: bool)
    ensures EscapeControls([c], singleLine) == if IsControl(c, singleLine) then Visible(c) else [c]
  {
    assert [c][1..] == [];
  }

  lemma {:induction false} EscapeConcat(a: string, b: string, singleLine: bool)
    ensures EscapeControls(a + b, singleLine) == EscapeControls(a, singleLine) + EscapeControls(b, singleLine)
  {
    hide Visible;
    if a == [] {
      assert a + b == b;
    } else {
      EscapeConcat(a[1..], b, singleLine);
      assert (a + b)[1..] == a[1..] + b;
      Sequences.Associate(if IsControl(a[0], singleLine) then Visible(a[0]) else [a[0]],
                          EscapeControls(a[1..], singleLine), EscapeControls(b, singleLine));
    }
  }

  /** A control character is spelled by its two hexadecimal digits where it stood; every other
      character stays as it is. */
  lemma EscapedInPlace(s: string, singleLine: bool, i: nat)
    requires i < |s|
    ensures EscapeControls(s, singleLine)
         == EscapeControls(s[..i], singleLine) + EscapeControls([s[i]], singleLine) + EscapeControls(s[i+1..], singleLine)
    ensures var e := EscapeControls([s[i]], singleLine);
      if IsControl(s[i], singleLine) then
        |e| == 6 && e[..4] == "\\u00" && 16 * Canonical.HexValue(e[4]) + Canonical.HexValue(e[5]) == s[i] as int
      else e == [s[i]]
  {
    EscapeOne(s[i], singleLine);
    hide EscapeControls;
    EscapeConcat(s[..i] + [s[i]], s[i+1..], singleLine);
    EscapeConcat(s[..i], [s[i]], singleLine);
    assert s == s[..i] + [s[i]] + s[i+1..];
  }

  // --- The four credential shapes; each is somewhere in the text.

  predicate Letter(c: char) { 'A' <= c <= 'Z' || 'a' <= c <= 'z' }

  predicate SchemeChar(c: char) { Letter(c) || IsDigit(c) || c in {'+', '.', '-'} }

  predicate UserChar(c: char) { c as int >= 0x20 && c !in {'/', '?', '#', '@', ' '} }

  predicate All(s: string, from: int, to: int, p: char -> bool)
    requires 0 <= from <= to <= |s|
  {
    forall i :: from <= i < to ==> p(s[i])
  }

  predicate At(s: string, i: int, word: string) {
    0 <= i <= |s| - |word| && s[i..i+|word|] == word
  }

  /** `scheme://user:password@`, its parts ending before `e`, `c` and at `a`. */
  predicate UrlAt(s: string, b: int, e: int, c: int, a: int) {
    && 0 <= b < e && e + 3 <= c < a < |s|
    && Letter(s[b]) && All(s, b + 1, e, SchemeChar) && At(s, e, "://")
    && All(s, e + 3, c, UserChar) && s[c] == ':' && All(s, c + 1, a, UserChar) && s[a] == '@'
  }

  predicate KeyLabelChar(c: char) { 'A' <= c <= 'Z' || IsDigit(c) || c == ' ' }

  const BEGIN := "-----BEGIN "
  const PRIVATE_KEY := "PRIVATE KEY-----"

  predicate PrivateKeyAt(s: string, b: int, e: int) {
    At(s, b, BEGIN) && b + |BEGIN| <= e <= |s| && All(s, b + |BEGIN|, e, KeyLabelChar) && At(s, e, PRIVATE_KEY)
  }

  predicate TokenChar(c: char) { Letter(c) || IsDigit(c) || c in {'.', '_', '~', '+', '/', '=', '-'} }

  predicate BearerAt(s: string, b: int) {
    && (At(s, b, "Bearer ") || At(s, b, "bearer ") || At(s, b, "BEARER "))
    && b + 15 <= |s| && All(s, b + 7, b + 15, TokenChar)
  }

  predicate Keyword(w: string) {
    || w in {"Password", "password", "Passwd", "passwd", "PASSWORD", "PASSWD", "Secret", "secret", "SECRET", "Token", "token", "TOKEN"}
    || w in {"Api_Key", "Api_key", "ApiKey", "Apikey", "api_Key", "api_key", "apiKey", "apikey", "API_KEY", "APIKEY"}
    || w in {"Vault_Key", "Vault_key", "vault_Key", "vault_key", "VAULT_KEY"}
  }

  predicate ValueChar(c: char) { c as int > 0x20 }

  /** A keyword, a separator at `p` and the first character of a value at `v`, each of the gaps
      at most one space. */
  predicate AssignmentAt(s: string, b: int, e: int, p: int, v: int) {
    && 0 <= b < e <= p < v < |s|
    && Keyword(s[b..e]) && (p == e || (p == e + 1 && s[e] == ' '))
    && (s[p] == '=' || s[p] == ':')
    && (v == p + 1 || (v == p + 2 && s[p+1] == ' ')) && ValueChar(s[v])
  }

  predicate Shaped(s: string) {
    || (exists b, e, c, a :: 0 <= b <= |s| && 0 <= e <= |s| && 0 <= c <= |s| && 0 <= a <= |s| && UrlAt(s, b, e, c, a))
    || (exists b, e :: 0 <= b <= |s| && 0 <= e <= |s| && PrivateKeyAt(s, b, e))
    || (exists b :: 0 <= b <= |s| && BearerAt(s, b))
    || (exists b, e, p, v :: 0 <= b <= |s| && 0 <= e <= |s| && 0 <= p <= |s| && 0 <= v <= |s| && AssignmentAt(s, b, e, p, v))
  }

  lemma ShapedSomewhere(s: string)
    ensures Shaped(s) <==>
      || (exists b, e, c, a :: UrlAt(s, b, e, c, a))
      || (exists b, e :: PrivateKeyAt(s, b, e))
      || (exists b :: BearerAt(s, b))
      || (exists b, e, p, v :: AssignmentAt(s, b, e, p, v))
  {
    hide All, Keyword;
  }

  // --- Shapes and cuts.

  lemma PrefixAt(s: string, t: string, i: int, word: string)
    requires s <= t
    ensures At(s, i, word) ==> At(t, i, word)
    ensures At(t, i, word) && i + |word| <= |s| ==> At(s, i, word)
  {
    if 0 <= i <= |s| - |word| {
      assert s[i..i+|word|] == t[i..i+|word|];
    }
  }

  lemma UrlPrefix(s: string, t: string, b: int, e: int, c: int, a: int)
    requires s <= t
    ensures UrlAt(s, b, e, c, a) <==> UrlAt(t, b, e, c, a) && a < |s|
  {
    PrefixAt(s, t, e, "://");
  }

  lemma PrivateKeyPrefix(s: string, t: string, b: int, e: int)
    requires s <= t
    ensures PrivateKeyAt(s, b, e) <==> PrivateKeyAt(t, b, e) && e + |PRIVATE_KEY| <= |s|
  {
    PrefixAt(s, t, b, BEGIN);
    PrefixAt(s, t, e, PRIVATE_KEY);
  }

  lemma BearerPrefix(s: string, t: string, b: int)
    requires s <= t
    ensures BearerAt(s, b) <==> BearerAt(t, b) && b + 15 <= |s|
  {
    PrefixAt(s, t, b, "Bearer ");
    PrefixAt(s, t, b, "bearer ");
    PrefixAt(s, t, b, "BEARER ");
  }

  lemma AssignmentPrefix(s: string, t: string, b: int, e: int, p: int, v: int)
    requires s <= t
    ensures AssignmentAt(s, b, e, p, v) <==> AssignmentAt(t, b, e, p, v) && v < |s|
  {
    hide Keyword;
    if 0 <= b < e <= |s| {
      assert s[b..e] == t[b..e];
    }
  }

  /** What has no shape has none in any part it begins with. */
  lemma PrefixHasNone(s: string, t: string)
    requires s <= t && !Shaped(t)
    ensures !Shaped(s)
  {
    hide UrlAt, PrivateKeyAt, BearerAt, AssignmentAt, Shaped;
    ShapedSomewhere(s);
    ShapedSomewhere(t);
    if b, e, c, a :| UrlAt(s, b, e, c, a) {
      UrlPrefix(s, t, b, e, c, a);
    }
    if b, e :| PrivateKeyAt(s, b, e) {
      PrivateKeyPrefix(s, t, b, e);
    }
    if b :| BearerAt(s, b) {
      BearerPrefix(s, t, b);
    }
    if b, e, p, v :| AssignmentAt(s, b, e, p, v) {
      AssignmentPrefix(s, t, b, e, p, v);
    }
  }

  const ELLIPSIS: char := '\U{2026}'

  predicate Separator(c: char) { c == ' ' || c == '=' || c == ':' }

  predicate EndsInSeparator(s: string) {
    s != [] && Separator(s[|s|-1])
  }

  lemma EllipsisEndsNoKey(s: string, b: int, e: int)
    ensures PrivateKeyAt(s + [ELLIPSIS], b, e) ==> e + |PRIVATE_KEY| <= |s|
  {
    var t := s + [ELLIPSIS];
    if PrivateKeyAt(t, b, e) {
      assert t[e..e+|PRIVATE_KEY|][|PRIVATE_KEY|-1] == '-';
      assert t[e+|PRIVATE_KEY|-1] == '-';
    }
  }

  lemma BearerEnds(s: string, b: int)
    requires BearerAt(s, b)
    ensures TokenChar(s[b+14])
  {
  }

  /** The only shape an ellipsis can complete is an assignment whose value it would be. */
  lemma EllipsisCompletes(s: string)
    requires !Shaped(s) && Shaped(s + [ELLIPSIS])
    ensures EndsInSeparator(s)
  {
    hide PrivateKeyAt, Keyword, At, Shaped;
    var t := s + [ELLIPSIS];
    ShapedSomewhere(s);
    ShapedSomewhere(t);
    if b, e, c, a :| UrlAt(t, b, e, c, a) {
      UrlPrefix(s, t, b, e, c, a);
    }
    if b, e :| PrivateKeyAt(t, b, e) {
      EllipsisEndsNoKey(s, b, e);
      PrivateKeyPrefix(s, t, b, e);
    }
    if b :| BearerAt(t, b) {
      BearerEnds(t, b);
      BearerPrefix(s, t, b);
    }
    if b, e, p, v :| AssignmentAt(t, b, e, p, v) {
      AssignmentPrefix(s, t, b, e, p, v);
    }
  }

  function Trimmed(s: string): (r: string)
    ensures r <= s && !EndsInSeparator(r)
  {
    if EndsInSeparator(s) then Trimmed(s[..|s|-1]) else s
  }

  /** So dropping the separators in front of it removes every one. */
  lemma TrimmedHasNone(s: string)
    requires !Shaped(s)
    ensures !Shaped(Trimmed(s) + [ELLIPSIS])
  {
    hide Shaped;
    PrefixHasNone(Trimmed(s), s);
    if Shaped(Trimmed(s) + [ELLIPSIS]) {
      EllipsisCompletes(Trimmed(s));
    }
  }

  // --- The text that replaces what no round could mask.

  predicate Dull(s: string) {
    forall i :: 0 <= i < |s| ==> s[i] !in {'-', 'b', 'B', ':', '=', '@'}
  }

  const LABEL := "[redacted"
  const NOTE := " the text" + " looked" + " like it" + " held a" + " creden" + "tial]"
  const UNREDACTABLE := LABEL + ":" + NOTE

  lemma NoteIsDull()
    ensures Dull(LABEL) && Dull(NOTE)
  {
    assert Dull(" the text") && Dull(" looked") && Dull(" like it") && Dull(" held a") && Dull(" creden") && Dull("tial]");
  }

  lemma KeywordEnd(w: string)
    requires Keyword(w)
    ensures |w| >= 2 && !(w[|w|-2] == 'e' && w[|w|-1] == 'd')
  {
  }

  lemma UnredactableHasOneColon()
    ensures Quiet(UNREDACTABLE)
  {
    NoteIsDull();
    hide Dull;
    assert LABEL[7] == 'e' && LABEL[8] == 'd' && |LABEL| == 9;
    DullText(LABEL, NOTE);
    assert (" the text" + " looked" + " like it" + " held a" + " creden" + "tial]")[0] == ' ';
  }

  lemma DullText(a: string, b: string)
    requires Dull(a) && Dull(b)
    ensures forall i :: 0 <= i < |a + ":" + b| && i != |a| ==> (a + ":" + b)[i] !in {'-', 'b', 'B', ':', '=', '@'}
  {
  }

  /** One colon, after `ed`, and none of the other characters a shape needs. */
  predicate Quiet(u: string) {
    && |u| > 10 && u[7] == 'e' && u[8] == 'd' && u[9] == ':' && u[10] == ' '
    && forall i :: 0 <= i < |u| && i != 9 ==> u[i] !in {'-', 'b', 'B', ':', '=', '@'}
  }

  lemma QuietHasNoKey(u: string, b: int, e: int)
    requires Quiet(u)
    ensures !PrivateKeyAt(u, b, e) && !BearerAt(u, b)
  {
    hide All;
    if At(u, b, BEGIN) {
      AtStarts(u, b, BEGIN);
    }
    if BearerAt(u, b) {
      BearerStarts(u, b);
    }
  }

  lemma QuietHasNoAssignment(u: string, b: int, e: int, p: int, v: int)
    requires Quiet(u)
    ensures !AssignmentAt(u, b, e, p, v)
  {
    hide Keyword;
    if AssignmentAt(u, b, e, p, v) {
      AssignmentNamesKeyword(u, b, e, p, v);
    }
  }

  lemma QuietHasNone(u: string)
    requires Quiet(u)
    ensures !Shaped(u)
  {
    hide Shaped, Quiet, UrlAt, PrivateKeyAt, BearerAt, AssignmentAt;
    ShapedSomewhere(u);
    forall b, e, c, a ensures !UrlAt(u, b, e, c, a) {
      QuietHasNoUrl(u, b, e, c, a);
    }
    forall b, e ensures !PrivateKeyAt(u, b, e) {
      QuietHasNoKey(u, b, e);
    }
    forall b ensures !BearerAt(u, b) {
      QuietHasNoKey(u, b, 0);
    }
    forall b, e, p, v ensures !AssignmentAt(u, b, e, p, v) {
      QuietHasNoAssignment(u, b, e, p, v);
    }
  }

  lemma QuietHasNoUrl(u: string, b: int, e: int, c: int, a: int)
    requires Quiet(u)
    ensures !UrlAt(u, b, e, c, a)
  {
    hide All, At;
  }

  lemma UnredactableHasNone()
    ensures !Shaped(UNREDACTABLE)
  {
    hide Shaped;
    UnredactableHasOneColon();
    QuietHasNone(UNREDACTABLE);
  }

  lemma AtStarts(s: string, b: int, word: string)
    requires word != [] && At(s, b, word)
    ensures s[b] == word[0]
  {
    assert s[b..b+|word|][0] == s[b];
  }

  lemma BearerStarts(s: string, b: int)
    requires BearerAt(s, b)
    ensures s[b] == 'B' || s[b] == 'b'
  {
    if At(s, b, "Bearer ") {
      AtStarts(s, b, "Bearer ");
    } else if At(s, b, "bearer ") {
      AtStarts(s, b, "bearer ");
    } else {
      AtStarts(s, b, "BEARER ");
    }
  }

  lemma AssignmentNamesKeyword(s: string, b: int, e: int, p: int, v: int)
    requires AssignmentAt(s, b, e, p, v)
    ensures e >= 2 && !(s[e-2] == 'e' && s[e-1] == 'd')
  {
    hide Keyword;
    var w := s[b..e];
    KeywordEnd(w);
    assert w[|w|-1] == s[e-1] && w[|w|-2] == s[e-2];
  }

  // --- The whole.

  /** A pass over the text that masks what it finds and writes no control character of its own. */
  ghost predicate MaskOk(mask: string -> string, singleLine: bool) {
    forall t :: NoControl(t, singleLine) ==> NoControl(mask(t), singleLine)
  }

  /** What the schema asks of a text. */
  predicate TextOk(s: string, maxLength: nat, singleLine: bool) {
    NoControl(s, singleLine) && !Shaped(s) && |s| <= maxLength
  }

  function Rounds(text: string, mask: string -> string, n: nat): string
    decreases n
  {
    if n == 0 || !Shaped(text) then text else Rounds(mask(text), mask, n - 1)
  }

  /** `r` is the first `maxLength - 1` characters of the text and an ellipsis; only separators are
      dropped in front of it, and only where they would make it look like a value. */
  predicate IsCut(r: string, text: string, maxLength: nat)
    requires 1 <= maxLength <= |text|
  {
    && r != [] && r[|r|-1] == ELLIPSIS && r[..|r|-1] <= text[..maxLength-1]
    && (forall i :: |r| - 1 <= i < maxLength - 1 ==> Separator(text[i]))
    && (!Shaped(text[..maxLength-1] + [ELLIPSIS]) ==> |r| == maxLength)
    && (Shaped(text[..maxLength-1] + [ELLIPSIS]) ==> !EndsInSeparator(r[..|r|-1]))
  }

  /** Every text, whatever it holds, comes out as one the schema accepts, within any positive bound;
      and a text the schema accepts comes out unchanged. */
  method RedactText(value: string, maxLength: nat, singleLine: bool, mask: string -> string) returns (r: string)
    requires maxLength >= 1 && MaskOk(mask, singleLine)
    ensures TextOk(r, maxLength, singleLine)
    ensures TextOk(value, maxLength, singleLine) ==> r == value
    ensures var masked := Rounds(EscapeControls(value, singleLine), mask, 4);
      var text := if Shaped(masked) then UNREDACTABLE else masked;
      if |text| <= maxLength then r == text else IsCut(r, text, maxLength)
  {
    hide Shaped, EscapeControls, UNREDACTABLE, IsCut;
    var text := EscapeControls(value, singleLine);
    EscapedHasNone(value, singleLine);
    var round := 0;
    while round < 4 && Shaped(text)
      invariant 0 <= round <= 4 && NoControl(text, singleLine)
      invariant !Shaped(EscapeControls(value, singleLine)) ==> text == EscapeControls(value, singleLine)
      invariant Rounds(EscapeControls(value, singleLine), mask, 4) == Rounds(text, mask, 4 - round)
    {
      text := mask(text);
      round := round + 1;
    }
    if Shaped(text) {
      text := UNREDACTABLE;
      UnredactableHasNone();
      UnredactableIsPlain(singleLine);
    }
    if |text| <= maxLength {
      return text;
    }
    r := Cut(text, maxLength, singleLine);
  }

  /** The first points of a longer text, closed by an ellipsis. */
  method Cut(text: string, maxLength: nat, singleLine: bool) returns (r: string)
    requires 1 <= maxLength < |text| && NoControl(text, singleLine) && !Shaped(text)
    ensures TextOk(r, maxLength, singleLine)
    ensures IsCut(r, text, maxLength)
  {
    hide Shaped, Trimmed;
    var cut := text[..maxLength-1];
    TrimmedDrops(cut);
    PrefixHasNone(cut, text);
    if Shaped(cut + [ELLIPSIS]) {
      TrimmedHasNone(cut);
      cut := TrimEnd(cut);
    }
    r := cut + [ELLIPSIS];
    assert r[..|r|-1] == cut;
  }

  lemma {:induction false} TrimmedDrops(s: string)
    ensures forall i :: |Trimmed(s)| <= i < |s| ==> Separator(s[i])
  {
    if EndsInSeparator(s) {
      TrimmedDrops(s[..|s|-1]);
    }
  }

  method TrimEnd(s: string) returns (r: string)
    ensures r == Trimmed(s)
  {
    r := s;
    while EndsInSeparator(r)
      invariant Trimmed(r) == Trimmed(s)
      decreases |r|
    {
      r := r[..|r|-1];
    }
  }

  lemma UnredactableIsPlain(singleLine: bool)
    ensures NoControl(UNREDACTABLE, singleLine)
  {
    assert NoControl(LABEL, singleLine) && NoControl(" the text", singleLine) && NoControl(" looked", singleLine);
    assert NoControl(" like it", singleLine) && NoControl(" held a", singleLine);
    assert NoControl(" creden", singleLine) && NoControl("tial]", singleLine);
  }
}
