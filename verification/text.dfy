/** The handful of Python `str` operations the relay tool relies on, stated
    over `seq<char>`: `isspace`, `strip`, `lstrip('\t')`, `lower`, the `in`
    substring test, `split(sep)`, `split()[0]` and `int()`. */
module Text {
  import opened Prelude

  /** Python's `str.isspace` for a single character: the characters that
      `strip()` and `split()` treat as white space. */
  predicate IsSpace(c: char) {
    var n := c as int;
    (9 <= n <= 13) || (28 <= n <= 32) || n == 0x85 || n == 0xA0 || n == 0x1680
    || (0x2000 <= n <= 0x200A) || n == 0x2028 || n == 0x2029 || n == 0x202F
    || n == 0x205F || n == 0x3000
  }

  predicate IsTab(c: char) { c == '\t' }

  /** Number of leading characters of `s` that satisfy `c`. */
  function LeadingCount(s: string, c: char -> bool): (n: nat)
    ensures n <= |s|
    ensures forall i :: 0 <= i < n ==> c(s[i])
    ensures n == |s| || !c(s[n])
  {
    if s == [] || !c(s[0]) then 0 else 1 + LeadingCount(s[1..], c)
  }

  /** Number of trailing characters of `s` that satisfy `c`. */
  function TrailingCount(s: string, c: char -> bool): (n: nat)
    ensures n <= |s|
    ensures forall i :: |s| - n <= i < |s| ==> c(s[i])
    ensures n == |s| || !c(s[|s| - n - 1])
  {
    if s == [] || !c(s[|s| - 1]) then 0 else 1 + TrailingCount(s[..|s| - 1], c)
  }

  /** Python `line.strip()`. */
  function Strip(s: string): (r: string)
    ensures |r| <= |s|
    ensures r == [] || (!IsSpace(r[0]) && !IsSpace(r[|r| - 1]))
    ensures LeadingCount(s, IsSpace) + |r| <= |s|
    ensures r == s[LeadingCount(s, IsSpace)..LeadingCount(s, IsSpace) + |r|]
    ensures forall i :: 0 <= i < |s| && !IsSpace(s[i]) ==>
              LeadingCount(s, IsSpace) <= i < LeadingCount(s, IsSpace) + |r|
  {
    var t := s[LeadingCount(s, IsSpace)..];
    t[..|t| - TrailingCount(t, IsSpace)]
  }

  /** A string with no white space at either end is its own `strip()`. */
  lemma StripTrimmed(s: string)
    requires s != [] && !IsSpace(s[0]) && !IsSpace(s[|s| - 1])
    ensures Strip(s) == s
  {
    assert LeadingCount(s, IsSpace) == 0;
    assert s[0..] == s;
  }

  /** `len(line) - len(line.lstrip('\t'))`: the nesting depth of a catalog line. */
  function LeadingTabs(s: string): (n: nat)
    ensures n <= |s|
    ensures forall i :: 0 <= i < n ==> s[i] == '\t'
    ensures n == |s| || s[n] != '\t'
  {
    LeadingCount(s, IsTab)
  }

  /** `str.lower()` on ASCII letters; other characters are kept. */
  function Lower(s: string): (r: string)
    ensures |r| == |s|
    ensures forall i :: 0 <= i < |s| ==>
              r[i] == (if 'A' <= s[i] <= 'Z' then (s[i] as int + 32) as char else s[i])
  {
    if s == [] then []
    else [if 'A' <= s[0] <= 'Z' then (s[0] as int + 32) as char else s[0]] + Lower(s[1..])
  }

  /** `needle` occurs in `hay` starting at position `i`. */
  predicate OccursAt(hay: string, needle: string, i: nat) {
    i + |needle| <= |hay| && hay[i..i + |needle|] == needle
  }

  /** Python `needle in hay` for strings. */
  predicate Contains(hay: string, needle: string) {
    exists i: nat :: i <= |hay| && OccursAt(hay, needle, i)
  }

  /** A one-character needle occurs exactly when the character does. */
  lemma ContainsChar(hay: string, c: char)
    ensures Contains(hay, [c]) <==> c in hay
  {
    if c in hay {
      var i :| 0 <= i < |hay| && hay[i] == c;
      assert OccursAt(hay, [c], i);
    }
    if Contains(hay, [c]) {
      var i: nat :| i <= |hay| && OccursAt(hay, [c], i);
      assert hay[i] == c;
    }
  }

  /** The first occurrence of `sep` in `s` at or after position `k`. */
  function FindFrom(s: string, sep: string, k: nat): (r: Option<nat>)
    ensures r.Some? ==> k <= r.value && OccursAt(s, sep, r.value)
    ensures r.Some? ==> forall j :: k <= j < r.value ==> !OccursAt(s, sep, j)
    ensures r.None? ==> forall j :: k <= j ==> !OccursAt(s, sep, j)
    decreases |s| - k
  {
    if k + |sep| > |s| then None
    else if OccursAt(s, sep, k) then Some(k)
    else FindFrom(s, sep, k + 1)
  }

  /** Python `s.split(sep)` for a non-empty separator: the pieces between
      successive non-overlapping occurrences, scanning left to right. */
  function Split(s: string, sep: string): (r: seq<string>)
    requires |sep| > 0
    ensures |r| >= 1
    decreases |s|
  {
    match FindFrom(s, sep, 0)
    case None => [s]
    case Some(i) => [s[..i]] + Split(s[i + |sep|..], sep)
  }

  /** `sep.join(pieces)`. */
  function Join(pieces: seq<string>, sep: string): string
    requires |pieces| >= 1
  {
    if |pieces| == 1 then pieces[0] else pieces[0] + sep + Join(pieces[1..], sep)
  }

  /** Joining a piece in front of at least one more. */
  lemma JoinCons(a: string, rest: seq<string>, sep: string)
    requires |rest| >= 1
    ensures Join([a] + rest, sep) == a + sep + Join(rest, sep)
  {
    assert ([a] + rest)[1..] == rest;
  }

  /** A string is its part before `i`, the `m` characters from `i`, and the
      rest. */
  lemma Around(s: string, i: nat, m: nat)
    requires i + m <= |s|
    ensures s == s[..i] + s[i..i + m] + s[i + m..]
  {
  }

  /** The split at a first occurrence: the text before it, then the split of
      the text after it. */
  lemma SplitFound(s: string, sep: string, i: nat)
    requires |sep| > 0 && FindFrom(s, sep, 0) == Some(i)
    ensures i + |sep| <= |s| && s[i..i + |sep|] == sep
    ensures Split(s, sep) == [s[..i]] + Split(s[i + |sep|..], sep)
  {
    assert OccursAt(s, sep, i);
  }

  /** Joining the pieces of a split with the separator gives back the text. */
  lemma {:induction false} JoinSplit(s: string, sep: string)
    requires |sep| > 0
    ensures Join(Split(s, sep), sep) == s
    decreases |s|
  {
    match FindFrom(s, sep, 0)
    case None =>
    case Some(i) =>
      var rest := s[i + |sep|..];
      SplitFound(s, sep, i);
      JoinSplit(rest, sep);
      JoinCons(s[..i], Split(rest, sep), sep);
      Around(s, i, |sep|);
  }

  /** No piece of a split contains the separator. */
  lemma {:induction false} SplitPiecesFree(s: string, sep: string)
    requires |sep| > 0
    ensures forall k :: 0 <= k < |Split(s, sep)| ==> !Contains(Split(s, sep)[k], sep)
    decreases |s|
  {
    match FindFrom(s, sep, 0)
    case None =>
      assert Split(s, sep) == [s];
    case Some(i) =>
      var rest := s[i + |sep|..];
      SplitPiecesFree(rest, sep);
      assert Split(s, sep) == [s[..i]] + Split(rest, sep);
      forall j: nat | j <= i
        ensures !OccursAt(s[..i], sep, j)
      {
        if OccursAt(s[..i], sep, j) {
          assert j + |sep| <= i;
          assert s[..i][j..j + |sep|] == s[j..j + |sep|];
          assert OccursAt(s, sep, j);
        }
      }
  }

  /** The first piece of a split is the text before the first occurrence;
      the split has a second piece exactly when the separator occurs. */
  lemma SplitHead(s: string, sep: string)
    requires |sep| > 0
    ensures FindFrom(s, sep, 0).None? ==> Split(s, sep) == [s]
    ensures FindFrom(s, sep, 0).Some? ==>
              |Split(s, sep)| >= 2 && Split(s, sep)[0] == s[..FindFrom(s, sep, 0).value]
    ensures Contains(s, sep) <==> |Split(s, sep)| >= 2
  {
    if Contains(s, sep) {
      var j: nat :| j <= |s| && OccursAt(s, sep, j);
      assert FindFrom(s, sep, 0).Some?;
    }
    match FindFrom(s, sep, 0)
    case None =>
    case Some(i) =>
      assert OccursAt(s, sep, i);
  }

  /** Splitting a one-character join whose pieces avoid that character
      gives the pieces back. */
  lemma {:induction false} SplitJoin(pieces: seq<string>, c: char)
    requires |pieces| >= 1
    requires forall k :: 0 <= k < |pieces| ==> c !in pieces[k]
    ensures Split(Join(pieces, [c]), [c]) == pieces
  {
    var s := Join(pieces, [c]);
    if |pieces| == 1 {
      forall j: nat
        ensures !OccursAt(s, [c], j)
      {
        if j + 1 <= |s| {
          assert s[j..j + 1][0] == s[j];
        }
      }
    } else {
      var p := pieces[0];
      var rest := Join(pieces[1..], [c]);
      assert s == p + [c] + rest;
      assert OccursAt(s, [c], |p|);
      forall j | 0 <= j < |p|
        ensures !OccursAt(s, [c], j)
      {
        assert s[j] == p[j];
      }
      assert FindFrom(s, [c], 0) == Some(|p|) by {
        FirstOccurrence(s, [c], |p|);
      }
      assert s[..|p|] == p;
      assert s[|p| + 1..] == rest;
      SplitJoin(pieces[1..], c);
    }
  }

  /** An occurrence with none before it is what `FindFrom` finds. */
  lemma FirstOccurrence(s: string, sep: string, i: nat)
    requires OccursAt(s, sep, i)
    requires forall j :: 0 <= j < i ==> !OccursAt(s, sep, j)
    ensures FindFrom(s, sep, 0) == Some(i)
  {
  }

  /** Python `s.split()[0]`: the first maximal run of non-space characters,
      or `None` where Python would raise IndexError (no such run). */
  function FirstToken(s: string): (r: Option<string>)
    ensures r.None? <==> forall i :: 0 <= i < |s| ==> IsSpace(s[i])
    ensures r.Some? ==> |r.value| > 0
    ensures r.Some? ==> forall i :: 0 <= i < |r.value| ==> !IsSpace(r.value[i])
    ensures r.Some? ==>
              var k := LeadingCount(s, IsSpace);
              && k + |r.value| <= |s|
              && s[k..k + |r.value|] == r.value
              && (k + |r.value| == |s| || IsSpace(s[k + |r.value|]))
  {
    var k := LeadingCount(s, IsSpace);
    if k == |s| then None
    else
      var t := s[k..];
      TokenFacts(s, k);
      Some(t[..LeadingCount(t, NotSpace)])
  }

  predicate NotSpace(c: char) { !IsSpace(c) }

  /** The run of non-space characters that starts at the first non-space
      character `s[k]`. */
  lemma TokenFacts(s: string, k: nat)
    requires k < |s| && !IsSpace(s[k])
    ensures var m := LeadingCount(s[k..], NotSpace);
            && 0 < m && k + m <= |s|
            && s[k..][..m] == s[k..k + m]
            && (forall i :: 0 <= i < m ==> !IsSpace(s[k..][..m][i]))
            && (k + m == |s| || IsSpace(s[k + m]))
  {
    var t := s[k..];
    var m := LeadingCount(t, NotSpace);
    assert t[0] == s[k] && NotSpace(t[0]);
    assert forall i :: 0 <= i < m ==> t[..m][i] == t[i] && NotSpace(t[i]);
    assert m < |t| ==> t[m] == s[k + m] && !NotSpace(t[m]);
  }

  /** A separator whose first character does not occur in the text is
      never found: the split is the whole text. */
  lemma SplitAbsent(s: string, sep: string)
    requires |sep| > 0 && sep[0] !in s
    ensures Split(s, sep) == [s]
  {
    forall j | 0 <= j < |s|
      ensures !OccursAt(s, sep, j)
    {
      if j + |sep| <= |s| {
        assert s[j..j + |sep|][0] == s[j] != sep[0];
      }
    }
    assert FindFrom(s, sep, 0).None?;
  }

  /** When the separator's first character does not occur before a marked
      occurrence, that occurrence ends the first piece. */
  lemma SplitAtMarker(a: string, sep: string, b: string)
    requires |sep| > 0 && sep[0] !in a
    ensures Split(a + sep + b, sep) == [a] + Split(b, sep)
  {
    var s := a + sep + b;
    assert s[|a|..|a| + |sep|] == sep;
    forall j | 0 <= j < |a|
      ensures !OccursAt(s, sep, j)
    {
      if j + |sep| <= |s| {
        assert s[j..j + |sep|][0] == s[j] == a[j] != sep[0];
      }
    }
    FirstOccurrence(s, sep, |a|);
    assert s[..|a|] == a;
    assert s[|a| + |sep|..] == b;
  }

  /** The first token is determined by its position: white space, then a run
      of non-space characters ended by white space or the end of the text. */
  lemma TokenUnique(pre: string, tok: string, post: string)
    requires forall i :: 0 <= i < |pre| ==> IsSpace(pre[i])
    requires tok != [] && forall i :: 0 <= i < |tok| ==> !IsSpace(tok[i])
    requires post == [] || IsSpace(post[0])
    ensures FirstToken(pre + tok + post) == Some(tok)
  {
    var s := pre + tok + post;
    assert forall i :: 0 <= i < |pre| ==> s[i] == pre[i];
    assert forall i :: 0 <= i < |tok| ==> s[|pre| + i] == tok[i];
    assert s[|pre|] == tok[0];
    var k := LeadingCount(s, IsSpace);
    assert k == |pre|;
    var v := FirstToken(s).value;
    assert post != [] ==> s[k + |tok|] == post[0];
    assert |v| == |tok|;
    assert s[k..k + |tok|] == tok;
  }

  /** Text with no token strips to nothing. */
  lemma StripBlank(s: string)
    requires FirstToken(s).None?
    ensures Strip(s) == []
  {
    assert LeadingCount(s, IsSpace) == |s|;
  }

  /** Text of white space alone strips to nothing. */
  lemma BlankStrip(s: string)
    ensures (forall i :: 0 <= i < |s| ==> IsSpace(s[i])) ==> Strip(s) == []
  {
    if forall i :: 0 <= i < |s| ==> IsSpace(s[i]) {
      StripBlank(s);
    }
  }

  /** Stripping adds no character. */
  lemma StripWithout(s: string, c: char)
    requires c !in s
    ensures c !in Strip(s)
  {
    var r := Strip(s);
    var k := LeadingCount(s, IsSpace);
    forall i | 0 <= i < |r|
      ensures r[i] != c
    {
      assert r[i] == s[k + i];
    }
  }

  /** Stripping keeps the first token at the front, still followed by white
      space or the end. */
  lemma StripKeepsToken(s: string, tok: string)
    requires FirstToken(s) == Some(tok)
    ensures var r := Strip(s);
            && |tok| <= |r| && r[..|tok|] == tok && (|r| == |tok| || IsSpace(r[|tok|]))
  {
    var r := Strip(s);
    var k := LeadingCount(s, IsSpace);
    assert !IsSpace(s[k + |tok| - 1]);
    assert |tok| <= |r|;
    assert r[..|tok|] == tok;
    if |r| > |tok| {
      assert r[|tok|] == s[k + |tok|];
    }
  }

  /** A token at the very front, followed by white space or nothing. */
  lemma TokenFront(tok: string, post: string)
    requires tok != [] && forall i :: 0 <= i < |tok| ==> !IsSpace(tok[i])
    requires post == [] || IsSpace(post[0])
    ensures FirstToken(tok + post) == Some(tok)
  {
    TokenUnique([], tok, post);
    assert [] + tok + post == tok + post;
  }

  /** `s.strip().split()[0]` is `s.split()[0]`. */
  lemma FirstTokenStrip(s: string)
    ensures FirstToken(Strip(s)) == FirstToken(s)
  {
    if FirstToken(s).None? {
      StripBlank(s);
    } else {
      var tok := FirstToken(s).value;
      StripKeepsToken(s, tok);
      var r := Strip(s);
      var post := r[|tok|..];
      assert r == tok + post;
      TokenFront(tok, post);
    }
  }

  /** `s.split(marker)[1].strip().split()[0]`: the first token after the
      first occurrence of `marker`, or `None` where Python would raise
      IndexError (no occurrence, or nothing but white space after it). */
  function TokenAfter(s: string, marker: string): (r: Option<string>)
    requires |marker| > 0
    ensures r.Some? ==> Contains(s, marker)
    ensures r.Some? ==> r.value != [] && forall i :: 0 <= i < |r.value| ==> !IsSpace(r.value[i])
  {
    SplitHead(s, marker);
    var parts := Split(s, marker);
    if |parts| < 2 then None else FirstToken(Strip(parts[1]))
  }

  /** A marker followed by white space and a token yields that token, when
      nothing before the marker and nothing in the gap or the token could
      start another marker. Whatever follows the token, more markers
      included, does not matter once it starts with white space. */
  lemma TokenAfterMarked(pre: string, marker: string, gap: string, tok: string, tail: string)
    requires |marker| > 0 && marker[0] !in pre && marker[0] !in gap + tok
    requires forall i :: 0 <= i < |gap| ==> IsSpace(gap[i])
    requires tok != [] && forall i :: 0 <= i < |tok| ==> !IsSpace(tok[i])
    requires tail == [] || IsSpace(tail[0])
    ensures TokenAfter(pre + marker + gap + tok + tail, marker) == Some(tok)
  {
    var body := gap + tok;
    assert pre + marker + gap + tok + tail == pre + marker + (body + tail);
    TokenAfterPiece(pre, marker, body + tail);
    var post := PieceAfter(marker, body, tail);
    TokenUnique(gap, tok, post);
    assert gap + tok + post == body + post;
  }

  /** Behind a first marker, the token is looked for in the piece of the
      rest up to the next marker. */
  lemma TokenAfterPiece(pre: string, marker: string, rest: string)
    requires |marker| > 0 && marker[0] !in pre
    ensures TokenAfter(pre + marker + rest, marker) == FirstToken(Split(rest, marker)[0])
  {
    SplitAtMarker(pre, marker, rest);
    FirstTokenStrip(Split(rest, marker)[0]);
  }

  /** The first piece of `body + tail`, when `body` cannot start the
      separator, is `body` followed by a prefix of `tail`. */
  lemma PieceAfter(sep: string, body: string, tail: string) returns (post: string)
    requires |sep| > 0 && sep[0] !in body
    ensures Split(body + tail, sep)[0] == body + post
    ensures post <= tail
  {
    var rest := body + tail;
    forall j | 0 <= j < |body|
      ensures !OccursAt(rest, sep, j)
    {
      if j + |sep| <= |rest| {
        assert rest[j..j + |sep|][0] == rest[j] == body[j];
      }
    }
    SplitHead(rest, sep);
    match FindFrom(rest, sep, 0)
    case None =>
      post := tail;
    case Some(f) =>
      post := tail[..f - |body|];
      assert rest[..f] == body + post;
  }

  predicate IsDigit(c: char) { '0' <= c <= '9' }

  /** The value of a string of decimal digits. */
  function DigitsValue(ds: string): nat
    requires forall i :: 0 <= i < |ds| ==> IsDigit(ds[i])
  {
    if ds == [] then 0
    else
      var d := ds[|ds| - 1];
      assert IsDigit(d);
      10 * DigitsValue(ds[..|ds| - 1]) + (d as int - '0' as int)
  }

  /** The digits of a numeral with its grouping underscores removed. */
  function DropUnderscores(s: string): (r: string)
    ensures forall i :: 0 <= i < |r| ==> r[i] != '_' && r[i] in s
  {
    if s == [] then []
    else if s[|s| - 1] == '_' then DropUnderscores(s[..|s| - 1])
    else DropUnderscores(s[..|s| - 1]) + [s[|s| - 1]]
  }

  /** The body of a Python integer literal: decimal digits, optionally
      grouped by single underscores between digits. */
  predicate IsNumeral(b: string) {
    && |b| > 0
    && IsDigit(b[0]) && IsDigit(b[|b| - 1])
    && (forall i :: 0 <= i < |b| ==> IsDigit(b[i]) || b[i] == '_')
    && (forall i :: 0 <= i < |b| - 1 ==> !(b[i] == '_' && b[i + 1] == '_'))
  }

  /** Python `int(s)` for base-10 text: surrounding white space, an optional
      sign, then a numeral; `None` where Python raises ValueError. */
  function ParseInt(s: string): Option<int> {
    ReadSigned(Strip(s))
  }

  /** An optionally signed numeral with no surrounding white space. */
  function ReadSigned(t: string): Option<int> {
    if t == [] then None
    else
      var signed := t[0] == '+' || t[0] == '-';
      var body := if signed then t[1..] else t;
      if !IsNumeral(body) then None
      else
        var v: int := DigitsValue(DigitsOnly(body));
        Some(if t[0] == '-' then -v else v)
  }

  /** The digits of a numeral, which are all decimal digits. */
  function DigitsOnly(b: string): (r: string)
    requires IsNumeral(b)
    ensures forall i :: 0 <= i < |r| ==> IsDigit(r[i])
  {
    DropUnderscores(b)
  }

  function DigitChar(d: nat): char
    requires d < 10
  {
    ('0' as int + d) as char
  }

  /** Python `str(n)` for a natural number. */
  function Show(n: nat): (r: string)
    ensures |r| > 0
    ensures forall i :: 0 <= i < |r| ==> IsDigit(r[i])
  {
    if n < 10 then [DigitChar(n)] else Show(n / 10) + [DigitChar(n % 10)]
  }

  /** Reading back the decimal rendering of a number gives the number. */
  lemma {:induction false} ShowValue(n: nat)
    ensures DigitsValue(Show(n)) == n
  {
    if n >= 10 {
      ShowValue(n / 10);
      var s := Show(n);
      assert s[..|s| - 1] == Show(n / 10);
    }
  }

  /** A string without underscores keeps all its characters. */
  lemma {:induction false} DropNoUnderscores(s: string)
    requires forall i :: 0 <= i < |s| ==> s[i] != '_'
    ensures DropUnderscores(s) == s
  {
    if s != [] {
      DropNoUnderscores(s[..|s| - 1]);
      assert s == s[..|s| - 1] + [s[|s| - 1]];
    }
  }

  /** A non-empty run of digits is a numeral with nothing to drop. */
  lemma DigitsNumeral(s: string)
    requires |s| > 0
    requires forall i :: 0 <= i < |s| ==> IsDigit(s[i])
    ensures IsNumeral(s) && DigitsOnly(s) == s
  {
    DropNoUnderscores(s);
  }

  /** An unsigned numeral is read as the value of its digits. */
  lemma ReadUnsigned(t: string)
    requires |t| > 0 && t[0] != '+' && t[0] != '-' && IsNumeral(t)
    ensures ReadSigned(t) == Some(DigitsValue(DigitsOnly(t)))
  {
  }

  /** `int` of text with no surrounding white space reads it as it is. */
  lemma ParseTrimmed(s: string, v: int)
    requires Strip(s) == s && ReadSigned(s) == Some(v)
    ensures ParseInt(s) == Some(v)
  {
  }

  /** A non-empty run of digits is read as its decimal value. */
  lemma ParseDigits(s: string)
    requires |s| > 0
    requires forall i :: 0 <= i < |s| ==> IsDigit(s[i])
    ensures ParseInt(s) == Some(DigitsValue(s))
  {
    DigitEnds(s);
    StripTrimmed(s);
    DigitsNumeral(s);
    ReadUnsigned(s);
    ParseTrimmed(s, DigitsValue(s));
  }

  /** A run of digits has no white space or sign at either end. */
  lemma DigitEnds(s: string)
    requires |s| > 0
    requires forall i :: 0 <= i < |s| ==> IsDigit(s[i])
    ensures !IsSpace(s[0]) && !IsSpace(s[|s| - 1]) && s[0] != '+' && s[0] != '-'
  {
    assert IsDigit(s[0]) && IsDigit(s[|s| - 1]);
  }

  /** `int(str(n)) == n`. */
  lemma ParseShow(n: nat)
    ensures ParseInt(Show(n)) == Some(n)
  {
    ParseDigits(Show(n));
    ShowValue(n);
  }

  /** Surrounding white space is what `strip()` removes. */
  lemma StripPadded(pre: string, mid: string, post: string)
    requires forall i :: 0 <= i < |pre| ==> IsSpace(pre[i])
    requires forall i :: 0 <= i < |post| ==> IsSpace(post[i])
    requires mid != [] && !IsSpace(mid[0]) && !IsSpace(mid[|mid| - 1])
    ensures Strip(pre + mid + post) == mid
  {
    var s := pre + mid + post;
    assert forall i :: 0 <= i < |pre| ==> s[i] == pre[i];
    assert forall i :: 0 <= i < |mid| ==> s[|pre| + i] == mid[i];
    assert forall i :: 0 <= i < |post| ==> s[|pre| + |mid| + i] == post[i];
    var lead := LeadingCount(s, IsSpace);
    assert lead == |pre|;
    var t := Strip(s);
    var last := |pre| + |mid| - 1;
    assert |pre| + |t| > last;
    var j := |pre| + |t| - 1;
    assert t[|t| - 1] == s[j];
    assert |t| == |mid|;
    assert t == s[|pre|..|pre| + |mid|];
  }

  /** `int` ignores white space around the numeral. */
  lemma ParsePadded(n: nat, pre: string, post: string)
    requires forall i :: 0 <= i < |pre| ==> IsSpace(pre[i])
    requires forall i :: 0 <= i < |post| ==> IsSpace(post[i])
    ensures ParseInt(pre + Show(n) + post) == Some(n)
  {
    var sh := Show(n);
    StripPadded(pre, sh, post);
    ParseShow(n);
    StripTrimmed(sh);
  }
}
