/** The string operations the contact book borrows from Python's `str`:
    `isdigit`, `lower`, `title`, `strip`, `split()`, `startswith` and `join`.
    `split(c)`, which the program does not call, is here to state how its
    listings read back. Python applies them to Unicode text; this model covers
    ASCII only (digits are '0'..'9', letters are 'a'..'z' and 'A'..'Z'), which is a
    simplification of the Unicode tables Python consults. */
module Text {

  predicate IsDigit(c: char) { '0' <= c <= '9' }

  predicate IsLetter(c: char) { 'a' <= c <= 'z' || 'A' <= c <= 'Z' }

  /** The ASCII characters Python's `str.isspace` accepts: space, tab, line
      feed, vertical tab, form feed, carriage return and the four separators
      0x1C..0x1F. */
  predicate IsSpace(c: char) { c == ' ' || '\t' <= c <= '\r' || '\U{1C}' <= c <= '\U{1F}' }

  function LowerChar(c: char): (r: char)
    ensures IsLetter(r) == IsLetter(c)
    ensures !IsLetter(c) ==> r == c
  {
    if 'A' <= c <= 'Z' then (c as int + 32) as char else c
  }

  function UpperChar(c: char): (r: char)
    ensures IsLetter(r) == IsLetter(c)
    ensures !IsLetter(c) ==> r == c
  {
    if 'a' <= c <= 'z' then (c as int - 32) as char else c
  }

  /** `str.lower()`. */
  function Lower(s: string): (r: string)
    ensures |r| == |s|
    ensures forall i :: 0 <= i < |s| ==> r[i] == LowerChar(s[i])
  {
    if s == [] then [] else [LowerChar(s[0])] + Lower(s[1..])
  }

  /** What `str.title()` makes of one character, given whether the character
      before it was a letter: a letter opening a word is upper-cased, any other
      letter lower-cased, and everything else is left alone. */
  function TitleChar(c: char, afterLetter: bool): char
  {
    if !IsLetter(c) then c else if afterLetter then LowerChar(c) else UpperChar(c)
  }

  /** The scan `str.title()` performs, carrying whether the previous character
      was a letter. */
  function TitleFrom(s: string, afterLetter: bool): (r: string)
    ensures |r| == |s|
  {
    if s == [] then []
    else [TitleChar(s[0], afterLetter)] + TitleFrom(s[1..], IsLetter(s[0]))
  }

  /** `str.title()`. */
  function TitleCase(s: string): (r: string)
    ensures |r| == |s|
  {
    TitleFrom(s, false)
  }

  /** `str.startswith(prefix)`. */
  predicate StartsWith(s: string, prefix: string)
  {
    |prefix| <= |s| && s[..|prefix|] == prefix
  }

  /** `str.lstrip()`: drops the leading whitespace and nothing else. */
  function TrimLeft(s: string): (r: string)
    ensures |r| <= |s| && r == s[|s| - |r|..]
    ensures r == [] || !IsSpace(r[0])
    ensures forall i :: 0 <= i < |s| - |r| ==> IsSpace(s[i])
  {
    if s != [] && IsSpace(s[0]) then TrimLeft(s[1..]) else s
  }

  /** `str.rstrip()`: drops the trailing whitespace and nothing else. */
  function TrimRight(s: string): (r: string)
    ensures |r| <= |s| && r == s[..|r|]
    ensures r == [] || !IsSpace(r[|r| - 1])
    ensures forall i :: |r| <= i < |s| ==> IsSpace(s[i])
  {
    if s != [] && IsSpace(s[|s| - 1]) then TrimRight(s[..|s| - 1]) else s
  }

  /** `str.strip()`. */
  function Strip(s: string): (r: string)
    ensures r == [] || (!IsSpace(r[0]) && !IsSpace(r[|r| - 1]))
  {
    TrimRight(TrimLeft(s))
  }

  /** The length of the run of non-space characters that `s` starts with. */
  function WordLength(s: string): (n: nat)
    ensures n <= |s|
    ensures forall i :: 0 <= i < n ==> !IsSpace(s[i])
    ensures n == |s| || IsSpace(s[n])
  {
    if s == [] || IsSpace(s[0]) then 0 else 1 + WordLength(s[1..])
  }

  /** `str.split()` with no separator: the maximal runs of non-space characters,
      in order. */
  function Split(s: string): (words: seq<string>)
    decreases |s|
  {
    if s == [] then []
    else if IsSpace(s[0]) then Split(s[1..])
    else
      var n := WordLength(s);
      [s[..n]] + Split(s[n..])
  }

  /** The characters of `s` that are not whitespace, in order. */
  function NonSpace(s: string): (r: string)
    ensures forall i :: 0 <= i < |r| ==> !IsSpace(r[i])
  {
    if s == [] then []
    else if IsSpace(s[0]) then NonSpace(s[1..])
    else [s[0]] + NonSpace(s[1..])
  }

  function Concat(words: seq<string>): string
  {
    if words == [] then [] else words[0] + Concat(words[1..])
  }

  /** `sep.join(parts)`. */
  function Join(parts: seq<string>, sep: string): string
  {
    if |parts| == 0 then []
    else if |parts| == 1 then parts[0]
    else parts[0] + sep + Join(parts[1..], sep)
  }

  /** `s.split(c)`: the pieces between occurrences of `c`; there is always one
      more piece than there are occurrences, so never fewer than one. */
  function SplitOn(s: string, c: char): (pieces: seq<string>)
    ensures |pieces| >= 1
    ensures c !in s ==> pieces == [s]
  {
    if s == [] then [[]]
    else
      var rest := SplitOn(s[1..], c);
      if s[0] == c then [[]] + rest
      else
        assert s == [s[0]] + s[1..];
        [[s[0]] + rest[0]] + rest[1..]
  }

  /** Every part with `prefix` put in front of it. */
  function Prefixed(prefix: string, parts: seq<string>): (r: seq<string>)
    ensures |r| == |parts|
    ensures forall i :: 0 <= i < |parts| ==> r[i] == prefix + parts[i]
  {
    if parts == [] then [] else [prefix + parts[0]] + Prefixed(prefix, parts[1..])
  }

  // ---------------------------------------------------------------------------
  // Title case

  /** Pointwise reading of `str.title()`: each character is decided by itself
      and the character just before it. */
  lemma {:induction false} TitleFromAt(s: string, afterLetter: bool, i: nat)
    requires i < |s|
    ensures TitleFrom(s, afterLetter)[i]
            == TitleChar(s[i], if i == 0 then afterLetter else IsLetter(s[i - 1]))
  {
    if i > 0 {
      TitleFromAt(s[1..], IsLetter(s[0]), i - 1);
    }
  }

  lemma TitleCaseAt(s: string, i: nat)
    requires i < |s|
    ensures TitleCase(s)[i] == TitleChar(s[i], i > 0 && IsLetter(s[i - 1]))
  {
    TitleFromAt(s, false, i);
  }

  /** Title-casing ignores the case the input was typed in. */
  lemma TitleCaseOfLower(s: string)
    ensures TitleCase(Lower(s)) == TitleCase(s)
  {
    var l := Lower(s);
    forall i | 0 <= i < |s|
      ensures TitleCase(l)[i] == TitleCase(s)[i]
    {
      TitleCaseAt(l, i);
      TitleCaseAt(s, i);
    }
  }

  /** Title-casing changes only the case of letters. */
  lemma LowerOfTitleCase(s: string)
    ensures Lower(TitleCase(s)) == Lower(s)
  {
    var t := TitleCase(s);
    forall i | 0 <= i < |s|
      ensures Lower(t)[i] == Lower(s)[i]
    {
      TitleCaseAt(s, i);
    }
  }

  lemma TitleCaseIdempotent(s: string)
    ensures TitleCase(TitleCase(s)) == TitleCase(s)
  {
    var t := TitleCase(s);
    forall i | 0 <= i < |s|
      ensures TitleCase(t)[i] == t[i]
    {
      TitleCaseAt(t, i);
      TitleCaseAt(s, i);
      if i > 0 {
        TitleCaseAt(s, i - 1);
      }
    }
  }

  // ---------------------------------------------------------------------------
  // Whitespace splitting

  lemma {:induction false} NonSpaceAppend(a: string, b: string)
    ensures NonSpace(a + b) == NonSpace(a) + NonSpace(b)
    decreases |a|
  {
    if a == [] {
      assert a + b == b;
    } else {
      assert (a + b)[1..] == a[1..] + b;
      NonSpaceAppend(a[1..], b);
    }
  }

  lemma {:induction false} NonSpaceOfWord(w: string)
    requires forall i :: 0 <= i < |w| ==> !IsSpace(w[i])
    ensures NonSpace(w) == w
    decreases |w|
  {
    if w != [] {
      NonSpaceOfWord(w[1..]);
    }
  }

  /** `str.split()` yields non-empty words free of whitespace, and together they
      hold every non-space character of the input, in order. */
  lemma {:induction false} SplitWords(s: string)
    ensures forall k :: 0 <= k < |Split(s)| ==> IsWord(Split(s)[k])
    ensures Concat(Split(s)) == NonSpace(s)
    decreases |s|
  {
    if s == [] {
    } else if IsSpace(s[0]) {
      SplitWords(s[1..]);
    } else {
      var n := WordLength(s);
      var w, rest := s[..n], s[n..];
      SplitWords(rest);
      assert Split(s) == [w] + Split(rest);
      assert s == w + rest;
      NonSpaceAppend(w, rest);
      NonSpaceOfWord(w);
    }
  }

  /** A word as `str.split()` yields it: non-empty and free of whitespace. */
  predicate IsWord(w: string)
  {
    w != [] && forall i :: 0 <= i < |w| ==> !IsSpace(w[i])
  }

  lemma {:induction false} WordLengthBeforeSpace(t: string, c: char, u: string)
    requires IsSpace(c)
    ensures WordLength(t + [c] + u) == WordLength(t)
    decreases |t|
  {
    if t == [] {
      assert (t + [c] + u)[0] == c;
    } else if !IsSpace(t[0]) {
      assert (t + [c] + u)[1..] == t[1..] + [c] + u;
      WordLengthBeforeSpace(t[1..], c, u);
    }
  }

  /** A whitespace character separates words: splitting around it is
      splitting either side of it. */
  lemma {:induction false} SplitAroundSpace(t: string, c: char, u: string)
    requires IsSpace(c)
    ensures Split(t + [c] + u) == Split(t) + Split(u)
    decreases |t|
  {
    var s := t + [c] + u;
    if t == [] {
      assert s[1..] == u;
    } else if IsSpace(t[0]) {
      assert s[1..] == t[1..] + [c] + u;
      SplitAroundSpace(t[1..], c, u);
    } else {
      WordLengthBeforeSpace(t, c, u);
      var n := WordLength(t);
      assert s[..n] == t[..n];
      assert s[n..] == t[n..] + [c] + u;
      SplitAroundSpace(t[n..], c, u);
      assert Split(s) == [t[..n]] + (Split(t[n..]) + Split(u));
    }
  }

  lemma {:induction false} WordLengthOfWord(w: string)
    requires IsWord(w)
    ensures WordLength(w) == |w|
    decreases |w|
  {
    if |w| > 1 {
      WordLengthOfWord(w[1..]);
    }
  }

  /** A word is never split further: `split()` takes maximal runs. */
  lemma SplitOfWord(w: string)
    requires IsWord(w)
    ensures Split(w) == [w]
  {
    WordLengthOfWord(w);
    assert w[..|w|] == w;
    assert w[|w|..] == [];
  }

  /** Words joined by single blanks split back into exactly those words. */
  lemma {:induction false} SplitJoinedWords(ws: seq<string>)
    requires forall k :: 0 <= k < |ws| ==> IsWord(ws[k])
    ensures Split(Join(ws, " ")) == ws
    decreases |ws|
  {
    if |ws| == 1 {
      SplitOfWord(ws[0]);
    } else if |ws| > 1 {
      var rest := Join(ws[1..], " ");
      assert Join(ws, " ") == ws[0] + [' '] + rest;
      SplitAroundSpace(ws[0], ' ', rest);
      SplitOfWord(ws[0]);
      SplitJoinedWords(ws[1..]);
      assert [ws[0]] + ws[1..] == ws;
    }
  }

  lemma {:induction false} SplitTrimLeft(s: string)
    ensures Split(TrimLeft(s)) == Split(s)
    decreases |s|
  {
    if s != [] && IsSpace(s[0]) {
      SplitTrimLeft(s[1..]);
    }
  }

  lemma {:induction false} SplitTrimRight(s: string)
    ensures Split(TrimRight(s)) == Split(s)
    decreases |s|
  {
    if s != [] && IsSpace(s[|s| - 1]) {
      var t := s[..|s| - 1];
      assert s == t + [s[|s| - 1]] + [];
      SplitAroundSpace(t, s[|s| - 1], []);
      assert Split(t) + [] == Split(t);
      SplitTrimRight(t);
    }
  }

  /** The `strip()` before `split()` does not change the words. */
  lemma SplitStrip(s: string)
    ensures Split(Strip(s)) == Split(s)
  {
    SplitTrimRight(TrimLeft(s));
    SplitTrimLeft(s);
  }

  // ---------------------------------------------------------------------------
  // Joining and splitting on one character

  lemma {:induction false} SplitOnAfterFirst(a: string, c: char, b: string)
    requires c !in a
    ensures SplitOn(a + [c] + b, c) == [a] + SplitOn(b, c)
    decreases |a|
  {
    var s := a + [c] + b;
    if a == [] {
      assert s == [c] + b;
      assert s[1..] == b;
    } else {
      assert s[1..] == a[1..] + [c] + b;
      SplitOnAfterFirst(a[1..], c, b);
      assert [a[0]] + a[1..] == a;
    }
  }

  lemma {:induction false} SplitOnPrepend(t: string, x: string, c: char)
    requires c !in t
    ensures SplitOn(t + x, c) == [t + SplitOn(x, c)[0]] + SplitOn(x, c)[1..]
    decreases |t|
  {
    if t == [] {
      var p := SplitOn(x, c);
      assert t + x == x;
      assert t + p[0] == p[0];
      assert [p[0]] + p[1..] == p;
    } else {
      var s, p := t + x, SplitOn(x, c);
      assert s[0] == t[0] && s[0] != c;
      assert s[1..] == t[1..] + x;
      SplitOnPrepend(t[1..], x, c);
      var rest := SplitOn(s[1..], c);
      assert rest[0] == t[1..] + p[0] && rest[1..] == p[1..];
      assert SplitOn(s, c) == [[s[0]] + rest[0]] + rest[1..];
      assert [t[0]] + (t[1..] + p[0]) == t + p[0];
    }
  }

  /** Splitting a joined text on the separator's first character gives the
      parts back, each part after the first carrying the rest of the separator
      in front, provided that character occurs in no part and nowhere else in
      the separator. */
  lemma {:induction false} SplitOnJoin(parts: seq<string>, c: char, tail: string)
    requires |parts| >= 1
    requires forall k :: 0 <= k < |parts| ==> c !in parts[k]
    requires c !in tail
    ensures SplitOn(Join(parts, [c] + tail), c) == [parts[0]] + Prefixed(tail, parts[1..])
    decreases |parts|
  {
    if |parts| > 1 {
      var sep := [c] + tail;
      var rest := Join(parts[1..], sep);
      assert Join(parts, sep) == parts[0] + [c] + (tail + rest);
      SplitOnAfterFirst(parts[0], c, tail + rest);
      SplitOnJoin(parts[1..], c, tail);
      SplitOnPrepend(tail, rest, c);
      assert parts[1..][1..] == parts[2..];
    }
  }

  /** With a one-character separator, splitting undoes joining. */
  lemma SplitOnJoinChar(parts: seq<string>, c: char)
    requires |parts| >= 1
    requires forall k :: 0 <= k < |parts| ==> c !in parts[k]
    ensures SplitOn(Join(parts, [c]), c) == parts
  {
    SplitOnJoin(parts, c, []);
    assert [c] + [] == [c];
    var p := Prefixed([], parts[1..]);
    forall i | 0 <= i < |p|
      ensures p[i] == parts[1..][i]
    {
      assert [] + parts[1..][i] == parts[1..][i];
    }
    assert p == parts[1..];
    assert [parts[0]] + parts[1..] == parts;
  }

  /** A character that occurs neither in the parts nor in the separator does not
      occur in their join. */
  lemma {:induction false} JoinAvoids(parts: seq<string>, sep: string, c: char)
    requires forall k :: 0 <= k < |parts| ==> c !in parts[k]
    requires c !in sep
    ensures c !in Join(parts, sep)
    decreases |parts|
  {
    if |parts| > 1 {
      JoinAvoids(parts[1..], sep, c);
    }
  }
}
