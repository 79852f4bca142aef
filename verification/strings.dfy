/** The string operations of Rust's standard library that the rest of the model relies on:
    `split` and `join` on one separator, `contains`, `replace`, `trim`, `lines`, and counting
    a character. Strings are sequences of characters; no Unicode normalisation takes place. */
module Strings {

  // ---------------------------------------------------------------------------
  // Prefixes, suffixes and substrings
  // ---------------------------------------------------------------------------

  predicate StartsWith(s: string, prefix: string) {
    |prefix| <= |s| && s[..|prefix|] == prefix
  }

  predicate EndsWith(s: string, suffix: string) {
    |suffix| <= |s| && s[|s| - |suffix|..] == suffix
  }

  /** `str::contains` with a string pattern: does `pat` occur in `s` at some position? */
  predicate Contains(s: string, pat: string)
    decreases |s|
  {
    StartsWith(s, pat) || (|s| > 0 && Contains(s[1..], pat))
  }

  /** `pat` occurs in `s` starting at position `i`. */
  predicate OccursAt(s: string, pat: string, i: int) {
    0 <= i && i + |pat| <= |s| && s[i..i + |pat|] == pat
  }

  /** `pat` occurs in `s` exactly when it occurs at some position of `s`. */
  lemma {:induction false} ContainsIffOccurs(s: string, pat: string)
    ensures Contains(s, pat) <==> exists i :: OccursAt(s, pat, i)
    decreases |s|
  {
    if StartsWith(s, pat) {
      assert OccursAt(s, pat, 0);
    } else if |s| == 0 {
      assert |pat| > 0;
    } else {
      ContainsIffOccurs(s[1..], pat);
      if Contains(s[1..], pat) {
        var i :| OccursAt(s[1..], pat, i);
        assert s[i + 1..i + 1 + |pat|] == s[1..][i..i + |pat|];
        assert OccursAt(s, pat, i + 1);
      } else {
        forall i | 0 <= i
          ensures !OccursAt(s, pat, i)
        {
          if i == 0 && |pat| <= |s| {
            assert s[..|pat|] == s[0..0 + |pat|];
          } else if i > 0 && i + |pat| <= |s| {
            assert s[1..][i - 1..i - 1 + |pat|] == s[i..i + |pat|];
            assert !OccursAt(s[1..], pat, i - 1);
          }
        }
      }
    }
  }

  /** A witness position is enough to show that a string occurs in another. */
  lemma ContainsAt(s: string, pat: string, i: nat)
    requires OccursAt(s, pat, i)
    ensures Contains(s, pat)
  {
    ContainsIffOccurs(s, pat);
  }

  // ---------------------------------------------------------------------------
  // Counting one character
  // ---------------------------------------------------------------------------

  /** The number of occurrences of `c` in `s`, counted character by character. */
  function CountChars(s: string, c: char): (n: nat)
    ensures n == multiset(s)[c]
    ensures n <= |s|
    decreases |s|
  {
    if |s| == 0 then 0
    else
      assert s == [s[0]] + s[1..];
      (if s[0] == c then 1 else 0) + CountChars(s[1..], c)
  }

  // ---------------------------------------------------------------------------
  // Splitting on one character and joining with a separator
  // ---------------------------------------------------------------------------

  /** `str::split` with a one-character pattern: the pieces between the occurrences of `c`,
      empty pieces included. There is always at least one piece. */
  function Split(s: string, c: char): (parts: seq<string>)
    ensures |parts| >= 1
    ensures forall i :: 0 <= i < |parts| ==> c !in parts[i]
    decreases |s|
  {
    if |s| == 0 then [""]
    else
      var rest := Split(s[1..], c);
      if s[0] == c then [""] + rest
      else [[s[0]] + rest[0]] + rest[1..]
  }

  /** `[T]::join`: the parts with `sep` between consecutive ones; the empty string for no parts. */
  function Join(sep: string, parts: seq<string>): string
    decreases |parts|
  {
    if |parts| == 0 then ""
    else if |parts| == 1 then parts[0]
    else parts[0] + sep + Join(sep, parts[1..])
  }

  /** Joining a split string with the same character gives the string back. */
  lemma {:induction false} JoinSplit(s: string, c: char)
    ensures Join([c], Split(s, c)) == s
    decreases |s|
  {
    if |s| > 0 {
      var rest := Split(s[1..], c);
      JoinSplit(s[1..], c);
      var parts := Split(s, c);
      if s[0] == c {
        assert parts[1..] == rest;
      } else if |rest| == 1 {
        assert parts == [[s[0]] + rest[0]];
      } else {
        assert parts[1..] == rest[1..];
        assert Join([c], rest) == rest[0] + [c] + Join([c], rest[1..]);
      }
    }
  }

  /** A string without the separator is a single piece. */
  lemma {:induction false} SplitNoSeparator(s: string, c: char)
    requires c !in s
    ensures Split(s, c) == [s]
    decreases |s|
  {
    if |s| > 0 {
      SplitNoSeparator(s[1..], c);
      assert s == [s[0]] + s[1..];
    }
  }

  /** A separator-free piece followed by the separator splits off as the first piece. */
  lemma {:induction false} SplitFirstPiece(x: string, c: char, rest: string)
    requires c !in x
    ensures Split(x + [c] + rest, c) == [x] + Split(rest, c)
    decreases |x|
  {
    var s := x + [c] + rest;
    if |x| == 0 {
      assert s[1..] == rest;
    } else {
      SplitFirstPiece(x[1..], c, rest);
      assert s[1..] == x[1..] + [c] + rest;
      assert x == [x[0]] + x[1..];
    }
  }

  /** Splitting a join of separator-free parts gives the parts back. */
  lemma {:induction false} SplitJoin(parts: seq<string>, c: char)
    requires |parts| >= 1
    requires forall i :: 0 <= i < |parts| ==> c !in parts[i]
    ensures Split(Join([c], parts), c) == parts
    decreases |parts|
  {
    if |parts| == 1 {
      SplitNoSeparator(parts[0], c);
    } else {
      SplitJoin(parts[1..], c);
      SplitFirstPiece(parts[0], c, Join([c], parts[1..]));
    }
  }

  /** Splitting a string yields one more piece than it has separators. */
  lemma {:induction false} SplitCount(s: string, c: char)
    ensures |Split(s, c)| == CountChars(s, c) + 1
    decreases |s|
  {
    if |s| > 0 {
      SplitCount(s[1..], c);
    }
  }

  /** Joining non-empty runs of parts: the separator sits between the two joins. */
  lemma {:induction false} JoinAppend(sep: string, a: seq<string>, b: seq<string>)
    requires |a| >= 1 && |b| >= 1
    ensures Join(sep, a + b) == Join(sep, a) + sep + Join(sep, b)
    decreases |a|
  {
    if |a| == 1 {
      assert (a + b)[1..] == b;
    } else {
      JoinAppend(sep, a[1..], b);
      assert (a + b)[1..] == a[1..] + b;
    }
  }

  /** The parts before position `k`, the part at `k` and the parts after it join back to all
      of them. */
  lemma JoinAround(sep: string, parts: seq<string>, k: nat)
    requires 1 <= k < |parts| - 1
    ensures Join(sep, parts[0..k]) + sep + parts[k] + sep + Join(sep, parts[k + 1..]) == Join(sep, parts)
  {
    var front, rest := parts[0..k], parts[k + 1..];
    var middle := [parts[k]] + rest;
    assert parts == front + middle;
    JoinAppend(sep, [parts[k]], rest);
    JoinAppend(sep, front, middle);
    var a, b, c := Join(sep, front), parts[k], Join(sep, rest);
    assert Join(sep, parts) == a + sep + (b + sep + c);
  }

  /** A join of parts none of which contains `c`, with `c` as separator, has one
      separator fewer than it has parts. */
  lemma {:induction false} JoinCount(parts: seq<string>, c: char)
    requires |parts| >= 1
    requires forall i :: 0 <= i < |parts| ==> c !in parts[i]
    ensures CountChars(Join([c], parts), c) == |parts| - 1
    decreases |parts|
  {
    assert multiset(parts[0])[c] == 0;
    if |parts| > 1 {
      JoinCount(parts[1..], c);
      assert multiset(Join([c], parts)) == multiset(parts[0]) + multiset([c]) + multiset(Join([c], parts[1..]));
    }
  }

  // ---------------------------------------------------------------------------
  // Replacing every occurrence of a pattern
  // ---------------------------------------------------------------------------

  /** `str::replace`: every non-overlapping occurrence of `pat`, searched from the left,
      is replaced by `rep`. An empty pattern matches before every character and at the end. */
  function ReplaceAll(s: string, pat: string, rep: string): string
    decreases |s|
  {
    if |pat| == 0 then
      if |s| == 0 then rep else rep + [s[0]] + ReplaceAll(s[1..], pat, rep)
    else if StartsWith(s, pat) then rep + ReplaceAll(s[|pat|..], pat, rep)
    else if |s| == 0 then ""
    else [s[0]] + ReplaceAll(s[1..], pat, rep)
  }

  /** Replacing a pattern that does not occur leaves the string as it is. */
  lemma {:induction false} ReplaceAbsent(s: string, pat: string, rep: string)
    requires !Contains(s, pat)
    ensures ReplaceAll(s, pat, rep) == s
    decreases |s|
  {
    if |s| > 0 {
      ReplaceAbsent(s[1..], pat, rep);
    }
  }

  /** A pattern longer than the string does not occur in it. */
  lemma ShorterNotContained(s: string, pat: string)
    requires |s| < |pat|
    ensures !Contains(s, pat)
  {
    ContainsIffOccurs(s, pat);
  }

  /** A pattern with a character that the string lacks does not occur in it. */
  lemma MissingCharNotContained(s: string, pat: string, j: nat)
    requires j < |pat| && pat[j] !in s
    ensures !Contains(s, pat)
  {
    ContainsIffOccurs(s, pat);
    forall i | 0 <= i
      ensures !OccursAt(s, pat, i)
    {
      if i + |pat| <= |s| {
        assert s[i..i + |pat|][j] == s[i + j];
      }
    }
  }

  /** A pattern at the front of a string is replaced, and the rest is processed after it. */
  lemma ReplaceFront(pat: string, rest: string, rep: string)
    requires |pat| > 0
    ensures ReplaceAll(pat + rest, pat, rep) == rep + ReplaceAll(rest, pat, rep)
  {
    assert (pat + rest)[..|pat|] == pat;
    assert (pat + rest)[|pat|..] == rest;
  }

  /** A match at the front of `a + b` lies inside `a` when `a` ends with a character
      foreign to the pattern. */
  lemma MatchInsideFirst(a: string, b: string, pat: string)
    requires |a| > 0 && a[|a| - 1] !in pat
    requires StartsWith(a + b, pat)
    ensures StartsWith(a, pat)
  {
    var s := a + b;
    forall k | 0 <= k < |pat| && k < |a|
      ensures pat[k] == a[k]
    {
      assert s[..|pat|][k] == s[k];
    }
    assert |pat| <= |a|;
    assert a[..|pat|] == s[..|pat|];
  }

  /** When the first string ends with a character foreign to the pattern, no occurrence
      straddles the two strings, and each is processed on its own. */
  lemma {:induction false} ReplaceConcat(a: string, b: string, pat: string, rep: string)
    requires |pat| > 0
    requires |a| == 0 || a[|a| - 1] !in pat
    ensures ReplaceAll(a + b, pat, rep) == ReplaceAll(a, pat, rep) + ReplaceAll(b, pat, rep)
    decreases |a|
  {
    if |a| > 0 {
      var s := a + b;
      if StartsWith(s, pat) {
        MatchInsideFirst(a, b, pat);
        assert s[|pat|..] == a[|pat|..] + b;
        ReplaceConcat(a[|pat|..], b, pat, rep);
      } else {
        assert !StartsWith(a, pat) by {
          if |pat| <= |a| {
            assert s[..|pat|] == a[..|pat|];
          }
        }
        assert s[1..] == a[1..] + b;
        ReplaceConcat(a[1..], b, pat, rep);
      }
    } else {
      assert a + b == b;
    }
  }

  /** Replacing a pattern by itself leaves the string as it is. */
  lemma {:induction false} ReplaceBySelf(s: string, pat: string)
    ensures ReplaceAll(s, pat, pat) == s
    decreases |s|
  {
    if |pat| == 0 {
      if |s| > 0 {
        ReplaceBySelf(s[1..], pat);
      }
    } else if StartsWith(s, pat) {
      ReplaceBySelf(s[|pat|..], pat);
      assert s == s[..|pat|] + s[|pat|..];
    } else if |s| > 0 {
      ReplaceBySelf(s[1..], pat);
    }
  }

  // ---------------------------------------------------------------------------
  // Trimming white space
  // ---------------------------------------------------------------------------

  /** The characters with the Unicode White_Space property, which `str::trim` removes. */
  predicate IsWhitespace(c: char) {
    var n := c as int;
    (0x09 <= n <= 0x0D) || n == 0x20 || n == 0x85 || n == 0xA0 || n == 0x1680
    || (0x2000 <= n <= 0x200A) || n == 0x2028 || n == 0x2029 || n == 0x202F
    || n == 0x205F || n == 0x3000
  }

  /** `str::trim_start`: drops the leading white space. */
  function TrimStart(s: string): (r: string)
    ensures |r| <= |s| && r == s[|s| - |r|..]
    ensures forall k :: 0 <= k < |s| - |r| ==> IsWhitespace(s[k])
    ensures r == "" || !IsWhitespace(r[0])
    decreases |s|
  {
    if |s| > 0 && IsWhitespace(s[0]) then TrimStart(s[1..]) else s
  }

  /** `str::trim_end`: drops the trailing white space. */
  function TrimEnd(s: string): (r: string)
    ensures |r| <= |s| && r == s[..|r|]
    ensures forall k :: |r| <= k < |s| ==> IsWhitespace(s[k])
    ensures r == "" || !IsWhitespace(r[|r| - 1])
    decreases |s|
  {
    if |s| > 0 && IsWhitespace(s[|s| - 1]) then TrimEnd(s[..|s| - 1]) else s
  }

  /** `r` is the slice of `s` starting at `i`, and only white space surrounds it. */
  predicate TrimmedAt(s: string, r: string, i: int) {
    0 <= i && i + |r| <= |s| && s[i..i + |r|] == r
    && (forall k :: 0 <= k < i ==> IsWhitespace(s[k]))
    && (forall k :: i + |r| <= k < |s| ==> IsWhitespace(s[k]))
  }

  /** `str::trim`: a slice of `s` with white space neither at its start nor at its end, and
      with only white space cut away on either side. */
  function Trim(s: string): (r: string)
    ensures r == "" || (!IsWhitespace(r[0]) && !IsWhitespace(r[|r| - 1]))
    ensures exists i :: TrimmedAt(s, r, i)
  {
    var t := TrimStart(s);
    var r := TrimEnd(t);
    TrimEndOfTrimStart(s, t, r);
    r
  }

  /** Trimming the end of what is left once the start is trimmed cuts a slice out of `s`. */
  lemma TrimEndOfTrimStart(s: string, t: string, r: string)
    requires |t| <= |s| && t == s[|s| - |t|..]
    requires forall k :: 0 <= k < |s| - |t| ==> IsWhitespace(s[k])
    requires |r| <= |t| && r == t[..|r|]
    requires forall k :: |r| <= k < |t| ==> IsWhitespace(t[k])
    ensures TrimmedAt(s, r, |s| - |t|)
  {
    var i := |s| - |t|;
    assert s[i..i + |r|] == r;
    forall k | i + |r| <= k < |s|
      ensures IsWhitespace(s[k])
    {
      assert s[k] == t[k - i];
    }
  }

  // ---------------------------------------------------------------------------
  // Lines of a text
  // ---------------------------------------------------------------------------

  /** Drops one trailing carriage return, if there is one. */
  function StripCarriageReturn(line: string): (r: string)
    ensures r + (if |r| < |line| then "\r" else "") == line
  {
    if |line| > 0 && line[|line| - 1] == '\r' then line[..|line| - 1] else line
  }

  function StripCarriageReturns(lines: seq<string>): (r: seq<string>)
    ensures |r| == |lines|
    ensures forall i :: 0 <= i < |r| ==> r[i] == StripCarriageReturn(lines[i])
    decreases |lines|
  {
    if |lines| == 0 then [] else [StripCarriageReturn(lines[0])] + StripCarriageReturns(lines[1..])
  }

  /** `str::lines`: the pieces between line feeds; a line ended by a line feed loses one
      carriage return before it, and a final empty piece (a text that ends with a line feed,
      or the empty text) is not a line. */
  function Lines(text: string): (lines: seq<string>)
  {
    var pieces := Split(text, '\n');
    var last := pieces[|pieces| - 1];
    StripCarriageReturns(pieces[..|pieces| - 1]) + (if last == "" then [] else [last])
  }

  /** Line `i` is piece `i` of the text between line feeds, less one carriage return when
      a line feed follows that piece; there is one line per line feed, plus one for a final
      piece without a line feed. */
  lemma LinesArePieces(text: string)
    ensures |Lines(text)| == CountChars(text, '\n') + (if text == "" || EndsWith(text, "\n") then 0 else 1)
    ensures forall i :: 0 <= i < |Lines(text)| ==>
              Lines(text)[i] == if i < |Split(text, '\n')| - 1 then StripCarriageReturn(Split(text, '\n')[i])
                                else Split(text, '\n')[i]
    ensures forall l :: l in Lines(text) ==> l in Split(text, '\n') || l + "\r" in Split(text, '\n')
  {
    LinesCount(text);
    LinesAt(text);
    var pieces := Split(text, '\n');
    var lines := Lines(text);
    forall l | l in lines
      ensures l in pieces || l + "\r" in pieces
    {
      var i :| 0 <= i < |lines| && lines[i] == l;
      assert pieces[i] in pieces;
    }
  }

  /** One line per line feed, plus one for a final piece without a line feed. */
  lemma LinesCount(text: string)
    ensures |Lines(text)| == CountChars(text, '\n') + (if text == "" || EndsWith(text, "\n") then 0 else 1)
  {
    SplitCount(text, '\n');
    LastPieceEmpty(text, '\n');
    assert text != "" ==> (EndsWith(text, "\n") <==> text[|text| - 1] == '\n');
  }

  /** Line `i` is piece `i`, less one carriage return when a line feed follows it. */
  lemma LinesAt(text: string)
    ensures forall i :: 0 <= i < |Lines(text)| ==>
              Lines(text)[i] == if i < |Split(text, '\n')| - 1 then StripCarriageReturn(Split(text, '\n')[i])
                                else Split(text, '\n')[i]
  {
    var pieces := Split(text, '\n');
    var stripped := StripCarriageReturns(pieces[..|pieces| - 1]);
    var lines := Lines(text);
    forall i | 0 <= i < |lines|
      ensures lines[i] == if i < |pieces| - 1 then StripCarriageReturn(pieces[i]) else pieces[i]
    {
      if i < |stripped| {
        assert lines[i] == stripped[i];
      }
    }
  }

  /** The last piece of a split is empty exactly when the string is empty or ends with the
      separator. */
  lemma LastPieceEmpty(s: string, c: char)
    ensures Split(s, c)[|Split(s, c)| - 1] == "" <==> s == "" || s[|s| - 1] == c
  {
    var p := Split(s, c);
    JoinSplit(s, c);
    if s != "" && s[|s| - 1] == c {
      LastPieceAfterTerminator(s, c);
    }
    if |p| > 1 {
      var front := p[..|p| - 1];
      assert p == front + [p[|p| - 1]];
      JoinAppend([c], front, [p[|p| - 1]]);
    }
  }

  /** A string that ends with `c` splits into pieces the last of which is empty. */
  lemma {:induction false} LastPieceAfterTerminator(s: string, c: char)
    requires |s| > 0 && s[|s| - 1] == c
    ensures Split(s, c)[|Split(s, c)| - 1] == ""
    decreases |s|
  {
    if |s| > 1 {
      assert s[1..][|s[1..]| - 1] == c;
      LastPieceAfterTerminator(s[1..], c);
    }
  }

  // ---------------------------------------------------------------------------
  // Reading a text back
  // ---------------------------------------------------------------------------

  /** A part free of `c` that is followed by `c` is read back up to the first `c`: two such
      splittings of one string are the same splitting. */
  lemma FirstDelimiterUnique(x1: string, r1: string, x2: string, r2: string, c: char)
    requires c !in x1 && c !in x2
    requires |r1| > 0 && r1[0] == c && |r2| > 0 && r2[0] == c
    requires x1 + r1 == x2 + r2
    ensures x1 == x2 && r1 == r2
  {
    var p := x1 + r1;
    assert forall k :: 0 <= k < |x1| ==> p[k] == x1[k];
    assert forall k :: 0 <= k < |x2| ==> p[k] == x2[k];
    assert p[|x1|] == c && p[|x2|] == c;
    assert |x1| == |x2|;
    assert x1 == p[..|x1|] == x2;
    assert r1 == p[|x1|..] == r2;
  }
}
