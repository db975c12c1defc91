/** The Python string operations the scraper and the record rely on, each
    defined once with the semantics CPython gives it: `str.split` with a
    one-character separator, `str.find`, `str.startswith`,
    `str.partition`, `str.replace`, `str.strip`, `str.isdigit` and the
    regular-expression search `\d+$`. Character classes that depend on
    Unicode tables are parameters. */
module Text {

  /** `sep.join(parts)`, the inverse of `Split`. */
  function Join(parts: seq<string>, sep: char): string
  {
    if |parts| == 0 then []
    else if |parts| == 1 then parts[0]
    else parts[0] + [sep] + Join(parts[1..], sep)
  }

  /** `s.split(sep)`: the pieces between the occurrences of `sep`; there is
      always at least one piece, and `"".split(sep) == [""]`. */
  function Split(s: string, sep: char): (parts: seq<string>)
    ensures |parts| >= 1
    ensures forall i :: 0 <= i < |parts| ==> sep !in parts[i]
    ensures Join(parts, sep) == s
    decreases |s|
  {
    if |s| == 0 then [[]]
    else
      var rest := Split(s[1..], sep);
      if s[0] == sep then
        assert s == [sep] + s[1..];
        [[]] + rest
      else
        var parts := [[s[0]] + rest[0]] + rest[1..];
        assert parts[1..] == rest[1..];
        assert s == [s[0]] + s[1..];
        parts
  }

  lemma {:induction false} SplitWithoutSeparator(p: string, sep: char)
    requires sep !in p
    ensures Split(p, sep) == [p]
    decreases |p|
  {
    if |p| > 0 {
      SplitWithoutSeparator(p[1..], sep);
      assert [p[0]] + p[1..] == p;
    }
  }

  lemma {:induction false} SplitAfterFirstPiece(p: string, t: string, sep: char)
    requires sep !in p
    ensures Split(p + [sep] + t, sep) == [p] + Split(t, sep)
    decreases |p|
  {
    var s := p + [sep] + t;
    if |p| == 0 {
      assert s[1..] == t;
    } else {
      assert s[1..] == p[1..] + [sep] + t;
      SplitAfterFirstPiece(p[1..], t, sep);
      assert [p[0]] + p[1..] == p;
    }
  }

  /** Splitting what `Join` produced gives the pieces back, as long as no
      piece contains the separator. */
  lemma {:induction false} SplitJoin(parts: seq<string>, sep: char)
    requires |parts| >= 1
    requires forall i :: 0 <= i < |parts| ==> sep !in parts[i]
    ensures Split(Join(parts, sep), sep) == parts
    decreases |parts|
  {
    if |parts| == 1 {
      SplitWithoutSeparator(parts[0], sep);
    } else {
      SplitJoin(parts[1..], sep);
      SplitAfterFirstPiece(parts[0], Join(parts[1..], sep), sep);
      assert [parts[0]] + parts[1..] == parts;
    }
  }

  /** `sub` occurs in `s` starting at index `i`. */
  predicate OccursAt(s: string, sub: string, i: int)
  {
    0 <= i && i + |sub| <= |s| && s[i..i + |sub|] == sub
  }

  /** `s.find(sub)`: the index of the first occurrence of `sub`, or -1. */
  function Find(s: string, sub: string): (r: int)
    ensures -1 <= r
    ensures r >= 0 ==> OccursAt(s, sub, r)
    ensures forall i :: 0 <= i && (r == -1 || i < r) ==> !OccursAt(s, sub, i)
    decreases |s|
  {
    if |s| < |sub| then -1
    else if s[..|sub|] == sub then 0
    else
      var k := Find(s[1..], sub);
      OccursInTail(s, sub);
      if k < 0 then -1 else k + 1
  }

  lemma OccursInTail(s: string, sub: string)
    requires |s| > 0
    ensures forall i :: 1 <= i ==> (OccursAt(s, sub, i) <==> OccursAt(s[1..], sub, i - 1))
  {
    forall i | 1 <= i
      ensures OccursAt(s, sub, i) <==> OccursAt(s[1..], sub, i - 1)
    {
      if i + |sub| <= |s| {
        assert s[1..][i - 1..i - 1 + |sub|] == s[i..i + |sub|];
      }
    }
  }

  /** `sub in s`. */
  predicate Contains(s: string, sub: string)
  {
    Find(s, sub) >= 0
  }

  /** `s.startswith(prefix)`. */
  predicate StartsWith(s: string, prefix: string)
  {
    |prefix| <= |s| && s[..|prefix|] == prefix
  }

  /** `s.partition(sep)[2]`: what follows the first occurrence of `sep`,
      or the empty string when `sep` does not occur. */
  function PartitionTail(s: string, sep: string): (tail: string)
    ensures (forall i :: !OccursAt(s, sep, i)) ==> tail == []
    ensures forall i :: OccursAt(s, sep, i) && (forall j :: 0 <= j < i ==> !OccursAt(s, sep, j)) ==>
      s == s[..i] + sep + tail
  {
    var k := Find(s, sep);
    if k < 0 then []
    else
      assert s == s[..k] + s[k..k + |sep|] + s[k + |sep|..];
      s[k + |sep|..]
  }

  /** `s.replace(pat, rep)`: one left-to-right pass that replaces
      non-overlapping occurrences of `pat`. */
  function Replace(s: string, pat: string, rep: string): (r: string)
    requires |pat| > 0
    ensures |rep| <= |pat| ==> |r| <= |s|
    decreases |s|
  {
    if |s| == 0 then []
    else if StartsWith(s, pat) then rep + Replace(s[|pat|..], pat, rep)
    else [s[0]] + Replace(s[1..], pat, rep)
  }

  /** Every character of the result comes from `s` or from `rep`. */
  lemma {:induction false} ReplaceKeepsCharacters(s: string, pat: string, rep: string)
    requires |pat| > 0
    ensures forall c :: c in Replace(s, pat, rep) ==> c in s || c in rep
    decreases |s|
  {
    if |s| > 0 {
      var k := if StartsWith(s, pat) then |pat| else 1;
      ReplaceKeepsCharacters(s[k..], pat, rep);
      assert forall c :: c in s[k..] ==> c in s;
    }
  }

  /** Replacing one character by one character works position by
      position. */
  lemma {:induction false} ReplaceCharacter(s: string, a: char, b: char)
    ensures |Replace(s, [a], [b])| == |s|
    ensures forall i :: 0 <= i < |s| ==> Replace(s, [a], [b])[i] == if s[i] == a then b else s[i]
    decreases |s|
  {
    if |s| > 0 {
      ReplaceCharacter(s[1..], a, b);
      assert StartsWith(s, [a]) <==> s[0] == a;
    }
  }

  /** Without an occurrence of `pat`, `replace` changes nothing. */
  lemma {:induction false} ReplaceWithoutOccurrence(s: string, pat: string, rep: string)
    requires |pat| > 0
    requires !Contains(s, pat)
    ensures Replace(s, pat, rep) == s
    decreases |s|
  {
    if |s| > 0 {
      assert !OccursAt(s, pat, 0);
      OccursInTail(s, pat);
      var k := Find(s[1..], pat);
      assert k >= 0 ==> OccursAt(s, pat, k + 1);
      ReplaceWithoutOccurrence(s[1..], pat, rep);
      assert [s[0]] + s[1..] == s;
    }
  }

  /** `s.lstrip()`. */
  function StripStart(s: string, isSpace: char -> bool): (r: string)
    ensures |r| <= |s| && r == s[|s| - |r|..]
    ensures r == [] || !isSpace(r[0])
    ensures forall i :: 0 <= i < |s| - |r| ==> isSpace(s[i])
    decreases |s|
  {
    if |s| > 0 && isSpace(s[0]) then StripStart(s[1..], isSpace) else s
  }

  /** `s.rstrip()`. */
  function StripEnd(s: string, isSpace: char -> bool): (r: string)
    ensures |r| <= |s| && r == s[..|r|]
    ensures r == [] || !isSpace(r[|r| - 1])
    ensures forall i :: |r| <= i < |s| ==> isSpace(s[i])
    decreases |s|
  {
    if |s| > 0 && isSpace(s[|s| - 1]) then StripEnd(s[..|s| - 1], isSpace) else s
  }

  /** `s.strip()`. */
  function Strip(s: string, isSpace: char -> bool): string
  {
    StripEnd(StripStart(s, isSpace), isSpace)
  }

  /** `s.strip() == ""` holds exactly for strings made only of white space. */
  lemma StripIsEmptyIffBlank(s: string, isSpace: char -> bool)
    ensures Strip(s, isSpace) == [] <==> forall i :: 0 <= i < |s| ==> isSpace(s[i])
  {
    var t := StripStart(s, isSpace);
    if Strip(s, isSpace) == [] {
      assert t == [];
    }
  }

  /** `s.isdigit()`: at least one character, and every character a digit. */
  predicate IsDigitString(s: string, isDigit: char -> bool)
  {
    |s| > 0 && forall i :: 0 <= i < |s| ==> isDigit(s[i])
  }

  /** `re.search(r'\d+$', s)` succeeds: `$` matches at the very end and
      also just before a final newline, so only the last character, or the
      one before a final "\n", has to be a decimal digit. */
  predicate EndsWithDecimals(s: string, isDecimal: char -> bool)
  {
    || (|s| >= 1 && isDecimal(s[|s| - 1]))
    || (|s| >= 2 && s[|s| - 1] == '\n' && isDecimal(s[|s| - 2]))
  }

  /** The regular expression `\d+$` matches `s[i..j]`: a non-empty run of
      decimal digits that ends where `$` can match. */
  predicate DecimalRunAtEnd(s: string, i: int, j: int, isDecimal: char -> bool)
  {
    && 0 <= i < j <= |s|
    && (forall k :: i <= k < j ==> isDecimal(s[k]))
    && (j == |s| || (j == |s| - 1 && s[j] == '\n'))
  }

  lemma EndsWithDecimalsIffMatch(s: string, isDecimal: char -> bool)
    ensures EndsWithDecimals(s, isDecimal) <==> exists i, j :: DecimalRunAtEnd(s, i, j, isDecimal)
  {
    if EndsWithDecimals(s, isDecimal) {
      if |s| >= 1 && isDecimal(s[|s| - 1]) {
        assert DecimalRunAtEnd(s, |s| - 1, |s|, isDecimal);
      } else {
        assert DecimalRunAtEnd(s, |s| - 2, |s| - 1, isDecimal);
      }
    }
    if exists i, j :: DecimalRunAtEnd(s, i, j, isDecimal) {
      var i, j :| DecimalRunAtEnd(s, i, j, isDecimal);
      assert isDecimal(s[j - 1]);
    }
  }
}
