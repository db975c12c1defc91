/** The instrument record (`Stock`): its construction-time name
    normalisation, its hash, and its collation-based equality and order. */
module Stocks {
  import opened Text
  import opened Platform

  /** U+200C ZERO WIDTH NON-JOINER. */
  const ZWNJ: char := '\U{200C}'

  /** The value of a `Stock`'s fields at one moment. */
  datatype Record = Record(
    currentId: string,
    symbol: string,
    name: string,
    instrumentId: string,
    oldIds: seq<string>)

  /** What `__post_init__` leaves in `name`: every U+200C becomes a space,
      then one left-to-right pass turns each non-overlapping pair of spaces
      into one space. */
  function NormalizeName(name: string): (r: string)
    ensures ZWNJ !in r
    ensures |r| <= |name|
  {
    var spaced := Replace(name, [ZWNJ], " ");
    ReplaceCharacter(name, ZWNJ, ' ');
    ReplaceKeepsCharacters(spaced, "  ", " ");
    Replace(spaced, "  ", " ")
  }

  /** The record `Stock(current_id, symbol, name, instrument_id, old_ids)`
      builds. */
  function NewRecord(currentId: string, symbol: string, name: string, instrumentId: string,
                     oldIds: seq<string>): Record
  {
    Record(currentId, symbol, NormalizeName(name), instrumentId, oldIds)
  }

  function Spaces(k: nat): (r: string)
    ensures |r| == k && forall i :: 0 <= i < k ==> r[i] == ' '
  {
    Run(' ', k)
  }

  /** `k` copies of `c`. */
  function Run(c: char, k: nat): (r: string)
    ensures |r| == k && forall i :: 0 <= i < k ==> r[i] == c
  {
    seq(k, _ => c)
  }

  /** The double-space pass turns a maximal run of `k` spaces into
      ceil(k/2) spaces, so three spaces leave two. */
  lemma CollapseSpaceRun(k: nat, rest: string)
    requires rest == [] || rest[0] != ' '
    ensures Replace(Spaces(k) + rest, "  ", " ") == Spaces((k + 1) / 2) + Replace(rest, "  ", " ")
  {
    CollapseRun(' ', k, rest, "  ", " ");
  }

  /** The same for any pattern made of one character twice. */
  lemma {:induction false} CollapseRun(c: char, k: nat, rest: string, pat: string, rep: string)
    requires pat == [c, c] && rep == [c]
    requires rest == [] || rest[0] != c
    ensures Replace(Run(c, k) + rest, pat, rep) == Run(c, (k + 1) / 2) + Replace(rest, pat, rep)
    decreases k
  {
    if k == 0 {
      assert Run(c, k) + rest == rest;
    } else if k == 1 {
      CollapseSingle(c, rest, pat, rep);
    } else {
      CollapseRun(c, k - 2, rest, pat, rep);
      CollapseRunStep(c, k, rest, pat, rep);
    }
  }

  /** The step of CollapseRun: a run of `k` collapses as the run of
      `k - 2` behind it does, with one more copy in front. */
  lemma CollapseRunStep(c: char, k: nat, rest: string, pat: string, rep: string)
    requires pat == [c, c] && rep == [c] && k >= 2
    requires Replace(Run(c, k - 2) + rest, pat, rep) == Run(c, (k - 1) / 2) + Replace(rest, pat, rep)
    ensures Replace(Run(c, k) + rest, pat, rep) == Run(c, (k + 1) / 2) + Replace(rest, pat, rep)
  {
    CollapsePair(c, k, rest, pat, rep);
    PrependToRun(c, (k - 1) / 2, Replace(rest, pat, rep));
    assert (k + 1) / 2 == (k - 1) / 2 + 1;
  }

  /** One more copy of `c` in front of a run lengthens it. */
  lemma PrependToRun(c: char, m: nat, tail: string)
    ensures [c] + (Run(c, m) + tail) == Run(c, m + 1) + tail
  {
    assert [c] + Run(c, m) == Run(c, m + 1);
  }

  /** Two leading copies of `c` become one. */
  lemma CollapsePair(c: char, k: nat, rest: string, pat: string, rep: string)
    requires pat == [c, c] && rep == [c] && k >= 2
    ensures Replace(Run(c, k) + rest, pat, rep) == rep + Replace(Run(c, k - 2) + rest, pat, rep)
  {
    var s := Run(c, k) + rest;
    assert StartsWith(s, pat);
    assert s[2..] == Run(c, k - 2) + rest;
  }

  /** A lone `c` is copied. */
  lemma CollapseSingle(c: char, rest: string, pat: string, rep: string)
    requires pat == [c, c] && rep == [c]
    requires rest == [] || rest[0] != c
    ensures Replace(Run(c, 1) + rest, pat, rep) == Run(c, 1) + Replace(rest, pat, rep)
  {
    var s := Run(c, 1) + rest;
    assert |rest| > 0 ==> s[1] == rest[0];
    assert !StartsWith(s, pat);
    assert s[1..] == rest;
  }

  /** A character other than a space is copied by the double-space pass;
      with CollapseSpaceRun this fixes the pass run by run. */
  lemma CollapseKeepsOtherCharacter(c: char, rest: string)
    requires c != ' '
    ensures Replace([c] + rest, "  ", " ") == [c] + Replace(rest, "  ", " ")
  {
    assert ([c] + rest)[1..] == rest;
  }

  /** A name without U+200C and without a double space is kept as given. */
  lemma NormalizeNameKeepsPlainName(name: string)
    requires ZWNJ !in name
    requires !Contains(name, "  ")
    ensures NormalizeName(name) == name
  {
    var once := Replace(name, [ZWNJ], " ");
    ReplaceCharacter(name, ZWNJ, ' ');
    assert once == name;
    ReplaceWithoutOccurrence(name, "  ", " ");
  }

  /** The double-space pass never joins across a character other than a
      space, so it works on the two sides of one separately. */
  lemma CollapseSplitsAfterOtherCharacter(x: string, y: string)
    requires x == [] || x[|x| - 1] != ' '
    ensures Replace(x + y, "  ", " ") == Replace(x, "  ", " ") + Replace(y, "  ", " ")
  {
    DoubledSplitsAfterOtherCharacter(x, y, ' ', "  ", " ");
  }

  /** The same for any pattern made of one character twice. */
  lemma {:induction false} DoubledSplitsAfterOtherCharacter(x: string, y: string, c: char, pat: string, rep: string)
    requires pat == [c, c]
    requires x == [] || x[|x| - 1] != c
    ensures Replace(x + y, pat, rep) == Replace(x, pat, rep) + Replace(y, pat, rep)
    decreases |x|
  {
    if |x| == 0 {
      assert x + y == y;
    } else if StartsWith(x + y, pat) {
      DoubledSplitsAtPattern(x, y, c, pat, rep);
    } else {
      DoubledSplitsAtOther(x, y, c, pat, rep);
    }
  }

  lemma {:induction false} DoubledSplitsAtPattern(x: string, y: string, c: char, pat: string, rep: string)
    requires pat == [c, c]
    requires |x| > 0 && x[|x| - 1] != c
    requires StartsWith(x + y, pat)
    ensures Replace(x + y, pat, rep) == Replace(x, pat, rep) + Replace(y, pat, rep)
    decreases |x|, 0
  {
    var s := x + y;
    assert |x| >= 3 && x[..2] == s[..2] by {
      assert s[0] == x[0] == c && s[1] == c;
      assert |x| >= 2 ==> s[1] == x[1];
    }
    assert s[2..] == x[2..] + y;
    DoubledSplitsAfterOtherCharacter(x[2..], y, c, pat, rep);
  }

  lemma {:induction false} DoubledSplitsAtOther(x: string, y: string, c: char, pat: string, rep: string)
    requires pat == [c, c]
    requires |x| > 0 && x[|x| - 1] != c
    requires !StartsWith(x + y, pat)
    ensures Replace(x + y, pat, rep) == Replace(x, pat, rep) + Replace(y, pat, rep)
    decreases |x|, 0
  {
    var s := x + y;
    assert !StartsWith(x, pat) by {
      assert |x| >= 2 ==> x[..2] == s[..2];
    }
    assert s[1..] == x[1..] + y;
    DoubledSplitsAfterOtherCharacter(x[1..], y, c, pat, rep);
  }

  /** A word without spaces and without U+200C is kept by both passes. */
  lemma NormalizeKeepsWord(w: string)
    requires ' ' !in w && ZWNJ !in w
    ensures Replace(w, [ZWNJ], " ") == w
    ensures Replace(w, "  ", " ") == w
  {
    var once := Replace(w, [ZWNJ], " ");
    ReplaceCharacter(w, ZWNJ, ' ');
    assert once == w;
    ReplaceWithoutOccurrence(w, "  ", " ");
  }

  lemma JoinerBecomesSpace(a: string, b: string, c: string)
    requires ZWNJ !in a && ZWNJ !in b && ZWNJ !in c
    ensures Replace(a + [ZWNJ] + " " + b + "  " + c, [ZWNJ], " ") == a + "  " + b + "  " + c
  {
    var name := a + [ZWNJ] + " " + b + "  " + c;
    ReplaceCharacter(name, ZWNJ, ' ');
  }

  lemma RegroupSpaces(a: string, b: string, c: string)
    ensures a + "  " + b + "  " + c == a + (Spaces(2) + (b + (Spaces(2) + c)))
    ensures a + " " + b + " " + c == a + (Spaces(1) + (b + (Spaces(1) + c)))
  {
    assert Spaces(2) == "  " && Spaces(1) == " ";
  }

  lemma DoubleSpacesBecomeSingle(a: string, b: string, c: string)
    requires ' ' !in a && ' ' !in b && ' ' !in c
    requires ZWNJ !in a && ZWNJ !in b && ZWNJ !in c
    ensures Replace(a + (Spaces(2) + (b + (Spaces(2) + c))), "  ", " ")
         == a + (Spaces(1) + (b + (Spaces(1) + c)))
  {
    var t2 := Spaces(2) + c;
    assert Replace(t2, "  ", " ") == Spaces(1) + c by {
      NormalizeKeepsWord(c);
      CollapseSpaceRun(2, c);
    }
    var t1 := b + t2;
    assert Replace(t1, "  ", " ") == b + (Spaces(1) + c) by {
      NormalizeKeepsWord(b);
      CollapseSplitsAfterOtherCharacter(b, t2);
    }
    var t0 := Spaces(2) + t1;
    if |b| == 0 {
      // the two double spaces meet in one run of four
      assert t0 == Spaces(4) + c;
      CollapseSpaceRun(4, c);
      assert Spaces(1) + (b + (Spaces(1) + c)) == Spaces(2) + c;
    } else {
      CollapseSpaceRun(2, t1);
    }
    assert Replace(t0, "  ", " ") == Spaces(1) + (b + (Spaces(1) + c));
    NormalizeKeepsWord(a);
    CollapseSplitsAfterOtherCharacter(a, t0);
  }

  /** A joiner followed by a space, and a double space, each become one
      space: `a + U+200C + " " + b + "  " + c` normalises to
      `a + " " + b + " " + c` for words `a`, `b`, `c`, as in
      "ABB" + U+200C + " Co.  Ltd" becoming "ABB Co. Ltd". */
  lemma NormalizeNameJoinerAndDoubleSpace(a: string, b: string, c: string)
    requires ' ' !in a && ' ' !in b && ' ' !in c
    requires ZWNJ !in a && ZWNJ !in b && ZWNJ !in c
    ensures NormalizeName(a + [ZWNJ] + " " + b + "  " + c) == a + " " + b + " " + c
  {
    JoinerBecomesSpace(a, b, c);
    RegroupSpaces(a, b, c);
    DoubleSpacesBecomeSingle(a, b, c);
  }

  /** The order `__lt__` puts on the field values of two stocks:
      `not strcoll(b.symbol, a.symbol) < 0`. */
  predicate Precedes(a: Record, b: Record, strcoll: (string, string) -> int)
  {
    !(strcoll(b.symbol, a.symbol) < 0)
  }

  /** The `Stock` dataclass. Fields are mutable: the constructor rewrites
      `name`, and the alias resolver rewrites `currentId` and `oldIds`. */
  class Stock {
    var currentId: string
    var symbol: string
    var name: string
    var instrumentId: string
    var oldIds: seq<string>

    function View(): Record
      reads this
    {
      Record(currentId, symbol, name, instrumentId, oldIds)
    }

    /** The generated `__init__` followed by `__post_init__`: only `name`
        differs from what was passed, and `oldIds` defaults to the empty
        list. */
    constructor (currentId: string, symbol: string := "", name: string := "",
                 instrumentId: string := "", oldIds: seq<string> := [])
      ensures View() == NewRecord(currentId, symbol, name, instrumentId, oldIds)
      ensures this.currentId == currentId && this.symbol == symbol
      ensures this.instrumentId == instrumentId && this.oldIds == oldIds
    {
      this.currentId := currentId;
      this.symbol := symbol;
      this.name := name;
      this.instrumentId := instrumentId;
      this.oldIds := oldIds;
      new;
      this.name := Replace(this.name, [ZWNJ], " ");
      this.name := Replace(this.name, "  ", " ");
    }

    /** `__hash__`: the hash of the raw symbol string. */
    function Hash(hashString: string -> int): (h: int)
      reads this
      ensures h == hashString(View().symbol)
    {
      hashString(symbol)
    }

    /** `__lt__`: `not strcoll(other.symbol, self.symbol) < 0`, which is
        "less than or equal" rather than "less than". */
    predicate Lt(other: Stock, strcoll: (string, string) -> int)
      reads this, other
      ensures IsCollation(strcoll) ==> (Lt(other, strcoll) <==> strcoll(symbol, other.symbol) <= 0)
    {
      Precedes(View(), other.View(), strcoll)
    }

    /** `__eq__`: the symbols collate equal. */
    predicate Eq(other: Stock, strcoll: (string, string) -> int)
      reads this, other
      ensures IsCollation(strcoll) ==> (Eq(other, strcoll) <==> strcoll(symbol, other.symbol) == 0)
    {
      strcoll(other.symbol, symbol) == 0
    }
  }

  /** Two stocks with the same raw symbol hash alike, whatever their other
      fields. */
  lemma HashDependsOnlyOnSymbol(a: Stock, b: Stock, hashString: string -> int)
    requires a.symbol == b.symbol
    ensures a.Hash(hashString) == b.Hash(hashString)
  {
  }

  /** Equality reads nothing but the two symbols. */
  lemma EqDependsOnlyOnSymbols(a: Stock, b: Stock, c: Stock, d: Stock, strcoll: (string, string) -> int)
    requires a.symbol == c.symbol && b.symbol == d.symbol
    ensures a.Eq(b, strcoll) == c.Eq(d, strcoll)
  {
  }

  /** `a < a` holds: the order is not strict. */
  lemma LtIsReflexive(a: Stock, strcoll: (string, string) -> int)
    requires IsCollation(strcoll)
    ensures a.Lt(a, strcoll)
  {
    assert strcoll(a.symbol, a.symbol) == 0;
  }

  /** Stocks are equal exactly when each is "less than" the other; so two
      stocks whose symbols collate equal are each below the other. */
  lemma EqIffMutualLt(a: Stock, b: Stock, strcoll: (string, string) -> int)
    requires IsCollation(strcoll)
    ensures a.Eq(b, strcoll) <==> a.Lt(b, strcoll) && b.Lt(a, strcoll)
  {
    assert strcoll(a.symbol, b.symbol) < 0 <==> strcoll(b.symbol, a.symbol) > 0;
  }

  /** Any two records are comparable, and the order is transitive: it is
      a total preorder on symbols. */
  lemma PrecedesIsTotalPreorder(a: Record, b: Record, c: Record, strcoll: (string, string) -> int)
    requires IsCollation(strcoll)
    ensures Precedes(a, b, strcoll) || Precedes(b, a, strcoll)
    ensures Precedes(a, b, strcoll) && Precedes(b, c, strcoll) ==> Precedes(a, c, strcoll)
  {
    assert strcoll(a.symbol, b.symbol) < 0 <==> strcoll(b.symbol, a.symbol) > 0;
    assert strcoll(c.symbol, b.symbol) <= 0 && strcoll(b.symbol, a.symbol) <= 0 ==> strcoll(c.symbol, a.symbol) <= 0;
    assert strcoll(b.symbol, c.symbol) < 0 <==> strcoll(c.symbol, b.symbol) > 0;
    assert strcoll(a.symbol, c.symbol) < 0 <==> strcoll(c.symbol, a.symbol) > 0;
  }

  /** The same for stocks: `<` is a total preorder. */
  lemma LtIsTotalPreorder(a: Stock, b: Stock, c: Stock, strcoll: (string, string) -> int)
    requires IsCollation(strcoll)
    ensures a.Lt(b, strcoll) || b.Lt(a, strcoll)
    ensures a.Lt(b, strcoll) && b.Lt(c, strcoll) ==> a.Lt(c, strcoll)
  {
    PrecedesIsTotalPreorder(a.View(), b.View(), c.View(), strcoll);
  }

  /** The current field values of a list of stocks, in order. */
  function Views(stocks: seq<Stock>): (r: seq<Record>)
    reads set x | x in stocks
    ensures |r| == |stocks|
    ensures forall i :: 0 <= i < |stocks| ==> r[i] == stocks[i].View()
  {
    if |stocks| == 0 then []
    else Views(stocks[..|stocks| - 1]) + [stocks[|stocks| - 1].View()]
  }

  lemma ViewsAppend(stocks: seq<Stock>, x: Stock)
    ensures Views(stocks + [x]) == Views(stocks) + [x.View()]
  {
    assert (stocks + [x])[..|stocks|] == stocks;
  }

  /** Distinct stock objects: mutating one leaves the others alone. */
  predicate Unaliased(stocks: seq<Stock>)
  {
    forall i, j :: 0 <= i < j < |stocks| ==> stocks[i] != stocks[j]
  }

  lemma UnaliasedConcat(a: seq<Stock>, b: seq<Stock>)
    requires Unaliased(a) && Unaliased(b)
    requires forall x, y :: x in a && y in b ==> x != y
    ensures Unaliased(a + b)
  {
    forall i, j | 0 <= i < j < |a + b|
      ensures (a + b)[i] != (a + b)[j]
    {
      if j >= |a| && i < |a| {
        assert (a + b)[i] in a && (a + b)[j] in b;
      }
    }
  }

  lemma UnaliasedAppend(stocks: seq<Stock>, x: Stock)
    requires Unaliased(stocks) && x !in stocks
    ensures Unaliased(stocks + [x])
  {
    UnaliasedConcat(stocks, [x]);
  }
}
