/** The three scraping functions, with the fetched text as an input: the
    alias lookup that fills in a stock's active and old ids, the
    market-watch payload parser, and the row handling of the stocks-list
    page. */
module StocksScraper {
  import opened Wrappers
  import opened Text
  import opened Platform
  import opened Stocks

  /** The exceptions these functions let escape. */
  datatype ScrapeError =
    | NoResponse       // `assert response is not None` failed
    | IndexOutOfRange  // a row has fewer comma-separated fields than the code reads

  /** "گواهی" ("certificate"): market-watch names containing it are not
      shares. */
  const Certificate: string := "\U{06AF}\U{0648}\U{0627}\U{0647}\U{06CC}"

  /** "حذف-" ("deleted-"): the stocks-list page marks removed instruments
      with this name prefix. */
  const DeletedPrefix: string := "\U{062D}\U{0630}\U{0641}-"

  /** The query-string key in front of the id in a stocks-list link. */
  const InsCodeKey: string := "inscode="

  // ---------------------------------------------------------------------
  // Alias lookup: get_stock_ids_with_symbol

  /** What one `;`-separated entry of the lookup response means for the
      stock being resolved. */
  datatype AliasEntry =
    | Unrelated            // blank, or its first field names another symbol
    | Truncated            // names the symbol but has fewer than eight fields
    | ActiveId(id: string) // names the symbol and field 7 is "1"
    | OldId(id: string)    // names the symbol and field 7 is anything else

  /** The tests the loop body makes on one entry, in its order: blank
      entries first, then the symbol in field 0 after `replace_arabic`,
      then the flag in field 7; the id is field 2. */
  function ClassifyAlias(entry: string, symbol: string, env: Env): (kind: AliasEntry)
    ensures kind != Unrelated ==>
      Strip(entry, env.isSpace) != [] && env.replaceArabic(Split(entry, ',')[0]) == symbol
    ensures kind.Truncated? ==> |Split(entry, ',')| < 8
    ensures kind.ActiveId? || kind.OldId? ==>
      var fields := Split(entry, ',');
      && |fields| >= 8
      && kind.id == fields[2]
      && (kind.ActiveId? <==> fields[7] == "1")
  {
    if Strip(entry, env.isSpace) == [] then Unrelated
    else
      var fields := Split(entry, ',');
      if env.replaceArabic(fields[0]) != symbol then Unrelated
      else if |fields| < 8 then Truncated
      else if fields[7] == "1" then ActiveId(fields[2])
      else OldId(fields[2])
  }

  /** Every entry of a response, classified. */
  function ClassifyAliases(entries: seq<string>, symbol: string, env: Env): (kinds: seq<AliasEntry>)
    ensures |kinds| == |entries|
    ensures forall i :: 0 <= i < |entries| ==> kinds[i] == ClassifyAlias(entries[i], symbol, env)
  {
    seq(|entries|, i requires 0 <= i < |entries| => ClassifyAlias(entries[i], symbol, env))
  }

  /** `current_id` (None until an active entry is seen) and `old_ids`, as
      the lookup loop accumulates them. */
  datatype AliasIds = AliasIds(active: Option<string>, oldIds: seq<string>)

  /** The loop body for one classified entry. */
  function AliasStep(ids: AliasIds, kind: AliasEntry): Result<AliasIds, ScrapeError>
  {
    match kind
    case Unrelated => Success(ids)
    case Truncated => Failure(IndexOutOfRange)
    case ActiveId(id) => Success(ids.(active := Some(id)))
    case OldId(id) => Success(ids.(oldIds := ids.oldIds + [id]))
  }

  /** The lookup loop run over the classified entries; the first failing
      entry ends it. */
  function ScanAliases(kinds: seq<AliasEntry>): (r: Result<AliasIds, ScrapeError>)
    ensures r.Failure? ==> r.error == IndexOutOfRange
    ensures r.Success? ==> |r.value.oldIds| <= |kinds|
    ensures r.Success? && r.value.active.Some? ==> ActiveId(r.value.active.value) in kinds
    decreases |kinds|
  {
    if |kinds| == 0 then Success(AliasIds(None, []))
    else
      match ScanAliases(kinds[..|kinds| - 1])
      case Failure(e) => Failure(e)
      case Success(ids) => AliasStep(ids, kinds[|kinds| - 1])
  }

  /** One more entry scanned after a prefix that did not fail. */
  lemma ScanAliasesStep(kinds: seq<AliasEntry>, i: nat)
    requires i < |kinds| && ScanAliases(kinds[..i]).Success?
    ensures ScanAliases(kinds[..i + 1]) == AliasStep(ScanAliases(kinds[..i]).value, kinds[i])
  {
    assert kinds[..i + 1][..i] == kinds[..i];
  }

  /** The record `get_stock_ids_with_symbol` leaves behind, given what
      `get_request` returned: only `currentId` and `oldIds` change, and a
      known id is never replaced by an empty one. */
  function ResolveIds(rec: Record, response: Option<string>, env: Env): (r: Result<Record, ScrapeError>)
    ensures response.None? ==> r == Failure(NoResponse)
    ensures r.Success? ==>
      && r.value.symbol == rec.symbol
      && r.value.name == rec.name
      && r.value.instrumentId == rec.instrumentId
    ensures r.Success? && r.value.currentId != rec.currentId ==> r.value.currentId != []
  {
    if response.None? then Failure(NoResponse)
    else
      var scan := ScanResponse(response.value, rec.symbol, env);
      if scan.Failure? then Failure(scan.error) else Success(ApplyIds(rec, scan.value))
  }

  /** The entries of the response text, split on `;` and classified for
      `symbol`. */
  function AliasEntries(text: string, symbol: string, env: Env): (kinds: seq<AliasEntry>)
    ensures |kinds| == |Split(text, ';')|
  {
    ClassifyAliases(Split(text, ';'), symbol, env)
  }

  /** The lookup loop of `get_stock_ids_with_symbol`: the ids the alias
      list yields for `symbol`. */
  function ScanResponse(text: string, symbol: string, env: Env): Result<AliasIds, ScrapeError>
  {
    ScanAliases(AliasEntries(text, symbol, env))
  }

  /** `stock.current_id = current_id or stock.current_id` and
      `stock.old_ids = old_ids`: an active id that is present and
      non-empty replaces `currentId`; the old ids replace `oldIds`. */
  function ApplyIds(rec: Record, ids: AliasIds): (r: Record)
    ensures r.symbol == rec.symbol && r.name == rec.name && r.instrumentId == rec.instrumentId
    ensures r.oldIds == ids.oldIds
    ensures ids.active.Some? && ids.active.value != [] ==> r.currentId == ids.active.value
    ensures !(ids.active.Some? && ids.active.value != []) ==> r.currentId == rec.currentId
    ensures r.currentId != rec.currentId ==> r.currentId != [] && ids.active == Some(r.currentId)
  {
    var current := if ids.active.Some? && ids.active.value != [] then ids.active.value else rec.currentId;
    rec.(currentId := current, oldIds := ids.oldIds)
  }

  /** An entry is ignored exactly when it is all white space or its first
      field, after `replace_arabic`, is not the symbol. */
  lemma UnrelatedIffBlankOrOtherSymbol(entry: string, symbol: string, env: Env)
    ensures ClassifyAlias(entry, symbol, env).Unrelated? <==>
      (forall i :: 0 <= i < |entry| ==> env.isSpace(entry[i]))
      || env.replaceArabic(Split(entry, ',')[0]) != symbol
  {
    StripIsEmptyIffBlank(entry, env.isSpace);
  }

  /** Once a prefix of the entries has failed, so has the whole scan, with
      the same error. */
  lemma {:induction false} ScanAliasesFailurePersists(kinds: seq<AliasEntry>, n: nat)
    requires n <= |kinds|
    requires ScanAliases(kinds[..n]).Failure?
    ensures ScanAliases(kinds) == ScanAliases(kinds[..n])
    decreases |kinds| - n
  {
    if n == |kinds| {
      assert kinds[..n] == kinds;
    } else {
      var front := kinds[..|kinds| - 1];
      assert front[..n] == kinds[..n];
      ScanAliasesFailurePersists(front, n);
    }
  }

  lemma {:induction false} ScanAliasesSkipsUnrelated(a: seq<AliasEntry>, b: seq<AliasEntry>)
    ensures ScanAliases(a + [Unrelated] + b) == ScanAliases(a + b)
    decreases |b|
  {
    if |b| == 0 {
      assert (a + [Unrelated] + b)[..|a|] == a && a + b == a;
    } else {
      var front := b[..|b| - 1];
      assert (a + [Unrelated] + b)[..|a + [Unrelated] + b| - 1] == a + [Unrelated] + front;
      assert (a + b)[..|a + b| - 1] == a + front;
      ScanAliasesSkipsUnrelated(a, front);
    }
  }

  /** Entries that are blank or name another symbol change nothing. */
  lemma ScanAliasesIgnoresOtherEntries(a: seq<string>, e: string, b: seq<string>, symbol: string, env: Env)
    requires ClassifyAlias(e, symbol, env).Unrelated?
    ensures ScanAliases(ClassifyAliases(a + [e] + b, symbol, env)) == ScanAliases(ClassifyAliases(a + b, symbol, env))
  {
    var ka, kb := ClassifyAliases(a, symbol, env), ClassifyAliases(b, symbol, env);
    ClassifyAliasesAppend(a + [e], b, symbol, env);
    ClassifyAliasesAppend(a, [e], symbol, env);
    ClassifyAliasesAppend(a, b, symbol, env);
    assert ClassifyAliases([e], symbol, env) == [Unrelated];
    ScanAliasesSkipsUnrelated(ka, kb);
  }

  lemma ClassifyAliasesAppend(a: seq<string>, b: seq<string>, symbol: string, env: Env)
    ensures ClassifyAliases(a + b, symbol, env) == ClassifyAliases(a, symbol, env) + ClassifyAliases(b, symbol, env)
  {
    MapAppend(e => ClassifyAlias(e, symbol, env), a, b,
              ClassifyAliases(a, symbol, env), ClassifyAliases(b, symbol, env), ClassifyAliases(a + b, symbol, env));
  }

  /** Mapping a function over `a + b` maps it over `a`, then over `b`. */
  lemma MapAppend<A, B>(f: A -> B, a: seq<A>, b: seq<A>, fa: seq<B>, fb: seq<B>, fab: seq<B>)
    requires |fa| == |a| && forall i :: 0 <= i < |a| ==> fa[i] == f(a[i])
    requires |fb| == |b| && forall i :: 0 <= i < |b| ==> fb[i] == f(b[i])
    requires |fab| == |a + b| && forall i :: 0 <= i < |a + b| ==> fab[i] == f((a + b)[i])
    ensures fab == fa + fb
  {
    forall i | 0 <= i < |a + b|
      ensures fab[i] == (fa + fb)[i]
    {
      if i < |a| {
        assert (a + b)[i] == a[i];
      } else {
        assert (a + b)[i] == b[i - |a|];
      }
    }
  }

  /** The lookup raises exactly when some entry naming the symbol has
      fewer than eight fields, and then with an index error. */
  lemma {:induction false} ScanAliasesFailsIffTruncated(kinds: seq<AliasEntry>)
    ensures ScanAliases(kinds).Failure? <==> exists i :: 0 <= i < |kinds| && kinds[i] == Truncated
    ensures ScanAliases(kinds).Failure? ==> ScanAliases(kinds).error == IndexOutOfRange
    decreases |kinds|
  {
    if |kinds| > 0 {
      var front := kinds[..|kinds| - 1];
      ScanAliasesFailsIffTruncated(front);
      assert forall i :: 0 <= i < |front| ==> front[i] == kinds[i];
    }
  }

  /** `kinds[i]` is the last active entry, and its id is `id`. */
  predicate LastActiveAt(kinds: seq<AliasEntry>, i: int, id: string)
  {
    && 0 <= i < |kinds|
    && kinds[i] == ActiveId(id)
    && forall j :: i < j < |kinds| ==> !kinds[j].ActiveId?
  }

  /** The active id is that of the last active entry; there is none when
      no entry is active. */
  lemma {:induction false} ScanAliasesActiveIsLast(kinds: seq<AliasEntry>)
    requires ScanAliases(kinds).Success?
    ensures var ids := ScanAliases(kinds).value;
      && (ids.active.None? <==> forall i :: 0 <= i < |kinds| ==> !kinds[i].ActiveId?)
      && (ids.active.Some? ==> exists i :: LastActiveAt(kinds, i, ids.active.value))
    decreases |kinds|
  {
    if |kinds| > 0 {
      var n := |kinds| - 1;
      var front := kinds[..n];
      ScanAliasesActiveIsLast(front);
      assert forall i :: 0 <= i < n ==> front[i] == kinds[i];
      var ids := ScanAliases(kinds).value;
      if kinds[n].ActiveId? {
        assert LastActiveAt(kinds, n, ids.active.value);
      } else if ids.active.Some? {
        var i :| LastActiveAt(front, i, ids.active.value);
        assert LastActiveAt(kinds, i, ids.active.value);
      }
    }
  }

  /** What a successful lookup leaves in the record, in terms of the
      response's entries: `currentId` is the id of the last active entry
      when that id is non-empty, and is kept otherwise; `oldIds` lists the
      ids of the old entries in response order. */
  lemma ResolveIdsFromEntries(rec: Record, text: string, env: Env)
    requires ResolveIds(rec, Some(text), env).Success?
    ensures ResolveIds(rec, Some(text), env).value.oldIds == OldIdsOf(AliasEntries(text, rec.symbol, env))
    ensures forall i, id :: LastActiveAt(AliasEntries(text, rec.symbol, env), i, id) ==>
      ResolveIds(rec, Some(text), env).value.currentId == if id != [] then id else rec.currentId
    ensures (forall i :: 0 <= i < |AliasEntries(text, rec.symbol, env)| ==>
              !AliasEntries(text, rec.symbol, env)[i].ActiveId?) ==>
      ResolveIds(rec, Some(text), env).value.currentId == rec.currentId
  {
    var kinds := AliasEntries(text, rec.symbol, env);
    ScanAliasesActiveIsLast(kinds);
    ScanAliasesOldIds(kinds);
    var ids := ScanAliases(kinds).value;
    forall i, id | LastActiveAt(kinds, i, id)
      ensures ResolveIds(rec, Some(text), env).value.currentId == if id != [] then id else rec.currentId
    {
      var j :| LastActiveAt(kinds, j, ids.active.value);
      LastActiveIsUnique(kinds, i, id, j, ids.active.value);
    }
  }

  /** There is only one last active entry. */
  lemma LastActiveIsUnique(kinds: seq<AliasEntry>, i: int, id: string, j: int, id': string)
    requires LastActiveAt(kinds, i, id) && LastActiveAt(kinds, j, id')
    ensures i == j && id == id'
  {
  }

  /** The ids of the old entries, in the order of the response. */
  function OldIdsOf(kinds: seq<AliasEntry>): seq<string>
    decreases |kinds|
  {
    if |kinds| == 0 then []
    else (if kinds[0].OldId? then [kinds[0].id] else []) + OldIdsOf(kinds[1..])
  }

  lemma {:induction false} OldIdsOfAppend(a: seq<AliasEntry>, b: seq<AliasEntry>)
    ensures OldIdsOf(a + b) == OldIdsOf(a) + OldIdsOf(b)
    decreases |a|
  {
    if |a| == 0 {
      assert a + b == b;
    } else {
      assert (a + b)[0] == a[0];
      assert (a + b)[1..] == a[1..] + b;
      OldIdsOfAppend(a[1..], b);
      var head := if a[0].OldId? then [a[0].id] else [];
      assert head + (OldIdsOf(a[1..]) + OldIdsOf(b)) == (head + OldIdsOf(a[1..])) + OldIdsOf(b);
    }
  }

  /** `old_ids` ends up holding the id of every old entry, in order. */
  lemma {:induction false} ScanAliasesOldIds(kinds: seq<AliasEntry>)
    requires ScanAliases(kinds).Success?
    ensures ScanAliases(kinds).value.oldIds == OldIdsOf(kinds)
    decreases |kinds|
  {
    if |kinds| > 0 {
      var n := |kinds| - 1;
      ScanAliasesOldIds(kinds[..n]);
      OldIdsOfAppend(kinds[..n], [kinds[n]]);
      assert kinds[..n] + [kinds[n]] == kinds;
    }
  }

  /** The loop of `get_stock_ids_with_symbol` over the `;`-separated
      entries of the response text: `current_id` and `old_ids` as it
      leaves them, or the `IndexError` a short entry raises. */
  method ScanAliasList(text: string, symbol: string, env: Env) returns (r: Result<AliasIds, ScrapeError>)
    ensures r == ScanResponse(text, symbol, env)
  {
    var symbols := Split(text, ';');
    ghost var kinds := ClassifyAliases(symbols, symbol, env);
    var currentId: Option<string> := None;
    var oldIds: seq<string> := [];
    for i := 0 to |symbols|
      invariant ScanAliases(kinds[..i]) == Success(AliasIds(currentId, oldIds))
    {
      ScanAliasesStep(kinds, i);
      assert kinds[i] == ClassifyAlias(symbols[i], symbol, env);
      var info := symbols[i];
      if Strip(info, env.isSpace) == [] {
        continue;
      }
      var fields := Split(info, ',');
      if env.replaceArabic(fields[0]) == symbol {
        if |fields| < 8 {
          ScanAliasesFailurePersists(kinds, i + 1);
          return Failure(IndexOutOfRange);
        }
        if fields[7] == "1" {
          currentId := Some(fields[2]);
        } else {
          oldIds := oldIds + [fields[2]];
        }
      }
    }
    assert kinds[..|symbols|] == kinds;
    return Success(AliasIds(currentId, oldIds));
  }

  /** `get_stock_ids_with_symbol`, given the text `get_request` returned.
      On success it has rewritten `currentId` and `oldIds` of the stock it
      was given and returns that same object; when it raises, the stock is
      untouched. */
  method GetStockIdsWithSymbol(stock: Stock, response: Option<string>, env: Env)
    returns (r: Result<Stock, ScrapeError>)
    modifies stock
    ensures var expected := ResolveIds(old(stock.View()), response, env);
      match expected
      case Success(rec) => r == Success(stock) && stock.View() == rec
      case Failure(e) => r == Failure(e) && stock.View() == old(stock.View())
  {
    if response.None? {
      return Failure(NoResponse);
    }
    var scan := ScanAliasList(response.value, stock.symbol, env);
    if scan.Failure? {
      return Failure(scan.error);
    }
    var currentId := scan.value.active;
    stock.currentId := if currentId.Some? && currentId.value != [] then currentId.value else stock.currentId;
    stock.oldIds := scan.value.oldIds;
    return Success(stock);
  }

  // ---------------------------------------------------------------------
  // Market-watch payload: get_stocks_list_from_market_watch_init_page

  /** A row the parse cannot get past: field 2 is missing, or field 3 is
      missing and field 2 does not end in digits (that test comes first). */
  predicate AbortsParse(row: string, env: Env)
  {
    var data := Split(row, ',');
    |data| < 3 || (|data| == 3 && !EndsWithDecimals(data[2], env.isDecimal))
  }

  /** A readable row that is not a share: its raw symbol ends in digits,
      its name contains the certificate word, or its symbol is all
      digits. */
  predicate DroppedRow(row: string, env: Env)
  {
    var data := Split(row, ',');
    && !AbortsParse(row, env)
    && (|data| == 3
        || EndsWithDecimals(data[2], env.isDecimal)
        || Contains(env.replaceArabic(data[3]), Certificate)
        || IsDigitString(data[2], env.isDigit))
  }

  /** One `;`-separated row: an error, a skipped row, or the record it
      yields, each field passed through `replace_arabic`. */
  function MarketWatchRow(row: string, env: Env): (r: Result<Option<Record>, ScrapeError>)
    ensures r.Failure? <==> AbortsParse(row, env)
    ensures r.Failure? ==> r.error == IndexOutOfRange
    ensures r == Success(None) <==> DroppedRow(row, env)
    ensures r.Success? && r.value.Some? ==>
      var data := Split(row, ',');
      && |data| >= 4
      && r.value.value == NewRecord(env.replaceArabic(data[0]), env.replaceArabic(data[2]),
                                    env.replaceArabic(data[3]), env.replaceArabic(data[1]), [])
  {
    var data := Split(row, ',');
    if |data| < 3 then Failure(IndexOutOfRange)
    else if EndsWithDecimals(data[2], env.isDecimal) then Success(None)
    else if |data| < 4 then Failure(IndexOutOfRange)
    else if Contains(env.replaceArabic(data[3]), Certificate) then Success(None)
    else if IsDigitString(data[2], env.isDigit) then Success(None)
    else
      Success(Some(NewRecord(env.replaceArabic(data[0]), env.replaceArabic(data[2]),
                             env.replaceArabic(data[3]), env.replaceArabic(data[1]), [])))
  }

  /** The row loop: kept records in row order; the first bad row aborts. */
  function MarketWatchRows(rows: seq<string>, env: Env): (r: Result<seq<Record>, ScrapeError>)
    ensures r.Failure? ==> r.error == IndexOutOfRange
    ensures r.Success? ==> |r.value| <= |rows|
    decreases |rows|
  {
    if |rows| == 0 then Success([])
    else
      match MarketWatchRows(rows[..|rows| - 1], env)
      case Failure(e) => Failure(e)
      case Success(kept) =>
        match MarketWatchRow(rows[|rows| - 1], env)
        case Failure(e) => Failure(e)
        case Success(None) => Success(kept)
        case Success(Some(rec)) => Success(kept + [rec])
  }

  /** What the whole function returns for the text `get_request` gave:
      fewer than three `@` groups give the empty list. */
  function MarketWatchInit(response: Option<string>, env: Env): (r: Result<seq<Record>, ScrapeError>)
    ensures response.None? ==> r == Failure(NoResponse)
    ensures response.Some? && |Split(response.value, '@')| < 3 ==> r == Success([])
  {
    match response
    case None => Failure(NoResponse)
    case Some(text) =>
      var groups := Split(text, '@');
      if |groups| < 3 then Success([])
      else MarketWatchRows(Split(groups[2], ';'), env)
  }

  /** When every character `isdigit` accepts is also a `\d` decimal (as
      for ASCII digits), the all-digits test never fires: such a symbol
      already ends in digits and was skipped by the test before it. */
  lemma AllDigitSymbolAlreadyEndsInDigits(symbol: string, env: Env)
    requires forall c :: env.isDigit(c) ==> env.isDecimal(c)
    requires IsDigitString(symbol, env.isDigit)
    ensures EndsWithDecimals(symbol, env.isDecimal)
  {
    assert env.isDigit(symbol[|symbol| - 1]);
  }

  /** Rows are handled one after another: the records of `a + b` are those
      of `a` followed by those of `b`, and an error in either is the
      result. */
  lemma {:induction false} MarketWatchRowsAppend(a: seq<string>, b: seq<string>, env: Env)
    ensures MarketWatchRows(a + b, env) ==
      match MarketWatchRows(a, env)
      case Failure(e) => Failure(e)
      case Success(x) =>
        match MarketWatchRows(b, env)
        case Failure(e) => Failure(e)
        case Success(y) => Success(x + y)
    decreases |b|
  {
    if |b| == 0 {
      assert a + b == a;
      if MarketWatchRows(a, env).Success? {
        assert MarketWatchRows(a, env).value + [] == MarketWatchRows(a, env).value;
      }
    } else {
      var front := b[..|b| - 1];
      assert (a + b)[..|a + b| - 1] == a + front;
      MarketWatchRowsAppend(a, front, env);
      if MarketWatchRows(a, env).Success? && MarketWatchRows(front, env).Success? {
        var x := MarketWatchRows(a, env).value;
        var y := MarketWatchRows(front, env).value;
        assert x + y + [] == x + y;
        match MarketWatchRow(b[|b| - 1], env)
        case Failure(_) =>
        case Success(None) =>
        case Success(Some(rec)) => assert x + y + [rec] == x + (y + [rec]);
      }
    }
  }

  /** The parse fails exactly when some row aborts it. */
  lemma {:induction false} MarketWatchRowsFailIff(rows: seq<string>, env: Env)
    ensures MarketWatchRows(rows, env).Failure? <==> exists i :: 0 <= i < |rows| && AbortsParse(rows[i], env)
    decreases |rows|
  {
    if |rows| > 0 {
      var front := rows[..|rows| - 1];
      MarketWatchRowsFailIff(front, env);
      assert forall i :: 0 <= i < |front| ==> front[i] == rows[i];
    }
  }

  /** The record a kept market-watch row yields. */
  function RowRecord(row: string, env: Env): Record
  {
    var data := Split(row, ',');
    if |data| < 4 then NewRecord([], [], [], [], [])
    else NewRecord(env.replaceArabic(data[0]), env.replaceArabic(data[2]),
                   env.replaceArabic(data[3]), env.replaceArabic(data[1]), [])
  }

  /** A successful parse keeps no more records than rows, each the record
      of a row that is neither dropped nor aborting, and it keeps the
      record of every such row. */
  lemma {:induction false} MarketWatchRowsFromKeptRows(rows: seq<string>, env: Env)
    requires MarketWatchRows(rows, env).Success?
    ensures |MarketWatchRows(rows, env).value| <= |rows|
    ensures forall rec :: rec in MarketWatchRows(rows, env).value ==>
      exists i :: 0 <= i < |rows| && !DroppedRow(rows[i], env) && rec == RowRecord(rows[i], env)
    ensures forall i :: 0 <= i < |rows| && !DroppedRow(rows[i], env) ==>
      RowRecord(rows[i], env) in MarketWatchRows(rows, env).value
    decreases |rows|
  {
    if |rows| > 0 {
      var front := rows[..|rows| - 1];
      MarketWatchRowsFromKeptRows(front, env);
      assert forall i :: 0 <= i < |front| ==> front[i] == rows[i];
      MarketWatchRowsFailIff(rows, env);
      assert !AbortsParse(rows[|rows| - 1], env);
    }
  }

  /** One more row parsed after a prefix that did not fail. */
  lemma MarketWatchRowsStep(rows: seq<string>, i: nat, env: Env)
    requires i < |rows| && MarketWatchRows(rows[..i], env).Success?
    ensures MarketWatchRows(rows[..i + 1], env) ==
      match MarketWatchRow(rows[i], env)
      case Failure(e) => Failure(e)
      case Success(None) => MarketWatchRows(rows[..i], env)
      case Success(Some(rec)) => Success(MarketWatchRows(rows[..i], env).value + [rec])
  {
    assert rows[..i + 1][..i] == rows[..i];
  }

  /** The body of the row loop of
      `get_stocks_list_from_market_watch_init_page`: the `IndexError` a
      short row raises, nothing for a skipped row, or a new stock holding
      the row's record. */
  method ParseMarketWatchRow(row: string, env: Env) returns (r: Result<Option<Stock>, ScrapeError>)
    ensures MarketWatchRow(row, env).Failure? ==> r == Failure(MarketWatchRow(row, env).error)
    ensures MarketWatchRow(row, env) == Success(None) ==> r == Success(None)
    ensures MarketWatchRow(row, env).Success? && MarketWatchRow(row, env).value.Some? ==>
      && r.Success? && r.value.Some? && fresh(r.value.value)
      && r.value.value.View() == MarketWatchRow(row, env).value.value
  {
    var data := Split(row, ',');
    if |data| < 3 {
      return Failure(IndexOutOfRange);
    }
    if EndsWithDecimals(data[2], env.isDecimal) {
      return Success(None);
    }
    if |data| < 4 {
      return Failure(IndexOutOfRange);
    }
    if Contains(env.replaceArabic(data[3]), Certificate) {
      return Success(None);
    }
    if IsDigitString(data[2], env.isDigit) {
      return Success(None);
    }
    var stock := new Stock(instrumentId := env.replaceArabic(data[1]),
                           symbol := env.replaceArabic(data[2]),
                           currentId := env.replaceArabic(data[0]),
                           name := env.replaceArabic(data[3]));
    return Success(Some(stock));
  }

  /** `get_stocks_list_from_market_watch_init_page`, given the text
      `get_request` returned: the new stocks hold exactly the records of
      `MarketWatchInit`. */
  method GetStocksListFromMarketWatchInitPage(response: Option<string>, env: Env)
    returns (r: Result<seq<Stock>, ScrapeError>)
    ensures MarketWatchInit(response, env).Failure? ==> r == Failure(MarketWatchInit(response, env).error)
    ensures MarketWatchInit(response, env).Success? ==>
      r.Success? && Views(r.value) == MarketWatchInit(response, env).value
    ensures r.Success? ==> forall x :: x in r.value ==> fresh(x)
    ensures r.Success? ==> Unaliased(r.value)
  {
    if response.None? {
      return Failure(NoResponse);
    }
    var responseGroups := Split(response.value, '@');
    if |responseGroups| < 3 {
      return Success([]);
    }
    r := ParseMarketWatchRows(Split(responseGroups[2], ';'), env);
  }

  /** The row loop of `get_stocks_list_from_market_watch_init_page` over
      the `;`-separated rows of the third `@` group. */
  method ParseMarketWatchRows(symbolsData: seq<string>, env: Env)
    returns (r: Result<seq<Stock>, ScrapeError>)
    ensures MarketWatchRows(symbolsData, env).Failure? ==> r == Failure(MarketWatchRows(symbolsData, env).error)
    ensures MarketWatchRows(symbolsData, env).Success? ==>
      r.Success? && Views(r.value) == MarketWatchRows(symbolsData, env).value
    ensures r.Success? ==> forall x :: x in r.value ==> fresh(x)
    ensures r.Success? ==> Unaliased(r.value)
  {
    var stocksList: seq<Stock> := [];
    for i := 0 to |symbolsData|
      invariant MarketWatchRows(symbolsData[..i], env) == Success(Views(stocksList))
      invariant forall x :: x in stocksList ==> fresh(x)
      invariant Unaliased(stocksList)
    {
      MarketWatchRowsStep(symbolsData, i, env);
      ghost var before := Views(stocksList);
      var parsed := ParseMarketWatchRow(symbolsData[i], env);
      assert Views(stocksList) == before;
      if parsed.Failure? {
        ScanRowsFailurePersists(symbolsData, i + 1, env);
        return Failure(parsed.error);
      }
      if parsed.value.Some? {
        var stock := parsed.value.value;
        ViewsAppend(stocksList, stock);
        UnaliasedAppend(stocksList, stock);
        stocksList := stocksList + [stock];
      }
    }
    assert symbolsData[..|symbolsData|] == symbolsData;
    return Success(stocksList);
  }

  /** Once a prefix of the rows has failed, so has the whole parse. */
  lemma {:induction false} ScanRowsFailurePersists(rows: seq<string>, n: nat, env: Env)
    requires n <= |rows|
    requires MarketWatchRows(rows[..n], env).Failure?
    ensures MarketWatchRows(rows, env) == MarketWatchRows(rows[..n], env)
    decreases |rows| - n
  {
    if n == |rows| {
      assert rows[..n] == rows;
    } else {
      var front := rows[..|rows| - 1];
      assert front[..n] == rows[..n];
      ScanRowsFailurePersists(front, n, env);
    }
  }

  // ---------------------------------------------------------------------
  // Stocks-list page: get_stocks_list_from_stocks_list_page

  /** The strings the HTML library extracts from one table row: the text
      of cell 0, the link text and `href` of cell 6, the link text of
      cell 7. */
  datatype PageRow = PageRow(instrumentText: string, symbolText: string, symbolHref: string, nameText: string)

  /** What the page fetch and the table lookup produced. */
  datatype StocksListResponse =
    | NoPage                     // `get_request` returned None
    | NoTable                    // the page has no `<table>`
    | Table(rows: seq<PageRow>)  // the rows of the first table

  /** Rows the loop skips: removed instruments and all-digit symbols. */
  predicate SkippedPageRow(row: PageRow, env: Env)
  {
    StartsWith(row.nameText, DeletedPrefix) || IsDigitString(row.symbolText, env.isDigit)
  }

  /** The record a kept row yields: the id is what follows "inscode=" in
      the link, and only symbol and name go through `replace_arabic`. */
  function PageRecord(row: PageRow, env: Env): (r: Record)
    ensures r.currentId == PartitionTail(row.symbolHref, InsCodeKey)
    ensures r.symbol == env.replaceArabic(row.symbolText)
    ensures r.instrumentId == row.instrumentText && r.oldIds == []
    ensures r.name == NormalizeName(env.replaceArabic(row.nameText)) && ZWNJ !in r.name
  {
    NewRecord(PartitionTail(row.symbolHref, InsCodeKey), env.replaceArabic(row.symbolText),
              env.replaceArabic(row.nameText), row.instrumentText, [])
  }

  /** The row loop: one record per kept row, in row order. */
  function StocksListRows(rows: seq<PageRow>, env: Env): (r: seq<Record>)
    ensures |r| <= |rows|
    decreases |rows|
  {
    if |rows| == 0 then []
    else
      var last := rows[|rows| - 1];
      StocksListRows(rows[..|rows| - 1], env)
        + if SkippedPageRow(last, env) then [] else [PageRecord(last, env)]
  }

  /** What the whole function returns. */
  function StocksListPage(page: StocksListResponse, env: Env): (r: Result<seq<Record>, ScrapeError>)
    ensures page.NoPage? <==> r.Failure?
    ensures page.NoTable? ==> r == Success([])
  {
    match page
    case NoPage => Failure(NoResponse)
    case NoTable => Success([])
    case Table(rows) => Success(StocksListRows(rows, env))
  }

  /** The records of `a + b` are those of `a` followed by those of `b`. */
  lemma {:induction false} StocksListRowsAppend(a: seq<PageRow>, b: seq<PageRow>, env: Env)
    ensures StocksListRows(a + b, env) == StocksListRows(a, env) + StocksListRows(b, env)
    decreases |b|
  {
    if |b| == 0 {
      assert a + b == a;
    } else {
      var front := b[..|b| - 1];
      assert (a + b)[..|a + b| - 1] == a + front;
      StocksListRowsAppend(a, front, env);
    }
  }

  /** No more records than rows, and each is the record of a kept row. */
  lemma {:induction false} StocksListRowsFromKeptRows(rows: seq<PageRow>, env: Env)
    ensures |StocksListRows(rows, env)| <= |rows|
    ensures forall rec :: rec in StocksListRows(rows, env) ==>
      exists i :: 0 <= i < |rows| && !SkippedPageRow(rows[i], env) && rec == PageRecord(rows[i], env)
    decreases |rows|
  {
    if |rows| > 0 {
      var n := |rows| - 1;
      var front := rows[..n];
      StocksListRowsFromKeptRows(front, env);
      StocksListRowsStep(rows, n, env);
      assert rows[..n + 1] == rows;
      forall rec | rec in StocksListRows(front, env)
        ensures exists i :: 0 <= i < |rows| && !SkippedPageRow(rows[i], env) && rec == PageRecord(rows[i], env)
      {
        var i :| 0 <= i < n && !SkippedPageRow(front[i], env) && rec == PageRecord(front[i], env);
        assert front[i] == rows[i];
      }
    }
  }

  /** Every kept row's record is in the result. */
  lemma {:induction false} StocksListRowsKeepsEveryRow(rows: seq<PageRow>, env: Env)
    ensures forall i :: 0 <= i < |rows| && !SkippedPageRow(rows[i], env) ==>
      PageRecord(rows[i], env) in StocksListRows(rows, env)
  {
    forall i | 0 <= i < |rows| && !SkippedPageRow(rows[i], env)
      ensures PageRecord(rows[i], env) in StocksListRows(rows, env)
    {
      StocksListRowsKeepsRow(rows, i, env);
    }
  }

  /** The record of kept row `i` follows those of the rows before it. */
  lemma StocksListRowsKeepsRow(rows: seq<PageRow>, i: nat, env: Env)
    requires i < |rows| && !SkippedPageRow(rows[i], env)
    ensures PageRecord(rows[i], env) in StocksListRows(rows, env)
  {
    assert rows[..i + 1] + rows[i + 1..] == rows;
    StocksListRowsStep(rows, i, env);
    StocksListRowsAppend(rows[..i + 1], rows[i + 1..], env);
    var head := StocksListRows(rows[..i + 1], env);
    assert head[|head| - 1] == PageRecord(rows[i], env);
    assert StocksListRows(rows, env)[|head| - 1] == head[|head| - 1];
  }

  lemma StocksListRowsStep(rows: seq<PageRow>, i: nat, env: Env)
    requires i < |rows|
    ensures StocksListRows(rows[..i + 1], env) ==
      StocksListRows(rows[..i], env) + if SkippedPageRow(rows[i], env) then [] else [PageRecord(rows[i], env)]
  {
    assert rows[..i + 1][..i] == rows[..i];
  }

  /** The body of the row loop of `get_stocks_list_from_stocks_list_page`:
      nothing for a deleted or all-digit row, else a new stock holding the
      row's record. */
  method ParsePageRow(rowData: PageRow, env: Env) returns (r: Option<Stock>)
    ensures SkippedPageRow(rowData, env) ==> r.None?
    ensures !SkippedPageRow(rowData, env) ==>
      r.Some? && fresh(r.value) && r.value.View() == PageRecord(rowData, env)
  {
    if StartsWith(rowData.nameText, DeletedPrefix) {
      return None;
    }
    if IsDigitString(rowData.symbolText, env.isDigit) {
      return None;
    }
    var stock := new Stock(instrumentId := rowData.instrumentText,
                           symbol := env.replaceArabic(rowData.symbolText),
                           name := env.replaceArabic(rowData.nameText),
                           currentId := PartitionTail(rowData.symbolHref, InsCodeKey));
    return Some(stock);
  }

  /** `get_stocks_list_from_stocks_list_page`, over the rows the HTML
      library extracted: the new stocks hold exactly the records of
      `StocksListPage`. */
  method GetStocksListFromStocksListPage(page: StocksListResponse, env: Env)
    returns (r: Result<seq<Stock>, ScrapeError>)
    ensures StocksListPage(page, env).Failure? ==> r == Failure(StocksListPage(page, env).error)
    ensures StocksListPage(page, env).Success? ==>
      r.Success? && Views(r.value) == StocksListPage(page, env).value
    ensures r.Success? ==> forall x :: x in r.value ==> fresh(x)
    ensures r.Success? ==> Unaliased(r.value)
  {
    var stocksList: seq<Stock> := [];
    if page.NoPage? {
      return Failure(NoResponse);
    }
    if page.NoTable? {
      return Success(stocksList);
    }
    var tableRows := page.rows;
    for i := 0 to |tableRows|
      invariant Views(stocksList) == StocksListRows(tableRows[..i], env)
      invariant forall x :: x in stocksList ==> fresh(x)
      invariant Unaliased(stocksList)
    {
      StocksListRowsStep(tableRows, i, env);
      ghost var before := Views(stocksList);
      var parsed := ParsePageRow(tableRows[i], env);
      assert Views(stocksList) == before;
      if parsed.Some? {
        ViewsAppend(stocksList, parsed.value);
        UnaliasedAppend(stocksList, parsed.value);
        stocksList := stocksList + [parsed.value];
      }
    }
    assert tableRows[..|tableRows|] == tableRows;
    return Success(stocksList);
  }
}
