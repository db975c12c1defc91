/** The catalogue refresh script: merge the two feeds into one pool with a
    single stock per symbol, resolve the ids of every pooled stock, keep
    those that resolved, sort them, and build the symbol-keyed map that is
    written out as JSON. The concurrent fan-out is run one task after
    another. */
module UpdateStocksJson {
  import opened Wrappers
  import opened Text
  import opened Platform
  import opened Stocks
  import opened StocksScraper

  // ---------------------------------------------------------------------
  // Merging the feeds

  /** The elements of a feed result that is a list; nothing for a feed
      that raised. */
  function Listed<T>(result: Result<seq<T>, ScrapeError>): seq<T>
  {
    match result
    case Success(items) => items
    case Failure(_) => []
  }

  /** Everything both feeds produced, market watch first, as the set
      comprehension visits it. */
  function Candidates(marketWatch: Result<seq<Record>, ScrapeError>,
                      page: Result<seq<Record>, ScrapeError>): (r: seq<Record>)
    ensures marketWatch.Failure? && page.Failure? ==> r == []
    ensures marketWatch.Failure? && page.Success? ==> r == page.value
    ensures marketWatch.Success? && page.Failure? ==> r == marketWatch.value
    ensures marketWatch.Success? && page.Success? ==> r == marketWatch.value + page.value
  {
    assert Listed(marketWatch) + [] == Listed(marketWatch);
    Listed(marketWatch) + Listed(page)
  }

  function SymbolsOf(recs: seq<Record>): (r: seq<string>)
    ensures |r| == |recs|
    ensures forall i :: 0 <= i < |recs| ==> r[i] == recs[i].symbol
  {
    seq(|recs|, i requires 0 <= i < |recs| => recs[i].symbol)
  }

  /** The set of symbols of some records. */
  function SymbolSet(recs: seq<Record>): set<string>
  {
    set r | r in recs :: r.symbol
  }

  /** No two records share a raw symbol. */
  predicate DistinctSymbols(recs: seq<Record>)
  {
    forall i, j :: 0 <= i < j < |recs| ==> recs[i].symbol != recs[j].symbol
  }

  /** The indices at which a key occurs for the first time, increasing. */
  function FirstOccurrences(keys: seq<string>): (idx: seq<nat>)
    ensures |idx| <= |keys|
    ensures forall k :: 0 <= k < |idx| ==> idx[k] < |keys|
    ensures forall k, l :: 0 <= k < l < |idx| ==> idx[k] < idx[l]
    decreases |keys|
  {
    if |keys| == 0 then []
    else
      var n := |keys| - 1;
      var front := FirstOccurrences(keys[..n]);
      if keys[n] in keys[..n] then front else front + [n]
  }

  /** The key at `i` does not occur before `i`. */
  predicate IsFirstOccurrence(keys: seq<string>, i: int)
  {
    0 <= i < |keys| && keys[i] !in keys[..i]
  }

  lemma FirstOccurrenceInPrefix(keys: seq<string>, n: nat, i: int)
    requires n <= |keys| && i < n
    ensures IsFirstOccurrence(keys[..n], i) == IsFirstOccurrence(keys, i)
  {
    if 0 <= i {
      assert keys[..n][..i] == keys[..i];
    }
  }

  /** An index is listed exactly when its key does not occur before it. */
  lemma {:induction false} FirstOccurrencesMembers(keys: seq<string>)
    ensures forall i :: i in FirstOccurrences(keys) <==> IsFirstOccurrence(keys, i)
    decreases |keys|
  {
    if |keys| > 0 {
      var n := |keys| - 1;
      var front := keys[..n];
      FirstOccurrencesMembers(front);
      var idx := FirstOccurrences(keys);
      var frontIdx := FirstOccurrences(front);
      assert idx == if keys[n] in front then frontIdx else frontIdx + [n];
      forall i
        ensures i in idx <==> IsFirstOccurrence(keys, i)
      {
        if i < n {
          FirstOccurrenceInPrefix(keys, n, i);
        }
      }
    }
  }

  /** The elements of `s` at the positions `idx`, in that order. */
  function Pick<T>(s: seq<T>, idx: seq<nat>): (r: seq<T>)
    requires forall k :: 0 <= k < |idx| ==> idx[k] < |s|
    ensures |r| == |idx|
    ensures forall k :: 0 <= k < |idx| ==> r[k] == s[idx[k]]
  {
    seq(|idx|, k requires 0 <= k < |idx| => s[idx[k]])
  }

  /** The pool the `set` of the merge holds: a stock hashes by its raw
      symbol, so a later stock with a symbol already present is not added.
      The pool is listed in insertion order. */
  function Dedup(recs: seq<Record>): (r: seq<Record>)
    ensures |r| <= |recs|
    ensures forall k :: 0 <= k < |r| ==> r[k] in recs
  {
    Pick(recs, FirstOccurrences(SymbolsOf(recs)))
  }

  /** The same pool over the stock objects themselves. */
  function DedupStocks(stocks: seq<Stock>): seq<Stock>
    reads set x | x in stocks
  {
    Pick(stocks, FirstOccurrences(SymbolsOf(Views(stocks))))
  }

  /** The pool holds at most one record per symbol. */
  lemma DedupDistinctSymbols(recs: seq<Record>)
    ensures DistinctSymbols(Dedup(recs))
  {
    var keys := SymbolsOf(recs);
    var idx := FirstOccurrences(keys);
    FirstOccurrencesMembers(keys);
    var pool := Dedup(recs);
    forall i, j | 0 <= i < j < |pool|
      ensures pool[i].symbol != pool[j].symbol
    {
      assert idx[j] in idx && idx[i] < idx[j];
      assert keys[idx[i]] == keys[..idx[j]][idx[i]];
    }
  }

  /** Each pooled record is the first record with its symbol. */
  lemma DedupKeepsFirst(recs: seq<Record>)
    ensures forall p :: p in Dedup(recs) ==>
      exists i :: 0 <= i < |recs| && recs[i] == p && forall j :: 0 <= j < i ==> recs[j].symbol != p.symbol
  {
    var keys := SymbolsOf(recs);
    var idx := FirstOccurrences(keys);
    FirstOccurrencesMembers(keys);
    var pool := Dedup(recs);
    forall p | p in pool
      ensures exists i :: 0 <= i < |recs| && recs[i] == p && forall j :: 0 <= j < i ==> recs[j].symbol != p.symbol
    {
      var k :| 0 <= k < |pool| && pool[k] == p;
      var i := idx[k];
      assert i in idx;
      forall j | 0 <= j < i
        ensures recs[j].symbol != p.symbol
      {
        assert keys[j] == keys[..i][j];
      }
    }
  }

  /** Every key occurs first somewhere at or before any of its
      occurrences. */
  lemma {:induction false} FirstOccurrenceOf(keys: seq<string>, i: nat)
    requires i < |keys|
    ensures exists j :: 0 <= j <= i && keys[j] == keys[i] && j in FirstOccurrences(keys)
    decreases i
  {
    if keys[i] in keys[..i] {
      var j :| 0 <= j < i && keys[..i][j] == keys[i];
      FirstOccurrenceOf(keys, j);
    } else {
      FirstOccurrencesMembers(keys);
    }
  }

  /** The pool keeps every symbol: its symbols are exactly those of the
      candidates. */
  lemma DedupKeepsSymbols(recs: seq<Record>)
    ensures SymbolSet(Dedup(recs)) == SymbolSet(recs)
  {
    var keys := SymbolsOf(recs);
    var idx := FirstOccurrences(keys);
    var pool := Dedup(recs);
    forall s | s in SymbolSet(recs)
      ensures s in SymbolSet(pool)
    {
      var i :| 0 <= i < |recs| && recs[i].symbol == s;
      FirstOccurrenceOf(keys, i);
      var j :| 0 <= j <= i && keys[j] == keys[i] && j in idx;
      var k :| 0 <= k < |idx| && idx[k] == j;
      assert pool[k] in pool;
    }
  }

  /** A list without repeated symbols has as many elements as symbols. */
  lemma {:induction false} DistinctSymbolsCount(recs: seq<Record>)
    requires DistinctSymbols(recs)
    ensures |SymbolSet(recs)| == |recs|
    decreases |recs|
  {
    if |recs| > 0 {
      var n := |recs| - 1;
      var front := recs[..n];
      DistinctSymbolsCount(front);
      assert recs == front + [recs[n]];
      assert SymbolSet(recs) == SymbolSet(front) + {recs[n].symbol};
      assert recs[n].symbol !in SymbolSet(front);
    }
  }

  /** The pool has exactly one record per distinct symbol. */
  lemma DedupSize(recs: seq<Record>)
    ensures |Dedup(recs)| == |SymbolSet(recs)|
  {
    DedupDistinctSymbols(recs);
    DedupKeepsSymbols(recs);
    DistinctSymbolsCount(Dedup(recs));
  }

  /** On a symbol both feeds list, the market-watch record is the one
      pooled, because that feed is inserted first. */
  lemma MarketWatchWins(marketWatch: Result<seq<Record>, ScrapeError>, page: Result<seq<Record>, ScrapeError>)
    ensures forall p :: p in Dedup(Candidates(marketWatch, page)) && p.symbol in SymbolSet(Listed(marketWatch)) ==>
      p in Listed(marketWatch)
  {
    var mw := Listed(marketWatch);
    var all := Candidates(marketWatch, page);
    DedupKeepsFirst(all);
    forall p | p in Dedup(all) && p.symbol in SymbolSet(mw)
      ensures p in mw
    {
      var i :| 0 <= i < |all| && all[i] == p && forall j :: 0 <= j < i ==> all[j].symbol != p.symbol;
      var m :| 0 <= m < |mw| && mw[m].symbol == p.symbol;
      assert all[m] == mw[m];
      assert i <= m;
      assert all[i] == mw[i];
    }
  }

  // ---------------------------------------------------------------------
  // Resolving the pool

  /** The lookup of one pooled record. `fetch(symbol)` is what
      `get_request` returns for the symbol-search URL of `symbol` (the URL
      is built from the stripped symbol; building it is not modelled). */
  function Resolve(rec: Record, fetch: string -> Option<string>, env: Env): (r: Result<Record, ScrapeError>)
    ensures fetch(rec.symbol).None? ==> r == Failure(NoResponse)
    ensures r.Success? ==>
      && r.value.symbol == rec.symbol
      && r.value.name == rec.name
      && r.value.instrumentId == rec.instrumentId
  {
    ResolveIds(rec, fetch(rec.symbol), env)
  }

  /** `f` applied to every element, in order. */
  function MapSeq<A, B>(s: seq<A>, f: A -> B): (r: seq<B>)
    ensures |r| == |s|
    decreases |s|
  {
    if |s| == 0 then []
    else MapSeq(s[..|s| - 1], f) + [f(s[|s| - 1])]
  }

  lemma {:induction false} MapSeqAt<A, B>(s: seq<A>, f: A -> B, i: nat)
    requires i < |s|
    ensures MapSeq(s, f)[i] == f(s[i])
    decreases |s|
  {
    var n := |s| - 1;
    if i < n {
      MapSeqAt(s[..n], f, i);
    }
  }

  /** One lookup per pooled record, in pool order. */
  function Outcomes(pool: seq<Record>, fetch: string -> Option<string>, env: Env): (outs: seq<Result<Record, ScrapeError>>)
    ensures |outs| == |pool|
  {
    MapSeq(pool, rec => Resolve(rec, fetch, env))
  }

  /** Each task's outcome is the lookup of its own record and nothing
      else. */
  lemma OutcomeOf(pool: seq<Record>, i: nat, fetch: string -> Option<string>, env: Env)
    requires i < |pool|
    ensures Outcomes(pool, fetch, env)[i] == Resolve(pool[i], fetch, env)
  {
    MapSeqAt(pool, rec => Resolve(rec, fetch, env), i);
  }

  /** The values of the lookups that returned a stock, in task order. */
  function Successes(outs: seq<Result<Record, ScrapeError>>): (r: seq<Record>)
    ensures |r| <= |outs|
    decreases |outs|
  {
    if |outs| == 0 then []
    else
      var n := |outs| - 1;
      Successes(outs[..n]) + if outs[n].Success? then [outs[n].value] else []
  }

  /** Tasks are independent: the successes of `a + b` are those of `a`
      followed by those of `b`, so a failing task takes no other task's
      result with it. */
  lemma {:induction false} SuccessesAppend(a: seq<Result<Record, ScrapeError>>, b: seq<Result<Record, ScrapeError>>)
    ensures Successes(a + b) == Successes(a) + Successes(b)
    decreases |b|
  {
    if |b| == 0 {
      assert a + b == a;
    } else {
      var n := |b| - 1;
      assert (a + b)[..|a + b| - 1] == a + b[..n];
      SuccessesAppend(a, b[..n]);
    }
  }

  /** Every successful lookup contributes its stock, and nothing else is
      collected. */
  lemma {:induction false} SuccessesMembers(outs: seq<Result<Record, ScrapeError>>)
    ensures forall i :: 0 <= i < |outs| && outs[i].Success? ==> outs[i].value in Successes(outs)
    ensures forall r :: r in Successes(outs) ==> exists i :: 0 <= i < |outs| && outs[i] == Success(r)
    decreases |outs|
  {
    if |outs| > 0 {
      var n := |outs| - 1;
      SuccessesMembers(outs[..n]);
      assert forall i :: 0 <= i < n ==> outs[..n][i] == outs[i];
    }
  }

  /** At most one stock per task is collected, and exactly one per task
      when no task failed; this is what the "Not Complete" test checks. */
  lemma {:induction false} SuccessesCount(outs: seq<Result<Record, ScrapeError>>)
    ensures |Successes(outs)| <= |outs|
    ensures |Successes(outs)| == |outs| <==> forall i :: 0 <= i < |outs| ==> outs[i].Success?
    decreases |outs|
  {
    if |outs| > 0 {
      var n := |outs| - 1;
      SuccessesCount(outs[..n]);
      assert forall i :: 0 <= i < n ==> outs[..n][i] == outs[i];
    }
  }

  /** Collecting keeps symbols apart when the successful lookups have
      distinct symbols. */
  lemma {:induction false} SuccessesDistinct(outs: seq<Result<Record, ScrapeError>>)
    requires forall i, j :: 0 <= i < j < |outs| && outs[i].Success? && outs[j].Success? ==>
      outs[i].value.symbol != outs[j].value.symbol
    ensures DistinctSymbols(Successes(outs))
    decreases |outs|
  {
    if |outs| > 0 {
      var n := |outs| - 1;
      var front := outs[..n];
      assert forall i :: 0 <= i < n ==> front[i] == outs[i];
      SuccessesDistinct(front);
      SuccessesMembers(front);
      if outs[n].Success? {
        forall r | r in Successes(front)
          ensures r.symbol != outs[n].value.symbol
        {
          var i :| 0 <= i < n && front[i] == Success(r);
        }
      }
    }
  }

  /** Lookups keep the symbol, so resolving a pool with distinct symbols
      collects stocks with distinct symbols. */
  lemma ResolvedDistinct(pool: seq<Record>, fetch: string -> Option<string>, env: Env)
    requires DistinctSymbols(pool)
    ensures DistinctSymbols(Successes(Outcomes(pool, fetch, env)))
  {
    var outs := Outcomes(pool, fetch, env);
    forall i | 0 <= i < |outs| && outs[i].Success?
      ensures outs[i].value.symbol == pool[i].symbol
    {
      OutcomeOf(pool, i, fetch, env);
    }
    SuccessesDistinct(outs);
  }

  /** What `_get_stocks_list` returns, as records. */
  function Collected(marketWatch: Option<string>, page: StocksListResponse,
                     fetch: string -> Option<string>, env: Env): seq<Record>
  {
    Successes(Outcomes(Pool(marketWatch, page, env), fetch, env))
  }

  /** The pool `_get_stocks_list` resolves. */
  function Pool(marketWatch: Option<string>, page: StocksListResponse, env: Env): seq<Record>
  {
    Dedup(Candidates(MarketWatchInit(marketWatch, env), StocksListPage(page, env)))
  }

  /** The pool over the objects holds the objects whose views make up the
      pool over the views. */
  lemma DedupStocksViews(stocks: seq<Stock>)
    ensures Views(DedupStocks(stocks)) == Dedup(Views(stocks))
    ensures Unaliased(stocks) ==> Unaliased(DedupStocks(stocks))
    ensures forall x :: x in DedupStocks(stocks) ==> x in stocks
  {
    var idx := FirstOccurrences(SymbolsOf(Views(stocks)));
    assert forall k :: 0 <= k < |idx| ==> DedupStocks(stocks)[k] == stocks[idx[k]];
  }

  /** What a lookup task returned, given what the lookup of its stock's
      record gives: the stock itself, or the error. */
  predicate Tagged(result: Result<Stock, ScrapeError>, stock: Stock, outcome: Result<Record, ScrapeError>)
  {
    match outcome
    case Success(_) => result == Success(stock)
    case Failure(e) => result == Failure(e)
  }

  /** The record a stock holds after its lookup: the resolved record, or
      the record it held before when the lookup failed. */
  function Settled(rec: Record, outcome: Result<Record, ScrapeError>): Record
  {
    if outcome.Success? then outcome.value else rec
  }

  /** One task of the loop over `stocks_set` in `_get_stocks_list`: the
      lookup of one stock's symbol. */
  method ResolveOne(stock: Stock, fetch: string -> Option<string>, env: Env)
    returns (result: Result<Stock, ScrapeError>)
    modifies stock
    ensures Tagged(result, stock, Resolve(old(stock.View()), fetch, env))
    ensures stock.View() == Settled(old(stock.View()), Resolve(old(stock.View()), fetch, env))
  {
    var response := fetch(stock.symbol);
    result := GetStockIdsWithSymbol(stock, response, env);
  }

  /** The `i`-th task, stated against the outcome list of the pool. */
  method ResolveAt(stocks: seq<Stock>, i: nat, ghost pool: seq<Record>,
                   ghost outs: seq<Result<Record, ScrapeError>>, fetch: string -> Option<string>, env: Env)
    returns (result: Result<Stock, ScrapeError>)
    requires i < |stocks| == |pool|
    requires outs == Outcomes(pool, fetch, env)
    requires stocks[i].View() == pool[i]
    modifies stocks[i]
    ensures Tagged(result, stocks[i], outs[i])
    ensures stocks[i].View() == Settled(pool[i], outs[i])
  {
    OutcomeOf(pool, i, fetch, env);
    result := ResolveOne(stocks[i], fetch, env);
  }

  /** The tasks of the loop over `stocks_set` and the `gather` that runs
      them, one after another: one lookup per stock, each stock left
      holding its settled record. */
  method ResolveAll(stocks: seq<Stock>, fetch: string -> Option<string>, env: Env)
    returns (resultsList: seq<Result<Stock, ScrapeError>>)
    requires Unaliased(stocks)
    modifies set x | x in stocks
    ensures |resultsList| == |stocks|
    ensures forall j :: 0 <= j < |stocks| ==>
      Tagged(resultsList[j], stocks[j], Outcomes(old(Views(stocks)), fetch, env)[j])
    ensures forall j :: 0 <= j < |stocks| ==>
      stocks[j].View() == Settled(old(Views(stocks))[j], Outcomes(old(Views(stocks)), fetch, env)[j])
  {
    ghost var pool := Views(stocks);
    ghost var outs := Outcomes(pool, fetch, env);
    resultsList := [];
    for i := 0 to |stocks|
      invariant |resultsList| == i
      invariant forall j :: 0 <= j < i ==> Tagged(resultsList[j], stocks[j], outs[j])
      invariant forall j :: 0 <= j < i ==> stocks[j].View() == Settled(pool[j], outs[j])
      invariant forall j :: i <= j < |stocks| ==> stocks[j].View() == pool[j]
    {
      label Step:
      var result := ResolveAt(stocks, i, pool, outs, fetch, env);
      forall j | 0 <= j < |stocks| && j != i
        ensures stocks[j].View() == old@Step(stocks[j].View())
      {
        assert stocks[j] != stocks[i];
      }
      resultsList := resultsList + [result];
    }
  }

  /** The first call `gather` makes in `_get_stocks_list`: the market-watch
      feed; a feed that raised contributes nothing. */
  method MarketWatchFeed(marketWatch: Option<string>, env: Env) returns (stocks: seq<Stock>)
    ensures Views(stocks) == Listed(MarketWatchInit(marketWatch, env))
    ensures Unaliased(stocks)
    ensures forall x :: x in stocks ==> fresh(x)
  {
    var mw := GetStocksListFromMarketWatchInitPage(marketWatch, env);
    ListedViews(mw, MarketWatchInit(marketWatch, env));
    stocks := Listed(mw);
  }

  /** The second call of that `gather`: the stocks-list feed, likewise. */
  method PageFeed(page: StocksListResponse, env: Env) returns (stocks: seq<Stock>)
    ensures Views(stocks) == Listed(StocksListPage(page, env))
    ensures Unaliased(stocks)
    ensures forall x :: x in stocks ==> fresh(x)
  {
    var pg := GetStocksListFromStocksListPage(page, env);
    ListedViews(pg, StocksListPage(page, env));
    stocks := Listed(pg);
  }

  /** The first `gather` of `_get_stocks_list`: both feeds, market watch
      first. */
  method FetchFeeds(marketWatch: Option<string>, page: StocksListResponse, env: Env)
    returns (all: seq<Stock>)
    ensures Views(all) == Candidates(MarketWatchInit(marketWatch, env), StocksListPage(page, env))
    ensures Unaliased(all)
    ensures forall x :: x in all ==> fresh(x)
  {
    var mwStocks := MarketWatchFeed(marketWatch, env);
    ghost var mwViews := Views(mwStocks);
    label Fetched:
    var pgStocks := PageFeed(page, env);
    assert Views(mwStocks) == mwViews;
    forall x, y | x in mwStocks && y in pgStocks
      ensures x != y
    {
      assert fresh@Fetched(y);
    }
    UnaliasedConcat(mwStocks, pgStocks);
    ViewsConcat(mwStocks, pgStocks);
    all := mwStocks + pgStocks;
    forall x | x in all
      ensures fresh(x)
    {
      assert x in mwStocks || x in pgStocks;
    }
  }

  /** The first `gather` and the `stocks_set` comprehension: both feeds, then
      their pool. */
  method PoolStocks(marketWatch: Option<string>, page: StocksListResponse, env: Env)
    returns (stocksSet: seq<Stock>)
    ensures Views(stocksSet) == Pool(marketWatch, page, env)
    ensures Unaliased(stocksSet)
    ensures forall x :: x in stocksSet ==> fresh(x)
  {
    var all := FetchFeeds(marketWatch, page, env);
    DedupStocksViews(all);
    ghost var pool := Dedup(Views(all));
    assert pool == Pool(marketWatch, page, env);
    stocksSet := DedupStocks(all);
  }

  /** A feed that produced the stocks of its records lists their views. */
  lemma ListedViews(stocks: Result<seq<Stock>, ScrapeError>, recs: Result<seq<Record>, ScrapeError>)
    requires recs.Failure? ==> stocks.Failure?
    requires recs.Success? ==> stocks.Success? && Views(stocks.value) == recs.value
    ensures Views(Listed(stocks)) == Listed(recs)
  {
  }

  /** The loop over the second `gather`'s results: the stocks whose lookup
      returned them, in task order. */
  method KeepResolved(stocks: seq<Stock>, resultsList: seq<Result<Stock, ScrapeError>>,
                      ghost outs: seq<Result<Record, ScrapeError>>)
    returns (stocksList: seq<Stock>)
    requires |resultsList| == |stocks| == |outs|
    requires forall j :: 0 <= j < |stocks| ==> Tagged(resultsList[j], stocks[j], outs[j])
    requires forall j :: 0 <= j < |stocks| && outs[j].Success? ==> stocks[j].View() == outs[j].value
    ensures Views(stocksList) == Successes(outs)
  {
    stocksList := [];
    for i := 0 to |resultsList|
      invariant Views(stocksList) == Successes(outs[..i])
    {
      assert outs[..i + 1][..i] == outs[..i];
      assert Tagged(resultsList[i], stocks[i], outs[i]);
      if resultsList[i].Success? {
        ViewsAppend(stocksList, resultsList[i].value);
        stocksList := stocksList + [resultsList[i].value];
      }
    }
    assert outs[..|resultsList|] == outs;
  }

  /** `_get_stocks_list` run one task at a time: both feeds, the pool, one
      lookup per pooled stock, then the stocks whose lookup succeeded.
      `complete` is false exactly when "Not Complete" is printed. */
  method GetStocksList(marketWatch: Option<string>, page: StocksListResponse,
                       fetch: string -> Option<string>, env: Env)
    returns (stocksList: seq<Stock>, complete: bool)
    ensures Views(stocksList) == Collected(marketWatch, page, fetch, env)
    ensures complete <==> |stocksList| == |Pool(marketWatch, page, env)|
  {
    var stocksSet := PoolStocks(marketWatch, page, env);
    ghost var outs := Outcomes(Views(stocksSet), fetch, env);
    var resultsList := ResolveAll(stocksSet, fetch, env);
    stocksList := KeepResolved(stocksSet, resultsList, outs);
    complete := |stocksList| == |stocksSet|;
  }

  lemma ViewsConcat(a: seq<Stock>, b: seq<Stock>)
    ensures Views(a + b) == Views(a) + Views(b)
  {
  }

  // ---------------------------------------------------------------------
  // Sorting and the JSON map

  /** `x` placed in front of the first element it precedes. */
  function Insert(x: Record, s: seq<Record>, strcoll: (string, string) -> int): (r: seq<Record>)
    ensures multiset(r) == multiset(s) + multiset{x}
    decreases |s|
  {
    if |s| == 0 then [x]
    else if Precedes(x, s[0], strcoll) then [x] + s
    else
      assert s == [s[0]] + s[1..];
      [s[0]] + Insert(x, s[1..], strcoll)
  }

  /** `sorted(stocks_list)`, as an insertion sort under `__lt__`. */
  function SortRecords(s: seq<Record>, strcoll: (string, string) -> int): (r: seq<Record>)
    ensures multiset(r) == multiset(s)
    decreases |s|
  {
    if |s| == 0 then []
    else
      assert s == [s[0]] + s[1..];
      Insert(s[0], SortRecords(s[1..], strcoll), strcoll)
  }

  /** Every element is `<` every later one. */
  predicate SortedBy(s: seq<Record>, strcoll: (string, string) -> int)
  {
    forall i, j :: 0 <= i < j < |s| ==> Precedes(s[i], s[j], strcoll)
  }

  lemma {:induction false} InsertSorted(x: Record, s: seq<Record>, strcoll: (string, string) -> int)
    requires IsCollation(strcoll)
    requires SortedBy(s, strcoll)
    ensures SortedBy(Insert(x, s, strcoll), strcoll)
    decreases |s|
  {
    if |s| > 0 {
      if Precedes(x, s[0], strcoll) {
        InsertSortedInFront(x, s, strcoll);
      } else {
        InsertSorted(x, s[1..], strcoll);
        InsertSortedBehind(x, s, strcoll);
      }
    }
  }

  /** `x` goes in front: it precedes the head, hence everything. */
  lemma InsertSortedInFront(x: Record, s: seq<Record>, strcoll: (string, string) -> int)
    requires IsCollation(strcoll)
    requires SortedBy(s, strcoll)
    requires |s| > 0 && Precedes(x, s[0], strcoll)
    ensures SortedBy([x] + s, strcoll)
  {
    var r := [x] + s;
    forall j | 1 <= j < |r|
      ensures Precedes(x, r[j], strcoll)
    {
      PrecedesIsTotalPreorder(x, s[0], r[j], strcoll);
    }
  }

  /** `x` goes behind the head: the head precedes `x` and the rest. */
  lemma InsertSortedBehind(x: Record, s: seq<Record>, strcoll: (string, string) -> int)
    requires IsCollation(strcoll)
    requires SortedBy(s, strcoll)
    requires |s| > 0 && !Precedes(x, s[0], strcoll)
    requires SortedBy(Insert(x, s[1..], strcoll), strcoll)
    ensures SortedBy([s[0]] + Insert(x, s[1..], strcoll), strcoll)
  {
    var tail := Insert(x, s[1..], strcoll);
    PrecedesIsTotalPreorder(x, s[0], x, strcoll);
    forall r | r in multiset(tail)
      ensures Precedes(s[0], r, strcoll)
    {
      if r != x {
        HeadPrecedesRest(s, r, strcoll);
      }
    }
    SortedCons(s[0], tail, strcoll);
  }

  lemma HeadPrecedesRest(s: seq<Record>, r: Record, strcoll: (string, string) -> int)
    requires SortedBy(s, strcoll)
    requires |s| > 0 && r in multiset(s[1..])
    ensures Precedes(s[0], r, strcoll)
  {
    var k :| 0 <= k < |s[1..]| && s[1..][k] == r;
    assert s[k + 1] == r;
  }

  /** A head preceding every element of a sorted list keeps it sorted. */
  lemma SortedCons(h: Record, t: seq<Record>, strcoll: (string, string) -> int)
    requires SortedBy(t, strcoll)
    requires forall r :: r in multiset(t) ==> Precedes(h, r, strcoll)
    ensures SortedBy([h] + t, strcoll)
  {
    var r := [h] + t;
    forall i, j | 0 <= i < j < |r|
      ensures Precedes(r[i], r[j], strcoll)
    {
      assert r[j] == t[j - 1];
      assert t[j - 1] in multiset(t);
      if i > 0 {
        assert r[i] == t[i - 1];
      }
    }
  }

  /** The sorted list is in order under a collation. */
  lemma {:induction false} SortRecordsSorted(s: seq<Record>, strcoll: (string, string) -> int)
    requires IsCollation(strcoll)
    ensures SortedBy(SortRecords(s, strcoll), strcoll)
    decreases |s|
  {
    if |s| > 0 {
      SortRecordsSorted(s[1..], strcoll);
      InsertSorted(s[0], SortRecords(s[1..], strcoll), strcoll);
    }
  }

  /** A permutation has the same elements and the same number of them. */
  lemma PermutationSameElements(a: seq<Record>, b: seq<Record>)
    requires multiset(a) == multiset(b)
    ensures |a| == |b|
    ensures forall r :: r in a <==> r in b
    ensures SymbolSet(a) == SymbolSet(b)
  {
    assert |multiset(a)| == |multiset(b)|;
    assert forall r :: r in a <==> r in multiset(a);
  }

  /** Sorting keeps symbols distinct. */
  lemma {:induction false} SortRecordsKeepsDistinct(s: seq<Record>, strcoll: (string, string) -> int)
    requires DistinctSymbols(s)
    ensures DistinctSymbols(SortRecords(s, strcoll))
    decreases |s|
  {
    if |s| > 0 {
      var rest := s[1..];
      SortRecordsKeepsDistinct(rest, strcoll);
      var sortedRest := SortRecords(rest, strcoll);
      PermutationSameElements(sortedRest, rest);
      forall r | r in sortedRest
        ensures r.symbol != s[0].symbol
      {
        var k :| 0 <= k < |rest| && rest[k] == r;
        assert r == s[k + 1];
      }
      InsertKeepsDistinct(s[0], sortedRest, strcoll);
    }
  }

  lemma {:induction false} InsertKeepsDistinct(x: Record, s: seq<Record>, strcoll: (string, string) -> int)
    requires DistinctSymbols(s)
    requires forall r :: r in s ==> r.symbol != x.symbol
    ensures DistinctSymbols(Insert(x, s, strcoll))
    decreases |s|
  {
    if |s| > 0 && !Precedes(x, s[0], strcoll) {
      var tail := Insert(x, s[1..], strcoll);
      InsertKeepsDistinct(x, s[1..], strcoll);
      forall r | r in tail
        ensures r.symbol != s[0].symbol
      {
        assert r in multiset(tail);
        assert r == x || r in s[1..];
      }
    }
  }

  /** What the JSON file holds for one stock. */
  datatype JsonEntry = JsonEntry(currentId: string, instrumentId: string, name: string, oldIds: seq<string>)

  function Entry(r: Record): JsonEntry
  {
    JsonEntry(r.currentId, r.instrumentId, r.name, r.oldIds)
  }

  /** The dict comprehension of `write_stocks_to_json`: one key per
      symbol; for a repeated symbol the later stock overwrites. */
  function JsonData(s: seq<Record>): (data: map<string, JsonEntry>)
    ensures data.Keys == SymbolSet(s)
    decreases |s|
  {
    if |s| == 0 then map[]
    else
      var n := |s| - 1;
      assert s == s[..n] + [s[n]];
      assert SymbolSet(s) == SymbolSet(s[..n]) + {s[n].symbol};
      JsonData(s[..n])[s[n].symbol := Entry(s[n])]
  }

  /** No later stock of `s` has the symbol of `s[i]`. */
  predicate IsLastOccurrence(s: seq<Record>, i: int)
  {
    0 <= i < |s| && forall j :: i < j < |s| ==> s[j].symbol != s[i].symbol
  }

  /** A last occurrence before the final stock is one in the list without it. */
  lemma LastOccurrenceInFront(s: seq<Record>, i: int)
    requires IsLastOccurrence(s, i) && i < |s| - 1
    ensures IsLastOccurrence(s[..|s| - 1], i)
    ensures s[|s| - 1].symbol != s[i].symbol
  {
    var front := s[..|s| - 1];
    assert forall j :: i < j < |front| ==> front[j] == s[j];
  }

  /** The entry under a symbol is that of the last stock with that
      symbol. */
  lemma JsonDataLastWins(s: seq<Record>)
    ensures forall i :: IsLastOccurrence(s, i) ==> JsonData(s)[s[i].symbol] == Entry(s[i])
  {
    forall i | IsLastOccurrence(s, i)
      ensures JsonData(s)[s[i].symbol] == Entry(s[i])
    {
      JsonDataLastWinsAt(s, i);
    }
  }

  /** JsonDataLastWins for one stock, by induction on the stocks after it. */
  lemma {:induction false} JsonDataLastWinsAt(s: seq<Record>, i: int)
    requires IsLastOccurrence(s, i)
    ensures JsonData(s)[s[i].symbol] == Entry(s[i])
    decreases |s|
  {
    var n := |s| - 1;
    if i == n {
      JsonDataLastEntry(s);
    } else {
      var front := s[..n];
      LastOccurrenceInFront(s, i);
      JsonDataLastWinsAt(front, i);
      assert front[i] == s[i];
      JsonDataKeepsOtherEntry(s, s[i].symbol);
    }
  }

  /** The last stock's entry is under its symbol. */
  lemma JsonDataLastEntry(s: seq<Record>)
    requires |s| > 0
    ensures JsonData(s)[s[|s| - 1].symbol] == Entry(s[|s| - 1])
  {
  }

  /** The last stock leaves the entries of other symbols as they were. */
  lemma JsonDataKeepsOtherEntry(s: seq<Record>, key: string)
    requires |s| > 0 && key != s[|s| - 1].symbol && key in JsonData(s[..|s| - 1])
    ensures key in JsonData(s) && JsonData(s)[key] == JsonData(s[..|s| - 1])[key]
  {
  }

  /** Without repeated symbols, every stock has its own entry. */
  lemma JsonDataOfDistinct(s: seq<Record>)
    requires DistinctSymbols(s)
    ensures forall r :: r in s ==> JsonData(s)[r.symbol] == Entry(r)
  {
    JsonDataLastWins(s);
    forall r | r in s
      ensures JsonData(s)[r.symbol] == Entry(r)
    {
      var i :| 0 <= i < |s| && s[i] == r;
      assert IsLastOccurrence(s, i);
    }
  }

  /** Sorting a list with distinct symbols and building the JSON map from
      the sorted list: a permutation, in order under a collation, with one
      entry per stock under its symbol. */
  lemma SortAndWrite(s: seq<Record>, strcoll: (string, string) -> int)
    requires DistinctSymbols(s)
    ensures multiset(SortRecords(s, strcoll)) == multiset(s)
    ensures IsCollation(strcoll) ==> SortedBy(SortRecords(s, strcoll), strcoll)
    ensures JsonData(SortRecords(s, strcoll)).Keys == SymbolSet(s)
    ensures forall r :: r in s ==> JsonData(SortRecords(s, strcoll))[r.symbol] == Entry(r)
  {
    var sorted := SortRecords(s, strcoll);
    if IsCollation(strcoll) {
      SortRecordsSorted(s, strcoll);
    }
    SortRecordsKeepsDistinct(s, strcoll);
    JsonDataOfDistinct(sorted);
    PermutationSameElements(sorted, s);
  }

  /** No two collected stocks share a symbol. */
  lemma CollectedDistinct(marketWatch: Option<string>, page: StocksListResponse,
                          fetch: string -> Option<string>, env: Env)
    ensures DistinctSymbols(Collected(marketWatch, page, fetch, env))
  {
    DedupDistinctSymbols(Candidates(MarketWatchInit(marketWatch, env), StocksListPage(page, env)));
    ResolvedDistinct(Pool(marketWatch, page, env), fetch, env);
  }

  /** Every stock of the pool is collected exactly when every lookup
      succeeds. */
  lemma CollectedAllIff(pool: seq<Record>, fetch: string -> Option<string>, env: Env)
    ensures |Successes(Outcomes(pool, fetch, env))| == |pool| <==>
      forall i :: 0 <= i < |pool| ==> Outcomes(pool, fetch, env)[i].Success?
  {
    var outs := Outcomes(pool, fetch, env);
    SuccessesCount(outs);
  }

  /** `main`: collect, sort, and build the map `write_stocks_to_json`
      writes. The sorted list is a permutation of the resolved stocks, in
      order under a collation; the map has one entry per resolved stock,
      under its symbol, holding its fields. */
  method UpdateStocksList(marketWatch: Option<string>, page: StocksListResponse,
                          fetch: string -> Option<string>, env: Env)
    returns (sorted: seq<Record>, data: map<string, JsonEntry>, complete: bool)
    ensures complete <==> forall i :: 0 <= i < |Pool(marketWatch, page, env)| ==>
      Outcomes(Pool(marketWatch, page, env), fetch, env)[i].Success?
    ensures var collected := Collected(marketWatch, page, fetch, env);
      && multiset(sorted) == multiset(collected)
      && (IsCollation(env.strcoll) ==> SortedBy(sorted, env.strcoll))
      && data.Keys == SymbolSet(collected)
      && forall r :: r in collected ==> data[r.symbol] == Entry(r)
  {
    var stocksList;
    stocksList, complete := GetStocksList(marketWatch, page, fetch, env);
    CollectedAllIff(Pool(marketWatch, page, env), fetch, env);
    sorted := SortRecords(Views(stocksList), env.strcoll);
    data := JsonData(sorted);
    CollectedDistinct(marketWatch, page, fetch, env);
    SortAndWrite(Views(stocksList), env.strcoll);
  }
}
