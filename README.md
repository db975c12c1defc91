# pystock stock-catalogue refresh, modelled in Dafny

This project models the part of pystock that builds the catalogue of
instruments traded on the Tehran Stock Exchange. It covers how the
catalogue is built and written out, and proves properties of that model.

- **The `Stock` record** (`Stocks`, `custom_data_class.dfy`) is a class
  with mutable fields. Its constructor normalises the name: every U+200C
  becomes a space, then one left-to-right pass turns each pair of spaces
  into one. Its hash is the hash of the raw symbol. `__eq__` and
  `__lt__` compare symbols through the locale collation.
- **The three scrapers** (`StocksScraper`, `stocks_scraper.dfy`) take the
  text the HTTP fetch returned as an input:
  - the symbol-search lookup, which sets a stock's active id and its list
    of old ids;
  - the market-watch payload parser;
  - the row loop of the stocks-list page.

  Each loop is a method proved equal to a specification function over
  records. Properties of the scrapers are proved as lemmas about those
  functions.
- **The refresh script** (`UpdateStocksJson`, `update_stocks_json.dfy`)
  does the following:
  - merges both feeds, market watch first, into a pool holding one stock
    per raw symbol;
  - runs one id lookup per pooled stock, keeping the stocks whose lookup
    succeeded and flagging an incomplete run;
  - sorts the result with `__lt__`;
  - builds the symbol-keyed map that `write_stocks_to_json` serialises.

`Text` (`text.dfy`) holds the Python string operations the code uses:
`split`, `strip`, `replace`, `partition`, `isdigit`, and `re.search(r'\d+$')`.
`Platform` (`platform.dfy`) bundles the collaborators whose code is not
part of this model into one value, `Env`: `replace_arabic`,
`locale.strcoll`, and the character classes behind `strip`, `isdigit` and
`\d`. Nothing is assumed about them, with two exceptions:

- the ordering lemmas require `strcoll` to be a collation, i.e. a total
  preorder;
- `StocksScraper.AllDigitSymbolAlreadyEndsInDigits` requires every
  character `isdigit` accepts to be a `\d` decimal.

Where the code departs from the intended design, the model follows the
code:

- **Deduplication compares raw symbols.** `Stock.__hash__` hashes the raw
  symbol, so the `set` of the merge only treats two stocks as the same
  when their raw symbols are equal. Symbols that merely collate equal
  are both kept. The first one inserted is the one kept, which makes a
  market-watch stock win over a stocks-list stock with the same symbol.
- **The parsers can raise.**
  - A market-watch row with too few fields raises `IndexError`. So does
    a matching lookup entry with fewer than eight fields.
  - A missing response fails the `assert`.

  The model returns a `Failure` in each case. The merge drops a feed that
  raised, and the lookup step drops a stock whose lookup raised.
- **The market-watch "ends with digits" test is on the symbol (field
  2), not on the name.** A three-field row whose symbol ends in digits is
  skipped before field 3 is read, so it does not raise.
- **`__lt__` is "less than or equal".** It is
  `not strcoll(other, self) < 0`, so a stock is `<` itself. The sort is
  proved ordered under this relation.

## Model

| member | source | states |
|---|---|---|
| Stocks.Stock.constructor | pystock_client/utils/custom_data_class.py:6-16 | the new stock holds the fields as passed, `oldIds` defaults to empty, and the name is the normalised name |
| Stocks.NormalizeName | pystock_client/utils/custom_data_class.py:14-16 | the normalised name holds no U+200C and is never longer than the original |
| Stocks.NormalizeNameKeepsPlainName | pystock_client/utils/custom_data_class.py:14-16 | a name without U+200C and without a double space is stored unchanged |
| Stocks.NormalizeNameJoinerAndDoubleSpace | pystock_client/utils/custom_data_class.py:14-16 | a joiner followed by a space, and a double space, each end up as one space, also when the words around them are empty |
| Stocks.CollapseSpaceRun | pystock_client/utils/custom_data_class.py:16 | the double-space pass turns a maximal run of k spaces into ceil(k/2) spaces, so three spaces leave two |
| Stocks.CollapseKeepsOtherCharacter | pystock_client/utils/custom_data_class.py:16 | the double-space pass copies any character other than a space |
| Stocks.CollapseSplitsAfterOtherCharacter | pystock_client/utils/custom_data_class.py:16 | the double-space pass works independently on both sides of a non-space character |
| Stocks.Stock.Hash | pystock_client/utils/custom_data_class.py:18-20 | a stock's hash is the string hash of its raw symbol |
| Stocks.Stock.Lt | pystock_client/utils/custom_data_class.py:22-23 | under a collation, `self < other` holds exactly when `self.symbol` collates no later than `other.symbol` |
| Stocks.Stock.Eq | pystock_client/utils/custom_data_class.py:25-26 | under a collation, two stocks are equal exactly when their symbols collate equal |
| Stocks.HashDependsOnlyOnSymbol | pystock_client/utils/custom_data_class.py:18-20 | stocks with the same raw symbol hash alike, whatever their other fields |
| Stocks.EqDependsOnlyOnSymbols | pystock_client/utils/custom_data_class.py:25-26 | equality depends on the two symbols only |
| Stocks.LtIsReflexive | pystock_client/utils/custom_data_class.py:22-23 | under a collation, every stock is `<` itself |
| Stocks.EqIffMutualLt | pystock_client/utils/custom_data_class.py:22-26 | under a collation, two stocks are equal exactly when each is `<` the other |
| Stocks.LtIsTotalPreorder | pystock_client/utils/custom_data_class.py:22-23 | under a collation, `<` is total and transitive |
| Stocks.PrecedesIsTotalPreorder | pystock_client/utils/custom_data_class.py:22-23 | the same order on records is total and transitive |
| Text.Split | pystock_client/scraper/stocks_scraper.py:28 | `str.split` yields at least one piece, no piece holds the separator, and joining the pieces gives the string back |
| Text.SplitJoin | pystock_client/scraper/stocks_scraper.py:28 | splitting the join of separator-free pieces gives the pieces back |
| Text.StripIsEmptyIffBlank | pystock_client/scraper/stocks_scraper.py:32 | `strip()` yields the empty string exactly when every character is whitespace |
| Text.EndsWithDecimalsIffMatch | pystock_client/scraper/stocks_scraper.py:103 | the test used for `re.search(r'\d+$', s)` holds exactly when a run of decimal digits ends where `$` can match |
| Text.PartitionTail | pystock_client/scraper/stocks_scraper.py:73 | `partition('inscode=')[2]` is what follows the first occurrence, or empty when there is none |
| Text.ReplaceCharacter | pystock_client/utils/custom_data_class.py:15 | replacing one character by another rewrites exactly its occurrences and keeps the length |
| StocksScraper.ClassifyAlias | pystock_client/scraper/stocks_scraper.py:31-39 | an entry that is not ignored is non-blank and names the symbol in field 0; a truncated one has fewer than eight fields; an id entry has at least eight, its id is field 2, and it is active exactly when field 7 is "1" |
| StocksScraper.ScanAliases | pystock_client/scraper/stocks_scraper.py:31-39 | the loop raises only `IndexError`, collects at most one old id per entry, and takes an active id only from an entry flagged active |
| StocksScraper.UnrelatedIffBlankOrOtherSymbol | pystock_client/scraper/stocks_scraper.py:31-35 | a lookup entry is ignored exactly when it is blank or its first field names another symbol |
| StocksScraper.ScanAliasesFailsIffTruncated | pystock_client/scraper/stocks_scraper.py:34-36 | the lookup raises `IndexError` exactly when an entry naming the symbol has fewer than eight fields |
| StocksScraper.ScanAliasesActiveIsLast | pystock_client/scraper/stocks_scraper.py:29-37 | the active id is unset exactly when no entry is flagged active, and is otherwise the id of the last active entry |
| StocksScraper.ScanAliasesOldIds | pystock_client/scraper/stocks_scraper.py:30-39 | `old_ids` is the id of every matching non-active entry, in response order |
| StocksScraper.ScanAliasesIgnoresOtherEntries | pystock_client/scraper/stocks_scraper.py:31-35 | removing an ignored entry from the response changes nothing |
| StocksScraper.ScanAliasesSkipsUnrelated | pystock_client/scraper/stocks_scraper.py:32-35 | an unrelated entry anywhere in the classified list changes nothing |
| StocksScraper.ScanAliasesFailurePersists | pystock_client/scraper/stocks_scraper.py:31-39 | once a prefix of the entries has raised, the whole loop has raised the same error |
| StocksScraper.ScanAliasList | pystock_client/scraper/stocks_scraper.py:28-39 | the loop computes exactly the scan of the classified response entries |
| StocksScraper.ResolveIds | pystock_client/scraper/stocks_scraper.py:19-43 | no response is an error; a resolved record keeps its symbol, name and instrument id, and a changed current id is non-empty |
| StocksScraper.ResolveIdsFromEntries | pystock_client/scraper/stocks_scraper.py:28-41 | on a successful lookup, `old_ids` is the id of every matching non-active entry in response order, and `current_id` is the id of the last active entry when that id is non-empty, else the stock's previous id |
| StocksScraper.ApplyIds | pystock_client/scraper/stocks_scraper.py:40-41 | `old_ids` is replaced by the scanned list; `current_id` becomes the active id when one was found and is non-empty, and keeps its old value otherwise |
| StocksScraper.GetStockIdsWithSymbol | pystock_client/scraper/stocks_scraper.py:19-43 | the stock is updated in place to the resolved record and returned, or left unchanged with the error |
| StocksScraper.MarketWatchRow | pystock_client/scraper/stocks_scraper.py:99-120 | a row raises exactly when it aborts the parse and is skipped exactly when it is dropped; otherwise it yields the record built from fields 0-3 |
| StocksScraper.MarketWatchRows | pystock_client/scraper/stocks_scraper.py:99-120 | the row loop raises only `IndexError` and yields at most one record per row |
| StocksScraper.AllDigitSymbolAlreadyEndsInDigits | pystock_client/scraper/stocks_scraper.py:103-112 | when every `isdigit` character is a `\d` digit, an all-digit symbol is already skipped by the "ends with digits" test |
| StocksScraper.MarketWatchRowsFailIff | pystock_client/scraper/stocks_scraper.py:99-112 | the row loop raises exactly when some row aborts the parse |
| StocksScraper.MarketWatchRowsFromKeptRows | pystock_client/scraper/stocks_scraper.py:99-120 | the parse yields at most one record per row; every record comes from a kept row, and every kept row yields its record |
| StocksScraper.MarketWatchRowsAppend | pystock_client/scraper/stocks_scraper.py:99-120 | parsing two row lists in a row gives the concatenation, or the first error |
| StocksScraper.MarketWatchInit | pystock_client/scraper/stocks_scraper.py:89-98 | no response is an error, and fewer than three `@` groups give the empty list |
| StocksScraper.ParseMarketWatchRow | pystock_client/scraper/stocks_scraper.py:100-120 | one row gives the error, nothing, or a new stock holding the row's record |
| StocksScraper.ParseMarketWatchRows | pystock_client/scraper/stocks_scraper.py:98-122 | the loop gives new, distinct stocks whose fields are the parsed records, or the first error |
| StocksScraper.GetStocksListFromMarketWatchInitPage | pystock_client/scraper/stocks_scraper.py:80-122 | the function gives new, distinct stocks holding exactly the records of the payload, or its error |
| StocksScraper.StocksListPage | pystock_client/scraper/stocks_scraper.py:55-61 | no page is an error, and a page without a table gives the empty list |
| StocksScraper.PageRecord | pystock_client/scraper/stocks_scraper.py:68-75 | a kept row's record has as id what follows `inscode=` in the link, the symbol through `replace_arabic`, cell 0's text as instrument id, no old ids, and as name the normalised `replace_arabic` of the name cell, which holds no U+200C |
| StocksScraper.StocksListRows | pystock_client/scraper/stocks_scraper.py:62-75 | the row loop yields at most one record per row |
| StocksScraper.StocksListRowsAppend | pystock_client/scraper/stocks_scraper.py:62-75 | the records of two row lists are the concatenation of their records |
| StocksScraper.StocksListRowsFromKeptRows | pystock_client/scraper/stocks_scraper.py:62-75 | there is at most one record per row, and every record is that of a kept row |
| StocksScraper.StocksListRowsKeepsEveryRow | pystock_client/scraper/stocks_scraper.py:62-75 | every row that is not deleted and whose symbol is not all digits yields its record |
| StocksScraper.ParsePageRow | pystock_client/scraper/stocks_scraper.py:63-75 | a deleted or all-digit row gives nothing; any other row gives a new stock holding its record |
| StocksScraper.GetStocksListFromStocksListPage | pystock_client/scraper/stocks_scraper.py:46-77 | the function gives new, distinct stocks holding exactly the records of the kept rows, or the error |
| UpdateStocksJson.Candidates | pystock_client/scripts/update_stocks_json.py:43-48 | a feed that raised contributes nothing; when both feeds return lists, the candidates are the market-watch list followed by the stocks-list list |
| UpdateStocksJson.Dedup | pystock_client/scripts/update_stocks_json.py:47-48 | the pool is no longer than the candidate list and holds only candidates |
| UpdateStocksJson.DedupDistinctSymbols | pystock_client/scripts/update_stocks_json.py:47-48 | the pool holds at most one stock per symbol |
| UpdateStocksJson.DedupKeepsFirst | pystock_client/scripts/update_stocks_json.py:47-48 | each pooled stock is the first candidate with its symbol |
| UpdateStocksJson.DedupKeepsSymbols | pystock_client/scripts/update_stocks_json.py:47-48 | the pool covers every candidate symbol and no other |
| UpdateStocksJson.DedupSize | pystock_client/scripts/update_stocks_json.py:47-48 | the pool size is the number of distinct symbols |
| UpdateStocksJson.MarketWatchWins | pystock_client/scripts/update_stocks_json.py:43-48 | for a symbol both feeds list, the pooled stock is the market-watch one |
| UpdateStocksJson.DedupStocksViews | pystock_client/scripts/update_stocks_json.py:47-48 | the pool of stock objects holds distinct input objects whose fields form the pool of records |
| UpdateStocksJson.Resolve | pystock_client/scripts/update_stocks_json.py:49-52 | a symbol the lookup gets no response for is an error; a resolved record keeps its symbol, name and instrument id |
| UpdateStocksJson.OutcomeOf | pystock_client/scripts/update_stocks_json.py:49-52 | task i's outcome is the lookup of pooled stock i and of nothing else |
| UpdateStocksJson.Successes | pystock_client/scripts/update_stocks_json.py:53-55 | at most one kept stock per task |
| UpdateStocksJson.SuccessesAppend | pystock_client/scripts/update_stocks_json.py:52-55 | the kept results of two task lists are those of the first followed by those of the second, so a failing task takes no other task's result with it |
| UpdateStocksJson.SuccessesMembers | pystock_client/scripts/update_stocks_json.py:53-55 | the kept results are exactly the values of the successful tasks |
| UpdateStocksJson.SuccessesCount | pystock_client/scripts/update_stocks_json.py:53-57 | at most one result per task, and as many as tasks exactly when every task succeeded |
| UpdateStocksJson.ResolvedDistinct | pystock_client/scripts/update_stocks_json.py:49-55 | a lookup never changes a symbol, so the kept stocks have distinct symbols |
| UpdateStocksJson.CollectedDistinct | pystock_client/scripts/update_stocks_json.py:41-58 | `_get_stocks_list` returns stocks with distinct symbols |
| UpdateStocksJson.CollectedAllIff | pystock_client/scripts/update_stocks_json.py:53-57 | the list is complete exactly when every lookup succeeded |
| UpdateStocksJson.ResolveOne | pystock_client/scripts/update_stocks_json.py:50-52 | one task returns the stock or the error, and the stock then holds the resolved record or its old one |
| UpdateStocksJson.ResolveAt | pystock_client/scripts/update_stocks_json.py:49-52 | task i returns its stock tagged with pooled record i's lookup outcome, and leaves that stock holding the settled record |
| UpdateStocksJson.ResolveAll | pystock_client/scripts/update_stocks_json.py:49-52 | the results are in task order, and each stock holds its own lookup's record or its old one |
| UpdateStocksJson.MarketWatchFeed | pystock_client/scripts/update_stocks_json.py:43-44 | the market-watch feed gives new, distinct stocks holding its records, or nothing |
| UpdateStocksJson.PageFeed | pystock_client/scripts/update_stocks_json.py:43-45 | the stocks-list feed gives new, distinct stocks holding its records, or nothing |
| UpdateStocksJson.FetchFeeds | pystock_client/scripts/update_stocks_json.py:43-46 | both feeds give new, distinct stocks holding the candidates, market watch first |
| UpdateStocksJson.PoolStocks | pystock_client/scripts/update_stocks_json.py:43-48 | the set holds new, distinct stocks whose records are the pool |
| UpdateStocksJson.KeepResolved | pystock_client/scripts/update_stocks_json.py:53-55 | the kept stocks hold the successful lookups' records, in task order |
| UpdateStocksJson.GetStocksList | pystock_client/scripts/update_stocks_json.py:41-58 | the result holds the records of every successful lookup of the pool, and it is complete exactly when its size is the pool size |
| UpdateStocksJson.Insert | pystock_client/scripts/update_stocks_json.py:65 | inserting adds exactly that one element |
| UpdateStocksJson.SortRecords | pystock_client/scripts/update_stocks_json.py:65 | the sorted list is a permutation of its input |
| UpdateStocksJson.InsertSorted | pystock_client/scripts/update_stocks_json.py:65 | inserting into a list sorted under `__lt__` keeps it sorted |
| UpdateStocksJson.SortRecordsSorted | pystock_client/scripts/update_stocks_json.py:65 | under a collation, the sorted list is ordered by `__lt__` |
| UpdateStocksJson.SortRecordsKeepsDistinct | pystock_client/scripts/update_stocks_json.py:65 | sorting keeps the symbols distinct |
| UpdateStocksJson.PermutationSameElements | pystock_client/scripts/update_stocks_json.py:65 | a permutation has the same length, elements and symbols |
| UpdateStocksJson.JsonData | pystock_client/scripts/update_stocks_json.py:20-28 | the map's keys are exactly the stocks' symbols |
| UpdateStocksJson.JsonDataLastWins | pystock_client/scripts/update_stocks_json.py:20-28 | the entry under a symbol holds the fields of the last stock with that symbol |
| UpdateStocksJson.JsonDataOfDistinct | pystock_client/scripts/update_stocks_json.py:20-28 | without repeated symbols, each stock's fields are the entry under its symbol |
| UpdateStocksJson.SortAndWrite | pystock_client/scripts/update_stocks_json.py:64-68 | sorting then mapping keeps every stock: a permutation, ordered, with one entry per symbol holding that stock's fields |
| UpdateStocksJson.UpdateStocksList | pystock_client/scripts/update_stocks_json.py:61-68 | `main` writes the resolved stocks sorted under a collation, one entry per symbol with its fields, and reports "Not Complete" exactly when a lookup failed |

## Left out

- Concurrency: the two feed fetches and the per-stock lookups run one after another. `asyncio.gather` returns results in task order, so the order the model uses is the same. Interleavings are not modelled, and neither is the event-loop wrapper `get_stocks_list`.
- The network: `get_request` is replaced by inputs.
  - The market-watch text is an `Option<string>`, with `None` for no response.
  - The stocks-list page is a `StocksListResponse`.
  - The symbol lookup is a function `fetch` from a symbol to the response text.
- The URL constants and building the search URL from `stock.symbol.strip()`: `fetch` takes the symbol itself.
- HTML parsing: `BeautifulSoup` and `get_html_table_header_and_rows` are replaced by the rows of the first table, given as `PageRow` values. A row with a missing cell, a missing link or a missing `href` would raise in the source and is not modelled.
- `replace_arabic`, `locale.strcoll`, and the character classes of `strip`, `isdigit` and `\d` are parameters. Their code is not part of this model. Neither is `locale.setlocale`: `strcoll` stands for its effect.
- Hash collisions: the pool treats two stocks as the same exactly when their raw symbols are equal. A collision between different symbols that also collate equal would merge them in the source.
- `set` iteration order: the pool lists stocks in first-insertion order, and Python's order is arbitrary.
  - UpdateStocksJson.GetStocksList: its result lists the stocks in the model's insertion order, so its order differs from the `set` iteration order Python returns them in.
  - The map that `UpdateStocksList` produces does not depend on this order, since its keys are distinct raw symbols.
  - The sorted list depends on it only in the relative order of stocks whose different symbols collate equal: the insertion sort keeps such stocks in pool order. Python's result depends on the hash-randomised `set` order in the same way.
- UpdateStocksJson.SortRecords: `sorted` is modelled as an insertion sort. It gives the same order up to ties under the collation, but the relative order of stocks whose symbols collate equal is not claimed to match Timsort's.
- Logging, `print` (replaced by the `complete` result), `timeit`, creating the data directory, and the JSON serialisation and file write (replaced by the map they serialise).
- JSON key order: the written file lists keys in the dict's insertion order, which is the sorted order. The `data` map of the model has no order; only the `sorted` output of `UpdateStocksList` keeps it.
