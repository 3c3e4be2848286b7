# IndiaMART textile scraper: a Dafny model of its core

The project has two parts: a Scrapy spider and a pandas ETL step. The spider crawls the catalogue's listing pages and reads product detail pages into product records. The ETL step turns the scraped batch into a clean table.

This Dafny project models the core logic of both parts:

- **Price parsing** (`price.dfy`, module `PriceParser`). This is `process_price` for one price text:
  - The currency/amount/unit pattern is applied with `re.search` semantics: the leftmost match wins, and every quantifier is greedy.
  - The commas are removed from the captured amount, and it is read as an exact decimal.
  - The currency symbol is mapped through the fixed `currency_map`. `INR` is filled in only when an amount was read and no symbol was captured.
  - `Search` follows the engine start by start and alternative by alternative. `FirstDigitReading` is an independent reading: the amount starts at the first digit or comma, and the symbol is the one just before it, up to whitespace. The two are proved equal.
- **Cleaning** (`cleaner.dfy`, module `DataCleaner`). This is `clean_data` and the empty-table guard of `save_processed_data`:
  - Rows are deduplicated by `product_url`, keeping the first row of each url.
  - `product_id` is renumbered 1..N.
  - The price is parsed per row.
  - The four scrape-only columns are dropped.
  - The columns are reordered so that `product_id` is first and `price`, `unit`, `currency` are last.
- **Spider** (`spider.dfy`, module `TextileSpider`):
  - `parse` emits one detail request per product card with a truthy link, in page order, then at most one next-page request.
  - `parse_product_detail`:
    - joins and strips the text nodes;
    - builds the specification dictionary: keys are stripped, lower-cased and colon-free; the value is the stripped text; the last row wins; keys keep their first-insertion order;
    - fills `fabric_type`, `pattern`, `gsm`, `usage` and `availability` from the last dictionary key that contains the field's word.
- **Support modules.**
  - `text.dfy` (module `Text`) holds the string built-ins: `strip`, `lower`, `replace(c, '')`, `in` and `"".join`.
  - `seqs.dfy` (module `Sequences`) is the "emit something for some elements" loop shape that both handlers share.
  - `wrappers.dfy` holds `Option` (Python's `None`-or-value).

A pandas table is modelled as its column list plus its rows. Each row maps every column to a cell. The `Null` cell is pandas' missing value.

A Python dict is modelled as a key sequence in first-insertion order plus a map.

## Model

| member | source | states |
|---|---|---|
| PriceParser.CurrencyOf | mini_project/etl/data_cleaner.py:77-84 | `₹`, `Rs.`, `Rs` map to INR, `$` to USD, `€` to EUR; every code is one of those three |
| PriceParser.SymbolChoices | mini_project/etl/data_cleaner.py:60 | the symbol alternatives the engine tries at a position, `Rs.` before `Rs`, ending with the empty match of the optional group; each one is really present there |
| PriceParser.RunEnd | mini_project/etl/data_cleaner.py:60 | a greedy character-class run covers only characters of the class and stops at the end or at the first character outside it |
| PriceParser.UnitAfter | mini_project/etl/data_cleaner.py:60 | a captured unit is a non-empty run of ASCII letters |
| PriceParser.AmountEnd | mini_project/etl/data_cleaner.py:60 | where the greedy `new_price` group `[\d,]+\.?\d*` ends: not before its first character and not past the text |
| PriceParser.AmountEndShape | mini_project/etl/data_cleaner.py:60 | the `new_price` text holds only digits, commas and at most one point, and it stops at the end of the text or before a non-digit |
| PriceParser.MatchAt | mini_project/etl/data_cleaner.py:60 | any match found at a start position has the pattern's shape: symbol present, whitespace gap, amount starting with a digit or comma, amount and unit spans as the greedy groups end |
| PriceParser.MatchWith | mini_project/etl/data_cleaner.py:60 | after one symbol choice: the greedy `\s*`, then an amount starting with a digit or comma and the optional unit; any match it gives has the pattern's shape |
| PriceParser.TryChoices | mini_project/etl/data_cleaner.py:60 | the symbol alternatives tried in the engine's order, falling back to the next when the rest of the pattern fails; any match has the pattern's shape |
| PriceParser.TryChoicesNone | mini_project/etl/data_cleaner.py:60 | there is no match at a start position iff no symbol alternative lets the rest of the pattern match |
| PriceParser.TryChoicesFirst | mini_project/etl/data_cleaner.py:60 | the match found comes from the first symbol alternative with which the rest of the pattern matches |
| PriceParser.Search | mini_project/etl/data_cleaner.py:60-63 | the search result starts at or after the starting position and has the pattern's shape |
| PriceParser.FirstAmountChar | mini_project/etl/data_cleaner.py:60 | the reference reading's amount start: the first digit or comma, with none before it |
| PriceParser.ParsePrice | mini_project/etl/data_cleaner.py:63-87 | a missing price text gives all three cells missing; a parsed amount always comes with a currency; a currency is INR, USD or EUR |
| PriceParser.SearchIsFirstDigitReading | mini_project/etl/data_cleaner.py:60-63 | the engine's leftmost match is the reference reading (amount at the first digit or comma, symbol just before it up to whitespace), and there is no match exactly when the text has no digit and no comma |
| PriceParser.CommasRemoved | mini_project/etl/data_cleaner.py:69 | removing commas from a digits-and-commas text leaves only digits, and leaves something iff the text had a digit |
| PriceParser.ToDecimal | mini_project/etl/data_cleaner.py:70 | `pd.to_numeric(errors='coerce')` on a comma-free capture: a number is read only from digits with at most one point and at least one digit, and it is the number the text spells; anything else is NaN |
| PriceParser.ToDecimalOfDigits | mini_project/etl/data_cleaner.py:70 | a digit string reads as that whole number; the empty string is NaN |
| PriceParser.ToDecimalOfDotted | mini_project/etl/data_cleaner.py:70 | digits, a point and digits read as that decimal; a lone point is NaN |
| PriceParser.CapturedAmount | mini_project/etl/data_cleaner.py:67-71 | the captured amount, with its commas removed, is NaN iff it holds no digit |
| PriceParser.AmountRule | mini_project/etl/data_cleaner.py:60-71 | the amount is the greedy `[\d,]+\.?\d*` text from the first digit or comma, commas removed, as a decimal; it is NaN iff there is no digit or comma at all, or that text has no digit |
| PriceParser.UnitRule | mini_project/etl/data_cleaner.py:60-74 | the unit is the letter run after an optional-whitespace `/` that directly follows the amount, else missing |
| PriceParser.CurrencyRule | mini_project/etl/data_cleaner.py:77-87 | the currency is the mapped symbol before the amount even when the amount is NaN; without a symbol it is INR exactly when an amount was read; with no digit or comma it is missing |
| PriceParser.ReadingOf | mini_project/etl/data_cleaner.py:60-87 | given the first digit or comma, the gap before it and the amount's end, the whole parse (amount, unit, currency) is determined |
| PriceParser.ExampleRupeeWithUnit | mini_project/etl/data_cleaner.py:59-87 | `₹ 1,200.50/Meter` gives 1200.50, `Meter`, INR |
| PriceParser.ExampleRsDot | mini_project/etl/data_cleaner.py:60-87 | `Rs. 499/Piece` gives 499, `Piece`, INR |
| PriceParser.ExampleDollar | mini_project/etl/data_cleaner.py:60-87 | `$50` gives 50, no unit, USD |
| PriceParser.ExampleEuro | mini_project/etl/data_cleaner.py:60-87 | `€75.25` gives 75.25, no unit, EUR |
| PriceParser.ExampleBareNumber | mini_project/etl/data_cleaner.py:86-87 | `1500` gives 1500, no unit, and the INR default |
| PriceParser.ExampleNoPrice | mini_project/etl/data_cleaner.py:60-87 | `Contact for Price` gives no amount, no unit, no currency |
| PriceParser.ExampleCommaOnly | mini_project/etl/data_cleaner.py:84-87 | `₹ ,` gives a NaN amount but still the currency INR from the symbol |
| PriceParser.ExampleFirstNumber | mini_project/etl/data_cleaner.py:60-71 | `Min 10, ₹500/Piece` reads the first number (10), with no unit and the INR default, not the later ₹500 |
| Text.Strip | mini_project/indiamart_scraper/spiders/textiles_spider.py:95 | `str.strip()`: the result neither starts nor ends with whitespace, and is empty iff the text is all whitespace |
| Text.StripIsInfix | mini_project/indiamart_scraper/spiders/textiles_spider.py:95 | what `str.strip()` keeps is a contiguous part of the text with only whitespace before and after it |
| Text.Lower | mini_project/indiamart_scraper/spiders/textiles_spider.py:129 | `str.lower()`: same length, each character lower-cased, no upper-case letter left |
| Text.RemoveAll | mini_project/indiamart_scraper/spiders/textiles_spider.py:129 | `str.replace(c, '')`: no `c` left, every other character kept, unchanged when `c` is absent |
| Text.RemoveAllAppend | mini_project/etl/data_cleaner.py:69 | removing a character distributes over concatenation |
| Text.Contains | mini_project/indiamart_scraper/spiders/textiles_spider.py:146-162 | Python's `sub in s` (definition): `sub` occurs at some position of `s` |
| Text.Concat | mini_project/indiamart_scraper/spiders/textiles_spider.py:95 | `"".join(texts)` (definition); ConcatAllSpace states what joining whitespace gives |
| Text.ConcatAllSpace | mini_project/indiamart_scraper/spiders/textiles_spider.py:95 | joining whitespace-only texts gives whitespace only |
| DataCleaner.IsEmpty | mini_project/etl/data_cleaner.py:96 | `df.empty` (definition), also the guard at line 151: a table is empty iff it has no rows or no columns |
| DataCleaner.DedupUrls | mini_project/etl/data_cleaner.py:103 | deduplication keeps exactly the set of urls of the input |
| DataCleaner.DedupFirstWins | mini_project/etl/data_cleaner.py:103 | each surviving row is the first input row with its url, and survivors keep the input order of those first rows (so no url survives twice) |
| DataCleaner.DedupNonEmpty | mini_project/etl/data_cleaner.py:103 | deduplication never adds rows and leaves a non-empty table non-empty |
| DataCleaner.DedupKeepsInputRows | mini_project/etl/data_cleaner.py:103 | every surviving row is an input row |
| DataCleaner.DropDuplicates | mini_project/etl/data_cleaner.py:103 | the pass over the rows with a set of seen urls computes exactly the first-occurrence deduplication |
| DataCleaner.Dedup | mini_project/etl/data_cleaner.py:103 | `drop_duplicates(subset=['product_url'], keep='first')` (definition): a row survives iff no earlier row has its url; DedupFirstWins, DedupUrls, DedupNonEmpty and DedupKeepsInputRows state its properties |
| DataCleaner.Without | mini_project/etl/data_cleaner.py:126-127 | dropping names keeps exactly the other columns, and keeps them distinct |
| DataCleaner.AddColumn | mini_project/etl/data_cleaner.py:111 | assigning a column adds exactly that name and keeps names distinct |
| DataCleaner.Present | mini_project/etl/data_cleaner.py:126 | the existing columns to drop are the listed names that are present |
| DataCleaner.AddedColumns | mini_project/etl/data_cleaner.py:74-111 | the columns after `df['unit'] = …` (line 74), `df['currency'] = …` (line 84) and `df['product_id'] = …` (line 111) (definition): each assigned name added once, the input columns kept in place |
| DataCleaner.RemoveFirst | mini_project/etl/data_cleaner.py:134-137 | `list.remove` shortens the list by one |
| DataCleaner.RemoveFirstIsWithout | mini_project/etl/data_cleaner.py:134-137 | on distinct names, `list.remove(x)` is filtering `x` out |
| DataCleaner.RemoveStep | mini_project/etl/data_cleaner.py:134-137 | each `all_cols.remove` in the chain finds its name and filters it out on top of the earlier removals |
| DataCleaner.MoveToEnds | mini_project/etl/data_cleaner.py:131-143 | the four `remove` calls then the concatenation give `product_id`, the other columns in their order, then `price`, `unit`, `currency` |
| DataCleaner.KeptColumns | mini_project/etl/data_cleaner.py:122-137 | the columns between the two ends (definition): the input columns without the dropped and the moved names, in input order |
| DataCleaner.FinalColumns | mini_project/etl/data_cleaner.py:140 | `final_cols` (definition): `product_id`, the kept columns, then `price`, `unit`, `currency`; FinalLayout states its properties |
| DataCleaner.FinalLayout | mini_project/etl/data_cleaner.py:118-143 | the final columns start with `product_id`, end with `price`, `unit`, `currency`, repeat no name, and hold exactly the four moved columns and the input columns that are not dropped |
| DataCleaner.ColumnsAfterCleaning | mini_project/etl/data_cleaner.py:109-143 | after the assignments, the drop and the move, the middle columns are the input columns minus the dropped and moved names, in input order |
| DataCleaner.CleanRow | mini_project/etl/data_cleaner.py:107-127 | a cleaned row has the input row's cells plus the four moved cells, minus the dropped ones |
| DataCleaner.CleanRowIsCleaned | mini_project/etl/data_cleaner.py:107-127 | a cleaned row has one cell per final column, its id, the price cells parsed from its price text, and every kept cell unchanged |
| DataCleaner.CleanedKeys | mini_project/etl/data_cleaner.py:107-143 | the input columns plus the four assigned ones, minus the dropped ones, are exactly the final columns |
| DataCleaner.SetFourCells | mini_project/etl/data_cleaner.py:107-127 | after the four cell assignments and the drop, the four assigned cells hold their new values and every other remaining cell is unchanged |
| DataCleaner.CleanRows | mini_project/etl/data_cleaner.py:107-115 | the kept rows are cleaned one by one with ids 1, 2, ... in order |
| DataCleaner.KeptRows | mini_project/etl/data_cleaner.py:103 | deduplicating a non-empty table leaves rows, each with a cell for every input column |
| DataCleaner.CleanedRows | mini_project/etl/data_cleaner.py:107-127 | every row cleaned from a kept row has exactly the final columns and is that row cleaned |
| DataCleaner.CleanData | mini_project/etl/data_cleaner.py:91-145 | an empty table comes back unchanged and a non-empty one stays non-empty; otherwise the columns are the final layout, there is one row per deduplicated row, in order, and row `i` is cleaned from the `i`-th kept row with id `i + 1` |
| DataCleaner.SaveProcessedData | mini_project/etl/data_cleaner.py:151-163 | nothing is written iff the table is empty; otherwise all its rows are written |
| Sequences.CollectPositions | mini_project/indiamart_scraper/spiders/textiles_spider.py:39-53 | each element that yields a value yields exactly one, at the position given by the count of such elements before it; positions grow strictly |
| TextileSpider.Truthy | mini_project/indiamart_scraper/spiders/textiles_spider.py:45 | the `if product_url:` test, also `if next_page_url:` at line 60 (definition): a link is truthy iff it is present and non-empty |
| TextileSpider.DetailRequests | mini_project/indiamart_scraper/spiders/textiles_spider.py:39-53 | the first `yield response.follow` (definition): one request to the detail handler per card with a truthy link, in page order; DetailRequestsPerCard and DetailRequestsShape state its properties |
| TextileSpider.NextRequest | mini_project/indiamart_scraper/spiders/textiles_spider.py:58-64 | the second `yield response.follow` (definition): one request back to the listing handler iff the "Next" link is truthy |
| TextileSpider.DetailRequestsPerCard | mini_project/indiamart_scraper/spiders/textiles_spider.py:39-53 | there are as many detail requests as cards with a truthy link; each such card's request sits at the position given by the linked cards before it, in page order |
| TextileSpider.DetailRequestsShape | mini_project/indiamart_scraper/spiders/textiles_spider.py:50-53 | every detail request follows a link from the listing page to the detail handler |
| TextileSpider.Parse | mini_project/indiamart_scraper/spiders/textiles_spider.py:39-64 | the requests are the detail requests of the linked cards, in page order, then the next-page request when the "Next" link is truthy |
| TextileSpider.ParseOrder | mini_project/indiamart_scraper/spiders/textiles_spider.py:39-64 | the first requests all go to the detail handler; there is a final next-page request to the listing handler exactly when the "Next" link is truthy; a page with no cards and no next link gives nothing |
| TextileSpider.JoinStrip | mini_project/indiamart_scraper/spiders/textiles_spider.py:94-95 | the joined text is missing iff no text node was found; otherwise it neither starts nor ends with whitespace |
| TextileSpider.WhitespaceTextsGiveEmpty | mini_project/indiamart_scraper/spiders/textiles_spider.py:108-109 | whitespace-only text nodes give the empty string, not a missing value |
| TextileSpider.NormalizeKey | mini_project/indiamart_scraper/spiders/textiles_spider.py:129 | `key.strip().lower().replace(':', '')` (definition); NormalizedKeyShape states what the key then looks like |
| TextileSpider.NormalizedKeyShape | mini_project/indiamart_scraper/spiders/textiles_spider.py:129 | a cleaned key has no colon and no upper-case letter, and keeps every other character of the stripped, lower-cased label |
| TextileSpider.ExampleGsmKey | mini_project/indiamart_scraper/spiders/textiles_spider.py:129 | the label ` GSM :` gives the key `gsm `, with the space before the colon kept, because the strip comes before the colon is removed |
| TextileSpider.StripOneLeadingSpace | mini_project/indiamart_scraper/spiders/textiles_spider.py:129 | a label with one leading whitespace character and none at its end loses exactly that character to `strip()` |
| TextileSpider.Accepted | mini_project/indiamart_scraper/spiders/textiles_spider.py:127 | `if key and value:` (definition): a row is used iff both cells are truthy |
| TextileSpider.EntryOf | mini_project/indiamart_scraper/spiders/textiles_spider.py:127-131 | one row's contribution (definition): for an accepted row, its cleaned key with its stripped value, else nothing |
| TextileSpider.Entries | mini_project/indiamart_scraper/spiders/textiles_spider.py:119-131 | the entries of the accepted rows in row order (definition); EntriesPerRow states their positions and count |
| TextileSpider.EntriesPerRow | mini_project/indiamart_scraper/spiders/textiles_spider.py:119-131 | each row with a truthy label and value gives one entry, its cleaned key and stripped value, in row order; other rows give none |
| TextileSpider.Insert | mini_project/indiamart_scraper/spiders/textiles_spider.py:131 | a dict assignment keeps the dict valid (each key listed once, exactly the mapped keys listed); a new key goes last, an existing key keeps its place |
| TextileSpider.DictOf | mini_project/indiamart_scraper/spiders/textiles_spider.py:117-131 | `details_dict` built by assigning the entries in order from `{}`: always a valid dict, each key listed once and exactly the mapped keys listed |
| TextileSpider.SpecDict | mini_project/indiamart_scraper/spiders/textiles_spider.py:117-131 | `details_dict` of a specification table (definition): DictOf of the accepted rows' entries |
| TextileSpider.DictKeys | mini_project/indiamart_scraper/spiders/textiles_spider.py:117-131 | the dictionary's keys are exactly the keys of the entries |
| TextileSpider.DictLastWins | mini_project/indiamart_scraper/spiders/textiles_spider.py:131 | the value of a key is that of its last entry |
| TextileSpider.FirstKeyPosition | mini_project/indiamart_scraper/spiders/textiles_spider.py:131 | a key sits in the dictionary's order at the number of distinct keys given before its first entry |
| TextileSpider.DictOrder | mini_project/indiamart_scraper/spiders/textiles_spider.py:117-131 | keys are ordered by their first entry |
| TextileSpider.DictStep | mini_project/indiamart_scraper/spiders/textiles_spider.py:119-131 | one more row assigns its entry into the dictionary iff the row is accepted, and leaves the dictionary as it was otherwise |
| TextileSpider.BuildSpecDict | mini_project/indiamart_scraper/spiders/textiles_spider.py:117-131 | the row loop builds exactly the dictionary of the accepted rows' entries |
| TextileSpider.Matches | mini_project/indiamart_scraper/spiders/textiles_spider.py:143-163 | the fuzzy test (definition): the key contains `fabric` or `material`, `pattern`, `gsm`, `usage` or `availability`, by field |
| TextileSpider.LastMatch | mini_project/indiamart_scraper/spiders/textiles_spider.py:143-163 | a field's value (definition): that of the last key in dict order that feeds it, else `None`; LastMatchIsLast states its properties |
| TextileSpider.LastMatchIsLast | mini_project/indiamart_scraper/spiders/textiles_spider.py:143-163 | a field is missing iff no key matches it; otherwise its value belongs to a matching key with no later matching key |
| TextileSpider.MapSpecFields | mini_project/indiamart_scraper/spiders/textiles_spider.py:136-163 | the loop over the dictionary sets each of the five fields to the value of the last matching key in dictionary order, or leaves it missing |
| TextileSpider.ParseProductDetail | mini_project/indiamart_scraper/spiders/textiles_spider.py:66-166 | the record's url is the page url; price and description are the joined, stripped text nodes; name, id, location, images and brand are copied; the five mapped fields come from the specification dictionary as above |

## Behaviour that is easy to misread

- **Colons in keys.** The key cleaning removes every colon in the label, wherever it stands, not only a trailing one (`textiles_spider.py:129`).
- **Trailing space in keys.** The key is stripped before its colons are removed, so whitespace in front of a colon stays: ` GSM :` becomes `gsm ` (`textiles_spider.py:129`, lemma `TextileSpider.ExampleGsmKey`).
- **Field precedence follows the dictionary's order.** Keys are ordered by their first insertion (`TextileSpider.DictOrder`), and a repeated label only updates the value in place (`TextileSpider.DictLastWins`). When two keys feed the same field, the one whose first row comes later wins, even when the other key's row was repeated further down the table (`textiles_spider.py:131,143-163`).
- **Currency with no amount.** The currency is taken from a captured symbol even when the amount is NaN (`data_cleaner.py:84`). The `INR` default applies only when an amount was read and no symbol was captured. So `₹ ,` gives the currency `INR` but no amount.

## Left out

- **Scrapy machinery.** Scheduling, `response.follow` URL joining, the request queue and crawl termination are not modelled. A request keeps the page url and the href as a pair. The CSS selectors are not modelled; their results are the inputs of `ListingPage` and `DetailPage`.
- **Logging.** It has no effect on the data.
- **Start URLs, `settings.py` and `middlewares.py`.** The first two are configuration. The middleware gives every outgoing request a `User-Agent` header picked at random from four browser strings (`middlewares.py:16-23`); request headers and randomness are outside the model.
- **`load_raw_data` and `main`.** These are file globbing and JSON reading, which are I/O.
- **`save_processed_data`'s CSV writing, directory creation and error handling.** These are I/O. Only its empty-table guard is modelled.
- **Amounts are exact decimals (`Decimal(whole, fraction)`), not float64.** `pd.to_numeric`'s rounding to a double is not modelled.
- **Character classes are ASCII.**
  - `\d` is `0`-`9`.
  - Whitespace is taken to be the six characters space, tab, newline, carriage return, vertical tab and form feed. Python's `\s`, `str.strip` and `str.isspace` also accept the ASCII separators U+001C to U+001F and Unicode spaces such as U+00A0; those are left out.
  - `str.lower` maps only `A`-`Z`.
  - Unicode digits and case mappings are not modelled either.
- **DataCleaner.PriceText: a non-text price cell reads as a missing price text.** In pandas, a `price` column with no string at all makes `.str` raise instead.
- **DataCleaner.CleanData requires a non-empty table to have `product_url` and `price` columns.**
  - Without `product_url`, `drop_duplicates` raises.
  - Without `price`, `process_price` returns early and the later `all_cols.remove('price')` raises.
  - The model does not represent these exceptions.
- **Table operations are row by row.** pandas' column-wise operations and its index are modelled row by row. The index reset is implicit in numbering the kept rows 1..N.
- **TextileSpider.ParseProductDetail builds the item at the end.** The `IndiamartProductItem` is built as one record at the end, rather than filled field by field. The field order of `items.py` is kept.
- **Sequences.CollectPositions states the one-to-one correspondence as positions plus a count.** It gives a position for each element with a value, says those positions grow strictly, and says the count of results. It does not state in the other direction that each result has a source element.
