# Grand Exchange item scan, modelled in Dafny

The script crawls the RuneScape Grand Exchange item catalogue, one category at a
time. For every letter from `a` to `z` it requests listing pages 1, 2, 3, … and
stops a letter at the first page that has no items. It then fetches the detail
record of every item it found. It keeps the items whose 30-, 90- and 180-day
trends are all `positive` or `neutral` and whose estimated margin is positive.
The margin is the difference between an estimated sell price (105% of the
current price) and an estimated buy price (95%). A price string such as
`"2.5m"` is first turned into an integer by a fixed chain of text replacements.

The file holds two copies of the whole script. The first crawls category 41.
Its normaliser knows the `k` and `m` suffixes. The second crawls category 16,
and its normaliser also rewrites `b`. Running the file runs the first copy's
`main()` and then the second's. The model has one definition of each piece,
with the category and the normaliser `Variant` (`NoBillions`, `Billions`) as
parameters.

Modules, leaves first:

- `Wrappers`: `Option` and a failure-compatible `Result`.
- `Json`: a decoded payload, plus the Python operations the script applies to
  it. These are truthiness, `x[key]`, `x.get(key)` and iteration by
  `list.extend`. Each Python exception they can raise (`KeyError`,
  `TypeError`, `AttributeError`, and `ValueError` from `int()`) is an `Err`
  value. An error ends the run, as the uncaught exception does.
- `Text`: `str.replace` with a one-character pattern, and base-10 `int(str)`.
  `int(str)` allows surrounding whitespace, a sign and single underscores
  between digits.
- `Prices`: the replacement chain, the current price, and the buy, sell and
  margin estimate (`estimate_margin`).
- `Trends`: the trend classifier (`is_item_rising`).
- `Api`: the fetch helper as an oracle from a `Request` (a listing page or an
  item detail) to `Option<Json>`.
- `DetailPipeline`: the loop of `fetch_item_details`. `FetchItemDetails` is a
  method with a loop, proved equal to the function `Details`.
- `Crawler`: the letter and page loops of `main`. `Crawl` is a method with the
  nested loops, proved equal to the function `CrawlLetters`. `CrawlLetters` also
  records the sequence of listing requests made.
- `Script`: `main` as a whole, and the order in which the file runs its two
  copies.

Points where the code behaves differently from what a reader might expect:

- The point is deleted as a character, never read as a decimal point. The
  digits on both sides of it are joined and then scaled by the suffix, so
  `"2.5m"` becomes `"25000000"`, which is 25000000 and not 2500000
  (`Prices.PointJoinsDigits`, `Prices.PointExample`). Where in the chain the
  point is deleted makes no difference: each replacement rewrites one
  character on its own (`Prices.NormaliseCharwise`).
- An item is rising only when each trend is exactly the string `positive` or
  `neutral`. Any other value excludes it, not only `negative`
  (`Trends.NoNegativeIsNotEnough`).
- The first variant never rewrites `b`, so any price string containing `b`
  raises `ValueError` in the first run (`Prices.BillionsRejectedByFirstVariant`).
- A boolean price counts as 0 or 1, because Python's `bool` is an integer type.

## Model

| member | source | states |
|---|---|---|
| `Json.Truthy` | GrandExchangeScript.py:58 | no contract of its own: Python's `bool()` on a decoded value, false exactly for `None`, `False`, zero, the empty string, list and dict |
| `Json.LookupLast` | GrandExchangeScript.py:60 | a key is found in a dict exactly when some member has it, and the value found is the last such member's |
| `Json.KeysOf` | GrandExchangeScript.py:106 | the keys a dict iterates over are exactly the keys of its members, each listed once |
| `Json.Subscript` | GrandExchangeScript.py:60 | `x[key]` succeeds exactly on a dict that has the key, with the value found there; a dict without it raises `KeyError`, anything else `TypeError` |
| `Json.Get` | GrandExchangeScript.py:105 | `x.get(key)` succeeds exactly on a dict, giving the key's value or nothing; anything else raises `AttributeError` |
| `Json.Iterate` | GrandExchangeScript.py:106 | `extend` accepts a list, a string or a dict and raises `TypeError` on anything else; a list yields its elements; the result is empty exactly when the value is false |
| `Json.IterateElements` | GrandExchangeScript.py:106 | a string yields its characters, each as a one-character string, in order; a dict yields the strings of its keys, in the order of `Keys` |
| `Text.Replace` | GrandExchangeScript.py:40 | `str.replace` with a one-character pattern leaves only characters of the replacement, or characters of the input other than the pattern |
| `Text.ReplaceAppend` | GrandExchangeScript.py:40 | replacement works piece by piece: replacing in `a + b` is replacing in `a` followed by replacing in `b`, so every occurrence is replaced left to right |
| `Text.ReplaceAbsent` | GrandExchangeScript.py:40 | a string without the pattern is left unchanged |
| `Text.ParseInt` | GrandExchangeScript.py:40 | `int()` succeeds only on strings made of whitespace, signs, digits and underscores |
| `Text.ParseIntExact` | GrandExchangeScript.py:40 | `int()` succeeds exactly on strings with at least one digit, a sign only after nothing but whitespace and right before a digit, underscores only between two digits and no whitespace between digits; the value is that of the digits, negated when the string holds a minus |
| `Text.ParseIntRejects` | GrandExchangeScript.py:40 | one character that is not whitespace, a digit, a sign or an underscore makes `int()` raise |
| `Text.ParseShowInt` | GrandExchangeScript.py:40 | `int()` gives back every integer from its decimal text |
| `Prices.Normalise` | GrandExchangeScript.py:40 | the replacement chain leaves only zeros and characters of the input other than `,`, `.`, `k`, `m` and, in the second variant, `b` |
| `Prices.ParsePrice` | GrandExchangeScript.py:40 | no contract of its own: `int()` of the normalised string; the lemmas below state what it accepts and the values it gives |
| `Prices.NormaliseCharwise` | GrandExchangeScript.py:40 | the chain of replacements equals rewriting each character on its own: no replacement creates text that a later one rewrites |
| `Prices.NormaliseLeavesNoMarkers` | GrandExchangeScript.py:160 | after normalisation no `,`, `.`, `k` or `m` is left, nor `b` in the second variant; any other character except `0` is present afterwards exactly when it was before |
| `Prices.BillionsRejectedByFirstVariant` | GrandExchangeScript.py:40 | in the first variant every price string containing `b` fails to parse |
| `Prices.VariantsAgreeWithoutB` | GrandExchangeScript.py:160 | the two normalisers agree on every string without `b` |
| `Prices.SuffixScales` | GrandExchangeScript.py:40 | digits followed by `k`, `m` (or `b` in the second variant) parse to the digits' value times 1000, 10^6 or 10^9 |
| `Prices.CommaDropped` | GrandExchangeScript.py:40 | thousands separators are dropped before parsing |
| `Prices.PointJoinsDigits` | GrandExchangeScript.py:40 | with a point and a suffix, the digits on both sides of the point are joined and then scaled by the suffix |
| `Prices.CommaExample` | GrandExchangeScript.py:40 | `"1,234"` parses to 1234 |
| `Prices.KiloExample` | GrandExchangeScript.py:40 | `"12k"` parses to 12000 |
| `Prices.PointExample` | GrandExchangeScript.py:160 | `"2.5m"` parses to 25000000 in both variants |
| `Prices.BillionsExample` | GrandExchangeScript.py:160 | `"3b"` fails in the first variant and parses to 3000000000 in the second |
| `Prices.CurrentPrice` | GrandExchangeScript.py:39-45 | an integer price is used unchanged; a string price succeeds exactly when the normaliser and `int()` accept it, with that value; the error is `ValueError` exactly when the price is a string; a bool counts as 1 or 0; `null`, a list or a dict makes the multiplication raise `TypeError` |
| `Prices.PriceOf` | GrandExchangeScript.py:38-42 | `item_data['current']['price']` raises the error of the first lookup that fails; otherwise the result is the current price read from the value found |
| `Prices.EstimateAt` | GrandExchangeScript.py:45-47 | margin is sell minus buy; for a non-negative price, buy is at most the price and sell at least it (mirrored for a negative price); margin > 0 exactly when the price is > 0; ten times the margin is within 10 of the price |
| `Prices.EstimateMargin` | GrandExchangeScript.py:37-49 | succeeds exactly when the price can be read, and otherwise raises the price's error; margin is sell minus buy, and positive exactly when the current price is |
| `Prices.EstimateMarginAt` | GrandExchangeScript.py:37-49 | the estimate is `EstimateAt` of the current price, so buy and sell bracket the price and ten times the margin is within 10 of it |
| `Trends.TrendOf` | GrandExchangeScript.py:30-32 | a window's trend is found exactly when the item is a dict holding a dict under the window's name that has a `trend`; otherwise the lookup raises `KeyError` or `TypeError` |
| `Trends.IsItemRising` | GrandExchangeScript.py:29-35 | all three trends are read first, and a missing one raises the error of the first window that cannot be read; otherwise the result is true exactly when every window's trend is `positive` or `neutral` |
| `Trends.OneUnsteadyWindowExcludes` | GrandExchangeScript.py:35 | one trend outside {positive, neutral} in any window makes the item not rising |
| `Trends.NoNegativeIsNotEnough` | GrandExchangeScript.py:35 | trends with no `negative` value can still make an item not rising |
| `DetailPipeline.Assess` | GrandExchangeScript.py:57-75 | an absent or false fetch result is skipped; an emitted row carries the id, a positive margin equal to sell minus buy, and comes from a rising item whose margin estimate and name it copies; a non-rising item or a margin <= 0 is skipped |
| `DetailPipeline.AssessCases` | GrandExchangeScript.py:58-70 | a rising item with a positive margin and a readable name yields exactly the row of the id, name, buy, sell and margin; a failing `item` lookup, trend read, price conversion or `name` lookup raises that error |
| `DetailPipeline.Details` | GrandExchangeScript.py:54-70 | no contract of its own: the rows of the ids in order, or the first error; the lemmas below state its properties |
| `DetailPipeline.FetchItemDetails` | GrandExchangeScript.py:51-75 | the loop returns exactly the rows, or the first error, of the specification `Details` |
| `DetailPipeline.DetailsAppend` | GrandExchangeScript.py:54-70 | processing `a + b` gives the rows of `a` followed by the rows of `b`; an error in `a` stops the run before `b` |
| `DetailPipeline.DuplicateIdsRepeatRows` | GrandExchangeScript.py:54-70 | ids are not de-duplicated: a repeated id list yields its rows twice |
| `DetailPipeline.FailedFetchSkipped` | GrandExchangeScript.py:58-75 | an id whose fetch fails or yields a false value changes nothing in the result |
| `DetailPipeline.RowsFollowIdOrder` | GrandExchangeScript.py:54-70 | the rows' ids are a subsequence of the input ids, so there are at most as many rows as ids |
| `DetailPipeline.RowsQualify` | GrandExchangeScript.py:58-70 | every row comes from an input id whose fetch result was true, whose item was rising and whose margin was positive |
| `DetailPipeline.EmittedRowKept` | GrandExchangeScript.py:54-70 | conversely, a row the loop body emits for the id at position `i` is in the result of a run that completes, right after the rows of the ids before `i` and before those of the ids after it |
| `Crawler.PageStep` | GrandExchangeScript.py:105-106 | an absent page stops the letter; a page continues the crawl only if it is a dict whose `items` iterate to at least one item, and those are the items added |
| `Crawler.PageStepCases` | GrandExchangeScript.py:105-106 | a false page, or missing or false `items`, stops the letter; a true page that is not a dict raises `AttributeError`; true `items` add what iterating them yields (a list: its elements) or raise `TypeError` |
| `Crawler.LetterCrawl` | GrandExchangeScript.py:100-111 | no contract of its own: one letter's page loop; the lemmas below state its properties |
| `Crawler.CrawlLetters` | GrandExchangeScript.py:99-111 | no contract of its own: the letter loop over the given letters, stopping at the first error |
| `Crawler.Crawl` | GrandExchangeScript.py:97-111 | the nested loops return exactly the items, requests and error of the specification `CrawlLetters` over `a`..`z` |
| `Crawler.LetterCrawlPages` | GrandExchangeScript.py:100-108 | a letter's crawl requests pages 1, 2, … in order, at least one page |
| `Crawler.LetterCrawlStops` | GrandExchangeScript.py:101-111 | every requested page except the last had items; the last had none or raised, and the crawl ends with that page's error if it raised |
| `Crawler.LetterCrawlGathers` | GrandExchangeScript.py:105-108 | a letter contributes exactly the items of its non-empty pages, in page order |
| `Crawler.EmptyFirstPage` | GrandExchangeScript.py:105-111 | a letter whose first page is empty contributes nothing, and only page 1 is requested for it |
| `Crawler.CrawlGathers` | GrandExchangeScript.py:99-111 | the accumulated list is the plain concatenation of the items of all non-empty pages, in request order |
| `Crawler.CrawlRequestsAreListings` | GrandExchangeScript.py:99-104 | every request is a listing of the category for one of the letters, at page 1 or later |
| `Crawler.CrawlRequestsIncrease` | GrandExchangeScript.py:99-108 | over alphabetically ordered letters, requests are strictly ordered by letter and then by page, so no page is requested twice |
| `Crawler.EveryLetterVisited` | GrandExchangeScript.py:99-102 | when nothing raised, page 1 of every letter was requested |
| `Crawler.LettersSorted` | GrandExchangeScript.py:95 | the letters are visited in strictly alphabetical order |
| `Script.ItemIds` | GrandExchangeScript.py:116 | the id list succeeds exactly when every item has an `id`, and then it holds each item's id at the same position |
| `Script.Run` | GrandExchangeScript.py:93-117 | no contract of its own: one run's result is the crawl, then the id extraction, then the detail pipeline, with the first error ending it |
| `Script.ScanCategory` | GrandExchangeScript.py:93-117 | `main`'s statements compute exactly the result of `Run` |
| `Script.RunFile` | GrandExchangeScript.py:119-240 | the first copy (category 41, no `b` rule) runs first; the second (category 16, with `b`) runs only if the first did not raise; each completed run overwrites the saved rows |
| `Script.SavedRowsQualify` | GrandExchangeScript.py:63-70 | every saved row has a positive margin equal to sell minus buy, and the id of an item the crawl received |
| `Script.CatalogueCrawl` | GrandExchangeScript.py:99-116 | over `a`..`z`, requests are ordered by letter then page; the items are the concatenation of the non-empty pages; without an error every letter's page 1 was requested |

## Left out

- `fetch_data_with_retry` (GrandExchangeScript.py:10-27) is represented only by its result: a payload or nothing. The HTTP request, headers, status check, retries, sleeping and logging are not modelled. The oracle is a fixed function, so the same request always gets the same answer.
- The URLs are not modelled as text. A `Request` records the category, letter and page, or the item id, that the URL is built from. So two ids that format to the same URL (such as `1` and `"1"`) can get different answers in the model.
- JSON decoding is not modelled: payloads arrive already decoded. JSON numbers are integers in the model. A non-integer price would go through float arithmetic in Python, and that is not represented.
- `Prices.EstimateAt`: buy and sell are the exact truncations toward zero of 95% and 105% of the price. Python computes `current_price * 0.95` and `current_price * 1.05` in IEEE-754 double precision. For prices below about 3·10^14 in magnitude that gives the same integers; for larger prices the float products can differ from the exact truncations, and above 2^53 by more than one.
- `Prices.EstimateMargin`: never raises `OverflowError`. Python raises it when a price above about 1.8·10^308 in magnitude is converted to a float for the multiplication. Before that, a price string whose normalised numeral has more than 4300 digits already raises `ValueError` in `int()` (see `Text.ParseIntExact`).
- `Text.ParseIntExact`: does not model CPython's limit on integer string conversion (4300 digits by default, `sys.get_int_max_str_digits()`, since Python 3.11). `int()` raises `ValueError` on a longer numeral; the model parses numerals of any length. A price string that normalises to more than 4300 digits therefore raises in Python and parses in the model.
- `Text.ParseShowInt`: for the same reason the round trip is stated for every integer, while `str()` and `int()` raise `ValueError` for integers of 10^4300 or more in magnitude.
- `Text.ParseInt`: non-ASCII decimal digits are rejected, although Python's `int()` accepts them.
- `Text.IsSpace` follows `int()`: outside ASCII every Unicode space is ignored around the numeral, but inside ASCII only tab, line feed, vertical tab, form feed, carriage return and space are. The separators U+001C to U+001F are therefore not stripped.
- `save_to_csv` (GrandExchangeScript.py:80-91) is file output through `csv.DictWriter`. The model stops at the list of rows handed to it. `Script.RunFile` records each such list as one write of the file.
- Logging calls have no effect on results and are left out.
- Termination of the crawl rests on a finite page space. `Crawler.PagesBounded` requires that no listing page beyond a bound continues the crawl, so every letter's loop ends by then.
- When a run raises, the model reports which kind of exception it was. It does not model the message, the traceback or the process exit status.
- VolumeScrape.py is a single HTTP GET, HTML querying through BeautifulSoup, and console output. It has no logic of its own and is not part of this model.
