# capodecapi: a Dafny model of `fetch_data`

capodecapi scrapes a fixed list of tipster pages and serves the tips for today
and tomorrow, ranked by each tipster's effectiveness. This project models its
core, `fetch_data` in `main.py`, once each page has been downloaded and parsed:

- A page is reduced to what the parser extracts from it (`Records.Page`):
  - the text of the effectiveness badge, or none when the page has no
    `progressC` div;
  - the cell texts of every body row of the tips table, or none when the page
    has no such table.
- For every row with at least one cell, the scraper reads cells 1, 2, 3, 4, 6
  and 8 and strips each. A row with cells but fewer than nine raises
  IndexError, even when its day would not pass the test, because all six cells
  are read before the day test.
- A row whose stripped day equals today's or tomorrow's two-digit day becomes
  one record. The record carries its page's effectiveness text, unstripped, or
  `"0"` when the page has no badge.
- All records, in page order and then row order, are sorted with
  `sorted(key=int(effectiveness), reverse=True)`. That sort is stable. If
  `int()` rejects some effectiveness text, it raises ValueError naming the
  first such text in list order.

Modules:

- `Text` models Python's `str.strip()` (the `str.isspace` set) and base-10
  `int(str)` (which skips a smaller set of whitespace).
- `StableSort` models the stable descending sort.
- `Records` models one row and one page.
- `Accumulation` models the loop as a function over the pages.
- `Ranking` models the sort and its ValueError.
- `Fetch` holds the loop itself, as a method proved equal to the functional
  model, and the end-to-end lemmas.

## Model

| member | source | states |
|---|---|---|
| Text.Trim | main.py:86-91 | defines `str.strip()` on a cell: leading, then trailing `str.isspace` characters removed; its properties are the lemmas below |
| Text.TrimSpec | main.py:86-91 | `strip()` removes only whitespace from the ends of a cell: the input is the result with whitespace around it, and the result neither starts nor ends with whitespace |
| Text.TrimUnique | main.py:86-91 | stripping a whitespace set returns exactly the text left once the surrounding characters of that set are removed, whatever split of them is given; used for `strip()` and for `int()` |
| Text.TrimIgnoresPadding | main.py:86-91 | adding whitespace around a cell never changes its stripped text |
| Text.ParseInt | main.py:104 | defines base-10 `int(str)`: the whitespace `int()` skips (all of `str.isspace` except U+001C to U+001F) stripped, an optional sign, ASCII digits with single underscores between digits, at most 4300 digits; None stands for ValueError |
| Text.ParseShowRoundTrip | main.py:104 | `int()` of the decimal text of any integer of at most 4300 digits, with any whitespace `int()` skips around it, gives back that integer |
| Text.ParseRejectsTooManyDigits | main.py:104 | `int()` rejects the decimal text of any integer, positive or negative, with more than 4300 digits, with any whitespace `int()` skips around it |
| Text.SeparatorNotSkippedByInt | main.py:86-104 | a leading U+001C is removed by `strip()` but not skipped by `int()`: `"\x1c5"` strips to `"5"`, while `int()` rejects it |
| StableSort.SortDesc | main.py:104 | defines `sorted(..., key=key, reverse=True)` as a stable insertion sort; its result is a permutation of the input |
| StableSort.SortDescNonIncreasing | main.py:104 | the sorted list is in non-increasing key order |
| StableSort.SortDescStable | main.py:104 | for every key, the sorted list holds the input's elements with that key in their input order |
| StableSort.SortDescCharacterized | main.py:104 | a list is the result of the sort exactly when it is in non-increasing key order and keeps every key's elements in input order |
| StableSort.SortDescIdempotent | main.py:104 | sorting a sorted list changes nothing |
| Records.EffectivenessOf | main.py:76-77 | a page's records carry the badge text when the badge exists; otherwise they carry the literal `"0"`, which `int()` reads as 0 |
| Records.RecordOf | main.py:86-91 | defines the record of a nine-cell row: stripped cells 1, 2, 3, 4, 6 and 8 and the page's effectiveness |
| Records.ToRecord | main.py:86-91 | reading the six cells succeeds exactly when the row has at least nine cells; otherwise it raises IndexError |
| Records.UnreadColumnsIgnored | main.py:86-91 | a record depends only on cells 1, 2, 3, 4, 6 and 8 of its row |
| Records.IsTargetDay | main.py:94 | defines the day test: the day equals today's or tomorrow's two-digit day |
| Records.InWindow | main.py:94 | a record passed the day test on its day field |
| Records.RowRecords | main.py:84-103 | defines what one row adds: nothing without cells, IndexError when short, else its record if it passes the day test |
| Accumulation.TableRecords | main.py:83-103 | defines the row loop of one table, left to right, the first exception ending it |
| Accumulation.PageRecords | main.py:80-103 | defines what one page adds: nothing without a tips table, else its table's records with the page's effectiveness |
| Accumulation.Collect | main.py:71-103 | defines the page loop, left to right, the first exception ending it |
| Accumulation.TableAppend | main.py:83-103 | the rows are processed in order: the result for rows `a + b` is the result for `a` followed by that for `b`, and the first exception wins |
| Accumulation.CollectAppend | main.py:71-103 | the pages are processed in order: the result for pages `a + b` is the result for `a` followed by that for `b`, and the first exception wins |
| Accumulation.TablePrefixError | main.py:83-91 | an IndexError raised within the first rows of a table is the result for the whole table |
| Accumulation.CollectPrefixError | main.py:71-91 | an exception raised while reading the first pages is the result of the whole loop |
| Accumulation.TablelessPageIgnored | main.py:80-81 | a page without a tips table adds no record and raises nothing, wherever it stands in the list |
| Accumulation.EmptyRowIgnored | main.py:84-85 | a row without cells adds no record and raises nothing, wherever it stands in the table |
| Accumulation.TableErrorIff | main.py:83-91 | one table raises exactly when it holds a row with cells but fewer than nine, and the exception is IndexError |
| Accumulation.CollectErrorIff | main.py:71-91 | the loop raises exactly when some page's table holds a row with cells but fewer than nine, and the exception is IndexError |
| Accumulation.TableSound | main.py:83-103 | every record from a table passed the day test and is the record of one of its rows, with nine cells, stripped cells and the page's effectiveness |
| Accumulation.CollectSound | main.py:71-103 | every accumulated record passed the day test and is the record of some row of some page, with that page's effectiveness |
| Accumulation.TableComplete | main.py:83-103 | when a table raises nothing, every row whose stripped day is today's or tomorrow's has nine cells, and its record is in the result |
| Accumulation.PageComplete | main.py:76-103 | when a page raises nothing, every selected row of its table yields its record, carrying the page's effectiveness |
| Accumulation.CollectComplete | main.py:71-103 | when the loop raises nothing, every selected row of every page yields its record, carrying its page's effectiveness |
| Ranking.Rank | main.py:104 | defines the final `sorted` call: ValueError on the first effectiveness `int()` rejects, else the stable descending sort by integer effectiveness |
| Ranking.FirstUnparsable | main.py:104 | finds the first record whose effectiveness `int()` rejects, or reports that none does |
| Ranking.RankFails | main.py:104 | the ranking raises exactly when `int()` rejects some effectiveness text; it then raises ValueError naming the first such text |
| Ranking.RankSorted | main.py:104 | a successful ranking is a permutation of its input, ordered by integer effectiveness from highest to lowest, with equal effectiveness in input order; no other list has these properties |
| Ranking.RankIdempotent | main.py:104 | ranking an already ranked list returns it unchanged |
| Fetch.FetchResult | main.py:69-104 | defines one call: the page loop's exception, or the ranking of its records |
| Fetch.AppendTable | main.py:82-103 | the inner loop appends the table's records to the list so far, or raises what the table raises |
| Fetch.FetchData | main.py:69-104 | the loop followed by the sort returns the functional model's result; a returned list is in non-increasing effectiveness order, and every record in it passed the day test |
| Fetch.FetchSucceeds | main.py:69-104 | a returned list is a permutation of the accumulated records, sorted by integer effectiveness and stable; every record in it is sound and has its provenance; every selected row is present |
| Fetch.FetchFails | main.py:69-104 | a call raises IndexError exactly when some table has a row with cells but fewer than nine; otherwise it raises exactly when `int()` rejects some accumulated effectiveness |
| Fetch.FetchIgnoresTablelessPage | main.py:80-81 | a page without a tips table changes nothing in the result of a call |

## Left out

- The HTTP requests are outside the model: `requests.get` and its network errors.
- HTML parsing is outside the model: BeautifulSoup, `find` and `find_all`. A page is given as the badge text and the table's cell texts.
- A `progressC` div without a `d-inline` span, and a table without a `tbody`, raise AttributeError in the source. Both come from the parser's return values and are not modelled.
- `today` and `tomorrow` come from the clock when `main.py` is loaded. Here they are parameters: the two-digit day strings.
- The list of source URLs is not modelled. The pages are a parameter, in that list's order.
- The FastAPI route, the WebSocket endpoint and the periodic broadcast are not modelled. Neither is the `/data` JSON wrapping.
- `int()` also accepts non-ASCII decimal digits, such as Arabic-Indic ones. The model accepts ASCII digits only.
- Isolating one page's failure from the other pages is not modelled, because the code does not do it: a failure raised for one page aborts the whole call.
- Coercing a non-numeric effectiveness to 0 is not modelled, because the code does not do it: `int()` raises ValueError.
- Text.ParseInt: the digit limit is CPython's default of 4300. It can be changed with `sys.set_int_max_str_digits` or `PYTHONINTMAXSTRDIGITS`, and Python versions without the limit accept any length. For an over-long literal the model's ValueError carries the text, while CPython's message gives the digit count.
- Records hold exactly the seven fields the code builds. Cells 0, 5 and 7 are never read.
