# Ship traffic analyzer — Dafny model

A model of the logic in `Titanic.py`, a small command-line tool that
answers questions about a list of ship records. Two parts are modelled.

- **The two queries.**
  - `show_countries` returns every `COUNTRY` value once, in ascending
    string order.
  - `top_countries` counts records per country in an insertion-ordered
    dict, stable-sorts the `(country, count)` items by descending count,
    and keeps the first `num`.
- **The command loop of `main`.**
  - Each input line is stripped and routed to one outcome: quit, help,
    show countries, top-N with a parsed number, usage error, or invalid
    command.
  - The loop runs until the first `q`.

Modules (one file each):

- `Lex` (`lex_order.dfy`): Python's `str` ordering (lexicographic by code
  point), and insertion into a strictly ascending list.
- `Text` (`text.dfy`): the string operations the loop uses, on ASCII:
  `strip`, `split()`, `startswith`, `isdigit`, and `int`/`str` on digit
  strings.
- `Ships` (`ships.dfy`): the record and group datatypes. It also holds the
  reference definitions the queries are proved against: which countries
  occur, how often, and where each first occurs.
- `StableSort` (`stable_sort.dfy`): `sorted(..., key=count, reverse=True)`
  as a stable insertion sort.
- `CountryQueries` (`country_queries.dfy`): `show_countries`, the counting
  loop, and `top_countries`.
- `CommandLoop` (`command_loop.dfy`): `Classify` (line to command), `Step`
  (Running/Stopped), `Respond` (the reply), and `Session` (a whole run over
  a list of input lines).

How the code routes a line:

- Input is not lower-cased. `Q` and `HELP` are invalid commands.
- `q`, `help` and `show_countries` must equal the whole stripped line, so
  `help me` is invalid.
- The top-N branch is chosen by `startswith("top_countries")`. The first
  word is never checked again, so `top_countriesX 3` runs the query.
- The argument is checked only by "exactly two tokens, the second made of
  digits". `-1` fails `isdigit()` and gets the usage message like any other
  malformed argument.
- Records are read only for their `COUNTRY` value, so that is the one
  field modelled.

## Model

| member | source | states |
|---|---|---|
| `CountryQueries.ShowCountries` | Titanic.py:6-8 | The result is strictly ascending (so it has no duplicates), and a string is in it exactly when some record has that country. |
| `CountryQueries.ShowCountriesIsSortedSet` | Titanic.py:8 | Any strictly ascending list of exactly the data's countries equals the result, so the order of the records does not matter. |
| `CountryQueries.ShowCountriesLength` | Titanic.py:8 | One entry per distinct country; no entries for an empty dataset. |
| `Lex.LessTotal` | Titanic.py:8 | Two different strings are always ordered one way or the other, so sorting a set of countries is well defined. |
| `Lex.LessTransitive` | Titanic.py:8 | String ordering is transitive. |
| `Lex.InsertUnique` | Titanic.py:8 | Adding a string to a strictly ascending list keeps it strictly ascending and adds exactly that string; adding one already present changes nothing (set semantics). |
| `Lex.AscendingUnique` | Titanic.py:8 | Two strictly ascending lists with the same elements are equal. |
| `CountryQueries.TallyLength` | Titanic.py:17 | `get(c, 0) + 1` keeps the length for a key already present, and appends `(c, 1)` as the last item for a new key. |
| `CountryQueries.TallyItems` | Titanic.py:17 | On a dict without repeated keys, only the item for `c` gains one; every other item keeps its place and count. |
| `CountryQueries.TallyNames` | Titanic.py:17 | Keys stay unique, and the key set grows by exactly `c`. |
| `CountryQueries.TallyTotal` | Titanic.py:17 | Each update adds exactly one to the sum of the counts. |
| `CountryQueries.TallyStep` | Titanic.py:15-17 | One loop iteration turns the tally of the records read so far into the tally of those records plus the next one (the loop invariant). |
| `CountryQueries.GroupCountsCorrect` | Titanic.py:13-17 | After the loop, each country of the data appears exactly once, with the number of records that carry it. Countries appear in order of first appearance. |
| `CountryQueries.GroupCountsTotal` | Titanic.py:13-17 | The counts add up to the number of records. |
| `StableSort.InsertByCount` | Titanic.py:19 | Inserting into a list with non-increasing counts keeps it non-increasing and adds exactly the one item. |
| `StableSort.SortByCountDesc` | Titanic.py:19 | The result has non-increasing counts and is a permutation of the input (same multiset, same length, same total). |
| `StableSort.InsertKeepsTieOrder` | Titanic.py:19 | An item inserted in front of its equal-count peers keeps any order they already had among ties. |
| `StableSort.SortKeepsTieOrder` | Titanic.py:19 | Stability: any order that the input respects, the output respects among items of equal count. |
| `CountryQueries.SortedTallyIsRanking` | Titanic.py:19 | Sorting the tally gives every country once, with its exact count, in non-increasing count, and ties in order of first appearance. |
| `CountryQueries.TopCountriesLength` | Titanic.py:20 | `sorted_counts[:num]` has `min(num, number of distinct countries)` items; none for `num == 0` or an empty dataset. |
| `CountryQueries.TopCountriesCounts` | Titanic.py:11-20 | Each returned pair is a country of the data with its exact number of records. No country repeats, and counts never increase. |
| `CountryQueries.TopCountriesTies` | Titanic.py:17-19 | Among equal counts, the country the data mentions first comes first. |
| `CountryQueries.TopCountriesIsTop` | Titanic.py:17-20 | Every country left out has no more records than any country returned. When the cut at `num` falls inside a group of equal counts, the countries kept are the ones the data mentions first. |
| `CountryQueries.TopCountriesAll` | Titanic.py:19-20 | With `num` at least the number of countries, the result is a permutation of all groups, and its counts sum to the number of records. |
| `Text.StripIsTrimmed` | Titanic.py:49 | `strip()` leaves no whitespace at either end. |
| `Text.StripIsSlice` | Titanic.py:49 | `strip()` returns a contiguous part of the line and removes only whitespace. |
| `Text.StripIgnoresPadding` | Titanic.py:49 | Whitespace added around a line does not change its `strip()`. |
| `Text.StripIdempotent` | Titanic.py:49 | Stripping twice is the same as stripping once. |
| `Text.SplitJoin` | Titanic.py:66 | `split()` of words separated by any non-empty runs of whitespace gives back the words. |
| `Text.JoinShape` | Titanic.py:49 | Words joined by whitespace runs form a line that starts with the first word and that `strip()` leaves unchanged. |
| `Text.DecimalRoundTrip` | Titanic.py:68-72 | The decimal form of any natural number passes `isdigit()`, and `int` of it gives the number back. |
| `Text.DecimalLeadingZero` | Titanic.py:72 | `int` ignores a leading zero. |
| `CommandLoop.OnlyQuitStops` | Titanic.py:51-81 | A running loop stops exactly when the stripped line is `q`. Help, queries, usage errors and unknown text all continue. |
| `CommandLoop.StoppedIsFinal` | Titanic.py:48-53 | After `break`, no further line is read and nothing more is printed. |
| `CommandLoop.SessionStopsAtFirstQuit` | Titanic.py:48-81 | The loop stops exactly when some line is `q`. It answers every line up to and including the first such line, each with the reply its command calls for, and reads no later line. |
| `CommandLoop.QuitAfterAnyHistory` | Titanic.py:48-53 | After any lines that do not quit, `q` with any padding stops the loop, and lines after it change nothing. |
| `CommandLoop.ClassifyKeywords` | Titanic.py:49-81 | `q`, `help` and `show_countries` are recognised exactly when the stripped line equals them. A line is invalid exactly when it is none of these and does not begin with `top_countries`. |
| `CommandLoop.ClassifyIgnoresPadding` | Titanic.py:49 | Whitespace around a line does not change how it is routed. |
| `CommandLoop.ClassifyTopBranch` | Titanic.py:65-72 | A stripped line beginning with `top_countries` is decided by the token count and `isdigit` test alone. |
| `CommandLoop.ClassifyTopWords` | Titanic.py:65-72 | For a line of words separated by any whitespace runs, whose first word begins with `top_countries`, the query runs exactly when there are two words and the second is all digits, and `num` is that word's decimal value. Anything else is a usage error. |
| `CommandLoop.ClassifyTopRoundTrip` | Titanic.py:65-72 | `top_countries <n>` runs the query for `n`. This holds with any padding, any whitespace between the words, any first word that begins with `top_countries`, and `n` written in decimal. |
| `CommandLoop.ClassifyWideSeparators` | Titanic.py:66-72 | `top_countries\t5` and `top_countries  5` (two spaces) both run the query for 5. |
| `CommandLoop.ClassifyExactExamples` | Titanic.py:49-81 | `q` and padded `q` quit. `Q`, `HELP` and an unknown word such as `ships_by_types` are invalid. |
| `CommandLoop.ClassifyMissingArgument` | Titanic.py:68-70 | `top_countries` alone is a usage error. |
| `CommandLoop.ClassifyNonDigitArgument` | Titanic.py:68-70 | `top_countries abc` is a usage error. |
| `CommandLoop.ClassifyNegativeArgument` | Titanic.py:68-70 | `top_countries -1` is a usage error. |
| `CommandLoop.ClassifyTwoArguments` | Titanic.py:68-70 | `top_countries 1 2` is a usage error. |
| `CommandLoop.ClassifyPrefixQuirk` | Titanic.py:65-72 | `top_countriesX 3` runs the query for 3. |
| `CommandLoop.ClassifyLeadingZeros` | Titanic.py:68-72 | `top_countries 007` runs the query for 7. |

## Left out

- Opening `ship_traffic_data.json` and the double JSON decode (Titanic.py:33-35). This is file I/O and parsing. The model takes the `data` list as a ready `seq<Record>`.
- A `KeyError` for a record without `COUNTRY`. The field is total in `Record`.
- Every `print` and `input`: the banner, the prompt, the `show_help` text and the formatting of results (Titanic.py:23-28, 37-46, 75-78). A reply is modelled as a tag plus the query result. The input lines are a parameter of `Session`.
- Unicode in `strip`, `split` and `isdigit`. Whitespace is Python's ASCII whitespace (including `\x1c`-`\x1f`), and digits are `'0'`..`'9'`. In the code, a non-ASCII digit such as `'²'` passes `isdigit()` and then makes `int()` raise. The model does not cover that case.
- The digit-count limit on `int()`. CPython 3.11 and later (and the 3.7.14, 3.8.14, 3.9.14 and 3.10.7 security releases) raise `ValueError` when `int()` gets a decimal string of more than 4300 digits. A line `top_countries <more than 4300 digits>` passes `isdigit()` at Titanic.py:68, and then `int()` at Titanic.py:72 raises. Nothing catches the error, so the program ends without `q`. The model has no digit limit: it parses any digit string, which matches interpreters without the limit.
- CommandLoop.ClassifyTopWords: for a digit word of more than 4300 digits it promises `TopCountries(n)`, where CPython 3.11+ raises instead (see the line above).
- CommandLoop.ClassifyTopRoundTrip: the same 4300-digit exception applies to `n` with more than 4300 decimal digits.
- CommandLoop.OnlyQuitStops: on CPython 3.11+, a `top_countries` line with more than 4300 digits also ends the program, through the uncaught `ValueError`. The model keeps the loop Running there.
- CommandLoop.SessionStopsAtFirstQuit: the same 4300-digit exception; the model reads on past such a line.
- CommandLoop.QuitAfterAnyHistory: the same 4300-digit exception; on CPython 3.11+ such a line in the history ends the program before `q` is read.
- Text.DecimalRoundTrip: `str(n)` and `int()` are stated for all `n`, while CPython 3.11+ refuses conversions beyond 4300 digits.
- The loop ending through end-of-input (`EOFError`) or an interrupt. `Session` simply runs out of lines.
