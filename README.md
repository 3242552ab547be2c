# fetch_stock: a verified model of the quote-fetching script

`scripts/fetch_stock.py` fetches the latest quote for each ticker in a comma-separated list from
Alpha Vantage's GLOBAL_QUOTE endpoint. It normalises each response into a quote record and
appends all records to a Postgres table in a single batch. This project models the core of that
script in Dafny and proves properties of the model:

- the start of `main`: choosing `--symbols` or `STOCK_SYMBOLS`, parsing the list into tickers, and
  the three guards that end the run with status 1 (`Symbols`);
- `extract_from_alpha` with its key lookup `getf`, and the lenient conversions `safe_float` and
  `safe_int` (`Quotes`, with the string, digit, number and date layers under it in `Text`, `Digits`,
  `Decimals` and `Calendar`);
- `upsert_batch`: one eight-column row per quote, inserted together and committed once (`Store`,
  with the Postgres connection as the class `Store.Database`);
- the loop of `main` that requests every symbol, keeps the quotes it can extract and pauses
  12 seconds after each one, followed by the batch insert whose failure is reported and
  swallowed (`Pipeline`; the process's requests and pauses are recorded by the class
  `Pipeline.Host`).

The network is a parameter `Transport` that maps the n-th request, for a given symbol, to an
HTTP error, another failure, or the decoded JSON body. The clock is a parameter `Clock` that gives
the instant `now_utc()` reads while the n-th symbol is handled. Python floats are modelled as exact
decimals `Decimal(mantissa, scale)`.

Three behaviours of the code are easy to mistake for something stricter, and the model states
them as the code has them:

- The "no symbols" guard (line 166) tests the raw input string, not the parsed list. An input such
  as `" , "` passes every guard and the run makes no request at all
  (`Symbols.BlankInputPassesGuard`); an empty symbol list is not rejected.
- The pause follows every symbol that produced a record, the last one included, and never a
  symbol whose request or extraction failed (`Pipeline.TraceEndsWithPause`). It is not a pause
  between consecutive requests.
- A failed database write is printed and swallowed (lines 213-214). The connection is closed and
  the process exits with status 0 (`Pipeline.Run`); a write failure is not fatal and does not
  give a non-zero exit.

## Model

| member | source | states |
|---|---|---|
| Text.Strip | scripts/fetch_stock.py:118 | `str.strip()`: the result has no whitespace at either end and is empty exactly when the input is all whitespace |
| Text.StripPadded | scripts/fetch_stock.py:118 | stripping whitespace around a text that has solid ends gives back exactly that text |
| Text.StripIdempotent | scripts/fetch_stock.py:172 | stripping twice is stripping once |
| Text.StripKeeps | scripts/fetch_stock.py:118 | stripping adds no character: every character of the result is in the input |
| Text.AsciiUpper | scripts/fetch_stock.py:172 | `upper()`: same length, every character replaced by its capital (`UpperChar`: a lower-case letter becomes the letter 32 code points below, anything else stays), so no lower-case letter is left and whitespace stays where it was |
| Text.Remove | scripts/fetch_stock.py:86 | `replace(".", "")`: the character is gone, the text is no longer, and a text without it is unchanged |
| Text.RemoveConcat | scripts/fetch_stock.py:86 | removal distributes over concatenation |
| Text.Split | scripts/fetch_stock.py:172 | `split(",")`: at least one piece, and no piece holds the separator |
| Text.JoinSplit | scripts/fetch_stock.py:172 | joining the pieces with the separator gives back the input, so nothing is lost by splitting |
| Text.SplitJoin | scripts/fetch_stock.py:172 | splitting a join of separator-free pieces gives back the pieces |
| Text.SplitConcat | scripts/fetch_stock.py:172 | the pieces of `a,b` are the pieces of `a` followed by those of `b` |
| Digits.FixedOfValue | scripts/fetch_stock.py:97 | a digit string is the fixed-width rendering of its own value |
| Digits.FixedValue | scripts/fetch_stock.py:97 | a number below `10^w` rendered at width `w` reads back as itself |
| Decimals.ParseDecimal | scripts/fetch_stock.py:118 | `float()` of a stripped string: a result exactly for a numeral (`PlainNumeral`: an optional sign, then digits with at most one point and at least one digit), so "", "-", "." and "1.2.3" raise |
| Decimals.ParseDecimalText | scripts/fetch_stock.py:118 | parsing the canonical numeral of any number gives the number back |
| Decimals.ParseRejectsForeign | scripts/fetch_stock.py:118-120 | a string holding a character no numeral has does not parse |
| Decimals.ParseUnsignedShape | scripts/fetch_stock.py:118 | the unsigned part parses exactly when it is digits with at most one point and at least one digit |
| Decimals.ParsePositive | scripts/fetch_stock.py:118 | a leading `+` is accepted and changes nothing, so "+1" is 1 |
| Decimals.ParseLeadingPoint | scripts/fetch_stock.py:118 | the integer part may be empty, so ".5" is 5/10 |
| Decimals.ParseRejectsSecondPoint | scripts/fetch_stock.py:118-120 | a string with two points ("1.2.3") does not parse |
| Decimals.Truncate | scripts/fetch_stock.py:127 | `int()` of a float truncates toward zero: the result scaled back lies between zero and the number, less than one unit away |
| Decimals.TruncateSymmetric | scripts/fetch_stock.py:127 | truncation is symmetric about zero, `int(-x) == -int(x)` |
| Calendar.ParseIsoDate | scripts/fetch_stock.py:97 | `fromisoformat` on a date: a result is a valid calendar date whose ISO text is exactly the input |
| Calendar.ParseIsoText | scripts/fetch_stock.py:97 | every valid date parses back from its ISO text |
| Quotes.Getf | scripts/fetch_stock.py:85-86 | `getf`: the value under the key when truthy, else the value under the dot-less key when truthy, else nothing; a result is always truthy |
| Quotes.GetfFallsBack | scripts/fetch_stock.py:86 | a key `a.b` with nothing truthy under it reads the key `ab` |
| Quotes.GetfFalsyIsAbsent | scripts/fetch_stock.py:86 | a falsy value under a key reads the same as no entry at all |
| Quotes.SafeFloat | scripts/fetch_stock.py:114-120 | `safe_float`: a number only from a JSON number or a string, never an exception; a number gives itself, and a string gives the parse of its stripped text, so `None` whenever that text is not a numeral |
| Quotes.SafeFloatNotNumeral | scripts/fetch_stock.py:114-129 | a string that is not a numeral once stripped ("-", ".", "1.2.3") gives `None` under both `safe_float` and `safe_int` |
| Quotes.SafeFloatBlank | scripts/fetch_stock.py:114-129 | a blank string, which `getf` passes on because it is truthy, gives `None` under both conversions |
| Quotes.WordIsNotNumber | scripts/fetch_stock.py:114-120 | a text starting with a character no numeral starts with (the texts of None, booleans, lists, dicts) gives `None` |
| Quotes.SafeFloatNumber | scripts/fetch_stock.py:118 | a number converts to itself, and so does its text |
| Quotes.SafeFloatPadded | scripts/fetch_stock.py:118 | a numeral with whitespace around it converts to its number |
| Quotes.SafeFloatMalformed | scripts/fetch_stock.py:114-129 | a string with a non-numeral character ("N/A", "1,5") gives `None` under both `safe_float` and `safe_int` |
| Quotes.SafeInt | scripts/fetch_stock.py:123-129 | `safe_int`: present exactly when `safe_float` gives a number whose float is finite (`int()` of an infinity raises and gives `None`); the result is that number truncated toward zero, never larger in magnitude |
| Quotes.TruncateShrinks | scripts/fetch_stock.py:127 | truncation never increases the magnitude |
| Quotes.SafeIntNumeral | scripts/fetch_stock.py:123-129 | a number, and its numeral, convert to the number truncated toward zero (12345678 stays 12345678, "-12.7" gives -12), or to `None` when the float is an infinity |
| Quotes.Extract | scripts/fetch_stock.py:72-111 | `extract_from_alpha`: a record keeps the symbol and the raw payload, needs a dict payload and quote object, is stamped with `now` when `getf` finds no trading day and otherwise with midnight of the parsed date, and holds `safe_float` of what `getf` finds under "02. open", "03. high", "04. low" and "05. price" and `safe_int` of what it finds under "06. volume" |
| Quotes.ExtractFailsExactly | scripts/fetch_stock.py:81-111 | extraction raises exactly for a non-dict payload, a truthy non-dict "Global Quote", or a trading day that is not an ISO date string; bad numbers never make it raise |
| Quotes.ExtractWithoutQuote | scripts/fetch_stock.py:82-98 | a payload without a truthy "Global Quote" gives a record with every number `None`, stamped `now` |
| Quotes.ExtractReadsPrice | scripts/fetch_stock.py:91 | with an absent or valid trading day the record is produced, and `close` is the number in "05. price", whitespace around it allowed |
| Quotes.ExtractNullsMalformedPrice | scripts/fetch_stock.py:91 | with an absent or valid trading day, a malformed price still gives a record, with `close == None` and the raw payload |
| Quotes.ExtractMissingVolume | scripts/fetch_stock.py:92 | nothing truthy under "06. volume" or "06 volume" still gives a record (with an absent or valid trading day), with `volume == None` |
| Quotes.ExtractStampsTradingDay | scripts/fetch_stock.py:93-98 | a valid trading day always extracts, stamped with its midnight UTC |
| Symbols.Ticker | scripts/fetch_stock.py:172 | `s.strip().upper()` of a piece: nothing exactly when the piece is blank, otherwise a well-formed ticker |
| Symbols.TickerPadded | scripts/fetch_stock.py:172 | each piece is trimmed and upper-cased: whitespace around a text with solid ends is dropped and the text upper-cased, so " msft " gives "MSFT" |
| Symbols.TickerOfTicker | scripts/fetch_stock.py:172 | normalising a well-formed ticker changes nothing |
| Symbols.Tickers | scripts/fetch_stock.py:172 | the list comprehension keeps at most one ticker per piece, each well-formed |
| Symbols.ParseSymbols | scripts/fetch_stock.py:172 | every parsed symbol is a well-formed ticker without a comma |
| Symbols.ParseOnePiece | scripts/fetch_stock.py:172 | a comma-free input gives its ticker, or nothing when it is blank |
| Symbols.ParseSymbolsConcat | scripts/fetch_stock.py:172 | the symbols of `a,b` are those of `a` followed by those of `b`: order kept, nothing merged |
| Symbols.ParseSymbolsKeepsDuplicates | scripts/fetch_stock.py:172 | two pieces naming the same ticker give it twice |
| Symbols.SymbolsInput | scripts/fetch_stock.py:165 | `args.symbols or SYMBOLS_ENV`: the argument when present and non-empty, the environment value when the argument is absent or empty, and nothing else |
| Symbols.Preflight | scripts/fetch_stock.py:165-181 | the guards pass exactly when the input is non-empty, the provider is ALPHAVANTAGE ignoring case and the key is non-empty; the result is the parsed list; `NoSymbols` exactly for an empty input |
| Symbols.ProviderIgnoresCase | scripts/fetch_stock.py:173 | a lower-case provider name passes |
| Symbols.BlankInputPassesGuard | scripts/fetch_stock.py:165-172 | the input " , " passes the guards and gives an empty symbol list |
| Store.RowOf | scripts/fetch_stock.py:145-155 | the tuple for a quote has the table's column types and decodes back to the quote |
| Store.DecodeRow | scripts/fetch_stock.py:141-142 | a row decodes exactly when it has the table's shape, keeping symbol and raw payload |
| Store.RowOfDecodeRow | scripts/fetch_stock.py:145-155 | every row of the table's shape is the tuple of the quote it holds |
| Store.RowOfInjective | scripts/fetch_stock.py:145-155 | different quotes give different rows |
| Store.Values | scripts/fetch_stock.py:145-157 | `values`: one well-typed row per quote, in order, each decoding to its quote |
| Store.ValuesConcat | scripts/fetch_stock.py:145-157 | the rows of a joined batch are the rows of its parts, in order |
| Store.Database.Connect | scripts/fetch_stock.py:186-192 | a new session with an empty transaction; committed rows unchanged; the table stays well-typed |
| Store.Database.ExecuteValues | scripts/fetch_stock.py:158 | `execute_values` of well-typed rows: all rows join the open transaction, or none when the server refuses; the table stays well-typed |
| Store.Database.Commit | scripts/fetch_stock.py:159 | `commit`: the transaction's rows are appended to the table, which stays well-typed |
| Store.Database.Close | scripts/fetch_stock.py:216-217 | `close`: the session ends and an uncommitted transaction is discarded |
| Store.UpsertBatch | scripts/fetch_stock.py:132-159 | an empty batch touches nothing; otherwise the batch's rows are appended after the committed ones in one commit, or nothing changes when the insert fails; the table stays well-typed |
| Pipeline.Attempt | scripts/fetch_stock.py:199-208 | one iteration keeps a quote exactly when the request returned a body and extraction succeeded; the quote is the record `extract_from_alpha` built, carrying the symbol and the body |
| Pipeline.Outcomes | scripts/fetch_stock.py:198-208 | one outcome per symbol, a kept quote carrying its own symbol |
| Pipeline.Kept | scripts/fetch_stock.py:197-202 | `rows_to_insert`: only quotes that some iteration produced |
| Pipeline.KeptConcat | scripts/fetch_stock.py:197-202 | the quotes of consecutive runs of iterations are joined in order |
| Pipeline.Collected | scripts/fetch_stock.py:197-208 | at most one quote per symbol, each for a symbol of the list |
| Pipeline.Trace | scripts/fetch_stock.py:198-208 | between one and two events per symbol; the first is a request; every pause is 12 seconds and comes straight after a request |
| Pipeline.OutcomesDifferAt | scripts/fetch_stock.py:198-201 | transports differing in one response give outcomes differing at that position only |
| Pipeline.FailureContained | scripts/fetch_stock.py:199-208 | a failing symbol loses only its own quote; the other quotes stay, in order |
| Pipeline.KeptAll | scripts/fetch_stock.py:197-202 | when every iteration produces a quote, all of them are kept, in order |
| Pipeline.AllSucceed | scripts/fetch_stock.py:197-204 | when every symbol succeeds, the batch holds one quote per symbol, in the order of the list |
| Pipeline.TraceRequests | scripts/fetch_stock.py:198-200 | the symbols requested are exactly the symbol list, in order, whatever fails |
| Pipeline.TracePauses | scripts/fetch_stock.py:202-204 | the number of pauses is the number of collected quotes |
| Pipeline.TraceRequestsEverySymbol | scripts/fetch_stock.py:198-208 | every symbol is requested exactly once, in order, whatever fails, and there is one pause per collected quote |
| Pipeline.TraceEndsWithPause | scripts/fetch_stock.py:202-204 | the run ends with a pause exactly when the last symbol produced a quote |
| Pipeline.Host.Fetch | scripts/fetch_stock.py:200 | a request records its symbol and returns the transport's answer |
| Pipeline.Host.Sleep | scripts/fetch_stock.py:204 | a pause is recorded |
| Pipeline.Visit | scripts/fetch_stock.py:199-208 | one iteration returns its outcome and records its request, then its pause if it kept a quote |
| Pipeline.FetchAll | scripts/fetch_stock.py:197-208 | the loop returns the collected quotes and records exactly the trace of the outcomes |
| Pipeline.Session | scripts/fetch_stock.py:184-217 | connect, loop, insert, close: the events are the trace, the table gains the written rows, at most one commit, the connection ends closed |
| Pipeline.Run | scripts/fetch_stock.py:162-217 | status 1 with nothing requested or written when a guard fails; otherwise status 0, also after a failed insert, with the session's effects |

## Left out

- Decimals.ParseDecimal: accepts only plain decimal numerals (sign, digits, at most one point). The exponent forms, `inf`, `nan`, underscores and non-ASCII digits that Python's `float()` also accepts are treated as not parsing.
- Quotes.SafeFloat: numbers are exact decimals, so binary floating-point rounding and the 17-digit limit of `str(float)` are not modelled. JSON integers and fractions are both `Decimal`.
- Quotes.SafeFloat: a numeral at or beyond the float range (2^1024 - 2^970 in magnitude, such as "1" followed by 400 zeros) gives `inf` in the source and its exact value in the model; `SafeInt` does take the infinity into account.
- Quotes.SafeFloat: `None`, booleans, lists and dicts give `None` directly, without building their `str()` text; `Quotes.WordIsNotNumber` shows why those texts never parse.
- Quotes.SafeInt: truncates the exact value, while the source truncates the nearest double. For a numeral with more significant digits than a double holds (beyond 2^53, or past about 15 digits), the two can differ by more than one, in either direction. For example, "12345678901234567890" gives 12345678901234567168 in the source, and "0.99999999999999999" gives 1.
- SafeIntNumeral: states the truncation of the exact value, with the same rounding gap as `Quotes.SafeInt`; the overflow to `None` is modelled.
- Calendar.ParseIsoDate: only the `YYYY-MM-DD` form. A time part after the date, which `fromisoformat` accepts in every version since Python 3.7, is treated as raising. So are the basic format and week dates, which it accepts from Python 3.11 on.
- Text.AsciiUpper: upper-cases ASCII letters only. Non-ASCII case mapping is not modelled; it does not affect the provider comparison, since no other character upper-cases into the letters of ALPHAVANTAGE.
- The HTTP request of `fetch_alpha` (URL, query parameters, 30-second timeout, `raise_for_status`, JSON decoding) is the `Transport` parameter.
- `now_utc()` is the `Clock` parameter. `time.sleep` is recorded as an event; no time passes in the model.
- Pipeline.Run: the exit with status 2 when `psycopg2.connect` fails is not modelled. The model's connection always opens.
- Store.Database: one flag, `rejectsWrites`, stands for every database error, whether it comes from `execute_values` or `commit`. Paging inside `execute_values` is not modelled; it is one transaction either way.
- The SQL text, the schema and table names, and the connection settings read from the environment are not modelled; neither is `argparse` or the reading of environment variables. `Symbols.Config` holds the values `main` reads, with their defaults already applied.
- Every `print` to stdout and stderr is left out; the model records only what reaches the network, the clock and the database.
- Python's `Json` adapter is represented by the `Jsonb` column value holding the payload unchanged.
- dags/stock_dag.py and the rest of the repository are not part of this model.
