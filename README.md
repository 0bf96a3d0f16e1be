# Taiwan stock analyser: session logic model

The system is a single Streamlit page (`app.py`) for Taiwan-listed stocks.
The user types a stock code, or presses one of their saved favourites. The page
downloads the daily close prices for the code with the `.TW` suffix over a
chosen lookback window. It computes a 14-period relative strength index (RSI)
and shows one of three investment signals for its latest value.

This project models the sequential logic of that page in Dafny:

- `Ticker` follows Python's `str.strip()` with Python's whitespace set, and
  builds the download symbol from the stripped code.
- `Indicator` holds the signal datatype, the latest value of the RSI series,
  and the three-band classification with both thresholds neutral.
- `Lookback` holds the six lookback windows, their option strings and the
  preselected third one.
- `Favourites` describes the favourites list as a value. It gives one add
  (`AddCode`) and the list after a whole history of adds (`AddAll`).
- `Query` is one lookup step as pure functions. It chooses the input (a
  pending favourite wins), builds the request, shows the outcome, and decides
  whether the pending selection is consumed.
- `SessionState.Session` is the session state the script changes in place. It
  holds the favourites list, which only grows by append, and the pending
  favourite selection, which a completed lookup deletes. A ghost history of adds
  ties the list to `AddAll`.

The foreign calls are inputs to the model. These are the price download, the
company metadata table and the RSI library. A `Query.Attempt` value is either
`Raised` (some call in the lookup's `try` block raised), `NoData` (the download
came back empty) or `Data(rsi)`, the RSI series the library computed.

Where the design description and the code disagree, the model follows the code:

- The code stores favourites exactly as typed. Only the lookup strips the code.
  `Favourites.UnstrippedEntriesShareSymbol` shows that `" 2330"` and `"2330"` are
  both kept, yet name the same ticker.
- The design rejects an empty or blank symbol before any fetch. The code only
  tests that the raw input is non-empty (app.py:59), so an input of spaces strips
  to the empty code and the download is requested for the bare `.TW`
  (app.py:61-63). `Query.BlankInputRequestsBareSuffix` states this.
- The design's quote cache, notes store, persistence, refresh timer, watchlist
  removal and its own Wilder-smoothing RSI implementation are not in the code;
  the code obtains RSI from a library call.

## Model

| member | source | states |
|---|---|---|
| Ticker.TrimStart | app.py:61 | the result is a suffix of the input, everything cut off is whitespace, and the result does not start with whitespace |
| Ticker.TrimEnd | app.py:61 | the result is a prefix of the input, everything cut off is whitespace, and the result does not end with whitespace |
| Ticker.Strip | app.py:61 | the stripped code is the slice of the input between a leading and a trailing whitespace run; it has no whitespace at either end; it is empty exactly when the input is all whitespace |
| Ticker.StripUnique | app.py:61 | any non-padded string between two whitespace runs is what stripping gives back, so the contract of `Strip` determines it |
| Ticker.StripIgnoresPadding | app.py:61 | inputs that differ only in surrounding whitespace strip to the same code |
| Ticker.StripIdempotent | app.py:61 | stripping a stripped code changes nothing |
| Ticker.TickerSymbol | app.py:61-62 | every download symbol ends in `.TW` and what precedes the suffix has no surrounding whitespace |
| Ticker.TickerSymbolDeterminesCode | app.py:61-62 | two inputs give the same symbol if and only if they strip to the same code |
| Ticker.TickerSymbolIgnoresPadding | app.py:61-62 | surrounding whitespace in the typed input does not change the symbol |
| Indicator.Latest | app.py:120-121 | the latest value is absent exactly for an empty series, else it is the last element |
| Indicator.Classify | app.py:120-129 | Undefined exactly when no value; Oversold exactly below 30; Overbought exactly above 70; Neutral exactly from 30 to 70 inclusive |
| Indicator.ClassifyMonotone | app.py:122-127 | a higher RSI value never gives a lower band, and a present value never gives Undefined |
| Indicator.EmptySeriesUndefined | app.py:120-129 | an empty RSI series, and only an empty one, gives the cannot-compute outcome |
| Indicator.ClassifyAtThresholds | app.py:122-127 | 29.99 is Oversold, 30 and 70 are Neutral, 70.01 is Overbought |
| Lookback.Code | app.py:50-51 | every window's period string is one of the six options |
| Lookback.FromCode | app.py:50-51 | an option string names a window exactly when it is one of the six, and that window's code is the string |
| Lookback.CodeRoundTrip | app.py:50-51 | reading back a window's code gives the same window, so the six codes are distinct |
| Lookback.ChoicesMatchOptions | app.py:50-51 | the six windows are listed in the order of their option strings and every window is listed |
| Lookback.Default | app.py:50-52 | the preselected window is the third choice, "6mo" |
| Favourites.AddCode | app.py:38-40 | the old list stays a prefix; the length grows by one exactly for a non-empty new code; afterwards the members are the old ones plus that code |
| Favourites.AddAppends | app.py:39-40 | a non-empty code not yet in the list is appended at the end |
| Favourites.AddNoOp | app.py:39 | an empty input or a code already present leaves the list unchanged |
| Favourites.AddIdempotent | app.py:39-40 | adding the same code twice is the same as adding it once |
| Favourites.AddPreservesNoDuplicates | app.py:39-40 | an add keeps a duplicate-free list duplicate-free |
| Favourites.AddAll | app.py:35-40 | from the empty starting list, any sequence of adds yields a duplicate-free list whose members are exactly the non-empty codes submitted |
| Favourites.AddAllExtends | app.py:35-40 | later adds never drop or reorder earlier entries: the list after a history is a prefix of the list after any longer history |
| Favourites.UnstrippedEntriesShareSymbol | app.py:39-40 | a code and the same code with a leading space are both stored, yet give the same ticker symbol |
| Query.ResolveInput | app.py:55-57 | a non-empty pending favourite wins over the typed input; an absent or empty one leaves the typed input |
| Query.Evaluate | app.py:59-129 | a download is requested exactly for non-empty input, always for the stripped input plus `.TW` over the chosen window; an exception, an empty download and data give the error, not-found and assessed outcomes respectively; the assessed signal is the classification of the latest RSI |
| Query.PendingAfter | app.py:131-136 | a lookup never installs a selection; it removes the pending one exactly when a lookup ran and completed, found or not; an exception leaves it in place |
| Query.SelectedFavouriteUsedOnce | app.py:55-63 | after pressing a favourite, a completed lookup downloads that favourite's symbol whatever was typed, and the next lookup reads the text box again |
| Query.CompletedLookupShowsResult | app.py:65-133 | a lookup that completes shows not-found or an assessment, never an error, and leaves no pending selection whatever was pending when it started |
| Query.BlankInputRequestsBareSuffix | app.py:59-63 | a non-empty all-whitespace input is not skipped, and its download is requested for the bare `.TW` |
| SessionState.Session.constructor | app.py:35-36 | a new session starts with an empty favourites list and no pending selection |
| SessionState.Session.AddFavourite | app.py:38-40 | the list becomes `AddCode` of the old list; the old list is a prefix of the new one; the list stays duplicate-free and equal to `AddAll` of the history; the selection is unchanged and stays a favourite |
| SessionState.Session.SelectFavourite | app.py:44-46 | pressing a stored favourite's button records it as the pending selection, which is then a non-empty favourite |
| SessionState.Session.Lookup | app.py:55-136 | returns `Evaluate` of the resolved input; sets the selection to `PendingAfter`; changes nothing else and keeps the session invariant |

## Left out

- Page layout, the RSI explanation, headers, success/warning/info messages and the loop that draws one sidebar button per favourite (app.py:12-30, 42-45): user interface. Only the state change a button press makes (app.py:46) is modelled.
- The price download (app.py:63): a network call into a library outside the model. Its effect is the `Attempt` input, and its request is `Query.Request`. The fixed `interval="1d"` argument is implied by `Request`.
- The company metadata lookup and its placeholder defaults (app.py:68-74): a foreign lookup table used only for display.
- RSI computation by the `ta` library (app.py:76-80): a foreign floating-point computation. The model receives the computed series.
- A NaN latest RSI, which compares false both ways and lands in the neutral branch: floating-point behaviour. RSI values are `real`.
- The price chart, the Excel export and the formatted summary string (app.py:82-116): rendering, I/O and float formatting.
- The text shown by the exception handler (app.py:135-136). The model keeps only its effect: a raised exception skips the selection reset.
- The text box widget is not drawn while a favourite is pending (the `or` at app.py:55 short-circuits). What the box holds on a later rerun depends on the framework's widget state, not on app.py; the model takes the typed text as a free input of each lookup, whatever the box holds, and `Query.ResolveInput` ignores it while a non-empty favourite is pending.
- One `Attempt` covers the whole `try` block. The model does not say which call raised or what was already drawn before it raised.
- The design's quote cache with time-to-live, notes store, durable persistence with atomic replace, refresh scheduler, watchlist removal and Wilder smoothing: none of these exist in `app.py`.
