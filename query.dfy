/** One run of the lookup at the bottom of the page: choose the input, build
    the download request, classify the result, and decide whether the pending
    favourite selection is consumed. */
module Query {
  import opened Wrappers
  import opened Ticker
  import opened Indicator
  import opened Lookback

  /** What the foreign calls inside the lookup's `try` block produced: an
      exception from any of them, an empty download, or data whose computed
      index series is `rsi`. */
  datatype Attempt = Raised | NoData | Data(rsi: seq<real>)

  /** A daily-interval price download for `symbol` over `period`. */
  datatype Request = Request(symbol: string, period: Lookback)

  /** What the page shows: nothing (no input), the error message of an
      exception, "code not found", or the stripped code with its signal. */
  datatype Outcome =
    | Skipped
    | Failed(request: Request)
    | NotFound(request: Request)
    | Assessed(request: Request, code: string, signal: Signal)

  /** The input the lookup uses: a non-empty pending favourite wins over the
      text box; an absent or empty one leaves the typed text. */
  function ResolveInput(pending: Option<string>, typed: string): (input: string)
    ensures pending.Some? && pending.value != "" ==> input == pending.value
    ensures pending.None? || pending.value == "" ==> input == typed
  {
    match pending
    case Some(p) => if p != "" then p else typed
    case None => typed
  }

  /** The page content for one lookup. A download is requested exactly when
      the input is non-empty, always for the stripped input with the exchange
      suffix; the signal is shown exactly when data came back. */
  function Evaluate(input: string, period: Lookback, attempt: Attempt): (o: Outcome)
    ensures o.Skipped? <==> input == ""
    ensures !o.Skipped? ==> o.request == Request(TickerSymbol(input), period)
    ensures o.Failed? <==> input != "" && attempt.Raised?
    ensures o.NotFound? <==> input != "" && attempt.NoData?
    ensures o.Assessed? <==> input != "" && attempt.Data?
    ensures o.Assessed? ==>
      o.code == Strip(input) && o.signal == Classify(Latest(attempt.rsi))
  {
    if input == "" then Skipped
    else
      var request := Request(TickerSymbol(input), period);
      match attempt
      case Raised => Failed(request)
      case NoData => NotFound(request)
      case Data(rsi) => Assessed(request, Strip(input), Classify(Latest(rsi)))
  }

  /** The pending selection after the lookup. A lookup never installs one; it
      removes it exactly when a lookup ran and completed, found or not; an
      exception leaves it in place. */
  function PendingAfter(pending: Option<string>, input: string, attempt: Attempt): (after: Option<string>)
    ensures after == None || after == pending
    ensures input != "" && !attempt.Raised? ==> after == None
    ensures input == "" || attempt.Raised? ==> after == pending
  {
    if input != "" && !attempt.Raised? then None else pending
  }

  /** Pressing a favourite and then completing a lookup downloads that
      favourite's symbol, whatever was typed, and consumes the selection, so
      the next lookup reads the text box again. */
  lemma SelectedFavouriteUsedOnce(code: string, typed: string, period: Lookback, attempt: Attempt)
    requires code != "" && !attempt.Raised?
    ensures var input := ResolveInput(Some(code), typed);
      Evaluate(input, period, attempt).request.symbol == TickerSymbol(code) &&
      ResolveInput(PendingAfter(Some(code), input, attempt), typed) == typed
  {
  }

  /** A lookup that completes always ends in one of the two content outcomes,
      never shows an error message, and leaves no pending selection, whatever
      was pending when it started. */
  lemma CompletedLookupShowsResult(pending: Option<string>, input: string, period: Lookback, attempt: Attempt)
    requires input != "" && !attempt.Raised?
    ensures var o := Evaluate(input, period, attempt);
      (o.NotFound? || o.Assessed?) && PendingAfter(pending, input, attempt) == None
  {
  }

  /** Input made only of whitespace is not rejected: it passes the emptiness
      test, strips to the empty code, and the download is requested for the
      bare suffix. */
  lemma BlankInputRequestsBareSuffix(input: string, period: Lookback, attempt: Attempt)
    requires input != "" && AllWhitespace(input)
    ensures var o := Evaluate(input, period, attempt);
      !o.Skipped? && o.request.symbol == Suffix
  {
    assert Strip(input) + Suffix == Suffix;
  }
}
