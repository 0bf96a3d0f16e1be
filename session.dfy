/** The per-browser-session state the script keeps between reruns: the
    favourites list and the pending favourite selection. */
module SessionState {
  import opened Wrappers
  import opened Ticker
  import opened Indicator
  import opened Lookback
  import opened Favourites
  import opened Query

  class Session {
    /** The favourites list, in the order the codes were added. */
    var favList: seq<string>
    /** The favourite whose sidebar button was pressed and not yet looked up. */
    var selectedFav: Option<string>
    /** Every code submitted with the add button so far, in order. */
    ghost var added: seq<string>

    /** The list is the result of the adds so far, so it holds no duplicates
        and no empty code; a pending selection is one of the favourites, since
        only their buttons set it. */
    ghost predicate Valid()
      reads this
    {
      favList == AddAll(added) &&
      (selectedFav.Some? ==> selectedFav.value in favList)
    }

    /** A new session: an empty favourites list and no pending selection. */
    constructor ()
      ensures Valid() && added == []
      ensures favList == [] && selectedFav == None
    {
      favList := [];
      selectedFav := None;
      added := [];
    }

    /** The add button, pressed with `input` in the sidebar text box. */
    method AddFavourite(input: string)
      requires Valid()
      modifies this
      ensures Valid() && added == old(added) + [input]
      ensures favList == AddCode(old(favList), input)
      ensures old(favList) <= favList && NoDuplicates(favList)
      ensures selectedFav == old(selectedFav)
    {
      if input != "" && input !in favList {
        favList := favList + [input];
      }
      added := added + [input];
      assert added[..|added| - 1] == old(added);
    }

    /** A favourite's sidebar button, which records it as the pending
        selection. Buttons are drawn only for stored favourites. */
    method SelectFavourite(code: string)
      requires Valid() && code in favList
      modifies this`selectedFav
      ensures Valid() && selectedFav == Some(code) && code != ""
    {
      selectedFav := Some(code);
    }

    /** One rerun's lookup with `typed` in the main text box, `period` chosen
        and `attempt` the behaviour of the foreign calls. The favourites list
        is untouched; the selection is removed only after a completed lookup. */
    method Lookup(typed: string, period: Lookback, attempt: Attempt) returns (outcome: Outcome)
      requires Valid()
      modifies this`selectedFav
      ensures Valid()
      ensures outcome == Evaluate(ResolveInput(old(selectedFav), typed), period, attempt)
      ensures selectedFav ==
        PendingAfter(old(selectedFav), ResolveInput(old(selectedFav), typed), attempt)
    {
      var input := typed;
      if selectedFav.Some? && selectedFav.value != "" {
        input := selectedFav.value;
      }
      if input == "" {
        return Skipped;
      }
      var request := Request(TickerSymbol(input), period);
      match attempt {
        case Raised =>
          // the exception handler runs and the reset below is skipped
          return Failed(request);
        case NoData =>
          outcome := NotFound(request);
        case Data(rsi) =>
          outcome := Assessed(request, Strip(input), Classify(Latest(rsi)));
      }
      if selectedFav.Some? {
        selectedFav := None;
      }
    }
  }
}
