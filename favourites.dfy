/** The favourites list: an insertion-ordered list of stock codes to which
    the sidebar's "add to favourites" button appends the typed code. */
module Favourites {
  import opened Ticker

  predicate NoDuplicates(list: seq<string>) {
    forall i, j :: 0 <= i < j < |list| ==> list[i] != list[j]
  }

  /** One press of the add button with `code` in the text box. The code is
      stored as typed, without stripping. The old list is kept as a prefix;
      the list grows by one exactly when the code is non-empty and new, and
      the entries afterwards are the old ones plus that code. */
  function AddCode(list: seq<string>, code: string): (r: seq<string>)
    ensures list <= r
    ensures |r| == if code != "" && code !in list then |list| + 1 else |list|
    ensures forall x :: x in r <==> x in list || (x == code && code != "")
  {
    if code != "" && code !in list then list + [code] else list
  }

  /** A new non-empty code goes at the end. */
  lemma AddAppends(list: seq<string>, code: string)
    requires code != "" && code !in list
    ensures |AddCode(list, code)| == |list| + 1
    ensures AddCode(list, code)[|list|] == code
  {
  }

  /** Adding a code already present, or an empty input, changes nothing. */
  lemma AddNoOp(list: seq<string>, code: string)
    requires code == "" || code in list
    ensures AddCode(list, code) == list
  {
  }

  /** Adding the same code twice is adding it once. */
  lemma AddIdempotent(list: seq<string>, code: string)
    ensures AddCode(AddCode(list, code), code) == AddCode(list, code)
  {
  }

  lemma AddPreservesNoDuplicates(list: seq<string>, code: string)
    requires NoDuplicates(list)
    ensures NoDuplicates(AddCode(list, code))
  {
  }

  /** The list after the add button has been pressed once for each of `codes`
      in turn, starting from the empty list the session begins with. It holds
      each non-empty code once, and nothing else. */
  function AddAll(codes: seq<string>): (r: seq<string>)
    ensures NoDuplicates(r)
    ensures forall x :: x in r <==> x in codes && x != ""
  {
    if codes == [] then []
    else
      var prior := AddAll(codes[..|codes| - 1]);
      AddPreservesNoDuplicates(prior, codes[|codes| - 1]);
      assert forall x :: x in codes <==> x in codes[..|codes| - 1] || x == codes[|codes| - 1] by {
        assert codes == codes[..|codes| - 1] + [codes[|codes| - 1]];
      }
      AddCode(prior, codes[|codes| - 1])
  }

  /** Later adds never reorder or drop earlier entries: the list after `codes`
      is a prefix of the list after `codes` followed by `more`. */
  lemma {:induction false} AddAllExtends(codes: seq<string>, more: seq<string>)
    ensures AddAll(codes) <= AddAll(codes + more)
  {
    if more == [] {
      assert codes + more == codes;
    } else {
      var shorter := more[..|more| - 1];
      assert (codes + more)[..|codes + more| - 1] == codes + shorter;
      AddAllExtends(codes, shorter);
    }
  }

  /** Favourites are compared as typed while lookups strip the code, so a
      code and the same code after a space are both kept, yet name the same
      ticker symbol. */
  lemma {:induction false} UnstrippedEntriesShareSymbol(code: string)
    requires code != ""
    ensures var padded := [' '] + code;
      AddAll([padded, code]) == [padded, code] &&
      TickerSymbol(padded) == TickerSymbol(code)
  {
    var padded := [' '] + code;
    var codes := [padded, code];
    assert codes[..1] == [padded];
    assert [padded][..0] == [];
    assert AddAll([padded]) == [padded];
    assert |padded| != |code|;
    assert padded == [' '] + code + [];
    TickerSymbolIgnoresPadding([' '], code, []);
  }
}
