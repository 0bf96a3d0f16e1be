/** The lookback window offered in the sidebar: six fixed choices, the third
    of which is preselected. */
module Lookback {
  import opened Wrappers

  datatype Lookback = OneMonth | ThreeMonths | SixMonths | OneYear | TwoYears | FiveYears

  /** The option strings in the order the selector lists them. */
  const Options: seq<string> := ["1mo", "3mo", "6mo", "1y", "2y", "5y"]

  /** The windows in the same order. */
  const Choices: seq<Lookback> :=
    [OneMonth, ThreeMonths, SixMonths, OneYear, TwoYears, FiveYears]

  /** The index preselected by the selector. */
  const DefaultIndex: nat := 2

  /** The period string handed to the download for a window. */
  function Code(l: Lookback): (code: string)
    ensures code in Options
  {
    match l
    case OneMonth => "1mo"
    case ThreeMonths => "3mo"
    case SixMonths => "6mo"
    case OneYear => "1y"
    case TwoYears => "2y"
    case FiveYears => "5y"
  }

  /** The window an option string names, if any. */
  function FromCode(code: string): (l: Option<Lookback>)
    ensures l.Some? <==> code in Options
    ensures l.Some? ==> Code(l.value) == code
  {
    if code == "1mo" then Some(OneMonth)
    else if code == "3mo" then Some(ThreeMonths)
    else if code == "6mo" then Some(SixMonths)
    else if code == "1y" then Some(OneYear)
    else if code == "2y" then Some(TwoYears)
    else if code == "5y" then Some(FiveYears)
    else None
  }

  /** Reading back a window's code gives the window: distinct windows have
      distinct codes. */
  lemma CodeRoundTrip(l: Lookback)
    ensures FromCode(Code(l)) == Some(l)
  {
  }

  /** `Choices` lists every window once, each at the position of its code. */
  lemma ChoicesMatchOptions()
    ensures |Choices| == |Options|
    ensures forall i :: 0 <= i < |Choices| ==> Code(Choices[i]) == Options[i]
    ensures forall l: Lookback :: l in Choices
  {
    forall l: Lookback ensures l in Choices {
      match l
      case OneMonth => assert Choices[0] == l;
      case ThreeMonths => assert Choices[1] == l;
      case SixMonths => assert Choices[2] == l;
      case OneYear => assert Choices[3] == l;
      case TwoYears => assert Choices[4] == l;
      case FiveYears => assert Choices[5] == l;
    }
  }

  /** The preselected window, six months. */
  function Default(): (l: Lookback)
    ensures DefaultIndex < |Choices| && l == Choices[DefaultIndex]
    ensures Code(l) == "6mo"
  {
    SixMonths
  }
}
