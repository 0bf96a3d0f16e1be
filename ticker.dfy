/** Normalisation of the typed stock code into the exchange ticker symbol:
    the input is stripped of surrounding whitespace (Python's `str.strip()`
    with no argument) and the Taiwan Stock Exchange suffix is appended. */
module Ticker {

  /** The characters Python's `str.isspace` accepts, which are exactly those
      `str.strip()` removes: the ASCII controls TAB..CR, the separators
      FS..US, SPACE, NEL, NO-BREAK SPACE and the Unicode space separators. */
  predicate IsWhitespace(c: char) {
    var n := c as int;
    (0x09 <= n <= 0x0D) || (0x1C <= n <= 0x20) || n == 0x85 || n == 0xA0 ||
    n == 0x1680 || (0x2000 <= n <= 0x200A) || n == 0x2028 || n == 0x2029 ||
    n == 0x202F || n == 0x205F || n == 0x3000
  }

  predicate AllWhitespace(s: string) {
    forall i :: 0 <= i < |s| ==> IsWhitespace(s[i])
  }

  /** Neither end of `s` is whitespace (trivially true of the empty string). */
  predicate Trimmed(s: string) {
    s == [] || (!IsWhitespace(s[0]) && !IsWhitespace(s[|s| - 1]))
  }

  /** `s` with its leading whitespace removed. */
  function TrimStart(s: string): (r: string)
    ensures |r| <= |s| && r == s[|s| - |r|..]
    ensures AllWhitespace(s[..|s| - |r|])
    ensures r == [] || !IsWhitespace(r[0])
  {
    if s != [] && IsWhitespace(s[0]) then
      var r := TrimStart(s[1..]);
      assert s[..|s| - |r|] == [s[0]] + s[1..][..|s| - 1 - |r|];
      r
    else
      s
  }

  /** `s` with its trailing whitespace removed. */
  function TrimEnd(s: string): (r: string)
    ensures |r| <= |s| && r == s[..|r|]
    ensures AllWhitespace(s[|r|..])
    ensures r == [] || !IsWhitespace(r[|r| - 1])
  {
    if s != [] && IsWhitespace(s[|s| - 1]) then
      var r := TrimEnd(s[..|s| - 1]);
      assert s[|r|..] == s[..|s| - 1][|r|..] + [s[|s| - 1]];
      r
    else
      s
  }

  /** Python's `s.strip()`: the result is the slice of `s` that remains once
      the whitespace at both ends is cut off, and it has no whitespace at
      either end; it is empty exactly when `s` is all whitespace. */
  function Strip(s: string): (r: string)
    ensures Trimmed(r)
    ensures var i := |s| - |TrimStart(s)|;
      i + |r| <= |s| && r == s[i..i + |r|] &&
      AllWhitespace(s[..i]) && AllWhitespace(s[i + |r|..])
    ensures r == [] <==> AllWhitespace(s)
  {
    TrimBothEndsTrimmed(s);
    TrimBothEndsSlice(s);
    TrimBothEndsEmpty(s);
    TrimEnd(TrimStart(s))
  }

  /** The facts behind `Strip`'s contract, stated of the two trims it composes. */
  lemma TrimBothEndsTrimmed(s: string)
    ensures Trimmed(TrimEnd(TrimStart(s)))
  {
    var t := TrimStart(s);
    var r := TrimEnd(t);
    if r != [] {
      assert r[0] == t[0];
    }
  }

  lemma TrimBothEndsSlice(s: string)
    ensures var t := TrimStart(s); var r := TrimEnd(t); var i := |s| - |t|;
      i + |r| <= |s| && r == s[i..i + |r|] && AllWhitespace(s[i + |r|..])
  {
    var t := TrimStart(s);
    var i := |s| - |t|;
    var r := TrimEnd(t);
    assert s[i + |r|..] == t[|r|..];
  }

  lemma TrimBothEndsEmpty(s: string)
    ensures TrimEnd(TrimStart(s)) == [] <==> AllWhitespace(s)
  {
    var t := TrimStart(s);
    var i := |s| - |t|;
    var r := TrimEnd(t);
    if r == [] {
      assert AllWhitespace(t) by { assert t[|r|..] == t; }
      assert s[..i] == s;
    }
  }

  lemma SplitAt(s: string, i: nat, j: nat)
    requires i <= j <= |s|
    ensures s == s[..i] + s[i..j] + s[j..]
  {
  }

  lemma Regroup(w1: string, a: string, r: string, b: string, w2: string)
    ensures w1 + (a + r + b) + w2 == (w1 + a) + r + (b + w2)
  {
  }

  lemma AllWhitespaceConcat(a: string, b: string)
    requires AllWhitespace(a) && AllWhitespace(b)
    ensures AllWhitespace(a + b)
  {
  }

  /** Cutting leading whitespace off `w + m` leaves `m` when `m` does not
      start with whitespace. */
  lemma {:induction false} TrimStartSkips(w: string, m: string)
    requires AllWhitespace(w)
    requires m == [] || !IsWhitespace(m[0])
    ensures TrimStart(w + m) == m
  {
    if w == [] {
      assert w + m == m;
    } else {
      assert (w + m)[1..] == w[1..] + m;
      TrimStartSkips(w[1..], m);
    }
  }

  /** Cutting trailing whitespace off `m + w` leaves `m` when `m` does not
      end with whitespace. */
  lemma {:induction false} TrimEndSkips(m: string, w: string)
    requires AllWhitespace(w)
    requires m == [] || !IsWhitespace(m[|m| - 1])
    ensures TrimEnd(m + w) == m
  {
    if w == [] {
      assert m + w == m;
    } else {
      assert (m + w)[..|m + w| - 1] == m + w[..|w| - 1];
      TrimEndSkips(m, w[..|w| - 1]);
    }
  }

  /** `Strip` is determined by its contract: whatever sits between two
      whitespace runs and has no whitespace at its ends is the stripped value. */
  lemma StripUnique(w1: string, m: string, w2: string)
    requires AllWhitespace(w1) && AllWhitespace(w2) && Trimmed(m)
    ensures Strip(w1 + m + w2) == m
  {
    if m == [] {
      assert w1 + m + w2 == w1 + w2;
      AllWhitespaceConcat(w1, w2);
    } else {
      assert w1 + m + w2 == w1 + (m + w2);
      TrimStartSkips(w1, m + w2);
      TrimEndSkips(m, w2);
    }
  }

  /** Inputs that differ only in surrounding whitespace strip to the same code. */
  lemma StripIgnoresPadding(w1: string, s: string, w2: string)
    requires AllWhitespace(w1) && AllWhitespace(w2)
    ensures Strip(w1 + s + w2) == Strip(s)
  {
    var r := Strip(s);
    var i := |s| - |TrimStart(s)|;
    var a, b := s[..i], s[i + |r|..];
    SplitAt(s, i, i + |r|);
    AllWhitespaceConcat(w1, a);
    AllWhitespaceConcat(b, w2);
    Regroup(w1, a, r, b, w2);
    StripUnique(w1 + a, r, b + w2);
  }

  /** Stripping twice is stripping once. */
  lemma StripIdempotent(s: string)
    ensures Strip(Strip(s)) == Strip(s)
  {
    var r := Strip(s);
    assert [] + r + [] == r;
    StripUnique([], r, []);
  }

  /** The exchange suffix appended to every code looked up. */
  const Suffix: string := ".TW"

  /** The symbol handed to the market-data download: the stripped code followed
      by the suffix. */
  function TickerSymbol(input: string): (symbol: string)
    ensures |symbol| >= |Suffix| && symbol[|symbol| - |Suffix|..] == Suffix
    ensures Trimmed(symbol[..|symbol| - |Suffix|])
  {
    Strip(input) + Suffix
  }

  /** Two inputs give the same symbol exactly when they strip to the same code,
      so the code can be read back from the symbol. */
  lemma TickerSymbolDeterminesCode(a: string, b: string)
    ensures TickerSymbol(a) == TickerSymbol(b) <==> Strip(a) == Strip(b)
  {
    if TickerSymbol(a) == TickerSymbol(b) {
      assert Strip(a) == TickerSymbol(a)[..|Strip(a)|];
      assert Strip(b) == TickerSymbol(b)[..|Strip(b)|];
    }
  }

  /** Surrounding whitespace in the typed input does not change the symbol. */
  lemma TickerSymbolIgnoresPadding(w1: string, s: string, w2: string)
    requires AllWhitespace(w1) && AllWhitespace(w2)
    ensures TickerSymbol(w1 + s + w2) == TickerSymbol(s)
  {
    StripIgnoresPadding(w1, s, w2);
  }
}
