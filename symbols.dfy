/**
 * The first lines of `main` in scripts/fetch_stock.py: choosing the symbol input,
 * parsing it into tickers, and the configuration guards that end the run with
 * status 1 before any connection or request.
 */
module Symbols {
  import opened Wrappers
  import opened Text

  /** A parsed ticker: non-empty, no whitespace at either end, no lower-case ASCII letter. */
  predicate IsTicker(t: string) {
    t != [] && !IsSpace(t[0]) && !IsSpace(t[|t| - 1])
    && forall k :: 0 <= k < |t| ==> !IsLowerAscii(t[k])
  }

  /** The ticker a piece of the input gives: `piece.strip().upper()`, if that is non-empty. */
  function Ticker(piece: string): (r: Option<string>)
    ensures r.None? <==> AllSpace(piece)
    ensures r.Some? ==> IsTicker(r.value)
  {
    var t := Strip(piece);
    if t == [] then None else Some(AsciiUpper(t))
  }

  /** A piece is trimmed and upper-cased: whitespace around a text with solid ends is
      dropped and the text is upper-cased, so " msft " gives "MSFT". */
  lemma TickerPadded(front: string, t: string, back: string)
    requires AllSpace(front) && AllSpace(back)
    requires t != [] && !IsSpace(t[0]) && !IsSpace(t[|t| - 1])
    ensures Ticker(front + t + back) == Some(AsciiUpper(t))
  {
    StripPadded(front, t, back);
  }

  /** A character that is not a capital letter and that the piece does not hold is not
      in its ticker. */
  lemma TickerWithout(piece: string, c: char)
    requires !('A' <= c <= 'Z') && c !in piece
    ensures Ticker(piece).Some? ==> c !in Ticker(piece).value
  {
    var t := Strip(piece);
    if t != [] {
      var u := AsciiUpper(t);
      forall k | 0 <= k < |u| ensures u[k] != c {
        assert u[k] == t[k] || 'A' <= u[k] <= 'Z';
        assert t[k] in Strip(piece);
        StripKeeps(piece, t[k]);
      }
    }
  }

  /** `[f(x) for x in xs if f(x) is not None]`: the present results, in order. */
  function FilterMap<T, U>(xs: seq<T>, f: T -> Option<U>): (r: seq<U>)
    ensures |r| <= |xs|
    ensures forall y :: y in r ==> exists x :: x in xs && f(x) == Some(y)
  {
    if xs == [] then []
    else
      var rest := FilterMap(xs[1..], f);
      assert forall x :: x in xs[1..] ==> x in xs;
      match f(xs[0])
      case None => rest
      case Some(y) => [y] + rest
  }

  /** Filtering a concatenation filters each part, keeping the order. */
  lemma {:induction false} FilterMapConcat<T, U>(a: seq<T>, b: seq<T>, f: T -> Option<U>)
    ensures FilterMap(a + b, f) == FilterMap(a, f) + FilterMap(b, f)
  {
    if a == [] {
      assert a + b == b;
    } else {
      assert (a + b)[0] == a[0] && (a + b)[1..] == a[1..] + b;
      FilterMapConcat(a[1..], b, f);
    }
  }

  /** `[s.strip().upper() for s in pieces if s.strip()]`: well-formed tickers of the
      non-blank pieces, in order. */
  function Tickers(pieces: seq<string>): (r: seq<string>)
    ensures |r| <= |pieces|
    ensures forall t :: t in r ==> IsTicker(t)
  {
    FilterMap(pieces, Ticker)
  }

  /** A character that is not a capital letter and that no piece holds appears in no
      ticker. */
  lemma TickersWithout(pieces: seq<string>, c: char)
    requires !('A' <= c <= 'Z') && forall p :: p in pieces ==> c !in p
    ensures forall t :: t in Tickers(pieces) ==> c !in t
  {
    forall t | t in Tickers(pieces) ensures c !in t {
      var p :| p in pieces && Ticker(p) == Some(t);
      TickerWithout(p, c);
    }
  }

  /** The symbol list of `main`: the comma-separated pieces of the input, each stripped
      and upper-cased, blank pieces dropped. */
  function ParseSymbols(input: string): (r: seq<string>)
    ensures forall t :: t in r ==> IsTicker(t) && ',' !in t
  {
    TickersWithout(Split(input, ','), ',');
    Tickers(Split(input, ','))
  }

  /** Parsing one comma-free piece gives its ticker, or nothing if it is blank. */
  lemma ParseOnePiece(piece: string)
    requires ',' !in piece
    ensures ParseSymbols(piece) == if Ticker(piece).Some? then [Ticker(piece).value] else []
  {
    assert Split(piece, ',') == [piece];
    assert [piece][1..] == [];
  }

  /** Order is preserved and nothing is merged: the symbols of `a,b` are those of `a`
      followed by those of `b`, so a repeated ticker is kept once per occurrence. */
  lemma ParseSymbolsConcat(a: string, b: string)
    ensures ParseSymbols(a + "," + b) == ParseSymbols(a) + ParseSymbols(b)
  {
    SplitConcat(a, ',', b);
    FilterMapConcat(Split(a, ','), Split(b, ','), Ticker);
  }

  /** A well-formed ticker is its own ticker: normalising twice changes nothing. */
  lemma TickerOfTicker(t: string)
    requires IsTicker(t)
    ensures Ticker(t) == Some(t)
  {
    StripUnpadded(t);
    AsciiUpperFixed(t);
  }

  /** Duplicates are kept: two pieces naming the same ticker ("aapl,AAPL") give it twice. */
  lemma ParseSymbolsKeepsDuplicates(a: string, b: string)
    requires ',' !in a && ',' !in b
    requires Ticker(a).Some? && Ticker(b) == Ticker(a)
    ensures var r := ParseSymbols(a + "," + b); |r| == 2 && r[0] == r[1] == Ticker(a).value
  {
    var t := Ticker(a).value;
    ParseOnePiece(a);
    ParseOnePiece(b);
    ParseSymbolsConcat(a, b);
    DoubledTicker(ParseSymbols(a), ParseSymbols(b), ParseSymbols(a + "," + b), t);
  }

  /** Two singleton lists of the same ticker, joined, hold it twice. */
  lemma DoubledTicker(x: seq<string>, y: seq<string>, r: seq<string>, t: string)
    requires x == [t] && y == [t] && r == x + y
    ensures |r| == 2 && r[0] == t && r[1] == t
  {
  }

  /** The settings `main` reads: the `--symbols` argument, STOCK_SYMBOLS,
      STOCK_API_PROVIDER and ALPHAVANTAGE_API_KEY (`None` when unset). */
  datatype Config = Config(
    cliSymbols: Option<string>,
    envSymbols: string,
    provider: string,
    apiKey: Option<string>)

  /** Why `main` exits with status 1. */
  datatype ConfigFault = NoSymbols | UnsupportedProvider | MissingApiKey

  const Provider := "ALPHAVANTAGE"

  /** `args.symbols or SYMBOLS_ENV`: the argument unless it is absent or empty. */
  function SymbolsInput(cfg: Config): (s: string)
    ensures cfg.cliSymbols.Some? && cfg.cliSymbols.value != [] ==> s == cfg.cliSymbols.value
    ensures s != cfg.envSymbols ==> cfg.cliSymbols.Some? && s == cfg.cliSymbols.value
    ensures cfg.cliSymbols.None? || cfg.cliSymbols.value == [] ==> s == cfg.envSymbols
  {
    if cfg.cliSymbols.Some? && cfg.cliSymbols.value != [] then cfg.cliSymbols.value else cfg.envSymbols
  }

  /** The guards of `main`, in source order: an empty symbol input, a provider other
      than ALPHAVANTAGE (ignoring case), a missing or empty API key. Passing them gives
      the parsed symbol list. */
  function Preflight(cfg: Config): (r: Result<seq<string>, ConfigFault>)
    ensures r.Success? <==>
      SymbolsInput(cfg) != [] && AsciiUpper(cfg.provider) == Provider
      && cfg.apiKey.Some? && cfg.apiKey.value != []
    ensures r.Success? ==> r.value == ParseSymbols(SymbolsInput(cfg))
    ensures r == Failure(NoSymbols) <==> SymbolsInput(cfg) == []
  {
    var input := SymbolsInput(cfg);
    if input == [] then Failure(NoSymbols)
    else
      var symbols := ParseSymbols(input);
      if AsciiUpper(cfg.provider) != Provider then Failure(UnsupportedProvider)
      else if cfg.apiKey.None? || cfg.apiKey.value == [] then Failure(MissingApiKey)
      else Success(symbols)
  }

  /** The provider check ignores case: "alphavantage" passes. */
  lemma ProviderIgnoresCase()
    ensures AsciiUpper("alphavantage") == Provider
  {
  }

  /** The emptiness guard looks at the raw input, not at the parsed list: an input of
      blank pieces such as " , " passes every guard and gives no symbols at all. */
  lemma BlankInputPassesGuard(cfg: Config)
    requires SymbolsInput(cfg) == " , "
    requires AsciiUpper(cfg.provider) == Provider && cfg.apiKey.Some? && cfg.apiKey.value != []
    ensures Preflight(cfg) == Success([])
  {
    assert " , " == " " + "," + " ";
    ParseSymbolsConcat(" ", " ");
    ParseOnePiece(" ");
  }
}
