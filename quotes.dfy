/**
 * Normalisation of one Alpha Vantage GLOBAL_QUOTE response into a quote record:
 * `extract_from_alpha` with its key lookup `getf`, and the lenient number
 * conversions `safe_float` and `safe_int` (scripts/fetch_stock.py).
 */
module Quotes {
  import opened Wrappers
  import opened Text
  import opened Digits
  import opened Decimals
  import opened Calendar

  /** A decoded JSON value, as `response.json()` returns it; numbers are exact decimals. */
  datatype Json =
    | JNull
    | JBool(b: bool)
    | JNum(n: Decimal)
    | JStr(s: string)
    | JArr(items: seq<Json>)
    | JObj(fields: map<string, Json>)

  /** Python truthiness: `None`, `False`, zero, and empty strings, lists and dicts are false. */
  predicate Truthy(v: Json) {
    match v
    case JNull => false
    case JBool(b) => b
    case JNum(n) => n.mantissa != 0
    case JStr(s) => s != []
    case JArr(items) => items != []
    case JObj(fields) => fields != map[]
  }

  /** `g.get(key)` is truthy. */
  predicate TruthyAt(g: map<string, Json>, key: string) {
    key in g && Truthy(g[key])
  }

  /** `getf(key)`: `g.get(key) or g.get(key.replace(".", "")) or None`. The value under
      `key` wins when it is truthy; otherwise the value under the dot-less key when that
      one is truthy; otherwise nothing. A falsy value (an empty string, say) counts as
      absent, so a present result is always truthy. */
  function Getf(g: map<string, Json>, key: string): (r: Option<Json>)
    ensures r.Some? ==> Truthy(r.value)
    ensures TruthyAt(g, key) ==> r == Some(g[key])
    ensures !TruthyAt(g, key) && TruthyAt(g, Remove(key, '.')) ==> r == Some(g[Remove(key, '.')])
    ensures r.None? <==> !TruthyAt(g, key) && !TruthyAt(g, Remove(key, '.'))
  {
    if TruthyAt(g, key) then Some(g[key])
    else if TruthyAt(g, Remove(key, '.')) then Some(g[Remove(key, '.')])
    else None
  }

  /** The dot-less spelling of a key with one dot: "02. open" falls back to "02 open". */
  lemma DotlessKey(a: string, b: string)
    requires '.' !in a && '.' !in b
    ensures Remove(a + "." + b, '.') == a + b
  {
    assert Remove(a + ".", '.') == a by {
      RemoveConcat(a, ".", '.');
      assert Remove(".", '.') == [];
    }
    assert Remove(a + "." + b, '.') == a + b by {
      RemoveConcat(a + ".", b, '.');
    }
  }

  /** `getf` falls back to the dot-less spelling of a key: `a.b` reads `ab` when `a.b`
      holds nothing truthy, so "02. open" falls back to "02 open". */
  lemma GetfFallsBack(g: map<string, Json>, a: string, b: string)
    requires '.' !in a && '.' !in b
    requires !TruthyAt(g, a + "." + b) && TruthyAt(g, a + b)
    ensures Getf(g, a + "." + b) == Some(g[a + b])
  {
    DotlessKey(a, b);
  }

  lemma GetfEmpty(key: string)
    ensures Getf(map[], key) == None
  {
  }

  /** A falsy value stored under a key is the same as no value there. */
  lemma GetfFalsyIsAbsent(g: map<string, Json>, key: string)
    requires key in g && !Truthy(g[key])
    ensures Getf(g, key) == Getf(g - {key}, key)
  {
  }

  /** `safe_float(v)`: `float(str(v).strip())`, with `None` wherever that raises; it
      never raises itself. A string converts when, stripped, it is a numeral; a number
      converts to itself, as its text would (`SafeFloatNumber`). `None`, booleans, lists
      and dicts never convert: their texts "None", "True", "False", "[...]" and
      "{...}" start with a character no numeral starts with (`WordIsNotNumber`). */
  function SafeFloat(v: Option<Json>): (r: Option<Decimal>)
    ensures r.Some? ==> v.Some? && (v.value.JNum? || v.value.JStr?)
    ensures v.Some? && v.value.JNum? ==> r == Some(v.value.n)
    ensures v.Some? && v.value.JStr? ==> r == ParseDecimal(Strip(v.value.s))
  {
    match v
    case Some(JNum(n)) => Some(n)
    case Some(JStr(s)) => ParseDecimal(Strip(s))
    case _ => None
  }

  /** A text that starts with a character that is neither whitespace nor part of a
      numeral (a letter, a bracket or a brace) does not convert. */
  lemma WordIsNotNumber(t: string)
    requires t != [] && !IsSpace(t[0]) && !NumeralChar(t, 0)
    ensures ParseDecimal(Strip(t)) == None
  {
    assert StripLeft(t) == t;
    var r := StripRight(t);
    assert t[0..] == t;
    assert r != [];
    assert r[0] == t[0];
    ParseRejectsForeign(r, 0);
  }

  /** `safe_int(v)`: `int(float(str(v).strip()))`, the parsed number truncated toward
      zero; present exactly when `safe_float` gives a number that is not an infinity
      (`int()` of an infinity raises `OverflowError`, which `safe_int` turns into `None`). */
  function SafeInt(v: Option<Json>): (r: Option<int>)
    ensures r.Some? <==> SafeFloat(v).Some? && InFloatRange(SafeFloat(v).value)
    ensures r.Some? ==> r.value == Truncate(SafeFloat(v).value)
    ensures r.Some? ==> Abs(r.value) * Pow10(SafeFloat(v).value.scale) <= Abs(SafeFloat(v).value.mantissa)
  {
    match SafeFloat(v)
    case None => None
    case Some(d) =>
      if !InFloatRange(d) then None
      else
        TruncateShrinks(d);
        Some(Truncate(d))
  }

  lemma TruncateShrinks(d: Decimal)
    ensures Abs(Truncate(d)) * Pow10(d.scale) <= Abs(d.mantissa)
  {
    ScaledBelow(Truncate(d), Pow10(d.scale), d.mantissa);
  }

  lemma ScaledBelow(r: int, p: nat, m: int)
    requires m >= 0 ==> 0 <= r * p <= m
    requires m < 0 ==> m <= r * p <= 0
    requires p >= 1
    ensures Abs(r) * p <= Abs(m)
  {
    if r < 0 {
      assert Abs(r) * p == -(r * p);
    }
  }

  /** A number converts to itself, and so does its text: `float(str(x)) == x`. */
  lemma SafeFloatNumber(d: Decimal)
    ensures SafeFloat(Some(JNum(d))) == Some(d)
    ensures ParseDecimal(Strip(DecimalText(d))) == Some(d)
  {
    StripUnpadded(DecimalText(d));
    ParseDecimalText(d);
  }

  /** A numeral surrounded by whitespace converts to its number. */
  lemma SafeFloatPadded(front: string, d: Decimal, back: string)
    requires AllSpace(front) && AllSpace(back)
    ensures SafeFloat(Some(JStr(front + DecimalText(d) + back))) == Some(d)
  {
    var t := front + DecimalText(d) + back;
    assert Strip(t) == DecimalText(d) by { StripPadded(front, DecimalText(d), back); }
    ParseDecimalText(d);
  }

  /** A string that is not a numeral once stripped converts to `None` instead of raising:
      the blank string, "-", "." and "1.2.3" among them. */
  lemma SafeFloatNotNumeral(t: string)
    requires !PlainNumeral(Strip(t))
    ensures SafeFloat(Some(JStr(t))) == None
    ensures SafeInt(Some(JStr(t))) == None
  {
  }

  /** A blank string is truthy, so `getf` passes it on, but it converts to `None`. */
  lemma SafeFloatBlank(t: string)
    requires AllSpace(t)
    ensures SafeFloat(Some(JStr(t))) == None
    ensures SafeInt(Some(JStr(t))) == None
  {
    assert Strip(t) == [];
    assert !PlainNumeral([]);
  }

  /** A string with a character that is neither whitespace nor part of a numeral
      ("N/A", "1,5" and "12%" all have one) converts to `None` instead of raising. */
  lemma SafeFloatMalformed(t: string, k: nat)
    requires k < |t| && !IsSpace(t[k]) && !IsDigit(t[k]) && t[k] !in "+-."
    ensures SafeFloat(Some(JStr(t))) == None
    ensures SafeInt(Some(JStr(t))) == None
  {
    StrippedMalformed(t, k);
  }

  lemma StrippedMalformed(t: string, k: nat)
    requires k < |t| && !IsSpace(t[k]) && !IsDigit(t[k]) && t[k] !in "+-."
    ensures ParseDecimal(Strip(t)) == None
  {
    StripKeepsSolid(t, k);
    ForeignNotParsed(Strip(t), t[k]);
  }

  lemma ForeignNotParsed(s: string, c: char)
    requires c in s && !IsDigit(c) && c !in "+-."
    ensures ParseDecimal(s) == None
  {
    var j :| 0 <= j < |s| && s[j] == c;
    assert !NumeralChar(s, j);
    ParseRejectsForeign(s, j);
  }

  /** Whitespace-free characters survive stripping. */
  lemma StripKeepsSolid(s: string, k: nat)
    requires k < |s| && !IsSpace(s[k])
    ensures s[k] in Strip(s)
  {
    var l := StripLeft(s);
    var n := |s| - |l|;
    assert k >= n;
    assert l[k - n] == s[k];
    var r := StripRight(l);
    assert k - n < |r|;
    assert r[k - n] == s[k];
  }

  /** A numeral converts under `safe_int` to its number truncated toward zero, so
      "-12.7" gives -12 and not -13 (`TruncateSymmetric`); a numeral whose float is an
      infinity gives `None`. */
  lemma SafeIntNumeral(d: Decimal)
    ensures SafeInt(Some(JNum(d))) == if InFloatRange(d) then Some(Truncate(d)) else None
    ensures SafeInt(Some(JStr(DecimalText(d)))) == if InFloatRange(d) then Some(Truncate(d)) else None
  {
    SafeFloatNumber(d);
    assert SafeFloat(Some(JStr(DecimalText(d)))) == Some(d);
  }

  /** The normalised record `extract_from_alpha` returns: the dict with keys symbol,
      fetched_at, open, high, low, close, volume and raw. */
  datatype Quote = Quote(
    symbol: string,
    fetchedAt: Timestamp,
    open: Option<Decimal>,
    high: Option<Decimal>,
    low: Option<Decimal>,
    close: Option<Decimal>,
    volume: Option<int>,
    raw: Json)

  const QuoteKey := "Global Quote"
  const OpenKey := "02. open"
  const HighKey := "03. high"
  const LowKey := "04. low"
  const PriceKey := "05. price"
  const VolumeKey := "06. volume"
  const TradingDayKey := "07. latest trading day"

  /** The exception `extract_from_alpha` lets through. */
  datatype ExtractFault =
    | PayloadNotObject     // `data.get` on a payload that is not a dict
    | QuoteNotObject       // `g.get` on a truthy "Global Quote" that is not a dict
    | TradingDayNotText    // `fromisoformat` on a trading day that is not a string
    | TradingDayMalformed  // `fromisoformat` on a string that is not an ISO date

  /** `data.get("Global Quote") or {}`. */
  function QuoteObject(data: map<string, Json>): Json {
    if TruthyAt(data, QuoteKey) then data[QuoteKey] else JObj(map[])
  }

  /** `fetched_at`: the current time when there is no trading day, otherwise midnight UTC
      of the parsed trading day, or the exception `fromisoformat` raises. */
  function FetchedAt(day: Option<Json>, now: Timestamp): Result<Timestamp, ExtractFault> {
    if day.None? then Success(now)
    else if !day.value.JStr? then Failure(TradingDayNotText)
    else
      match ParseIsoDate(day.value.s)
      case None => Failure(TradingDayMalformed)
      case Some(d) => Success(Midnight(d))
  }

  /** `extract_from_alpha(symbol, data)` with `now` the instant `now_utc()` would read.
      A record, when there is one, carries the symbol and the payload unchanged, is
      stamped with `now` when there is no trading day and otherwise with midnight of the
      parsed date, and holds the lenient
      conversion of the value `getf` finds under each numeric key. */
  function Extract(symbol: string, data: Json, now: Timestamp): (r: Result<Quote, ExtractFault>)
    ensures r.Success? ==> r.value.symbol == symbol && r.value.raw == data
    ensures r.Success? ==> data.JObj? && QuoteObject(data.fields).JObj?
    ensures r.Success? ==>
      r.value.fetchedAt == now || (r.value.fetchedAt.micros == 0 && ValidDate(r.value.fetchedAt.date))
    ensures r.Success? ==>
      var day := Getf(QuoteFields(data), TradingDayKey);
      if day.None? then r.value.fetchedAt == now
      else (day.value.JStr? && ParseIsoDate(day.value.s).Some?
            && r.value.fetchedAt == Midnight(ParseIsoDate(day.value.s).value))
    ensures r.Success? ==>
      var f := QuoteFields(data);
      r.value.open == SafeFloat(Getf(f, OpenKey)) && r.value.high == SafeFloat(Getf(f, HighKey))
      && r.value.low == SafeFloat(Getf(f, LowKey)) && r.value.close == SafeFloat(Getf(f, PriceKey))
      && r.value.volume == SafeInt(Getf(f, VolumeKey))
  {
    if !data.JObj? then Failure(PayloadNotObject)
    else
      var g := QuoteObject(data.fields);
      if !g.JObj? then Failure(QuoteNotObject)
      else
        var f := g.fields;
        match FetchedAt(Getf(f, TradingDayKey), now)
        case Failure(e) => Failure(e)
        case Success(at) =>
          Success(Quote(symbol, at,
            SafeFloat(Getf(f, OpenKey)), SafeFloat(Getf(f, HighKey)), SafeFloat(Getf(f, LowKey)),
            SafeFloat(Getf(f, PriceKey)), SafeInt(Getf(f, VolumeKey)), data))
  }

  /** The fields of the quote object of an extractable payload. */
  function QuoteFields(data: Json): map<string, Json>
    requires data.JObj? && QuoteObject(data.fields).JObj?
  {
    QuoteObject(data.fields).fields
  }

  /** The trading day of the quote object is absent or an ISO date string, so that
      `fromisoformat` does not raise. */
  predicate DayAccepted(data: Json)
    requires data.JObj? && QuoteObject(data.fields).JObj?
  {
    var day := Getf(QuoteFields(data), TradingDayKey);
    day.None? || (day.value.JStr? && ParseIsoDate(day.value.s).Some?)
  }

  /** Extraction raises exactly when the payload is not a dict, its "Global Quote" is
      truthy but not a dict, or a trading day is present that is not an ISO date string.
      Malformed numeric fields never make it raise. */
  lemma ExtractFailsExactly(symbol: string, data: Json, now: Timestamp)
    ensures Extract(symbol, data, now).Failure? <==>
      !data.JObj? || !QuoteObject(data.fields).JObj?
      || (var day := Getf(QuoteFields(data), TradingDayKey);
          day.Some? && !(day.value.JStr? && ParseIsoDate(day.value.s).Some?))
  {
  }

  /** A payload without a (truthy) "Global Quote", such as the provider's rate-limit note,
      still gives a record: every numeric field is `None` and the time is `now`. */
  lemma ExtractWithoutQuote(symbol: string, fields: map<string, Json>, now: Timestamp)
    requires !TruthyAt(fields, QuoteKey)
    ensures Extract(symbol, JObj(fields), now)
      == Success(Quote(symbol, now, None, None, None, None, None, JObj(fields)))
  {
    GetfEmpty(TradingDayKey);
    GetfEmpty(OpenKey);
    GetfEmpty(HighKey);
    GetfEmpty(LowKey);
    GetfEmpty(PriceKey);
    GetfEmpty(VolumeKey);
  }

  /** `close` is read from "05. price": a price string that is a numeral, whitespace
      around it allowed, becomes that number. */
  lemma ExtractReadsPrice(symbol: string, data: Json, now: Timestamp,
                          front: string, price: Decimal, back: string)
    requires data.JObj? && QuoteObject(data.fields).JObj?
    requires AllSpace(front) && AllSpace(back)
    requires PriceKey in QuoteFields(data)
    requires QuoteFields(data)[PriceKey] == JStr(front + DecimalText(price) + back)
    requires DayAccepted(data)
    ensures Extract(symbol, data, now).Success?
    ensures Extract(symbol, data, now).value.close == Some(price)
  {
    var f := QuoteFields(data);
    var text := front + DecimalText(price) + back;
    assert PriceKey in f && f[PriceKey] == JStr(text);
    assert Truthy(JStr(text));
    SafeFloatPadded(front, price, back);
  }

  /** A malformed price ("N/A", say) gives `close == None` and the record is still
      produced, with the same raw payload. */
  lemma ExtractNullsMalformedPrice(symbol: string, data: Json, now: Timestamp, text: string, k: nat)
    requires data.JObj? && QuoteObject(data.fields).JObj?
    requires k < |text| && !IsSpace(text[k]) && !IsDigit(text[k]) && text[k] !in "+-."
    requires PriceKey in QuoteFields(data) && QuoteFields(data)[PriceKey] == JStr(text)
    requires DayAccepted(data)
    ensures Extract(symbol, data, now).Success?
    ensures Extract(symbol, data, now).value.close == None
    ensures Extract(symbol, data, now).value.raw == data
  {
    SafeFloatMalformed(text, k);
  }

  /** A quote object with nothing truthy under "06. volume" or "06 volume" still gives a
      record, with `volume == None`. */
  lemma ExtractMissingVolume(symbol: string, data: Json, now: Timestamp)
    requires data.JObj? && QuoteObject(data.fields).JObj?
    requires !TruthyAt(QuoteFields(data), VolumeKey) && !TruthyAt(QuoteFields(data), Remove(VolumeKey, '.'))
    requires DayAccepted(data)
    ensures Extract(symbol, data, now).Success?
    ensures Extract(symbol, data, now).value.volume == None
  {
  }

  /** With a valid trading day, the record is stamped with midnight UTC of that day. */
  lemma ExtractStampsTradingDay(symbol: string, data: Json, now: Timestamp, day: Date)
    requires data.JObj? && QuoteObject(data.fields).JObj?
    requires ValidDate(day)
    requires Getf(QuoteFields(data), TradingDayKey) == Some(JStr(IsoText(day)))
    ensures Extract(symbol, data, now).Success?
    ensures Extract(symbol, data, now).value.fetchedAt == Midnight(day)
  {
    ParseIsoText(day);
  }
}
