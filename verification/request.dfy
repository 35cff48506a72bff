/**
 * What the route handlers read from a request: query parameters, the paging
 * values `parseInt` makes of them, and the JSON body.
 */
module Request {
  import opened Wrappers
  import Js
  import NumberParse
  import JsString
  import Api

  /** `searchParams.get(name) || fallback`: an absent or empty parameter gives the fallback. */
  function ParamOr(param: Option<string>, fallback: string): (s: string)
    ensures param.Some? && param.value != "" ==> s == param.value
    ensures param.None? || param.value == "" ==> s == fallback
  {
    if param.Some? && param.value != "" then param.value else fallback
  }

  /** `parseInt(searchParams.get(name) || fallback, 10)`; `None` is `NaN`. */
  function PagingValue(param: Option<string>, fallback: string): (r: Option<int>)
    ensures param.Some? && param.value != "" ==> r == NumberParse.ParseInt(param.value, 10)
    ensures param.None? || param.value == "" ==> r == NumberParse.ParseInt(fallback, 10)
  {
    NumberParse.ParseInt(ParamOr(param, fallback), 10)
  }

  /** An absent paging parameter takes its default value. */
  lemma DefaultPaging(fallback: nat)
    ensures PagingValue(None, NumberParse.DecimalString(fallback)) == Some(fallback)
  {
    NumberParse.DecimalRoundTrip(fallback);
  }

  /** The default paging text `"0"` reads as 0. */
  lemma DefaultZero()
    ensures PagingValue(None, "0") == Some(0)
  {
    var d := "0";
    assert ParamOr(None, d) == d;
    assert !JsString.IsWhiteSpace(d[0]);
    assert JsString.TrimStart(d) == d;
    assert NumberParse.SplitSign(d) == (1, d);
    assert NumberParse.StripHexPrefix(d, 10) == d;
    assert NumberParse.DigitRun(d, 10) == 1;
    assert d[..1] == d;
    assert NumberParse.DigitsValue(d, 10) == 0;
  }

  /** The default paging text `"10"` reads as 10. */
  lemma DefaultTen()
    ensures PagingValue(None, "10") == Some(10)
  {
    var d := "10";
    assert ParamOr(None, d) == d;
    assert !JsString.IsWhiteSpace(d[0]);
    assert JsString.TrimStart(d) == d;
    assert NumberParse.SplitSign(d) == (1, d);
    assert NumberParse.StripHexPrefix(d, 10) == d;
    assert NumberParse.DigitRun(d[1..], 10) == 1;
    assert NumberParse.DigitRun(d, 10) == 2;
    assert d[..2] == d && d[..1] == "1";
    assert NumberParse.DigitsValue(d, 10) == 10;
  }

  /** The default paging text `"50"` reads as 50. */
  lemma DefaultFifty()
    ensures PagingValue(None, "50") == Some(50)
  {
    var d := "50";
    assert ParamOr(None, d) == d;
    assert !JsString.IsWhiteSpace(d[0]);
    assert JsString.TrimStart(d) == d;
    assert NumberParse.SplitSign(d) == (1, d);
    assert NumberParse.StripHexPrefix(d, 10) == d;
    assert NumberParse.DigitRun(d[1..], 10) == 1;
    assert NumberParse.DigitRun(d, 10) == 2;
    assert d[..2] == d && d[..1] == "5";
    assert NumberParse.DigitsValue(d, 10) == 50;
  }

  /** A non-numeric paging parameter such as `abc` parses to `NaN`. */
  lemma NonNumericIsNaN()
    ensures PagingValue(Some("abc"), "10") == None
  {
    var s := "abc";
    assert ParamOr(Some(s), "10") == s;
    assert !JsString.IsWhiteSpace(s[0]);
    assert JsString.TrimStart(s) == s;
    assert NumberParse.SplitSign(s) == (1, s);
    assert NumberParse.StripHexPrefix(s, 10) == s;
    assert NumberParse.DigitValue(s[0]) == Some(10);
    assert NumberParse.DigitRun(s, 10) == 0;
  }

  /** The request body: parsed JSON, or the parser's error message. */
  datatype Body = Parsed(value: Js.Value) | Malformed(error: string)

  /** Runtime error text for destructuring fields out of a `null` body. */
  const DestructureNull: string := "Cannot destructure property of 'body' as it is null."

  /**
   * The paging guards both list handlers run, in order: `limit < 1`, then
   * `offset < 0`. `NaN` compares false, so a value that does not parse passes.
   */
  function PagingError(limit: Option<int>, offset: Option<int>): (e: Option<string>)
    ensures e.None? <==> (limit.None? || limit.value >= 1) && (offset.None? || offset.value >= 0)
    ensures limit.Some? && limit.value < 1 ==> e == Some("limit can't be less than 1")
    ensures (limit.None? || limit.value >= 1) && offset.Some? && offset.value < 0 ==> e == Some("offset can't be less than 0")
  {
    if limit.Some? && limit.value < 1 then Some("limit can't be less than 1")
    else if offset.Some? && offset.value < 0 then Some("offset can't be less than 0")
    else None
  }

  /** The database's refusal of a `NaN` `skip` or `take`; the text stands in for the client library's. */
  const NaNPaging: string := "Invalid value provided for skip or take: expected Int, provided NaN."

  /** `stored` is what `sent?.trim() || null` gives for a string or nullish `sent`. */
  predicate NormalisedText(sent: Js.Value, stored: Option<string>) {
    match stored
    case None => Js.IsNullish(sent) || (sent.Str? && JsString.Trim(sent.s) == "")
    case Some(t) => sent.Str? && t == JsString.Trim(sent.s) && t != ""
  }

  /** Runtime error text for calling `trim` on a value that has none. */
  function TrimNotAFunction(field: string): string {
    field + "?.trim is not a function"
  }

  /**
   * `sent?.trim() || null` for the field `field`: nothing for a nullish
   * value, the trimmed string unless it is empty, and a `TypeError` for any
   * other value (`false`, `0`, `NaN` pass the handlers' truthiness checks).
   */
  function TrimOrNull(field: string, sent: Js.Value): (r: Api.Outcome<Option<string>>)
    ensures r.Done? <==> Js.IsNullish(sent) || sent.Str?
    ensures r.Done? ==> NormalisedText(sent, r.value)
    ensures r.Threw? ==> r.thrown == Api.ThrownError(TrimNotAFunction(field))
  {
    if Js.IsNullish(sent) then Api.Done(None)
    else if sent.Str? then
      var t := JsString.Trim(sent.s);
      Api.Done(if t == "" then None else Some(t))
    else Api.Threw(Api.ThrownError(TrimNotAFunction(field)))
  }
}
