/**
 * `parseInt(string, radix)` for radix 10 and 16, as ECMAScript defines it
 * (leading white space, an optional sign, for radix 16 an optional `0x`,
 * then the longest run of digits; no digit at all is `NaN`), and the
 * decimal rendering of an integer that template literals produce.
 * `None` stands for `NaN`.
 */
module NumberParse {
  import opened Wrappers
  import JsString

  /** The value of `c` as a digit in radix 36 (`0-9`, then `a-z` either case), if it is one. */
  function DigitValue(c: char): Option<nat> {
    if '0' <= c <= '9' then Some(c as int - '0' as int)
    else if 'a' <= c <= 'z' then Some(c as int - 'a' as int + 10)
    else if 'A' <= c <= 'Z' then Some(c as int - 'A' as int + 10)
    else None
  }

  /** `c` is a digit of `radix`. */
  predicate IsDigit(c: char, radix: nat) {
    DigitValue(c).Some? && DigitValue(c).value < radix
  }

  /** The length of the longest prefix of `s` made of digits of `radix`. */
  function DigitRun(s: string, radix: nat): (n: nat)
    ensures n <= |s|
    ensures forall i :: 0 <= i < n ==> IsDigit(s[i], radix)
    ensures n < |s| ==> !IsDigit(s[n], radix)
  {
    if s != [] && IsDigit(s[0], radix) then 1 + DigitRun(s[1..], radix) else 0
  }

  /** The value of a run of digits, most significant first. */
  function DigitsValue(ds: string, radix: nat): (v: nat)
    requires radix == 10 || radix == 16
    requires forall i :: 0 <= i < |ds| ==> IsDigit(ds[i], radix)
  {
    if ds == [] then 0
    else
      var init, last := ds[..|ds| - 1], ds[|ds| - 1];
      assert forall i :: 0 <= i < |init| ==> init[i] == ds[i];
      var high := DigitsValue(init, radix);
      assert IsDigit(last, radix);
      high * radix + DigitValue(last).value
  }

  /** The sign and the rest after an optional leading `-` or `+`. */
  function SplitSign(t: string): (int, string) {
    if t != [] && t[0] == '-' then (-1, t[1..])
    else if t != [] && t[0] == '+' then (1, t[1..])
    else (1, t)
  }

  /** `u` without a leading `0x`/`0X`, which radix 16 permits. */
  function StripHexPrefix(u: string, radix: nat): string {
    if radix == 16 && |u| >= 2 && u[0] == '0' && (u[1] == 'x' || u[1] == 'X') then u[2..] else u
  }

  /** `parseInt(s, radix)`; `None` is `NaN`. */
  function ParseInt(s: string, radix: nat): (r: Option<int>)
    requires radix == 10 || radix == 16
    ensures r.None? <==> DigitRun(StripHexPrefix(SplitSign(JsString.TrimStart(s)).1, radix), radix) == 0
  {
    var (sign, u) := SplitSign(JsString.TrimStart(s));
    var v := StripHexPrefix(u, radix);
    var n := DigitRun(v, radix);
    if n == 0 then None else Some(sign * DigitsValue(v[..n], radix))
  }

  /** The decimal digit for `d`. */
  function DigitChar(d: nat): (c: char)
    requires d < 10
    ensures IsDigit(c, 10) && DigitValue(c) == Some(d)
  {
    ('0' as int + d) as char
  }

  /** The upper-case hexadecimal digit for `k`. */
  function HexDigit(k: nat): (c: char)
    requires k < 16
    ensures IsDigit(c, 16) && DigitValue(c) == Some(k)
    ensures ('0' <= c <= '9') || ('A' <= c <= 'F')
  {
    if k < 10 then ('0' as int + k) as char else ('A' as int + k - 10) as char
  }

  /** The decimal digits of `n`, without leading zeros (`"0"` for zero). */
  function NatDigits(n: nat): (s: string)
    ensures |s| >= 1
    ensures forall i :: 0 <= i < |s| ==> IsDigit(s[i], 10)
    decreases n
  {
    if n < 10 then [DigitChar(n)] else NatDigits(n / 10) + [DigitChar(n % 10)]
  }

  /** How a template literal renders an integer: optional `-`, then its decimal digits. */
  function DecimalString(n: int): (s: string)
    ensures |s| >= 1
  {
    if n < 0 then "-" + NatDigits(-n) else NatDigits(n)
  }

  /** How a template literal renders a `parseInt` result: `NaN` for `None`. */
  function NumberString(r: Option<int>): string {
    match r
    case None => "NaN"
    case Some(n) => DecimalString(n)
  }

  /** Reading the decimal digits of `n` gives back `n`. */
  lemma {:induction false} NatDigitsValue(n: nat)
    ensures DigitsValue(NatDigits(n), 10) == n
    decreases n
  {
    var s := NatDigits(n);
    if n >= 10 {
      NatDigitsValue(n / 10);
      assert s[..|s| - 1] == NatDigits(n / 10);
    }
  }

  /** An optional minus in front of a digit run is read as the sign, and the digits are left. */
  lemma SplitSignedDigits(s: string, sign: int, d: string)
    requires |d| >= 1 && IsDigit(d[0], 10)
    requires s == d || s == "-" + d
    requires sign == if s == d then 1 else -1
    ensures SplitSign(JsString.TrimStart(s)) == (sign, d)
  {
    assert !JsString.IsWhiteSpace(s[0]);
    assert JsString.TrimStart(s) == s;
    assert s == "-" + d ==> s[1..] == d;
  }

  /** `parseInt` of an optional sign followed by nothing but decimal digits. */
  lemma ParseSignedDigits(s: string, sign: int, d: string)
    requires |d| >= 1 && forall i :: 0 <= i < |d| ==> IsDigit(d[i], 10)
    requires s == d || s == "-" + d
    requires sign == if s == d then 1 else -1
    ensures ParseInt(s, 10) == Some(sign * DigitsValue(d, 10))
  {
    SplitSignedDigits(s, sign, d);
    assert StripHexPrefix(d, 10) == d;
    DigitRunAll(d, 10);
    assert d[..|d|] == d;
  }

  /** A string made only of digits is one whole run. */
  lemma {:induction false} DigitRunAll(s: string, radix: nat)
    requires forall i :: 0 <= i < |s| ==> IsDigit(s[i], radix)
    ensures DigitRun(s, radix) == |s|
  {
    if s != [] {
      DigitRunAll(s[1..], radix);
    }
  }

  /** Round trip: `parseInt` of the decimal rendering of `n` is `n`. */
  lemma DecimalRoundTrip(n: int)
    ensures ParseInt(DecimalString(n), 10) == Some(n)
  {
    var m: nat := if n < 0 then -n else n;
    var d := NatDigits(m);
    var s := DecimalString(n);
    assert s == if n < 0 then "-" + d else d;
    NatDigitsValue(m);
    if n < 0 {
      ParseSignedDigits(s, -1, d);
    } else {
      ParseSignedDigits(s, 1, d);
    }
  }
}
