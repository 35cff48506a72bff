/**
 * Small string helpers: record ids made of a prefix and a random part, and
 * the conversion of a `#RRGGBB` colour into the `"r, g, b"` triple that CSS
 * `rgba(...)` takes.
 */
module Utils {
  import opened Wrappers
  import opened JsString
  import NumberParse

  /** `generateId(prefix)`; the random part (`createId()`) is a parameter. */
  function GenerateId(prefix: string, randomness: string): (id: string)
    ensures StartsWith(id, prefix + "_")
    ensures id[|prefix| + 1..] == randomness
  {
    prefix + "_" + randomness
  }

  /** `r` is `s` with the occurrence of `c` at `i`, the first one, taken out. */
  predicate RemovedFirstAt(s: string, r: string, c: char, i: int) {
    0 <= i < |s| && s[i] == c && c !in s[..i] && r == s[..i] + s[i + 1..]
  }

  /** `s.replace(c, "")` with a one-character pattern: only the first occurrence goes. */
  function RemoveFirst(s: string, c: char): (r: string)
    ensures c !in s ==> r == s
    ensures c in s ==> exists i :: RemovedFirstAt(s, r, c, i)
  {
    if s == [] then []
    else if s[0] == c then
      assert RemovedFirstAt(s, s[1..], c, 0);
      s[1..]
    else
      var rest := RemoveFirst(s[1..], c);
      if c in s[1..] then
        var i :| RemovedFirstAt(s[1..], rest, c, i);
        assert RemovedFirstAt(s, [s[0]] + rest, c, i + 1) by {
          assert s[..i + 1] == [s[0]] + s[1..][..i];
          assert s[i + 2..] == s[1..][i + 1..];
        }
        [s[0]] + rest
      else
        assert s == [s[0]] + s[1..];
        [s[0]] + rest
  }

  /** `s.slice(start, end)` for non-negative bounds, clamped to the string. */
  function Slice(s: string, start: nat, end: nat): (r: string)
    ensures |r| <= |s|
    ensures end <= |s| && start <= end ==> r == s[start..end]
    ensures start >= |s| || end <= start ==> r == ""
    ensures start < end && start < |s| ==> r == s[start..if end < |s| then end else |s|]
  {
    var a := if start < |s| then start else |s|;
    var b := if end < |s| then end else |s|;
    if a <= b then s[a..b] else ""
  }

  /**
   * `hexToRgb(hex)`: the first `#` removed, then each two-character slice
   * parsed in radix 16 and the three rendered `"r, g, b"`. Six leading
   * hexadecimal digits give their three pair values, whatever follows them;
   * nothing left gives `NaN` three times.
   */
  function HexToRgb(hex: string): (rgb: string)
    ensures var h := RemoveFirst(hex, '#');
      |h| >= 6 && IsHex6(h[..6]) ==>
        rgb == RgbString(Some(PairValue(h[0], h[1])), Some(PairValue(h[2], h[3])), Some(PairValue(h[4], h[5])))
    ensures RemoveFirst(hex, '#') == "" ==> rgb == RgbString(None, None, None)
  {
    RgbOfDigits(RemoveFirst(hex, '#'))
  }

  /** The three slices of `h` parsed and rendered, as `hexToRgb` does once the `#` is gone. */
  function RgbOfDigits(h: string): (rgb: string)
    ensures |h| >= 6 && IsHex6(h[..6]) ==>
      rgb == RgbString(Some(PairValue(h[0], h[1])), Some(PairValue(h[2], h[3])), Some(PairValue(h[4], h[5])))
    ensures h == "" ==> rgb == RgbString(None, None, None)
  {
    var red, green, blue := Slice(h, 0, 2), Slice(h, 2, 4), Slice(h, 4, 6);
    if |h| >= 6 && IsHex6(h[..6]) then
      SixDigitSlices(h);
      ParsePair(h[0], h[1]);
      ParsePair(h[2], h[3]);
      ParsePair(h[4], h[5]);
      RgbString(NumberParse.ParseInt(red, 16), NumberParse.ParseInt(green, 16), NumberParse.ParseInt(blue, 16))
    else if h == "" then
      EmptyIsNaN();
      RgbString(NumberParse.ParseInt(red, 16), NumberParse.ParseInt(green, 16), NumberParse.ParseInt(blue, 16))
    else RgbString(NumberParse.ParseInt(red, 16), NumberParse.ParseInt(green, 16), NumberParse.ParseInt(blue, 16))
  }

  /** Six leading hexadecimal digits: the three slices are their digit pairs. */
  lemma SixDigitSlices(h: string)
    requires |h| >= 6 && IsHex6(h[..6])
    ensures forall k :: 0 <= k < 6 ==> NumberParse.IsDigit(h[k], 16)
    ensures Slice(h, 0, 2) == [h[0], h[1]] && Slice(h, 2, 4) == [h[2], h[3]] && Slice(h, 4, 6) == [h[4], h[5]]
  {
    assert forall k :: 0 <= k < 6 ==> h[..6][k] == h[k];
  }

  /** `parseInt("", 16)` is `NaN`. */
  lemma EmptyIsNaN()
    ensures NumberParse.ParseInt("", 16) == None
  {
    var e: string := "";
    assert TrimStart(e) == e;
    assert NumberParse.SplitSign(e) == (1, e);
    assert NumberParse.StripHexPrefix(e, 16) == e;
    assert NumberParse.DigitRun(e, 16) == 0;
  }

  /** The template `${r}, ${g}, ${b}`. */
  function RgbString(r: Option<int>, g: Option<int>, b: Option<int>): string {
    NumberParse.NumberString(r) + ", " + NumberParse.NumberString(g) + ", " + NumberParse.NumberString(b)
  }

  /** `s` is six hexadecimal digits. */
  predicate IsHex6(s: string) {
    |s| == 6 && forall i :: 0 <= i < 6 ==> NumberParse.IsDigit(s[i], 16)
  }

  /** The value of the hexadecimal digit pair `a b`. */
  function PairValue(a: char, b: char): (v: nat)
    requires NumberParse.IsDigit(a, 16) && NumberParse.IsDigit(b, 16)
    ensures v < 256
  {
    NumberParse.DigitValue(a).value * 16 + NumberParse.DigitValue(b).value
  }

  /** A channel value written as two upper-case hexadecimal digits. */
  function Hex2(v: nat): string
    requires v < 256
  {
    [NumberParse.HexDigit(v / 16), NumberParse.HexDigit(v % 16)]
  }

  /** `parseInt` in radix 16 of two hexadecimal digits is their value. */
  lemma ParsePair(a: char, b: char)
    requires NumberParse.IsDigit(a, 16) && NumberParse.IsDigit(b, 16)
    ensures NumberParse.ParseInt([a, b], 16) == Some(PairValue(a, b))
  {
    var s := [a, b];
    assert !IsWhiteSpace(a);
    assert TrimStart(s) == s;
    assert NumberParse.SplitSign(s) == (1, s);
    assert b != 'x' && b != 'X';
    assert NumberParse.StripHexPrefix(s, 16) == s;
    NumberParse.DigitRunAll(s, 16);
    assert s[..2] == s && s[..1] == [a] && [a][..0] == [];
    assert NumberParse.DigitsValue([a], 16) == NumberParse.DigitValue(a).value;
  }

  /** Rendering a pair's value back in hexadecimal gives the pair, up to letter case. */
  lemma PairRoundTrip(a: char, b: char)
    requires NumberParse.IsDigit(a, 16) && NumberParse.IsDigit(b, 16)
    ensures ToLower(Hex2(PairValue(a, b))) == ToLower([a, b])
  {
    var v := PairValue(a, b);
    assert v / 16 == NumberParse.DigitValue(a).value;
    assert v % 16 == NumberParse.DigitValue(b).value;
  }

  /** `hexToRgb` of `#` and six hexadecimal digits renders the three pair values. */
  lemma HexToRgbChannels(d: string)
    requires IsHex6(d)
    ensures HexToRgb("#" + d) ==
      RgbString(Some(PairValue(d[0], d[1])), Some(PairValue(d[2], d[3])), Some(PairValue(d[4], d[5])))
  {
    var s := "#" + d;
    assert s[0] == '#' && s[1..] == d;
    assert RemoveFirst(s, '#') == d;
    assert d[..6] == d;
  }

  /** Re-rendering the three pair values of six hexadecimal digits gives the digits back, up to letter case. */
  lemma Hex6RoundTrip(d: string)
    requires IsHex6(d)
    ensures ToLower(Hex2(PairValue(d[0], d[1])) + Hex2(PairValue(d[2], d[3])) + Hex2(PairValue(d[4], d[5])))
         == ToLower(d)
  {
    var x, y, z := Hex2(PairValue(d[0], d[1])), Hex2(PairValue(d[2], d[3])), Hex2(PairValue(d[4], d[5]));
    PairRoundTrip(d[0], d[1]);
    PairRoundTrip(d[2], d[3]);
    PairRoundTrip(d[4], d[5]);
    assert d == [d[0], d[1]] + [d[2], d[3]] + [d[4], d[5]];
    ToLowerAppend(x + y, z);
    ToLowerAppend(x, y);
    ToLowerAppend([d[0], d[1]] + [d[2], d[3]], [d[4], d[5]]);
    ToLowerAppend([d[0], d[1]], [d[2], d[3]]);
  }

  /**
   * For `#` followed by six hexadecimal digits, `hexToRgb` yields three
   * channel values in 0..255 whose two-digit hexadecimal renderings give the
   * input digits back, up to letter case.
   */
  lemma HexToRgbSixDigits(d: string)
    requires IsHex6(d)
    ensures exists r: nat, g: nat, b: nat ::
      r < 256 && g < 256 && b < 256
      && HexToRgb("#" + d) == NumberParse.DecimalString(r) + ", " + NumberParse.DecimalString(g)
                              + ", " + NumberParse.DecimalString(b)
      && ToLower(Hex2(r) + Hex2(g) + Hex2(b)) == ToLower(d)
  {
    HexToRgbChannels(d);
    Hex6RoundTrip(d);
    var r, g, b := PairValue(d[0], d[1]), PairValue(d[2], d[3]), PairValue(d[4], d[5]);
    assert r < 256 && g < 256 && b < 256
      && HexToRgb("#" + d) == NumberParse.DecimalString(r) + ", " + NumberParse.DecimalString(g)
                              + ", " + NumberParse.DecimalString(b)
      && ToLower(Hex2(r) + Hex2(g) + Hex2(b)) == ToLower(d);
  }

  /** A slice that starts with `#` holds no digit where parsing starts, so it is `NaN`. */
  lemma HashSliceIsNaN(c: char)
    ensures NumberParse.ParseInt(['#', c], 16) == None
  {
    var red := ['#', c];
    assert !IsWhiteSpace('#');
    assert TrimStart(red) == red;
    assert NumberParse.SplitSign(red) == (1, red);
    assert NumberParse.StripHexPrefix(red, 16) == red;
    assert NumberParse.DigitRun(red, 16) == 0;
  }

  /**
   * Only the first `#` goes: after a doubled `#`, the red slice starts at the
   * second `#` and is `NaN`, and green and blue are read shifted back by one digit.
   */
  lemma SecondHashNotRemoved(d: string)
    requires IsHex6(d)
    ensures HexToRgb("##" + d) ==
      RgbString(None, Some(PairValue(d[1], d[2])), Some(PairValue(d[3], d[4])))
  {
    var s := "##" + d;
    var h := RemoveFirst(s, '#');
    assert s[0] == '#' && s[1..] == "#" + d;
    assert h == "#" + d;
    assert Slice(h, 0, 2) == ['#', d[0]];
    assert Slice(h, 2, 4) == [d[1], d[2]];
    assert Slice(h, 4, 6) == [d[3], d[4]];
    assert HexToRgb(s) == RgbOfDigits(h);
    assert RgbOfDigits(h) == RgbString(NumberParse.ParseInt(Slice(h, 0, 2), 16),
      NumberParse.ParseInt(Slice(h, 2, 4), 16), NumberParse.ParseInt(Slice(h, 4, 6), 16));
    HashSliceIsNaN(d[0]);
    ParsePair(d[1], d[2]);
    ParsePair(d[3], d[4]);
  }
}
