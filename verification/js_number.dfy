/** The two number conversions the script uses: `parseInt(txt)` with no
    radix (to recognise a displayed score of zero) and `v.toString()` of
    an integral score (the text typed into the score field). */
module JsNumber {
  import opened Wrappers
  import opened JsText

  /** A digit of base 16; the decimal digits are among them. */
  predicate IsHexDigit(c: char) {
    IsDecimalDigit(c) || ('a' <= c <= 'f') || ('A' <= c <= 'F')
  }

  /** A digit of the radix `parseInt` settled on, 10 or 16. */
  predicate IsRadixDigit(c: char, radix: nat) {
    if radix == 16 then IsHexDigit(c) else IsDecimalDigit(c)
  }

  function DigitValue(c: char): (d: nat)
    requires IsHexDigit(c)
    ensures d < 16
    ensures IsDecimalDigit(c) ==> d < 10
    ensures d == 0 <==> c == '0'
  {
    if IsDecimalDigit(c) then (c as int) - ('0' as int)
    else if 'a' <= c <= 'f' then (c as int) - ('a' as int) + 10
    else (c as int) - ('A' as int) + 10
  }

  /** The length of the longest prefix of `s` made of radix digits. */
  function DigitPrefixLength(s: string, radix: nat): (n: nat)
    ensures n <= |s|
    ensures forall i :: 0 <= i < n ==> IsRadixDigit(s[i], radix)
    ensures n < |s| ==> !IsRadixDigit(s[n], radix)
  {
    if |s| > 0 && IsRadixDigit(s[0], radix) then 1 + DigitPrefixLength(s[1..], radix) else 0
  }

  predicate AllRadixDigits(ds: string, radix: nat) {
    forall i :: 0 <= i < |ds| ==> IsRadixDigit(ds[i], radix)
  }

  /** The value of a digit string, most significant digit first. */
  function ValueOf(ds: string, radix: nat): nat
    requires radix == 10 || radix == 16
    requires AllRadixDigits(ds, radix)
  {
    if ds == [] then 0
    else ValueOf(ds[..|ds| - 1], radix) * radix + DigitValue(ds[|ds| - 1])
  }

  /** What `parseInt` reads from its argument: an optional sign, then (with
      no radix given) an optional `0x`/`0X` prefix choosing base 16, then
      the longest run of digits of that base. */
  datatype Numeral = Numeral(negative: bool, radix: nat, digits: string)

  /** Steps 2 to 11 of `parseInt` in section 19.2.5 of ECMA-262 with an
      undefined radix: skip leading whitespace, read the sign, strip a hex
      prefix, and keep the digits up to the first non-digit. */
  function ScanNumeral(s: string): (m: Numeral)
    ensures m.radix == 10 || m.radix == 16
    ensures AllRadixDigits(m.digits, m.radix)
    ensures m.negative ==> exists i :: 0 <= i < |s| && s[i] == '-'
  {
    var t := TrimStart(s);
    var negative := |t| > 0 && t[0] == '-';
    var u := if |t| > 0 && (t[0] == '-' || t[0] == '+') then t[1..] else t;
    var hex := |u| >= 2 && u[0] == '0' && (u[1] == 'x' || u[1] == 'X');
    var radix := if hex then 16 else 10;
    var body := if hex then u[2..] else u;
    assert negative ==> s[|s| - |t|] == '-';
    Numeral(negative, radix, body[..DigitPrefixLength(body, radix)])
  }

  /** `ws` is all of the leading whitespace of `s`, and `t` the rest. */
  predicate SpaceSplit(s: string, ws: string, t: string) {
    && s == ws + t
    && (forall i :: 0 <= i < |ws| ==> IsWhitespace(ws[i]))
    && (|t| > 0 ==> !IsWhitespace(t[0]))
  }

  /** `sign` is the one optional sign `t` starts with, and `u` the rest. */
  predicate SignSplit(t: string, sign: string, u: string) {
    && t == sign + u
    && (sign == "" || sign == "+" || sign == "-")
    && (sign == "" && |u| > 0 ==> u[0] != '+' && u[0] != '-')
  }

  /** `pre` is the `0x`/`0X` prefix exactly when the radix is 16. */
  predicate PrefixSplit(u: string, pre: string, radix: nat, v: string) {
    && u == pre + v
    && if radix == 16 then pre == "0x" || pre == "0X"
       else radix == 10 && pre == "" && !(|v| >= 2 && v[0] == '0' && (v[1] == 'x' || v[1] == 'X'))
  }

  /** `digits` is the longest run of radix digits `v` starts with. */
  predicate DigitSplit(v: string, radix: nat, digits: string, rest: string) {
    && v == digits + rest
    && AllRadixDigits(digits, radix)
    && (rest == [] || !IsRadixDigit(rest[0], radix))
  }

  /** The text `s` splits as `ws + sign + pre + m.digits + rest` the way
      `parseInt` reads it: whitespace, the optional sign (which alone makes
      the numeral negative), the hex prefix, then the digits. */
  predicate ReadsNumeral(s: string, ws: string, sign: string, pre: string, m: Numeral, rest: string) {
    var v := m.digits + rest;
    var u := pre + v;
    var t := sign + u;
    && SpaceSplit(s, ws, t)
    && SignSplit(t, sign, u)
    && (m.negative <==> sign == "-")
    && PrefixSplit(u, pre, m.radix, v)
    && DigitSplit(v, m.radix, m.digits, rest)
  }

  /** `ScanNumeral` is exactly the numeral `parseInt` reads: the one that
      splits the text as whitespace, sign, prefix, digits and the rest. */
  lemma ScanNumeralSpec(s: string, m: Numeral)
    ensures m == ScanNumeral(s) <==> exists ws, sign, pre, rest :: ReadsNumeral(s, ws, sign, pre, m, rest)
  {
    if m == ScanNumeral(s) {
      ScanNumeralReads(s);
    }
    if ws, sign, pre, rest :| ReadsNumeral(s, ws, sign, pre, m, rest) {
      ReadsNumeralUnique(s, ws, sign, pre, m, rest);
    }
  }

  /** The split `ScanNumeral` makes meets the description. */
  lemma ScanNumeralReads(s: string)
    ensures exists ws, sign, pre, rest :: ReadsNumeral(s, ws, sign, pre, ScanNumeral(s), rest)
  {
    var ws, sign, pre, m, rest := SomeNumeralRead(s);
    ReadsNumeralUnique(s, ws, sign, pre, m, rest);
  }

  /** Every text splits as the description asks. */
  lemma SomeNumeralRead(s: string) returns (ws: string, sign: string, pre: string, m: Numeral, rest: string)
    ensures ReadsNumeral(s, ws, sign, pre, m, rest)
  {
    var t, u, v, radix, digits;
    ws, t := SomeSpaceSplit(s);
    sign, u := SomeSignSplit(t);
    pre, radix, v := SomePrefixSplit(u);
    digits, rest := SomeDigitSplit(v, radix);
    m := Numeral(sign == "-", radix, digits);
  }

  lemma SomeSpaceSplit(s: string) returns (ws: string, t: string)
    ensures SpaceSplit(s, ws, t)
  {
    ws, t := s[..LeadingSpace(s)], TrimStart(s);
    assert s == ws + t;
  }

  lemma SomeSignSplit(t: string) returns (sign: string, u: string)
    ensures SignSplit(t, sign, u)
  {
    if |t| > 0 && (t[0] == '-' || t[0] == '+') {
      sign, u := [t[0]], t[1..];
    } else {
      sign, u := "", t;
    }
    assert t == sign + u;
  }

  lemma SomePrefixSplit(u: string) returns (pre: string, radix: nat, v: string)
    ensures PrefixSplit(u, pre, radix, v)
  {
    if |u| >= 2 && u[0] == '0' && (u[1] == 'x' || u[1] == 'X') {
      pre, radix, v := u[..2], 16, u[2..];
    } else {
      pre, radix, v := "", 10, u;
    }
    assert u == pre + v;
  }

  lemma SomeDigitSplit(v: string, radix: nat) returns (digits: string, rest: string)
    ensures DigitSplit(v, radix, digits, rest)
  {
    var n := DigitPrefixLength(v, radix);
    digits, rest := v[..n], v[n..];
    assert v == digits + rest;
  }

  /** Any split that meets the description gives the numeral `ScanNumeral`
      computes. */
  lemma ReadsNumeralUnique(s: string, ws: string, sign: string, pre: string, m: Numeral, rest: string)
    requires ReadsNumeral(s, ws, sign, pre, m, rest)
    ensures m == ScanNumeral(s)
  {
    var v := m.digits + rest;
    var u := pre + v;
    var t := sign + u;
    SpaceSplitIsTrimStart(s, ws, t);
    SignSplitIsSign(t, sign, u);
    PrefixSplitIsPrefix(u, pre, m.radix, v);
    DigitSplitIsPrefix(v, m.radix, m.digits, rest);
  }

  lemma SpaceSplitIsTrimStart(s: string, ws: string, t: string)
    requires SpaceSplit(s, ws, t)
    ensures t == TrimStart(s)
  {
    assert forall k :: 0 <= k < |ws| ==> s[k] == ws[k];
    assert |ws| < |s| ==> s[|ws|] == t[0];
    assert LeadingSpace(s) == |ws|;
    assert s[|ws|..] == t;
  }

  lemma SignSplitIsSign(t: string, sign: string, u: string)
    requires SignSplit(t, sign, u)
    ensures u == if |t| > 0 && (t[0] == '-' || t[0] == '+') then t[1..] else t
    ensures sign == "-" <==> |t| > 0 && t[0] == '-'
  {
    if sign != "" {
      assert t[0] == sign[0] && t[1..] == u;
    }
  }

  lemma PrefixSplitIsPrefix(u: string, pre: string, radix: nat, v: string)
    requires PrefixSplit(u, pre, radix, v)
    ensures var hex := |u| >= 2 && u[0] == '0' && (u[1] == 'x' || u[1] == 'X');
      && radix == (if hex then 16 else 10)
      && v == (if hex then u[2..] else u)
  {
    if radix == 16 {
      assert u[0] == pre[0] && u[1] == pre[1] && u[2..] == v;
    }
  }

  lemma DigitSplitIsPrefix(v: string, radix: nat, digits: string, rest: string)
    requires DigitSplit(v, radix, digits, rest)
    ensures digits == v[..DigitPrefixLength(v, radix)]
  {
    assert forall k :: 0 <= k < |digits| ==> v[k] == digits[k];
    assert |digits| < |v| ==> v[|digits|] == rest[0];
    assert DigitPrefixLength(v, radix) == |digits|;
    assert v[..|digits|] == digits;
  }

  /** `parseInt(s)`, with `None` for NaN. A negative zero is reported as 0,
      since `-0 === 0`. The exact integer is kept: rounding a huge value to a
      double never turns a nonzero value into zero, so every comparison
      with 0 the script makes is decided the same way. */
  function ParseInt(s: string): (r: Option<int>)
    ensures r.None? <==> ScanNumeral(s).digits == []
    ensures r == Some(0) <==>
      && ScanNumeral(s).digits != []
      && forall i :: 0 <= i < |ScanNumeral(s).digits| ==> ScanNumeral(s).digits[i] == '0'
    ensures r.Some? && r.value < 0 ==> ScanNumeral(s).negative
  {
    var m := ScanNumeral(s);
    if m.digits == [] then None
    else
      ZeroValue(m.digits, m.radix);
      var v: int := ValueOf(m.digits, m.radix);
      Some(if m.negative then -v else v)
  }

  /** A digit string has value zero exactly when every digit is `0`. */
  lemma {:induction false} ZeroValue(ds: string, radix: nat)
    requires radix == 10 || radix == 16
    requires AllRadixDigits(ds, radix)
    ensures ValueOf(ds, radix) == 0 <==> forall i :: 0 <= i < |ds| ==> ds[i] == '0'
  {
    if ds != [] {
      var front := ds[..|ds| - 1];
      assert AllRadixDigits(front, radix) by {
        forall i | 0 <= i < |front| ensures IsRadixDigit(front[i], radix) {
          assert front[i] == ds[i];
        }
      }
      ZeroValue(front, radix);
      assert forall i :: 0 <= i < |front| ==> front[i] == ds[i];
    }
  }

  /** The decimal digit character for `d`. */
  function DigitChar(d: nat): (c: char)
    requires d < 10
    ensures IsDecimalDigit(c) && DigitValue(c) == d
  {
    (('0' as int) + d) as char
  }

  /** The decimal numeral of a natural number, without leading zeros. */
  function NatToString(n: nat): (s: string)
    ensures |s| > 0 && AllRadixDigits(s, 10)
    ensures s[0] == '0' ==> n == 0 && |s| == 1
  {
    if n < 10 then [DigitChar(n)] else NatToString(n / 10) + [DigitChar(n % 10)]
  }

  /** `n.toString()` for an integral Number: the decimal numeral, with a
      leading `-` when negative. */
  function NumberToString(n: int): (s: string)
    ensures |s| > 0
    ensures s[0] == '-' <==> n < 0
    ensures var ds := if n < 0 then s[1..] else s;
            && |ds| > 0 && AllRadixDigits(ds, 10)
            && (ds[0] == '0' ==> n == 0 && |ds| == 1)
  {
    if n < 0 then "-" + NatToString(-n) else NatToString(n)
  }

  lemma {:induction false} NatToStringValue(n: nat)
    ensures ValueOf(NatToString(n), 10) == n
  {
    if n >= 10 {
      var s := NatToString(n);
      NatToStringValue(n / 10);
      assert s[..|s| - 1] == NatToString(n / 10);
    }
  }

  /** What `parseInt` reads from `n.toString()`: the sign of `n` and the
      decimal digits of its magnitude, with no hex prefix. */
  lemma ScanNumberToString(n: int)
    ensures ScanNumeral(NumberToString(n)) == Numeral(n < 0, 10, NatToString(if n < 0 then -n else n))
  {
    var s := NumberToString(n);
    var u := NatToString(if n < 0 then -n else n);
    assert LeadingSpace(s) == 0 by {
      assert !IsWhitespace(s[0]);
    }
    assert TrimStart(s) == s;
    if n < 0 {
      assert s[0] == '-' && s[1..] == u;
    } else {
      assert s == u && IsDecimalDigit(s[0]);
    }
    assert !(|u| >= 2 && u[0] == '0');
    AllDigitsPrefix(u);
  }

  /** A string of decimal digits is read to its end. */
  lemma AllDigitsPrefix(u: string)
    requires AllRadixDigits(u, 10)
    ensures u[..DigitPrefixLength(u, 10)] == u
  {
    assert DigitPrefixLength(u, 10) == |u|;
  }

  /** Reading back a typed score: `parseInt` of `n.toString()` is `n`. */
  lemma ParseIntOfNumberToString(n: int)
    ensures ParseInt(NumberToString(n)) == Some(n)
  {
    ScanNumberToString(n);
    NatToStringValue(if n < 0 then -n else n);
  }
}
