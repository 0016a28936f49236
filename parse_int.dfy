/**
 * The global `parseInt(string)` of ECMA-262 (section 19.2.5, "parseInt
 * ( string, radix )") with the radix left undefined, as the `statusmod`
 * command uses it on its first argument. Results are unbounded integers;
 * the IEEE-754 rounding of very long digit strings is not modelled.
 */
module EcmaParseInt {
  import opened Text

  /** A Number that `parseInt` can produce: NaN or an integral value. */
  datatype Number = NaN | Int(value: int)

  /**
   * StrWhiteSpaceChar of ECMA-262: the WhiteSpace code points (tab,
   * vertical tab, form feed, space, no-break space, zero-width no-break
   * space and the other Unicode "Zs" space separators) and the
   * LineTerminator code points (line feed, carriage return, line and
   * paragraph separators).
   */
  predicate IsStrWhiteSpace(c: char)
  {
    var u := c as int;
    u == 0x09 || u == 0x0A || u == 0x0B || u == 0x0C || u == 0x0D || u == 0x20
    || u == 0xA0 || u == 0x1680 || (0x2000 <= u <= 0x200A) || u == 0x2028
    || u == 0x2029 || u == 0x202F || u == 0x205F || u == 0x3000 || u == 0xFEFF
  }

  /** Step 2 of the algorithm: drop the leading white space. */
  function TrimStart(s: string): (r: string)
    ensures |r| <= |s| && r == s[|s| - |r|..]
    ensures |r| > 0 ==> !IsStrWhiteSpace(r[0])
    ensures forall j :: 0 <= j < |s| - |r| ==> IsStrWhiteSpace(s[j])
  {
    if |s| > 0 && IsStrWhiteSpace(s[0]) then TrimStart(s[1..]) else s
  }

  predicate IsDecimalDigit(c: char)
  {
    '0' <= c <= '9'
  }

  /** A digit of the radix (10 or 16), in either letter case for 16. */
  predicate IsRadixDigit(c: char, radix: nat)
  {
    IsDecimalDigit(c) || (radix == 16 && ('a' <= c <= 'f' || 'A' <= c <= 'F'))
  }

  function DigitValue(c: char, radix: nat): (d: nat)
    requires IsRadixDigit(c, radix)
    ensures d < radix || (radix < 10 && IsDecimalDigit(c))
  {
    if IsDecimalDigit(c) then c as int - '0' as int
    else if 'a' <= c <= 'f' then c as int - 'a' as int + 10
    else c as int - 'A' as int + 10
  }

  /** Step 11: the longest prefix of `s` made of digits of the radix. */
  function DigitPrefix(s: string, radix: nat): (z: string)
    ensures |z| <= |s| && z == s[..|z|]
    ensures forall j :: 0 <= j < |z| ==> IsRadixDigit(z[j], radix)
    ensures |z| < |s| ==> !IsRadixDigit(s[|z|], radix)
  {
    if |s| > 0 && IsRadixDigit(s[0], radix) then [s[0]] + DigitPrefix(s[1..], radix) else ""
  }

  /** The mathematical value of a digit string, most significant digit first. */
  function DigitsValue(z: string, radix: nat): nat
    requires forall j :: 0 <= j < |z| ==> IsRadixDigit(z[j], radix)
  {
    if |z| == 0 then 0
    else DigitsValue(z[..|z| - 1], radix) * radix + DigitValue(z[|z| - 1], radix)
  }

  /** True when `u` opens with the "0x" or "0X" prefix of step 10. */
  predicate HasHexPrefix(u: string)
  {
    |u| >= 2 && u[0] == '0' && (u[1] == 'x' || u[1] == 'X')
  }

  /**
   * `parseInt(s)`: skip white space, take one optional sign, let a
   * "0x"/"0X" prefix select radix 16 (radix 10 otherwise), and read the
   * longest run of digits; no digits at all gives NaN. A negative zero is
   * the integer zero here.
   */
  function ParseInt(s: string): (r: Number)
    ensures (forall j :: 0 <= j < |s| ==> !IsDecimalDigit(s[j])) ==> r == NaN
    ensures r.Int? && r.value < 0 ==> '-' in s
  {
    NoDigitStages(s);
    ParseSigned(TrimStart(s))
  }

  /** Steps 3 to 5: one optional sign in front of the magnitude. */
  function ParseSigned(t: string): (r: Number)
    ensures r.Int? && r.value < 0 ==> |t| > 0 && t[0] == '-'
  {
    if |t| > 0 && t[0] == '-' then Negate(ParseMagnitude(t[1..]))
    else if |t| > 0 && t[0] == '+' then ParseMagnitude(t[1..])
    else ParseMagnitude(t)
  }

  function Negate(n: Number): Number
  {
    match n
    case NaN => NaN
    case Int(v) => Int(-v)
  }

  /** Steps 6 to 15 with the radix undefined: radix 16 after "0x", else 10. */
  function ParseMagnitude(u: string): (r: Number)
    ensures r.Int? ==> r.value >= 0
    ensures !HasHexPrefix(u) ==> (r.NaN? <==> |u| == 0 || !IsDecimalDigit(u[0]))
  {
    if HasHexPrefix(u) then DigitsNumber(u[2..], 16) else DigitsNumber(u, 10)
  }

  /** The value of the longest digit prefix, or NaN when it is empty. */
  function DigitsNumber(v: string, radix: nat): (r: Number)
    ensures r.Int? ==> r.value >= 0
    ensures r.NaN? <==> |v| == 0 || !IsRadixDigit(v[0], radix)
  {
    var z := DigitPrefix(v, radix);
    if |z| == 0 then NaN else Int(DigitsValue(z, radix))
  }

  /** The stages of `parseInt` find no number in a string without decimal digits. */
  lemma NoDigitStages(s: string)
    ensures (forall j :: 0 <= j < |s| ==> !IsDecimalDigit(s[j])) ==> ParseSigned(TrimStart(s)) == NaN
    ensures var r := ParseSigned(TrimStart(s)); r.Int? && r.value < 0 ==> '-' in s
  {
    var t := TrimStart(s);
    MinusKept(s, t);
    if forall j :: 0 <= j < |s| ==> !IsDecimalDigit(s[j]) {
      NoDigitSuffix(s, t);
    }
  }

  lemma MinusKept(s: string, t: string)
    requires |t| <= |s| && t == s[|s| - |t|..]
    ensures var r := ParseSigned(t); r.Int? && r.value < 0 ==> '-' in s
  {
    if |t| > 0 {
      assert t[0] == s[|s| - |t|];
    }
  }

  lemma NoDigitSuffix(s: string, t: string)
    requires forall j :: 0 <= j < |s| ==> !IsDecimalDigit(s[j])
    requires |t| <= |s| && t == s[|s| - |t|..]
    ensures ParseSigned(t) == NaN
  {
    assert forall j :: 0 <= j < |t| ==> !IsDecimalDigit(t[j]) by {
      forall j | 0 <= j < |t| ensures !IsDecimalDigit(t[j]) {
        assert t[j] == s[|s| - |t| + j];
      }
    }
    NoDigitMagnitude(t);
    if |t| > 0 && (t[0] == '+' || t[0] == '-') {
      NoDigitMagnitude(t[1..]);
    }
  }

  /** Reading back the decimal rendering of a number gives that number. */
  lemma {:induction false} DecimalValue(k: nat)
    ensures DigitsValue(DecimalString(k), 10) == k
  {
    if k >= 10 {
      DecimalValue(k / 10);
      var r := DecimalString(k);
      assert r[..|r| - 1] == DecimalString(k / 10);
    }
  }

  /** A digit prefix stops exactly at the end of an all-digit string. */
  lemma {:induction false} DigitPrefixOfDigits(z: string, rest: string, radix: nat)
    requires forall j :: 0 <= j < |z| ==> IsRadixDigit(z[j], radix)
    requires |rest| == 0 || !IsRadixDigit(rest[0], radix)
    ensures DigitPrefix(z + rest, radix) == z
    decreases |z|
  {
    if |z| == 0 {
      assert z + rest == rest;
    } else {
      assert (z + rest)[1..] == z[1..] + rest;
      DigitPrefixOfDigits(z[1..], rest, radix);
      assert z == [z[0]] + z[1..];
    }
  }

  /** The magnitude read from a decimal rendering followed by a non-digit. */
  lemma DecimalMagnitude(k: nat, rest: string)
    requires |rest| == 0 || !IsDecimalDigit(rest[0])
    requires k == 0 ==> |rest| == 0 || (rest[0] != 'x' && rest[0] != 'X')
    ensures ParseMagnitude(DecimalString(k) + rest) == Int(k)
  {
    var d := DecimalString(k);
    var s := d + rest;
    assert s[0] == d[0];
    assert !HasHexPrefix(s);
    DigitPrefixOfDigits(d, rest, 10);
    DecimalValue(k);
  }

  /** `parseInt` leaves a string that opens with a digit as it is until the magnitude. */
  lemma DigitFirst(s: string)
    requires |s| > 0 && IsDecimalDigit(s[0])
    ensures ParseInt(s) == ParseMagnitude(s)
  {
    assert !IsStrWhiteSpace(s[0]);
    assert TrimStart(s) == s;
  }

  /**
   * `parseInt` reads the decimal rendering of `k` back as `k`, whatever
   * follows it, provided what follows does not start with a digit and does
   * not turn a lone "0" into the "0x" prefix. So "1abc" parses as 1.
   */
  lemma DecimalRoundTrip(k: nat, rest: string)
    requires |rest| == 0 || !IsDecimalDigit(rest[0])
    requires k == 0 ==> |rest| == 0 || (rest[0] != 'x' && rest[0] != 'X')
    ensures ParseInt(DecimalString(k) + rest) == Int(k)
  {
    DecimalMagnitude(k, rest);
    DigitFirst(DecimalString(k) + rest);
  }

  /** Leading white space does not change what `parseInt` reads. */
  lemma {:induction false} LeadingWhiteSpaceIgnored(w: string, s: string)
    requires forall j :: 0 <= j < |w| ==> IsStrWhiteSpace(w[j])
    ensures ParseInt(w + s) == ParseInt(s)
    decreases |w|
  {
    if |w| == 0 {
      assert w + s == s;
    } else {
      assert (w + s)[1..] == w[1..] + s;
      LeadingWhiteSpaceIgnored(w[1..], s);
    }
  }

  /** A minus sign in front negates whatever magnitude follows it. */
  lemma MinusSign(s: string)
    ensures ParseInt("-" + s) == Negate(ParseMagnitude(s))
  {
    SignFirst("-", s);
  }

  /** A plus sign in front is dropped, whatever follows it. */
  lemma PlusSign(s: string)
    ensures ParseInt("+" + s) == ParseMagnitude(s)
  {
    SignFirst("+", s);
  }

  /** So a minus sign before a decimal rendering negates that number, whatever non-digit text follows. */
  lemma NegativeDecimal(k: nat, rest: string)
    requires |rest| == 0 || !IsDecimalDigit(rest[0])
    requires k == 0 ==> |rest| == 0 || (rest[0] != 'x' && rest[0] != 'X')
    ensures ParseInt("-" + DecimalString(k) + rest) == Int(-(k as int))
  {
    var d := DecimalString(k);
    DecimalMagnitude(k, rest);
    assert "-" + d + rest == "-" + (d + rest);
    MinusSign(d + rest);
  }

  /** And a plus sign before a decimal rendering leaves that number, whatever non-digit text follows. */
  lemma PositiveDecimal(k: nat, rest: string)
    requires |rest| == 0 || !IsDecimalDigit(rest[0])
    requires k == 0 ==> |rest| == 0 || (rest[0] != 'x' && rest[0] != 'X')
    ensures ParseInt("+" + DecimalString(k) + rest) == Int(k)
  {
    var d := DecimalString(k);
    DecimalMagnitude(k, rest);
    assert "+" + d + rest == "+" + (d + rest);
    PlusSign(d + rest);
  }

  /** `parseInt` leaves a string that opens with a sign as it is until the sign is read. */
  lemma SignFirst(sign: string, d: string)
    requires sign == "-" || sign == "+"
    ensures ParseInt(sign + d) == ParseSigned(sign + d)
    ensures (sign + d)[1..] == d
  {
    assert (sign + d)[0] == sign[0];
    assert !IsStrWhiteSpace(sign[0]);
    assert TrimStart(sign + d) == sign + d;
    assert (sign + d)[1..] == d;
  }

  lemma NoDigitMagnitude(u: string)
    requires forall j :: 0 <= j < |u| ==> !IsDecimalDigit(u[j])
    ensures ParseMagnitude(u) == NaN
  {
    assert !HasHexPrefix(u);
    assert |DigitPrefix(u, 10)| == 0;
  }

  /** After a "0x" or "0X" prefix the digits are read in radix 16. */
  lemma HexPrefixed(x: char, v: string)
    requires x == 'x' || x == 'X'
    ensures ParseInt(['0', x] + v) == DigitsNumber(v, 16)
  {
    var s := ['0', x] + v;
    DigitFirst(s);
    assert HasHexPrefix(s);
    assert s[2..] == v;
  }

  /** The hexadecimal digits "1F" are worth 31. */
  lemma HexDigitsExample()
    ensures DigitsNumber("1F", 16) == Int(31)
  {
    var v := "1F";
    assert DigitPrefix(v, 16) == v by {
      DigitPrefixOfDigits(v, "", 16);
      assert v + "" == v;
    }
    assert DigitsValue(v, 16) == 31 by {
      assert v[..1] == "1" && v[..1][..0] == "";
      assert DigitValue(v[1], 16) == 15;
      assert DigitsValue(v[..1], 16) == 1;
    }
  }

  /** The "0x" prefix selects radix 16, in either letter case. */
  lemma HexExample()
    ensures ParseInt("0x1F") == Int(31)
    ensures ParseInt("0X1F") == Int(31)
  {
    HexPrefixed('x', "1F");
    HexPrefixed('X', "1F");
    assert ['0', 'x'] + "1F" == "0x1F";
    assert ['0', 'X'] + "1F" == "0X1F";
    HexDigitsExample();
  }

  /** A "0x" or "0X" prefix with no hexadecimal digit after it gives NaN, so "0x" and "0xg" read as NaN. */
  lemma BareHexPrefix(x: char, rest: string)
    requires x == 'x' || x == 'X'
    requires |rest| == 0 || !IsRadixDigit(rest[0], 16)
    ensures ParseInt(['0', x] + rest) == NaN
  {
    HexPrefixed(x, rest);
  }

  /** White space before a sign is skipped: " \t-12" reads as -12. */
  lemma WhiteSpaceBeforeSign(w: string, k: nat)
    requires forall j :: 0 <= j < |w| ==> IsStrWhiteSpace(w[j])
    ensures ParseInt(w + "-" + DecimalString(k)) == Int(-(k as int))
  {
    var d := DecimalString(k);
    assert w + "-" + d == w + ("-" + d);
    LeadingWhiteSpaceIgnored(w, "-" + d);
    NegativeDecimal(k, "");
    assert "-" + d + "" == "-" + d;
  }
}
