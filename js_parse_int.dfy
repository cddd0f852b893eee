/**
 * The global `parseInt(string)` of ECMAScript 5.1 (section 15.1.2.2), called
 * without a radix, on mathematical integers: leading white space is skipped,
 * one sign is read, a `0x`/`0X` prefix selects radix 16 (radix 10 otherwise),
 * and the longest prefix of digits of that radix is read; no digit at all
 * gives NaN.
 */
module JsParseInt {

  /** What `parseInt` returns: NaN, or an integral number. */
  datatype Number = NaN | Int(value: int)

  /**
   * StrWhiteSpaceChar of ECMAScript 5.1 section 9.3.1: the WhiteSpace
   * characters (tab, vertical tab, form feed, space, no-break space, byte
   * order mark and the other space separators of Unicode category Zs) and the
   * LineTerminator characters (line feed, carriage return, line and paragraph
   * separator).
   */
  predicate IsStrWhiteSpace(c: char) {
    var u := c as int;
    u == 0x09 || u == 0x0B || u == 0x0C || u == 0x20 || u == 0xA0 || u == 0xFEFF
    || u == 0x1680 || (0x2000 <= u <= 0x200A) || u == 0x202F || u == 0x205F || u == 0x3000
    || u == 0x0A || u == 0x0D || u == 0x2028 || u == 0x2029
  }

  /** `s` with its leading white space removed. */
  function TrimStart(s: string): (r: string)
    ensures |r| <= |s| && r == s[|s| - |r|..]
    ensures r == [] || !IsStrWhiteSpace(r[0])
    ensures forall i :: 0 <= i < |s| - |r| ==> IsStrWhiteSpace(s[i])
  {
    if s != [] && IsStrWhiteSpace(s[0]) then TrimStart(s[1..]) else s
  }

  /** The value of a digit character in radix 36 (`0`-`9`, then `a`-`z` or `A`-`Z`); 36 for any other character. */
  function DigitValue(c: char): nat {
    if '0' <= c <= '9' then c as int - '0' as int
    else if 'a' <= c <= 'z' then c as int - 'a' as int + 10
    else if 'A' <= c <= 'Z' then c as int - 'A' as int + 10
    else 36
  }

  /** The longest prefix of `s` made of digits of the given radix. */
  function DigitPrefix(s: string, radix: nat): (r: string)
    ensures |r| <= |s| && r == s[..|r|]
    ensures forall i :: 0 <= i < |r| ==> DigitValue(r[i]) < radix
    ensures |r| < |s| ==> DigitValue(s[|r|]) >= radix
  {
    if s != [] && DigitValue(s[0]) < radix then [s[0]] + DigitPrefix(s[1..], radix) else []
  }

  /** The number that a string of digits denotes in the given radix, most significant digit first. */
  function DigitsValue(ds: string, radix: nat): nat {
    if ds == [] then 0 else DigitsValue(ds[..|ds| - 1], radix) * radix + DigitValue(ds[|ds| - 1])
  }

  predicate HasHexPrefix(s: string) {
    |s| >= 2 && s[0] == '0' && (s[1] == 'x' || s[1] == 'X')
  }

  /**
   * The unsigned part of `parseInt`: an optional `0x`/`0X` prefix selecting
   * radix 16, then the longest run of digits; NaN when that run is empty.
   */
  function ReadMagnitude(u: string): (r: Number)
    ensures r.Int? ==> r.value >= 0
  {
    if HasHexPrefix(u) then ReadDigits(u[2..], 16) else ReadDigits(u, 10)
  }

  /** The longest run of digits of the given radix at the start of `s`, or NaN if there is none. */
  function ReadDigits(s: string, radix: nat): Number {
    var digits := DigitPrefix(s, radix);
    if digits == [] then NaN else Int(DigitsValue(digits, radix))
  }

  /** `parseInt(s)`: leading white space is skipped before the sign. */
  function ParseInt(s: string): Number {
    ParseSigned(TrimStart(s))
  }

  /**
   * `parseInt` skips the white space at the start of `s` and reads the rest
   * from its first character that is not white space.
   */
  lemma ParseIntAfterWhiteSpace(s: string)
    ensures exists k ::
              (0 <= k <= |s| && (forall i :: 0 <= i < k ==> IsStrWhiteSpace(s[i]))
               && (k == |s| || !IsStrWhiteSpace(s[k])) && ParseInt(s) == ParseSigned(s[k..]))
  {
    var t := TrimStart(s);
    var k := |s| - |t|;
    assert t == s[k..];
  }

  /** At most one sign, then the magnitude. */
  function ParseSigned(t: string): Number {
    var negative := t != [] && t[0] == '-';
    var unsigned := if t != [] && (t[0] == '-' || t[0] == '+') then t[1..] else t;
    match ReadMagnitude(unsigned)
    case NaN => NaN
    case Int(v) => Int(if negative then -v else v)
  }

  /** The sign step of `parseInt`: `-` negates the magnitude, `+` keeps it, no sign reads it directly, and an empty string is NaN. */
  lemma ParseSignedCases(t: string)
    ensures t == [] ==> ParseSigned(t) == NaN
    ensures t != [] && t[0] == '-' ==> ParseSigned(t) == Negate(ReadMagnitude(t[1..]))
    ensures t != [] && t[0] == '+' ==> ParseSigned(t) == ReadMagnitude(t[1..])
    ensures t != [] && t[0] != '-' && t[0] != '+' ==> ParseSigned(t) == ReadMagnitude(t)
  {
  }

  /** Unary minus on a `Number`; NaN stays NaN. */
  function Negate(x: Number): Number {
    match x
    case NaN => NaN
    case Int(v) => Int(-v)
  }

  /** The decimal digit for `d`. */
  function DecimalDigit(d: nat): char
    requires d < 10
  {
    ('0' as int + d) as char
  }

  /** The decimal numeral of a natural number, without leading zeros. */
  function NatToDecimal(n: nat): string {
    if n < 10 then [DecimalDigit(n)] else NatToDecimal(n / 10) + [DecimalDigit(n % 10)]
  }

  /** The decimal numeral of an integer, as `String(n)` writes it: a minus sign for negative numbers. */
  function IntToDecimal(n: int): string {
    if n < 0 then "-" + NatToDecimal(-n) else NatToDecimal(n)
  }

  lemma {:induction false} NatToDecimalDigits(n: nat)
    ensures |NatToDecimal(n)| >= 1
    ensures forall i :: 0 <= i < |NatToDecimal(n)| ==> DigitValue(NatToDecimal(n)[i]) < 10
    ensures DigitsValue(NatToDecimal(n), 10) == n
  {
    if n >= 10 {
      NatToDecimalDigits(n / 10);
      var ds := NatToDecimal(n);
      assert ds[..|ds| - 1] == NatToDecimal(n / 10);
    }
  }

  /** The digit prefix of `ds + t` is `ds` itself when `ds` is all digits and `t` does not go on with one. */
  lemma {:induction false} DigitPrefixStops(ds: string, t: string, radix: nat)
    requires forall i :: 0 <= i < |ds| ==> DigitValue(ds[i]) < radix
    requires t == [] || DigitValue(t[0]) >= radix
    ensures DigitPrefix(ds + t, radix) == ds
  {
    if ds != [] {
      assert (ds + t)[1..] == ds[1..] + t;
      DigitPrefixStops(ds[1..], t, radix);
    } else {
      assert ds + t == t;
    }
  }

  /** Leading white space does not change what `parseInt` reads. */
  lemma {:induction false} ParseIntSkipsWhiteSpace(w: string, s: string)
    requires forall i :: 0 <= i < |w| ==> IsStrWhiteSpace(w[i])
    ensures ParseInt(w + s) == ParseInt(s)
  {
    TrimStartSkips(w, s);
  }

  lemma {:induction false} TrimStartSkips(w: string, s: string)
    requires forall i :: 0 <= i < |w| ==> IsStrWhiteSpace(w[i])
    ensures TrimStart(w + s) == TrimStart(s)
  {
    if w != [] {
      assert (w + s)[1..] == w[1..] + s;
      TrimStartSkips(w[1..], s);
    } else {
      assert w + s == s;
    }
  }

  /**
   * `parseInt` reads back the decimal numeral of every integer, also when
   * text follows that does not continue the numeral and does not turn a
   * lone `0` into a hexadecimal prefix (for example `"12px"` or `"12x"`).
   */
  lemma {:induction false} ParseIntDecimal(n: int, t: string)
    requires t == [] || (DigitValue(t[0]) >= 10 && (n != 0 || (t[0] != 'x' && t[0] != 'X')))
    ensures ParseInt(IntToDecimal(n) + t) == Int(n)
  {
    if n < 0 {
      ParseIntNegativeDecimal(n, t);
    } else {
      var u := NatToDecimal(n) + t;
      ReadMagnitudeDecimal(n, t);
      assert IntToDecimal(n) + t == u;
      ParseIntUnsigned(u);
    }
  }

  /** Text that starts with a decimal digit is read as a magnitude. */
  lemma ParseIntUnsigned(u: string)
    requires u != [] && DigitValue(u[0]) < 10
    ensures ParseInt(u) == ReadMagnitude(u)
  {
    TrimStartKeeps(u);
  }

  lemma {:induction false} ParseIntNegativeDecimal(n: int, t: string)
    requires n < 0
    requires t == [] || DigitValue(t[0]) >= 10
    ensures ParseInt(IntToDecimal(n) + t) == Int(n)
  {
    var m: nat := -n;
    var u := NatToDecimal(m) + t;
    assert ReadMagnitude(u) == Int(m) by {
      ReadMagnitudeDecimal(m, t);
    }
    NegativeNumeral(n, t);
    ParseIntNegated(IntToDecimal(n) + t, u, m);
  }

  lemma NegativeNumeral(n: int, t: string)
    requires n < 0
    ensures IntToDecimal(n) + t == ['-'] + (NatToDecimal(-n) + t)
  {
  }

  lemma ParseIntNegated(s: string, u: string, m: int)
    requires s == ['-'] + u
    requires ReadMagnitude(u) == Int(m)
    ensures ParseInt(s) == Int(-m)
  {
    TrimStartKeeps(s);
    ParseSignedMinus(s, u);
  }

  lemma TrimStartKeeps(s: string)
    requires s != [] && (s[0] == '-' || DigitValue(s[0]) < 10)
    ensures TrimStart(s) == s
  {
    assert !IsStrWhiteSpace(s[0]);
  }

  lemma ParseSignedMinus(s: string, u: string)
    requires s == ['-'] + u
    ensures ParseSigned(s) == Negate(ReadMagnitude(u))
  {
    assert s[0] == '-' && s[1..] == u;
  }

  /** The magnitude read from a decimal numeral followed by text that does not continue it. */
  lemma {:induction false} ReadMagnitudeDecimal(m: nat, t: string)
    requires t == [] || (DigitValue(t[0]) >= 10 && (m != 0 || (t[0] != 'x' && t[0] != 'X')))
    ensures |NatToDecimal(m) + t| >= 1 && DigitValue((NatToDecimal(m) + t)[0]) < 10
    ensures ReadMagnitude(NatToDecimal(m) + t) == Int(m)
  {
    var ds := NatToDecimal(m);
    NatToDecimalDigits(m);
    DigitPrefixStops(ds, t, 10);
    assert (ds + t)[0] == ds[0];
    DecimalNoHexPrefix(m, t);
  }

  /** A decimal numeral, followed by such text, does not start with a hexadecimal prefix. */
  lemma {:induction false} DecimalNoHexPrefix(m: nat, t: string)
    requires t == [] || (DigitValue(t[0]) >= 10 && (m != 0 || (t[0] != 'x' && t[0] != 'X')))
    ensures !HasHexPrefix(NatToDecimal(m) + t)
  {
    var ds := NatToDecimal(m);
    var u := ds + t;
    NatToDecimalDigits(m);
    if m >= 10 {
      NatToDecimalDigits(m / 10);
      assert |ds| >= 2;
      assert u[1] == ds[1];
      assert DigitValue(ds[1]) < 10;
    } else if |u| >= 2 {
      assert ds == [DecimalDigit(m)];
      assert u[1] == t[0];
    }
  }

  /**
   * After a `0x` or `0X` prefix, `parseInt` reads hexadecimal digits, up to
   * the first character that is not one (for example `"0x1Ag"` gives 26).
   */
  lemma {:induction false} ReadMagnitudeHex(x: char, ds: string, t: string)
    requires x == 'x' || x == 'X'
    requires ds != [] && forall i :: 0 <= i < |ds| ==> DigitValue(ds[i]) < 16
    requires t == [] || DigitValue(t[0]) >= 16
    ensures ReadMagnitude(['0', x] + ds + t) == Int(DigitsValue(ds, 16))
  {
    var u := ['0', x] + ds + t;
    assert HasHexPrefix(u);
    assert u[2..] == ds + t;
    DigitPrefixStops(ds, t, 16);
  }
}
