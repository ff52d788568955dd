/**
 * JavaScript's global `parseInt(string)` with the radix left undefined, as the
 * game applies it to the text of the input box (ECMA-262, section 19.2.5,
 * "parseInt ( string, radix )"):
 *   1. skip the leading white space and line terminators,
 *   2. take one optional sign, `+` or `-`,
 *   3. take the longest run of decimal digits that follows;
 *   4. an empty run gives NaN (here `None`), otherwise the signed value.
 *
 * Only decimal digits are modelled, with unbounded integers: the `0x`/`0X`
 * prefix that switches an undefined radix to 16 is not, and neither is the
 * loss of precision that a double suffers on very long digit runs.
 */
module JsParseInt {

  datatype Option<T> = None | Some(value: T)

  /** The code points ECMA-262 lets parseInt skip: WhiteSpace (TAB, VT, FF,
      ZWNBSP and every Unicode "Zs" space) and LineTerminator (LF, CR, LS, PS). */
  predicate IsWhiteSpace(c: char) {
    || c == '\t' || c == '\U{000B}' || c == '\U{000C}' || c == ' '
    || c == '\U{00A0}' || c == '\U{FEFF}' || c == '\U{1680}'
    || ('\U{2000}' <= c <= '\U{200A}')
    || c == '\U{202F}' || c == '\U{205F}' || c == '\U{3000}'
    || c == '\n' || c == '\r' || c == '\U{2028}' || c == '\U{2029}'
  }

  predicate IsDigit(c: char) {
    '0' <= c <= '9'
  }

  predicate AllWhiteSpace(s: string) {
    forall i :: 0 <= i < |s| ==> IsWhiteSpace(s[i])
  }

  predicate AllDigits(s: string) {
    forall i :: 0 <= i < |s| ==> IsDigit(s[i])
  }

  /** The sign parseInt accepts in front of the digits: none, `+` or `-`. */
  datatype Sign = Unsigned | Plus | Minus

  function SignText(sign: Sign): (text: string) {
    match sign
    case Unsigned => ""
    case Plus => "+"
    case Minus => "-"
  }

  function DigitValue(c: char): (d: nat)
    requires IsDigit(c)
    ensures d < 10
  {
    (c as int) - ('0' as int)
  }

  function DigitChar(d: nat): (c: char)
    requires d < 10
    ensures IsDigit(c) && DigitValue(c) == d
  {
    (('0' as int) + d) as char
  }

  /** The text that remains once the leading white space is skipped. */
  function TrimStart(s: string): (r: string)
    ensures |r| <= |s| && r == s[|s| - |r|..]
    ensures forall i :: 0 <= i < |s| - |r| ==> IsWhiteSpace(s[i])
    ensures r == [] || !IsWhiteSpace(r[0])
  {
    if s != [] && IsWhiteSpace(s[0]) then TrimStart(s[1..]) else s
  }

  /** The length of the longest prefix of `s` made of decimal digits. */
  function LeadingDigits(s: string): (k: nat)
    ensures k <= |s|
    ensures AllDigits(s[..k])
    ensures k < |s| ==> !IsDigit(s[k])
  {
    if s != [] && IsDigit(s[0]) then 1 + LeadingDigits(s[1..]) else 0
  }

  /** The number a run of decimal digits denotes, most significant digit first. */
  function DigitsValue(ds: string): (m: nat)
    requires AllDigits(ds)
  {
    if ds == [] then 0 else DigitsValue(ds[..|ds| - 1]) * 10 + DigitValue(ds[|ds| - 1])
  }

  function Signed(negative: bool, m: nat): (n: int) {
    if negative then -(m as int) else m
  }

  /** The value of the digits that start `body`, NaN when there are none. */
  function ParseDigits(negative: bool, body: string): (r: Option<int>)
  {
    var k := LeadingDigits(body);
    if k == 0 then None else Some(Signed(negative, DigitsValue(body[..k])))
  }

  /** Steps 2 to 4, on text that no longer starts with white space. */
  function ParseSigned(t: string): (r: Option<int>)
  {
    if t != [] && (t[0] == '+' || t[0] == '-') then ParseDigits(t[0] == '-', t[1..])
    else ParseDigits(false, t)
  }

  /** `parseInt(s)`: `None` stands for NaN. */
  function ParseIntPrefix(s: string): (r: Option<int>)
  {
    ParseSigned(TrimStart(s))
  }

  /** The decimal text of a natural number, without leading zeros. */
  function NatToDecimal(m: nat): (r: string)
    ensures |r| > 0 && AllDigits(r)
    ensures r[0] != '0' || m == 0
  {
    if m < 10 then [DigitChar(m)] else NatToDecimal(m / 10) + [DigitChar(m % 10)]
  }

  /** The sign and magnitude of an integer, as its decimal text writes them. */
  function SignOf(n: int): (sign: Sign) {
    if n < 0 then Minus else Unsigned
  }

  function Magnitude(n: int): (m: nat) {
    if n < 0 then -n else n
  }

  /** The decimal text of an integer, as the history list shows a parsed guess. */
  function ToDecimal(n: int): (r: string)
    ensures |r| > 0
  {
    SignText(SignOf(n)) + NatToDecimal(Magnitude(n))
  }

  lemma {:induction false} TrimStartSkips(ws: string, rest: string)
    requires AllWhiteSpace(ws)
    requires rest == [] || !IsWhiteSpace(rest[0])
    ensures TrimStart(ws + rest) == rest
  {
    if ws == [] {
      assert ws + rest == rest;
    } else {
      assert (ws + rest)[1..] == ws[1..] + rest;
      TrimStartSkips(ws[1..], rest);
    }
  }

  lemma {:induction false} LeadingDigitsStops(ds: string, rest: string)
    requires AllDigits(ds)
    requires rest == [] || !IsDigit(rest[0])
    ensures LeadingDigits(ds + rest) == |ds|
  {
    if ds == [] {
      assert ds + rest == rest;
    } else {
      assert (ds + rest)[1..] == ds[1..] + rest;
      LeadingDigitsStops(ds[1..], rest);
    }
  }

  /** Leading white space does not change what parseInt reads. */
  lemma ParseAfterWhiteSpace(ws: string, t: string)
    requires AllWhiteSpace(ws)
    requires t == [] || !IsWhiteSpace(t[0])
    ensures ParseIntPrefix(ws + t) == ParseSigned(t)
  {
    TrimStartSkips(ws, t);
  }

  lemma ParseDigitsThenRest(negative: bool, ds: string, rest: string)
    requires ds != [] && AllDigits(ds)
    requires rest == [] || !IsDigit(rest[0])
    ensures ParseDigits(negative, ds + rest) == Some(Signed(negative, DigitsValue(ds)))
  {
    LeadingDigitsStops(ds, rest);
    assert (ds + rest)[..|ds|] == ds;
  }

  lemma ParseSignThenDigits(sign: Sign, ds: string, rest: string)
    requires ds != [] && AllDigits(ds)
    requires rest == [] || !IsDigit(rest[0])
    ensures ParseSigned(SignText(sign) + (ds + rest)) == Some(Signed(sign == Minus, DigitsValue(ds)))
  {
    var body := ds + rest;
    ParseDigitsThenRest(sign == Minus, ds, rest);
    if sign == Unsigned {
      assert SignText(sign) + body == body && IsDigit(body[0]);
    } else {
      var t := SignText(sign) + body;
      assert t[0] == (if sign == Plus then '+' else '-') && t[1..] == body;
    }
  }

  /** Every string made of white space, a sign, a non-empty run of digits and
      a tail that does not start with a digit parses to the signed value of the
      digits: the tail is ignored. */
  lemma ParseComposed(ws: string, sign: Sign, ds: string, rest: string)
    requires AllWhiteSpace(ws)
    requires ds != [] && AllDigits(ds)
    requires rest == [] || !IsDigit(rest[0])
    ensures ParseIntPrefix(ws + SignText(sign) + ds + rest)
            == Some(Signed(sign == Minus, DigitsValue(ds)))
  {
    var t := SignText(sign) + (ds + rest);
    assert ws + SignText(sign) + ds + rest == ws + t;
    assert t[0] == if sign == Unsigned then ds[0] else SignText(sign)[0];
    ParseAfterWhiteSpace(ws, t);
    ParseSignThenDigits(sign, ds, rest);
  }

  /** Every string made of white space, a sign and a tail that does not start
      with a digit is NaN, provided the white space and the sign are taken as
      far as they go. */
  lemma ParseRejects(ws: string, sign: Sign, rest: string)
    requires AllWhiteSpace(ws)
    requires sign == Unsigned ==> rest == [] || (!IsWhiteSpace(rest[0]) && rest[0] != '+' && rest[0] != '-')
    requires rest == [] || !IsDigit(rest[0])
    ensures ParseIntPrefix(ws + SignText(sign) + rest) == None
  {
    var t := SignText(sign) + rest;
    assert ws + SignText(sign) + rest == ws + t;
    if sign == Unsigned {
      assert t == rest;
    } else {
      assert t[0] == (if sign == Plus then '+' else '-') && t[1..] == rest;
    }
    ParseAfterWhiteSpace(ws, t);
    assert LeadingDigits(rest) == 0;
  }

  lemma {:induction false} NatToDecimalValue(m: nat)
    ensures DigitsValue(NatToDecimal(m)) == m
  {
    if m >= 10 {
      var r := NatToDecimal(m);
      assert r[..|r| - 1] == NatToDecimal(m / 10);
      NatToDecimalValue(m / 10);
    }
  }

  /** A bare run of digits parses to its value. */
  lemma ParseDigitText(ds: string)
    requires ds != [] && AllDigits(ds)
    ensures ParseIntPrefix(ds) == Some(DigitsValue(ds))
  {
    assert "" + SignText(Unsigned) + ds + "" == ds;
    ParseComposed("", Unsigned, ds, "");
  }

  /** The value of the two digits `d` and `0`. */
  lemma TensDigitsValue(d: nat)
    requires 1 <= d < 10
    ensures DigitsValue([DigitChar(d), '0']) == 10 * d
  {
    var ds := [DigitChar(d), '0'];
    assert ds[..1] == [DigitChar(d)] && ds[..1][..0] == [];
    assert DigitsValue(ds[..1]) == d;
    assert DigitsValue(ds) == DigitsValue(ds[..1]) * 10 + DigitValue('0');
  }

  /** A round number of tens, such as "30", parses to its value. */
  lemma ParseTensText(d: nat)
    requires 1 <= d < 10
    ensures ParseIntPrefix([DigitChar(d), '0']) == Some(10 * d)
  {
    TensDigitsValue(d);
    ParseDigitText([DigitChar(d), '0']);
  }

  /** Reading back the decimal text of any integer gives that integer. */
  lemma ParseToDecimal(n: int)
    ensures ParseIntPrefix(ToDecimal(n)) == Some(n)
  {
    var ds := NatToDecimal(Magnitude(n));
    NatToDecimalValue(Magnitude(n));
    assert "" + SignText(SignOf(n)) + ds + "" == ToDecimal(n);
    ParseComposed("", SignOf(n), ds, "");
  }
}
