/** Decimal text of any precision, the integer it denotes at a scale, and that integer's bytes. */
module Decimal {
  import opened Common
  import opened BigEndian
  import opened BinaryIr

  predicate IsDigit(c: char) {
    '0' <= c <= '9'
  }

  predicate AllDigits(s: string) {
    forall i :: 0 <= i < |s| ==> IsDigit(s[i])
  }

  function DigitOf(d: nat): (c: char)
    requires d < 10
    ensures IsDigit(c)
  {
    '0' + d as char
  }

  function DigitValue(c: char): (d: nat)
    requires IsDigit(c)
    ensures d < 10 && DigitOf(d) == c
  {
    (c - '0') as nat
  }

  /** A natural number in decimal, without leading zeros. */
  function ToDigits(n: nat): (s: string)
    ensures s != [] && AllDigits(s)
  {
    if n < 10 then [DigitOf(n)] else ToDigits(n / 10) + [DigitOf(n % 10)]
  }

  function FromDigits(s: string): nat
    requires AllDigits(s)
  {
    if s == [] then 0 else FromDigits(s[..|s| - 1]) * 10 + DigitValue(s[|s| - 1])
  }

  function Zeros(n: nat): (s: string)
    ensures |s| == n && AllDigits(s)
    ensures forall i :: 0 <= i < n ==> s[i] == '0'
  {
    seq(n, _ => '0')
  }

  function Pow10(k: nat): nat {
    if k == 0 then 1 else 10 * Pow10(k - 1)
  }

  /** The position of the first `c`, or the length. */
  function IndexOf(s: string, c: char): (n: nat)
    ensures n <= |s|
    ensures n < |s| ==> s[n] == c
    ensures forall i :: 0 <= i < n ==> s[i] != c
  {
    if s == [] then 0 else if s[0] == c then 0 else 1 + IndexOf(s[1..], c)
  }

  // ---- parsing and printing --------------------------------------------------------------------------

  function Negative(s: string): bool {
    s != [] && s[0] == '-'
  }

  function WithoutSign(s: string): string {
    if Negative(s) then s[1..] else s
  }

  function IntegerPart(u: string): string {
    u[..IndexOf(u, '.')]
  }

  function FractionPart(u: string): string {
    if IndexOf(u, '.') < |u| then u[IndexOf(u, '.') + 1..] else ""
  }

  function AllZero(s: string): bool {
    forall i :: 0 <= i < |s| ==> s[i] == '0'
  }

  /** The position of the first digit that is not zero; of the last digit when all are. */
  function FirstSignificant(s: string): (n: nat)
    requires s != []
    ensures n < |s|
  {
    if s[0] != '0' || |s| == 1 then 0 else 1 + FirstSignificant(s[1..])
  }

  /** `parse_decimal`: precision and scale of a canonical decimal. */
  function ParseDecimal(s: string): Option<Precision> {
    var u := WithoutSign(s);
    var integer, fraction := IntegerPart(u), FractionPart(u);
    if u == [] || u[0] == '+' then None
    else if '.' in fraction then None
    else if integer == [] || !AllDigits(integer) then None
    else if |integer| > 1 && integer[0] == '0' then None
    else if '.' in u && (fraction == [] || !AllDigits(fraction)) then None
    else if |fraction| > U32_MAX then None
    else
      var digits := integer + fraction;
      var precision := |digits| - FirstSignificant(digits);
      if precision > U32_MAX then None
      else if Negative(s) && AllZero(digits) then None
      else Some(Precision(precision, |fraction|))
  }

  /** The big-integer parser on plain digits; `other` is what it does with anything else. */
  function ParseBig(other: string -> Option<int>, s: string): Option<int> {
    if s != [] && AllDigits(s) then Some(FromDigits(s)) else other(s)
  }

  /** `decimal_to_unscaled`. */
  function ToUnscaled(other: string -> Option<int>, s: string, scale: nat): Option<int> {
    var u := WithoutSign(s);
    var integer, fraction := IntegerPart(u), FractionPart(u);
    var length := |fraction| % 0x1_0000_0000;
    if length > scale then None
    else
      match ParseBig(other, integer + fraction + Zeros(scale - length))
      case None => None
      case Some(n) => Some(if Negative(s) then -n else n)
  }

  function Magnitude(n: int): nat {
    if n < 0 then -n else n
  }

  /** The text after the sign: the last `scale` digits behind a point, after zeros where there are too few. */
  function Body(n: int, scale: nat): string {
    var digits := ToDigits(Magnitude(n));
    if scale == 0 then digits
    else if |digits| > scale then digits[..|digits| - scale] + ("." + digits[|digits| - scale..])
    else "0" + ("." + (Zeros(scale - |digits|) + digits))
  }

  /** `unscaled_to_decimal_string`. */
  function ToText(n: int, scale: nat): string {
    (if n < 0 then "-" else "") + Body(n, scale)
  }

  // ---- digits ------------------------------------------------------------------------------------------

  lemma {:induction false} Pow10Positive(k: nat)
    ensures Pow10(k) >= 1
  {
    if k > 0 { Pow10Positive(k - 1); }
  }

  lemma {:induction false} DigitsRoundTrip(n: nat)
    ensures FromDigits(ToDigits(n)) == n
    ensures n > 0 ==> ToDigits(n)[0] != '0'
  {
    var s := ToDigits(n);
    if n < 10 {
      assert s[..0] == [] && FromDigits([]) == 0;
    } else {
      DigitsRoundTrip(n / 10);
      assert s[..|s| - 1] == ToDigits(n / 10);
    }
  }

  lemma {:induction false} LeadingZero(s: string)
    requires AllDigits(s)
    ensures FromDigits("0" + s) == FromDigits(s)
    decreases |s|
  {
    var all := "0" + s;
    if s == [] {
      assert all == "0" && all[..0] == [];
    } else {
      LeadingZero(s[..|s| - 1]);
      assert all[..|all| - 1] == "0" + s[..|s| - 1];
    }
  }

  lemma {:induction false} LeadingZeros(n: nat, s: string)
    requires AllDigits(s)
    ensures FromDigits(Zeros(n) + s) == FromDigits(s)
    decreases n
  {
    if n == 0 {
      assert Zeros(0) + s == s;
    } else {
      LeadingZeros(n - 1, s);
      LeadingZero(Zeros(n - 1) + s);
      assert Zeros(n) + s == "0" + (Zeros(n - 1) + s);
    }
  }

  /** Digits without a leading zero denote a number that prints as them. */
  lemma {:induction false} CanonicalDigits(s: string)
    requires s != [] && AllDigits(s) && (|s| == 1 || s[0] != '0')
    ensures ToDigits(FromDigits(s)) == s
    ensures s[0] != '0' ==> FromDigits(s) > 0
    decreases |s|
  {
    var init, last := s[..|s| - 1], s[|s| - 1];
    if |s| == 1 {
      assert init == [] && FromDigits([]) == 0;
    } else {
      CanonicalDigits(init);
      assert s == init + [last];
    }
  }

  /** Any digits denote a number that prints as what remains from the first significant one. */
  lemma {:induction false} PrintsSignificant(s: string)
    requires s != [] && AllDigits(s)
    ensures ToDigits(FromDigits(s)) == s[FirstSignificant(s)..]
    ensures FromDigits(s) == 0 <==> AllZero(s)
    decreases |s|
  {
    if s[0] != '0' || |s| == 1 {
      CanonicalDigits(s);
      if |s| == 1 { assert s == [s[0]] && s[..0] == [] && FromDigits([]) == 0; }
    } else {
      var rest := s[1..];
      assert s == "0" + rest;
      PrintsSignificant(rest);
      LeadingZero(rest);
      assert s[1..][FirstSignificant(rest)..] == s[FirstSignificant(s)..];
      assert AllZero(s) <==> AllZero(rest);
    }
  }

  /** The digit count is at most `k` exactly when the number is below `10^k`. */
  lemma {:induction false} DigitCount(n: nat, k: nat)
    requires k > 0
    ensures |ToDigits(n)| <= k <==> n < Pow10(k)
    decreases k
  {
    assert Pow10(k) == 10 * Pow10(k - 1);
    if k == 1 {
      assert Pow10(0) == 1;
    } else {
      Pow10Positive(k - 2);
      assert Pow10(k - 1) == 10 * Pow10(k - 2);
      DigitCount(n / 10, k - 1);
    }
  }

  /** Padding a printed number to a width gives back the digits it was read from. */
  lemma {:induction false} PadsBack(s: string)
    requires s != [] && AllDigits(s)
    ensures |ToDigits(FromDigits(s))| <= |s|
    ensures Zeros(|s| - |ToDigits(FromDigits(s))|) + ToDigits(FromDigits(s)) == s
  {
    PrintsSignificant(s);
    ZerosBefore(s);
    var k := FirstSignificant(s);
    assert s == s[..k] + s[k..];
    assert s[..k] == Zeros(k);
  }

  lemma {:induction false} ZerosBefore(s: string)
    requires s != []
    ensures forall i :: 0 <= i < FirstSignificant(s) ==> s[i] == '0'
    decreases |s|
  {
    if s[0] == '0' && |s| > 1 {
      ZerosBefore(s[1..]);
      forall i | 0 <= i < FirstSignificant(s) ensures s[i] == '0' {
        if i > 0 { assert s[1..][i - 1] == s[i]; }
      }
    }
  }

  // ---- text and integers ---------------------------------------------------------------------------------

  lemma {:induction false} SplitsAtDot(d: string, rest: string)
    requires AllDigits(d)
    ensures IntegerPart(d + ("." + rest)) == d && FractionPart(d + ("." + rest)) == rest
  {
    hide IndexOf;
    var u := d + ("." + rest);
    assert u[|d|] == '.';
    assert forall i :: 0 <= i < |d| ==> u[i] == d[i] && IsDigit(d[i]);
    assert IndexOf(u, '.') == |d|;
  }

  lemma {:induction false} NoDot(d: string)
    requires AllDigits(d)
    ensures IntegerPart(d) == d && FractionPart(d) == ""
  {
    hide IndexOf;
    assert forall i :: 0 <= i < |d| ==> IsDigit(d[i]);
    assert IndexOf(d, '.') == |d|;
  }

  lemma {:induction false} SignOfText(n: int, scale: nat)
    ensures Negative(ToText(n, scale)) <==> n < 0
    ensures WithoutSign(ToText(n, scale)) == Body(n, scale)
  {
    hide ToDigits;
    var body, text := Body(n, scale), ToText(n, scale);
    assert body != [] && IsDigit(body[0]);
    if n < 0 { assert text[1..] == body; } else { assert text == body; }
  }

  /** Integer and fraction digits of a printed integer, which concatenate to its digits after zeros. */
  lemma {:induction false} PartsOfBody(n: int, scale: nat)
    ensures var digits := ToDigits(Magnitude(n));
            var integer, fraction := IntegerPart(Body(n, scale)), FractionPart(Body(n, scale));
            && AllDigits(integer) && AllDigits(fraction) && |fraction| == scale && integer != []
            && ('.' in Body(n, scale) <==> scale > 0)
            && (if |digits| > scale then integer + fraction == digits
                else integer == "0" && fraction == Zeros(scale - |digits|) + digits)
  {
    hide ToDigits, IntegerPart, FractionPart, IndexOf;
    var digits, body := ToDigits(Magnitude(n)), Body(n, scale);
    if scale == 0 {
      NoDot(digits);
      assert forall i :: 0 <= i < |digits| ==> IsDigit(digits[i]);
    } else if |digits| > scale {
      var cut := |digits| - scale;
      SplitsAtDot(digits[..cut], digits[cut..]);
      assert digits[..cut] + digits[cut..] == digits;
      assert body[cut] == '.';
    } else {
      SplitsAtDot("0", Zeros(scale - |digits|) + digits);
      assert body[1] == '.';
    }
  }

  /** Printing an integer at any scale and reading it back gives the same integer. */
  lemma {:induction false} TextRoundTrip(other: string -> Option<int>, n: int, scale: nat)
    requires scale <= U32_MAX
    ensures ToUnscaled(other, ToText(n, scale), scale) == Some(n)
  {
    hide ToDigits, IntegerPart, FractionPart, ToText, Body, FromDigits;
    SignOfText(n, scale);
    PartsOfBody(n, scale);
    var digits, body := ToDigits(Magnitude(n)), Body(n, scale);
    var all := IntegerPart(body) + FractionPart(body);
    assert all + Zeros(0) == all;
    DigitsRoundTrip(Magnitude(n));
    if |digits| <= scale {
      var padded := Zeros(scale - |digits|) + digits;
      LeadingZeros(scale - |digits|, digits);
      LeadingZero(padded);
    }
  }

  /** What a decimal accepted by `parse_decimal` looks like. */
  lemma {:induction false} CanonicalShape(s: string)
    requires ParseDecimal(s).Some?
    ensures var u := WithoutSign(s);
            var integer, fraction := IntegerPart(u), FractionPart(u);
            && integer != [] && AllDigits(integer) && AllDigits(fraction)
            && (|integer| == 1 || integer[0] != '0')
            && u == integer + (if fraction == [] then "" else "." + fraction)
            && s == (if Negative(s) then "-" else "") + u
            && ParseDecimal(s).value == Precision(|integer + fraction| - FirstSignificant(integer + fraction),
               |fraction|)
            && (Negative(s) ==> !AllZero(integer + fraction))
            && |fraction| <= U32_MAX
  {
    hide IndexOf, FirstSignificant, AllZero;
    var u := WithoutSign(s);
    var dot := IndexOf(u, '.');
    if dot < |u| {
      assert u == u[..dot] + ("." + u[dot + 1..]);
    } else {
      assert u[..dot] == u && u + "" == u;
    }
    if Negative(s) { assert s == "-" + s[1..]; }
  }

  /** The integer a canonical decimal denotes at its own scale. */
  lemma {:induction false} UnscaledIs(other: string -> Option<int>, s: string)
    requires ParseDecimal(s).Some?
    ensures var u := WithoutSign(s);
            var digits := IntegerPart(u) + FractionPart(u);
            && digits != [] && AllDigits(digits)
            && ToUnscaled(other, s, ParseDecimal(s).value.scale) ==
               Some(if Negative(s) then 0 - FromDigits(digits) else FromDigits(digits))
  {
    hide IndexOf, FirstSignificant, AllZero, ParseDecimal, FromDigits, IntegerPart, FractionPart;
    CanonicalShape(s);
    var u := WithoutSign(s);
    var digits := IntegerPart(u) + FractionPart(u);
    assert digits + Zeros(0) == digits;
  }

  /** Every canonical decimal is reprinted identically at its own scale. */
  lemma {:induction false} Reprinted(other: string -> Option<int>, s: string)
    requires ParseDecimal(s).Some?
    ensures var scale := ParseDecimal(s).value.scale;
            ToUnscaled(other, s, scale).Some? && ToText(ToUnscaled(other, s, scale).value, scale) == s
  {
    hide IndexOf, FirstSignificant, AllZero, ParseDecimal, FromDigits, ToDigits, ToUnscaled, IntegerPart, FractionPart,
      WithoutSign, Negative;
    CanonicalShape(s);
    UnscaledIs(other, s);
    var u, scale := WithoutSign(s), ParseDecimal(s).value.scale;
    var integer, fraction := IntegerPart(u), FractionPart(u);
    var digits := integer + fraction;
    var n := ToUnscaled(other, s, scale).value;
    PrintsSignificant(digits);
    assert Magnitude(n) == FromDigits(digits);
    assert n < 0 <==> Negative(s);
    ReprintsBody(integer, fraction);
    SameBody(n, FromDigits(digits), scale);
  }

  lemma {:induction false} SameBody(n: int, m: nat, scale: nat)
    requires Magnitude(n) == m
    ensures Body(n, scale) == Body(m, scale)
  {
    hide ToDigits;
  }

  lemma {:induction false} ReprintsBody(integer: string, fraction: string)
    requires integer != [] && AllDigits(integer) && AllDigits(fraction) && (|integer| == 1 || integer[0] != '0')
    ensures Body(FromDigits(integer + fraction), |fraction|) ==
            integer + (if fraction == [] then "" else "." + fraction)
  {
    hide ToDigits, FromDigits;
    var digits := integer + fraction;
    var printed := ToDigits(FromDigits(digits));
    if integer[0] != '0' || fraction == [] {
      assert digits[0] == integer[0];
      if fraction == [] { assert digits == integer; }
      CanonicalDigits(digits);
      assert printed == digits;
      assert digits[..|integer|] == integer && digits[|integer|..] == fraction;
    } else {
      assert integer == "0";
      LeadingZero(fraction);
      PadsBack(fraction);
      assert digits == "0" + fraction;
    }
  }

  /** The parsed precision is the digit count of the magnitude, so the check against `k` is a bound by `10^k`. */
  lemma {:induction false} PrecisionIsDigitCount(other: string -> Option<int>, s: string, k: nat)
    requires ParseDecimal(s).Some?
    ensures var p := ParseDecimal(s).value;
            var n := ToUnscaled(other, s, p.scale);
            && n.Some? && p.precision == |ToDigits(Magnitude(n.value))|
            && (k > 0 ==> (p.precision <= k <==> Magnitude(n.value) < Pow10(k)))
  {
    hide IndexOf, FirstSignificant, AllZero, ParseDecimal, FromDigits, ToDigits, ToUnscaled, IntegerPart, FractionPart,
      WithoutSign, Negative;
    CanonicalShape(s);
    UnscaledIs(other, s);
    var u := WithoutSign(s);
    var digits := IntegerPart(u) + FractionPart(u);
    PrintsSignificant(digits);
    if k > 0 { DigitCount(FromDigits(digits), k); }
  }

  /** The converse of `CanonicalShape`: what has the shape is accepted. */
  lemma {:induction false} ShapeIsCanonical(s: string)
    requires var u := WithoutSign(s);
             var integer, fraction := IntegerPart(u), FractionPart(u);
             && integer != [] && AllDigits(integer) && AllDigits(fraction) && u != [] && IsDigit(u[0])
             && (|integer| > 1 ==> integer[0] != '0') && ('.' in u <==> fraction != [])
             && |fraction| <= U32_MAX && |integer + fraction| - FirstSignificant(integer + fraction) <= U32_MAX
             && (Negative(s) ==> !AllZero(integer + fraction))
    ensures var u := WithoutSign(s);
            var digits := IntegerPart(u) + FractionPart(u);
            ParseDecimal(s) == Some(Precision(|digits| - FirstSignificant(digits), |FractionPart(u)|))
  {
    hide IntegerPart, FractionPart, FirstSignificant, AllZero, WithoutSign, Negative;
    var fraction := FractionPart(WithoutSign(s));
    DigitsHoldNoDot(fraction);
  }

  lemma {:induction false} DigitsHoldNoDot(s: string)
    requires AllDigits(s)
    ensures '.' !in s
  {
    assert forall i :: 0 <= i < |s| ==> IsDigit(s[i]);
  }

  /** What is printed is canonical, with the digit count as precision and the given scale. */
  lemma {:induction false} TextIsCanonical(n: int, scale: nat)
    requires scale <= U32_MAX && |ToDigits(Magnitude(n))| <= U32_MAX
    ensures ParseDecimal(ToText(n, scale)) == Some(Precision(|ToDigits(Magnitude(n))|, scale))
  {
    hide *;
    SignOfText(n, scale);
    PartsOfBody(n, scale);
    LeadingDigit(n, scale);
    BodyDigits(n, scale);
    MagnitudeSign(n);
    ShapeIsCanonical(ToText(n, scale));
  }

  lemma {:induction false} MagnitudeSign(n: int)
    ensures n < 0 ==> Magnitude(n) > 0
  {
  }

  /** The digits of the body, leading zeros aside, are the digits of the magnitude. */
  lemma {:induction false} BodyDigits(n: int, scale: nat)
    ensures var body := Body(n, scale);
            var all := IntegerPart(body) + FractionPart(body);
            && all != [] && |all| - FirstSignificant(all) == |ToDigits(Magnitude(n))|
            && (AllZero(all) <==> Magnitude(n) == 0)
  {
    hide IndexOf, FromDigits, ToDigits, Body, IntegerPart, FractionPart, FirstSignificant, AllZero, Magnitude;
    PartsOfBody(n, scale);
    var body, digits := Body(n, scale), ToDigits(Magnitude(n));
    var integer, fraction := IntegerPart(body), FractionPart(body);
    DigitsRoundTrip(Magnitude(n));
    PrintsSignificant(integer + fraction);
    if |digits| <= scale {
      LeadingZeros(scale - |digits|, digits);
      LeadingZero(fraction);
    }
  }

  lemma {:induction false} LeadingDigit(n: int, scale: nat)
    ensures var body := Body(n, scale);
            var integer := IntegerPart(body);
            body != [] && IsDigit(body[0]) && (|integer| > 1 ==> integer[0] != '0')
  {
    hide ToDigits, IntegerPart, FractionPart, FromDigits;
    PartsOfBody(n, scale);
    var body, digits := Body(n, scale), ToDigits(Magnitude(n));
    var integer, fraction := IntegerPart(body), FractionPart(body);
    DigitsRoundTrip(Magnitude(n));
    if |digits| > scale && |integer| > 1 {
      assert integer[0] == digits[0];
      ZeroIsShort();
    }
  }

  lemma {:induction false} ZeroIsShort()
    ensures |ToDigits(0)| == 1
  {
  }

  // ---- bytes -----------------------------------------------------------------------------------------------

  /** `minimal` at the end of a buffer filled with `pad`. */
  method Extended(minimal: Bytes, pad: byte, required: nat) returns (bytes: Bytes)
    requires |minimal| <= required
    ensures bytes == Repeat(pad, required - |minimal|) + minimal
  {
    hide Repeat;
    var start := required - |minimal|;
    var buffer := new byte[required](_ => pad);
    for i := 0 to |minimal|
      invariant forall j :: 0 <= j < start ==> buffer[j] == pad
      invariant forall j :: start <= j < start + i ==> buffer[j] == minimal[j - start]
    {
      buffer[start + i] := minimal[i];
    }
    bytes := buffer[..];
  }

  /** The shortest two's complement form, extended by the sign to the required length. */
  function Padded(n: int, required: nat): Bytes {
    var minimal := ToSigned(n);
    if |minimal| >= required then minimal else Repeat(if n < 0 then 255 else 0, required - |minimal|) + minimal
  }

  /** Padding to any length decodes to the same integer. */
  lemma {:induction false} PaddedDecodes(n: int, required: nat)
    ensures Signed(Padded(n, required)) == n
    ensures |Padded(n, required)| == if |ToSigned(n)| >= required then |ToSigned(n)| else required
  {
    hide Signed, ToSigned, Repeat;
    var minimal := ToSigned(n);
    SignedRoundTrip(n);
    if |minimal| < required { SignExtendsBy(minimal, if n < 0 then 255 else 0, required - |minimal|); }
  }

  /** `decimal_to_bytes`, for any required length. */
  method DecimalToBytes(n: int, required: nat) returns (bytes: Bytes)
    ensures bytes == Padded(n, required) && Signed(bytes) == n
  {
    hide Signed, ToSigned, Repeat;
    PaddedDecodes(n, required);
    var minimal := ToSigned(n);
    if |minimal| >= required { return minimal; }
    bytes := Extended(minimal, if n < 0 then 255 else 0, required);
  }
}
