/**
  The parts of the JavaScript runtime that the podcast-summary routes lean on:
  truthiness and `typeof` of a parsed JSON value, the UTF-16 `length` of a
  string, `String.prototype.includes`, the global `parseInt` (called without a
  radix) and `Number.prototype.toString` on integral numbers.

  Dafny's `char` is a Unicode scalar value, while a JavaScript string is a
  sequence of UTF-16 code units, so lengths are converted explicitly.
 */
module JsRuntime {

  /** A JSON value as a handler finds it in a parsed request body;
      `Undefined` stands for a property that is not there at all. */
  datatype JsonValue =
    | Undefined
    | Null
    | Bool(b: bool)
    | Number(x: real)
    | Str(s: string)
    | Array(elements: seq<JsonValue>)
    | Object(members: seq<(string, JsonValue)>)

  /** ToBoolean: what `!v` negates. The falsy values are exactly undefined,
      null, false, 0 and the empty string. */
  predicate Truthy(v: JsonValue): (b: bool)
    ensures !b <==> v in {Undefined, Null, Bool(false), Number(0.0), Str("")}
  {
    match v
    case Undefined => false
    case Null => false
    case Bool(b) => b
    case Number(x) => x != 0.0
    case Str(s) => s != ""
    case Array(_) => true
    case Object(_) => true
  }

  /** The `typeof` operator: null, arrays and objects all report "object". */
  function TypeOf(v: JsonValue): (t: string)
    ensures t in {"undefined", "boolean", "number", "string", "object"}
    ensures t == "string" <==> v.Str?
    ensures t == "object" <==> v.Null? || v.Array? || v.Object?
  {
    match v
    case Undefined => "undefined"
    case Bool(_) => "boolean"
    case Number(_) => "number"
    case Str(_) => "string"
    case _ => "object"
  }

  /** `!v || typeof v !== 'string'` rejects exactly what is not a non-empty string. */
  lemma MissingOrNotStringIff(v: JsonValue)
    ensures (!Truthy(v) || TypeOf(v) != "string") <==> !(v.Str? && v.s != "")
  {
    match v
    case Str(s) =>
    case _ =>
  }

  // ---------------------------------------------------------------------------
  // String length in UTF-16 code units

  /** A scalar value above U+FFFF is a surrogate pair: two code units. */
  function CodeUnits(c: char): nat {
    if c as int > 0xFFFF then 2 else 1
  }

  /** `s.length` of a JavaScript string holding the scalar values of `s`. */
  function Utf16Length(s: string): (n: nat)
    ensures |s| <= n <= 2 * |s|
  {
    if s == [] then 0 else Utf16Length(s[..|s| - 1]) + CodeUnits(s[|s| - 1])
  }

  /** On text inside the Basic Multilingual Plane, `length` counts characters. */
  lemma {:induction false} Utf16LengthOfBmp(s: string)
    requires forall i :: 0 <= i < |s| ==> s[i] as int <= 0xFFFF
    ensures Utf16Length(s) == |s|
  {
    if s != [] {
      Utf16LengthOfBmp(s[..|s| - 1]);
    }
  }

  // ---------------------------------------------------------------------------
  // String.prototype.includes

  predicate OccursAt(s: string, search: string, i: nat) {
    i + |search| <= |s| && s[i..i + |search|] == search
  }

  /** `s.includes(search)`: `search` occurs in `s` as a contiguous piece. */
  function Includes(s: string, search: string): (r: bool)
    ensures r <==> exists i: nat :: OccursAt(s, search, i)
    decreases |s|
  {
    if |search| > |s| then
      false
    else if s[..|search|] == search then
      assert OccursAt(s, search, 0);
      true
    else
      IncludesShift(s, search);
      Includes(s[1..], search)
  }

  /** Past a failed first position, occurrences in `s` are those in `s[1..]`, shifted by one. */
  lemma IncludesShift(s: string, search: string)
    requires |search| <= |s| && s[..|search|] != search
    ensures (exists i: nat :: OccursAt(s, search, i)) <==> (exists j: nat :: OccursAt(s[1..], search, j))
  {
    forall i: nat | OccursAt(s, search, i)
      ensures exists j: nat :: OccursAt(s[1..], search, j)
    {
      assert i != 0;
      assert s[1..][i - 1..i - 1 + |search|] == s[i..i + |search|];
      assert OccursAt(s[1..], search, i - 1);
    }
    forall j: nat | OccursAt(s[1..], search, j)
      ensures exists i: nat :: OccursAt(s, search, i)
    {
      assert s[1..][j..j + |search|] == s[j + 1..j + 1 + |search|];
      assert OccursAt(s, search, j + 1);
    }
  }

  // ---------------------------------------------------------------------------
  // Numbers: parseInt and toString

  /** The values `parseInt` can produce, restricted to integers. */
  datatype NumberValue = NaN | Finite(value: int)

  /** WhiteSpace and LineTerminator code points, which `parseInt` skips at the start. */
  predicate IsJsWhitespace(c: char) {
    var k := c as int;
    k == 0x09 || k == 0x0A || k == 0x0B || k == 0x0C || k == 0x0D || k == 0x20
    || k == 0xA0 || k == 0x1680 || (0x2000 <= k <= 0x200A)
    || k == 0x2028 || k == 0x2029 || k == 0x202F || k == 0x205F
    || k == 0x3000 || k == 0xFEFF
  }

  function TrimStart(s: string): string {
    if s != [] && IsJsWhitespace(s[0]) then TrimStart(s[1..]) else s
  }

  /** Trimming stops at the first character that is not white space. */
  lemma {:induction false} TrimStartIsLongestSpaceRun(s: string)
    ensures var t := TrimStart(s);
      && |t| <= |s| && t == s[|s| - |t|..]
      && (forall i :: 0 <= i < |s| - |t| ==> IsJsWhitespace(s[i]))
      && (t != [] ==> !IsJsWhitespace(t[0]))
  {
    if s != [] && IsJsWhitespace(s[0]) {
      TrimStartIsLongestSpaceRun(s[1..]);
      var t := TrimStart(s);
      assert s[1..][|s| - 1 - |t|..] == s[|s| - |t|..];
      assert forall i :: 1 <= i < |s| - |t| ==> s[i] == s[1..][i - 1];
    }
  }

  /** The value of a digit in radix 36; 36 for a character that is no digit at all. */
  function DigitValue(c: char): nat {
    if '0' <= c <= '9' then (c as int - '0' as int)
    else if 'a' <= c <= 'z' then (c as int - 'a' as int) + 10
    else if 'A' <= c <= 'Z' then (c as int - 'A' as int) + 10
    else 36
  }

  /** The longest prefix of `s` made of digits of the given radix. */
  function DigitPrefix(s: string, radix: nat): string {
    if s == [] || DigitValue(s[0]) >= radix then [] else [s[0]] + DigitPrefix(s[1..], radix)
  }

  /** `DigitPrefix` is a prefix, made of digits, that stops at the first non-digit. */
  lemma {:induction false} DigitPrefixIsLongestRun(s: string, radix: nat)
    ensures var p := DigitPrefix(s, radix);
      && p <= s
      && (forall i :: 0 <= i < |p| ==> DigitValue(p[i]) < radix)
      && (|p| < |s| ==> DigitValue(s[|p|]) >= radix)
  {
    if s != [] && DigitValue(s[0]) < radix {
      DigitPrefixIsLongestRun(s[1..], radix);
    }
  }

  /** The number a digit string denotes, most significant digit first. */
  function DigitsValue(digits: string, radix: nat): nat {
    if digits == [] then 0
    else DigitsValue(digits[..|digits| - 1], radix) * radix + DigitValue(digits[|digits| - 1])
  }

  /** `parseInt(s)` with no radix: skip leading white space, take an optional
      sign, then read an unsigned number. */
  function ParseInt(s: string): NumberValue {
    ParseSigned(TrimStart(s))
  }

  function ParseSigned(t: string): NumberValue {
    if t != [] && t[0] == '-' then Negate(ParseUnsigned(t[1..]))
    else if t != [] && t[0] == '+' then ParseUnsigned(t[1..])
    else ParseUnsigned(t)
  }

  /** After the sign: radix 16 behind a `0x` or `0X` prefix, radix 10
      otherwise, then the longest run of digits; no digit at all gives NaN. */
  function ParseUnsigned(u: string): NumberValue {
    var hex := |u| >= 2 && u[0] == '0' && (u[1] == 'x' || u[1] == 'X');
    var radix := if hex then 16 else 10;
    var digits := DigitPrefix(if hex then u[2..] else u, radix);
    if digits == [] then NaN else Finite(DigitsValue(digits, radix))
  }

  function Negate(v: NumberValue): NumberValue {
    match v
    case NaN => NaN
    case Finite(m) => Finite(-m)
  }

  function DigitChar(d: nat): char
    requires d < 10
  {
    "0123456789"[d]
  }

  /** The decimal numeral of `n`, without leading zeros. */
  function DecimalString(n: nat): string {
    if n < 10 then [DigitChar(n)] else DecimalString(n / 10) + [DigitChar(n % 10)]
  }

  /** `String(v)` for an integral number (negative zero prints as "0"). */
  function NumberToString(v: NumberValue): string {
    match v
    case NaN => "NaN"
    case Finite(n) => if n < 0 then "-" + DecimalString(-n) else DecimalString(n)
  }

  /** A decimal numeral is a non-empty run of decimal digits, not starting
      with `0` unless it is "0", and it denotes the number it was printed from. */
  lemma {:induction false} DecimalStringFacts(n: nat)
    ensures var s := DecimalString(n);
      && s != []
      && (forall i :: 0 <= i < |s| ==> '0' <= s[i] <= '9')
      && (s[0] == '0' <==> n == 0)
      && DigitsValue(s, 10) == n
  {
    DigitCharFacts(n % 10);
    if n >= 10 {
      DecimalStringFacts(n / 10);
      var s := DecimalString(n);
      assert s[..|s| - 1] == DecimalString(n / 10);
      assert DigitsValue(s, 10) == DigitsValue(DecimalString(n / 10), 10) * 10 + n % 10;
    }
  }

  lemma DigitCharFacts(d: nat)
    requires d < 10
    ensures '0' <= DigitChar(d) <= '9' && DigitValue(DigitChar(d)) == d
    ensures DigitChar(d) == '0' <==> d == 0
  {
    assert DigitChar(d) as int == '0' as int + d;
  }

  /** Every decimal digit is below radix 10, so the digit prefix of a numeral is all of it. */
  lemma {:induction false} DigitPrefixOfDigits(s: string)
    requires forall i :: 0 <= i < |s| ==> '0' <= s[i] <= '9'
    ensures DigitPrefix(s, 10) == s
  {
    if s != [] {
      DigitPrefixOfDigits(s[1..]);
    }
  }

  /** A numeral made only of decimal digits, not starting `0x`, reads back as its value. */
  lemma ParseUnsignedOfDigits(d: string)
    requires d != [] && forall i :: 0 <= i < |d| ==> '0' <= d[i] <= '9'
    ensures ParseUnsigned(d) == Finite(DigitsValue(d, 10))
  {
    assert !(|d| >= 2 && d[0] == '0' && (d[1] == 'x' || d[1] == 'X')) by {
      if |d| >= 2 {
        assert '0' <= d[1] <= '9';
      }
    }
    DigitPrefixOfDigits(d);
  }

  /** `parseInt(String(v))` gives `v` back. */
  lemma ParseIntOfNumberToString(v: NumberValue)
    ensures ParseInt(NumberToString(v)) == v
  {
    if v.NaN? {
      ParseIntOfNaN();
    } else if v.value < 0 {
      ParseIntOfNegative(v.value);
    } else {
      ParseIntOfDecimal(v.value);
    }
  }

  lemma ParseIntOfNaN()
    ensures ParseInt("NaN") == NaN
  {
    var s := "NaN";
    assert TrimStart(s) == s by {
      assert !IsJsWhitespace(s[0]);
    }
    assert DigitPrefix(s, 10) == [] by {
      assert DigitValue(s[0]) >= 10;
    }
  }

  /** A run of decimal digits, with nothing before it, parses as its decimal value. */
  lemma ParseIntOfDigits(d: string)
    requires d != [] && forall i :: 0 <= i < |d| ==> '0' <= d[i] <= '9'
    ensures ParseInt(d) == Finite(DigitsValue(d, 10))
  {
    assert TrimStart(d) == d by {
      assert !IsJsWhitespace(d[0]);
    }
    assert ParseSigned(d) == ParseUnsigned(d) by {
      assert d[0] != '-' && d[0] != '+';
    }
    ParseUnsignedOfDigits(d);
  }

  lemma ParseIntOfDecimal(n: nat)
    ensures ParseInt(DecimalString(n)) == Finite(n)
  {
    DecimalStringFacts(n);
    ParseIntOfDigits(DecimalString(n));
  }

  lemma ParseIntOfNegative(m: int)
    requires m < 0
    ensures ParseInt(NumberToString(Finite(m))) == Finite(m)
  {
    var d := DecimalString(-m);
    calc {
      ParseInt(NumberToString(Finite(m)));
    ==  { assert NumberToString(Finite(m)) == "-" + d; }
      ParseInt("-" + d);
    ==  { DecimalStringFacts(-m); ParseIntOfMinusDigits(d); }
      Finite(m);
    }
  }

  lemma ParseIntOfMinusDigits(d: string)
    requires d != [] && forall i :: 0 <= i < |d| ==> '0' <= d[i] <= '9'
    ensures ParseInt("-" + d) == Finite(-(DigitsValue(d, 10) as int))
  {
    var s := "-" + d;
    assert TrimStart(s) == s by {
      assert !IsJsWhitespace(s[0]);
    }
    assert ParseSigned(s) == Negate(ParseUnsigned(d)) by {
      assert s[0] == '-' && s[1..] == d;
    }
    ParseUnsignedOfDigits(d);
  }

  /** Leading zeros do not change the value of a digit string. */
  lemma {:induction false} DigitsValueLeadingZeros(zeros: string, digits: string, radix: nat)
    requires forall i :: 0 <= i < |zeros| ==> zeros[i] == '0'
    ensures DigitsValue(zeros + digits, radix) == DigitsValue(digits, radix)
    decreases |digits|
  {
    if digits == [] {
      assert zeros + digits == zeros;
      ZerosValue(zeros, radix);
    } else {
      var init := digits[..|digits| - 1];
      assert (zeros + digits)[..|zeros + digits| - 1] == zeros + init;
      DigitsValueLeadingZeros(zeros, init, radix);
    }
  }

  lemma {:induction false} ZerosValue(zeros: string, radix: nat)
    requires forall i :: 0 <= i < |zeros| ==> zeros[i] == '0'
    ensures DigitsValue(zeros, radix) == 0
  {
    if zeros != [] {
      ZerosValue(zeros[..|zeros| - 1], radix);
    }
  }
}
