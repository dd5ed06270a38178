/** The pieces of JavaScript's own semantics that the route engine leans on:
    the values a GeoJSON property can hold, `String(v)`, truthiness, the
    white-space set used by `trim()` and by `\s`, string length in UTF-16
    code units, and the grammar `Number(s)` accepts (section 7.1.4.1.1 of
    ECMA-262, StringToNumber). */
module Js {

  /** A property value as it arrives in a feature's `properties` object.
      Floating-point numbers other than integers are not modelled. */
  datatype JsValue = Undefined | Null | Bool(b: bool) | Str(s: string) | Int(i: int)

  predicate IsNullish(v: JsValue) { v.Undefined? || v.Null? }

  /** `!!v` */
  predicate Truthy(v: JsValue)
  {
    match v
    case Undefined => false
    case Null => false
    case Bool(b) => b
    case Str(s) => s != ""
    case Int(i) => i != 0
  }

  function DigitChar(d: nat): (c: char)
    requires d < 10
    ensures '0' <= c <= '9'
  {
    ['0', '1', '2', '3', '4', '5', '6', '7', '8', '9'][d]
  }

  /** Decimal rendering of a natural number, most significant digit first. */
  function NatToDecimal(n: nat): (s: string)
    ensures s != []
    ensures forall i :: 0 <= i < |s| ==> '0' <= s[i] <= '9'
  {
    if n < 10 then [DigitChar(n)] else NatToDecimal(n / 10) + [DigitChar(n % 10)]
  }

  function IntToDecimal(i: int): (s: string)
    ensures s != []
  {
    if i < 0 then "-" + NatToDecimal(-i) else NatToDecimal(i)
  }

  /** `String(v)`: the conversion the selection code applies to a feature id. */
  function ToJsString(v: JsValue): (s: string)
    ensures v.Undefined? ==> s == "undefined"
    ensures v.Null? ==> s == "null"
    ensures v.Str? ==> s == v.s
    ensures v != Str("") ==> s != ""
  {
    match v
    case Undefined => "undefined"
    case Null => "null"
    case Bool(b) => if b then "true" else "false"
    case Str(s) => s
    case Int(i) => IntToDecimal(i)
  }

  /** `String(v ?? "")`: the conversion the route index applies. The map
      library's `["to-string", ["get", "id"]]` style expression gives the same
      string: a missing property reads as `null`, which renders as "". */
  function ToJsStringOrEmpty(v: JsValue): (s: string)
    ensures s == "" <==> IsNullish(v) || v == Str("")
    ensures s != "" ==> s == ToJsString(v)
  {
    if IsNullish(v) then "" else ToJsString(v)
  }

  /** WhiteSpace and LineTerminator code points of ECMA-262 (sections 12.2
      and 12.3): what `String.prototype.trim` removes and what `\s` matches. */
  predicate IsJsSpace(c: char)
  {
    || c == '\t' || c == '\n' || c == '\U{000B}' || c == '\U{000C}' || c == '\r'
    || c == ' ' || c == '\U{00A0}' || c == '\U{1680}'
    || ('\U{2000}' <= c <= '\U{200A}')
    || c == '\U{2028}' || c == '\U{2029}' || c == '\U{202F}' || c == '\U{205F}'
    || c == '\U{3000}' || c == '\U{FEFF}'
  }

  predicate IsTrimmed(s: string)
  {
    s == [] || (!IsJsSpace(s[0]) && !IsJsSpace(s[|s| - 1]))
  }

  function TrimStart(s: string): string
  {
    if s != [] && IsJsSpace(s[0]) then TrimStart(s[1..]) else s
  }

  /** `TrimStart` keeps a suffix. */
  lemma {:induction false} TrimStartSuffix(s: string)
    ensures |TrimStart(s)| <= |s| && TrimStart(s) == s[|s| - |TrimStart(s)|..]
  {
    if s != [] && IsJsSpace(s[0]) {
      var t := s[1..];
      TrimStartSuffix(t);
      assert t[|t| - |TrimStart(t)|..] == s[|s| - |TrimStart(t)|..];
    }
  }

  /** What `TrimStart` removes is white space, and all of it. */
  lemma {:induction false} TrimStartSpaces(s: string)
    ensures TrimStart(s) == [] || !IsJsSpace(TrimStart(s)[0])
    ensures forall i :: 0 <= i < |s| - |TrimStart(s)| ==> IsJsSpace(s[i])
  {
    if s != [] && IsJsSpace(s[0]) {
      var t := s[1..];
      TrimStartSpaces(t);
      forall i | 0 <= i < |s| - |TrimStart(s)| ensures IsJsSpace(s[i]) {
        if i > 0 {
          assert s[i] == t[i - 1];
        }
      }
    }
  }

  function TrimEnd(s: string): string
  {
    if s != [] && IsJsSpace(s[|s| - 1]) then TrimEnd(s[..|s| - 1]) else s
  }

  /** `TrimEnd` keeps a prefix. */
  lemma {:induction false} TrimEndPrefix(s: string)
    ensures |TrimEnd(s)| <= |s| && TrimEnd(s) == s[..|TrimEnd(s)|]
  {
    if s != [] && IsJsSpace(s[|s| - 1]) {
      var t := s[..|s| - 1];
      TrimEndPrefix(t);
      assert t[..|TrimEnd(t)|] == s[..|TrimEnd(t)|];
    }
  }

  /** What `TrimEnd` removes is white space, and all of it. */
  lemma {:induction false} TrimEndSpaces(s: string)
    ensures TrimEnd(s) == [] || !IsJsSpace(TrimEnd(s)[|TrimEnd(s)| - 1])
    ensures forall i :: |TrimEnd(s)| <= i < |s| ==> IsJsSpace(s[i])
  {
    if s != [] && IsJsSpace(s[|s| - 1]) {
      var t := s[..|s| - 1];
      TrimEndSpaces(t);
      TrimEndPrefix(t);
      forall i | |TrimEnd(s)| <= i < |s| ensures IsJsSpace(s[i]) {
        if i < |s| - 1 {
          assert s[i] == t[i];
        }
      }
    }
  }

  /** `s.trim()` */
  function Trim(s: string): string
  {
    TrimEnd(TrimStart(s))
  }

  /** `s.trim()` is the infix of `s` that starts where `TrimStart` stopped. */
  lemma TrimInfix(s: string)
    ensures var k := |s| - |TrimStart(s)|;
      && 0 <= k && k + |Trim(s)| <= |s|
      && forall i :: 0 <= i < |Trim(s)| ==> Trim(s)[i] == s[k + i]
  {
    var t := TrimStart(s);
    TrimStartSuffix(s);
    TrimEndPrefix(t);
    var k := |s| - |t|;
    forall i | 0 <= i < |Trim(s)| ensures Trim(s)[i] == s[k + i] {
      assert Trim(s)[i] == t[i];
    }
  }

  /** `s.trim()` neither starts nor ends with white space. */
  lemma TrimIsTrimmed(s: string)
    ensures IsTrimmed(Trim(s))
  {
    var t := TrimStart(s);
    TrimStartSpaces(s);
    TrimEndSpaces(t);
    TrimEndPrefix(t);
    if Trim(s) != [] {
      assert Trim(s)[0] == t[0];
    }
  }

  /** `s.trim()` neither starts nor ends with white space, keeps only
      characters of `s`, and keeps every character of `s` that is not white
      space. */
  lemma TrimSpec(s: string)
    ensures var r := Trim(s);
      && IsTrimmed(r)
      && |r| <= |s|
      && (forall c :: c in r ==> c in s)
      && (forall c :: c in s && !IsJsSpace(c) ==> c in r)
  {
    var r := Trim(s);
    var t := TrimStart(s);
    var k := |s| - |t|;
    TrimIsTrimmed(s);
    TrimInfix(s);
    forall c | c in r ensures c in s {
      var i :| 0 <= i < |r| && r[i] == c;
      assert s[k + i] == c;
    }
    forall c | c in s && !IsJsSpace(c) ensures c in r {
      var i :| 0 <= i < |s| && s[i] == c;
      TrimKeepsNonSpace(s, i);
    }
  }

  /** A character of `s` that is not white space survives `s.trim()`, at its
      place shifted by the leading white space removed. */
  lemma TrimKeepsNonSpace(s: string, i: int)
    requires 0 <= i < |s| && !IsJsSpace(s[i])
    ensures var k := |s| - |TrimStart(s)|;
      k <= i < k + |Trim(s)| && Trim(s)[i - k] == s[i]
  {
    var t := TrimStart(s);
    var k := |s| - |t|;
    TrimStartSpaces(s);
    TrimStartSuffix(s);
    assert k <= i;
    assert t[i - k] == s[i];
    TrimEndSpaces(t);
    TrimEndPrefix(t);
    assert i - k < |Trim(s)|;
  }

  lemma TrimOfTrimmed(s: string)
    requires IsTrimmed(s)
    ensures Trim(s) == s
  {
  }

  /** A string of white space trims to the empty string. */
  lemma TrimOfSpace(s: string)
    requires forall c :: c in s ==> IsJsSpace(c)
    ensures Trim(s) == ""
  {
    TrimSpec(s);
  }

  /** The length JavaScript reports for a string: UTF-16 code units, two for
      each code point outside the Basic Multilingual Plane. */
  function Utf16Length(s: string): (n: nat)
    ensures |s| <= n <= 2 * |s|
  {
    if s == [] then 0 else (if s[0] as int > 0xFFFF then 2 else 1) + Utf16Length(s[1..])
  }

  // ---------------------------------------------------------------------
  // StringNumericLiteral (section 7.1.4.1 of ECMA-262): the strings whose
  // `Number(s)` is not NaN, for a trimmed non-empty `s`.
  // ---------------------------------------------------------------------

  predicate IsDecimalDigit(c: char) { '0' <= c <= '9' }

  predicate AllDecimalDigits(s: string) { forall i :: 0 <= i < |s| ==> IsDecimalDigit(s[i]) }

  /** DecimalDigits (no numeric separators in StringToNumber). */
  predicate IsDecimalDigits(s: string) { s != [] && AllDecimalDigits(s) }

  predicate IsSignedInteger(s: string)
  {
    IsDecimalDigits(s) || (s != [] && (s[0] == '+' || s[0] == '-') && IsDecimalDigits(s[1..]))
  }

  /** Index of the first occurrence of `c` in `s`, or `|s|`. */
  function IndexOf(s: string, c: char): (k: nat)
    ensures k <= |s|
    ensures k < |s| ==> s[k] == c
    ensures forall i :: 0 <= i < k ==> s[i] != c
  {
    if s == [] then 0 else if s[0] == c then 0 else 1 + IndexOf(s[1..], c)
  }

  function IndexOfExponent(s: string): (k: nat)
    ensures k <= |s|
    ensures k < |s| ==> s[k] == 'e' || s[k] == 'E'
    ensures forall i :: 0 <= i < k ==> s[i] != 'e' && s[i] != 'E'
  {
    if s == [] then 0 else if s[0] == 'e' || s[0] == 'E' then 0 else 1 + IndexOfExponent(s[1..])
  }

  /** `DecimalDigits . DecimalDigits?`, `. DecimalDigits` or `DecimalDigits`. */
  predicate IsMantissa(m: string)
  {
    var d := IndexOf(m, '.');
    if d == |m| then IsDecimalDigits(m)
    else AllDecimalDigits(m[..d]) && AllDecimalDigits(m[d + 1..]) && (d > 0 || d + 1 < |m|)
  }

  /** StrUnsignedDecimalLiteral: `Infinity`, or a mantissa with an optional ExponentPart. */
  predicate IsUnsignedDecimal(s: string)
  {
    s == "Infinity" ||
    var k := IndexOfExponent(s);
    IsMantissa(s[..k]) && (k == |s| || IsSignedInteger(s[k + 1..]))
  }

  predicate IsStrDecimal(s: string)
  {
    IsUnsignedDecimal(s) || (s != [] && (s[0] == '+' || s[0] == '-') && IsUnsignedDecimal(s[1..]))
  }

  predicate IsBinaryDigit(c: char) { c == '0' || c == '1' }
  predicate IsOctalDigit(c: char) { '0' <= c <= '7' }
  predicate IsHexDigit(c: char) { '0' <= c <= '9' || 'a' <= c <= 'f' || 'A' <= c <= 'F' }

  /** NonDecimalIntegerLiteral: `0b…`, `0o…`, `0x…` (either case), no sign. */
  predicate IsNonDecimalInteger(s: string)
  {
    |s| > 2 && s[0] == '0' &&
    (|| ((s[1] == 'b' || s[1] == 'B') && forall i :: 2 <= i < |s| ==> IsBinaryDigit(s[i]))
     || ((s[1] == 'o' || s[1] == 'O') && forall i :: 2 <= i < |s| ==> IsOctalDigit(s[i]))
     || ((s[1] == 'x' || s[1] == 'X') && forall i :: 2 <= i < |s| ==> IsHexDigit(s[i])))
  }

  /** `!isNaN(Number(s))` for a string `s` that is non-empty and trimmed. */
  predicate IsNumericLiteral(s: string)
  {
    IsStrDecimal(s) || IsNonDecimalInteger(s)
  }

  /** A plain run of decimal digits is a number. */
  lemma DigitsAreNumeric(s: string)
    requires IsDecimalDigits(s)
    ensures IsNumericLiteral(s)
  {
    assert s[..|s|] == s;
  }
}
