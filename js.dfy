/** The fragment of JavaScript's value semantics the handlers and services
    depend on: truthiness, property reads, `Number(...)` coercion, and the
    string methods `trim`, `toUpperCase`, `toLowerCase`, `includes`,
    `startsWith`, `split('/').pop()` and `join`. */
module JsValues {
  import opened Base

  /** A JavaScript number. Doubles are modelled as exact reals. */
  datatype Num = NaN | PosInf | NegInf | Finite(v: real)

  /** A JavaScript value as it can appear in a request: `Other` stands for
      objects and arrays, which the code never inspects beyond truthiness. */
  datatype Js = Undefined | Null | Bool(b: bool) | Number(n: Num) | Str(s: string) | Other

  /** ToBoolean: the six falsy values are undefined, null, false, NaN, 0 and "". */
  predicate Truthy(v: Js)
  {
    match v
    case Undefined => false
    case Null => false
    case Bool(b) => b
    case Number(n) => !n.NaN? && n != Finite(0.0)
    case Str(s) => s != ""
    case Other => true
  }

  /** Property read `obj.key`: `undefined` when the object has no such key. */
  function Get(obj: map<string, Js>, key: string): Js
  {
    if key in obj then obj[key] else Undefined
  }

  /** The value mysql2 binds for a parameter: `undefined` is sent as NULL. */
  function Bind(v: Js): Js
  {
    if v == Undefined then Null else v
  }

  // ---------------------------------------------------------------------
  // trim

  /** ECMAScript WhiteSpace and LineTerminator code points (what `trim` removes). */
  predicate IsWhitespace(c: char)
  {
    || c == '\t' || c == '\n' || c == '\U{000B}' || c == '\U{000C}' || c == '\r'
    || c == ' ' || c == '\U{00A0}' || c == '\U{1680}'
    || ('\U{2000}' <= c <= '\U{200A}')
    || c == '\U{2028}' || c == '\U{2029}' || c == '\U{202F}' || c == '\U{205F}'
    || c == '\U{3000}' || c == '\U{FEFF}'
  }

  function TrimStart(s: string): string
  {
    if s != [] && IsWhitespace(s[0]) then TrimStart(s[1..]) else s
  }

  function TrimEnd(s: string): string
  {
    if s != [] && IsWhitespace(s[|s| - 1]) then TrimEnd(s[..|s| - 1]) else s
  }

  /** `trimStart` cuts a whitespace prefix and stops at the first other
      character. */
  lemma {:induction false} TrimStartFacts(s: string)
    ensures var r := TrimStart(s);
            |r| <= |s| && r == s[|s| - |r|..]
            && (r == [] || !IsWhitespace(r[0]))
            && (forall i :: 0 <= i < |s| - |r| ==> IsWhitespace(s[i]))
  {
    if s != [] && IsWhitespace(s[0]) {
      TrimStartFacts(s[1..]);
      var r := TrimStart(s);
      forall i | 0 <= i < |s| - |r|
        ensures IsWhitespace(s[i])
      {
        if i > 0 {
          assert s[i] == s[1..][i - 1];
        }
      }
    }
  }

  /** `trimEnd` cuts a whitespace suffix and stops at the last other
      character. */
  lemma {:induction false} TrimEndFacts(s: string)
    ensures var r := TrimEnd(s);
            |r| <= |s| && r == s[..|r|]
            && (r == [] || !IsWhitespace(r[|r| - 1]))
            && (forall i :: |r| <= i < |s| ==> IsWhitespace(s[i]))
  {
    if s != [] && IsWhitespace(s[|s| - 1]) {
      TrimEndFacts(s[..|s| - 1]);
      var r := TrimEnd(s);
      forall i | |r| <= i < |s|
        ensures IsWhitespace(s[i])
      {
        if i < |s| - 1 {
          assert s[i] == s[..|s| - 1][i];
        }
      }
    }
  }

  /** `String.prototype.trim`. */
  function Trim(s: string): string
  {
    TrimEnd(TrimStart(s))
  }

  /** What `trim` promises: the result is a slice of the input that neither
      starts nor ends with whitespace, and only whitespace was cut off. */
  lemma TrimSpec(s: string)
    ensures TrimmedAt(s, Trim(s), |s| - |TrimStart(s)|)
    ensures Trim(s) == [] || (!IsWhitespace(Trim(s)[0]) && !IsWhitespace(Trim(s)[|Trim(s)| - 1]))
  {
    var t := TrimStart(s);
    var r := TrimEnd(t);
    TrimStartFacts(s);
    TrimEndFacts(t);
    TrimSlice(s, t, r);
    TrimStartFirst(t, r);
  }

  lemma TrimSlice(s: string, t: string, r: string)
    requires |t| <= |s| && t == s[|s| - |t|..]
    requires forall i :: 0 <= i < |s| - |t| ==> IsWhitespace(s[i])
    requires |r| <= |t| && r == t[..|r|]
    requires forall i :: |r| <= i < |t| ==> IsWhitespace(t[i])
    ensures TrimmedAt(s, r, |s| - |t|)
  {
    var a := |s| - |t|;
    assert r == s[a..a + |r|];
    forall i | a + |r| <= i < |s|
      ensures IsWhitespace(s[i])
    {
      assert s[i] == t[i - a];
    }
  }

  lemma TrimStartFirst(t: string, r: string)
    requires r == TrimEnd(t) && (t == [] || !IsWhitespace(t[0]))
    ensures r == [] || !IsWhitespace(r[0])
  {
    TrimEndFacts(t);
    if r != [] {
      assert r[0] == t[..|r|][0];
    }
  }

  /** r is the slice of s at offset a, and everything outside it is whitespace. */
  ghost predicate TrimmedAt(s: string, r: string, a: int)
  {
    0 <= a && a + |r| <= |s| && r == s[a..a + |r|]
    && (forall i :: 0 <= i < a ==> IsWhitespace(s[i]))
    && (forall i :: a + |r| <= i < |s| ==> IsWhitespace(s[i]))
  }

  /** A string that neither starts nor ends with whitespace is its own trim. */
  lemma TrimUnchanged(s: string)
    requires s == [] || (!IsWhitespace(s[0]) && !IsWhitespace(s[|s| - 1]))
    ensures Trim(s) == s
  {
    assert TrimStart(s) == s;
  }

  /** `v?.trim()`: undefined stays undefined. */
  function TrimOpt(v: Option<string>): Option<string>
  {
    if v.Some? then Some(Trim(v.value)) else None
  }

  /** Trimming twice is trimming once: a value the handler has already
      trimmed is stored unchanged by a service that trims it again. */
  lemma TrimIdempotent(s: string)
    ensures Trim(Trim(s)) == Trim(s)
  {
    var t := TrimStart(s);
    TrimStartFacts(s);
    TrimEndFacts(t);
    TrimStartFirst(t, TrimEnd(t));
    TrimUnchanged(Trim(s));
  }

  // ---------------------------------------------------------------------
  // case mapping (ASCII letters only)

  function UpperChar(c: char): char
  {
    if 'a' <= c <= 'z' then (c as int - 32) as char else c
  }

  function LowerChar(c: char): char
  {
    if 'A' <= c <= 'Z' then (c as int + 32) as char else c
  }

  /** `toUpperCase`, on the ASCII letters. */
  function ToUpper(s: string): (r: string)
    ensures |r| == |s|
    ensures forall i :: 0 <= i < |s| ==> r[i] == UpperChar(s[i])
  {
    if s == [] then [] else [UpperChar(s[0])] + ToUpper(s[1..])
  }

  /** `toLowerCase`, on the ASCII letters. */
  function ToLower(s: string): (r: string)
    ensures |r| == |s|
    ensures forall i :: 0 <= i < |s| ==> r[i] == LowerChar(s[i])
  {
    if s == [] then [] else [LowerChar(s[0])] + ToLower(s[1..])
  }

  /** `v?.toUpperCase()`: undefined stays undefined. */
  function UpperOpt(v: Option<string>): Option<string>
  {
    if v.Some? then Some(ToUpper(v.value)) else None
  }

  lemma ToUpperIdempotent(s: string)
    ensures ToUpper(ToUpper(s)) == ToUpper(s)
  {
  }

  lemma ToLowerIdempotent(s: string)
    ensures ToLower(ToLower(s)) == ToLower(s)
  {
  }

  // ---------------------------------------------------------------------
  // string searching

  /** `s.includes(sub)`: sub occurs in s as a contiguous slice. */
  predicate Contains(s: string, sub: string)
  {
    exists i :: 0 <= i <= |s| - |sub| && OccursAt(s, sub, i)
  }

  predicate OccursAt(s: string, sub: string, i: int)
  {
    0 <= i && i + |sub| <= |s| && s[i..i + |sub|] == sub
  }

  /** `s.startsWith(p)`. */
  predicate StartsWith(s: string, p: string)
  {
    |p| <= |s| && s[..|p|] == p
  }

  /** Index of the first occurrence of c, or |s| when there is none. */
  function IndexOf(s: string, c: char): (k: nat)
    ensures k <= |s|
    ensures k < |s| ==> s[k] == c
    ensures forall i :: 0 <= i < k ==> s[i] != c
  {
    if s == [] then 0 else if s[0] == c then 0 else 1 + IndexOf(s[1..], c)
  }

  /** Length of the part of s after its last occurrence of c (all of s when c
      does not occur): `s.split(c).pop()` is `s[|s| - TailLength(s, c)..]`. */
  function TailLength(s: string, c: char): (n: nat)
    ensures n <= |s|
    ensures forall i :: |s| - n <= i < |s| ==> s[i] != c
    ensures n < |s| ==> s[|s| - n - 1] == c
  {
    if s == [] then 0 else if s[|s| - 1] == c then 0 else 1 + TailLength(s[..|s| - 1], c)
  }

  /** `parts.join(sep)`. */
  function Join(parts: seq<string>, sep: string): string
  {
    if parts == [] then "" else if |parts| == 1 then parts[0] else parts[0] + sep + Join(parts[1..], sep)
  }

  /** Joining non-empty parts gives the empty string only when there are none
      (so `messages.join(' | ') || fallback` falls back exactly on no parts). */
  lemma {:induction false} JoinEmpty(parts: seq<string>, sep: string)
    requires forall i :: 0 <= i < |parts| ==> parts[i] != ""
    ensures Join(parts, sep) == "" <==> parts == []
  {
    if |parts| >= 1 {
      assert |Join(parts, sep)| >= |parts[0]|;
    }
  }

  // ---------------------------------------------------------------------
  // Number(...)

  predicate IsDigit(c: char)
  {
    '0' <= c <= '9'
  }

  predicate AllDigits(s: string)
  {
    forall i :: 0 <= i < |s| ==> IsDigit(s[i])
  }

  function DigitsValue(s: string): nat
    requires AllDigits(s)
  {
    if s == [] then 0 else 10 * DigitsValue(s[..|s| - 1]) + (s[|s| - 1] as int - '0' as int)
  }

  function Pow10(n: nat): (r: nat)
    ensures r >= 1
  {
    if n == 0 then 1 else 10 * Pow10(n - 1)
  }

  /** An unsigned decimal literal `digits [. digits]` with at least one digit. */
  function DecimalValue(s: string): Option<real>
  {
    var k := IndexOf(s, '.');
    var whole := s[..k];
    var frac := if k < |s| then s[k + 1..] else "";
    if AllDigits(whole) && AllDigits(frac) && |whole| + |frac| > 0 then
      Some(DigitsValue(whole) as real + DigitsValue(frac) as real / Pow10(|frac|) as real)
    else
      None
  }

  /** `Number(s)` for a string: surrounding whitespace is ignored, the empty
      string is 0, and a signed decimal or `Infinity` is read; anything else is NaN. */
  function StringToNumber(s: string): Num
  {
    var t := Trim(s);
    if t == "" then Finite(0.0)
    else if t == "Infinity" || t == "+Infinity" then PosInf
    else if t == "-Infinity" then NegInf
    else
      var unsigned := if t[0] == '-' || t[0] == '+' then t[1..] else t;
      match DecimalValue(unsigned)
      case Some(v) => Finite(if t[0] == '-' then -v else v)
      case None => NaN
  }

  /** `Number(v)`. */
  function ToNumber(v: Js): Num
  {
    match v
    case Undefined => NaN
    case Null => Finite(0.0)
    case Bool(b) => Finite(if b then 1.0 else 0.0)
    case Number(n) => n
    case Str(s) => StringToNumber(s)
    case Other => NaN
  }

  predicate IsIntegral(x: real)
  {
    x == x.Floor as real
  }

  // ---------------------------------------------------------------------
  // String(n) for a natural number

  function DigitChar(d: nat): char
    requires d < 10
  {
    ('0' as int + d) as char
  }

  /** `String(n)`: the decimal rendering of a natural number. */
  function NatToDecimal(n: nat): string
  {
    if n < 10 then [DigitChar(n)] else NatToDecimal(n / 10) + [DigitChar(n % 10)]
  }

  lemma {:induction false} NatToDecimalDigits(n: nat)
    ensures NatToDecimal(n) != [] && AllDigits(NatToDecimal(n))
    ensures DigitsValue(NatToDecimal(n)) == n
  {
    if n >= 10 {
      NatToDecimalDigits(n / 10);
      var s := NatToDecimal(n / 10);
      var t := s + [DigitChar(n % 10)];
      assert t[..|t| - 1] == s;
    }
  }

  /** A run of digits has no whitespace to trim. */
  lemma TrimDigits(s: string)
    requires AllDigits(s)
    ensures Trim(s) == s
  {
    if s != [] {
      assert IsDigit(s[0]) && IsDigit(s[|s| - 1]);
    }
    TrimUnchanged(s);
  }

  /** A non-empty run of digits is a decimal literal with no fraction. */
  lemma DecimalOfDigits(s: string)
    requires s != [] && AllDigits(s)
    ensures DecimalValue(s) == Some(DigitsValue(s) as real)
  {
    assert IndexOf(s, '.') == |s|;
    assert s[..|s|] == s;
  }

  /** A string that starts with a digit and has nothing to trim is read as
      an unsigned decimal literal. */
  lemma StringToNumberUnsigned(t: string)
    requires Trim(t) == t && t != [] && IsDigit(t[0])
    ensures StringToNumber(t) == match DecimalValue(t) case Some(v) => Finite(v) case None => NaN
  {
    assert t[0] != 'I' && t[0] != '+' && t[0] != '-';
    assert t != "Infinity" && t != "+Infinity" && t != "-Infinity";
  }

  /** Reading back the decimal rendering of n gives n. */
  lemma NatToDecimalRoundTrip(n: nat)
    ensures StringToNumber(NatToDecimal(n)) == Finite(n as real)
  {
    var s := NatToDecimal(n);
    NatToDecimalDigits(n);
    TrimDigits(s);
    DecimalOfDigits(s);
    StringToNumberUnsigned(s);
  }
}
