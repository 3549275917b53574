/** The small parsers the controllers apply to route parameters, query
    strings and body fields before anything reaches a store. */
module Parsing {
  import opened Base
  import opened JsValues

  /** `parseId` / `parsePositiveInt`: `Number(value)` when it is an integer
      greater than zero. Every controller carries its own copy of this
      function; all copies are the same and are modelled once here. */
  function ParseId(v: Js): (r: Option<int>)
    ensures r.Some? <==> ToNumber(v).Finite? && IsIntegral(ToNumber(v).v) && ToNumber(v).v > 0.0
    ensures r.Some? ==> r.value >= 1 && r.value as real == ToNumber(v).v
  {
    match ToNumber(v)
    case Finite(x) => if IsIntegral(x) && x > 0.0 then Some(x.Floor) else None
    case _ => None
  }

  /** The decimal rendering of a positive id is read back as that id: an id
      that came out of `String(id)` (a URL, a route parameter) parses again. */
  lemma ParseIdOfDecimal(n: nat)
    requires n >= 1
    ensures ParseId(Str(NatToDecimal(n))) == Some(n)
  {
    NatToDecimalRoundTrip(n);
  }

  /** `parseNumber`: undefined for null, undefined and the empty string,
      otherwise `Number(value)` when that is finite. */
  function ParseNumber(v: Js): (r: Option<real>)
    ensures v == Undefined || v == Null || v == Str("") ==> r.None?
    ensures !(v == Undefined || v == Null || v == Str("")) ==>
              (r.Some? <==> ToNumber(v).Finite?)
    ensures r.Some? ==> ToNumber(v) == Finite(r.value)
  {
    if v == Undefined || v == Null || v == Str("") then None
    else match ToNumber(v)
      case Finite(x) => Some(x)
      case _ => None
  }

  /** Every id `parseId` accepts is a number `parseNumber` accepts, with the
      same value; the converse fails (`parseNumber("1.5")` is 1.5). */
  lemma ParseIdImpliesParseNumber(v: Js)
    requires ParseId(v).Some?
    ensures ParseNumber(v) == Some(ParseId(v).value as real)
  {
  }

  /** `isValidDate`: `/^\d{4}-\d{2}-\d{2}$/` tested on `value || ''`. Only a
      string can have that shape; no calendar check is made. */
  predicate IsValidDate(v: Js)
  {
    v.Str? && DateShape(v.s)
  }

  predicate DateShape(s: string)
  {
    |s| == 10
    && (forall i :: 0 <= i < 10 && i != 4 && i != 7 ==> IsDigit(s[i]))
    && s[4] == '-' && s[7] == '-'
  }

  /** The date shape as the pattern's pieces: four digits, a dash, two
      digits, a dash, two digits. */
  lemma DateShapePieces(s: string)
    ensures DateShape(s) <==>
              |s| == 10 && AllDigits(s[..4]) && s[4] == '-' && AllDigits(s[5..7])
              && s[7] == '-' && AllDigits(s[8..])
  {
    if |s| == 10 && AllDigits(s[..4]) && AllDigits(s[5..7]) && AllDigits(s[8..]) {
      forall i | 0 <= i < 10 && i != 4 && i != 7
        ensures IsDigit(s[i])
      {
        if i < 4 { assert s[i] == s[..4][i]; }
        else if i < 7 { assert s[i] == s[5..7][i - 5]; }
        else { assert s[i] == s[8..][i - 8]; }
      }
    }
  }

  lemma NoCalendarCheck()
    ensures IsValidDate(Str("2024-99-99"))
    ensures !IsValidDate(Str("2024-1-01"))
  {
  }

  predicate IsAsciiLetter(c: char)
  {
    'A' <= c <= 'Z' || 'a' <= c <= 'z'
  }

  /** `isEstadoValido`: `/^[A-Za-z]{2}$/` — exactly two ASCII letters. */
  predicate IsEstadoValido(s: string)
  {
    |s| == 2 && IsAsciiLetter(s[0]) && IsAsciiLetter(s[1])
  }

  /** Upper-casing never changes validity, so `sp` is accepted as `SP`. */
  lemma EstadoValidoUpper(s: string)
    ensures IsEstadoValido(ToUpper(s)) <==> IsEstadoValido(s)
  {
  }

  // ---------------------------------------------------------------------
  // `typeof v === 'string' ? f(v) : fallback`, the guard every handler puts
  // in front of a string method

  /** `typeof v === 'string' ? v.toLowerCase() : undefined` */
  function LowerIfString(v: Js): Option<string>
  {
    if v.Str? then Some(ToLower(v.s)) else None
  }

  /** `typeof v === 'string' ? v.toLowerCase() : ''` */
  function LowerOrEmpty(v: Js): string
  {
    if v.Str? then ToLower(v.s) else ""
  }

  /** `typeof v === 'string' ? v.toUpperCase() : fallback` */
  function UpperIfString(v: Js): Option<string>
  {
    if v.Str? then Some(ToUpper(v.s)) else None
  }

  /** `typeof v === 'string' ? v.trim() : fallback` */
  function TrimIfString(v: Js): Option<string>
  {
    if v.Str? then Some(Trim(v.s)) else None
  }

  /** A fallback of `''` for a value that was not a string. */
  function OrEmpty(t: Option<string>): string
  {
    if t.Some? then t.value else ""
  }

  /** `Object.prototype.hasOwnProperty.call(req.body, key) ? f(value) : -`:
      the converted value of a key of an update payload, present exactly
      when the body has that key. */
  function KeyOf<T>(body: map<string, Js>, key: string, f: Js -> T): (k: Key<T>)
    ensures k.Present? <==> key in body
    ensures k.Present? ==> k.value == f(body[key])
  {
    if key in body then Present(f(body[key])) else Absent
  }
}
