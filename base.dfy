/** Values as the JavaScript code sees them: optional values, loose JSON values,
    whitespace and `trim`, integer printing, `padStart` and the `Number()` conversion
    of strings. */
module Base {

  datatype Option<T> = None | Some(value: T) {
    function GetOr(default: T): T {
      if Some? then value else default
    }
  }

  /** A JSON value as a client reads it from a response row. */
  datatype JsValue = Undefined | Null | Num(n: real) | Str(s: string)

  /** Truthiness of an optional id or number: null/undefined and 0 are falsy. */
  predicate IntTruthy(o: Option<int>) {
    o.Some? && o.value != 0
  }

  /** Truthiness of an optional string: null/undefined and "" are falsy. */
  predicate StrTruthy(o: Option<string>) {
    o.Some? && o.value != ""
  }

  /** `x || null` for a string field. */
  function StrOrNull(o: Option<string>): (r: Option<string>)
    ensures r.None? <==> !StrTruthy(o)
    ensures r.Some? ==> r == o
  {
    if StrTruthy(o) then o else None
  }

  /** `Number(x || 0)` for a numeric field. */
  function NumOrZero(o: Option<real>): (r: real)
    ensures o.Some? ==> r == o.value
    ensures o.None? ==> r == 0.0
  {
    if o.Some? then o.value else 0.0
  }

  /** `x ? Number(x) : null` for an optional id: 0 and null become null. */
  function IdOrNull(o: Option<int>): (r: Option<int>)
    ensures r.None? <==> !IntTruthy(o)
    ensures r.Some? ==> r == o
  {
    if IntTruthy(o) then o else None
  }

  // ---------------------------------------------------------------- whitespace

  /** The characters JavaScript's `trim` removes and `\s` matches
      (WhiteSpace and LineTerminator of ECMA-262). */
  predicate IsSpace(c: char) {
    || c == ' ' || c == '\t' || c == '\n' || c == '\r' || c == '\U{B}' || c == '\U{C}'
    || c == '\U{A0}' || c == '\U{1680}' || ('\U{2000}' <= c <= '\U{200A}')
    || c == '\U{2028}' || c == '\U{2029}' || c == '\U{202F}' || c == '\U{205F}'
    || c == '\U{3000}' || c == '\U{FEFF}'
  }

  predicate AllSpace(s: string) {
    forall i :: 0 <= i < |s| ==> IsSpace(s[i])
  }

  /** The index of the first character at or after i that is not whitespace. */
  function SkipSpaces(s: string, i: nat): (k: nat)
    requires i <= |s|
    ensures i <= k <= |s|
    ensures forall j :: i <= j < k ==> IsSpace(s[j])
    ensures k < |s| ==> !IsSpace(s[k])
    decreases |s| - i
  {
    if i < |s| && IsSpace(s[i]) then SkipSpaces(s, i + 1) else i
  }

  /** The index just after the last character before i that is not whitespace. */
  function BackSpaces(s: string, i: nat): (k: nat)
    requires i <= |s|
    ensures k <= i
    ensures forall j :: k <= j < i ==> IsSpace(s[j])
    ensures k > 0 ==> !IsSpace(s[k - 1])
  {
    if i > 0 && IsSpace(s[i - 1]) then BackSpaces(s, i - 1) else i
  }

  /** `String.prototype.trim`. */
  function Trim(s: string): (r: string)
    ensures |r| <= |s|
    ensures r == [] || (!IsSpace(r[0]) && !IsSpace(r[|r| - 1]))
    ensures r == [] <==> AllSpace(s)
  {
    var a := SkipSpaces(s, 0);
    var b := BackSpaces(s, |s|);
    if a == |s| then []
    else
      assert !IsSpace(s[a]);
      s[a..b]
  }

  /** A string without leading or trailing whitespace is its own trim. */
  lemma TrimOfTrimmed(s: string)
    requires s == [] || (!IsSpace(s[0]) && !IsSpace(s[|s| - 1]))
    ensures Trim(s) == s
  {
    if s != [] {
      assert SkipSpaces(s, 0) == 0;
      assert BackSpaces(s, |s|) == |s|;
      assert s[0..|s|] == s;
    }
  }

  /** Trimming twice is trimming once. */
  lemma TrimIdempotent(s: string)
    ensures Trim(Trim(s)) == Trim(s)
  {
    TrimOfTrimmed(Trim(s));
  }

  /** Trimming ignores blanks in front. */
  lemma TrimBlankPrefix(w: string, x: string)
    requires AllSpace(w)
    ensures Trim(w + x) == Trim(x)
  {
    if AllSpace(x) {
      assert AllSpace(w + x);
    } else {
      assert !AllSpace(w + x) by {
        var k :| 0 <= k < |x| && !IsSpace(x[k]);
        assert (w + x)[|w| + k] == x[k];
      }
      TrimBounds(w, x);
      TrimWithin(w + x);
      TrimWithin(x);
      SliceAfter(w, x, SkipSpaces(x, 0), BackSpaces(x, |x|));
    }
  }

  /** Trimming a text that is not all blanks keeps what lies between the first
      and the last non-blank character. */
  lemma TrimWithin(s: string)
    requires !AllSpace(s)
    ensures SkipSpaces(s, 0) <= BackSpaces(s, |s|)
    ensures Trim(s) == s[SkipSpaces(s, 0)..BackSpaces(s, |s|)]
  {
  }

  lemma SliceAfter(w: string, x: string, a: nat, b: nat)
    requires a <= b <= |x|
    ensures (w + x)[|w| + a..|w| + b] == x[a..b]
  {
  }

  /** Where trimming w + x starts and stops, against x alone. */
  lemma TrimBounds(w: string, x: string)
    requires AllSpace(w) && !AllSpace(x)
    ensures SkipSpaces(x, 0) < |x|
    ensures SkipSpaces(w + x, 0) == |w| + SkipSpaces(x, 0)
    ensures BackSpaces(w + x, |w + x|) == |w| + BackSpaces(x, |x|)
  {
    SkipBlanks(w, x, 0);
    SkipShift(w, x, 0);
    assert x[..|x|] == x;
    BackShift(w, x, |x|);
  }

  lemma {:induction false} SkipBlanks(w: string, x: string, i: nat)
    requires AllSpace(w) && i <= |w|
    ensures SkipSpaces(w + x, i) == SkipSpaces(w + x, |w|)
    decreases |w| - i
  {
    if i < |w| {
      SkipBlanks(w, x, i + 1);
    }
  }

  lemma {:induction false} SkipShift(w: string, x: string, i: nat)
    requires i <= |x|
    ensures SkipSpaces(w + x, |w| + i) == |w| + SkipSpaces(x, i)
    decreases |x| - i
  {
    if i < |x| && IsSpace(x[i]) {
      SkipShift(w, x, i + 1);
    }
  }

  lemma {:induction false} BackShift(w: string, x: string, i: nat)
    requires i <= |x| && !AllSpace(x[..i])
    ensures BackSpaces(w + x, |w| + i) == |w| + BackSpaces(x, i)
    decreases i
  {
    if IsSpace(x[i - 1]) {
      var k :| 0 <= k < i && !IsSpace(x[..i][k]);
      assert x[..i - 1][k] == x[k];
      BackShift(w, x, i - 1);
    }
  }

  // ---------------------------------------------------------------- digits

  predicate IsDigit(c: char) {
    '0' <= c <= '9'
  }

  predicate AllDigits(s: string) {
    forall i :: 0 <= i < |s| ==> IsDigit(s[i])
  }

  function DigitChar(d: nat): (c: char)
    requires d < 10
    ensures IsDigit(c)
  {
    ('0' as int + d) as char
  }

  function DigitVal(c: char): (d: nat)
    requires IsDigit(c)
    ensures d < 10
  {
    c as int - '0' as int
  }

  /** The value of a run of decimal digits (empty run is 0). */
  function DigitsValue(s: string): nat
    requires AllDigits(s)
  {
    if s == [] then 0 else DigitsValue(s[..|s| - 1]) * 10 + DigitVal(s[|s| - 1])
  }

  /** `String(n)` for a non-negative integer. */
  function NatToString(n: nat): (r: string)
    ensures |r| >= 1 && AllDigits(r)
    ensures n >= 10 ==> r[0] != '0'
    decreases n
  {
    if n < 10 then [DigitChar(n)] else NatToString(n / 10) + [DigitChar(n % 10)]
  }

  /** `String(n)` for an integer. */
  function IntToString(n: int): (r: string)
    ensures |r| >= 1
    ensures n < 0 <==> r[0] == '-'
    ensures n >= 0 ==> AllDigits(r)
    ensures n < 0 ==> AllDigits(r[1..]) && r[1..] == NatToString(-n)
  {
    if n < 0 then "-" + NatToString(-n) else NatToString(n)
  }

  lemma {:induction false} NatToStringValue(n: nat)
    ensures DigitsValue(NatToString(n)) == n
    decreases n
  {
    if n >= 10 {
      NatToStringValue(n / 10);
      var s := NatToString(n);
      assert s[..|s| - 1] == NatToString(n / 10);
    }
  }

  /** Small numbers print as short strings. */
  lemma {:induction false} NatToStringLength(n: nat, w: nat)
    requires n < Pow10(w)
    requires w >= 1
    ensures |NatToString(n)| <= w
    decreases n
  {
    if n >= 10 {
      assert w >= 2;
      NatToStringLength(n / 10, w - 1);
    }
  }

  function Pow10(k: nat): (p: nat)
    ensures p >= 1
  {
    if k == 0 then 1 else 10 * Pow10(k - 1)
  }

  /** Leading zeros do not change the value of a digit run. */
  lemma {:induction false} DigitsValueLeadingZeros(z: string, s: string)
    requires forall i :: 0 <= i < |z| ==> z[i] == '0'
    requires AllDigits(s)
    ensures AllDigits(z + s)
    ensures DigitsValue(z + s) == DigitsValue(s)
    decreases |s| + |z|
  {
    var t := z + s;
    assert AllDigits(t) by {
      forall i | 0 <= i < |t| ensures IsDigit(t[i]) {
        if i < |z| { assert t[i] == z[i]; } else { assert t[i] == s[i - |z|]; }
      }
    }
    if s == [] {
      assert t == z;
      if z != [] {
        assert t[..|t| - 1] == z[..|z| - 1] + [];
        DigitsValueLeadingZeros(z[..|z| - 1], []);
      }
    } else {
      assert t[..|t| - 1] == z + s[..|s| - 1];
      DigitsValueLeadingZeros(z, s[..|s| - 1]);
    }
  }

  // ---------------------------------------------------------------- padStart

  function Repeat(c: char, n: nat): (r: string)
    ensures |r| == n && forall i :: 0 <= i < n ==> r[i] == c
  {
    if n == 0 then [] else [c] + Repeat(c, n - 1)
  }

  /** `s.padStart(width, c)`. */
  function PadStart(s: string, width: nat, c: char): (r: string)
    ensures |s| >= width ==> r == s
    ensures |s| < width ==> |r| == width
    ensures |r| >= width && |r| >= |s|
    ensures r[|r| - |s|..] == s
    ensures forall i :: 0 <= i < |r| - |s| ==> r[i] == c
  {
    if |s| >= width then s else Repeat(c, width - |s|) + s
  }

  /** Left-padding a digit run with zeros keeps it a digit run of the same value. */
  lemma PadDigits(s: string, w: nat)
    requires AllDigits(s) && |s| <= w
    ensures |PadStart(s, w, '0')| == w
    ensures AllDigits(PadStart(s, w, '0'))
    ensures DigitsValue(PadStart(s, w, '0')) == DigitsValue(s)
  {
    var t := PadStart(s, w, '0');
    var z := t[..w - |s|];
    assert t == z + s;
    DigitsValueLeadingZeros(z, s);
  }

  /** A number below 10^w, printed and left-padded with zeros to width w, is a run
      of exactly w digits whose value is the number. */
  lemma PaddedDigits(n: nat, w: nat)
    requires 1 <= w && n < Pow10(w)
    ensures |PadStart(NatToString(n), w, '0')| == w
    ensures AllDigits(PadStart(NatToString(n), w, '0'))
    ensures DigitsValue(PadStart(NatToString(n), w, '0')) == n
  {
    NatToStringLength(n, w);
    NatToStringValue(n);
    PadDigits(NatToString(n), w);
  }

  // ---------------------------------------------------------------- Number()

  /** Length of the longest prefix of decimal digits. */
  function DigitPrefix(t: string): (k: nat)
    ensures k <= |t|
    ensures AllDigits(t[..k])
    ensures k < |t| ==> !IsDigit(t[k])
  {
    if t == [] || !IsDigit(t[0]) then 0
    else
      var k := 1 + DigitPrefix(t[1..]);
      assert t[..k] == [t[0]] + t[1..][..k - 1];
      k
  }

  /** The value of digits read after a decimal point: `.d1d2…` is
      `(d1 + .d2…) / 10`. */
  function Fraction(ds: string): (f: real)
    requires AllDigits(ds)
    ensures 0.0 <= f < 1.0
  {
    if ds == [] then 0.0 else (DigitVal(ds[0]) as real + Fraction(ds[1..])) / 10.0
  }

  lemma {:induction false} DigitsValueBound(ds: string)
    requires AllDigits(ds)
    ensures DigitsValue(ds) < Pow10(|ds|)
    decreases |ds|
  {
    if ds != [] {
      DigitsValueBound(ds[..|ds| - 1]);
    }
  }

  /** An unsigned decimal literal: digits, optionally `.` and more digits,
      with at least one digit in all. */
  function ParseUnsigned(t: string): (r: Option<real>)
    ensures r.Some? ==> r.value >= 0.0
  {
    var k := DigitPrefix(t);
    if k == |t| then
      if k == 0 then None else Some(DigitsValue(t) as real)
    else if t[k] == '.' && AllDigits(t[k + 1..]) && (k > 0 || k + 1 < |t|) then
      Some(DigitsValue(t[..k]) as real + Fraction(t[k + 1..]))
    else None
  }

  function Negated(o: Option<real>): Option<real> {
    if o.Some? then Some(-o.value) else None
  }

  /** `Number(s)` for a string, with None standing for NaN. Surrounding whitespace
      is ignored, the empty (or all-blank) string is 0, a sign and a decimal
      fraction are accepted. */
  function ParseNumber(s: string): (r: Option<real>)
    ensures AllSpace(s) ==> r == Some(0.0)
  {
    var t := Trim(s);
    if t == [] then Some(0.0)
    else if t[0] == '-' then Negated(ParseUnsigned(t[1..]))
    else if t[0] == '+' then ParseUnsigned(t[1..])
    else ParseUnsigned(t)
  }

  lemma ParseUnsignedDigits(t: string)
    requires t != [] && AllDigits(t)
    ensures ParseUnsigned(t) == Some(DigitsValue(t) as real)
  {
  }

  lemma DigitNotSpace(c: char)
    requires IsDigit(c)
    ensures !IsSpace(c) && c != '-' && c != '+'
  {
  }

  /** `Number()` of a run of digits is its value. */
  lemma NumberOfDigits(d: string)
    requires d != [] && AllDigits(d)
    ensures ParseNumber(d) == Some(DigitsValue(d) as real)
  {
    DigitNotSpace(d[0]);
    DigitNotSpace(d[|d| - 1]);
    TrimOfTrimmed(d);
    ParseUnsignedDigits(d);
  }

  /** `Number()` of a minus sign and a run of digits negates the digits' value. */
  lemma NumberOfNegDigits(d: string)
    requires d != [] && AllDigits(d)
    ensures ParseNumber("-" + d) == Negated(ParseUnsigned(d))
  {
    var s := "-" + d;
    DigitNotSpace(d[|d| - 1]);
    assert s[0] == '-' && s[|s| - 1] == d[|d| - 1] && s[1..] == d;
    TrimOfTrimmed(s);
  }

  lemma NegatedValue(v: nat, n: int, r: Option<real>)
    requires v == -n && r == Negated(Some(v as real))
    ensures r == Some(n as real)
  {
  }

  /** Printing an integer and reading it back with `Number()` gives the integer. */
  lemma NumberOfIntToString(n: int)
    ensures ParseNumber(IntToString(n)) == Some(n as real)
  {
    if n < 0 {
      NumberOfNegative(n);
    } else {
      NumberOfNatural(n);
    }
  }

  lemma NumberOfNegative(n: int)
    requires n < 0
    ensures ParseNumber(IntToString(n)) == Some(n as real)
  {
    var d := NatToString(-n);
    NatToStringValue(-n);
    NumberOfNegDigits(d);
    ParseUnsignedDigits(d);
    NegatedValue(DigitsValue(d), n, ParseNumber("-" + d));
  }

  lemma NumberOfNatural(n: nat)
    ensures ParseNumber(IntToString(n)) == Some(n as real)
  {
    var d := NatToString(n);
    NatToStringValue(n);
    NumberOfDigits(d);
  }

  /** `Number(x)` for a JSON value; None is NaN. */
  function ToNumber(v: JsValue): (r: Option<real>)
    ensures v.Null? ==> r == Some(0.0)
    ensures v.Undefined? ==> r.None?
    ensures v.Num? ==> r == Some(v.n)
  {
    match v
    case Undefined => None
    case Null => Some(0.0)
    case Num(n) => Some(n)
    case Str(s) => ParseNumber(s)
  }

  predicate Truthy(v: JsValue) {
    match v
    case Undefined => false
    case Null => false
    case Num(n) => n != 0.0
    case Str(s) => s != ""
  }

  /** `Number(x) || 0`: NaN and 0 become 0. */
  function NumberOrZero(v: JsValue): (r: real)
    ensures ToNumber(v).Some? ==> r == ToNumber(v).value
    ensures ToNumber(v).None? ==> r == 0.0
  {
    var n := ToNumber(v);
    if n.Some? then n.value else 0.0
  }

  /** `Number(x || 0)`: a falsy value becomes 0 before conversion. */
  function NumberOfOrZero(v: JsValue): (r: Option<real>)
    ensures !Truthy(v) ==> r == Some(0.0)
    ensures Truthy(v) ==> r == ToNumber(v)
  {
    if Truthy(v) then ToNumber(v) else Some(0.0)
  }

  /** A query-string filter written `q ? Number(q) : null` and applied `if (farmId)`:
      the filter is on only when the string is non-empty and converts to a
      number other than 0. */
  function NumericFilter(q: Option<string>): (r: Option<real>)
    ensures r.Some? ==> r.value != 0.0
    ensures q.None? || q == Some("") ==> r.None?
    ensures r.Some? ==> q.Some? && ParseNumber(q.value) == r
    ensures q.Some? && q.value != "" && ParseNumber(q.value).Some? && ParseNumber(q.value).value != 0.0 ==>
      r == ParseNumber(q.value)
  {
    if q.Some? && q.value != "" then
      var n := ParseNumber(q.value);
      if n.Some? && n.value != 0.0 then n else None
    else None
  }

  /** `Number(q)` of a route parameter, accepted only when truthy (not NaN, not 0). */
  function IdParam(q: string): (r: Option<real>)
    ensures r.Some? <==> ParseNumber(q).Some? && ParseNumber(q).value != 0.0
    ensures r.Some? ==> r == ParseNumber(q)
  {
    var n := ParseNumber(q);
    if n.Some? && n.value != 0.0 then n else None
  }
}
