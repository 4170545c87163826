/** String conversions the schemas and controllers rely on: the `lowercase`
    and `trim` schema options, and the decimal text of an integer
    (`${Math.floor(d)}`) together with the reverse cast Mongoose applies when
    text is assigned to a number path. */
module Text {
  import opened Common

  predicate IsUpper(c: char)
  {
    'A' <= c <= 'Z'
  }

  function LowerChar(c: char): (r: char)
    ensures !IsUpper(r)
    ensures !IsUpper(c) ==> r == c
  {
    if IsUpper(c) then (c as int + 32) as char else c
  }

  /** The `lowercase` schema option (letters A to Z). */
  function Lower(s: string): (r: string)
    ensures |r| == |s|
    ensures forall i | 0 <= i < |s| :: r[i] == LowerChar(s[i])
  {
    if s == [] then [] else [LowerChar(s[0])] + Lower(s[1..])
  }

  predicate IsLowered(s: string)
  {
    forall i | 0 <= i < |s| :: !IsUpper(s[i])
  }

  lemma LowerIsLowered(s: string)
    ensures IsLowered(Lower(s))
    ensures Lower(Lower(s)) == Lower(s)
  {
  }

  /** White space and line terminators as `String.prototype.trim` sees them. */
  predicate IsSpace(c: char)
  {
    c == ' ' || c == '\t' || c == '\n' || c == '\r' || c == '\U{000B}' || c == '\U{000C}'
    || c == '\U{00A0}' || c == '\U{1680}' || '\U{2000}' <= c <= '\U{200A}'
    || c == '\U{2028}' || c == '\U{2029}' || c == '\U{202F}' || c == '\U{205F}'
    || c == '\U{3000}' || c == '\U{FEFF}'
  }

  lemma UpperIsNotSpace(c: char)
    requires IsUpper(c)
    ensures !IsSpace(c)
  {
  }

  /** The first position at or after `lo` that does not hold white space,
      or the end of `s`. */
  function SkipSpaces(s: string, lo: nat): (i: nat)
    requires lo <= |s|
    ensures lo <= i <= |s|
    ensures forall k | lo <= k < i :: IsSpace(s[k])
    ensures i == |s| || !IsSpace(s[i])
    decreases |s| - lo
  {
    if lo < |s| && IsSpace(s[lo]) then SkipSpaces(s, lo + 1) else lo
  }

  /** The end of `s[lo..hi]` once its trailing white space is cut off. */
  function SkipSpacesBack(s: string, lo: nat, hi: nat): (j: nat)
    requires lo <= hi <= |s|
    ensures lo <= j <= hi
    ensures forall k | j <= k < hi :: IsSpace(s[k])
    ensures j == lo || !IsSpace(s[j - 1])
  {
    if lo < hi && IsSpace(s[hi - 1]) then SkipSpacesBack(s, lo, hi - 1) else hi
  }

  /** The `trim` schema option: the longest slice of `s` that neither starts
      nor ends with white space, everything cut off being white space. */
  function Trim(s: string): (r: string)
    ensures r == [] || (!IsSpace(r[0]) && !IsSpace(r[|r| - 1]))
    ensures SkipSpaces(s, 0) + |r| <= |s|
    ensures r == s[SkipSpaces(s, 0)..SkipSpaces(s, 0) + |r|]
    ensures forall k | 0 <= k < SkipSpaces(s, 0) :: IsSpace(s[k])
    ensures forall k | SkipSpaces(s, 0) + |r| <= k < |s| :: IsSpace(s[k])
  {
    var i := SkipSpaces(s, 0);
    s[i..SkipSpacesBack(s, i, |s|)]
  }

  /** Trimming text that is already trimmed changes nothing, so a document
      saved twice keeps the value it was saved with. */
  lemma TrimIdempotent(s: string)
    ensures Trim(Trim(s)) == Trim(s)
  {
    var r := Trim(s);
    assert SkipSpaces(r, 0) == 0;
    assert SkipSpacesBack(r, 0, |r|) == |r|;
  }

  /** Trimming removes exactly the white space put around text that neither
      starts nor ends with white space. */
  lemma TrimPadded(pad: string, t: string)
    requires forall k | 0 <= k < |pad| :: IsSpace(pad[k])
    requires t != [] && !IsSpace(t[0]) && !IsSpace(t[|t| - 1])
    ensures Trim(pad + t + pad) == t
  {
    var s := pad + t + pad;
    var i := SkipSpaces(s, 0);
    assert s[|pad|] == t[0];
    assert i == |pad|;
    var j := SkipSpacesBack(s, i, |s|);
    assert s[|pad| + |t| - 1] == t[|t| - 1];
    assert j == |pad| + |t|;
    assert s[i..j] == t;
  }

  /** The `trim` and `lowercase` options together, as on `category`,
      `language` and every element of `tags`. */
  function Normalise(s: string): (r: string)
    ensures IsLowered(r)
    ensures r == [] || (!IsSpace(r[0]) && !IsSpace(r[|r| - 1]))
    ensures |r| <= |s|
  {
    var t := Trim(s);
    var r := Lower(t);
    assert r == [] || (r[0] == LowerChar(t[0]) && r[|r| - 1] == LowerChar(t[|t| - 1]));
    LowerIsLowered(t);
    r
  }

  predicate IsNormalised(s: string)
  {
    IsLowered(s) && (s == [] || (!IsSpace(s[0]) && !IsSpace(s[|s| - 1])))
  }

  lemma {:induction false} NormaliseIdempotent(s: string)
    ensures IsNormalised(Normalise(s))
    ensures Normalise(Normalise(s)) == Normalise(s)
  {
    var r := Normalise(s);
    assert Trim(r) == r by {
      assert SkipSpaces(r, 0) == 0;
      assert SkipSpacesBack(r, 0, |r|) == |r|;
    }
    LowerIsLowered(Trim(s));
    assert Lower(r) == r;
  }

  // Decimal text of integers.

  predicate IsDigit(c: char)
  {
    '0' <= c <= '9'
  }

  predicate IsDigits(s: string)
  {
    |s| > 0 && forall i | 0 <= i < |s| :: IsDigit(s[i])
  }

  function DigitChar(d: nat): (c: char)
    requires d < 10
    ensures IsDigit(c)
  {
    ('0' as int + d) as char
  }

  function DigitValue(c: char): (d: nat)
    requires IsDigit(c)
    ensures d < 10
    ensures DigitChar(d) == c
  {
    c as int - '0' as int
  }

  /** Decimal digits of a natural number, without leading zeros. */
  function Digits(n: nat): (r: string)
    ensures IsDigits(r)
    ensures r[0] == '0' ==> n == 0
  {
    if n < 10 then [DigitChar(n)] else Digits(n / 10) + [DigitChar(n % 10)]
  }

  function DigitsValue(s: string): nat
    requires IsDigits(s)
  {
    if |s| == 1 then DigitValue(s[0])
    else DigitsValue(s[..|s| - 1]) * 10 + DigitValue(s[|s| - 1])
  }

  /** The text JavaScript prints for an integer-valued number. */
  function DecimalString(n: int): (r: string)
    ensures |r| > 0
    ensures n >= 0 ==> IsDigits(r)
    ensures n < 0 ==> r[0] == '-' && IsDigits(r[1..])
  {
    if n < 0 then "-" + Digits(-n) else Digits(n)
  }

  /** The decimal text of an integer has no white space to trim. */
  lemma DecimalStringTrimmed(n: int)
    ensures Trim(DecimalString(n)) == DecimalString(n)
  {
    var d := DecimalString(n);
    assert IsDigit(d[|d| - 1]) by {
      if n < 0 {
        assert d[|d| - 1] == d[1..][|d| - 2];
      }
    }
    TrimPadded("", d);
    assert "" + d + "" == d;
  }

  /** Text read as an integer: an optional minus sign and decimal digits. */
  function ParseDecimal(s: string): (r: Option<int>)
    ensures r.Some? <==> IsDigits(s) || (|s| > 1 && s[0] == '-' && IsDigits(s[1..]))
  {
    if |s| > 1 && s[0] == '-' && IsDigits(s[1..]) then Some(0 - DigitsValue(s[1..]))
    else if IsDigits(s) then Some(DigitsValue(s))
    else None
  }

  lemma {:induction false} DigitsRoundTrip(n: nat)
    ensures DigitsValue(Digits(n)) == n
  {
    if n >= 10 {
      DigitsRoundTrip(n / 10);
      var d := Digits(n / 10) + [DigitChar(n % 10)];
      assert d[..|d| - 1] == Digits(n / 10);
    }
  }

  /** Reading back the printed text of an integer gives the integer. */
  lemma DecimalRoundTrip(n: int)
    ensures ParseDecimal(DecimalString(n)) == Some(n)
  {
    if n < 0 {
      DigitsRoundTrip(-n);
      var d := Digits(-n);
      assert ("-" + d)[1..] == d;
    } else {
      DigitsRoundTrip(n);
      assert IsDigit(Digits(n)[0]);
    }
  }
}
