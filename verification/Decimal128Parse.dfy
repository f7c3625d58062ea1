/** Parsing a decimal128: what a text means to the parser, and the parser's loops proved to follow it. */
module Decimal128Parse {
  import opened Basics
  import opened Digits
  import opened Decimal128Limbs
  import opened Decimal128Print

  /** OutOfBounds: the source reads the digit after the end of its 34-digit array. */
  datatype Outcome = Parsed(dec: Dec128) | Rejected | OutOfBounds

  /** The NUL-terminated buffer. */
  function At(s: string, i: nat): char { if i < |s| then s[i] else '\0' }

  predicate IsDigit(c: char) { '0' <= c <= '9' }

  predicate InMantissa(c: char) { IsDigit(c) || c == '.' }

  function DigitVal(c: char): Digit
    requires IsDigit(c)
  {
    c as int - '0' as int
  }

  /** Where the run of digits and points that starts at `i` ends. */
  function RunEnd(s: string, i: nat): (e: nat)
    requires i <= |s|
    ensures i <= e <= |s|
    ensures forall k :: i <= k < e ==> InMantissa(s[k])
    ensures !InMantissa(At(s, e))
    decreases |s| - i
  {
    if i < |s| && InMantissa(s[i]) then RunEnd(s, i + 1) else i
  }

  function DigitsOf(m: string): seq<Digit> {
    if m == [] then []
    else DigitsOf(m[..|m| - 1]) + (if IsDigit(m[|m| - 1]) then [DigitVal(m[|m| - 1])] else [])
  }

  function Dots(m: string): nat {
    if m == [] then 0 else Dots(m[..|m| - 1]) + (if m[|m| - 1] == '.' then 1 else 0)
  }

  /** The number of digits after the point. */
  function Fraction(m: string): nat {
    if m == [] then 0
    else if IsDigit(m[|m| - 1]) && Dots(m) > 0 then Fraction(m[..|m| - 1]) + 1
    else Fraction(m[..|m| - 1])
  }

  predicate IsSpace(c: char) { c == ' ' || 9 <= c as int <= 13 }

  function SkipSpaces(s: string, i: nat): (e: nat)
    requires i <= |s|
    ensures i <= e <= |s|
    decreases |s| - i
  {
    if i < |s| && IsSpace(s[i]) then SkipSpaces(s, i + 1) else i
  }

  function DigitRunEnd(s: string, i: nat): (e: nat)
    requires i <= |s|
    ensures i <= e <= |s|
    ensures forall k :: i <= k < e ==> IsDigit(s[k])
    ensures !IsDigit(At(s, e))
    decreases |s| - i
  {
    if i < |s| && IsDigit(s[i]) then DigitRunEnd(s, i + 1) else i
  }

  /** scanf's "%d%n" at `i`: the number read and where reading stopped. */
  function ScanInt(s: string, i: nat): (r: Option<(int, nat)>)
    requires i <= |s|
    ensures r.Some? ==> i < r.value.1 <= |s|
  {
    var j := SkipSpaces(s, i);
    var signed := j < |s| && (s[j] == '+' || s[j] == '-');
    var k := if signed then j + 1 else j;
    var e := DigitRunEnd(s, k);
    if e == k then None
    else
      var magnitude: int := Num(DigitsOf(s[k..e]));
      Some((if signed && s[j] == '-' then -magnitude else magnitude, e))
  }

  function Lower(c: char): char { if 'A' <= c <= 'Z' then (c as int + 32) as char else c }

  /** Case-insensitive equality of NUL-terminated strings from position `i` and 0. */
  predicate EqualNoCase(s: string, i: nat, word: string) {
    && (forall k :: 0 <= k < |word| ==> Lower(At(s, i + k)) == Lower(word[k]))
    && At(s, i + |word|) == '\0'
  }

  /** A numeral the parser has accepted: `sign` columns of sign, the mantissa, the exponent. */
  datatype Numeral = Numeral(text: string, sign: nat, mantissa: string, exponent: int) {
    function All(): seq<Digit> { DigitsOf(mantissa) }

    /** The digits from the first non-zero one. */
    function Ds(): (ds: seq<Digit>)
      ensures ds != [] ==> ds[0] != 0
    {
      Strip(All())
    }

    /** How many zeros precede them. */
    function First(): nat { |All()| - |Ds()| }

    function Base(): nat { sign + if Dots(mantissa) > 0 then 1 else 0 }

    /** The mantissa stands in the text after the sign. */
    predicate Valid() {
      && sign + |mantissa| <= |text|
      && text[sign..sign + |mantissa|] == mantissa
      && (forall k :: 0 <= k < |mantissa| ==> InMantissa(mantissa[k]))
      && Dots(mantissa) <= 1
      && All() != []
    }

    /** The guard that replaces a far too small exponent by the minimum. */
    predicate Underflows() {
      0 <= exponent <= Fraction(mantissa) && Fraction(mantissa) - exponent > 16384
    }

    /** The exponent of the last digit, as the parser computes it. */
    function Adjusted(): int {
      if Underflows() then EXPONENT_MIN else exponent - Fraction(mantissa)
    }
  }

  /** The parser's count of digits without trailing zeros; the scan stops at a radix point. */
  function Significant(text: string, at: nat, count: nat): (r: nat)
    ensures r <= count
  {
    if count > 0 && At(text, at + count - 1) == '0' then Significant(text, at, count - 1) else count
  }

  /** Every character the parser inspects for its unstored digits is a zero. */
  predicate UnstoredAccepted(text: string, base: nat, ndigits: nat) {
    forall c :: MAX_DIGITS + base <= c < ndigits + base ==> At(text, c) == '0'
  }

  /** Digits and exponent after normalisation. */
  datatype Normal = Kept(digits: seq<Digit>, exponent: int) | Refused | Overrun

  /** Normalises digits `ds`, the first of which the parser locates at column `at`. */
  function NormalizeDigits(ds: seq<Digit>, text: string, at: nat, base: nat, exponent: int): Normal
    requires ds != []
  {
    var stored := Min(MAX_DIGITS, |ds|);
    var raise := Max(0, exponent - EXPONENT_MAX);
    var e := Min(exponent, EXPONENT_MAX) + |ds| - stored;
    var drop := Max(0, EXPONENT_MIN - e);
    var m := stored + raise - drop;
    if m > 35 || !UnstoredAccepted(text, base, |ds|) || e > EXPONENT_MAX || drop >= stored
       || ds[stored - drop..stored] != Zeros(drop) then Refused
    else if m < Significant(text, at, |ds|) && At(text, at + m) != '0' then Refused
    else if m == 35 then Overrun
    else Kept((ds[..stored] + Zeros(raise))[..m], e + drop)
  }

  function Normalize(n: Numeral): Normal {
    if n.Ds() == [] then Kept([], Max(EXPONENT_MIN, Min(EXPONENT_MAX, n.Adjusted())))
    else NormalizeDigits(n.Ds(), n.text, n.First() + n.Base(), n.Base(), n.Adjusted())
  }

  function ToProduct(c: nat): Product
    requires c < TWO_64 * TWO_64
  {
    Product(c / TWO_64, c % TWO_64)
  }

  lemma KeptFits(n: Numeral)
    requires Normalize(n).Kept?
    ensures |Normalize(n).digits| <= 34
    ensures Num(Normalize(n).digits) < Pow10(34)
    ensures EXPONENT_MIN <= Normalize(n).exponent <= EXPONENT_MAX
  {
    NumBound(Normalize(n).digits);
    Pow10Mono(|Normalize(n).digits|, 34);
  }

  function Pack(negative: bool, normal: Normal): Outcome
    requires normal.Kept? ==> Num(normal.digits) < Pow10(34)
  {
    match normal
    case Refused => Rejected
    case Overrun => OutOfBounds
    case Kept(digits, exponent) =>
      PowTable();
      Parsed(Encode(negative, ToProduct(Num(digits)), exponent))
  }

  function ParseNumeral(n: Numeral): Outcome {
    if Normalize(n).Kept? then KeptFits(n); Pack(At(n.text, 0) == '-', Normalize(n))
    else Pack(false, Normalize(n))
  }

  function SignLength(s: string): nat { if At(s, 0) == '+' || At(s, 0) == '-' then 1 else 0 }

  /** The exponent after the mantissa, zero when there is none; None unless the text ends there. */
  function ReadTail(s: string, e: nat): Option<int>
    requires e <= |s|
  {
    if At(s, e) == 'e' || At(s, e) == 'E' then
      match ScanInt(s, e + 1)
      case None => None
      case Some((x, j)) => if At(s, j) == '\0' then Some(x) else None
    else if At(s, e) == '\0' then Some(0)
    else None
  }

  /** Splits the text into a numeral; None when it is malformed. */
  function ReadNumeral(s: string): (r: Option<Numeral>)
    ensures r.Some? ==> r.value.Valid() && r.value.text == s && r.value.sign == SignLength(s)
  {
    var sign := SignLength(s);
    var m := s[sign..RunEnd(s, sign)];
    if Dots(m) > 1 || DigitsOf(m) == [] then None
    else
      match ReadTail(s, RunEnd(s, sign))
      case None => None
      case Some(x) => Some(Numeral(s, sign, m, x))
  }

  /** What the parser makes of a NUL-terminated text. */
  function Parse(s: string): Outcome {
    var sign := SignLength(s);
    if !InMantissa(At(s, sign)) then
      if EqualNoCase(s, sign, "inf") || EqualNoCase(s, sign, "infinity") then Parsed(Infinity(At(s, 0) == '-'))
      else if EqualNoCase(s, sign, "nan") then Parsed(NAN)
      else Rejected
    else
      match ReadNumeral(s)
      case None => Rejected
      case Some(n) => ParseNumeral(n)
  }

  /** Where the digit loop stops that starts at `i` and is told that the text has `len` characters. */
  function RunWithin(s: string, i: nat, len: nat): (e: nat)
    requires i <= |s| && len <= |s|
    ensures i <= e <= RunEnd(s, i)
  {
    Min(RunEnd(s, i), Max(len, i))
  }

  /** The exponent is read wherever it ends; the check for surplus characters stops at `len`. */
  function TailWithin(s: string, e: nat, len: nat): Option<int>
    requires e <= |s|
  {
    if At(s, e) == 'e' || At(s, e) == 'E' then
      match ScanInt(s, e + 1)
      case None => None
      case Some((x, j)) => if j >= len || At(s, j) == '\0' then Some(x) else None
    else if e >= len || At(s, e) == '\0' then Some(0)
    else None
  }

  /** The numeral that is read when the parser is told a length; one without digits if that does not reach them. */
  function ReadWithin(s: string, len: nat): (r: Option<Numeral>)
    requires len <= |s|
    ensures r.Some? ==> r.value.text == s && r.value.sign == SignLength(s)
    ensures r.Some? && r.value.mantissa != [] ==> r.value.Valid()
  {
    var sign := SignLength(s);
    var m := s[sign..RunWithin(s, sign, len)];
    if Dots(m) > 1 || (m != [] && DigitsOf(m) == []) then None
    else
      match TailWithin(s, RunWithin(s, sign, len), len)
      case None => None
      case Some(x) => Some(Numeral(s, sign, m, x))
  }

  /** What the parser makes of a text whose length it is told. Sign and words are read whatever the length. */
  function ParseWithin(s: string, len: nat): Outcome
    requires len <= |s|
  {
    if !InMantissa(At(s, SignLength(s))) then Parse(s)
    else
      match ReadWithin(s, len)
      case None => Rejected
      case Some(n) => ParseNumeral(n)
  }

  lemma {:induction false} DotsAppend(a: string, b: string)
    ensures Dots(a + b) == Dots(a) + Dots(b)
  {
    if b == [] {
      assert a + b == a;
    } else {
      assert (a + b)[..|a + b| - 1] == a + b[..|b| - 1];
      DotsAppend(a, b[..|b| - 1]);
    }
  }

  /** Where digit `k` stands: one column further right once past the point. */
  function Column(m: string, k: nat): nat {
    if Dots(m) == 1 && k >= |DigitsOf(m)| - Fraction(m) then k + 1 else k
  }

  lemma {:induction false} DigitColumns(m: string)
    requires forall k :: 0 <= k < |m| ==> InMantissa(m[k])
    requires Dots(m) <= 1
    ensures |DigitsOf(m)| == |m| - Dots(m)
    ensures Fraction(m) <= |DigitsOf(m)|
    ensures Dots(m) == 0 ==> Fraction(m) == 0
    ensures Dots(m) == 1 ==> m[|DigitsOf(m)| - Fraction(m)] == '.'
    ensures forall k :: 0 <= k < |DigitsOf(m)| ==>
      IsDigit(m[Column(m, k)]) && DigitsOf(m)[k] == DigitVal(m[Column(m, k)])
  {
    if m != [] {
      var init := m[..|m| - 1];
      DigitColumns(init);
      forall k | 0 <= k < |DigitsOf(m)|
        ensures IsDigit(m[Column(m, k)]) && DigitsOf(m)[k] == DigitVal(m[Column(m, k)])
      {
        if k < |DigitsOf(init)| {
          assert Column(m, k) == Column(init, k);
          assert m[Column(m, k)] == init[Column(init, k)];
        }
      }
    }
  }
}
