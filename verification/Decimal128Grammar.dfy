/** Which texts are numerals: a sign, digits with at most one point, and an exponent, as the parser reads them. */
module Decimal128Grammar {
  import opened Basics
  import opened Digits
  import opened Decimal128Print
  import opened Decimal128Parse
  import Decimal128RoundTrip

  /** The white space that scanf skips. */
  predicate Space(c: char) { c == ' ' || c == '\t' || c == '\n' || c == '\r' || c as int == 11 || c as int == 12 }

  predicate AllSpaces(s: string) { forall k :: 0 <= k < |s| ==> Space(s[k]) }

  predicate AllDigits(s: string) { forall k :: 0 <= k < |s| ==> '0' <= s[k] <= '9' }

  /** The number that decimal digits denote. */
  function ValueOf(s: string): (n: nat)
    requires AllDigits(s)
  {
    if s == [] then 0 else 10 * ValueOf(s[..|s| - 1]) + (s[|s| - 1] as int - '0' as int)
  }

  /** A mantissa: digits, at least one of them, and at most one point. */
  predicate IsMantissa(m: string) {
    && (forall k :: 0 <= k < |m| ==> '0' <= m[k] <= '9' || m[k] == '.')
    && (exists k :: 0 <= k < |m| && m[k] != '.')
    && (forall i, j :: 0 <= i < j < |m| && m[i] == '.' ==> m[j] != '.')
  }

  /** An exponent: its mark, white space, a sign or none, and digits. */
  predicate ExponentIs(tail: string, mark: char, spaces: string, sign: string, digits: string, x: int) {
    && (mark == 'e' || mark == 'E') && AllSpaces(spaces) && (sign == "" || sign == "+" || sign == "-")
    && digits != "" && AllDigits(digits) && tail == [mark] + spaces + sign + digits
    && x == (if sign == "-" then -1 else 1) * ValueOf(digits)
  }

  /** What may follow a mantissa: nothing, or an exponent. */
  ghost predicate TailIs(tail: string, x: int) {
    (tail == "" && x == 0) || exists mark, spaces, sign, digits :: ExponentIs(tail, mark, spaces, sign, digits, x)
  }

  /** A numeral in its parts. */
  ghost predicate NumeralIs(s: string, sign: string, mantissa: string, tail: string, x: int) {
    && (sign == "" || sign == "+" || sign == "-") && IsMantissa(mantissa) && TailIs(tail, x)
    && s == sign + mantissa + tail
  }

  lemma {:induction false} SameValue(s: string)
    requires AllDigits(s)
    ensures Num(DigitsOf(s)) == ValueOf(s)
  {
    if s != [] {
      SameValue(s[..|s| - 1]);
      NumSnoc(DigitsOf(s[..|s| - 1]), DigitVal(s[|s| - 1]));
    }
  }

  lemma {:induction false} SpacesEnd(s: string, i: nat)
    requires i <= |s|
    ensures forall k :: i <= k < SkipSpaces(s, i) ==> Space(s[k])
    ensures SkipSpaces(s, i) < |s| ==> !Space(s[SkipSpaces(s, i)])
    decreases |s| - i
  {
    if i < |s| && IsSpace(s[i]) { SpacesEnd(s, i + 1); }
  }

  lemma {:induction false} SpacesEndAt(s: string, i: nat, j: nat)
    requires i <= j <= |s| && (forall k :: i <= k < j ==> Space(s[k])) && (j < |s| ==> !Space(s[j]))
    ensures SkipSpaces(s, i) == j
    decreases j - i
  {
    if i < j { SpacesEndAt(s, i + 1, j); }
  }

  lemma {:induction false} NoDots(m: string)
    ensures Dots(m) == 0 <==> forall k :: 0 <= k < |m| ==> m[k] != '.'
  {
    if m != [] { NoDots(m[..|m| - 1]); }
  }

  lemma {:induction false} OneDot(m: string)
    ensures Dots(m) <= 1 <==> forall i, j :: 0 <= i < j < |m| && m[i] == '.' ==> m[j] != '.'
  {
    if m != [] {
      var init := m[..|m| - 1];
      OneDot(init);
      NoDots(init);
    }
  }

  lemma {:induction false} SomeDigit(m: string)
    requires forall k :: 0 <= k < |m| ==> InMantissa(m[k])
    ensures DigitsOf(m) != [] <==> exists k :: 0 <= k < |m| && m[k] != '.'
  {
    if m != [] {
      var init := m[..|m| - 1];
      SomeDigit(init);
      if DigitsOf(m) != [] && DigitsOf(init) != [] {
        var k :| 0 <= k < |init| && init[k] != '.';
        assert m[k] != '.';
      }
      if k :| 0 <= k < |m| && m[k] != '.' {
        assert k < |init| ==> init[k] != '.';
      }
    }
  }

  lemma MantissaExactly(m: string)
    requires forall k :: 0 <= k < |m| ==> InMantissa(m[k])
    ensures IsMantissa(m) <==> Dots(m) <= 1 && DigitsOf(m) != []
  {
    OneDot(m);
    SomeDigit(m);
  }

  /** The first part of a rest of the text stands where the rest starts. */
  lemma Placed(s: string, i: nat, a: string, b: string)
    requires i <= |s| && s[i..] == a + b
    ensures i + |a| <= |s| && s[i + |a|..] == b
    ensures forall k :: i <= k < i + |a| ==> s[k] == a[k - i]
  {
    forall k | i <= k < i + |a| ensures s[k] == a[k - i] {
      assert s[i..][k - i] == s[k];
    }
    assert s[i + |a|..] == s[i..][|a|..];
  }

  /** A sign, or none, and digits to the end of the text. */
  lemma SignedReads(s: string, j: nat, sign: string, digits: string)
    requires j <= |s| && s[j..] == sign + digits && digits != "" && AllDigits(digits)
    requires sign == "" || sign == "+" || sign == "-"
    ensures j < |s| && if sign == "" then '0' <= s[j] <= '9' else s[j] == sign[0]
    ensures DigitRunEnd(s, j + |sign|) == |s| && s[j + |sign|..|s|] == digits
  {
    hide DigitRunEnd;
    var k := j + |sign|;
    Placed(s, j, sign, digits);
    DigitsTo(s, k, digits);
    if sign != "" {
      FirstOf(s, j, sign + digits);
      assert (sign + digits)[0] == sign[0];
    }
  }

  /** Digits to the end of the text. */
  lemma DigitsTo(s: string, k: nat, digits: string)
    requires k <= |s| && s[k..] == digits != "" && AllDigits(digits)
    ensures DigitRunEnd(s, k) == |s| && s[k..|s|] == digits && k < |s| && '0' <= s[k] <= '9'
  {
    hide DigitRunEnd;
    FirstOf(s, k, digits);
    Decimal128RoundTrip.SuffixDigits(s, k, digits);
    Decimal128RoundTrip.DigitRunEndIs(s, k, |s|);
  }

  lemma FirstOf(s: string, i: nat, rest: string)
    requires i <= |s| && s[i..] == rest != ""
    ensures i < |s| && s[i] == rest[0]
  {
  }

  /** scanf reads white space, a sign and digits. */
  lemma ScanReads(s: string, i: nat, spaces: string, sign: string, digits: string)
    requires i <= |s| && s[i..] == spaces + (sign + digits) && AllSpaces(spaces) && digits != "" && AllDigits(digits)
    requires sign == "" || sign == "+" || sign == "-"
    ensures ScanInt(s, i) == Some(((if sign == "-" then -1 else 1) * ValueOf(digits), |s|))
  {
    hide Num, DigitsOf, ValueOf, SkipSpaces, DigitRunEnd, AllDigits;
    var j := i + |spaces|;
    Placed(s, i, spaces, sign + digits);
    SignedReads(s, j, sign, digits);
    SpacesEndAt(s, i, j);
    SameValue(digits);
  }

  /** What scanf has read, if it has read to the end. */
  lemma ScanParts(s: string, i: nat) returns (spaces: string, sign: string, digits: string)
    requires i <= |s| && ScanInt(s, i).Some? && ScanInt(s, i).value.1 == |s|
    ensures s[i..] == spaces + (sign + digits) && AllSpaces(spaces) && digits != "" && AllDigits(digits)
    ensures sign == "" || sign == "+" || sign == "-"
    ensures ScanInt(s, i).value.0 == (if sign == "-" then -1 else 1) * ValueOf(digits)
  {
    hide Num, DigitsOf, ValueOf;
    SpacesEnd(s, i);
    var j := SkipSpaces(s, i);
    var k := if j < |s| && (s[j] == '+' || s[j] == '-') then j + 1 else j;
    spaces, sign, digits := s[i..j], s[j..k], s[k..|s|];
    ThreeParts(s, i, j, k);
    assert k == j + 1 ==> sign == [s[j]];
    SameValue(digits);
  }

  lemma ThreeParts(s: string, i: nat, j: nat, k: nat)
    requires i <= j <= k <= |s|
    ensures s[i..] == s[i..j] + (s[j..k] + s[k..|s|])
  {
  }

  /** What follows the mantissa is read exactly when it is nothing or an exponent. */
  lemma TailExactly(s: string, e: nat, x: int)
    requires e <= |s| && '\0' !in s
    ensures ReadTail(s, e) == Some(x) <==> TailIs(s[e..], x)
  {
    if ReadTail(s, e) == Some(x) { TailRead(s, e, x); }
    if TailIs(s[e..], x) { TailTaken(s, e, x); }
  }

  lemma TailRead(s: string, e: nat, x: int)
    requires e <= |s| && '\0' !in s && ReadTail(s, e) == Some(x)
    ensures TailIs(s[e..], x)
  {
    hide ScanInt;
    assert forall k :: 0 <= k < |s| ==> s[k] in s && s[k] != '\0';
    if e < |s| {
      var spaces, sign, digits := ScanParts(s, e + 1);
      assert s[e..] == [s[e]] + s[e + 1..];
      assert s[e..] == [s[e]] + spaces + sign + digits by { Grouped(s[e], spaces, sign, digits); }
      assert ExponentIs(s[e..], s[e], spaces, sign, digits, x);
    }
  }

  lemma Grouped(c: char, spaces: string, sign: string, digits: string)
    ensures [c] + (spaces + (sign + digits)) == [c] + spaces + sign + digits
  {
  }

  lemma TailTaken(s: string, e: nat, x: int)
    requires e <= |s| && TailIs(s[e..], x)
    ensures ReadTail(s, e) == Some(x)
  {
    hide ScanInt;
    if mark, spaces, sign, digits :| ExponentIs(s[e..], mark, spaces, sign, digits, x) {
      var tail := spaces + sign + digits;
      assert s[e..] == [mark] + tail && tail == spaces + (sign + digits);
      Decimal128RoundTrip.AfterFirst(s, e, mark, tail);
      ScanReads(s, e + 1, spaces, sign, digits);
    }
  }

  lemma MantissaShape(m: string)
    requires IsMantissa(m)
    ensures m != "" && forall k :: 0 <= k < |m| ==> InMantissa(m[k])
  {
  }

  lemma NumeralTaken(s: string, sign: string, mantissa: string, tail: string, x: int)
    requires '\0' !in s && NumeralIs(s, sign, mantissa, tail, x)
    ensures ReadNumeral(s) == Some(Numeral(s, SignLength(s), mantissa, x))
  {
    hide TailIs, IsMantissa, ReadTail, RunEnd, DigitsOf, Dots;
    var i, e := |sign|, |sign| + |mantissa|;
    MantissaShape(mantissa);
    TailStarts(tail, x);
    assert s[e..] == tail && s[i] == mantissa[0] && (i == 1 ==> s[0] == sign[0]) && (e < |s| ==> s[e] == tail[0]);
    Decimal128RoundTrip.MantissaRead(s, sign, mantissa, tail);
    MantissaExactly(mantissa);
    TailExactly(s, e, x);
  }

  lemma TailStarts(tail: string, x: int)
    requires TailIs(tail, x)
    ensures tail != "" ==> !InMantissa(tail[0])
  {
  }

  lemma NumeralRead(s: string, mantissa: string, x: int)
    requires '\0' !in s && ReadNumeral(s) == Some(Numeral(s, SignLength(s), mantissa, x))
    ensures exists sign, tail :: NumeralIs(s, sign, mantissa, tail, x)
  {
    hide TailIs, IsMantissa, ReadTail, RunEnd, DigitsOf, Dots, SignLength;
    var i := SignLength(s);
    var e := RunEnd(s, i);
    MantissaExactly(s[i..e]);
    TailExactly(s, e, x);
    SignText(s);
    assert s == s[..i] + mantissa + s[e..];
    assert NumeralIs(s, s[..i], mantissa, s[e..], x);
  }

  lemma SignText(s: string)
    ensures SignLength(s) <= |s|
    ensures var sign := s[..SignLength(s)]; sign == "" || sign == "+" || sign == "-"
  {
    if SignLength(s) == 1 { assert s[..1] == [s[0]]; }
  }

  /** The parser reads a text as a numeral exactly when it is one, in these parts. */
  lemma ReadsExactly(s: string, mantissa: string, x: int)
    requires '\0' !in s
    ensures ReadNumeral(s) == Some(Numeral(s, SignLength(s), mantissa, x))
       <==> exists sign, tail :: NumeralIs(s, sign, mantissa, tail, x)
  {
    hide ReadNumeral, NumeralIs;
    if ReadNumeral(s) == Some(Numeral(s, SignLength(s), mantissa, x)) { NumeralRead(s, mantissa, x); }
    if sign, tail :| NumeralIs(s, sign, mantissa, tail, x) { NumeralTaken(s, sign, mantissa, tail, x); }
  }
}
