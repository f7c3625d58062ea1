/** The decimal128 parser told a length: when its result is that of the text cut off there. */
module Decimal128Length {
  import opened Basics
  import opened Digits
  import opened Decimal128Print
  import opened Decimal128Parse

  lemma {:induction false} RunCut(s: string, i: nat, len: nat)
    requires i <= len <= |s|
    ensures RunEnd(s[..len], i) == RunWithin(s, i, len)
    decreases |s| - i
  {
    if i < len && InMantissa(s[i]) { RunCut(s, i + 1, len); }
  }

  lemma {:induction false} DigitRunCut(s: string, i: nat, len: nat)
    requires i <= len <= |s|
    ensures DigitRunEnd(s[..len], i) == Min(DigitRunEnd(s, i), len)
    decreases |s| - i
  {
    if i < len && IsDigit(s[i]) { DigitRunCut(s, i + 1, len); }
  }

  lemma {:induction false} SpacesCut(s: string, i: nat, len: nat)
    requires i <= len <= |s|
    ensures SkipSpaces(s[..len], i) == Min(SkipSpaces(s, i), len)
    decreases |s| - i
  {
    if i < len && IsSpace(s[i]) { SpacesCut(s, i + 1, len); }
  }

  lemma {:induction false} DigitsOfAppend(a: string, b: string)
    ensures DigitsOf(a + b) == DigitsOf(a) + DigitsOf(b)
  {
    if b == [] {
      assert a + b == a;
    } else {
      assert (a + b)[..|a + b| - 1] == a + b[..|b| - 1];
      DigitsOfAppend(a, b[..|b| - 1]);
    }
  }

  lemma {:induction false} AllDigits(m: string)
    requires forall k :: 0 <= k < |m| ==> IsDigit(m[k])
    ensures |DigitsOf(m)| == |m|
  {
    if m != [] { AllDigits(m[..|m| - 1]); }
  }

  /** A longer run of digits denotes the same number only if that is zero. */
  lemma LongerRun(a: string, b: string)
    requires b != [] && forall k :: 0 <= k < |b| ==> IsDigit(b[k])
    ensures Num(DigitsOf(a + b)) == Num(DigitsOf(a)) <==> Num(DigitsOf(a + b)) == 0
  {
    hide Num, DigitsOf;
    AllDigits(b);
    DigitsOfAppend(a, b);
    NumAppend(DigitsOf(a), DigitsOf(b));
    var n, p := Num(DigitsOf(a)), Pow10(|b|);
    assert p >= 10;
    assert n * p == n + n * (p - 1);
    if n > 0 { assert n * (p - 1) >= n; }
  }

  function Magnitude(s: string, k: nat): nat
    requires k <= |s|
  {
    Num(DigitsOf(s[k..DigitRunEnd(s, k)]))
  }

  lemma RunSplit(s: string, k: nat, len: nat, e: nat)
    requires k <= len < e <= |s| && forall c :: k <= c < e ==> IsDigit(s[c])
    ensures Num(DigitsOf(s[k..e])) == Num(DigitsOf(s[k..len])) <==> Num(DigitsOf(s[k..e])) == 0
  {
    hide Num, DigitsOf;
    assert s[k..e] == s[k..len] + s[len..e];
    LongerRun(s[k..len], s[len..e]);
  }

  /** What the length does to a run of digits that starts before it. */
  lemma MagnitudeCut(s: string, k: nat, len: nat)
    requires k <= len <= |s|
    ensures DigitRunEnd(s[..len], k) == Min(DigitRunEnd(s, k), len)
    ensures DigitRunEnd(s, k) <= len ==> Magnitude(s[..len], k) == Magnitude(s, k)
    ensures DigitRunEnd(s, k) > len ==> (Magnitude(s[..len], k) == Magnitude(s, k) <==> Magnitude(s, k) == 0)
  {
    hide Num, DigitsOf, DigitRunEnd;
    DigitRunCut(s, k, len);
    var e := DigitRunEnd(s, k);
    assert s[..len][k..Min(e, len)] == s[k..Min(e, len)];
    if e > len { RunSplit(s, k, len, e); }
  }

  /** Where the digits of an exponent start, behind white space and a sign. */
  function DigitStart(s: string, i: nat): (k: nat)
    requires i <= |s|
    ensures i <= k <= |s|
  {
    var j := SkipSpaces(s, i);
    if j < |s| && (s[j] == '+' || s[j] == '-') then j + 1 else j
  }

  lemma DigitStartCut(s: string, i: nat, len: nat)
    requires i <= len <= |s|
    ensures DigitStart(s[..len], i) == Min(DigitStart(s, i), len)
  {
    SpacesCut(s, i, len);
  }

  predicate Minus(s: string, i: nat)
    requires i <= |s|
  {
    At(s, SkipSpaces(s, i)) == '-'
  }

  lemma ScanIs(s: string, i: nat)
    requires i <= |s|
    ensures ScanInt(s, i) ==
              var k := DigitStart(s, i);
              var n: int := Magnitude(s, k);
              if DigitRunEnd(s, k) == k then None else Some((if Minus(s, i) then -n else n, DigitRunEnd(s, k)))
  {
    hide Num, DigitsOf, DigitRunEnd, SkipSpaces;
  }

  lemma MinusCut(s: string, i: nat, len: nat)
    requires i <= len <= |s| && DigitStart(s, i) < len
    ensures Minus(s[..len], i) == Minus(s, i)
  {
    SpacesCut(s, i, len);
  }

  /** What the length does to an exponent that starts before it. */
  lemma ScanCut(s: string, i: nat, len: nat)
    requires i <= len <= |s|
    ensures ScanInt(s, i) == None ==> ScanInt(s[..len], i) == None
    ensures ScanInt(s, i).Some? && ScanInt(s, i).value.1 <= len ==> ScanInt(s[..len], i) == ScanInt(s, i)
    ensures ScanInt(s, i).Some? && ScanInt(s, i).value.1 > len && ScanInt(s[..len], i).Some? ==>
              && ScanInt(s[..len], i).value.1 == len
              && (ScanInt(s[..len], i).value.0 == ScanInt(s, i).value.0 <==> ScanInt(s, i).value.0 == 0)
  {
    hide ScanInt, Magnitude, DigitStart, Minus, DigitRunEnd;
    ScanIs(s, i);
    ScanIs(s[..len], i);
    DigitStartCut(s, i, len);
    var k := DigitStart(s, i);
    if k < len {
      MagnitudeCut(s, k, len);
      MinusCut(s, i, len);
    }
  }

  predicate IsExponentMark(c: char) { c == 'e' || c == 'E' }

  /**
   * Some digit or the point lies within the length, and an exponent does not reach beyond it, unless it is zero. The
   * mantissa is checked first: a malformed one settles the matter.
   */
  predicate Honoured(s: string, len: nat)
    requires len <= |s|
  {
    var sign := SignLength(s);
    var e := RunWithin(s, sign, len);
    var m := s[sign..e];
    && len > sign
    && (|| Dots(m) > 1 || DigitsOf(m) == [] || !IsExponentMark(At(s, e))
        || match ScanInt(s, e + 1)
           case None => e < len
           case Some((x, j)) => j <= len || (x == 0 && (e == len || ScanInt(s[..len], e + 1).Some?)))
  }

  /** The same sign, mantissa and exponent have been read, or both readings have failed. */
  predicate SameReading(a: Option<Numeral>, b: Option<Numeral>) {
    && a.Some? == b.Some?
    && (a.Some? ==> a.value.sign == b.value.sign && a.value.mantissa == b.value.mantissa
                    && a.value.exponent == b.value.exponent)
  }

  lemma TailCut(s: string, e: nat, len: nat)
    requires e <= len <= |s|
    ensures TailWithin(s, e, len) == ReadTail(s[..len], e)
       <==> || !IsExponentMark(At(s, e))
            || match ScanInt(s, e + 1)
               case None => e < len
               case Some((x, j)) => j <= len || (x == 0 && (e == len || ScanInt(s[..len], e + 1).Some?))
  {
    hide ScanInt;
    if e < len { ScanCut(s, e + 1, len); }
  }

  lemma NoWord(s: string, i: nat, word: string)
    requires At(s, i) == '\0' && word != [] && 'a' <= word[0] <= 'z'
    ensures !EqualNoCase(s, i, word)
  {
    assert Lower(At(s, i + 0)) != Lower(word[0]);
  }

  /** With a length that does not get past the sign, a zero is read where there is no text. */
  lemma NothingOffered(s: string, len: nat)
    requires len <= |s| && len <= SignLength(s) && InMantissa(At(s, SignLength(s)))
    ensures ReadWithin(s, len).Some? && ReadNumeral(s[..len]) == None
    ensures ParseWithin(s, len).Parsed? && Parse(s[..len]) == Rejected
  {
    var cut := s[..len];
    assert len > 0 ==> cut[0] == s[0];
    assert SignLength(cut) == len;
    NoWord(cut, len, "inf");
    NoWord(cut, len, "infinity");
    NoWord(cut, len, "nan");
    assert s[SignLength(s)..SignLength(s)] == [];
  }

  lemma RunStarts(s: string, len: nat)
    requires len <= |s| && InMantissa(At(s, SignLength(s))) && len > SignLength(s)
    ensures SignLength(s) < RunWithin(s, SignLength(s), len) <= len
    ensures SignLength(s[..len]) == SignLength(s) && RunEnd(s[..len], SignLength(s)) == RunWithin(s, SignLength(s), len)
    ensures At(s[..len], 0) == At(s, 0) && At(s[..len], SignLength(s)) == At(s, SignLength(s))
  {
    RunCut(s, SignLength(s), len);
  }

  /** What is read is exactly what would be read of the first `len` characters if and only if Honoured. */
  lemma ReadsCut(s: string, len: nat)
    requires len <= |s| && InMantissa(At(s, SignLength(s)))
    ensures SameReading(ReadWithin(s, len), ReadNumeral(s[..len])) <==> Honoured(s, len)
  {
    hide DigitsOf, Dots, TailWithin, ReadTail, ScanInt, RunEnd, RunWithin, SignLength, InMantissa;
    var sign := SignLength(s);
    if len <= sign {
      NothingOffered(s, len);
    } else {
      RunStarts(s, len);
      var e := RunWithin(s, sign, len);
      assert s[..len][sign..e] == s[sign..e];
      TailCut(s, e, len);
    }
  }

  /** Two texts with the same characters up to a column. */
  predicate Agree(a: string, b: string, end: nat) {
    forall c :: 0 <= c < end ==> At(a, c) == At(b, c)
  }

  lemma {:induction false} SignificantAgrees(a: string, b: string, at: nat, count: nat)
    requires Agree(a, b, at + count)
    ensures Significant(a, at, count) == Significant(b, at, count)
  {
    if count > 0 { SignificantAgrees(a, b, at, count - 1); }
  }

  lemma NormalizeDigitsAgrees(ds: seq<Digit>, a: string, b: string, at: nat, base: nat, exponent: int)
    requires ds != [] && base <= at && Agree(a, b, at + |ds|)
    ensures NormalizeDigits(ds, a, at, base, exponent) == NormalizeDigits(ds, b, at, base, exponent)
  {
    SignificantAgrees(a, b, at, |ds|);
    hide Significant;
    assert UnstoredAccepted(a, base, |ds|) == UnstoredAccepted(b, base, |ds|);
  }

  /** No column behind the mantissa is looked at when a numeral is brought into range. */
  lemma NormalizeAgrees(a: Numeral, b: Numeral)
    requires a.Valid() && b.Valid() && a.sign == b.sign && a.mantissa == b.mantissa && a.exponent == b.exponent
    requires Agree(a.text, b.text, a.sign + |a.mantissa|)
    ensures Normalize(a) == Normalize(b)
  {
    hide DigitsOf, Fraction, Strip, NormalizeDigits, Agree;
    DigitColumns(a.mantissa);
    assert a.All() == b.All() && a.Ds() == b.Ds() && a.Adjusted() == b.Adjusted();
    if a.Ds() != [] {
      NormalizeDigitsAgrees(a.Ds(), a.text, b.text, a.First() + a.Base(), a.Base(), a.Adjusted());
    }
  }

  /** A length that is honoured gives what the parser makes of the first `len` characters. */
  lemma LengthHonoured(s: string, len: nat)
    requires len <= |s| && InMantissa(At(s, SignLength(s)))
    ensures SameReading(ReadWithin(s, len), ReadNumeral(s[..len])) <==> Honoured(s, len)
    ensures Honoured(s, len) ==> ParseWithin(s, len) == Parse(s[..len])
    ensures len <= SignLength(s) ==> ParseWithin(s, len).Parsed? && Parse(s[..len]) == Rejected
  {
    ReadsCut(s, len);
    hide DigitsOf, Dots, TailWithin, ReadTail, ScanInt, RunEnd, RunWithin, SignLength, InMantissa, Normalize;
    if len <= SignLength(s) {
      NothingOffered(s, len);
    } else if Honoured(s, len) {
      RunStarts(s, len);
      var a, b := ReadWithin(s, len), ReadNumeral(s[..len]);
      if a.Some? { NormalizeAgrees(a.value, b.value); }
    }
  }

  lemma DigitAlone(s: string, i: nat)
    requires i < |s| && IsDigit(s[i]) && !IsDigit(At(s, i + 1))
    ensures DigitRunEnd(s, i) == i + 1 && Num(DigitsOf(s[i..i + 1])) == DigitVal(s[i])
  {
    assert DigitRunEnd(s, i + 1) == i + 1;
    var run := s[i..i + 1];
    assert run == [s[i]] && run[..0] == [];
    assert DigitsOf(run) == [] + [DigitVal(s[i])] == [DigitVal(s[i])];
    NumOne(DigitVal(s[i]));
  }

  lemma FiveRead()
    ensures ScanInt("1E5", 2) == Some((5, 3))
  {
    hide DigitRunEnd, DigitsOf, Num;
    DigitAlone("1E5", 2);
    assert SkipSpaces("1E5", 2) == 2;
  }

  lemma OneRead(s: string)
    requires s != [] && s[0] == '1' && !InMantissa(At(s, 1))
    ensures RunEnd(s, 0) == 1 && SignLength(s) == 0 && s[0..1] == "1" && DigitsOf("1") == [1] && Dots("1") == 0
  {
    assert RunEnd(s, 1) == 1;
    assert "1"[..0] == "";
  }

  lemma MarkedRead()
    ensures ReadWithin("1E5", 1) == Some(Numeral("1E5", 0, "1", 5))
    ensures !Honoured("1E5", 1)
  {
    hide RunEnd, DigitsOf, Dots, ScanInt;
    OneRead("1E5");
    FiveRead();
  }

  lemma UnitRead()
    ensures ReadNumeral("1") == Some(Numeral("1", 0, "1", 0))
  {
    hide RunEnd, DigitsOf, Dots, ScanInt;
    OneRead("1");
  }

  /** The exponent behind the length is read: the result is a hundred thousand, not one. */
  lemma ExponentBeyondLength()
    ensures ReadWithin("1E5", 1) == Some(Numeral("1E5", 0, "1", 5))
    ensures ReadNumeral("1E5"[..1]) == Some(Numeral("1", 0, "1", 0))
    ensures !Honoured("1E5", 1)
  {
    hide ReadWithin, ReadNumeral, Honoured;
    MarkedRead();
    assert "1E5"[..1] == "1";
    UnitRead();
  }
}
