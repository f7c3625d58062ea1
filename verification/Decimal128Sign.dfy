/** What a sign and the words for infinity and NaN mean to the parser. */
module Decimal128Sign {
  import opened Basics
  import opened Digits
  import opened Decimal128Limbs
  import opened Decimal128Print
  import opened Decimal128Parse

  lemma Shifted(c: char, t: string, i: nat)
    ensures At([c] + t, i + 1) == At(t, i)
  {
  }

  lemma {:induction false} RunShifted(c: char, t: string, i: nat)
    requires i <= |t|
    ensures RunEnd([c] + t, i + 1) == RunEnd(t, i) + 1
    decreases |t| - i
  {
    if i < |t| && InMantissa(t[i]) { RunShifted(c, t, i + 1); }
  }

  lemma {:induction false} SpacesShifted(c: char, t: string, i: nat)
    requires i <= |t|
    ensures SkipSpaces([c] + t, i + 1) == SkipSpaces(t, i) + 1
    decreases |t| - i
  {
    if i < |t| && IsSpace(t[i]) { SpacesShifted(c, t, i + 1); }
  }

  lemma {:induction false} DigitsShifted(c: char, t: string, i: nat)
    requires i <= |t|
    ensures DigitRunEnd([c] + t, i + 1) == DigitRunEnd(t, i) + 1
    decreases |t| - i
  {
    if i < |t| && IsDigit(t[i]) { DigitsShifted(c, t, i + 1); }
  }

  lemma SliceShifted(c: char, t: string, a: nat, b: nat)
    requires a <= b <= |t|
    ensures ([c] + t)[a + 1..b + 1] == t[a..b]
  {
  }

  lemma ScanShifted(c: char, t: string, i: nat)
    requires i <= |t|
    ensures ScanInt([c] + t, i + 1) ==
              if ScanInt(t, i) == None then None
              else Some((ScanInt(t, i).value.0, ScanInt(t, i).value.1 + 1))
  {
    hide Num, DigitsOf, DigitRunEnd, SkipSpaces;
    SpacesShifted(c, t, i);
    var j := SkipSpaces(t, i);
    var k := if j < |t| && (t[j] == '+' || t[j] == '-') then j + 1 else j;
    DigitsShifted(c, t, k);
    SliceShifted(c, t, k, DigitRunEnd(t, k));
  }

  lemma TailShifted(c: char, t: string, e: nat)
    requires e <= |t|
    ensures ReadTail([c] + t, e + 1) == ReadTail(t, e)
  {
    hide ScanInt;
    Shifted(c, t, e);
    if At(t, e) == 'e' || At(t, e) == 'E' {
      ScanShifted(c, t, e + 1);
      if ScanInt(t, e + 1).Some? { Shifted(c, t, ScanInt(t, e + 1).value.1); }
    }
  }

  lemma {:induction false} SignificantShifted(c: char, t: string, at: nat, count: nat)
    ensures Significant([c] + t, at + 1, count) == Significant(t, at, count)
  {
    if count > 0 {
      Shifted(c, t, at + count - 1);
      SignificantShifted(c, t, at, count - 1);
    }
  }

  lemma UnstoredShifted(c: char, t: string, base: nat, ndigits: nat)
    ensures UnstoredAccepted([c] + t, base + 1, ndigits) <==> UnstoredAccepted(t, base, ndigits)
  {
    var s := [c] + t;
    forall k: nat ensures At(s, k + 1) == At(t, k) { Shifted(c, t, k); }
    if UnstoredAccepted(s, base + 1, ndigits) {
      forall k: nat | MAX_DIGITS + base <= k < ndigits + base ensures At(t, k) == '0' {
        assert At(s, k + 1) == '0';
      }
    }
    if UnstoredAccepted(t, base, ndigits) {
      forall k: nat | MAX_DIGITS + base + 1 <= k < ndigits + base + 1 ensures At(s, k) == '0' {
        assert At(t, k - 1) == '0' && At(s, (k - 1) + 1) == At(t, k - 1);
      }
    }
  }

  lemma DigitsNormalized(c: char, t: string, ds: seq<Digit>, at: nat, base: nat, exponent: int)
    requires ds != []
    ensures NormalizeDigits(ds, [c] + t, at + 1, base + 1, exponent) == NormalizeDigits(ds, t, at, base, exponent)
  {
    SignificantShifted(c, t, at, |ds|);
    UnstoredShifted(c, t, base, |ds|);
    forall k: nat ensures At([c] + t, k + 1) == At(t, k) { Shifted(c, t, k); }
    hide Significant, UnstoredAccepted, At;
    var stored := Min(MAX_DIGITS, |ds|);
    var drop := Max(0, EXPONENT_MIN - (Min(exponent, EXPONENT_MAX) + |ds| - stored));
    var m := stored + Max(0, exponent - EXPONENT_MAX) - drop;
    if m >= 0 { assert At([c] + t, at + m + 1) == At(t, at + m); }
  }

  lemma NumeralNormalized(c: char, t: string, m: string, x: int)
    ensures Normalize(Numeral([c] + t, 1, m, x)) == Normalize(Numeral(t, 0, m, x))
  {
    hide NormalizeDigits, DigitsOf, Strip, Fraction;
    var a, b := Numeral([c] + t, 1, m, x), Numeral(t, 0, m, x);
    assert a.Ds() == b.Ds() && a.All() == b.All() && a.Adjusted() == b.Adjusted();
    if a.Ds() != [] { DigitsNormalized(c, t, b.Ds(), b.First() + b.Base(), b.Base(), b.Adjusted()); }
  }

  lemma NumeralShifted(c: char, t: string)
    requires c == '+' || c == '-'
    requires At(t, 0) != '+' && At(t, 0) != '-'
    ensures ReadNumeral([c] + t) ==
              if ReadNumeral(t) == None then None
              else Some(Numeral([c] + t, 1, ReadNumeral(t).value.mantissa, ReadNumeral(t).value.exponent))
  {
    hide ReadTail, RunEnd, DigitsOf, Dots;
    RunShifted(c, t, 0);
    SliceShifted(c, t, 0, RunEnd(t, 0));
    TailShifted(c, t, RunEnd(t, 0));
  }

  lemma WordShifted(c: char, t: string, word: string)
    ensures EqualNoCase([c] + t, 1, word) <==> EqualNoCase(t, 0, word)
  {
    forall k: nat ensures At([c] + t, k + 1) == At(t, k) { Shifted(c, t, k); }
    hide At, Lower;
  }

  /** The same number with the sign bit set; NaN has no sign. */
  function Negated(o: Outcome): Outcome {
    if o.Parsed? && o.dec != NAN && o.dec.high < TWO_63 then Parsed(Dec128(o.dec.high + TWO_63, o.dec.low)) else o
  }

  lemma EncodeSigned(significand: Product, exponent: int)
    requires significand.high < TWO_49 && EXPONENT_MIN <= exponent <= EXPONENT_MAX
    ensures Parsed(Encode(true, significand, exponent)) == Negated(Parsed(Encode(false, significand, exponent)))
  {
    var biased := exponent + EXPONENT_BIAS;
    assert significand.high / TWO_49 == 0 && significand.high % TWO_49 == significand.high;
    assert biased % 0x1_0000 % 0x4000 == biased;
  }

  lemma PackSigned(normal: Normal)
    requires normal.Kept? ==> Num(normal.digits) < Pow10(34) && EXPONENT_MIN <= normal.exponent <= EXPONENT_MAX
    ensures Pack(true, normal) == Negated(Pack(false, normal))
  {
    if normal.Kept? {
      PowTable();
      EncodeSigned(ToProduct(Num(normal.digits)), normal.exponent);
    }
  }

  /** A plus sign changes nothing, and a minus sign sets the sign bit of whatever number or infinity follows. */
  lemma SignOnly(t: string)
    requires At(t, 0) != '+' && At(t, 0) != '-'
    ensures Parse("+" + t) == Parse(t)
    ensures Parse("-" + t) == Negated(Parse(t))
  {
    Signed('+', t);
    Signed('-', t);
  }

  lemma Signed(c: char, t: string)
    requires (c == '+' || c == '-') && At(t, 0) != '+' && At(t, 0) != '-'
    ensures Parse([c] + t) == if c == '-' then Negated(Parse(t)) else Parse(t)
  {
    hide EqualNoCase, ReadNumeral, Normalize, Pack, Negated, InMantissa;
    Shifted(c, t, 0);
    if InMantissa(At(t, 0)) {
      NumeralShifted(c, t);
      if ReadNumeral(t).Some? { NumeralSigned(c, t, ReadNumeral(t).value); } else { NothingNegated(); }
    } else {
      WordShifted(c, t, "inf");
      WordShifted(c, t, "infinity");
      WordShifted(c, t, "nan");
      WordsNegated();
    }
  }

  lemma NumeralSigned(c: char, t: string, n: Numeral)
    requires (c == '+' || c == '-') && n.sign == 0 && n.text == t && At(t, 0) != '-'
    ensures ParseNumeral(Numeral([c] + t, 1, n.mantissa, n.exponent))
         == if c == '-' then Negated(ParseNumeral(n)) else ParseNumeral(n)
  {
    hide Normalize, Pack, Negated;
    NumeralNormalized(c, t, n.mantissa, n.exponent);
    if Normalize(n).Kept? { KeptFits(n); }
    PackSigned(Normalize(n));
    NothingNegated();
    NotKept(Normalize(n));
  }

  lemma NotKept(normal: Normal)
    requires normal.Kept? ==> Num(normal.digits) < Pow10(34)
    ensures !normal.Kept? ==> Pack(true, normal) == Pack(false, normal)
  {
  }

  lemma NothingNegated()
    ensures Negated(Rejected) == Rejected && Negated(OutOfBounds) == OutOfBounds
  {
  }

  lemma WordsNegated()
    ensures Negated(Parsed(Infinity(false))) == Parsed(Infinity(true)) && Negated(Parsed(NAN)) == Parsed(NAN)
    ensures Negated(Rejected) == Rejected
  {
  }

  /** The letters of a word from column `i` to the end of the text, each in either case. */
  predicate Reads(s: string, i: nat, word: string) {
    |s| == i + |word| && forall k :: 0 <= k < |word| ==> s[i + k] == word[k] || s[i + k] as int == word[k] as int - 32
  }

  lemma WordReads(s: string, i: nat, word: string)
    requires i <= |s| && '\0' !in s && forall k :: 0 <= k < |word| ==> 'a' <= word[k] <= 'z'
    ensures EqualNoCase(s, i, word) <==> Reads(s, i, word)
  {
    assert i + |word| < |s| ==> s[i + |word|] in s;
    assert i + |word| > |s| ==> Lower(At(s, i + (|s| - i))) != Lower(word[|s| - i]);
    if EqualNoCase(s, i, word) {
      forall k | 0 <= k < |word| ensures s[i + k] == word[k] || s[i + k] as int == word[k] as int - 32 {
        assert Lower(At(s, i + k)) == Lower(word[k]);
      }
    }
  }

  /** What is no numeral is a word for infinity or NaN, in any mixture of cases, or refused. */
  lemma Words(s: string)
    requires '\0' !in s && !InMantissa(At(s, SignLength(s)))
    ensures var i := SignLength(s);
            Parse(s) == if Reads(s, i, "inf") || Reads(s, i, "infinity") then
                          Parsed(Dec128(if At(s, 0) == '-' then 0xF800_0000_0000_0000 else 0x7800_0000_0000_0000, 0))
                        else if Reads(s, i, "nan") then Parsed(Dec128(0x7C00_0000_0000_0000, 0))
                        else Rejected
  {
    WordReads(s, SignLength(s), "inf");
    WordReads(s, SignLength(s), "infinity");
    WordReads(s, SignLength(s), "nan");
    hide EqualNoCase, Reads;
  }
}
