/** When a parsed value is exactly the number the text denotes, and which texts are accepted. */
module Decimal128Exact {
  import opened Basics
  import opened Digits
  import opened Decimal128Limbs
  import opened Decimal128Print
  import opened Decimal128Parse
  import opened Decimal128Read
  import opened Decimal128RoundTrip

  /** c1 * 10^e1 and c2 * 10^e2 are the same rational. */
  predicate SameValue(c1: nat, e1: int, c2: nat, e2: int) {
    if e1 >= e2 then c1 * Pow10(e1 - e2) == c2 else c1 == c2 * Pow10(e2 - e1)
  }

  /** The digits beyond the 34 stored are all zero. */
  predicate UnstoredZero(n: Numeral) {
    forall k :: 34 <= k < |n.Ds()| ==> n.Ds()[k] == 0
  }

  /**
   * The guard that keeps the parser exact: no more than 16384 digits behind the point that the exponent does not make
   * up for, unless it is negative, and nothing but zeros behind the first 34 significant digits.
   */
  predicate Faithful(n: Numeral) {
    n.Ds() == [] || (!(n.exponent >= 0 && Fraction(n.mantissa) > n.exponent + 16384) && UnstoredZero(n))
  }

  lemma AllIsDs(n: Numeral)
    ensures Num(n.All()) == Num(n.Ds())
  {
    StripIsToDigits(n.All());
    NumToDigits(Num(n.All()));
  }

  lemma ZeroDigits(ds: seq<Digit>, m: nat)
    requires m <= |ds|
    ensures Num(ds[m..]) == 0 <==> forall k :: m <= k < |ds| ==> ds[k] == 0
  {
    NumZeroIff(ds[m..]);
    if forall k :: m <= k < |ds| ==> ds[k] == 0 {
      assert ds[m..] == Zeros(|ds| - m);
    } else {
      var k :| m <= k < |ds| && ds[k] != 0;
      assert ds[m..][k - m] != 0;
    }
  }

  /** Keeping the first `m` digits and raising the exponent by the rest is exact when the rest is zero. */
  lemma PrefixExact(ds: seq<Digit>, m: nat, e: int)
    requires m <= |ds|
    ensures SameValue(Num(ds[..m]), e + |ds| - m, Num(ds), e) <==> forall k :: m <= k < |ds| ==> ds[k] == 0
  {
    assert ds == ds[..m] + ds[m..];
    NumAppend(ds[..m], ds[m..]);
    ZeroDigits(ds, m);
  }

  lemma LargeProduct(head: nat, p: nat, rest: nat)
    requires head >= 1 && p >= 1 && rest >= 1
    ensures head * ((10 * p) * rest) >= head * p + p
  {
    assert (10 * p) * rest >= 10 * p by { assert (10 * p) * (rest - 1) >= 0; }
    assert head * ((10 * p) * rest) >= head * (10 * p) by {
      assert head * ((10 * p) * rest - 10 * p) >= 0;
    }
    assert head * (10 * p) == 10 * (head * p);
    assert head * p >= p by { assert (head - 1) * p >= 0; }
  }

  lemma NumPositive(ds: seq<Digit>)
    requires ds != [] && ds[0] != 0
    ensures Num(ds) >= 1
  {
    NumLeading(ds);
  }

  /** A prefix raised by more than the digits dropped is too large. */
  lemma PrefixTooLarge(ds: seq<Digit>, m: nat, e: int, e': int)
    requires 1 <= m <= |ds| && ds[0] != 0
    requires e > e' + |ds| - m
    ensures !SameValue(Num(ds[..m]), e, Num(ds), e')
  {
    var u, rest := |ds| - m, e - e' - (|ds| - m) - 1;
    assert ds == ds[..m] + ds[m..];
    NumAppend(ds[..m], ds[m..]);
    NumBound(ds[m..]);
    NumPositive(ds[..m]);
    Pow10Add(u + 1, rest);
    TooLarge(Num(ds[..m]), Pow10(u), Pow10(rest), Num(ds[m..]));
  }

  lemma TooLarge(head: nat, p: nat, rest: nat, tail: nat)
    requires head >= 1 && p >= 1 && rest >= 1 && tail < p
    ensures head * ((10 * p) * rest) > head * p + tail
  {
    LargeProduct(head, p, rest);
  }

  /** An exponent above the maximum is shifted into the coefficient without loss. */
  lemma RaisedExact(ds: seq<Digit>, stored: nat, raise: nat, e0: int)
    requires stored == |ds|
    ensures SameValue(Num((ds[..stored] + Zeros(raise))[..stored + raise]), e0 - raise, Num(ds), e0)
  {
    assert ds[..stored] == ds;
    assert (ds + Zeros(raise))[..stored + raise] == ds + Zeros(raise);
    NumPadded(ds, raise);
  }

  /** Otherwise a prefix is kept; what is dropped, and the exponent guard, decide. */
  lemma LoweredExact(n: Numeral, stored: nat, drop: nat)
    requires n.Ds() != [] && stored == Min(MAX_DIGITS, |n.Ds()|) && drop < stored
    requires n.Adjusted() <= EXPONENT_MAX && n.Ds()[stored - drop..stored] == Zeros(drop)
    ensures SameValue(Num((n.Ds()[..stored] + Zeros(0))[..stored - drop]), n.Adjusted() + |n.Ds()| - stored + drop,
                      Num(n.Ds()), n.exponent - Fraction(n.mantissa))
       <==> Faithful(n)
  {
    var ds, m := n.Ds(), stored - drop;
    KeptPrefix(ds, stored, drop);
    if n.Underflows() {
      PrefixTooLarge(ds, m, n.Adjusted() + |ds| - m, n.exponent - Fraction(n.mantissa));
    } else {
      PrefixExact(ds, m, n.Adjusted());
      DroppedZero(ds, stored, drop);
    }
  }

  lemma ZeroExact(e1: int, e2: int)
    ensures SameValue(Num([]), e1, Num([]), e2)
  {
  }

  /** The digits and exponent kept are exactly the number read, if and only if the guard holds. */
  lemma KeptExact(n: Numeral)
    requires Normalize(n).Kept?
    ensures SameValue(Num(Normalize(n).digits), Normalize(n).exponent, Num(n.All()), n.exponent - Fraction(n.mantissa))
       <==> Faithful(n)
  {
    hide Num, Pow10, Significant, UnstoredAccepted;
    AllIsDs(n);
    if n.Ds() == [] {
      ZeroExact(Normalize(n).exponent, n.exponent - Fraction(n.mantissa));
    } else {
      var stored := Min(MAX_DIGITS, |n.Ds()|);
      if n.Adjusted() > EXPONENT_MAX {
        RaisedExact(n.Ds(), stored, n.Adjusted() - EXPONENT_MAX, n.Adjusted());
      } else {
        LoweredExact(n, stored, Max(0, EXPONENT_MIN - (n.Adjusted() + |n.Ds()| - stored)));
      }
    }
  }

  lemma KeptPrefix(ds: seq<Digit>, stored: nat, drop: nat)
    requires drop <= stored <= |ds|
    ensures (ds[..stored] + Zeros(0))[..stored - drop] == ds[..stored - drop]
  {
  }

  lemma DroppedZero(ds: seq<Digit>, stored: nat, drop: nat)
    requires drop <= stored <= |ds| && ds[stored - drop..stored] == Zeros(drop)
    ensures (forall k :: stored - drop <= k < |ds| ==> ds[k] == 0) <==> (forall k :: stored <= k < |ds| ==> ds[k] == 0)
  {
    forall k | stored - drop <= k < stored ensures ds[k] == 0 {
      assert ds[k] == ds[stored - drop..stored][k - (stored - drop)];
    }
  }

  lemma PackValue(negative: bool, digits: seq<Digit>, exponent: int)
    requires Num(digits) < Pow10(34) && EXPONENT_MIN <= exponent <= EXPONENT_MAX
    ensures var u := Unpack(Pack(negative, Kept(digits, exponent)).dec);
            u.Finite? && u.negative == negative && u.exponent == exponent && Value(u.parts) == Num(digits)
  {
    UnpackEncode(negative, Num(digits), exponent);
    WordsValue(Num(digits));
  }

  /** The bits denote exactly the rational written in the text. */
  predicate Denotes(dec: Dec128, n: Numeral) {
    match Unpack(dec)
    case Finite(negative, exponent, parts) =>
      && negative == (At(n.text, 0) == '-')
      && SameValue(Value(parts), exponent, Num(n.All()), n.exponent - Fraction(n.mantissa))
    case _ => false
  }

  lemma PacksKept(n: Numeral)
    requires ParseNumeral(n).Parsed?
    ensures Normalize(n).Kept? && Num(Normalize(n).digits) < Pow10(34)
    ensures EXPONENT_MIN <= Normalize(n).exponent <= EXPONENT_MAX
    ensures ParseNumeral(n) == Pack(At(n.text, 0) == '-', Kept(Normalize(n).digits, Normalize(n).exponent))
  {
    hide Normalize, Encode;
    if Normalize(n).Kept? { KeptFits(n); }
  }

  /** What a packed coefficient and exponent denote. */
  lemma PackDenotes(n: Numeral, digits: seq<Digit>, exponent: int)
    requires Num(digits) < Pow10(34) && EXPONENT_MIN <= exponent <= EXPONENT_MAX
    ensures Denotes(Pack(At(n.text, 0) == '-', Kept(digits, exponent)).dec, n)
       <==> SameValue(Num(digits), exponent, Num(n.All()), n.exponent - Fraction(n.mantissa))
  {
    hide Pack, SameValue, Unpack, Num, Value, Fraction;
    PackValue(At(n.text, 0) == '-', digits, exponent);
  }

  /** An accepted numeral is encoded exactly, without rounding, if and only if the guard holds. */
  lemma NumeralExact(n: Numeral)
    requires ParseNumeral(n).Parsed?
    ensures Denotes(ParseNumeral(n).dec, n) <==> Faithful(n)
  {
    PacksKept(n);
    hide Normalize, ParseNumeral, Pack, SameValue, Faithful, Denotes, Num, Fraction;
    PackDenotes(n, Normalize(n).digits, Normalize(n).exponent);
    KeptExact(n);
  }

  /** The same for a whole text that is not one of the words for infinity and NaN. */
  lemma ParseExact(s: string)
    requires InMantissa(At(s, SignLength(s))) && Parse(s).Parsed?
    ensures ReadNumeral(s).Some?
    ensures Denotes(Parse(s).dec, ReadNumeral(s).value) <==> Faithful(ReadNumeral(s).value)
  {
    assert ReadNumeral(s).Some?;
    NumeralExact(ReadNumeral(s).value);
  }

  /**
   * Which numerals are accepted, in columns of the text: the exponent is in reach of the 34 digits, every column looked
   * at for digits beyond them shows a zero, and so does the column behind the digits kept.
   */
  predicate Accepts(n: Numeral) {
    var e, digits := n.Adjusted(), |n.Ds()|;
    if e > EXPONENT_MAX then digits + e - EXPONENT_MAX <= 34
    else
      var stored := Min(MAX_DIGITS, digits);
      var drop := Max(0, EXPONENT_MIN - (e + digits - stored));
      && e + digits - stored <= EXPONENT_MAX
      && drop < stored
      && (forall k :: stored - drop <= k < stored ==> n.Ds()[k] == 0)
      && UnstoredAccepted(n.text, n.Base(), digits)
      && (stored - drop < digits ==> At(n.text, n.First() + n.Base() + stored - drop) == '0')
  }

  /**
   * The exponent that is kept: that of the last digit read, or of the 34th if there are more, brought into the range
   * from -6176 to 6111; a zero keeps its exponent within that range.
   */
  lemma QuantumKept(n: Numeral)
    requires Normalize(n).Kept?
    ensures n.Ds() == [] ==> Normalize(n) == Kept([], Max(-6176, Min(6111, n.exponent - Fraction(n.mantissa))))
    ensures n.Ds() != [] && !(n.exponent >= 0 && Fraction(n.mantissa) > n.exponent + 16384) ==>
              var last := n.exponent - Fraction(n.mantissa);
              Normalize(n).exponent == Max(-6176, Min(6111, last) + Max(0, |n.Ds()| - 34))
  {
    hide Significant, UnstoredAccepted, DigitsOf;
  }

  /** A column in front of the last digit that shows no zero keeps the count of significant digits above it. */
  lemma RoundingLooks(text: string, at: nat, count: nat, m: nat)
    ensures (m < Significant(text, at, count) && At(text, at + m) != '0') <==> (m < count && At(text, at + m) != '0')
  {
    if m < count && At(text, at + m) != '0' {
      SignificantStops(text, at, count, m + 1);
    }
  }

  /** Acceptance of any numeral that is not zero, and when the parser reads behind its digits. */
  lemma AcceptedIff(n: Numeral)
    requires n.Valid() && n.Ds() != []
    ensures Normalize(n).Kept? <==> Accepts(n)
    ensures Normalize(n).Overrun? <==> n.Adjusted() > EXPONENT_MAX && |n.Ds()| + n.Adjusted() - EXPONENT_MAX == 35
  {
    hide Significant;
    var ds := n.Ds();
    var stored := Min(MAX_DIGITS, |ds|);
    var raise := Max(0, n.Adjusted() - EXPONENT_MAX);
    var drop := Max(0, EXPONENT_MIN - (n.Adjusted() + |ds| - stored));
    RoundingLooks(n.text, n.First() + n.Base(), |ds|, Max(0, stored + raise - drop));
    if n.Adjusted() > EXPONENT_MAX {
      assert ds[stored..stored] == Zeros(0);
    } else if drop < stored {
      ZerosAtEnd(ds, stored, drop);
    }
  }

  lemma ZerosAtEnd(ds: seq<Digit>, stored: nat, drop: nat)
    requires drop <= stored <= |ds|
    ensures (ds[stored - drop..stored] == Zeros(drop)) <==> forall k :: stored - drop <= k < stored ==> ds[k] == 0
  {
    ZeroSuffix(ds[..stored], drop);
    assert ds[..stored][stored - drop..stored] == ds[stored - drop..stored];
  }

  /** For at most 34 digits: which exponents and trailing zeros are accepted. */
  predicate AcceptsShort(n: Numeral) {
    var e, digits := n.Adjusted(), |n.Ds()|;
    if e > EXPONENT_MAX then digits + e - EXPONENT_MAX <= 34
    else
      var drop := Max(0, EXPONENT_MIN - e);
      && drop < digits
      && (forall k :: digits - drop <= k < digits ==> n.Ds()[k] == 0)
      && !(drop > 0 && Dots(n.mantissa) == 1 && drop == Fraction(n.mantissa) + 1)
  }

  /** Without a point the digit looked at for rounding is the first one dropped. */
  lemma RoundingPlain(n: Numeral, m: nat)
    requires n.Valid() && Dots(n.mantissa) == 0 && m < |n.Ds()| && n.Ds()[m] == 0
    ensures At(n.text, n.First() + n.Base() + m) == '0'
  {
    StripSplit(n.All());
    assert n.All()[n.First() + m] == n.Ds()[m];
    TextColumns(n, n.First() + m);
  }

  /** With a point it may be one digit further on, or the point itself. */
  lemma RoundingPoint(n: Numeral, m: nat)
    requires n.Valid() && Dots(n.mantissa) == 1 && 1 <= m < |n.Ds()|
    requires forall k :: m <= k < |n.Ds()| ==> n.Ds()[k] == 0
    ensures |n.Ds()| - m != Fraction(n.mantissa) + 1 ==> At(n.text, n.First() + n.Base() + m) == '0'
    ensures |n.Ds()| - m == Fraction(n.mantissa) + 1 ==> At(n.text, n.First() + n.Base() + m) == '.'
  {
    var k := n.First() + m;
    StripSplit(n.All());
    PointColumn(n);
    if k + 1 != |n.All()| - Fraction(n.mantissa) {
      var j := if k >= |n.All()| - Fraction(n.mantissa) then k else k + 1;
      assert n.All()[j] == n.Ds()[j - n.First()];
      TextColumns(n, j);
    }
  }

  /** Whether dropping trailing zeros down to `m` digits is taken for inexact rounding. */
  lemma RoundingColumn(n: Numeral, m: nat)
    requires n.Valid() && 1 <= m < |n.Ds()|
    requires forall k :: m <= k < |n.Ds()| ==> n.Ds()[k] == 0
    ensures (m < Significant(n.text, n.First() + n.Base(), |n.Ds()|) && At(n.text, n.First() + n.Base() + m) != '0')
       <==> (Dots(n.mantissa) == 1 && |n.Ds()| - m == Fraction(n.mantissa) + 1)
  {
    if Dots(n.mantissa) == 1 {
      RoundingPoint(n, m);
      if |n.Ds()| - m == Fraction(n.mantissa) + 1 {
        SignificantStops(n.text, n.First() + n.Base(), |n.Ds()|, m + 1);
      }
    } else {
      RoundingPlain(n, m);
    }
  }

  /** With at most 34 digits from the first non-zero one, acceptance is decided by the exponent and trailing zeros. */
  lemma AcceptedShort(n: Numeral)
    requires n.Valid() && 1 <= |n.Ds()| <= 34
    ensures Normalize(n).Kept? <==> AcceptsShort(n)
    ensures Normalize(n).Overrun? <==> n.Adjusted() > EXPONENT_MAX && |n.Ds()| + n.Adjusted() - EXPONENT_MAX == 35
  {
    var ds := n.Ds();
    var drop := Max(0, EXPONENT_MIN - n.Adjusted());
    if n.Adjusted() <= EXPONENT_MAX && drop < |ds| {
      assert (ds[|ds| - drop..|ds|] == Zeros(drop)) <==> forall k :: |ds| - drop <= k < |ds| ==> ds[k] == 0 by {
        ZeroSuffix(ds, drop);
      }
      if 0 < drop && forall k :: |ds| - drop <= k < |ds| ==> ds[k] == 0 {
        RoundingColumn(n, |ds| - drop);
      }
    } else if n.Adjusted() > EXPONENT_MAX {
      assert ds[|ds|..|ds|] == Zeros(0);
    }
  }

  lemma ZeroSuffix(ds: seq<Digit>, drop: nat)
    requires drop <= |ds|
    ensures (ds[|ds| - drop..|ds|] == Zeros(drop)) <==> forall k :: |ds| - drop <= k < |ds| ==> ds[k] == 0
  {
    if ds[|ds| - drop..|ds|] == Zeros(drop) {
      forall k | |ds| - drop <= k < |ds| ensures ds[k] == 0 {
        assert ds[k] == ds[|ds| - drop..|ds|][k - (|ds| - drop)];
      }
    }
  }

  /** What is accepted is kept, and exactly, if and only if the guard holds. */
  lemma AcceptedExact(n: Numeral)
    requires n.Valid() && n.Ds() != [] && Accepts(n)
    ensures Normalize(n).Kept?
    ensures SameValue(Num(Normalize(n).digits), Normalize(n).exponent, Num(n.All()), n.exponent - Fraction(n.mantissa))
       <==> Faithful(n)
  {
    AcceptedIff(n);
    KeptExact(n);
  }

  /** Digit texts as numerals: sign-free mantissa, exponent in scientific notation. */
  lemma Reads(m: string, all: seq<Digit>, dots: nat, frac: nat, x: int) returns (n: Numeral)
    requires Shape(m, all, dots, frac)
    ensures var s := m + "E" + Signed(x);
            ReadNumeral(s) == Some(n) && Parse(s) == ParseNumeral(n)
    ensures n == Numeral(m + "E" + Signed(x), 0, m, x)
    ensures n.Valid() && n.All() == all && Dots(n.mantissa) == dots && Fraction(n.mantissa) == frac
  {
    hide Signed, ParseNumeral, ReadNumeral, EqualNoCase;
    ReadShape(false, m, all, dots, frac, "E" + Signed(x), x);
    assert "" + m + ("E" + Signed(x)) == m + "E" + Signed(x);
    n := Numeral(m + "E" + Signed(x), 0, m, x);
  }

  /** A coefficient shifted up to 35 digits makes the parser read past its digit array: 1E+6145. */
  lemma ShiftedTooFar()
    ensures Parse(Text([1]) + "E" + Signed(6145)) == OutOfBounds
  {
    TextShape([1]);
    var n := Reads(Text([1]), [1], 0, 0, 6145);
    StripPrefixed(0, [1]);
    assert Zeros(0) + [1] == [1];
    AcceptedShort(n);
  }

  /** [1, 0] as a mantissa with or without a point behind it, at exponent -6177. */
  lemma OneZero(m: string, dots: nat) returns (n: Numeral)
    requires Shape(m, [1, 0], dots, 0)
    ensures Parse(m + "E" + Signed(-6177)) == ParseNumeral(n)
    ensures n.Ds() == [1, 0] && n.Adjusted() == -6177
    ensures Normalize(n).Kept? <==> dots == 0
    ensures !Normalize(n).Overrun?
  {
    hide Parse, ReadNumeral, ParseNumeral, Normalize, Signed, Shape;
    StripPrefixed(0, [1, 0]);
    assert Zeros(0) + [1, 0] == [1, 0];
    n := Reads(m, [1, 0], dots, 0, -6177);
    AcceptedShort(n);
  }

  /** 10.E-6177 is refused although 10E-6177 is accepted: the point is taken for a digit to be rounded. */
  lemma PointTakenForDigit()
    ensures Parse(Text([1, 0]) + "." + Text([]) + "E" + Signed(-6177)) == Rejected
    ensures Parse(Text([1, 0]) + "E" + Signed(-6177)).Parsed?
  {
    assert [1, 0] + [] == [1, 0];
    PointShape([1, 0], []);
    TextShape([1, 0]);
    var n := OneZero(Text([1, 0]) + "." + Text([]), 1);
    var n' := OneZero(Text([1, 0]), 0);
  }

  /** Two zeros, a one, 34 zeros and a five. */
  lemma HiddenDigit() returns (n: Numeral)
    ensures ReadNumeral(n.text) == Some(n) && Parse(n.text) == ParseNumeral(n)
    ensures n.Ds() == [1] + Zeros(34) + [5] && !n.Underflows() && n.Adjusted() == 0
    ensures n.First() == 2 && n.Base() == 0
    ensures forall c :: 34 <= c < 37 ==> At(n.text, c) == '0'
  {
    var ds: seq<Digit> := [1] + Zeros(34) + [5];
    var all := Zeros(2) + ds;
    TextShape(all);
    n := Reads(Text(all), all, 0, 0, 0);
    StripPrefixed(2, ds);
    forall c | 34 <= c < 37 ensures At(n.text, c) == '0' {
      TextAt(all, c);
    }
  }

  /** Behind two leading zeros, a 36th digit is dropped although it is not zero. */
  lemma HiddenDigitIsWrong() returns (s: string)
    ensures Parse(s).Parsed? && ReadNumeral(s).Some?
    ensures !Denotes(Parse(s).dec, ReadNumeral(s).value)
  {
    var n := HiddenDigit();
    s := n.text;
    var ds := n.Ds();
    assert UnstoredAccepted(n.text, n.Base(), |ds|);
    assert ds[34..34] == Zeros(0);
    assert NormalizeDigits(ds, n.text, 2, 0, 0).Kept?;
    assert ds[35] == 5;
    NumeralExact(n);
  }

  /** A one after 16384 zeros behind the point is parsed as 10^-6176. */
  lemma TinyIsWrong() returns (s: string)
    ensures Parse(s).Parsed? && ReadNumeral(s).Some?
    ensures !Denotes(Parse(s).dec, ReadNumeral(s).value)
  {
    var b: seq<Digit> := Zeros(16384) + [1];
    PointShape([0], b);
    var m := Text([0]) + "." + Text(b);
    s := m + "E" + Signed(0);
    var n := Reads(m, [0] + b, 1, 16385, 0);
    assert [0] + b == Zeros(16385) + [1];
    StripPrefixed(16385, [1]);
    AcceptedShort(n);
    NumeralExact(n);
  }
}
