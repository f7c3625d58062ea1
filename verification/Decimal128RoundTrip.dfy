/** Printing then parsing gives back the same 128 bits exactly for the canonical patterns. */
module Decimal128RoundTrip {
  import opened Basics
  import opened Digits
  import opened Decimal128Limbs
  import opened Decimal128Print
  import opened Decimal128Parse

  /** The preferred encodings: no infinity or NaN payload, and a coefficient below 10^34. */
  predicate IsCanonical(dec: Dec128) {
    match Unpack(dec)
    case Inf(negative) => dec == Infinity(negative)
    case NotANumber => dec == NAN
    case Finite(_, _, parts) => Value(parts) < Pow10(34)
  }

  lemma {:induction false} Multiples(d: int, q: int, q': int)
    requires d > 0
    ensures q < q' ==> q * d + d <= q' * d
    decreases q' - q
  {
    if q + 1 < q' { Multiples(d, q, q' - 1); }
    assert q' * d == (q' - 1) * d + d;
  }

  lemma Unique(d: int, q: int, r: int, q': int, r': int)
    requires 0 <= r < d && 0 <= r' < d && q * d + r == q' * d + r'
    ensures q == q' && r == r'
  {
    Multiples(d, q, q');
    Multiples(d, q', q);
  }

  lemma DivMod(x: int, d: int, q: int, r: int)
    requires 0 <= r < d && x == q * d + r
    ensures x / d == q && x % d == r
  {
    Unique(d, q, r, x / d, x % d);
  }

  /** A coefficient in 32-bit words. */
  function Words(c: nat): seq<uint32>
    requires c < TWO_64 * TWO_64
  {
    [c / TWO_64 / TWO_32, c / TWO_64 % TWO_32, c % TWO_64 / TWO_32, c % TWO_64 % TWO_32]
  }

  lemma WordsValue(c: nat)
    requires c < TWO_64 * TWO_64
    ensures Value(Words(c)) == c
  {
    ValueOfFour(Words(c));
  }

  /** Four words are determined by their value. */
  lemma WordsUnique(parts: seq<uint32>)
    requires |parts| == 4
    ensures Value(parts) / TWO_64 == parts[0] * TWO_32 + parts[1]
    ensures Value(parts) % TWO_64 == parts[2] * TWO_32 + parts[3]
  {
    ValueOfFour(parts);
    DivMod(Value(parts), TWO_64, parts[0] * TWO_32 + parts[1], parts[2] * TWO_32 + parts[3]);
  }

  /** The upper half of the bits: sign, exponent, and the top of the coefficient in two words. */
  function Upper(negative: bool, biased: nat, word0: nat, word1: nat): nat {
    (if negative then TWO_63 else 0) + biased * TWO_49 + word0 * TWO_32 + word1
  }

  /** The fields of a packed word, read back by division. */
  lemma Fields(negative: bool, biased: nat, word0: nat, word1: uint32)
    requires biased < 0x3000 && word0 < 0x2_0000
    ensures var high := Upper(negative, biased, word0, word1);
            && (high >= TWO_63) == negative
            && high % TWO_32 == word1
            && high / TWO_32 / 0x2_0000 % 0x4000 == biased
            && high / TWO_32 % 0x4000 + high / TWO_32 / 0x4000 % 8 * 0x4000 == word0
            && high / TWO_32 / 0x400_0000 % 0x20 / 8 < 3
  {
    var high := Upper(negative, biased, word0, word1);
    var sign := if negative then 1 else 0;
    var top := sign * 0x8000_0000 + biased * 0x2_0000 + word0;
    DivMod(high, TWO_32, top, word1);
    DivMod(top, 0x2_0000, sign * 0x4000 + biased, word0);
    DivMod(sign * 0x4000 + biased, 0x4000, sign, biased);
    var a, b := word0 / 0x4000, word0 % 0x4000;
    DivMod(top, 0x4000, sign * 0x2_0000 + biased * 8 + a, b);
    DivMod(sign * 0x2_0000 + biased * 8 + a, 8, sign * 0x4000 + biased, a);
    var c, d := biased / 0x200, biased % 0x200;
    DivMod(top, 0x400_0000, sign * 0x20 + c, d * 0x2_0000 + word0);
    DivMod(sign * 0x20 + c, 0x20, sign, c);
  }

  /** A canonical coefficient needs no more than 17 bits of the top word. */
  lemma EncodeUpper(negative: bool, c: nat, exponent: int)
    requires c < Pow10(34) && EXPONENT_MIN <= exponent <= EXPONENT_MAX
    ensures c < TWO_64 * TWO_64 && Words(c)[0] < 0x2_0000
    ensures Encode(negative, ToProduct(c), exponent).high
         == Upper(negative, exponent + EXPONENT_BIAS, Words(c)[0], Words(c)[1])
  {
    PowTable();
    var high := c / TWO_64;
    assert high < TWO_49;
    DivMod(high, TWO_49, 0, high);
    DivMod(exponent + EXPONENT_BIAS, 0x1_0000, 0, exponent + EXPONENT_BIAS);
    DivMod(exponent + EXPONENT_BIAS, 0x4000, 0, exponent + EXPONENT_BIAS);
  }

  lemma UnpackUpper(negative: bool, biased: nat, word0: nat, word1: uint32, low: uint64)
    requires biased < 0x3000 && word0 < 0x2_0000
    ensures Upper(negative, biased, word0, word1) < TWO_64
    ensures Unpack(Dec128(Upper(negative, biased, word0, word1), low))
         == Finite(negative, biased - EXPONENT_BIAS, [word0, word1, low / TWO_32, low % TWO_32])
  {
    Fields(negative, biased, word0, word1);
  }

  /** Unpacking what was encoded. */
  lemma UnpackEncode(negative: bool, c: nat, exponent: int)
    requires c < Pow10(34) && EXPONENT_MIN <= exponent <= EXPONENT_MAX
    ensures c < TWO_64 * TWO_64
    ensures Unpack(Encode(negative, ToProduct(c), exponent)) == Finite(negative, exponent, Words(c))
  {
    EncodeUpper(negative, c, exponent);
    UnpackUpper(negative, exponent + EXPONENT_BIAS, Words(c)[0], Words(c)[1], c % TWO_64);
  }

  /** A word outside the special ranges is made of its fields. */
  lemma FieldsBack(high: uint64)
    requires high / TWO_32 / 0x400_0000 % 0x20 / 8 != 3
    ensures high == Upper(high >= TWO_63, high / TWO_32 / 0x2_0000 % 0x4000,
                          high / TWO_32 % 0x4000 + high / TWO_32 / 0x4000 % 8 * 0x4000, high % TWO_32)
  {
    var top := high / TWO_32;
    var a := top / 0x2_0000;
    var b := top / 0x4000;
    DivMod(b, 8, a, b % 8);
    DivMod(a, 0x4000, if high >= TWO_63 then 1 else 0, a % 0x4000);
  }

  /** A pattern that is not special is put together from what unpacking shows. */
  lemma Reassemble(dec: Dec128)
    requires dec.high / TWO_32 / 0x400_0000 % 0x20 / 8 != 3
    ensures Unpack(dec).Finite?
    ensures var u := Unpack(dec);
            dec == Dec128(Upper(u.negative, u.exponent + EXPONENT_BIAS, u.parts[0], u.parts[1]),
                          u.parts[2] * TWO_32 + u.parts[3])
  {
    FieldsBack(dec.high);
  }

  lemma SmallIsPlain(dec: Dec128)
    requires Unpack(dec).Finite? && Unpack(dec).parts[0] < 0x2_0000
    ensures dec.high / TWO_32 / 0x400_0000 % 0x20 / 8 != 3
  {
  }

  lemma UnpackShape(dec: Dec128)
    requires Unpack(dec).Finite?
    ensures |Unpack(dec).parts| == 4 && EXPONENT_MIN <= Unpack(dec).exponent <= EXPONENT_MAX
  {
  }

  lemma WordsBack(parts: seq<uint32>)
    requires |parts| == 4
    ensures Value(parts) < TWO_64 * TWO_64 && Words(Value(parts))[0] == parts[0] && Words(Value(parts))[1] == parts[1]
  {
    WordsUnique(parts);
    DivMod(parts[0] * TWO_32 + parts[1], TWO_32, parts[0], parts[1]);
  }

  lemma EncodeLower(negative: bool, c: nat, exponent: int)
    requires c < TWO_64 * TWO_64 && EXPONENT_MIN <= exponent <= EXPONENT_MAX
    ensures Encode(negative, ToProduct(c), exponent).low == c % TWO_64
  {
  }

  /** Encoding what was unpacked, for a coefficient in range. */
  lemma EncodeUnpack(dec: Dec128)
    requires Unpack(dec).Finite? && Value(Unpack(dec).parts) < Pow10(34)
    ensures Value(Unpack(dec).parts) < TWO_64 * TWO_64
    ensures Encode(Unpack(dec).negative, ToProduct(Value(Unpack(dec).parts)), Unpack(dec).exponent) == dec
  {
    var u := Unpack(dec);
    var c := Value(u.parts);
    UnpackShape(dec);
    WordsBack(u.parts);
    WordsUnique(u.parts);
    hide Value, Words, Unpack, Upper, Encode, ToProduct;
    EncodeUpper(u.negative, c, u.exponent);
    EncodeLower(u.negative, c, u.exponent);
    SmallIsPlain(dec);
    Reassemble(dec);
  }

  lemma {:induction false} RunEndIs(s: string, i: nat, e: nat)
    requires i <= e <= |s|
    requires forall k :: i <= k < e ==> InMantissa(s[k])
    requires !InMantissa(At(s, e))
    ensures RunEnd(s, i) == e
    decreases e - i
  {
    if i < e { RunEndIs(s, i + 1, e); }
  }

  lemma {:induction false} DigitRunEndIs(s: string, i: nat, e: nat)
    requires i <= e <= |s|
    requires forall k :: i <= k < e ==> IsDigit(s[k])
    requires !IsDigit(At(s, e))
    ensures DigitRunEnd(s, i) == e
    decreases e - i
  {
    if i < e { DigitRunEndIs(s, i + 1, e); }
  }

  lemma ScanSnoc(m: string, d: Digit)
    ensures var t := m + [DigitChar(d)];
            DigitsOf(t) == DigitsOf(m) + [d] && Dots(t) == Dots(m) && (Dots(m) == 0 ==> Fraction(t) == Fraction(m))
  {
    assert (m + [DigitChar(d)])[..|m|] == m;
  }

  lemma {:induction false} TextDigits(ds: seq<Digit>)
    ensures DigitsOf(Text(ds)) == ds && Dots(Text(ds)) == 0 && Fraction(Text(ds)) == 0
    ensures forall k :: 0 <= k < |ds| ==> IsDigit(Text(ds)[k])
  {
    if ds != [] {
      var init, d := ds[..|ds| - 1], ds[|ds| - 1];
      TextDigits(init);
      ScanSnoc(Text(init), d);
      assert init + [d] == ds;
    }
  }

  lemma {:induction false} PointDigits(a: seq<Digit>, b: seq<Digit>)
    ensures var m := Text(a) + "." + Text(b);
            DigitsOf(m) == a + b && Dots(m) == 1 && Fraction(m) == |b|
  {
    var m := Text(a) + "." + Text(b);
    TextDigits(a);
    if b == [] {
      assert m == Text(a) + ".";
      assert m[..|m| - 1] == Text(a);
    } else {
      var init := b[..|b| - 1];
      assert m[..|m| - 1] == Text(a) + "." + Text(init);
      PointDigits(a, init);
    }
  }

  /** What a mantissa consisting of digits and possibly one point denotes. */
  predicate Shape(m: string, all: seq<Digit>, dots: nat, frac: nat) {
    && (forall k :: 0 <= k < |m| ==> InMantissa(m[k]))
    && m != [] && all != []
    && DigitsOf(m) == all && Dots(m) == dots <= 1 && Fraction(m) == frac
  }

  lemma TextShape(a: seq<Digit>)
    requires a != []
    ensures Shape(Text(a), a, 0, 0)
  {
    TextDigits(a);
  }

  lemma PointMantissa(a: string, b: string)
    requires forall k :: 0 <= k < |a| ==> IsDigit(a[k])
    requires forall k :: 0 <= k < |b| ==> IsDigit(b[k])
    ensures forall k :: 0 <= k < |a + "." + b| ==> InMantissa((a + "." + b)[k])
  {
  }

  lemma PointShape(a: seq<Digit>, b: seq<Digit>)
    requires a + b != []
    ensures Shape(Text(a) + "." + Text(b), a + b, 1, |b|)
  {
    TextDigits(a);
    TextDigits(b);
    PointMantissa(Text(a), Text(b));
    PointDigits(a, b);
  }

  lemma DecimalText(n: nat)
    ensures Decimal(n) != "" && Num(DigitsOf(Decimal(n))) == n
    ensures forall k :: 0 <= k < |Decimal(n)| ==> IsDigit(Decimal(n)[k])
  {
    if n == 0 {
      assert Decimal(0) == Text([0]);
      TextDigits([0]);
    } else {
      TextDigits(ToDigits(n));
      NumToDigits(n);
    }
  }

  lemma SuffixDigits(s: string, i: nat, magnitude: string)
    requires i <= |s| && s[i..] == magnitude
    requires forall k :: 0 <= k < |magnitude| ==> IsDigit(magnitude[k])
    ensures forall k :: i <= k < |s| ==> IsDigit(s[k])
    ensures s[i..|s|] == magnitude
  {
    forall k | i <= k < |s| ensures IsDigit(s[k]) {
      assert s[k] == magnitude[k - i];
    }
  }

  /** A sign followed by digits up to the end of the text. */
  lemma ScanSign(s: string, i: nat, magnitude: string)
    requires i < |s| && (s[i] == '+' || s[i] == '-')
    requires s[i + 1..|s|] == magnitude != ""
    requires forall k :: i + 1 <= k < |s| ==> IsDigit(s[k])
    ensures ScanInt(s, i) == Some((if s[i] == '-' then 0 - Num(DigitsOf(magnitude)) else Num(DigitsOf(magnitude)), |s|))
  {
    assert SkipSpaces(s, i) == i;
    DigitRunEndIs(s, i + 1, |s|);
  }

  lemma AfterFirst(s: string, i: nat, c: char, rest: string)
    requires i <= |s| && s[i..] == [c] + rest
    ensures i < |s| && s[i] == c && s[i + 1..] == rest
  {
    assert s[i] == s[i..][0];
    assert s[i + 1..] == s[i..][1..];
  }

  lemma SignedText(n: int, magnitude: nat)
    requires magnitude == if n < 0 then -n else n
    ensures Signed(n) == [if n < 0 then '-' else '+'] + Decimal(magnitude)
  {
  }

  /** scanf reads back what printf's "%+d" wrote. */
  lemma ScanSigned(s: string, i: nat, n: int)
    requires i <= |s| && s[i..] == Signed(n)
    ensures ScanInt(s, i) == Some((n, |s|))
  {
    hide ScanInt, Num;
    var magnitude: nat := if n < 0 then -n else n;
    DecimalText(magnitude);
    var sign := if n < 0 then '-' else '+';
    SignedText(n, magnitude);
    AfterFirst(s, i, sign, Decimal(magnitude));
    SuffixDigits(s, i + 1, Decimal(magnitude));
    ScanSign(s, i, Decimal(magnitude));
  }

  lemma TailRead(s: string, e: nat, tail: string, x: int)
    requires e <= |s| && s[e..] == tail
    requires (tail == "" && x == 0) || tail == "E" + Signed(x)
    ensures ReadTail(s, e) == Some(x)
    ensures !InMantissa(At(s, e))
  {
    if tail != "" {
      assert tail == ['E'] + Signed(x);
      AfterFirst(s, e, 'E', Signed(x));
      ScanSigned(s, e + 1, x);
    }
  }

  /** The mantissa between the sign and the tail. */
  lemma MantissaRead(s: string, sign: string, m: string, tail: string)
    requires s == sign + m + tail && m != ""
    requires forall k :: 0 <= k < |m| ==> InMantissa(m[k])
    requires !InMantissa(At(s, |sign| + |m|))
    ensures RunEnd(s, |sign|) == |sign| + |m|
    ensures s[|sign|..|sign| + |m|] == m && s[|sign| + |m|..] == tail
    ensures At(s, |sign|) == m[0]
  {
    forall k | |sign| <= k < |sign| + |m| ensures InMantissa(s[k]) {
      assert s[k] == m[k - |sign|];
    }
    RunEndIs(s, |sign|, |sign| + |m|);
  }

  /** A sign, a mantissa and an exponent are read back as such. */
  lemma ReadShape(negative: bool, m: string, all: seq<Digit>, dots: nat, frac: nat, tail: string, x: int)
    requires Shape(m, all, dots, frac)
    requires (tail == "" && x == 0) || tail == "E" + Signed(x)
    ensures var s := SignText(negative) + m + tail;
            && InMantissa(At(s, SignLength(s)))
            && (At(s, 0) == '-') == negative
            && ReadNumeral(s) == Some(Numeral(s, |SignText(negative)|, m, x))
  {
    var sign := SignText(negative);
    var s := sign + m + tail;
    assert s[|sign| + |m|..] == tail;
    TailRead(s, |sign| + |m|, tail, x);
    MantissaRead(s, sign, m, tail);
    assert negative ==> s[0] == '-';
    assert !negative ==> s[0] == m[0];
    assert SignLength(s) == |sign|;
  }

  /** The digits shown are read as their coefficient, whatever zeros the format puts before them. */
  lemma ShownRead(coefficient: nat, zeros: nat, all: seq<Digit>)
    requires all == Zeros(zeros) + Shown(coefficient)
    ensures Strip(all) == ToDigits(coefficient)
  {
    if coefficient == 0 {
      assert all == Zeros(zeros + 1) + [];
      StripPrefixed(zeros + 1, []);
    } else {
      StripPrefixed(zeros, ToDigits(coefficient));
    }
  }

  /** At most 34 digits with an exponent in range are kept as they are. */
  lemma NormalizeInRange(n: Numeral)
    requires |n.Ds()| <= 34 && EXPONENT_MIN <= n.Adjusted() <= EXPONENT_MAX
    ensures Normalize(n) == Kept(n.Ds(), n.Adjusted())
  {
    var ds := n.Ds();
    assert ds[..|ds|] + Zeros(0) == ds && ds[|ds|..|ds|] == Zeros(0) && ds[..|ds|] == ds;
  }

  lemma ParseShape(s: string, negative: bool, c: nat, exponent: int, m: string, zeros: nat, all: seq<Digit>, dots: nat,
                   frac: nat, tail: string, x: int)
    requires c < Pow10(34) && EXPONENT_MIN <= exponent <= EXPONENT_MAX
    requires Shape(m, all, dots, frac) && all == Zeros(zeros) + Shown(c)
    requires (tail == "" && x == 0) || tail == "E" + Signed(x)
    requires x - frac == exponent && frac <= 100
    requires s == SignText(negative) + m + tail
    ensures c < TWO_64 * TWO_64
    ensures Parse(s) == Parsed(Encode(negative, ToProduct(c), exponent))
  {
    ReadShape(negative, m, all, dots, frac, tail, x);
    var n := Numeral(s, |SignText(negative)|, m, x);
    ShownRead(c, zeros, all);
    ToDigitsLength(c, 34);
    NumToDigits(c);
    assert n.Adjusted() == exponent;
    NormalizeInRange(n);
    PowTable();
  }

  lemma ShownBound(c: nat)
    requires c < Pow10(34)
    ensures |Shown(c)| <= 34
  {
    ToDigitsLength(c, 34);
  }

  /** The mantissa of the scientific format. */
  function OnePoint(ds: seq<Digit>): string
    requires ds != []
  {
    if |ds| > 1 then Text(ds[..1]) + "." + Text(ds[1..]) else Text(ds)
  }

  lemma OnePointShape(ds: seq<Digit>)
    requires ds != []
    ensures Shape(OnePoint(ds), ds, if |ds| > 1 then 1 else 0, |ds| - 1)
  {
    if |ds| > 1 {
      PointShape(ds[..1], ds[1..]);
      assert ds[..1] + ds[1..] == ds;
    } else {
      TextShape(ds);
    }
  }

  lemma Regroup(sign: string, a: string, b: string, c: string, d: string)
    ensures sign + a + "." + b + c + d == sign + (a + "." + b) + (c + d)
  {
  }

  lemma RegroupOne(sign: string, a: string, c: string, d: string)
    ensures sign + a + "" + "" + c + d == sign + a + (c + d)
  {
  }

  /** With at most 34 digits the scientific format is never cut short. */
  lemma ScientificText(negative: bool, ds: seq<Digit>, exponent: int)
    requires 1 <= |ds| <= 34
    ensures Scientific(negative, ds, exponent)
         == SignText(negative) + OnePoint(ds) + ("E" + Signed(|ds| - 1 + exponent))
  {
    var sign, tail := SignText(negative), Signed(|ds| - 1 + exponent);
    assert |Lead(negative, ds)| <= 3;
    if |ds| > 1 {
      assert ds[1..|ds|] == ds[1..];
      Regroup(sign, Text(ds[..1]), Text(ds[1..]), "E", tail);
    } else {
      assert ds[..1] == ds && Text(ds[1..1]) == "";
      RegroupOne(sign, Text(ds), "E", tail);
    }
  }

  lemma RenderedScientific(negative: bool, c: nat, exponent: int)
    requires c < Pow10(34) && EXPONENT_MIN <= exponent <= EXPONENT_MAX
    ensures c < TWO_64 * TWO_64
    ensures Parse(Scientific(negative, Shown(c), exponent)) == Parsed(Encode(negative, ToProduct(c), exponent))
  {
    hide Signed, SignText, Scientific, OnePoint, Shape, Parse, Encode;
    var ds := Shown(c);
    var m, x := OnePoint(ds), |ds| - 1 + exponent;
    var tail, dots := "E" + Signed(x), if |ds| > 1 then 1 else 0;
    var s := Scientific(negative, ds, exponent);
    assert |ds| <= 34 by { ShownBound(c); }
    assert s == SignText(negative) + m + tail by { ScientificText(negative, ds, exponent); }
    assert Shape(m, ds, dots, |ds| - 1) by { OnePointShape(ds); }
    assert ds == Zeros(0) + ds;
    ParseShape(s, negative, c, exponent, m, 0, ds, dots, |ds| - 1, tail, x);
  }

  /** The digits before the point of the plain format. */
  function Whole(ds: seq<Digit>, exponent: int): seq<Digit> {
    if 0 < |ds| + exponent <= |ds| then ds[..|ds| + exponent] else [0]
  }

  /** The digits after the point of the plain format. */
  function Part(ds: seq<Digit>, exponent: int): seq<Digit> {
    if 0 < |ds| + exponent <= |ds| then ds[|ds| + exponent..] else Zeros(Max(0, -|ds| - exponent)) + ds
  }

  lemma Reassociate(sign: string, a: string, z: string, b: string)
    ensures sign + a + "." + z + b == sign + (a + "." + (z + b)) + ""
    ensures z == "" ==> z + b == b
  {
  }

  /** Cuts the plain format into a mantissa and an empty tail. */
  lemma PointedText(negative: bool, ds: seq<Digit>, exponent: int) returns (zeros: nat)
    requires ds != [] && exponent < 0
    ensures Pointed(negative, ds, exponent)
         == SignText(negative) + (Text(Whole(ds, exponent)) + "." + Text(Part(ds, exponent))) + ""
    ensures Whole(ds, exponent) + Part(ds, exponent) == Zeros(zeros) + ds
    ensures |Part(ds, exponent)| == -exponent
  {
    zeros := if |ds| + exponent > 0 then 0 else 1 - |ds| - exponent;
    if |ds| + exponent > 0 { PointedInside(negative, ds, exponent); } else { PointedBefore(negative, ds, exponent); }
  }

  lemma PointedInside(negative: bool, ds: seq<Digit>, exponent: int)
    requires exponent < 0 < |ds| + exponent
    ensures Pointed(negative, ds, exponent)
         == SignText(negative) + (Text(Whole(ds, exponent)) + "." + Text(Part(ds, exponent))) + ""
    ensures Whole(ds, exponent) + Part(ds, exponent) == Zeros(0) + ds
  {
    var radix := |ds| + exponent;
    assert Text(Zeros(0)) == "";
    assert Whole(ds, exponent) == ds[..radix] && Part(ds, exponent) == ds[radix..];
    assert Pointed(negative, ds, exponent) == SignText(negative) + Text(ds[..radix]) + "." + "" + Text(ds[radix..]);
    hide Text, SignText, Pointed;
    Reassociate(SignText(negative), Text(ds[..radix]), "", Text(ds[radix..]));
  }

  lemma PointedBefore(negative: bool, ds: seq<Digit>, exponent: int)
    requires ds != [] && |ds| + exponent <= 0
    ensures Pointed(negative, ds, exponent)
         == SignText(negative) + (Text(Whole(ds, exponent)) + "." + Text(Part(ds, exponent))) + ""
    ensures Whole(ds, exponent) + Part(ds, exponent) == Zeros(1 - |ds| - exponent) + ds
  {
    var zeros := -|ds| - exponent;
    ZerosAhead(zeros, ds);
    BeforeText(negative, ds, exponent);
    Reassociate(SignText(negative), "0", Text(Zeros(zeros)), Text(ds));
    TextAppend(Zeros(zeros), ds);
    TextOne(0);
  }

  lemma BeforeText(negative: bool, ds: seq<Digit>, exponent: int)
    requires ds != [] && |ds| + exponent <= 0
    ensures Pointed(negative, ds, exponent)
         == SignText(negative) + "0" + "." + Text(Zeros(-|ds| - exponent)) + Text(ds)
  {
    assert ds[0..] == ds;
  }

  lemma ZerosAhead(zeros: nat, ds: seq<Digit>)
    ensures [0] + (Zeros(zeros) + ds) == Zeros(zeros + 1) + ds
  {
    assert [0] + Zeros(zeros) == Zeros(zeros + 1);
    assert [0] + (Zeros(zeros) + ds) == [0] + Zeros(zeros) + ds;
  }

  lemma RenderedPointed(negative: bool, c: nat, exponent: int)
    requires c < Pow10(34) && EXPONENT_MIN <= exponent < 0 && |Shown(c)| - 1 + exponent >= -6
    ensures c < TWO_64 * TWO_64
    ensures Parse(Pointed(negative, Shown(c), exponent)) == Parsed(Encode(negative, ToProduct(c), exponent))
  {
    var ds := Shown(c);
    var zeros := PointedText(negative, ds, exponent);
    ShownBound(c);
    ParsePointed(negative, c, exponent, Whole(ds, exponent), Part(ds, exponent), zeros,
                 Pointed(negative, ds, exponent));
  }

  lemma ParsePointed(negative: bool, c: nat, exponent: int, a: seq<Digit>, b: seq<Digit>, zeros: nat, s: string)
    requires c < Pow10(34) && EXPONENT_MIN <= exponent <= EXPONENT_MAX
    requires a + b == Zeros(zeros) + Shown(c) && a != [] && |b| == -exponent <= 100
    requires s == SignText(negative) + (Text(a) + "." + Text(b)) + ""
    ensures c < TWO_64 * TWO_64
    ensures Parse(s) == Parsed(Encode(negative, ToProduct(c), exponent))
  {
    PointShape(a, b);
    ParseShape(s, negative, c, exponent, Text(a) + "." + Text(b), zeros, a + b, 1, |b|, "", 0);
  }

  /** Every finite value with a coefficient below 10^34 survives printing and parsing. */
  lemma ParseRendered(negative: bool, c: nat, exponent: int)
    requires c < Pow10(34) && EXPONENT_MIN <= exponent <= EXPONENT_MAX
    ensures c < TWO_64 * TWO_64
    ensures Parse(RenderFinite(negative, Shown(c), exponent)) == Parsed(Encode(negative, ToProduct(c), exponent))
  {
    var ds := Shown(c);
    if |ds| - 1 + exponent < -6 || exponent > 0 {
      RenderedScientific(negative, c, exponent);
    } else if exponent == 0 {
      ShownBound(c);
      TextShape(ds);
      assert Zeros(0) + ds == ds;
      assert SignText(negative) + Text(ds) + "" == SignText(negative) + Text(ds);
      ParseShape(SignText(negative) + Text(ds), negative, c, 0, Text(ds), 0, ds, 0, 0, "", 0);
    } else {
      RenderedPointed(negative, c, exponent);
    }
  }

  lemma WordsMatch()
    ensures EqualNoCase("Infinity", 0, "infinity") && EqualNoCase("NaN", 0, "nan")
  {
  }

  lemma SignedWordMatches()
    ensures EqualNoCase("-Infinity", 1, "infinity")
  {
  }

  /** The first letter decides against the other words. */
  lemma NotInfinity()
    ensures !EqualNoCase("NaN", 0, "inf") && !EqualNoCase("NaN", 0, "infinity")
  {
    assert Lower(At("NaN", 0)) != Lower("inf"[0]) && Lower(At("NaN", 0)) != Lower("infinity"[0]);
  }

  /** A text that begins like no numeral is compared with the words. */
  lemma ParseWord(s: string)
    requires !InMantissa(At(s, SignLength(s)))
    ensures EqualNoCase(s, SignLength(s), "infinity") ==> Parse(s) == Parsed(Infinity(At(s, 0) == '-'))
    ensures !EqualNoCase(s, SignLength(s), "inf") && !EqualNoCase(s, SignLength(s), "infinity") ==>
              (EqualNoCase(s, SignLength(s), "nan") ==> Parse(s) == Parsed(NAN))
  {
    hide EqualNoCase, Infinity;
  }

  lemma ParseInfinity()
    ensures Parse("Infinity") == Parsed(Infinity(false))
  {
    hide Parse, EqualNoCase;
    WordsMatch();
    ParseWord("Infinity");
  }

  lemma ParseMinusInfinity()
    ensures Parse("-Infinity") == Parsed(Infinity(true))
  {
    hide Parse, EqualNoCase;
    SignedWordMatches();
    ParseWord("-Infinity");
  }

  lemma ParseNotANumber()
    ensures Parse("NaN") == Parsed(NAN)
  {
    hide Parse, EqualNoCase;
    WordsMatch();
    NotInfinity();
    ParseWord("NaN");
  }

  lemma PackCanonical(negative: bool, digits: seq<Digit>, exponent: int)
    requires Num(digits) < Pow10(34) && EXPONENT_MIN <= exponent <= EXPONENT_MAX
    ensures IsCanonical(Pack(negative, Kept(digits, exponent)).dec)
  {
    UnpackEncode(negative, Num(digits), exponent);
    WordsValue(Num(digits));
  }

  lemma WordsCanonical()
    ensures IsCanonical(NAN) && IsCanonical(Infinity(true)) && IsCanonical(Infinity(false))
  {
    assert Unpack(NAN) == NotANumber;
    assert Unpack(Infinity(true)) == Inf(true);
    assert Unpack(Infinity(false)) == Inf(false);
  }

  /** The parser only ever produces canonical patterns. */
  lemma ParsedIsCanonical(s: string)
    requires Parse(s).Parsed?
    ensures IsCanonical(Parse(s).dec)
  {
    if InMantissa(At(s, SignLength(s))) {
      var n := ReadNumeral(s).value;
      KeptFits(n);
      PackCanonical(At(s, 0) == '-', Normalize(n).digits, Normalize(n).exponent);
    } else {
      WordsCanonical();
    }
  }

  lemma FiniteRoundTrip(dec: Dec128)
    requires Unpack(dec).Finite? && IsCanonical(dec)
    ensures Parse(Render(dec)) == Parsed(dec)
  {
    var u := Unpack(dec);
    EncodeUnpack(dec);
    assert Coefficient(u.parts) == Value(u.parts) by {
      PowTable();
      ValueOfFour(u.parts);
    }
    ParseRendered(u.negative, Value(u.parts), u.exponent);
  }

  lemma SpecialText(dec: Dec128)
    requires !Unpack(dec).Finite? && IsCanonical(dec)
    ensures || (dec == NAN && Render(dec) == "NaN")
            || (dec == Infinity(false) && Render(dec) == "Infinity")
            || (dec == Infinity(true) && Render(dec) == "-Infinity")
  {
    assert "" + "Infinity" == "Infinity" && "-" + "Infinity" == "-Infinity";
  }

  lemma SpecialRoundTrip(dec: Dec128)
    requires !Unpack(dec).Finite? && IsCanonical(dec)
    ensures Parse(Render(dec)) == Parsed(dec)
  {
    ParseInfinity();
    ParseMinusInfinity();
    ParseNotANumber();
    SpecialText(dec);
  }

  /** Parsing the printed form returns the identical bits exactly when they are canonical. */
  lemma RoundTrip(dec: Dec128)
    ensures Parse(Render(dec)) == Parsed(dec) <==> IsCanonical(dec)
  {
    if IsCanonical(dec) {
      if Unpack(dec).Finite? { FiniteRoundTrip(dec); } else { SpecialRoundTrip(dec); }
    } else if Parse(Render(dec)).Parsed? {
      ParsedIsCanonical(Render(dec));
    }
  }
}
