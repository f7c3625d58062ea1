/** What a printed decimal128 looks like, read off its bits and its characters. */
module Decimal128Format {
  import opened Basics
  import opened Digits
  import opened Decimal128Limbs
  import opened Decimal128Print
  import opened Decimal128Parse
  import Decimal128RoundTrip

  const TWO_58: nat := 0x400_0000_0000_0000

  /** The five bits after the sign. */
  function Kind(dec: Dec128): nat { dec.high / TWO_58 % 32 }

  /** The two bits after the sign, which are set in the short form of a coefficient. */
  predicate ShortForm(dec: Dec128) { dec.high / TWO_61 % 4 == 3 }

  function ExponentBits(dec: Dec128): int {
    (if ShortForm(dec) then dec.high / TWO_47 else dec.high / TWO_49) % 0x4000 - 6176
  }

  /** The short form only has room for coefficients from 2^113 on, which stand for zero. */
  function CoefficientBits(dec: Dec128): nat {
    if ShortForm(dec) then 0 else dec.high % TWO_49 * TWO_64 + dec.low
  }

  lemma KindBits(dec: Dec128)
    ensures Combination(dec.high / TWO_32) == Kind(dec)
    ensures IsShort(dec.high / TWO_32) <==> ShortForm(dec)
  {
    var a := dec.high / TWO_58;
    assert dec.high / TWO_32 / 0x400_0000 == a;
    assert dec.high / TWO_61 == a / 8;
    assert a % 32 / 8 == a / 8 % 4;
  }

  lemma BiasedBits(dec: Dec128)
    ensures Biased(dec.high / TWO_32) - EXPONENT_BIAS == ExponentBits(dec)
  {
    KindBits(dec);
    assert dec.high / TWO_32 / 0x8000 == dec.high / TWO_47;
    assert dec.high / TWO_32 / 0x2_0000 == dec.high / TWO_49;
  }

  lemma TopWordLong(high: uint32)
    requires !IsShort(high)
    ensures TopWord(high) == high % 0x2_0000
  {
    var a, b := high / 0x4000, high % 0x4000;
    assert high == 0x4000 * (8 * (a / 8) + a % 8) + b;
    Decimal128RoundTrip.DivMod(high, 0x2_0000, a / 8, a % 8 * 0x4000 + b);
  }

  lemma LongCoefficient(high: uint64, low: uint64)
    requires !IsShort(high / TWO_32)
    ensures Coefficient([TopWord(high / TWO_32), high % TWO_32, low / TWO_32, low % TWO_32])
         == high % TWO_49 * TWO_64 + low
  {
    var top, rest := high / TWO_32, high % TWO_32;
    TopWordLong(top);
    var parts := [top % 0x2_0000, rest, low / TWO_32, low % TWO_32];
    ValueOfFour(parts);
    Decimal128RoundTrip.DivMod(high, TWO_49, top / 0x2_0000, top % 0x2_0000 * TWO_32 + rest);
  }

  lemma CoefficientFields(dec: Dec128)
    requires Unpack(dec).Finite?
    ensures Coefficient(Unpack(dec).parts) == CoefficientBits(dec)
  {
    KindBits(dec);
    var high := dec.high / TWO_32;
    if IsShort(high) {
      assert TopWord(high) >= 0x2_0000;
    } else {
      LongCoefficient(dec.high, dec.low);
    }
  }

  /** What the bits of every pattern say. */
  lemma UnpackBits(dec: Dec128)
    ensures Kind(dec) == 30 <==> Unpack(dec).Inf?
    ensures Kind(dec) == 31 <==> Unpack(dec).NotANumber?
    ensures !Unpack(dec).NotANumber? ==> (Unpack(dec).negative <==> dec.high >= TWO_63)
    ensures Unpack(dec).Finite? ==>
              Unpack(dec).exponent == ExponentBits(dec) && Coefficient(Unpack(dec).parts) == CoefficientBits(dec)
  {
    hide Coefficient, TopWord, Biased, Combination, ExponentBits, CoefficientBits, Kind, ShortForm;
    KindBits(dec);
    BiasedBits(dec);
    KindRange(dec.high / TWO_32);
    if Unpack(dec).Finite? { CoefficientFields(dec); }
  }

  lemma KindRange(high: uint32)
    ensures Combination(high) < 32 && (Combination(high) >= 30 ==> IsShort(high))
  {
  }

  /** The digits `ds` stand in the text from column `at` on. */
  predicate Spells(t: string, at: nat, ds: seq<Digit>) {
    at + |ds| <= |t| && forall k :: 0 <= k < |ds| ==> t[at + k] as int == '0' as int + ds[k]
  }

  /** Nothing but the digits. */
  predicate PlainText(t: string, at: nat, ds: seq<Digit>) { |t| == at + |ds| && Spells(t, at, ds) }

  /** The digits with a point before the last `decimals`, and zeros in front so that one stands before the point. */
  predicate PointText(t: string, at: nat, ds: seq<Digit>, decimals: nat) {
    var whole := Max(|ds| - decimals, 1);
    var all := Zeros(whole + decimals - |ds|) + ds;
    && |t| == at + whole + 1 + decimals && t[at + whole] == '.'
    && Spells(t, at, all[..whole]) && Spells(t, at + whole + 1, all[whole..])
  }

  /** At `at` a sign, always, and the shortest decimal of a number: the text ends there. */
  predicate SignedNumber(t: string, at: nat, x: int) {
    && at < |t| && t[at] == (if x < 0 then '-' else '+')
    && ScanInt(t, at) == Some((x, |t|)) && (t[at + 1] == '0' ==> x == 0 && |t| == at + 2)
  }

  /** One digit, a point if more follow, those that end at column 36, and the exponent of the first. */
  predicate ScientificText(t: string, at: nat, ds: seq<Digit>, x: int)
    requires ds != []
  {
    var shown := if |ds| == 1 then 1 else Min(|ds|, 35 - at);
    var mark := if |ds| == 1 then at + 1 else at + 1 + shown;
    && Spells(t, at, ds[..1])
    && (|ds| > 1 ==> at + 1 < |t| && t[at + 1] == '.' && 1 <= shown && Spells(t, at + 2, ds[1..shown]))
    && mark < |t| && t[mark] == 'E' && SignedNumber(t, mark + 1, x)
  }

  lemma TextSpells(front: string, ds: seq<Digit>, back: string)
    ensures Spells(front + Text(ds) + back, |front|, ds)
  {
    var t := front + Text(ds) + back;
    forall k | 0 <= k < |ds| ensures t[|front| + k] as int == '0' as int + ds[k] {
      TextAt(ds, k);
      assert t[|front| + k] == Text(ds)[k];
    }
  }

  lemma Plain(negative: bool, ds: seq<Digit>)
    ensures PlainText(SignText(negative) + Text(ds), |SignText(negative)|, ds)
  {
    TextSpells(SignText(negative), ds, "");
    assert SignText(negative) + Text(ds) + "" == SignText(negative) + Text(ds);
  }

  lemma AroundPoint(sign: string, a: seq<Digit>, b: seq<Digit>)
    ensures var t := sign + (Text(a) + "." + Text(b)) + "";
            && |t| == |sign| + |a| + 1 + |b| && t[|sign| + |a|] == '.'
            && Spells(t, |sign|, a) && Spells(t, |sign| + |a| + 1, b)
  {
    hide Text, Spells;
    var t := sign + (Text(a) + "." + Text(b)) + "";
    assert t == sign + Text(a) + ("." + Text(b)) && t == (sign + Text(a) + ".") + Text(b) + "";
    TextSpells(sign, a, "." + Text(b));
    TextSpells(sign + Text(a) + ".", b, "");
  }

  lemma WholeLength(ds: seq<Digit>, exponent: int)
    requires ds != [] && exponent < 0
    ensures |Decimal128RoundTrip.Whole(ds, exponent)| == Max(|ds| + exponent, 1)
  {
  }

  lemma Halved(a: seq<Digit>, b: seq<Digit>)
    ensures (a + b)[..|a|] == a && (a + b)[|a|..] == b
  {
  }

  lemma Point(negative: bool, ds: seq<Digit>, exponent: int)
    requires ds != [] && exponent < 0
    ensures PointText(Pointed(negative, ds, exponent), |SignText(negative)|, ds, -exponent)
  {
    hide Text, SignText, Pointed, Spells, Decimal128RoundTrip.Whole, Decimal128RoundTrip.Part;
    var a, b := Decimal128RoundTrip.Whole(ds, exponent), Decimal128RoundTrip.Part(ds, exponent);
    var zeros := Decimal128RoundTrip.PointedText(negative, ds, exponent);
    WholeLength(ds, exponent);
    assert zeros == |a| + |b| - |ds|;
    Halved(a, b);
    AroundPoint(SignText(negative), a, b);
  }

  lemma DecimalShortest(n: nat)
    ensures Decimal(n) != "" && (Decimal(n)[0] == '0' ==> n == 0 && |Decimal(n)| == 1)
  {
    if n > 0 { TextAt(ToDigits(n), 0); }
  }

  lemma Exponent(front: string, x: int)
    ensures SignedNumber(front + Signed(x), |front|, x)
  {
    var t, magnitude: nat := front + Signed(x), if x < 0 then -x else x;
    assert t[|front|..] == Signed(x);
    Decimal128RoundTrip.ScanSigned(t, |front|, x);
    Decimal128RoundTrip.SignedText(x, magnitude);
    DecimalShortest(magnitude);
    hide ScanInt, Decimal, Signed;
    assert t[|front|] == Signed(x)[0] && t[|front| + 1] == Signed(x)[1] == Decimal(magnitude)[0];
  }

  lemma OneDigit(sign: string, d: Digit, x: int)
    ensures ScientificText(sign + Text([d]) + "E" + Signed(x), |sign|, [d], x)
  {
    hide Signed, SignedNumber, Spells;
    var t := sign + Text([d]) + "E" + Signed(x);
    assert t == sign + Text([d]) + ("E" + Signed(x)) && [d][..1] == [d];
    TextSpells(sign, [d], "E" + Signed(x));
    Exponent(sign + Text([d]) + "E", x);
  }

  lemma MoreDigits(sign: string, ds: seq<Digit>, shown: nat, x: int)
    requires |ds| > 1 && |sign| <= 1 && shown == Min(|ds|, 35 - |sign|)
    ensures ScientificText(sign + Text(ds[..1]) + "." + Text(ds[1..shown]) + "E" + Signed(x), |sign|, ds, x)
  {
    hide Signed, SignedNumber, Spells, Text;
    var first, rest := Text(ds[..1]), Text(ds[1..shown]);
    var t := sign + first + "." + rest + "E" + Signed(x);
    assert t == sign + first + ("." + rest + "E" + Signed(x));
    assert t == (sign + first + ".") + rest + ("E" + Signed(x));
    TextSpells(sign, ds[..1], "." + rest + "E" + Signed(x));
    TextSpells(sign + first + ".", ds[1..shown], "E" + Signed(x));
    Exponent(sign + first + "." + rest + "E", x);
    assert t[|sign| + 1] == '.' && t[|sign| + 1 + shown] == 'E';
  }

  lemma Marked(negative: bool, ds: seq<Digit>, exponent: int)
    requires ds != []
    ensures ScientificText(Scientific(negative, ds, exponent), |SignText(negative)|, ds, |ds| - 1 + exponent)
  {
    hide Signed, Text, ScientificText;
    var sign, x := SignText(negative), |ds| - 1 + exponent;
    if |ds| == 1 {
      assert ds == [ds[0]] && ds[..1] == [ds[0]] && ds[1..1] == [];
      OneDigit(sign, ds[0], x);
      var none := Text(ds[1..1]);
      assert none == "";
      assert sign + Text(ds[..1]) + "" == sign + Text([ds[0]]) && sign + Text([ds[0]]) + none == sign + Text([ds[0]]);
    } else {
      var shown := Min(|ds|, 35 - |sign|);
      MoreDigits(sign, ds, shown, x);
    }
  }

  /** The digits of a coefficient, a single zero for zero. */
  function ShownDigits(c: nat): (ds: seq<Digit>)
    ensures ds != [] && Num(ds) == c && (ds[0] == 0 ==> ds == [0])
  {
    NumToDigits(c);
    NumOne(0);
    if c == 0 then [0] else ToDigits(c)
  }

  /** Whether the number is printed with an exponent. */
  predicate NeedsExponent(ds: seq<Digit>, exponent: int) { exponent > 0 || |ds| - 1 + exponent < -6 }

  /** Every text that the printer can produce, for the bits it is produced from. */
  lemma Printed(dec: Dec128)
    ensures Kind(dec) == 30 ==> Render(dec) == if dec.high >= TWO_63 then "-Infinity" else "Infinity"
    ensures Kind(dec) == 31 ==> Render(dec) == "NaN"
    ensures Kind(dec) < 30 ==>
              var ds, e := ShownDigits(CoefficientBits(dec)), ExponentBits(dec);
              var t, at := Render(dec), if dec.high >= TWO_63 then 1 else 0;
              && (at == 1 ==> t != "" && t[0] == '-')
              && (if NeedsExponent(ds, e) then ScientificText(t, at, ds, |ds| - 1 + e)
                  else if e < 0 then PointText(t, at, ds, -e)
                  else PlainText(t, at, ds))
  {
    hide Kind, CoefficientBits, ExponentBits, Unpack, Coefficient, Scientific, Pointed, Text, ToDigits;
    hide ScientificText, PointText, PlainText;
    UnpackBits(dec);
    match Unpack(dec)
    case Inf(negative) => Words(negative);
    case NotANumber =>
    case Finite(negative, e, parts) =>
      var ds := Shown(Coefficient(parts));
      Marked(negative, ds, e);
      if e < 0 { Point(negative, ds, e); }
      Plain(negative, ds);
      if negative { Signs(negative, ds, e); }
  }

  lemma Words(negative: bool)
    ensures SignText(negative) + "Infinity" == if negative then "-Infinity" else "Infinity"
  {
  }

  lemma Signs(negative: bool, ds: seq<Digit>, e: int)
    requires negative && ds != []
    ensures RenderFinite(negative, ds, e) != "" && RenderFinite(negative, ds, e)[0] == '-'
  {
    hide Text, Signed;
  }

  /** No other character than the sign, digits, the point and the mark. */
  lemma DigitsOnly(t: string, at: nat, ds: seq<Digit>, k: nat)
    requires Spells(t, at, ds) && at <= k < at + |ds|
    ensures '0' <= t[k] <= '9'
  {
    assert t[at + (k - at)] as int == '0' as int + ds[k - at];
  }

  lemma NumberOnly(t: string, at: nat, x: int, k: nat)
    requires SignedNumber(t, at, x) && at < k < |t|
    ensures '0' <= t[k] <= '9'
  {
    hide Num;
    assert SkipSpaces(t, at) == at;
    assert DigitRunEnd(t, at + 1) == |t|;
    assert IsDigit(t[k]);
  }

  lemma PlainMarks(t: string, at: nat, ds: seq<Digit>)
    requires PlainText(t, at, ds) && at <= 1 && (at == 1 ==> t != "" && t[0] == '-')
    ensures 'E' !in t && '.' !in t
  {
    hide Spells;
    forall k | 0 <= k < |t| ensures t[k] != 'E' && t[k] != '.' {
      if k >= at { DigitsOnly(t, at, ds, k); }
    }
  }

  lemma PointMarks(t: string, at: nat, ds: seq<Digit>, decimals: nat)
    requires PointText(t, at, ds, decimals) && at <= 1 && (at == 1 ==> t != "" && t[0] == '-')
    ensures 'E' !in t && '.' in t
  {
    hide Spells, Zeros;
    var whole := Max(|ds| - decimals, 1);
    var all := Zeros(whole + decimals - |ds|) + ds;
    forall k | 0 <= k < |t| ensures t[k] != 'E' {
      if at <= k < at + whole {
        DigitsOnly(t, at, all[..whole], k);
      } else if k > at + whole {
        DigitsOnly(t, at + whole + 1, all[whole..], k);
      }
    }
  }

  lemma ScientificMarks(t: string, at: nat, ds: seq<Digit>, x: int)
    requires ds != [] && ScientificText(t, at, ds, x) && at <= 1 && (at == 1 ==> t != "" && t[0] == '-')
    ensures 'E' in t && ('.' in t <==> |ds| > 1)
  {
    hide Spells, SignedNumber;
    if |ds| == 1 {
      forall k | 0 <= k < |t| ensures t[k] != '.' {
        if k == at {
          DigitsOnly(t, at, ds[..1], k);
        } else if k > at + 1 {
          SignFirst(t, at + 2, x, k);
        }
      }
    }
  }

  lemma SignFirst(t: string, at: nat, x: int, k: nat)
    requires SignedNumber(t, at, x) && at <= k < |t|
    ensures t[k] != '.'
  {
    if k > at { NumberOnly(t, at, x, k); }
  }

  /** The mark of an exponent and the point stand in the text exactly when the number calls for them. */
  lemma Marks(dec: Dec128)
    requires Kind(dec) < 30
    ensures var ds, e := ShownDigits(CoefficientBits(dec)), ExponentBits(dec);
            && ('E' in Render(dec) <==> NeedsExponent(ds, e))
            && ('.' in Render(dec) <==> if NeedsExponent(ds, e) then |ds| > 1 else e < 0)
  {
    hide Render, Kind, CoefficientBits, ExponentBits, ShownDigits, NeedsExponent, ScientificText, PointText, PlainText;
    Printed(dec);
    var ds, e := ShownDigits(CoefficientBits(dec)), ExponentBits(dec);
    var t, at := Render(dec), if dec.high >= TWO_63 then 1 else 0;
    if NeedsExponent(ds, e) {
      ScientificMarks(t, at, ds, |ds| - 1 + e);
    } else if e < 0 {
      PointMarks(t, at, ds, -e);
    } else {
      PlainMarks(t, at, ds);
    }
  }
}
