/** The decimal128 bit layout, and printing it. */
module Decimal128Print {
  import opened Digits
  import opened Decimal128Limbs

  const EXPONENT_MAX: int := 6111
  const EXPONENT_MIN: int := -6176
  const EXPONENT_BIAS: int := 6176
  const MAX_DIGITS: nat := 34
  const STRING_SIZE: nat := 43
  const TWO_47: nat := 0x8000_0000_0000
  const TWO_49: nat := 0x2_0000_0000_0000
  const TWO_61: nat := 0x2000_0000_0000_0000
  const TWO_63: nat := 0x8000_0000_0000_0000

  /** A decimal128 in the binary-integer-significand encoding. */
  datatype Dec128 = Dec128(high: uint64, low: uint64)

  const NAN: Dec128 := Dec128(0x7c00_0000_0000_0000, 0)

  function Infinity(negative: bool): Dec128 {
    Dec128(0x7800_0000_0000_0000 + (if negative then TWO_63 else 0), 0)
  }

  /** Packs sign, exponent and significand; the fields occupy disjoint bits, so OR is addition. */
  function Encode(negative: bool, significand: Product, exponent: int): Dec128 {
    var biased := (exponent + EXPONENT_BIAS) % 0x1_0000;
    var body := if significand.high / TWO_49 % 2 == 1
                then 3 * TWO_61 + biased % 0x4000 * TWO_47 + significand.high % TWO_47
                else biased % 0x4000 * TWO_49 + significand.high % TWO_49;
    Dec128(body + (if negative then TWO_63 else 0), significand.low)
  }

  /** What the bits say before any digit is produced. */
  datatype Unpacked =
    | Inf(negative: bool)
    | NotANumber
    | Finite(negative: bool, exponent: int, parts: seq<uint32>)

  /** The five bits after the sign, of the upper 32. */
  function Combination(high: uint32): nat { high / 0x400_0000 % 0x20 }

  /** Infinity or NaN. */
  predicate IsSpecial(high: uint32) { Combination(high) >= 30 }

  /** The short form, whose coefficient starts with three implied bits. */
  predicate IsShort(high: uint32) { Combination(high) / 8 == 3 }

  function Biased(high: uint32): nat {
    if IsShort(high) then high / 0x8000 % 0x4000 else high / 0x2_0000 % 0x4000
  }

  /** The coefficient's bits in the upper 32. */
  function TopWord(high: uint32): (w: uint32)
    ensures w < 0x4_0000
  {
    var msb := if IsShort(high) then 8 + high / 0x4000 % 2 else high / 0x4000 % 8;
    high % 0x4000 + msb % 16 * 0x4000
  }

  lemma ShortFields(high: uint32)
    ensures high / 0x8000 / 0x800 == high / 0x400_0000
    ensures high / 0x8000 % 0x4000 / 0x800 == high / 0x8000 / 0x800 % 8
  {
  }

  lemma ShortBound(high: uint32)
    requires !IsSpecial(high) && IsShort(high)
    ensures high / 0x8000 % 0x4000 < 0x3000
  {
    ShortFields(high);
    var c := high / 0x400_0000;
    assert c % 0x20 % 8 == c % 8;
    assert c % 8 < 6;
  }

  lemma LongFields(high: uint32)
    ensures high / 0x2_0000 / 0x200 == high / 0x400_0000
    ensures high / 0x2_0000 % 0x4000 / 0x200 == high / 0x2_0000 / 0x200 % 0x20
  {
  }

  lemma LongBound(high: uint32)
    requires !IsShort(high)
    ensures high / 0x2_0000 % 0x4000 < 0x3000
  {
    LongFields(high);
  }

  /** Exponents whose first two bits are both set are special. */
  lemma BiasedBound(high: uint32)
    requires !IsSpecial(high)
    ensures Biased(high) < 0x3000
  {
    hide IsSpecial, IsShort;
    if IsShort(high) {
      ShortBound(high);
    } else {
      LongBound(high);
    }
  }

  function Unpack(dec: Dec128): (u: Unpacked)
    ensures u.Finite? ==> |u.parts| == 4
    ensures u.Finite? ==> EXPONENT_MIN <= u.exponent <= EXPONENT_MAX
  {
    var negative := dec.high >= TWO_63;
    var high, midh := dec.high / TWO_32, dec.high % TWO_32;
    var midl, low := dec.low / TWO_32, dec.low % TWO_32;
    if IsShort(high) && Combination(high) == 30 then Inf(negative)
    else if IsShort(high) && Combination(high) == 31 then NotANumber
    else
      BiasedBound(high);
      Finite(negative, Biased(high) - EXPONENT_BIAS, [TopWord(high), midh, midl, low])
  }

  /** The coefficient the printer works with: zero above 2^113. */
  function Coefficient(parts: seq<uint32>): (c: nat)
    requires |parts| == 4
    ensures c < 0x2_0000_0000_0000 * TWO_64
  {
    ValueOfFour(parts);
    if parts[0] >= 0x2_0000 then 0 else Value(parts)
  }

  function DigitChar(d: Digit): char { ('0' as int + d) as char }

  function Text(ds: seq<Digit>): (t: string)
    ensures |t| == |ds|
  {
    if ds == [] then [] else Text(ds[..|ds| - 1]) + [DigitChar(ds[|ds| - 1])]
  }

  lemma TextSnoc(ds: seq<Digit>, d: Digit)
    ensures Text(ds + [d]) == Text(ds) + [DigitChar(d)]
  {
    assert (ds + [d])[..|ds|] == ds;
  }

  lemma {:induction false} TextAt(ds: seq<Digit>, k: nat)
    requires k < |ds|
    ensures Text(ds)[k] == DigitChar(ds[k])
  {
    if k < |ds| - 1 { TextAt(ds[..|ds| - 1], k); }
  }

  lemma TextOne(d: Digit)
    ensures Text([d]) == [DigitChar(d)]
  {
    TextSnoc([], d);
    assert [] + [d] == [d];
  }

  lemma {:induction false} TextAppend(a: seq<Digit>, b: seq<Digit>)
    ensures Text(a + b) == Text(a) + Text(b)
  {
    if b == [] {
      assert a + b == a;
    } else {
      var init, d := b[..|b| - 1], b[|b| - 1];
      assert a + b == (a + init) + [d];
      TextSnoc(a + init, d);
      TextAppend(a, init);
    }
  }

  /** printf's "%d" for a natural number. */
  function Decimal(n: nat): string { if n == 0 then "0" else Text(ToDigits(n)) }

  /** printf's "%+d". */
  function Signed(n: int): string { if n < 0 then "-" + Decimal(-n) else "+" + Decimal(n) }

  function Min(a: int, b: int): int { if a <= b then a else b }

  function Max(a: int, b: int): int { if a >= b then a else b }

  /** The significant digits shown: a single zero for zero. */
  function Shown(coefficient: nat): (ds: seq<Digit>)
    ensures ds != []
  {
    if coefficient == 0 then [0] else ToDigits(coefficient)
  }

  function SignText(negative: bool): string { if negative then "-" else "" }

  function Lead(negative: bool, ds: seq<Digit>): string
    requires ds != []
  {
    SignText(negative) + Text(ds[..1]) + (if |ds| > 1 then "." else "")
  }

  /** d.dddE+dd or dE+dd; the output stops at column 36. */
  function Scientific(negative: bool, ds: seq<Digit>, exponent: int): string
    requires ds != []
  {
    var lead := Lead(negative, ds);
    lead + Text(ds[1..Min(|ds|, 1 + 36 - |lead|)]) + "E" + Signed(|ds| - 1 + exponent)
  }

  /** ddd.ddd, with a zero before the point and zeros after it when the value is small. */
  function Pointed(negative: bool, ds: seq<Digit>, exponent: int): string
    requires ds != []
  {
    var radix := |ds| + exponent;
    var whole := Min(Max(radix, 0), |ds|);
    SignText(negative) + (if radix > 0 then Text(ds[..whole]) else "0") + "."
    + Text(Zeros(Max(-radix, 0))) + Text(ds[whole..])
  }

  /** The printed form of a finite number; the cutoffs are those of the string conversion specification. */
  function RenderFinite(negative: bool, ds: seq<Digit>, exponent: int): string
    requires ds != []
  {
    if |ds| - 1 + exponent < -6 || exponent > 0 then Scientific(negative, ds, exponent)
    else if exponent == 0 then SignText(negative) + Text(ds)
    else Pointed(negative, ds, exponent)
  }

  function Render(dec: Dec128): string {
    match Unpack(dec)
    case Inf(negative) => SignText(negative) + "Infinity"
    case NotANumber => "NaN"
    case Finite(negative, exponent, parts) =>
      RenderFinite(negative, Shown(Coefficient(parts)), exponent)
  }

  lemma ShownLength(coefficient: nat)
    requires coefficient < 0x2_0000_0000_0000 * TWO_64
    ensures |Shown(coefficient)| <= 35
  {
    PowTable();
    ToDigitsLength(coefficient, 35);
  }

  lemma SignedLength(n: int)
    requires -9999 <= n <= 9999
    ensures |Signed(n)| <= 5
  {
    PowTable();
    ToDigitsLength(if n < 0 then -n else n, 4);
  }

  lemma WriteDigit(str: string, significand: seq<Digit>, read: nat, next: nat)
    requires read <= next < |significand|
    ensures str + Text(significand[read..next + 1])
         == str + Text(significand[read..next]) + [DigitChar(significand[next])]
  {
    assert significand[read..next + 1] == significand[read..next] + [significand[next]];
    TextSnoc(significand[read..next], significand[next]);
  }

  /** Copies digits to the output until `count` are written or column `limit` is reached. */
  method AppendDigits(str: string, significand: seq<Digit>, read: nat, count: nat, limit: nat)
    returns (out: string, next: nat)
    requires read + count <= |significand|
    ensures next == read + Min(count, Max(limit - |str|, 0))
    ensures out == str + Text(significand[read..next])
  {
    out, next := str, read;
    var i := 0;
    while i < count && |out| < limit
      invariant 0 <= i <= count && next == read + i
      invariant out == str + Text(significand[read..next])
      invariant i > 0 ==> |out| <= limit
    {
      WriteDigit(str, significand, read, next);
      out := out + [DigitChar(significand[next])];
      next, i := next + 1, i + 1;
    }
  }

  /** Moves past the leading zeros of a non-zero significand. */
  method SkipZeros(significand: seq<Digit>) returns (read: nat)
    requires |significand| == 36 && Num(significand) != 0
    ensures read < 36
    ensures significand[read..] == ToDigits(Num(significand))
  {
    NumZeroIff(significand);
    ghost var nonzero: nat :| nonzero < 36 && significand[nonzero] != 0;
    read := 0;
    while significand[read] == 0
      invariant read <= nonzero
      invariant significand[..read] == Zeros(read)
      decreases 36 - read
    {
      assert significand[..read + 1] == significand[..read] + [0] == Zeros(read + 1);
      read := read + 1;
    }
    assert significand == Zeros(read) + significand[read..];
    StripPrefixed(read, significand[read..]);
    StripIsToDigits(significand);
  }

  /** The digits the printer reads from: those of the coefficient, or one zero. */
  method SignificandDigits(parts: seq<uint32>) returns (digits: seq<Digit>)
    requires |parts| == 4
    ensures digits == Shown(Coefficient(parts))
  {
    ValueZero(parts);
    if parts[0] == 0 && parts[1] == 0 && parts[2] == 0 && parts[3] == 0 {
      digits := [0];
    } else if parts[0] >= 0x2_0000 {
      digits := [0];
    } else {
      PowTable();
      assert Coefficient(parts) == Value(parts);
      var significand := CoefficientDigits(parts);
      var read := SkipZeros(significand);
      digits := significand[read..];
    }
  }

  /** The first digit, and a point when more follow. */
  method PrintLead(ghost negative: bool, str: string, digits: seq<Digit>) returns (out: string)
    requires digits != [] && str == SignText(negative)
    ensures out == Lead(negative, digits)
  {
    hide Text;
    assert digits[..1] == [digits[0]];
    TextOne(digits[0]);
    out := str + [DigitChar(digits[0])];
    if |digits| - 1 != 0 {
      out := out + ".";
    }
  }

  /** The branch with an exponent. */
  method PrintScientific(ghost negative: bool, str: string, digits: seq<Digit>, exponent: int) returns (out: string)
    requires 1 <= |digits| <= 35
    requires EXPONENT_MIN <= exponent <= EXPONENT_MAX
    requires str == SignText(negative)
    ensures out == Scientific(negative, digits, exponent)
  {
    out := PrintLead(negative, str, digits);
    ghost var lead := out;
    var next;
    out, next := AppendDigits(out, digits, 1, |digits| - 1, 36);
    assert next == Min(|digits|, 1 + 36 - |lead|);
    out := out + "E" + ExponentText(|digits| - 1 + exponent);
  }

  /** snprintf into six bytes. */
  function ExponentText(n: int): (t: string)
    requires -9999 <= n <= 9999
    ensures t == Signed(n)
  {
    SignedLength(n);
    var t := Signed(n);
    assert t[..|t|] == t;
    t[..Min(5, |t|)]
  }

  lemma ZerosTextGrows(n: nat)
    ensures Text(Zeros(n + 1)) == Text(Zeros(n)) + "0"
  {
    assert Zeros(n + 1) == Zeros(n) + [0];
    TextSnoc(Zeros(n), 0);
  }

  /** The zeros after the radix point; `radix` ends one above its last test. */
  method PadZeros(str: string, radix: int) returns (out: string, after: int)
    ensures out == str + Text(Zeros(Max(-radix, 0)))
    ensures after == Max(radix, 0) + 1
  {
    out, after := str, radix;
    while after < 0
      invariant radix <= after <= Max(radix, 0)
      invariant out == str + Text(Zeros(after - radix))
    {
      ZerosTextGrows(after - radix);
      out, after := out + "0", after + 1;
    }
    after := after + 1;
  }

  lemma SignLengthBound(negative: bool)
    ensures |SignText(negative)| <= 1
  {
  }

  /** The branch with a radix point inside or before the digits; no column limit is ever met. */
  method PrintPointed(ghost negative: bool, str: string, digits: seq<Digit>, exponent: int) returns (out: string)
    requires 1 <= |digits| <= 35
    requires str == SignText(negative)
    requires exponent < 0 && |digits| - 1 + exponent >= -6
    ensures out == Pointed(negative, digits, exponent)
  {
    hide Text, Zeros, Pointed, SignText;
    var radix := |digits| + exponent;
    assert |SignText(negative)| <= 1 by { SignLengthBound(negative); }
    var next := 0;
    if radix > 0 {
      out, next := AppendDigits(str, digits, 0, radix, STRING_SIZE);
      assert next == radix && digits[0..next] == digits[..radix];
    } else {
      out := str + "0";
    }
    assert |out| <= 1 + Max(radix, 1);
    out := out + ".";
    var after;
    out, after := PadZeros(out, radix);
    assert next == Max(radix, 0) && |out| <= 2 + Max(radix, 1) + Max(-radix, 0);
    ghost var whole, padded := next, out;
    out, next := AppendDigits(out, digits, next, |digits| - Max(after - 1, 0), STRING_SIZE);
    assert next == |digits|;
    assert digits[whole..next] == digits[whole..];
    assert out == padded + Text(digits[whole..]);
    PointedParts(negative, digits, exponent);
  }

  /** Coefficients of 10^34 and above, which the encoding has room for, take up 35 digits. */
  lemma LongestShown(coefficient: nat)
    requires coefficient < 0x2_0000_0000_0000 * TWO_64
    ensures |Shown(coefficient)| <= 35
    ensures |Shown(coefficient)| == 35 <==> coefficient >= Pow10(34)
  {
    PowTable();
    ShownLength(coefficient);
    if coefficient < Pow10(34) {
      ToDigitsLength(coefficient, 34);
    } else {
      NumToDigits(coefficient);
      NumBound(ToDigits(coefficient));
      if |ToDigits(coefficient)| <= 34 { Pow10Mono(|ToDigits(coefficient)|, 34); }
    }
  }

  lemma ScientificLength(negative: bool, ds: seq<Digit>, exponent: int)
    requires 1 <= |ds| <= 35 && EXPONENT_MIN <= exponent <= EXPONENT_MAX
    ensures |Scientific(negative, ds, exponent)| <= 42
  {
    hide Signed;
    SignedLength(|ds| - 1 + exponent);
  }

  lemma PointedLength(negative: bool, ds: seq<Digit>, exponent: int)
    requires ds != [] && exponent < 0
    ensures |Pointed(negative, ds, exponent)|
         == |SignText(negative)| + |ds| + 1 + Max(1 - |ds| - exponent, 0)
  {
    hide Text, SignText;
  }

  /** Negative numbers that take up a sign, a zero, the point, five more zeros and 35 digits. */
  predicate Overlong(dec: Dec128) {
    var u := Unpack(dec);
    u.Finite? && u.negative && u.exponent == -40 && Coefficient(u.parts) >= Pow10(34)
  }

  /** The text and its terminator fit into the 43 bytes that callers provide, except for these numbers. */
  lemma FitsBuffer(dec: Dec128)
    ensures |Render(dec)| <= STRING_SIZE
    ensures |Render(dec)| < STRING_SIZE <==> !Overlong(dec)
  {
    hide Unpack, Coefficient, Shown, Scientific, Pointed, Text, Pow10;
    match Unpack(dec)
    case Inf(_) =>
    case NotANumber =>
    case Finite(negative, exponent, parts) =>
      var ds := Shown(Coefficient(parts));
      LongestShown(Coefficient(parts));
      ScientificLength(negative, ds, exponent);
      if exponent < 0 { PointedLength(negative, ds, exponent); }
  }

  /** The coefficient 10^34 with the biased exponent 6136 and the sign set: 43 characters. */
  lemma TerminatorBehindBuffer()
    ensures |Render(Dec128(0xAFF1_ED09_BEAD_87C0, 0x378D_8E64_0000_0000))| == STRING_SIZE
  {
    hide Render, Pow10;
    var high, parts := 0xAFF1ED09, [0x1ED09, 0xBEAD87C0, 0x378D8E64, 0];
    assert !IsShort(high) && Biased(high) == 6136 && TopWord(high) == parts[0];
    ValueOfFour(parts);
    PowTable();
    FitsBuffer(Dec128(0xAFF1_ED09_BEAD_87C0, 0x378D_8E64_0000_0000));
  }

  /** The plain format in the order it is written. */
  lemma PointedParts(negative: bool, ds: seq<Digit>, exponent: int)
    requires ds != [] && exponent < 0
    ensures Pointed(negative, ds, exponent) ==
              (if |ds| + exponent > 0 then SignText(negative) + Text(ds[..|ds| + exponent])
               else SignText(negative) + "0")
              + "." + Text(Zeros(Max(-|ds| - exponent, 0))) + Text(ds[Max(|ds| + exponent, 0)..])
  {
  }

  /**
   * Prints any 128-bit pattern. A terminator is stored behind the text; `inside` says that it lies within the buffer of
   * 43 bytes that every caller passes.
   */
  method ToString(dec: Dec128) returns (str: string, inside: bool)
    ensures str == Render(dec) && |str| <= STRING_SIZE
    ensures inside <==> |str| < STRING_SIZE
    ensures inside <==> !Overlong(dec)
  {
    str := "";
    if dec.high >= TWO_63 {
      str := str + "-";
    }
    var u := Unpack(dec);
    match u {
      case Inf(_) => str := str + "Infinity";
      case NotANumber => str := "NaN";
      case Finite(negative, exponent, parts) =>
        var digits := SignificandDigits(parts);
        ShownLength(Coefficient(parts));
        if |digits| - 1 + exponent < -6 || exponent > 0 {
          str := PrintScientific(negative, str, digits, exponent);
        } else if exponent >= 0 {
          var next;
          str, next := AppendDigits(str, digits, 0, |digits|, 36);
          assert digits[0..next] == digits;
        } else {
          str := PrintPointed(negative, str, digits, exponent);
        }
    }
    FitsBuffer(dec);
    inside := |str| < STRING_SIZE;
  }
}
