/** The 128-bit integer arithmetic under the decimal128 codec. */
module Decimal128Limbs {
  import opened Digits

  const TWO_32: nat := 0x1_0000_0000
  const TWO_64: nat := 0x1_0000_0000_0000_0000

  type uint32 = x: int | 0 <= x < 0x1_0000_0000
  type uint64 = x: int | 0 <= x < 0x1_0000_0000_0000_0000

  /** The number held in 32-bit words stored high to low. */
  function Value(parts: seq<uint32>): nat {
    if parts == [] then 0 else Value(parts[..|parts| - 1]) * TWO_32 + parts[|parts| - 1]
  }

  lemma ValueOfFour(parts: seq<uint32>)
    requires |parts| == 4
    ensures Value(parts) == ((parts[0] * TWO_32 + parts[1]) * TWO_32 + parts[2]) * TWO_32 + parts[3]
  {
    var three, two, one := parts[..3], parts[..2], parts[..1];
    assert three[..2] == two && two[..1] == one && one[..0] == [];
    assert Value(one) == parts[0];
    assert Value(two) == Value(one) * TWO_32 + parts[1];
    assert Value(three) == Value(two) * TWO_32 + parts[2];
  }

  lemma ValueZero(parts: seq<uint32>)
    requires |parts| == 4
    ensures Value(parts) == 0 <==> parts == [0, 0, 0, 0]
  {
    ValueOfFour(parts);
  }

  lemma Billions(left: nat, nine: nat, whole: nat, p: nat, p9: nat)
    requires p9 == 1_000_000_000 * p && whole == left * 1_000_000_000 + nine
    ensures left * p9 + nine * p == whole * p
  {
    assert left * p9 == left * (1_000_000_000 * p) == (left * 1_000_000_000) * p;
    assert whole * p == (left * 1_000_000_000) * p + nine * p;
  }

  lemma AtLeast(a: nat, p: nat)
    ensures a >= 1 ==> a * p >= p
  {
  }

  /** Shifting a remainder left by one word and adding the next word fits 64 bits. */
  function Shifted(rem: uint64, part: uint32): (wide: uint64)
    requires rem < 1_000_000_000
    ensures wide == rem * TWO_32 + part
    ensures wide / 1_000_000_000 < TWO_32
  {
    (rem * TWO_32 % TWO_64 + part) % TWO_64
  }

  /** The words before `i` are divided: their quotient stands in `parts`, their remainder in `rem`. */
  ghost predicate Divided(value: seq<uint32>, parts: seq<uint32>, i: nat, rem: uint64) {
    && i <= |value| == |parts|
    && parts[i..] == value[i..]
    && rem < 1_000_000_000
    && Value(value[..i]) == Value(parts[..i]) * 1_000_000_000 + rem
  }

  lemma LongDivision(hi: nat, q: nat, rem: nat, part: nat, wide: nat)
    requires hi == q * 1_000_000_000 + rem && wide == rem * TWO_32 + part
    ensures hi * TWO_32 + part == (q * TWO_32 + wide / 1_000_000_000) * 1_000_000_000 + wide % 1_000_000_000
  {
  }

  /** The quotient limb of one step, cut to 32 bits. */
  function QuotientLimb(wide: uint64): uint32 { wide / 1_000_000_000 % TWO_32 }

  /** One step of long division. */
  lemma DivideStep(value: seq<uint32>, parts: seq<uint32>, i: nat, rem: uint64)
    requires Divided(value, parts, i, rem) && i < |value| && i < |parts| && rem < 1_000_000_000
    ensures var wide := Shifted(rem, parts[i]);
            Divided(value, parts[i := QuotientLimb(wide)], i + 1, wide % 1_000_000_000)
    ensures QuotientLimb(Shifted(rem, parts[i])) == Shifted(rem, parts[i]) / 1_000_000_000
  {
    var wide := Shifted(rem, parts[i]);
    var next: seq<uint32> := parts[i := QuotientLimb(wide)];
    assert next[..i + 1][..i] == parts[..i];
    assert value[..i + 1][..i] == value[..i];
    assert parts[i] == parts[i..][0] == value[i];
    LongDivision(Value(value[..i]), Value(parts[..i]), rem, parts[i], wide);
    assert next[i + 1..] == parts[i..][1..] == value[i..][1..];
  }

  lemma AllDivided(value: seq<uint32>, parts: seq<uint32>, rem: uint64)
    requires |value| == 4 && Divided(value, parts, 4, rem)
    ensures |parts| == 4 && Value(value) == Value(parts) * 1_000_000_000 + rem && rem < 1_000_000_000
  {
    assert value[..4] == value && parts[..4] == parts;
  }

  /** Divides `value` by one billion. */
  method Divide1B(value: seq<uint32>) returns (quotient: seq<uint32>, rem: uint32)
    requires |value| == 4
    ensures |quotient| == 4
    ensures Value(value) == Value(quotient) * 1_000_000_000 + rem
    ensures rem < 1_000_000_000
  {
    if value[0] == 0 && value[1] == 0 && value[2] == 0 && value[3] == 0 {
      ValueZero(value);
      return value, 0;
    }
    var parts: seq<uint32> := value;
    var wide: uint64 := 0;
    assert Divided(value, parts, 0, 0);
    hide Value, Divided, QuotientLimb, Shifted;
    for i := 0 to 4
      invariant |parts| == 4 && wide < 1_000_000_000 && Divided(value, parts, i, wide)
    {
      DivideStep(value, parts, i, wide);
      wide := Shifted(wide, parts[i]);
      parts := parts[i := QuotientLimb(wide)];
      wide := wide % 1_000_000_000;
    }
    AllDivided(value, parts, wide);
    quotient, rem := parts, wide;
  }

  lemma {:induction false} PowNine(n: nat)
    ensures Pow10(n + 9) == 1_000_000_000 * Pow10(n)
  {
    Pow10Add(9, n);
    assert Pow10(9) == 1_000_000_000;
  }

  /** Peeling the last digit off `least` and putting it in front of the digits already written. */
  lemma PeelDigit(least: nat, p: nat, done: seq<Digit>)
    requires p == Pow10(|done|)
    ensures Num([least % 10] + done) + (least / 10) * (10 * p) == least * p + Num(done)
  {
    var q, r: Digit := least / 10, least % 10;
    NumAppend([r], done);
    NumOne(r);
    TenSplit(least, q, r, p);
  }

  /** Nine digits of `n`, least significant last. */
  method NineDigits(n: uint32) returns (ds: seq<Digit>)
    requires n < 1_000_000_000
    ensures |ds| == 9 && Num(ds) == n
  {
    var least: uint32 := n;
    ds := Zeros(9);
    ghost var done: seq<Digit> := [];
    var j := 8;
    while j >= 0
      invariant -1 <= j <= 8 && |ds| == 9
      invariant done == ds[j + 1..]
      invariant n == least * Pow10(8 - j) + Num(done)
    {
      PeelDigit(least, Pow10(8 - j), done);
      ds := ds[j := least % 10];
      done := [least % 10] + done;
      least := least / 10;
      j := j - 1;
    }
    assert ds[0..] == ds;
    Exhausted(least, 9, Num(ds), n);
  }

  /** Nothing is left above the digits written once they cover the number. */
  lemma Exhausted(left: nat, k: nat, written: nat, n: nat)
    requires n == left * Pow10(k) + written && n < Pow10(k)
    ensures left == 0 && written == n
  {
    AtLeast(left, Pow10(k));
  }

  /** Peeling nine digits off `whole`. */
  lemma PeelNine(whole: nat, left: nat, nine: seq<Digit>, done: seq<Digit>)
    requires |nine| == 9 && whole == left * 1_000_000_000 + Num(nine)
    ensures left * Pow10(|done| + 9) + Num(nine + done) == whole * Pow10(|done|) + Num(done)
  {
    NumAppend(nine, done);
    PowNine(|done|);
    Billions(left, Num(nine), whole, Pow10(|done|), Pow10(|done| + 9));
  }

  /** The digits still to be written are zero, and the number is what is left above those written. */
  ghost predicate Written(number: nat, left: nat, significand: seq<Digit>, at: nat) {
    && |significand| == 36 && at <= 36
    && significand[..at] == Zeros(at)
    && number == left * Pow10(36 - at) + Num(significand[at..])
  }

  lemma WriteNine(number: nat, was: nat, left: nat, before: seq<Digit>, at: nat, nine: seq<Digit>, after: seq<Digit>)
    requires Written(number, was, before, at) && at >= 9 && |nine| == 9
    requires was == left * 1_000_000_000 + Num(nine)
    requires after == before[..at - 9] + nine + before[at..]
    ensures Written(number, left, after, at - 9)
  {
    PeelNine(was, left, nine, before[at..]);
    assert after[at - 9..] == nine + before[at..];
    assert after[..at - 9] == before[..at - 9] == before[..at][..at - 9];
  }

  /** Nine zero digits are already there. */
  lemma LeaveNine(number: nat, was: nat, left: nat, before: seq<Digit>, at: nat)
    requires Written(number, was, before, at) && at >= 9 && was == left * 1_000_000_000
    ensures Written(number, left, before, at - 9)
  {
    NumZeros(9);
    assert before[at - 9..at] == before[..at][at - 9..] == Zeros(9);
    assert before == before[..at - 9] + Zeros(9) + before[at..];
    WriteNine(number, was, left, before, at, Zeros(9), before);
  }

  /** One round: the nine least significant digits of what is left. */
  method NextNine(ghost number: nat, before: seq<uint32>, digits: seq<Digit>, at: nat)
    returns (left: seq<uint32>, significand: seq<Digit>)
    requires |before| == 4 && Written(number, Value(before), digits, at) && at >= 9
    ensures |left| == 4 && Written(number, Value(left), significand, at - 9)
  {
    hide Num, Value, Pow10, Zeros;
    var least;
    left, least := Divide1B(before);
    significand := digits;
    if least == 0 {
      LeaveNine(number, Value(before), Value(left), digits, at);
    } else {
      var nine := NineDigits(least);
      significand := digits[..at - 9] + nine + digits[at..];
      WriteNine(number, Value(before), Value(left), digits, at, nine, significand);
    }
  }

  lemma NothingWritten(number: nat)
    ensures Written(number, number, Zeros(36), 36)
  {
    assert Zeros(36)[36..] == [] && Zeros(36)[..36] == Zeros(36);
  }

  lemma AllWritten(number: nat, left: nat, significand: seq<Digit>)
    requires Written(number, left, significand, 0) && number < Pow10(36)
    ensures |significand| == 36 && Num(significand) == number
  {
    assert significand[0..] == significand;
    Exhausted(left, 36, Num(significand), number);
  }

  /** The 36 decimal digits of a 128-bit coefficient, nine at a time from the bottom. */
  method CoefficientDigits(value: seq<uint32>) returns (significand: seq<Digit>)
    requires |value| == 4 && Value(value) < Pow10(36)
    ensures |significand| == 36
    ensures Num(significand) == Value(value)
  {
    hide Written, Num, Value, Pow10, Zeros;
    var left: seq<uint32> := value;
    significand := Zeros(36);
    NothingWritten(Value(value));
    var k := 3;
    while k >= 0
      invariant -1 <= k <= 3 && |left| == 4
      invariant Written(Value(value), Value(left), significand, 9 * k + 9)
    {
      left, significand := NextNine(Value(value), left, significand, 9 * k + 9);
      k := k - 1;
    }
    AllWritten(Value(value), Value(left), significand);
  }

  /** A 128-bit product as two 64-bit halves. */
  datatype Product = Product(high: uint64, low: uint64)

  function Wide(p: Product): nat { p.high * TWO_64 + p.low }

  lemma {:induction false} MulLe(a: nat, b: nat, c: nat)
    requires a <= b
    ensures a * c <= b * c
  {
    if c > 0 { MulLe(a, b, c - 1); }
  }

  lemma MulBounds(a: nat, b: nat, m: nat)
    requires a < m && b < m
    ensures a * b <= (m - 1) * (m - 1)
  {
    MulLe(a, m - 1, b);
    MulLe(b, m - 1, m - 1);
  }

  lemma SplitProduct(lh: nat, ll: nat, rh: nat, rl: nat)
    ensures (lh * TWO_32 + ll) * (rh * TWO_32 + rl)
         == lh * rh * TWO_64 + (lh * rl + ll * rh) * TWO_32 + ll * rl
  {
    var left := lh * TWO_32 + ll;
    assert left * (rh * TWO_32 + rl) == left * (rh * TWO_32) + left * rl;
    assert left * (rh * TWO_32) == (left * rh) * TWO_32;
    assert left * rh == (lh * TWO_32) * rh + ll * rh == (lh * rh) * TWO_32 + ll * rh;
    assert left * rl == (lh * TWO_32) * rl + ll * rl == (lh * rl) * TWO_32 + ll * rl;
  }

  /** The carries between the four partial products: the middle column, then the top one. */
  lemma Carries(h: nat, m: nat, m2: nat, l: nat, mid: nat, high: nat)
    requires mid == m % TWO_32 + m2 + l / TWO_32
    requires high == h + m / TWO_32 + mid / TWO_32
    ensures high * TWO_64 + (mid % TWO_32) * TWO_32 + l % TWO_32 == h * TWO_64 + (m + m2) * TWO_32 + l
  {
  }

  lemma LowWord(mid: nat, l: nat)
    ensures Trunc(Trunc(mid * TWO_32) + l % TWO_32) == (mid % TWO_32) * TWO_32 + l % TWO_32
  {
    assert mid * TWO_32 == (mid / TWO_32) * TWO_64 + (mid % TWO_32) * TWO_32;
  }

  function Times(a: nat, b: nat): nat { a * b }

  /** The four partial products of two 64-bit numbers. */
  lemma Partials(left: nat, right: nat, lh: nat, ll: nat, rh: nat, rl: nat)
    requires left == lh * TWO_32 + ll < TWO_64 && right == rh * TWO_32 + rl < TWO_64
    requires lh < TWO_32 && ll < TWO_32 && rh < TWO_32 && rl < TWO_32
    ensures Times(lh, rh) <= (TWO_32 - 1) * (TWO_32 - 1) && Times(lh, rl) <= (TWO_32 - 1) * (TWO_32 - 1)
    ensures Times(ll, rh) <= (TWO_32 - 1) * (TWO_32 - 1) && Times(ll, rl) <= (TWO_32 - 1) * (TWO_32 - 1)
    ensures Times(lh, rh) * TWO_64 + (Times(lh, rl) + Times(ll, rh)) * TWO_32 + Times(ll, rl) == Times(left, right)
    ensures Times(left, right) < TWO_64 * TWO_64
  {
    MulBounds(lh, rh, TWO_32);
    MulBounds(lh, rl, TWO_32);
    MulBounds(ll, rh, TWO_32);
    MulBounds(ll, rl, TWO_32);
    MulBounds(left, right, TWO_64);
    SplitProduct(lh, ll, rh, rl);
  }

  /** Multiplies two 64-bit numbers exactly; no intermediate sum wraps. */
  method Mul64x64(left: uint64, right: uint64) returns (product: Product)
    ensures Wide(product) == Times(left, right)
  {
    if left == 0 && right == 0 {
      return Product(0, 0);
    }
    var leftHigh, leftLow := left / TWO_32, left % TWO_32;
    var rightHigh, rightLow := right / TWO_32, right % TWO_32;
    Partials(left, right, leftHigh, leftLow, rightHigh, rightLow);
    hide Times, Combine;
    CombineExact(Times(leftHigh, rightHigh), Times(leftHigh, rightLow), Times(leftLow, rightHigh),
                 Times(leftLow, rightLow));
    product := Combine(Times(leftHigh, rightHigh), Times(leftHigh, rightLow), Times(leftLow, rightHigh),
                       Times(leftLow, rightLow));
  }

  /** Neither sum of the columns reaches 64 bits. */
  lemma SumsFit(h: nat, m: nat, m2: nat, l: nat)
    requires h <= (TWO_32 - 1) * (TWO_32 - 1) && m <= (TWO_32 - 1) * (TWO_32 - 1)
    requires m2 <= (TWO_32 - 1) * (TWO_32 - 1) && l <= (TWO_32 - 1) * (TWO_32 - 1)
    ensures Trunc(m % TWO_32 + m2 + l / TWO_32) == m % TWO_32 + m2 + l / TWO_32
    ensures Trunc(h + m / TWO_32) == h + m / TWO_32
  {
  }

  /** A sum or product truncated to 64 bits. */
  function Trunc(n: nat): uint64 { n % TWO_64 }

  lemma TruncSmall(n: nat)
    requires n < TWO_64
    ensures Trunc(n) == n
  {
  }

  /** Adds up the four partial products, each sum truncated to 64 bits. */
  function Combine(h: uint64, m: uint64, m2: uint64, l: uint64): Product {
    var mid := Trunc(m % TWO_32 + m2 + l / TWO_32);
    var high := Trunc(h + m / TWO_32);
    Product(Trunc(high + mid / TWO_32), Trunc(Trunc(mid * TWO_32) + l % TWO_32))
  }

  /** No sum wraps but the lower word, whose overflow has been added to the upper one. */
  lemma CombineExact(h: uint64, m: uint64, m2: uint64, l: uint64)
    requires h <= (TWO_32 - 1) * (TWO_32 - 1) && m <= (TWO_32 - 1) * (TWO_32 - 1)
    requires m2 <= (TWO_32 - 1) * (TWO_32 - 1) && l <= (TWO_32 - 1) * (TWO_32 - 1)
    requires h * TWO_64 + (m + m2) * TWO_32 + l < TWO_64 * TWO_64
    ensures Wide(Combine(h, m, m2, l)) == h * TWO_64 + (m + m2) * TWO_32 + l
  {
    var mid, high := Trunc(m % TWO_32 + m2 + l / TWO_32), Trunc(h + m / TWO_32);
    SumsFit(h, m, m2, l);
    LowWord(mid, l);
    hide Trunc;
    Carries(h, m, m2, l, mid, high + mid / TWO_32);
    assert high + mid / TWO_32 < TWO_64;
    TruncSmall(high + mid / TWO_32);
  }
}
