/** The parser itself, loop by loop, proved to follow its specification. */
module Decimal128Read {
  import opened Basics
  import opened Digits
  import opened Decimal128Limbs
  import opened Decimal128Print
  import opened Decimal128Parse

  /** The 34-digit array holds the first digits of `ds` and zeros after them. */
  ghost predicate Buffered(ds: seq<Digit>, digits: seq<Digit>) {
    |digits| == MAX_DIGITS && forall k :: 0 <= k < MAX_DIGITS ==> digits[k] == if k < |ds| then ds[k] else 0
  }

  /** The counters of the digit loop. */
  datatype Counts = Counts(ndigits: nat, ndigitsRead: nat, stored: nat, firstNonzero: nat)

  /** `ds` are the digits from the first non-zero one, `all` how many digits were read. */
  ghost predicate Counted(ds: seq<Digit>, all: nat, c: Counts) {
    && c.ndigitsRead == all
    && c.ndigits == |ds|
    && c.stored == Min(MAX_DIGITS, |ds|)
    && c.firstNonzero == (if ds == [] then 0 else all - |ds|)
  }

  ghost predicate Scanned(m: string, sawRadix: bool, radixPosition: nat, c: Counts) {
    && Dots(m) <= 1 && sawRadix == (Dots(m) > 0)
    && radixPosition == Fraction(m)
    && Counted(Strip(DigitsOf(m)), |DigitsOf(m)|, c)
  }

  /** The digits seen so far, extended by one more. */
  function Grown(ds: seq<Digit>, d: Digit): seq<Digit> { if ds == [] && d == 0 then [] else ds + [d] }

  /** Takes one digit of the mantissa. */
  method TakeDigit(digits: array<Digit>, d: Digit, ghost ds: seq<Digit>, before: Counts) returns (c: Counts)
    requires digits.Length == MAX_DIGITS && Buffered(ds, digits[..])
    requires Counted(ds, before.ndigitsRead, before)
    modifies digits
    ensures Buffered(Grown(ds, d), digits[..])
    ensures Counted(Grown(ds, d), before.ndigitsRead + 1, c)
  {
    c := before;
    var foundNonzero := c.ndigits > 0;
    if c.stored < 34 {
      if d != 0 || foundNonzero {
        if !foundNonzero {
          c := c.(firstNonzero := c.ndigitsRead);
        }
        foundNonzero := true;
        digits[c.stored] := d;
        c := c.(stored := c.stored + 1);
      }
    }
    if foundNonzero {
      c := c.(ndigits := c.ndigits + 1);
    }
    c := c.(ndigitsRead := c.ndigitsRead + 1);
  }

  lemma AppendedPoint(m: string)
    ensures DigitsOf(m + ".") == DigitsOf(m) && Dots(m + ".") == Dots(m) + 1 && Fraction(m + ".") == Fraction(m)
  {
    assert (m + ".")[..|m|] == m;
  }

  lemma AppendedDigit(m: string, c: char)
    requires IsDigit(c)
    ensures |DigitsOf(m + [c])| == |DigitsOf(m)| + 1
    ensures Dots(m + [c]) == Dots(m)
    ensures Fraction(m + [c]) == Fraction(m) + (if Dots(m) > 0 then 1 else 0)
    ensures Strip(DigitsOf(m + [c])) == Grown(Strip(DigitsOf(m)), DigitVal(c))
  {
    assert (m + [c])[..|m|] == m;
    assert DigitsOf(m + [c])[..|DigitsOf(m)|] == DigitsOf(m);
  }

  /** A second point anywhere in the run makes the whole run malformed. */
  lemma SecondPoint(s: string, start: nat, i: nat, end: nat)
    requires start <= i < end <= |s| && s[i] == '.' && Dots(s[start..i]) == 1
    ensures Dots(s[start..end]) > 1
  {
    assert s[start..i + 1] == s[start..i] + ".";
    AppendedPoint(s[start..i]);
    assert s[start..end] == s[start..i + 1] + s[i + 1..end];
    DotsAppend(s[start..i + 1], s[i + 1..end]);
  }

  /** One digit of the run. */
  method ScanDigit(s: string, start: nat, i: nat, digits: array<Digit>, sawRadix: bool, before: nat, was: Counts)
    returns (radixPosition: nat, c: Counts)
    requires start <= i < |s| && digits.Length == MAX_DIGITS && IsDigit(s[i])
    requires Scanned(s[start..i], sawRadix, before, was) && Buffered(Strip(DigitsOf(s[start..i])), digits[..])
    modifies digits
    ensures Scanned(s[start..i + 1], sawRadix, radixPosition, c)
    ensures Buffered(Strip(DigitsOf(s[start..i + 1])), digits[..])
  {
    hide Buffered, Strip, DigitsOf, Dots, Fraction, Grown;
    assert s[start..i + 1] == s[start..i] + [s[i]];
    AppendedDigit(s[start..i], s[i]);
    c := TakeDigit(digits, DigitVal(s[i]), Strip(DigitsOf(s[start..i])), was);
    radixPosition := if sawRadix then before + 1 else before;
  }

  /** The point of the run. */
  lemma ScannedPoint(s: string, start: nat, i: nat, radixPosition: nat, c: Counts)
    requires start <= i < |s| && s[i] == '.' && Scanned(s[start..i], false, radixPosition, c)
    ensures Scanned(s[start..i + 1], true, radixPosition, c) && DigitsOf(s[start..i + 1]) == DigitsOf(s[start..i])
  {
    assert s[start..i + 1] == s[start..i] + ".";
    AppendedPoint(s[start..i]);
  }

  lemma NothingScanned(s: string, start: nat, digits: seq<Digit>)
    requires start <= |s| && digits == Zeros(MAX_DIGITS)
    ensures Scanned(s[start..start], false, 0, Counts(0, 0, 0, 0)) && Buffered(Strip(DigitsOf(s[start..start])), digits)
  {
    assert s[start..start] == [];
  }

  lemma ScannedDots(m: string, sawRadix: bool, radixPosition: nat, c: Counts)
    requires Scanned(m, sawRadix, radixPosition, c)
    ensures Dots(m) == if sawRadix then 1 else 0
  {
  }

  /** The digit loop stands at `i`, within the run that it reads. */
  ghost predicate InRun(s: string, start: nat, len: nat, i: nat) {
    && start <= i <= |s| && len <= |s|
    && i <= RunWithin(s, start, len) && RunEnd(s, start) == RunEnd(s, i)
  }

  /** It goes on exactly until the run ends. */
  lemma RunGoesOn(s: string, start: nat, len: nat, i: nat)
    requires InRun(s, start, len, i)
    ensures if InMantissa(At(s, i)) && i < len then i < RunWithin(s, start, len) && InRun(s, start, len, i + 1)
            else i == RunWithin(s, start, len)
  {
  }

  /** Reads the digits and points from `start` up to the length told, keeping the first 34 significant digits. */
  method ScanMantissa(s: string, start: nat, len: nat, digits: array<Digit>)
    returns (ok: bool, i: nat, sawRadix: bool, radixPosition: nat, c: Counts)
    requires start <= |s| && len <= |s| && digits.Length == MAX_DIGITS
    requires digits[..] == Zeros(MAX_DIGITS)
    modifies digits
    ensures ok <==> Dots(s[start..RunWithin(s, start, len)]) <= 1
    ensures ok ==> i == RunWithin(s, start, len)
    ensures ok ==> Scanned(s[start..i], sawRadix, radixPosition, c)
    ensures ok ==> Buffered(Strip(DigitsOf(s[start..i])), digits[..])
  {
    ok, i, sawRadix, radixPosition, c := true, start, false, 0, Counts(0, 0, 0, 0);
    NothingScanned(s, start, digits[..]);
    assert InRun(s, start, len, i);
    hide Scanned, Buffered, Strip, DigitsOf, Dots, RunEnd, RunWithin, InRun;
    RunGoesOn(s, start, len, i);
    while InMantissa(At(s, i)) && i < len
      invariant start <= i <= |s| && InRun(s, start, len, i)
      invariant Scanned(s[start..i], sawRadix, radixPosition, c)
      invariant Buffered(Strip(DigitsOf(s[start..i])), digits[..])
      invariant (InMantissa(At(s, i)) && i < len) || i == RunWithin(s, start, len)
      decreases |s| - i
    {
      RunGoesOn(s, start, len, i);
      RunGoesOn(s, start, len, i + 1);
      if s[i] == '.' {
        if sawRadix {
          ScannedDots(s[start..i], sawRadix, radixPosition, c);
          SecondPoint(s, start, i, RunWithin(s, start, len));
          ok := false;
          return;
        }
        ScannedPoint(s, start, i, radixPosition, c);
        sawRadix := true;
        i := i + 1;
        continue;
      }
      radixPosition, c := ScanDigit(s, start, i, digits, sawRadix, radixPosition, c);
      i := i + 1;
    }
    ScannedDots(s[start..i], sawRadix, radixPosition, c);
  }

  /** A numeral's digit columns in the whole text. */
  lemma TextColumns(n: Numeral, k: nat)
    requires n.Valid() && k < |n.All()|
    ensures IsDigit(At(n.text, n.sign + Column(n.mantissa, k)))
    ensures n.All()[k] == DigitVal(At(n.text, n.sign + Column(n.mantissa, k)))
  {
    DigitColumns(n.mantissa);
    var column := Column(n.mantissa, k);
    assert n.mantissa[column] == n.text[n.sign..n.sign + |n.mantissa|][column] == n.text[n.sign + column];
  }

  /** The point stands right after the whole digits. */
  lemma PointColumn(n: Numeral)
    requires n.Valid() && Dots(n.mantissa) == 1
    ensures Fraction(n.mantissa) <= |n.All()|
    ensures At(n.text, n.sign + |n.All()| - Fraction(n.mantissa)) == '.'
  {
    DigitColumns(n.mantissa);
    var column := |n.All()| - Fraction(n.mantissa);
    assert n.mantissa[column] == n.text[n.sign..n.sign + |n.mantissa|][column] == n.text[n.sign + column];
  }

  lemma {:induction false} SignificantStops(text: string, at: nat, count: nat, stop: nat)
    requires 1 <= stop <= count && At(text, at + stop - 1) != '0'
    ensures Significant(text, at, count) >= stop
  {
    if count > stop { SignificantStops(text, at, count - 1, stop); }
  }

  lemma FirstDigit(n: Numeral)
    requires n.Valid() && n.Ds() != []
    ensures n.First() < |n.All()| && n.All()[n.First()] == n.Ds()[0]
  {
    StripSplit(n.All());
  }

  /** Without a point before it, the first counted column holds the first non-zero digit. */
  lemma FirstColumn(n: Numeral)
    requires n.Valid() && n.Ds() != []
    requires !(Dots(n.mantissa) == 1 && n.First() < |n.All()| - Fraction(n.mantissa))
    ensures At(n.text, n.First() + n.Base()) != '0'
  {
    FirstDigit(n);
    TextColumns(n, n.First());
    DigitColumns(n.mantissa);
  }

  /** The scan for trailing zeros stops before it runs off the digits. */
  lemma SignificantPositive(n: Numeral)
    requires n.Valid() && n.Ds() != []
    ensures Significant(n.text, n.First() + n.Base(), |n.Ds()|) >= 1
  {
    var first := n.First();
    FirstDigit(n);
    if Dots(n.mantissa) == 1 && first < |n.All()| - Fraction(n.mantissa) {
      PointColumn(n);
      SignificantStops(n.text, first + n.Base(), |n.Ds()|, |n.All()| - Fraction(n.mantissa) - first);
    } else {
      FirstColumn(n);
      SignificantStops(n.text, first + n.Base(), |n.Ds()|, 1);
    }
  }

  /** Counts the digits up to the last one not seen as a trailing zero. */
  method CountSignificant(s: string, at: nat, ndigits: nat) returns (significant: nat)
    requires ndigits >= 1
    requires Significant(s, at, ndigits) >= 1
    ensures significant == Significant(s, at, ndigits)
  {
    significant := ndigits;
    while At(s, at + significant - 1) == '0'
      invariant 1 <= significant <= ndigits
      invariant Significant(s, at, significant) == Significant(s, at, ndigits)
      decreases significant
    {
      significant := significant - 1;
    }
  }

  /** Shifts an exponent above the maximum into the coefficient. */
  method RaiseExponent(stored: nat, significant: nat, start: int) returns (ok: bool, last: nat, exponent: int)
    requires 1 <= stored <= MAX_DIGITS
    ensures start <= EXPONENT_MAX ==> ok && last == stored - 1 && exponent == start
    ensures start > EXPONENT_MAX && significant == 0 ==> ok && exponent == EXPONENT_MAX
    ensures start > EXPONENT_MAX && significant > 0 ==>
      && (ok <==> stored + start - EXPONENT_MAX <= 35)
      && (ok ==> last == stored - 1 + start - EXPONENT_MAX && exponent == EXPONENT_MAX)
  {
    ok, last, exponent := true, stored - 1, start;
    while exponent > EXPONENT_MAX
      invariant start <= EXPONENT_MAX ==> exponent == start
      invariant start > EXPONENT_MAX ==> exponent >= EXPONENT_MAX
      invariant last == stored - 1 + start - exponent && last <= MAX_DIGITS
    {
      last := last + 1;
      if last > MAX_DIGITS {
        if significant == 0 {
          exponent := EXPONENT_MAX;
          break;
        }
        ok := false;
        return;
      }
      exponent := exponent - 1;
    }
  }

  /** The verdict of the downward normalisation on a non-zero coefficient. */
  ghost predicate LowerAccepts(s: string, base: nat, digits: seq<Digit>, ndigits: nat, stored: nat, exponent: int) {
    var e2 := exponent + ndigits - stored;
    var drop := Max(0, EXPONENT_MIN - e2);
    && (forall c :: stored + base <= c < ndigits + base ==> At(s, c) == '0')
    && e2 <= EXPONENT_MAX
    && drop < stored <= |digits|
    && (forall k :: stored - drop <= k < stored ==> digits[k] == 0)
  }

  /** Drops unstored digits, then trailing stored ones, until the exponent is large enough. */
  method LowerExponent(s: string, base: nat, digits: array<Digit>, ndigits0: nat, stored: nat, significant: nat,
                       last0: nat, start: int)
    returns (ok: bool, last: nat, exponent: int)
    requires digits.Length == MAX_DIGITS && 1 <= stored <= MAX_DIGITS && stored <= ndigits0
    requires ndigits0 > stored ==> stored == MAX_DIGITS
    requires start <= EXPONENT_MAX && (last0 == stored - 1 || start == EXPONENT_MAX) && last0 >= stored - 1
    requires significant == 0 ==> stored == 1 && ndigits0 == 1
    ensures significant == 0 ==> ok && exponent == Max(EXPONENT_MIN, start)
    ensures significant > 0 ==> (ok <==> LowerAccepts(s, base, digits[..], ndigits0, stored, start))
    ensures significant > 0 && ok ==>
      var drop := Max(0, EXPONENT_MIN - (start + ndigits0 - stored));
      last == last0 - drop && exponent == start + ndigits0 - stored + drop
  {
    ok, last, exponent := true, last0, start;
    var ndigits := ndigits0;
    while exponent < EXPONENT_MIN || stored < ndigits
      invariant stored <= ndigits <= ndigits0 && last <= last0
      invariant last < last0 ==> ndigits == stored && exponent <= EXPONENT_MIN && last0 == stored - 1
      invariant significant == 0 ==> last == last0
      invariant exponent == start + (ndigits0 - ndigits) + (last0 - last) <= EXPONENT_MAX
      invariant significant > 0 ==> forall c :: ndigits + base <= c < ndigits0 + base ==> At(s, c) == '0'
      invariant forall k :: last < k < stored ==> digits[k] == 0
      decreases ndigits + last
    {
      if last == 0 {
        if significant == 0 {
          exponent := EXPONENT_MIN;
          break;
        }
        ok := false;
        return;
      }
      if stored < ndigits {
        if At(s, ndigits - 1 + base) != '0' && significant != 0 {
          ok := false;
          return;
        }
        ndigits := ndigits - 1;
      } else {
        if digits[last] != 0 {
          ok := false;
          return;
        }
        last := last - 1;
      }
      if exponent < EXPONENT_MAX {
        exponent := exponent + 1;
      } else {
        ok := false;
        return;
      }
    }
  }

  lemma FoldStep(digits: seq<Digit>, from: nat, i: nat)
    requires from <= i < |digits| && i + 1 - from <= 17
    ensures Num(digits[from..i + 1]) == 10 * Num(digits[from..i]) + digits[i]
    ensures Num(digits[from..i + 1]) < Pow10(17)
  {
    var next := digits[from..i + 1];
    assert next == digits[from..i] + [digits[i]];
    NumSnoc(digits[from..i], digits[i]);
    NumBound(next);
    Pow10Mono(|next|, 17);
  }

  lemma FoldFits(value: nat, d: Digit)
    requires 10 * value + d < Pow10(17)
    ensures value * 10 % TWO_64 == value * 10
    ensures (value * 10 + d) % TWO_64 == value * 10 + d
  {
    PowTable();
  }

  /** Folds the digits `from..to` onto the first one; seventeen digits fit 64 bits. */
  method FoldDigits(digits: array<Digit>, from: nat, to: nat) returns (value: uint64)
    requires from < to <= digits.Length && to - from <= 17
    ensures value == Num(digits[from..to]) < Pow10(17)
  {
    hide Num, Pow10;
    PowTable();
    value := digits[from];
    var i := from + 1;
    NumOne(digits[from]);
    assert digits[from..i] == [digits[from]];
    while i < to
      invariant from < i <= to
      invariant value == Num(digits[from..i]) < Pow10(17)
    {
      FoldStep(digits[..], from, i);
      assert digits[..][from..i + 1] == digits[from..i + 1] && digits[..][from..i] == digits[from..i];
      FoldFits(value, digits[i]);
      value := value * 10 % TWO_64;
      value := (value + digits[i]) % TWO_64;
      i := i + 1;
    }
  }

  /** The coefficient in two halves of at most seventeen digits. */
  method Halves(digits: array<Digit>, last: nat) returns (high: uint64, low: uint64)
    requires last < MAX_DIGITS == digits.Length
    ensures high < Pow10(17) && low < Pow10(17)
    ensures high * Pow10(17) + low == Num(digits[..last + 1])
  {
    if last < 17 {
      high := 0;
      low := FoldDigits(digits, 0, last + 1);
      assert digits[0..last + 1] == digits[..last + 1];
    } else {
      high := FoldDigits(digits, 0, last - 16);
      low := FoldDigits(digits, last - 16, last + 1);
      ghost var all := digits[..last + 1];
      assert all == all[..last - 16] + all[last - 16..];
      NumAppend(all[..last - 16], all[last - 16..]);
      assert all[..last - 16] == digits[0..last - 16] && all[last - 16..] == digits[last - 16..last + 1];
    }
  }

  lemma WideSplit(p: Product, c: nat)
    requires Wide(p) == c < TWO_64 * TWO_64
    ensures p == ToProduct(c)
  {
  }

  /** high * 10^17 + low as a 128-bit number, with the carry out of the lower half. */
  method Assemble(high: uint64, low: uint64) returns (significand: Product)
    requires high < Pow10(17) && low < Pow10(17)
    ensures Wide(significand) == high * Pow10(17) + low
  {
    PowTable();
    significand := Mul64x64(high, 100_000_000_000_000_000);
    MulBounds(high, 100_000_000_000_000_000, 100_000_000_000_000_001);
    significand := significand.(low := (significand.low + low) % TWO_64);
    if significand.low < low {
      significand := significand.(high := (significand.high + 1) % TWO_64);
    }
  }

  /** The digits array after the scan, padded by a raised exponent, is what normalisation keeps. */
  lemma BufferKeeps(ds: seq<Digit>, digits: seq<Digit>, stored: nat, raise: nat, m: nat)
    requires Buffered(ds, digits) && stored == Min(MAX_DIGITS, |ds|)
    requires m <= MAX_DIGITS && m <= stored + raise && (raise > 0 ==> stored == |ds|)
    ensures digits[..m] == (ds[..stored] + Zeros(raise))[..m]
  {
  }

  lemma BufferEnds(ds: seq<Digit>, digits: seq<Digit>, stored: nat, drop: nat)
    requires Buffered(ds, digits) && stored == Min(MAX_DIGITS, |ds|) && drop <= stored
    ensures ds[stored - drop..stored] == Zeros(drop) <==> forall k :: stored - drop <= k < stored ==> digits[k] == 0
  {
    if ds[stored - drop..stored] == Zeros(drop) {
      forall k | stored - drop <= k < stored ensures digits[k] == 0 {
        assert ds[k] == ds[stored - drop..stored][k - (stored - drop)];
      }
    }
  }

  /** Brings the exponent into range; `last` is the last coefficient digit, 34 when the array overruns. */
  method NormalizeExponent(ghost ds: seq<Digit>, s: string, at: nat, base: nat, digits: array<Digit>, stored: nat,
                           ndigits: nat, exponent: int)
    returns (ok: bool, last: nat, e: int)
    requires ds != [] && digits.Length == MAX_DIGITS && Buffered(ds, digits[..])
    requires ndigits == |ds| && stored == Min(MAX_DIGITS, ndigits)
    requires Significant(s, at, ndigits) >= 1
    ensures !ok <==> NormalizeDigits(ds, s, at, base, exponent).Refused?
    ensures ok ==> last <= MAX_DIGITS
    ensures ok && last == MAX_DIGITS ==> NormalizeDigits(ds, s, at, base, exponent).Overrun?
    ensures ok && last < MAX_DIGITS ==> NormalizeDigits(ds, s, at, base, exponent) == Kept(digits[..last + 1], e)
  {
    hide Significant;
    var significant := CountSignificant(s, at, ndigits);
    ok, last, e := RaiseExponent(stored, significant, exponent);
    if !ok {
      return;
    }
    ghost var raise := Max(0, exponent - EXPONENT_MAX);
    ghost var e2 := e + ndigits - stored;
    ghost var drop := Max(0, EXPONENT_MIN - e2);
    if drop < stored {
      BufferEnds(ds, digits[..], stored, drop);
    }
    ok, last, e := LowerExponent(s, base, digits, ndigits, stored, significant, last, e);
    if !ok {
      return;
    }
    assert last + 1 == stored + raise - drop;
    if last + 1 < significant && At(s, at + last + 1) != '0' {
      ok := false;
      return;
    }
    if last < MAX_DIGITS {
      BufferKeeps(ds, digits[..], stored, raise, last + 1);
      assert digits[..last + 1] == digits[..][..last + 1];
    }
  }

  /** Encodes the digits kept. */
  method EncodeDigits(digits: array<Digit>, last: nat, negative: bool, e: int) returns (r: Outcome)
    requires last < MAX_DIGITS == digits.Length
    ensures Num(digits[..last + 1]) < Pow10(34)
    ensures r == Pack(negative, Kept(digits[..last + 1], e))
  {
    NumBound(digits[..last + 1]);
    Pow10Mono(last + 1, 34);
    PowTable();
    var high, low := Halves(digits, last);
    var significand := Assemble(high, low);
    WideSplit(significand, Num(digits[..last + 1]));
    r := Parsed(Encode(negative, significand, e));
  }

  /** Brings a scanned non-zero numeral into range and encodes it. */
  method FinishNonzero(ghost n: Numeral, s: string, digits: array<Digit>, negative: bool, stored: nat, ndigits: nat,
                       firstNonzero: nat, base: nat, exponent: int)
    returns (r: Outcome)
    requires n.Valid() && n.Ds() != [] && s == n.text
    requires digits.Length == MAX_DIGITS && Buffered(n.Ds(), digits[..])
    requires negative == (At(n.text, 0) == '-') && exponent == n.Adjusted()
    requires ndigits == |n.Ds()| && stored == Min(MAX_DIGITS, ndigits)
    requires firstNonzero == n.First() && base == n.Base()
    ensures r == ParseNumeral(n)
  {
    hide Significant, NormalizeDigits, Encode, DigitsOf, Dots, Fraction;
    SignificantPositive(n);
    var ok, last, e := NormalizeExponent(n.Ds(), s, firstNonzero + base, base, digits, stored, ndigits, exponent);
    if !ok {
      return Rejected;
    }
    if last >= MAX_DIGITS {
      return OutOfBounds;
    }
    r := EncodeDigits(digits, last, negative, e);
  }

  /** A zero has its exponent clamped into range. */
  method FinishZero(ghost n: Numeral, s: string, digits: array<Digit>, negative: bool, base: nat, exponent: int)
    returns (r: Outcome)
    requires n.Ds() == [] && s == n.text && digits.Length == MAX_DIGITS
    requires negative == (At(n.text, 0) == '-') && exponent == n.Adjusted()
    ensures r == ParseNumeral(n)
  {
    var _, last, raised := RaiseExponent(1, 0, exponent);
    var _, _, e := LowerExponent(s, base, digits, 1, 1, 0, last, raised);
    KeptFits(n);
    PowTable();
    var significand := Assemble(0, 0);
    WideSplit(significand, 0);
    r := Parsed(Encode(negative, significand, e));
  }

  /** The digits have been read: finishes the parse of the numeral. */
  method Finish(ghost n: Numeral, s: string, digits: array<Digit>, negative: bool, base: nat, radixPosition: nat,
                c: Counts, exponent: int)
    returns (r: Outcome)
    requires (n.Ds() != [] ==> n.Valid()) && s == n.text
    requires digits.Length == MAX_DIGITS && Buffered(n.Ds(), digits[..])
    requires negative == (At(n.text, 0) == '-') && exponent == n.exponent && base == n.Base()
    requires radixPosition == Fraction(n.mantissa)
    requires Counted(n.Ds(), |n.All()|, c)
    ensures r == ParseNumeral(n)
  {
    var adjusted := exponent;
    if 0 <= exponent <= radixPosition && radixPosition - exponent > 16384 {
      adjusted := EXPONENT_MIN;
    } else {
      adjusted := exponent - radixPosition;
    }
    if c.stored == 0 {
      r := FinishZero(n, s, digits, negative, base, adjusted);
    } else {
      r := FinishNonzero(n, s, digits, negative, c.stored, c.ndigits, c.firstNonzero, base, adjusted);
    }
  }

  method ReadExponent(s: string, i: nat, len: nat) returns (ok: bool, exponent: int)
    requires i <= |s| && len <= |s|
    ensures TailWithin(s, i, len) == if ok then Some(exponent) else None
  {
    var j := i;
    ok, exponent := true, 0;
    if At(s, i) == 'e' || At(s, i) == 'E' {
      var scanned := ScanInt(s, i + 1);
      match scanned {
        case None => return false, 0;
        case Some(pair) => exponent, j := pair.0, pair.1;
      }
    }
    ok := !(j < len && At(s, j) != '\0');
  }

  /** Only a lone point has no digits. */
  lemma NoDigits(m: string)
    requires forall k :: 0 <= k < |m| ==> InMantissa(m[k])
    ensures Dots(m) == 0 ==> |DigitsOf(m)| == |m|
  {
    if Dots(m) == 0 { DigitColumns(m); }
  }

  /** What the scan has counted, in terms of the numeral it has read. */
  lemma ScannedNumeral(n: Numeral, sawRadix: bool, radixPosition: nat, c: Counts)
    requires Scanned(n.mantissa, sawRadix, radixPosition, c)
    ensures Dots(n.mantissa) <= 1 && radixPosition == Fraction(n.mantissa) && Counted(n.Ds(), |n.All()|, c)
    ensures n.Base() == n.sign + if sawRadix then 1 else 0
    ensures n.All() != [] <==> c.ndigitsRead != 0
  {
  }

  /** Which numeral has been read, once the exponent is known too. */
  lemma NumeralRead(s: string, len: nat, i: nat, exponent: int)
    requires len <= |s| && i == RunWithin(s, SignLength(s), len) && TailWithin(s, i, len) == Some(exponent)
    requires Dots(s[SignLength(s)..i]) <= 1
    requires Dots(s[SignLength(s)..i]) == 1 ==> DigitsOf(s[SignLength(s)..i]) != []
    ensures ReadWithin(s, len) == Some(Numeral(s, SignLength(s), s[SignLength(s)..i], exponent))
  {
    hide TailWithin, RunEnd;
    NoDigits(s[SignLength(s)..i]);
  }

  method ReadNumber(s: string, len: nat, start: nat, negative: bool) returns (r: Outcome)
    requires len <= |s| && start == SignLength(s) && negative == (At(s, 0) == '-')
    requires InMantissa(At(s, start))
    ensures r == ParseWithin(s, len)
  {
    var digits := new Digit[MAX_DIGITS](_ => 0);
    assert digits[..] == Zeros(MAX_DIGITS);
    var ok, i, sawRadix, radixPosition, c := ScanMantissa(s, start, len, digits);
    hide Scanned, Counted, Buffered, ParseNumeral, TailWithin;
    if ok { ScannedNumeral(Numeral(s, start, s[start..i], 0), sawRadix, radixPosition, c); }
    if !ok || (sawRadix && c.ndigitsRead == 0) {
      return Rejected;
    }
    var exponent;
    ok, exponent := ReadExponent(s, i, len);
    if !ok {
      return Rejected;
    }
    ghost var n := Numeral(s, start, s[start..i], exponent);
    ScannedNumeral(n, sawRadix, radixPosition, c);
    NumeralRead(s, len, i, exponent);
    r := Finish(n, s, digits, negative, start + (if sawRadix then 1 else 0), radixPosition, c, exponent);
  }

  /** bson_decimal128_from_string_w_len: a length of -1 stands for the whole text. */
  method FromStringWithLength(s: string, len: int) returns (r: Outcome)
    ensures r == ParseWithin(s, if len == -1 then |s| else Min(Max(len, 0), |s|))
  {
    var negative, start := false, 0;
    if At(s, 0) == '+' || At(s, 0) == '-' {
      negative, start := At(s, 0) == '-', 1;
    }
    if !IsDigit(At(s, start)) && At(s, start) != '.' {
      if EqualNoCase(s, start, "inf") || EqualNoCase(s, start, "infinity") {
        return Parsed(Infinity(negative));
      } else if EqualNoCase(s, start, "nan") {
        return Parsed(NAN);
      }
      return Rejected;
    }
    r := ReadNumber(s, if len == -1 then |s| else Min(Max(len, 0), |s|), start, negative);
  }

  /** Told its whole length, the parser reads the whole text. */
  lemma WholeText(s: string)
    ensures ParseWithin(s, |s|) == Parse(s)
  {
    hide ParseNumeral, DigitsOf, Dots;
    var sign := SignLength(s);
    if InMantissa(At(s, sign)) {
      assert RunEnd(s, sign) > sign;
      assert RunWithin(s, sign, |s|) == RunEnd(s, sign);
      assert TailWithin(s, RunEnd(s, sign), |s|) == ReadTail(s, RunEnd(s, sign));
    }
  }

  /** Parses a NUL-terminated text. */
  method FromString(s: string) returns (r: Outcome)
    ensures r == Parse(s)
  {
    WholeText(s);
    r := FromStringWithLength(s, -1);
  }
}
