/** Decimal digit sequences, most significant digit first. */
module Digits {
  type Digit = d: int | 0 <= d < 10

  function Pow10(n: nat): (p: nat)
    ensures p >= 1
  {
    if n == 0 then 1 else 10 * Pow10(n - 1)
  }

  /** The number a digit sequence denotes. */
  function Num(ds: seq<Digit>): nat {
    if ds == [] then 0 else 10 * Num(ds[..|ds| - 1]) + ds[|ds| - 1]
  }

  function Zeros(n: nat): (z: seq<Digit>)
    ensures |z| == n && forall i :: 0 <= i < n ==> z[i] == 0
  {
    seq(n, _ => 0)
  }

  /** `ds` without its leading zeros. */
  function Strip(ds: seq<Digit>): (r: seq<Digit>)
    ensures |r| <= |ds|
    ensures r != [] ==> r[0] != 0
  {
    if ds == [] then []
    else
      var r := Strip(ds[..|ds| - 1]);
      if r == [] && ds[|ds| - 1] == 0 then [] else r + [ds[|ds| - 1]]
  }

  /** The decimal digits of `n`, with none for zero. */
  function ToDigits(n: nat): (ds: seq<Digit>)
    ensures ds != [] ==> ds[0] != 0
    ensures ds == [] <==> n == 0
  {
    if n == 0 then [] else ToDigits(n / 10) + [n % 10]
  }

  lemma TenOut(a: int, p: int)
    ensures 10 * (a * p) == a * (10 * p) == (10 * a) * p
  {
  }

  lemma TenSplit(n: int, q: int, r: int, p: int)
    requires n == 10 * q + r
    ensures r * p + q * (10 * p) == n * p
  {
  }

  lemma {:induction false} Pow10Add(a: nat, b: nat)
    ensures Pow10(a + b) == Pow10(a) * Pow10(b)
  {
    if a > 0 {
      Pow10Add(a - 1, b);
      TenOut(Pow10(a - 1), Pow10(b));
    }
  }

  lemma {:induction false} Pow10Mono(a: nat, b: nat)
    requires a <= b
    ensures Pow10(a) <= Pow10(b)
  {
    if a < b { Pow10Mono(a, b - 1); }
  }

  lemma NumSnoc(ds: seq<Digit>, d: Digit)
    ensures Num(ds + [d]) == 10 * Num(ds) + d
  {
    assert (ds + [d])[..|ds|] == ds;
  }

  lemma NumOne(d: Digit)
    ensures Num([d]) == d
  {
    assert [] + [d] == [d];
    NumSnoc([], d);
  }

  lemma {:induction false} NumAppend(a: seq<Digit>, b: seq<Digit>)
    ensures Num(a + b) == Num(a) * Pow10(|b|) + Num(b)
  {
    if b == [] {
      assert a + b == a;
    } else {
      var init, d := b[..|b| - 1], b[|b| - 1];
      assert a + b == (a + init) + [d];
      NumSnoc(a + init, d);
      NumAppend(a, init);
      TenOut(Num(a), Pow10(|init|));
    }
  }

  lemma {:induction false} NumBound(ds: seq<Digit>)
    ensures Num(ds) < Pow10(|ds|)
  {
    if ds != [] { NumBound(ds[..|ds| - 1]); }
  }

  lemma {:induction false} NumZeros(n: nat)
    ensures Num(Zeros(n)) == 0
  {
    if n > 0 {
      NumZeros(n - 1);
      assert Zeros(n)[..n - 1] == Zeros(n - 1);
    }
  }

  lemma NumPadded(ds: seq<Digit>, k: nat)
    ensures Num(ds + Zeros(k)) == Num(ds) * Pow10(k)
  {
    NumAppend(ds, Zeros(k));
    NumZeros(k);
  }

  /** A number with a non-zero leading digit is at least that power of ten. */
  lemma {:induction false} NumLeading(ds: seq<Digit>)
    requires ds != [] && ds[0] != 0
    ensures Pow10(|ds| - 1) <= Num(ds)
  {
    if |ds| > 1 { NumLeading(ds[..|ds| - 1]); }
  }

  lemma {:induction false} NumToDigits(n: nat)
    ensures Num(ToDigits(n)) == n
  {
    if n > 0 {
      NumToDigits(n / 10);
      assert ToDigits(n)[..|ToDigits(n)| - 1] == ToDigits(n / 10);
    }
  }

  lemma {:induction false} StripIsToDigits(ds: seq<Digit>)
    ensures Strip(ds) == ToDigits(Num(ds))
  {
    if ds != [] { StripIsToDigits(ds[..|ds| - 1]); }
  }

  /** `ds` is its leading zeros followed by `Strip(ds)`. */
  lemma {:induction false} StripSplit(ds: seq<Digit>)
    ensures ds == Zeros(|ds| - |Strip(ds)|) + Strip(ds)
  {
    if ds != [] { StripSplit(ds[..|ds| - 1]); }
  }

  lemma {:induction false} StripPrefixed(k: nat, ds: seq<Digit>)
    requires ds != [] ==> ds[0] != 0
    ensures Strip(Zeros(k) + ds) == ds
  {
    var all := Zeros(k) + ds;
    if ds != [] {
      var m := ds[..|ds| - 1];
      assert all[..|all| - 1] == Zeros(k) + m;
      StripPrefixed(k, m);
    } else if k > 0 {
      assert all[..|all| - 1] == Zeros(k - 1) + ds;
      StripPrefixed(k - 1, ds);
    } else {
      assert all == [];
    }
  }

  lemma {:induction false} ToDigitsLength(n: nat, k: nat)
    requires n < Pow10(k)
    ensures |ToDigits(n)| <= k
  {
    if ToDigits(n) != [] && |ToDigits(n)| > k {
      NumToDigits(n);
      NumLeading(ToDigits(n));
      Pow10Mono(k, |ToDigits(n)| - 1);
    }
  }

  lemma {:induction false} NumZeroIff(ds: seq<Digit>)
    ensures Num(ds) == 0 <==> ds == Zeros(|ds|)
  {
    NumZeros(|ds|);
    if Num(ds) == 0 && ds != [] {
      NumZeroIff(ds[..|ds| - 1]);
    }
  }

  lemma PowTable()
    ensures Pow10(4) == 10000
    ensures Pow10(9) == 1_000_000_000
    ensures Pow10(17) == 100_000_000_000_000_000
    ensures Pow10(34) == 10_000_000_000_000_000_000_000_000_000_000_000
    ensures Pow10(35) == 100_000_000_000_000_000_000_000_000_000_000_000
    ensures Pow10(36) == 1_000_000_000_000_000_000_000_000_000_000_000_000
  {
    assert Pow10(8) == 100_000_000;
    Pow10Add(9, 8);
    Pow10Add(17, 17);
    Pow10Add(34, 1);
    Pow10Add(35, 1);
  }
}
