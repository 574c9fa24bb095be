/** Positional numerals in any base, most significant digit first, without leading
    zeros. The digits of a number have that number as their value, and a numeral
    without a leading zero is recovered from its value; zeros in front do not change
    the value, so a codec has to count them apart. */
module Numerals {
  type Digits = seq<nat>

  ghost predicate InBase(ds: Digits, base: nat) {
    forall d | d in ds :: d < base
  }

  function FromDigits(ds: Digits, base: nat): nat {
    if ds == [] then 0 else FromDigits(ds[..|ds| - 1], base) * base + ds[|ds| - 1]
  }

  function ToDigits(n: nat, base: nat): Digits
    requires base >= 2
    decreases n
  {
    if n == 0 then [] else
      Smaller(n, base);
      ToDigits(n / base, base) + [n % base]
  }

  /** One turn of a divmod loop, with the digits ds already written. */
  lemma LastDigit(n: nat, ds: Digits, base: nat)
    requires base >= 2
    ensures n == 0 ==> ToDigits(n, base) + ds == ds
    ensures n > 0 ==> n / base < n && ToDigits(n, base) + ds == ToDigits(n / base, base) + ([n % base] + ds)
  {
    if n > 0 { Smaller(n, base); }
  }

  lemma Smaller(n: nat, base: nat)
    requires base >= 2 && n > 0
    ensures n / base < n && n % base < base && (n / base) * base + n % base == n
    ensures n / base == 0 ==> n % base != 0
  {
  }

  lemma DivMod(q: nat, d: nat, base: nat)
    requires d < base
    ensures (q * base + d) / base == q && (q * base + d) % base == d
  {
    var n := q * base + d;
    var k := n / base - q;
    assert k * base == d - n % base;
    if k != 0 {
      Apart(k, base);
    }
  }

  lemma Apart(k: int, base: nat)
    requires k != 0
    ensures k * base >= base || k * base + base <= 0
  {
    if k > 0 { MulAtLeast(k, base); } else { MulAtLeast(-k, base); }
  }

  lemma MulAtLeast(k: nat, base: nat)
    requires k >= 1
    ensures k * base >= base
  {
    assert k * base == base + (k - 1) * base;
  }

  lemma FromDigitsSnoc(ds: Digits, d: nat, base: nat)
    ensures FromDigits(ds + [d], base) == FromDigits(ds, base) * base + d
  {
    assert (ds + [d])[..|ds|] == ds;
  }

  lemma {:induction false} ToDigitsShape(n: nat, base: nat)
    requires base >= 2
    ensures InBase(ToDigits(n, base), base)
    ensures n > 0 ==> ToDigits(n, base) != [] && ToDigits(n, base)[0] != 0
    ensures FromDigits(ToDigits(n, base), base) == n
    decreases n
  {
    hide FromDigits;
    if n == 0 {
      EmptyNumber(base);
    } else {
      Smaller(n, base);
      var q, d := n / base, n % base;
      ToDigitsShape(q, base);
      FromDigitsSnoc(ToDigits(q, base), d, base);
      assert ToDigits(n, base) == ToDigits(q, base) + [d];
      assert q == 0 ==> ToDigits(q, base) == [];
    }
  }

  lemma EmptyNumber(base: nat)
    ensures FromDigits([], base) == 0
  {
  }

  lemma MorePositive(q: nat, d: nat, base: nat)
    requires base >= 2 && (q > 0 || d > 0)
    ensures q * base + d > 0
  {
    if q > 0 { MulAtLeast(q, base); }
  }

  /** One more digit, as long as the number is not zero. */
  lemma ToDigitsSnoc(q: nat, d: nat, base: nat)
    requires base >= 2 && d < base && (q > 0 || d > 0)
    ensures q * base + d > 0 && ToDigits(q * base + d, base) == ToDigits(q, base) + [d]
  {
    MorePositive(q, d, base);
    DivMod(q, d, base);
    ToDigitsOf(q * base + d, base);
  }

  lemma ToDigitsOf(n: nat, base: nat)
    requires base >= 2 && n > 0
    ensures n / base >= 0 && n % base >= 0 && ToDigits(n, base) == ToDigits(n / base, base) + [n % base]
  {
    Smaller(n, base);
  }

  lemma NoDigits(base: nat)
    requires base >= 2
    ensures ToDigits(0, base) == []
  {
  }

  /** A numeral without a leading zero is recovered from its number. */
  lemma {:induction false} FromDigitsBack(ds: Digits, base: nat)
    requires base >= 2 && InBase(ds, base) && (ds != [] ==> ds[0] != 0)
    ensures ToDigits(FromDigits(ds, base), base) == ds
    ensures ds != [] ==> FromDigits(ds, base) > 0
  {
    hide ToDigits, FromDigits;
    EmptyNumber(base);
    NoDigits(base);
    if ds != [] {
      var front, last := ds[..|ds| - 1], ds[|ds| - 1];
      assert ds == front + [last];
      assert last in ds && forall d | d in front :: d in ds;
      FromDigitsBack(front, base);
      FromDigitsSnoc(front, last, base);
      ToDigitsSnoc(FromDigits(front, base), last, base);
    }
  }

  function Zeros(k: nat): Digits {
    seq(k, _ => 0)
  }

  lemma NoZeros(ds: Digits)
    ensures Zeros(0) + ds == ds
  {
  }

  /** Leading zeros do not change the number. */
  lemma {:induction false} LeadingZeros(k: nat, ds: Digits, base: nat)
    ensures FromDigits(Zeros(k) + ds, base) == FromDigits(ds, base)
    decreases k + |ds|
  {
    var all := Zeros(k) + ds;
    if ds != [] {
      assert all[..|all| - 1] == Zeros(k) + ds[..|ds| - 1];
      LeadingZeros(k, ds[..|ds| - 1], base);
    } else if k > 0 {
      assert all[..|all| - 1] == Zeros(k - 1) + [];
      LeadingZeros(k - 1, [], base);
    }
  }

  /** How many zeros a numeral starts with, and what follows them. */
  function LeadingCount(ds: Digits): (k: nat)
    ensures k <= |ds| && (forall i | 0 <= i < k :: ds[i] == 0) && (k < |ds| ==> ds[k] != 0)
  {
    if ds == [] || ds[0] != 0 then 0 else 1 + LeadingCount(ds[1..])
  }

  lemma SplitLeading(ds: Digits)
    ensures ds == Zeros(LeadingCount(ds)) + ds[LeadingCount(ds)..]
  {
    hide LeadingCount;
    assert ds[..LeadingCount(ds)] == Zeros(LeadingCount(ds));
  }

  lemma {:induction false} LeadingOf(k: nat, ds: Digits)
    requires ds == [] || ds[0] != 0
    ensures LeadingCount(Zeros(k) + ds) == k && (Zeros(k) + ds)[k..] == ds
  {
    if k == 0 {
      assert Zeros(k) + ds == ds;
    } else {
      assert (Zeros(k) + ds)[1..] == Zeros(k - 1) + ds;
      LeadingOf(k - 1, ds);
    }
  }
}
