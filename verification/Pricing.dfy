/** The leave-one-out price iteration of algorithm/pricing: every price is replaced by the average
    of the others, alternating between two lists. Prices are reals. */
module Pricing {
  function Sum(s: seq<real>): real {
    if s == [] then 0.0 else Sum(s[..|s| - 1]) + s[|s| - 1]
  }

  function Mean(s: seq<real>): real
    requires s != []
  {
    Sum(s) / |s| as real
  }

  /** The sum of the prices other than the one at index, over d, the number of those prices. */
  function LeaveOneOut(s: seq<real>, index: nat, d: real): real
    requires index < |s| && d > 0.0
  {
    (Sum(s) - s[index]) / d
  }

  function Round(s: seq<real>, d: real): (r: seq<real>)
    requires d > 0.0
    ensures |r| == |s|
    ensures forall i :: 0 <= i < |s| ==> r[i] == LeaveOneOut(s, i, d)
  {
    seq(|s|, i requires 0 <= i < |s| => LeaveOneOut(s, i, d))
  }

  /** k rounds over a list of fixed length, with d = length - 1. */
  function Rounds(s: seq<real>, d: real, k: nat): (r: seq<real>)
    requires d > 0.0
    ensures |r| == |s|
  {
    if k == 0 then s else Round(Rounds(s, d, k - 1), d)
  }

  function Pow(x: real, k: nat): real {
    if k == 0 then 1.0 else x * Pow(x, k - 1)
  }

  // ---------------------------------------------------------------- the program

  method CalcPriceFromList(index: nat, list: array<real>) returns (price: real)
    requires index < list.Length && list.Length >= 2
    ensures price == LeaveOneOut(list[..], index, (list.Length - 1) as real)
  {
    price := 0.0;
    for i := 0 to list.Length
      invariant price == Sum(list[..i]) - (if index < i then list[index] else 0.0)
    {
      assert list[..i + 1][..i] == list[..i];
      if i != index {
        price := price + list[i];
      }
    }
    assert list[..list.Length] == list[..];
    price := price / (list.Length - 1) as real;
  }

  method RunRound(input: array<real>, output: array<real>)
    requires input != output && input.Length == output.Length >= 2
    modifies output
    ensures output[..] == Round(input[..], (input.Length - 1) as real)
  {
    for i := 0 to input.Length
      invariant forall j :: 0 <= j < i ==> output[j] == LeaveOneOut(input[..], j, (input.Length - 1) as real)
    {
      output[i] := CalcPriceFromList(i, input);
    }
  }

  /** The loop of `main`: round i reads list i % 2 and fills the other one. */
  method Iterate(first: array<real>, second: array<real>, count: nat) returns (result: array<real>)
    requires first != second && first.Length == second.Length >= 2
    modifies first, second
    ensures result == (if count % 2 == 0 then first else second)
    ensures result[..] == Rounds(old(first[..]), (first.Length - 1) as real, count)
  {
    ghost var d := (first.Length - 1) as real;
    result := first;
    for i := 0 to count
      invariant result == (if i % 2 == 0 then first else second)
      invariant result[..] == Rounds(old(first[..]), d, i)
    {
      var input, output := result, if i % 2 == 0 then second else first;
      RunRound(input, output);
      result := output;
    }
  }

  // ---------------------------------------------------------------- what one round does

  lemma QuotientTimes(x: real, d: real, q: real)
    requires d != 0.0 && q == x / d
    ensures q * d == x
  {
  }

  lemma CancelFactor(x: real, y: real, d: real)
    requires d != 0.0 && x * d == y * d
    ensures x == y
  {
    assert (x - y) * d == 0.0;
  }

  lemma Distribute(a: real, b: real, d: real)
    ensures (a + b) * d == a * d + b * d
  {
  }

  /** n * total - Sum(s), in any list of the differences total - s[i] scaled by d. */
  lemma {:induction false} SumOfDifferences(s: seq<real>, total: real, d: real, r: seq<real>, n: real)
    requires |r| == |s| && n == |s| as real && forall i :: 0 <= i < |s| ==> r[i] * d == total - s[i]
    ensures Sum(r) * d == n * total - Sum(s)
  {
    if s != [] {
      SumOfDifferences(s[..|s| - 1], total, d, r[..|s| - 1], n - 1.0);
      Distribute(Sum(r[..|s| - 1]), r[|s| - 1], d);
      Distribute(n - 1.0, 1.0, total);
    }
  }

  lemma SumsAgree(s: seq<real>, r: seq<real>, d: real)
    requires |r| == |s| && d > 0.0 && |s| as real == d + 1.0
    requires forall i :: 0 <= i < |s| ==> r[i] * d == Sum(s) - s[i]
    ensures Sum(r) == Sum(s)
  {
    hide *;
    var n := |s| as real;
    SumOfDifferences(s, Sum(s), d, r, n);
    LessOne(Sum(s), Sum(r), d, n);
  }

  lemma MinusOne(x: real, n: real, d: real)
    requires d == n - 1.0
    ensures x * d == n * x - x
  {
  }

  lemma LessOne(x: real, y: real, d: real, n: real)
    requires d > 0.0 && n == d + 1.0 && y * d == n * x - x
    ensures y == x
  {
    MinusOne(x, n, d);
    CancelFactor(y, x, d);
  }

  /** A round conserves the sum, and with it the mean. */
  lemma RoundKeepsSum(s: seq<real>, d: real)
    requires d > 0.0 && |s| as real == d + 1.0
    ensures Sum(Round(s, d)) == Sum(s)
  {
    hide Sum;
    var r := Round(s, d);
    forall i | 0 <= i < |s| ensures r[i] * d == Sum(s) - s[i] {
      QuotientTimes(Sum(s) - s[i], d, r[i]);
    }
    SumsAgree(s, r, d);
  }

  /** A price's deviation from the mean m after a round is f = -1/d times the one before. */
  lemma Scale(total: real, x: real, price: real, m: real, f: real, d: real)
    requires d > 0.0 && price == (total - x) / d && m * (d + 1.0) == total && f * d == -1.0
    ensures price - m == (x - m) * f
  {
    QuotientTimes(total - x, d, price);
    assert (price - m) * d == m - x;
    assert ((x - m) * f) * d == (x - m) * (f * d) == m - x;
    CancelFactor(price - m, (x - m) * f, d);
  }

  // ---------------------------------------------------------------- what the iteration does

  lemma {:induction false} RoundsKeepSum(s: seq<real>, d: real, k: nat)
    requires d > 0.0 && |s| as real == d + 1.0
    ensures Sum(Rounds(s, d, k)) == Sum(s)
  {
    if k > 0 {
      RoundsKeepSum(s, d, k - 1);
      RoundKeepsSum(Rounds(s, d, k - 1), d);
    }
  }

  lemma Compose(z: real, y: real, x: real, p: real, f: real)
    requires y == x * p && z == y * f
    ensures z == x * (f * p)
  {
  }

  /** One round scales each deviation from m by f, in every list with the same sum and length. */
  ghost predicate Scales(n: nat, total: real, d: real, m: real, f: real)
    requires d > 0.0
  {
    forall t: seq<real>, j: nat :: |t| == n && Sum(t) == total && j < n ==>
      LeaveOneOut(t, j, d) - m == (t[j] - m) * f
  }

  lemma MeanScales(n: nat, total: real, d: real, m: real, f: real)
    requires n >= 2 && d == (n - 1) as real && m == total / n as real && f == -1.0 / d
    ensures Scales(n, total, d, m, f)
  {
    QuotientTimes(total, n as real, m);
    QuotientTimes(-1.0, d, f);
    forall t: seq<real>, j: nat | |t| == n && Sum(t) == total && j < n
      ensures LeaveOneOut(t, j, d) - m == (t[j] - m) * f
    {
      Scale(total, t[j], LeaveOneOut(t, j, d), m, f, d);
    }
  }

  lemma NoRounds(s: seq<real>, d: real, f: real)
    requires d > 0.0
    ensures Rounds(s, d, 0) == s && Pow(f, 0) == 1.0
  {
  }

  lemma NextRound(s: seq<real>, d: real, f: real, k: nat, i: nat)
    requires d > 0.0 && k > 0 && i < |s|
    ensures Rounds(s, d, k)[i] == LeaveOneOut(Rounds(s, d, k - 1), i, d)
    ensures Pow(f, k) == f * Pow(f, k - 1)
  {
  }

  lemma ScalesAt(t: seq<real>, d: real, m: real, f: real, j: nat)
    requires d > 0.0 && j < |t| && Scales(|t|, Sum(t), d, m, f)
    ensures LeaveOneOut(t, j, d) - m == (t[j] - m) * f
  {
  }

  lemma {:induction false} DeviationGrows(s: seq<real>, d: real, k: nat, i: nat, m: real, f: real)
    requires d > 0.0 && |s| as real == d + 1.0 && i < |s| && Scales(|s|, Sum(s), d, m, f)
    ensures Rounds(s, d, k)[i] - m == (s[i] - m) * Pow(f, k)
  {
    hide *;
    if k == 0 {
      NoRounds(s, d, f);
    } else {
      DeviationGrows(s, d, k - 1, i, m, f);
      RoundsKeepSum(s, d, k - 1);
      NextRound(s, d, f, k, i);
      var t := Rounds(s, d, k - 1);
      var price := LeaveOneOut(t, i, d);
      ScalesAt(t, d, m, f, i);
      Compose(price - m, t[i] - m, s[i] - m, Pow(f, k - 1), f);
    }
  }

  /** The factor by which a round multiplies a deviation from the mean. */
  function Factor(n: nat): real
    requires n >= 2
  {
    -1.0 / (n - 1) as real
  }

  lemma MeanFactor(s: seq<real>)
    requires |s| >= 2
    ensures |s| as real > 0.0 && Mean(s) == Sum(s) / |s| as real
    ensures (|s| - 1) as real > 0.0 && Factor(|s|) == -1.0 / (|s| - 1) as real
  {
  }

  /** After k rounds the sum is conserved and every deviation is the initial one times (-1/(n-1))^k. */
  lemma DeviationAfter(s: seq<real>, k: nat, i: nat)
    requires |s| >= 2 && i < |s|
    ensures var d := (|s| - 1) as real;
            && Sum(Rounds(s, d, k)) == Sum(s)
            && Rounds(s, d, k)[i] - Mean(s) == (s[i] - Mean(s)) * Pow(Factor(|s|), k)
  {
    hide *;
    var d := (|s| - 1) as real;
    RoundsKeepSum(s, d, k);
    MeanFactor(s);
    MeanScales(|s|, Sum(s), d, Mean(s), Factor(|s|));
    DeviationGrows(s, d, k, i, Mean(s), Factor(|s|));
  }

  function Abs(x: real): real {
    if x < 0.0 then -x else x
  }

  lemma HalfOrLess(y: real, x: real, f: real, d: real)
    requires d >= 2.0 && f * d == -1.0 && y == x * f
    ensures 2.0 * Abs(y) <= Abs(x)
  {
    assert y * d == x * (f * d) == -x;
    if y >= 0.0 { assert y * d >= y * 2.0; } else { assert (-y) * d >= (-y) * 2.0; }
  }

  lemma Halve(a: real, b: real, p: real, c: real)
    requires 2.0 * a <= b && p > 0.0 && b * p <= c
    ensures a * (2.0 * p) <= c
  {
    var gap := b - 2.0 * a;
    assert gap * p >= 0.0;
    assert gap * p == b * p - a * (2.0 * p);
  }

  lemma {:induction false} PowPositive(k: nat)
    ensures Pow(2.0, k) > 0.0
  {
    if k > 0 { PowPositive(k - 1); }
  }

  /** One round at least halves each distance from m, in every list with the same sum and length. */
  ghost predicate Halves(n: nat, total: real, d: real, m: real)
    requires d > 0.0
  {
    forall t: seq<real>, j: nat :: |t| == n && Sum(t) == total && j < n ==>
      2.0 * Abs(LeaveOneOut(t, j, d) - m) <= Abs(t[j] - m)
  }

  lemma MeanHalves(n: nat, total: real, d: real, m: real)
    requires n >= 3 && d == (n - 1) as real && m == total / n as real
    ensures Halves(n, total, d, m)
  {
    hide Sum;
    var f := -1.0 / d;
    MeanScales(n, total, d, m, f);
    QuotientTimes(-1.0, d, f);
    forall t: seq<real>, j: nat | |t| == n && Sum(t) == total && j < n
      ensures 2.0 * Abs(LeaveOneOut(t, j, d) - m) <= Abs(t[j] - m)
    {
      HalfOrLess(LeaveOneOut(t, j, d) - m, t[j] - m, f, d);
    }
  }

  lemma HalvesAt(t: seq<real>, d: real, m: real, j: nat)
    requires d > 0.0 && j < |t| && Halves(|t|, Sum(t), d, m)
    ensures 2.0 * Abs(LeaveOneOut(t, j, d) - m) <= Abs(t[j] - m)
  {
  }

  lemma {:induction false} DistanceShrinks(s: seq<real>, d: real, k: nat, i: nat, m: real)
    requires d > 0.0 && |s| as real == d + 1.0 && i < |s| && Halves(|s|, Sum(s), d, m)
    ensures Abs(Rounds(s, d, k)[i] - m) * Pow(2.0, k) <= Abs(s[i] - m)
  {
    hide *;
    if k == 0 {
      NoRounds(s, d, 2.0);
    } else {
      DistanceShrinks(s, d, k - 1, i, m);
      RoundsKeepSum(s, d, k - 1);
      NextRound(s, d, 2.0, k, i);
      var t := Rounds(s, d, k - 1);
      HalvesAt(t, d, m, i);
      PowPositive(k - 1);
      Halve(Abs(LeaveOneOut(t, i, d) - m), Abs(t[i] - m), Pow(2.0, k - 1), Abs(s[i] - m));
    }
  }

  /** With three prices or more, every round at least halves the distance from the mean. */
  lemma DeviationShrinks(s: seq<real>, k: nat, i: nat)
    requires |s| >= 3 && i < |s|
    ensures Abs(Rounds(s, (|s| - 1) as real, k)[i] - Mean(s)) * Pow(2.0, k) <= Abs(s[i] - Mean(s))
  {
    hide *;
    var d := (|s| - 1) as real;
    MeanFactor(s);
    MeanHalves(|s|, Sum(s), d, Mean(s));
    DistanceShrinks(s, d, k, i, Mean(s));
  }

  lemma SwapPair(a: real, b: real)
    ensures Round([a, b], 1.0) == [b, a]
  {
    assert [a][..0] == [] && Sum([a]) == a;
    assert [a, b][..1] == [a] && Sum([a, b]) == Sum([a]) + b;
  }

  /** With two prices the rounds only swap them: the deviation changes sign and never shrinks. */
  lemma {:induction false} TwoPricesSwap(a: real, b: real, k: nat)
    ensures Rounds([a, b], 1.0, k) == if k % 2 == 0 then [a, b] else [b, a]
  {
    if k > 0 {
      TwoPricesSwap(a, b, k - 1);
      SwapPair(a, b);
      SwapPair(b, a);
    }
  }
}
