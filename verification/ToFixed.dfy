/** Powers of natural numbers, and the fast power of module `8xKV`. */
module Power {
  function Pow(b: nat, k: nat): (r: nat)
    ensures b > 0 ==> r > 0
  {
    if k == 0 then 1 else b * Pow(b, k - 1)
  }

  lemma MulAssoc(a: int, b: int, c: int)
    ensures (a * b) * c == a * (b * c)
  {
  }

  lemma MulMonotone(a: int, b: int, c: nat)
    requires a <= b
    ensures a * c <= b * c
  {
    assert (b - a) * c >= 0;
  }

  lemma QuotientBelow(n: int, t: nat, bound: int)
    requires t > 0
    ensures n < bound * t <==> n / t < bound
  {
    var d := n / t;
    assert n == d * t + n % t;
    if d < bound { MulMonotone(d + 1, bound, t); } else { MulMonotone(bound, d, t); }
  }

  lemma QuotientUnique(a: int, t: nat, q: int, r: int)
    requires a == t * q + r && 0 <= r < t
    ensures q == a / t && r == a % t
  {
    QuotientBelow(a, t, q);
    QuotientBelow(a, t, q + 1);
  }

  lemma {:induction false} PowAdd(b: nat, i: nat, j: nat)
    ensures Pow(b, i + j) == Pow(b, i) * Pow(b, j)
  {
    if i > 0 {
      PowAdd(b, i - 1, j);
      MulAssoc(b, Pow(b, i - 1), Pow(b, j));
    }
  }

  lemma {:induction false} PowSquare(b: nat, k: nat)
    ensures Pow(b * b, k) == Pow(b, 2 * k)
    decreases k
  {
    if k > 0 {
      PowSquare(b, k - 1);
      MulAssoc(b, b, Pow(b, 2 * k - 2));
      assert Pow(b, 2 * k) == b * Pow(b, 2 * k - 1);
    }
  }

  /** `f`: square and multiply, with an accumulator. */
  function FastPow(b: nat, k: nat, acc: nat): nat
    decreases k
  {
    if k == 0 then acc else if k % 2 == 1 then FastPow(b, k - 1, acc * b) else FastPow(b * b, k / 2, acc)
  }

  lemma {:induction false} FastPowIsPow(b: nat, k: nat, acc: nat)
    ensures FastPow(b, k, acc) == acc * Pow(b, k)
    decreases k
  {
    if k == 0 {
    } else if k % 2 == 1 {
      FastPowIsPow(b, k - 1, acc * b);
      MulAssoc(acc, b, Pow(b, k - 1));
    } else {
      FastPowIsPow(b * b, k / 2, acc);
      PowSquare(b, k / 2);
    }
  }
}

/** Decimal numerals as strings. */
module Numerals {
  import opened Power

  function Digit(d: nat): char
    requires d < 10
  {
    '0' + d as char
  }

  predicate IsDigit(c: char) {
    '0' <= c <= '9'
  }

  predicate AllDigits(s: string) {
    forall i :: 0 <= i < |s| ==> IsDigit(s[i])
  }

  function Parse(s: string): nat
    requires AllDigits(s)
  {
    if s == "" then 0 else Parse(s[..|s| - 1]) * 10 + (s[|s| - 1] - '0') as nat
  }

  /** A numeral without superfluous leading zeros. */
  predicate IsNumeral(s: string) {
    s != "" && AllDigits(s) && (s[0] == '0' ==> |s| == 1)
  }

  /** `String` of a natural number. */
  function Decimal(n: nat): string {
    if n < 10 then [Digit(n)] else Decimal(n / 10) + [Digit(n % 10)]
  }

  function Repeat(c: char, k: nat): (s: string)
    ensures |s| == k && forall i :: 0 <= i < k ==> s[i] == c
  {
    seq(k, _ => c)
  }

  lemma {:induction false} DecimalIsNumeral(n: nat)
    ensures IsNumeral(Decimal(n)) && Parse(Decimal(n)) == n
    ensures n > 0 ==> Decimal(n)[0] != '0'
  {
    if n < 10 {
      assert [Digit(n)][..0] == "";
    } else {
      DecimalIsNumeral(n / 10);
      assert Decimal(n)[..|Decimal(n)| - 1] == Decimal(n / 10);
    }
  }

  lemma {:induction false} DecimalLength(n: nat, k: nat)
    requires k > 0 && n < Pow(10, k)
    ensures |Decimal(n)| <= k
    decreases k
  {
    if n >= 10 {
      DecimalLength(n / 10, k - 1);
    }
  }

  lemma Shift(a: nat, p: nat, f: nat)
    ensures (a * p + f) * 10 == a * (10 * p) + f * 10
  {
  }

  lemma {:induction false} ParseConcat(a: string, b: string)
    requires AllDigits(a) && AllDigits(b)
    ensures AllDigits(a + b) && Parse(a + b) == Parse(a) * Pow(10, |b|) + Parse(b)
    decreases |b|
  {
    if b == "" {
      assert a + b == a;
    } else {
      var front := b[..|b| - 1];
      ParseConcat(a, front);
      assert (a + b)[..|a + b| - 1] == a + front;
      Shift(Parse(a), Pow(10, |front|), Parse(front));
    }
  }

  lemma {:induction false} ParseZeros(k: nat)
    ensures Parse(Repeat('0', k)) == 0
  {
    if k > 0 {
      assert Repeat('0', k)[..k - 1] == Repeat('0', k - 1);
      ParseZeros(k - 1);
    }
  }

  lemma {:induction false} ParseBound(s: string)
    requires AllDigits(s)
    ensures Parse(s) < Pow(10, |s|)
  {
    if s != "" { ParseBound(s[..|s| - 1]); }
  }

  /** The numeral of n, padded with zeros to k digits, appended to a numeral. */
  lemma AppendPadded(a: string, n: nat, k: nat)
    requires IsNumeral(a) && a[0] != '0' && k > 0 && n < Pow(10, k)
    ensures |Decimal(n)| <= k
    ensures var s := a + Repeat('0', k - |Decimal(n)|) + Decimal(n);
            IsNumeral(s) && s[0] != '0' && Parse(s) == Parse(a) * Pow(10, k) + n
  {
    hide Decimal, Parse, Pow;
    DecimalLength(n, k);
    DecimalIsNumeral(n);
    var zeros := Repeat('0', k - |Decimal(n)|);
    ParseZeros(|zeros|);
    ParseConcat(zeros, Decimal(n));
    ParseConcat(a, zeros + Decimal(n));
    assert a + (zeros + Decimal(n)) == a + zeros + Decimal(n);
  }
}

module ToFixed {
  import opened Power
  import opened Numerals

  const BASE: nat := 10_000_000
  const EXACT: nat := 0x20_0000_0000_0000  // below 2^53 a double holds every integer

  // ---------------------------------------------------------------- limbs, least significant first

  ghost predicate Limbs(p: seq<nat>) {
    forall i :: 0 <= i < |p| ==> p[i] < BASE
  }

  function Value(p: seq<nat>): nat {
    if p == [] then 0 else p[0] + BASE * Value(p[1..])
  }

  /** Multiply by t and add r, from the least significant limb; also the carry out of the top. */
  function Times(p: seq<nat>, t: nat, r: nat): (q: (seq<nat>, nat))
    ensures |q.0| == |p| && Limbs(q.0)
  {
    if p == [] then ([], r)
    else
      var n := r + t * p[0];
      var (rest, carry) := Times(p[1..], t, n / BASE);
      ([n % BASE] + rest, carry)
  }

  /** Divide by t, from the most significant limb; also the remainder. */
  function Over(p: seq<nat>, t: nat): (q: (seq<nat>, nat))
    requires t > 0
    ensures |q.0| == |p| && q.1 < t
  {
    if p == [] then ([], 0)
    else
      var (rest, remainder) := Over(p[1..], t);
      var n := remainder * BASE + p[0];
      ([n / t] + rest, n % t)
  }

  lemma {:induction false} TimesValue(p: seq<nat>, t: nat, r: nat)
    ensures var (q, carry) := Times(p, t, r); Value(q) + carry * Pow(BASE, |p|) == t * Value(p) + r
  {
    if p != [] {
      var n := r + t * p[0];
      var (rest, carry) := Times(p[1..], t, n / BASE);
      var (q, _) := Times(p, t, r);
      assert q[1..] == rest;
      TimesValue(p[1..], t, n / BASE);
      TimesStep(Value(rest), carry, Pow(BASE, |p| - 1), t, Value(p[1..]), p[0], r);
    }
  }

  lemma TimesStep(rest: nat, carry: nat, pow: nat, t: nat, tail: nat, head: nat, r: nat)
    requires rest + carry * pow == t * tail + (r + t * head) / BASE
    ensures (r + t * head) % BASE + BASE * rest + carry * (BASE * pow) == t * (head + BASE * tail) + r
  {
    var n := r + t * head;
    assert BASE * (rest + carry * pow) == BASE * (t * tail) + (n - n % BASE);
    MulAssoc(BASE, carry, pow);
    MulAssoc(carry, BASE, pow);
    MulAssoc(BASE, t, tail);
    MulAssoc(t, BASE, tail);
  }

  lemma {:induction false} OverValue(p: seq<nat>, t: nat)
    requires t > 0
    ensures var (q, remainder) := Over(p, t); Value(p) == t * Value(q) + remainder
    ensures Limbs(p) ==> Limbs(Over(p, t).0)
  {
    if p != [] {
      var (rest, remainder) := Over(p[1..], t);
      var (q, _) := Over(p, t);
      assert q[1..] == rest;
      OverValue(p[1..], t);
      OverStep(Value(p[1..]), p[0], t, Value(rest), remainder);
      if Limbs(p) { QuotientIsLimb(remainder, p[0], t); }
    }
  }

  lemma OverStep(tail: nat, head: nat, t: nat, rest: nat, remainder: nat)
    requires t > 0 && tail == t * rest + remainder
    ensures var n := remainder * BASE + head; head + BASE * tail == t * (n / t + BASE * rest) + n % t
  {
    var n := remainder * BASE + head;
    MulAssoc(BASE, t, rest);
    MulAssoc(t, BASE, rest);
    assert n == t * (n / t) + n % t;
  }

  lemma QuotientIsLimb(remainder: nat, head: nat, t: nat)
    requires remainder < t && head < BASE
    ensures (remainder * BASE + head) / t < BASE
  {
    MulMonotone(remainder + 1, t, BASE);
    QuotientBelow(remainder * BASE + head, t, BASE);
  }

  lemma {:induction false} ValueBound(p: seq<nat>)
    requires Limbs(p)
    ensures Value(p) < Pow(BASE, |p|)
  {
    if p != [] { ValueBound(p[1..]); }
  }

  /** No carry is lost when the product fits. */
  lemma NoCarryLost(p: seq<nat>, t: nat, r: nat)
    requires t * Value(p) + r < Pow(BASE, |p|)
    ensures Times(p, t, r).1 == 0 && Value(Times(p, t, r).0) == t * Value(p) + r
  {
    TimesValue(p, t, r);
    var carry := Times(p, t, r).1;
    if carry > 0 { MulMonotone(1, carry, Pow(BASE, |p|)); }
  }

  /** `d`: multiply the limbs by t and add e. Every intermediate value is exact in a double. */
  method Multiply(p: array<nat>, t: nat, e: nat)
    requires p.Length == 6 && Limbs(p[..])
    requires if t == 0 then e < EXACT else e <= t <= BASE
    modifies p
    ensures p[..] == Times(old(p[..]), t, e).0
  {
    hide Times, Multiplying, Value, Pow;
    ghost var before := p[..];
    ghost var all := Times(before, t, e).0;
    MultiplyingStarts(before, t, e);
    var r: nat := e;
    assert p[..0] == [] && p[0..] == before[0..] == before;
    for n := 0 to 6
      invariant if t == 0 then r < EXACT else r <= t
      invariant p[n..] == before[n..] && Multiplying(p[..n], before[n..], t, r, all)
    {
      assert p[n] == before[n] by { assert p[n] == p[n..][0]; }
      CarryBound(t, p[n], r);
      MultiplyingStep(p[..n], before, n, t, r, all);
      var s: nat := r + t * p[n];
      assert s < EXACT;
      ghost var done := p[..n];
      p[n], r := s % BASE, s / BASE;
      assert p[..n + 1] == done + [s % BASE];
      assert p[n + 1..] == before[n + 1..] by { assert p[n + 1..] == old(p[n + 1..]); }
    }
    MultiplyingEnds(p[..6], t, r, all);
    assert p[..6] == p[..] && before[6..] == [];
  }

  /** The limbs below are done; the limbs above and the carry will complete `all`. */
  ghost predicate Multiplying(done: seq<nat>, rest: seq<nat>, t: nat, r: nat, all: seq<nat>) {
    done + Times(rest, t, r).0 == all
  }

  lemma MultiplyingStarts(p: seq<nat>, t: nat, r: nat)
    ensures Multiplying([], p, t, r, Times(p, t, r).0)
  {
  }

  lemma MultiplyingStep(done: seq<nat>, p: seq<nat>, n: nat, t: nat, r: nat, all: seq<nat>)
    requires n < |p| && t * p[n] >= 0 && Multiplying(done, p[n..], t, r, all)
    ensures Multiplying(done + [(r + t * p[n]) % BASE], p[n + 1..], t, (r + t * p[n]) / BASE, all)
  {
    assert p[n..][0] == p[n] && p[n..][1..] == p[n + 1..];
  }

  lemma MultiplyingEnds(done: seq<nat>, t: nat, r: nat, all: seq<nat>)
    ensures Multiplying(done, [], t, r, all) ==> done == all
  {
  }

  method MultiplyAdd(p: array<nat>, t: nat, e: nat)
    requires p.Length == 6 && Limbs(p[..])
    requires t * Value(p[..]) + e < Pow(BASE, 6)
    requires if t == 0 then e < EXACT else e <= t <= BASE
    modifies p
    ensures Limbs(p[..]) && Value(p[..]) == t * Value(old(p[..])) + e
  {
    NoCarryLost(p[..], t, e);
    Multiply(p, t, e);
  }

  lemma CarryBound(t: nat, limb: nat, r: nat)
    requires limb < BASE && t <= BASE && (if t == 0 then r < EXACT else r <= t)
    ensures 0 <= t * limb && r + t * limb < EXACT
    ensures if t == 0 then (r + t * limb) / BASE < EXACT else (r + t * limb) / BASE <= t
  {
    MulMonotone(limb, BASE - 1, t);
    if t > 0 { QuotientBelow(r + t * limb, BASE, t + 1); }
  }

  /** `g`: divide the limbs by t, rounding down. Every intermediate value is exact in a double. */
  method DivideLimbs(p: array<nat>, t: nat)
    requires p.Length == 6 && Limbs(p[..]) && 0 < t <= 0x80_0000
    modifies p
    ensures p[..] == Over(old(p[..]), t).0
  {
    hide Over;
    ghost var before := p[..];
    DividingStarts(before, t);
    assert p[6..] == before[6..] == [];
    var n: nat := 0;
    for e := 6 downto 0
      invariant p[..e] == before[..e] && Dividing(p[e..], before[e..], n, t)
    {
      assert p[e] == before[e] by { assert p[e] == p[..e + 1][e]; }
      DividingStep(p[e + 1..], before, e, n, t);
      n := n + p[e];
      assert n < EXACT;
      ghost var done := p[e + 1..];
      p[e], n := n / t, n % t * BASE;
      assert p[e..] == [p[e]] + done;
    }
    assert before[0..] == before && p[0..] == p[..];
  }

  /** The limbs above are done, and their remainder is carried down. */
  ghost predicate Dividing(done: seq<nat>, limbs: seq<nat>, n: nat, t: nat)
    requires t > 0
  {
    done == Over(limbs, t).0 && n == Over(limbs, t).1 * BASE
  }

  lemma DividingStarts(p: seq<nat>, t: nat)
    requires t > 0
    ensures Dividing([], [], 0, t)
  {
  }

  lemma DividingStep(done: seq<nat>, p: seq<nat>, e: nat, n: nat, t: nat)
    requires e < |p| && t > 0 && Dividing(done, p[e + 1..], n, t)
    ensures n <= (t - 1) * BASE
    ensures Dividing([(n + p[e]) / t] + done, p[e..], (n + p[e]) % t * BASE, t)
  {
    assert p[e..][0] == p[e] && p[e..][1..] == p[e + 1..];
  }

  method Divide(p: array<nat>, t: nat)
    requires p.Length == 6 && Limbs(p[..]) && 0 < t <= 0x80_0000
    modifies p
    ensures Limbs(p[..]) && Value(p[..]) == Value(old(p[..])) / t
  {
    OverValue(p[..], t);
    QuotientUnique(Value(p[..]), t, Value(Over(p[..], t).0), Over(p[..], t).1);
    DivideLimbs(p, t);
  }

  /** `y`: the limbs as a decimal numeral. */
  method Show(p: array<nat>) returns (s: string)
    requires p.Length == 6 && Limbs(p[..])
    ensures IsNumeral(s) && Parse(s) == Value(p[..])
  {
    assert Pow(10, 7) == BASE;
    s := "";
    for t := 6 downto 0
      invariant if s == "" then t > 0 && Value(p[t..]) == 0
                else IsNumeral(s) && Parse(s) == Value(p[t..]) && (t > 0 ==> s[0] != '0')
    {
      assert p[t..][0] == p[t] && p[t..][1..] == p[t + 1..];
      if s != "" || t == 0 || p[t] != 0 {
        var n := Decimal(p[t]);
        DecimalIsNumeral(p[t]);
        if s == "" {
          s := n;
        } else {
          AppendPadded(s, p[t], 7);
          s := s + Repeat('0', 7 - |n|) + n;
        }
      }
    }
    assert p[0..] == p[..];
  }

  // ---------------------------------------------------------------- rounding

  /** Round num / den to the nearest integer, ties up, given the doubled quotient rounded down. */
  function HalfUp(num: nat, half: nat): nat
    requires half > 0
  {
    (num / half + 1) / 2
  }

  /** m is as close to num / den as any integer, and the larger one when two are equally close. */
  ghost predicate Closest(m: int, num: int, den: nat) {
    forall k: int :: Distance(m, num, den) < Distance(k, num, den) ||
                     (Distance(m, num, den) == Distance(k, num, den) && k <= m)
  }

  function Distance(k: int, num: int, den: nat): nat {
    if k * den >= num then k * den - num else num - k * den
  }

  lemma DistanceFrom(k: int, num: int, den: nat, product: int)
    requires product == k * den
    ensures Distance(k, num, den) == if product >= num then product - num else num - product
  {
  }

  /** The rounding interval around m, with m * den named. */
  lemma Interval(m: int, num: int, den: nat, product: int)
    requires product == m * den && (2 * m - 1) * den <= 2 * num < (2 * m + 1) * den
    ensures 2 * product - den <= 2 * num < 2 * product + den
  {
    assert (2 * m) * den == 2 * product;
  }

  lemma CloserThanBelow(m: int, k: int, num: int, den: nat, product: int)
    requires k < m && product == m * den && 2 * product - den <= 2 * num
    ensures Distance(m, num, den) <= Distance(k, num, den)
  {
    hide Distance;
    MulMonotone(k, m - 1, den);
    assert (m - 1) * den == product - den;
    DistanceFrom(m, num, den, product);
    DistanceFrom(k, num, den, k * den);
  }

  lemma CloserThanAbove(m: int, k: int, num: int, den: nat, product: int)
    requires m < k && product == m * den && 2 * product - den <= 2 * num < 2 * product + den
    ensures Distance(m, num, den) < Distance(k, num, den)
  {
    hide Distance;
    MulMonotone(m + 1, k, den);
    assert (m + 1) * den == product + den;
    DistanceFrom(m, num, den, product);
    DistanceFrom(k, num, den, k * den);
  }

  /** The rounding interval around m decides closeness. */
  lemma ClosestIfWithinHalf(m: int, num: int, den: nat)
    requires (2 * m - 1) * den <= 2 * num < (2 * m + 1) * den
    ensures Closest(m, num, den)
  {
    hide Distance;
    Interval(m, num, den, m * den);
    forall k: int
      ensures Distance(m, num, den) < Distance(k, num, den) ||
              (Distance(m, num, den) == Distance(k, num, den) && k <= m)
    {
      if k < m {
        CloserThanBelow(m, k, num, den, m * den);
      } else if k > m {
        CloserThanAbove(m, k, num, den, m * den);
      }
    }
  }

  lemma HalfUpIsClosest(num: nat, half: nat)
    requires half > 0
    ensures Closest(HalfUp(num, half), num, 2 * half)
  {
    var q: int, m: int := num / half, HalfUp(num, half);
    QuotientBelow(num, half, q + 1);
    QuotientBelow(num, half, q);
    MulMonotone(2 * m - 1, q, half);
    MulMonotone(q + 1, 2 * m + 1, half);
    MulAssoc(2 * m - 1, 2, half);
    MulAssoc(2 * m + 1, 2, half);
    ClosestIfWithinHalf(m, num, 2 * half);
  }

  lemma QuotientOfQuotient(n: nat, a: nat, b: nat)
    requires a > 0 && b > 0
    ensures a * b > 0 && n / a / b == n / (a * b)
  {
    var q := n / a;
    var d := q / b;
    MulMonotone(1, a, b);
    assert n == a * q + n % a && q == b * d + q % b;
    MulAssoc(a, b, d);
    MulMonotone(q % b + 1, b, a);
    QuotientUnique(n, a * b, d, a * (q % b) + n % a);
  }

  lemma {:induction false} PowMonotone(b: nat, j: nat, k: nat)
    requires b > 0 && j <= k
    ensures Pow(b, j) <= Pow(b, k)
    decreases k
  {
    if j < k {
      PowMonotone(b, j, k - 1);
      MulMonotone(1, b, Pow(b, k - 1));
    }
  }

  /** Twenty digits of scale fit the limbs with room to spare. */
  lemma ScaledFits(n: nat, k: nat)
    requires n < EXACT && k <= 20
    ensures n * Pow(10, k) + 1 < Pow(BASE, 6)
  {
    assert Pow(10, 5) == 100000;
    PowAdd(10, 5, 5);
    PowAdd(10, 10, 10);
    PowMonotone(10, k, 20);
    MulMonotone(n, EXACT, Pow(10, k));
    MulMonotone(Pow(10, k), Pow(10, 20), EXACT);
    SixLimbs();
  }

  lemma SixLimbs()
    ensures Pow(BASE, 6) == 1_000_000_000_000_000_000_000_000_000_000_000_000_000_000
  {
    assert Pow(BASE, 3) == 1_000_000_000_000_000_000_000;
    PowAdd(BASE, 3, 3);
  }

  /** Scale n by 10^l in the limbs. */
  method Scale(p: array<nat>, n: nat, l: nat)
    requires p.Length == 6 && p[..] == [0, 0, 0, 0, 0, 0] && n < EXACT && l <= 20
    modifies p
    ensures Limbs(p[..]) && Value(p[..]) == n * Pow(10, l)
  {
    hide Pow, Value, FastPow;
    Start(p, n);
    TenToTheSeventh();
    var r := l;
    while r >= 7
      invariant 0 <= r <= l
      invariant Limbs(p[..]) && Value(p[..]) == n * Pow(10, l - r)
    {
      ScaledBy(n, l - r, 7);
      MultiplyAdd(p, BASE, 0);
      r := r - 7;
    }
    FastPowIsPow(10, r, 1);
    PowMonotone(10, r, 7);
    ScaledBy(n, l - r, r);
    MultiplyAdd(p, FastPow(10, r, 1), 0);
  }

  /** Put n into empty limbs. */
  method Start(p: array<nat>, n: nat)
    requires p.Length == 6 && p[..] == [0, 0, 0, 0, 0, 0] && n < EXACT
    modifies p
    ensures Limbs(p[..]) && Value(p[..]) == n == n * Pow(10, 0)
  {
    ScaledFits(n, 0);
    assert Pow(10, 0) == 1;
    MultiplyAdd(p, 0, n);
  }

  lemma TenToTheSeventh()
    ensures Pow(10, 7) == BASE
  {
  }

  lemma ScaledBy(n: nat, i: nat, j: nat)
    requires n < EXACT && i + j <= 20
    ensures Pow(10, j) * (n * Pow(10, i)) == n * Pow(10, i + j) < Pow(BASE, 6)
  {
    PowAdd(10, i, j);
    MulAssoc(n, Pow(10, i), Pow(10, j));
    ScaledFits(n, i + j);
  }

  /** Divide the limbs by 2^k, rounding down. */
  method ShiftRight(p: array<nat>, k: nat)
    requires p.Length == 6 && Limbs(p[..])
    modifies p
    ensures Limbs(p[..]) && Value(p[..]) == Value(old(p[..])) / Pow(2, k)
  {
    ghost var start := Value(p[..]);
    var r := k;
    while r >= 23
      invariant 0 <= r <= k && Limbs(p[..]) && Value(p[..]) == start / Pow(2, k - r)
    {
      PowerOfTwo23();
      QuotientOfQuotient(start, Pow(2, k - r), Pow(2, 23));
      PowAdd(2, k - r, 23);
      Divide(p, 0x80_0000);
      r := r - 23;
    }
    PowerOfTwo23();
    PowMonotone(2, r, 23);
    QuotientOfQuotient(start, Pow(2, k - r), Pow(2, r));
    PowAdd(2, k - r, r);
    Divide(p, Pow(2, r));
  }

  lemma PowerOfTwo23()
    ensures Pow(2, 23) == 0x80_0000
  {
    assert Pow(2, 7) == 128 && Pow(2, 8) == 256;
    PowAdd(2, 7, 8);
    PowAdd(2, 15, 8);
  }

  /** The digits of n * 10^l / 2^e, rounded half up. */
  method RoundedDigits(n: nat, e: nat, l: nat) returns (v: string)
    requires n < EXACT && e > 0 && l <= 20
    ensures IsNumeral(v) && Parse(v) == HalfUp(n * Pow(10, l), Pow(2, e - 1))
  {
    var p := new nat[6][0, 0, 0, 0, 0, 0];
    Scale(p, n, l);
    ShiftRight(p, e - 1);
    ScaledFits(n, l);
    QuotientAtMost(n * Pow(10, l), Pow(2, e - 1));
    MultiplyAdd(p, 1, 1);
    Divide(p, 2);
    v := Show(p);
  }

  lemma QuotientAtMost(n: nat, t: nat)
    requires t > 0
    ensures n / t <= n
  {
    MulMonotone(1, t, n + 1);
    QuotientBelow(n, t, n + 1);
  }

  /** When e <= 0 the number is an integer: its digits, then l zeros. */
  method IntegerDigits(n: nat, shift: nat, l: nat) returns (v: string)
    requires 0 < n < EXACT && shift <= 17 && l <= 20
    ensures IsNumeral(v) && Parse(v) == n * Pow(2, shift) * Pow(10, l) && |v| > l
  {
    var p := new nat[6][0, 0, 0, 0, 0, 0];
    hide Pow, Value, Parse;
    ShiftFits(n, shift);
    Start(p, n);
    MultiplyAdd(p, Pow(2, shift), 0);
    v := Show(p);
    LeadingDigit(v);
    ParseZeros(l);
    ParseConcat(v, Repeat('0', l));
    v := v + Repeat('0', l);
  }

  lemma ShiftFits(n: nat, shift: nat)
    requires n < EXACT && shift <= 17
    ensures Pow(2, shift) <= BASE && Pow(2, shift) * n == n * Pow(2, shift) < Pow(BASE, 6)
  {
    PowerOfTwo23();
    PowMonotone(2, shift, 23);
    MulMonotone(n, EXACT, Pow(2, shift));
    MulMonotone(Pow(2, shift), 0x80_0000, EXACT);
    SixLimbs();
  }

  /** A numeral of a positive number does not start with zero. */
  lemma LeadingDigit(v: string)
    requires IsNumeral(v) && Parse(v) > 0
    ensures v[0] != '0'
  {
    if |v| == 1 { assert v[..0] == ""; }
  }

  // ---------------------------------------------------------------- the whole function

  /** The receiver: not a number, a magnitude of 10^21 or more (printed by `String`), a magnitude
      num / den of at most 10^-21, or n / 2^e. Zero counts as not negative, whatever its sign. */
  datatype Input =
    | NotANumber
    | Huge(text: string)
    | Small(negative: bool, num: nat, den: nat)
    | Normal(negative: bool, n: nat, e: int)

  datatype Output = RangeError | Text(text: string)

  ghost predicate WellFormed(x: Input) {
    && (x.Small? ==> x.den > 0 && x.num * Pow(10, 21) <= x.den && (x.negative ==> x.num > 0))
    && (x.Normal? ==> 0 < x.n < EXACT && x.e >= -17)
  }

  function Numerator(x: Input, l: nat): int
    requires x.Small? || x.Normal?
  {
    if x.Small? then x.num * Pow(10, l)
    else if x.e > 0 then x.n * Pow(10, l) else x.n * Pow(2, -x.e) * Pow(10, l)
  }

  function Denominator(x: Input): nat
    requires x.Small? || x.Normal?
  {
    if x.Small? then x.den else if x.e > 0 then 2 * Pow(2, x.e - 1) else 1
  }

  /** s is the notation of m / 10^l with l fraction digits. */
  ghost predicate FixedNotation(s: string, m: nat, l: nat) {
    if l == 0 then IsNumeral(s) && Parse(s) == m
    else exists whole, fraction :: PointNotation(s, whole, fraction, m, l)
  }

  predicate PointNotation(s: string, whole: string, fraction: string, m: nat, l: nat) {
    && s == whole + "." + fraction && IsNumeral(whole) && AllDigits(fraction) && |fraction| == l
    && Parse(whole) * Pow(10, l) + Parse(fraction) == m
  }

  function PlacePoint(v: string, l: nat): string {
    if l == 0 then v
    else if |v| <= l then "0" + "." + (Repeat('0', l - |v|) + v)
    else v[..|v| - l] + "." + v[|v| - l..]
  }

  lemma PointAfterZeros(v: string, l: nat)
    requires IsNumeral(v) && |v| <= l
    ensures FixedNotation(PlacePoint(v, l), Parse(v), l)
  {
    var zeros := Repeat('0', l - |v|);
    ParseZeros(|zeros|);
    ParseConcat(zeros, v);
    assert Parse(zeros + v) == 0 * Pow(10, |v|) + Parse(v) == Parse(v);
    assert Parse("0") == 0 by { assert "0"[..0] == ""; }
    var s := PlacePoint(v, l);
    assert s == "0" + "." + (zeros + v);
    assert PointNotation(s, "0", zeros + v, 0 * Pow(10, l) + Parse(v), l);
    assert 0 * Pow(10, l) + Parse(v) == Parse(v);
  }

  lemma CutNumeral(v: string, k: nat)
    requires IsNumeral(v) && 0 < k < |v|
    ensures IsNumeral(v[..k]) && AllDigits(v[..k]) && AllDigits(v[k..]) && v == v[..k] + v[k..]
  {
  }

  lemma PointInside(v: string, l: nat)
    requires IsNumeral(v) && 0 < l < |v|
    ensures FixedNotation(PlacePoint(v, l), Parse(v), l)
  {
    hide Parse, Pow, IsNumeral, AllDigits;
    var whole, fraction := v[..|v| - l], v[|v| - l..];
    CutNumeral(v, |v| - l);
    ParseConcat(whole, fraction);
    assert PointNotation(PlacePoint(v, l), whole, fraction, Parse(v), l);
  }

  lemma PlacePointIsFixed(v: string, l: nat)
    requires IsNumeral(v)
    ensures FixedNotation(PlacePoint(v, l), Parse(v), l)
  {
    if l > 0 && |v| <= l { PointAfterZeros(v, l); }
    if 0 < l < |v| { PointInside(v, l); }
  }

  lemma WithinHalfOfZero(num: nat, den: nat)
    requires den > 0 && num * 10 <= den
    ensures Closest(0, num, den)
  {
    ClosestIfWithinHalf(0, num, den);
  }

  lemma ScaleDown(num: nat, small: nat, big: nat, den: nat)
    requires small <= big && num * (10 * big) <= den
    ensures 0 <= num * small && num * small * 10 <= den
  {
    MulMonotone(small, big, num);
    MulAssoc(num, big, 10);
  }

  lemma SmallRoundsToZero(num: nat, den: nat, l: nat)
    requires den > 0 && num * Pow(10, 21) <= den && l <= 20
    ensures Closest(0, num * Pow(10, l), den)
  {
    PowMonotone(10, l, 20);
    assert Pow(10, 21) == 10 * Pow(10, 20);
    ScaleDown(num, Pow(10, l), Pow(10, 20), den);
    WithinHalfOfZero(num * Pow(10, l), den);
  }

  /** The unsigned text of a finite number, and the integer it denotes at scale 10^l. */
  method FormatFinite(x: Input, l: nat) returns (s: string, ghost m: nat)
    requires WellFormed(x) && (x.Small? || x.Normal?) && l <= 20
    ensures FixedNotation(s, m, l) && Closest(m, Numerator(x, l), Denominator(x))
  {
    hide Closest, FixedNotation, Parse, IsNumeral, HalfUp, PlacePoint, Pow;
    var v;
    match x {
      case Small(_, num, den) =>
        v := "0";
        ZeroNumeral();
        SmallRoundsToZero(num, den, l);
      case Normal(_, n, e) =>
        if e > 0 {
          v := RoundedDigits(n, e, l);
          HalfUpIsClosest(n * Pow(10, l), Pow(2, e - 1));
        } else {
          v := IntegerDigits(n, -e, l);
          ClosestIfWithinHalf(Numerator(x, l), Numerator(x, l), 1);
        }
    }
    IsDigits(v);
    PlacePointIsFixed(v, l);
    s, m := PlacePoint(v, l), Parse(v);
  }

  lemma ZeroNumeral()
    ensures IsNumeral("0") && AllDigits("0") && Parse("0") == 0
  {
    assert "0"[..0] == "";
  }

  lemma IsDigits(v: string)
    requires IsNumeral(v)
    ensures AllDigits(v)
  {
  }

  /** Section 20.1.3.3 of ECMA-262 10th edition: the text denotes the integer m for which m / 10^l
      is closest to the number, the larger of two, with l fraction digits. */
  method Format(x: Input, l: int) returns (r: Output)
    requires WellFormed(x)
    ensures r.RangeError? <==> l < 0 || l > 20
    ensures r.Text? && x.NotANumber? ==> r.text == "NaN"
    ensures r.Text? && x.Huge? ==> r.text == x.text
    ensures r.Text? && (x.Small? || x.Normal?) ==> Denotes(r.text, x, l)
    ensures r.Text? && (x.Small? || x.Normal?) ==> r.text != "" && (r.text[0] == '-' <==> x.negative)
  {
    if l < 0 || l > 20 { return RangeError; }
    match x
    case NotANumber => r := Text("NaN");
    case Huge(text) => r := Text(text);
    case _ =>
      var s, m := FormatFinite(x, l);
      r := Text((if x.negative then "-" else "") + s);
      assert IsTextOf(r.text, x, l, s, m);
      NotationStarts(s, m, l);
  }

  /** The notation of a number has no sign. */
  lemma NotationStarts(s: string, m: nat, l: nat)
    requires FixedNotation(s, m, l)
    ensures s != "" && s[0] != '-'
  {
    if l > 0 {
      var whole, fraction :| PointNotation(s, whole, fraction, m, l);
    }
  }

  ghost predicate IsTextOf(text: string, x: Input, l: nat, s: string, m: nat)
    requires x.Small? || x.Normal?
  {
    && text == (if x.negative then "-" else "") + s
    && FixedNotation(s, m, l)
    && Closest(m, Numerator(x, l), Denominator(x))
  }

  ghost predicate Denotes(text: string, x: Input, l: nat)
    requires x.Small? || x.Normal?
  {
    exists s, m :: IsTextOf(text, x, l, s, m)
  }
}
