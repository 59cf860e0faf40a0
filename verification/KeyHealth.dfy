/**
  The ROCA fingerprint of core/keyhealth.py: the multiplicative-order loop, the
  residue-set test over the listed primes, and the two theorems about it: the test
  is exact, and every modulus of the Infineon form is flagged.
  */
module KeyHealth {
  import opened Common

  const ROCA_PRIMES: seq<nat> := [
    3, 5, 7, 11, 13, 17, 19, 23, 29, 31, 37, 41, 43, 47, 53, 59, 61, 67,
    71, 73, 79, 83, 89, 97, 101, 103, 107, 109, 113, 127, 131, 137, 139,
    149, 151, 157, 163, 167]
  const GENERATOR: nat := 65537

  // ---- Number theory -------------------------------------------------------

  function Pow(a: nat, k: nat): nat {
    if k == 0 then 1 else a * Pow(a, k - 1)
  }

  function Gcd(a: nat, b: nat): nat
    decreases b
  {
    if b == 0 then a else Gcd(b, a % b)
  }

  ghost predicate Congruent(x: int, y: int, m: int)
    requires m > 0
  {
    x % m == y % m
  }

  lemma CongruentIffDivides(x: int, y: int, m: int, q: int)
    requires m > 0 && x - y == q * m
    ensures Congruent(x, y, m)
  {
    var e := y / m;
    assert y == e * m + y % m;
    assert x == (q + e) * m + y % m;
    ModOfMultiple(q + e, y % m, m);
  }

  lemma ProductDifference(x: int, x': int, y: int, y': int, p: int, q: int, m: int)
    requires x - x' == p * m && y - y' == q * m
    ensures x * y - x' * y' == (p * y + x' * q) * m
  {
    calc {
      x * y - x' * y';
      (x - x') * y + x' * (y - y');
      (p * m) * y + x' * (q * m);
      (p * y + x' * q) * m;
    }
  }

  lemma CongruentMul(x: int, x': int, y: int, y': int, m: int)
    requires m > 0 && Congruent(x, x', m) && Congruent(y, y', m)
    ensures Congruent(x * y, x' * y', m)
  {
    var p, q := x / m - x' / m, y / m - y' / m;
    assert x - x' == p * m && y - y' == q * m;
    ProductDifference(x, x', y, y', p, q, m);
    CongruentIffDivides(x * y, x' * y', m, p * y + x' * q);
  }

  lemma CongruentReduced(x: int, m: int)
    requires m > 0
    ensures Congruent(x % m, x, m)
  {
    ModOfMultiple(0, x % m, m);
  }

  lemma PowSum(a: nat, j: nat, k: nat)
    ensures Pow(a, j + k) == Pow(a, j) * Pow(a, k)
    decreases j
  {
    if j > 0 {
      PowSum(a, j - 1, k);
      assert a * (Pow(a, j - 1) * Pow(a, k)) == (a * Pow(a, j - 1)) * Pow(a, k);
    }
  }

  lemma {:induction false} BezoutStep(a: int, b: int, q: int, r: int, u: int, v: int)
    requires a == q * b + r
    ensures v * a + (u - v * q) * b == u * b + v * r
  {
    assert v * (q * b) == (v * q) * b;
  }

  /** Euclid's algorithm, run backwards, gives the coefficients of the gcd. */
  lemma {:induction false} Bezout(a: nat, b: nat) returns (u: int, v: int)
    ensures u * a + v * b == Gcd(a, b)
    decreases b
  {
    if b == 0 {
      u, v := 1, 0;
    } else {
      var u', v' := Bezout(b, a % b);
      u, v := v', u' - v' * (a / b);
      BezoutStep(a, b, a / b, a % b, u', v');
    }
  }

  lemma {:induction false} GcdDivides(a: nat, b: nat) returns (s: nat, t: nat)
    ensures a == s * Gcd(a, b) && b == t * Gcd(a, b)
    decreases b
  {
    if b == 0 {
      s, t := 1, 0;
    } else {
      var s', t' := GcdDivides(b, a % b);
      s, t := a / b * s' + t', s';
      Regroup(a, b, a / b, a % b, s', t', Gcd(b, a % b));
    }
  }

  lemma {:induction false} Regroup(a: int, b: int, q: int, r: int, s: int, t: int, d: int)
    requires a == q * b + r && b == s * d && r == t * d
    ensures a == (q * s + t) * d
  {
    assert q * (s * d) == (q * s) * d;
  }

  lemma {:induction false} OnlyOneDividesOne(d: nat, a: int, b: int, s: int, t: int, x: int, y: int)
    requires a == s * d && b == t * d && a * x == y * b + 1
    ensures d == 1
  {
    assert (s * d) * x - y * (t * d) == (s * x - y * t) * d;
    UnitFactor(s * x - y * t, d);
  }

  lemma {:induction false} UnitFactor(k: int, d: nat)
    requires k * d == 1
    ensures d == 1
  {
    if k <= 0 { MulSign(k, d); } else if k >= 2 { MulTwice(k, d); }
  }

  lemma {:induction false} MulSign(k: int, d: nat)
    requires k <= 0
    ensures k * d <= 0
  {
  }

  lemma {:induction false} MulTwice(k: int, d: nat)
    requires k >= 2
    ensures k * d >= 2 * d
  {
  }

  /** A unit can be cancelled from a congruence. */
  lemma Cancel(a: nat, x: int, y: int, m: nat)
    requires m > 0 && Gcd(a, m) == 1 && Congruent(a * x, a * y, m)
    ensures Congruent(x, y, m)
  {
    var u, v := Bezout(a, m);
    var p := QuotientOfDifference(a * x, a * y, m);
    CancelWith(a, x - y, m, u, v, p);
    CongruentIffDivides(x, y, m, u * p + v * (x - y));
  }

  lemma QuotientOfDifference(x: int, y: int, m: int) returns (p: int)
    requires m > 0 && Congruent(x, y, m)
    ensures x - y == p * m
  {
    p := x / m - y / m;
  }

  lemma CancelWith(a: int, d: int, m: int, u: int, v: int, p: int)
    requires u * a + v * m == 1 && a * d == p * m
    ensures d == (u * p + v * d) * m
  {
    calc {
      d;
      (u * a + v * m) * d;
      u * (a * d) + v * m * d;
      u * (p * m) + v * m * d;
      (u * p + v * d) * m;
    }
  }

  lemma {:induction false} CancelPow(a: nat, j: nat, k: nat, m: nat)
    requires m > 0 && Gcd(a, m) == 1 && Congruent(Pow(a, j), Pow(a, j + k), m)
    ensures Congruent(1, Pow(a, k), m)
    decreases j
  {
    if j > 0 {
      Cancel(a, Pow(a, j - 1), Pow(a, j - 1 + k), m);
      CancelPow(a, j - 1, k, m);
    }
  }

  // ---- Pigeonhole: some positive power no larger than m is 1 ----------------

  function PowMod(a: nat, m: nat, k: nat): nat
    requires m > 0
  {
    Pow(a, k) % m
  }

  lemma {:induction false} BoundedSetIsSmall(s: set<int>, m: nat)
    requires forall r :: r in s ==> 0 <= r < m
    ensures |s| <= m
    decreases m
  {
    if m == 0 {
      assert forall r :: r !in s;
    } else {
      BoundedSetIsSmall(s - {m - 1}, m - 1);
    }
  }

  lemma {:induction false} DistinctCount(s: seq<int>)
    requires forall i, j :: 0 <= i < j < |s| ==> s[i] != s[j]
    ensures |set r | r in s| == |s|
  {
    if s != [] {
      var front, last := s[..|s| - 1], s[|s| - 1];
      DistinctCount(front);
      assert last !in front;
      assert (set r | r in s) == (set r | r in front) + {last};
    }
  }

  lemma Pigeonhole(s: seq<int>, m: nat) returns (i: nat, j: nat)
    requires |s| > m && forall k :: 0 <= k < |s| ==> 0 <= s[k] < m
    ensures i < j < |s| && s[i] == s[j]
  {
    if forall i, j :: 0 <= i < j < |s| ==> s[i] != s[j] {
      DistinctCount(s);
      BoundedSetIsSmall((set r | r in s), m);
      assert false;
    }
    i, j :| 0 <= i < j < |s| && s[i] == s[j];
  }

  /** Among the first m + 1 powers two agree modulo m. */
  lemma Collision(a: nat, m: nat) returns (i: nat, j: nat)
    requires m > 0
    ensures i < j <= m && PowMod(a, m, i) == PowMod(a, m, j)
  {
    i, j := Pigeonhole(seq(m + 1, k requires k >= 0 => PowMod(a, m, k)), m);
  }

  lemma SomePowerIsOne(a: nat, m: nat) returns (k: nat)
    requires m > 1 && Gcd(a, m) == 1
    ensures 1 <= k <= m && Pow(a, k) % m == 1
  {
    var i, j := Collision(a, m);
    k := j - i;
    CancelPow(a, i, k, m);
    ModOfMultiple(0, 1, m);
  }

  // ---- The order loop --------------------------------------------------------

  ghost predicate IsOrder(a: nat, m: nat, order: nat)
    requires m > 0
  {
    && order >= 1
    && PowMod(a, m, order) == 1
    && forall k: nat :: 1 <= k < order ==> PowMod(a, m, k) != 1
  }

  lemma NextPower(a: nat, m: nat, k: nat)
    requires m > 0
    ensures PowMod(a, m, k + 1) == (PowMod(a, m, k) * a) % m
  {
    CongruentReduced(Pow(a, k), m);
    CongruentMul(PowMod(a, m, k), Pow(a, k), a, a, m);
    assert Pow(a, k + 1) == Pow(a, k) * a;
  }

  /** `_multiplicative_order`.  For a unit of a non-trivial modulus the loop returns the least
      order and its `order > m` guard is dead; otherwise it returns 0. */
  method MultiplicativeOrder(a: nat, m: nat) returns (order: nat)
    requires m >= 1
    ensures m > 1 && Gcd(a, m) == 1 ==> IsOrder(a, m, order) && order <= m
    ensures m == 1 || Gcd(a, m) != 1 ==> order == 0
  {
    if Gcd(a, m) != 1 {
      return 0;
    }
    ghost var witness' := 0;
    if m > 1 {
      witness' := SomePowerIsOne(a, m);
    }
    order := 1;
    var val := a % m;
    assert Pow(a, 1) == a;
    while val != 1
      invariant order >= 1
      invariant val == PowMod(a, m, order)
      invariant forall k: nat :: 1 <= k < order ==> PowMod(a, m, k) != 1
      invariant m > 1 ==> order <= witness' <= m && PowMod(a, m, witness') == 1
      decreases m + 1 - order
    {
      NextPower(a, m, order);
      val := (val * a) % m;
      order := order + 1;
      if order > m {
        return 0;
      }
    }
  }

  // ---- The fingerprint --------------------------------------------------------

  /** n is congruent to some power of the generator modulo p. */
  ghost predicate PowerResidue(n: int, p: nat)
    requires p > 0
  {
    exists k: nat :: n % p == PowMod(GENERATOR, p, k)
  }

  ghost predicate Units(primes: seq<nat>) {
    forall i :: 0 <= i < |primes| ==> Unit(primes[i])
  }

  ghost predicate Fingerprint(n: int, primes: seq<nat>)
    requires forall i :: 0 <= i < |primes| ==> primes[i] > 0
  {
    n >= 3 && forall i :: 0 <= i < |primes| ==> PowerResidue(n, primes[i])
  }

  /** Powers repeat with the period of the order. */
  lemma {:induction false} PowPeriodic(a: nat, m: nat, order: nat, k: nat)
    requires m > 0 && order >= 1 && PowMod(a, m, order) == 1
    ensures PowMod(a, m, k) == PowMod(a, m, k % order)
    decreases k
  {
    if k < order {
      ModOfMultiple(0, k, order);
    } else {
      PowPeriodic(a, m, order, k - order);
      PowSum(a, order, k - order);
      CongruentReduced(Pow(a, order), m);
      CongruentMul(Pow(a, order), 1, Pow(a, k - order), Pow(a, k - order), m);
      CongruentIffDivides(k, k - order, order, 1);
    }
  }

  predicate Unit(p: nat) {
    p > 1 && Gcd(GENERATOR, p) == 1
  }

  /** An inverse of the generator shows that a modulus has no factor in common with it. */
  lemma {:induction false} Inverse(p: nat, x: nat)
    requires p > 1 && (GENERATOR * x) % p == 1
    ensures Unit(p)
  {
    var s, t := GcdDivides(GENERATOR, p);
    OnlyOneDividesOne(Gcd(GENERATOR, p), GENERATOR, p, s, t, x, (GENERATOR * x) / p);
  }

  lemma ListedAreUnits()
    ensures forall p :: p in ROCA_PRIMES ==> Unit(p)
  {
    hide Gcd, Unit;
    Inverse(3, 2); Inverse(5, 3); Inverse(7, 5); Inverse(11, 10); Inverse(13, 10); Inverse(17, 9);
    Inverse(19, 16); Inverse(23, 7); Inverse(29, 19); Inverse(31, 21); Inverse(37, 26); Inverse(41, 13);
    Inverse(43, 26); Inverse(47, 5); Inverse(53, 11); Inverse(59, 54); Inverse(61, 8); Inverse(67, 61);
    Inverse(71, 18); Inverse(73, 30); Inverse(79, 67); Inverse(83, 5); Inverse(89, 27); Inverse(97, 36);
    Inverse(101, 42); Inverse(103, 32); Inverse(107, 105); Inverse(109, 74); Inverse(113, 75); Inverse(127, 51);
    Inverse(131, 85); Inverse(137, 43); Inverse(139, 92); Inverse(149, 136); Inverse(151, 101); Inverse(157, 127);
    Inverse(163, 89); Inverse(167, 151);
  }

  ghost predicate Prime(p: nat) {
    p >= 2 && forall d :: 1 < d < p ==> p % d != 0
  }

  /** p is one of the first primes, or none of them divides it. */
  predicate Sieved(p: nat) {
    && p % 2 != 0
    && (p == 3 || p % 3 != 0) && (p == 5 || p % 5 != 0) && (p == 7 || p % 7 != 0) && (p == 11 || p % 11 != 0)
  }

  lemma {:induction false} FactorDivides(p: nat, c: nat, d: nat, f: nat)
    requires c > 0 && d > 0 && p % d == 0 && d == f * c
    ensures p % c == 0
  {
    var q := p / d;
    assert p == q * (f * c) == (q * f) * c;
    ModOfMultiple(q * f, 0, c);
  }

  /** A divisor up to 12 has one of the first primes as a factor. */
  lemma SmallDivisor(p: nat, d: nat)
    requires 13 <= p && 1 < d < 13 && p % d == 0
    ensures !Sieved(p)
  {
    if d % 2 == 0 {
      FactorDivides(p, 2, d, d / 2);
    } else if d == 3 || d == 9 {
      FactorDivides(p, 3, d, d / 3);
    }
  }

  lemma CoDivisor(p: nat, d: nat)
    requires 13 <= p < 169 && 13 <= d < p && p % d == 0
    ensures 1 < p / d < 13 && p % (p / d) == 0
  {
    var e := p / d;
    assert p == e * d == d * e;
    assert e >= 13 ==> e * d >= 13 * d by { if e >= 13 { MulAtLeast(e - 12, d); } }
    assert e > 0;
    ModOfMultiple(d, 0, e);
  }

  lemma SievedIsPrime(p: nat)
    requires 13 <= p < 169 && Sieved(p)
    ensures Prime(p)
  {
    hide Sieved;
    forall d | 1 < d < p ensures p % d != 0 {
      if p % d == 0 {
        if d >= 13 { CoDivisor(p, d); }
        SmallDivisor(p, if d < 13 then d else p / d);
      }
    }
  }

  lemma SievedTo53(p: nat)
    requires 13 <= p <= 53 && Sieved(p)
    ensures p in {13, 17, 19, 23, 29, 31, 37, 41, 43, 47, 53}
  {
  }

  lemma SievedTo89(p: nat)
    requires 53 < p <= 89 && Sieved(p)
    ensures p in {59, 61, 67, 71, 73, 79, 83, 89}
  {
  }

  lemma SievedTo131(p: nat)
    requires 89 < p <= 131 && Sieved(p)
    ensures p in {97, 101, 103, 107, 109, 113, 127, 131}
  {
  }

  lemma SievedTo168(p: nat)
    requires 131 < p <= 168 && Sieved(p)
    ensures p in {137, 139, 149, 151, 157, 163, 167}
  {
  }

  lemma SievedIsListed(p: nat)
    requires 13 <= p < 169 && Sieved(p)
    ensures p in ROCA_PRIMES
  {
    if p <= 53 {
      SievedTo53(p);
    } else if p <= 89 {
      SievedTo89(p);
    } else if p <= 131 {
      SievedTo131(p);
    } else {
      SievedTo168(p);
    }
  }

  lemma ListAgain()
    ensures Sieved(3) && Sieved(5) && Sieved(7) && Sieved(11) && Sieved(13) && Sieved(17) && Sieved(19)
    ensures Sieved(23) && Sieved(29) && Sieved(31) && Sieved(37) && Sieved(41) && Sieved(43) && Sieved(47)
    ensures Sieved(53) && Sieved(59) && Sieved(61) && Sieved(67) && Sieved(71) && Sieved(73) && Sieved(79)
    ensures Sieved(83) && Sieved(89) && Sieved(97) && Sieved(101) && Sieved(103) && Sieved(107) && Sieved(109)
    ensures Sieved(113) && Sieved(127) && Sieved(131) && Sieved(137) && Sieved(139) && Sieved(149) && Sieved(151)
    ensures Sieved(157) && Sieved(163) && Sieved(167)
  {
  }

  lemma ListedAreSieved()
    ensures forall p :: p in ROCA_PRIMES ==> Sieved(p)
  {
    hide Sieved;
    ListAgain();
  }

  lemma ListedRange()
    ensures forall p :: p in ROCA_PRIMES ==> 3 <= p <= 167
  {
  }

  lemma PrimeIsSieved(p: nat)
    requires Prime(p) && p % 2 == 1
    ensures p >= 3 && Sieved(p)
  {
    assert p > 3 ==> p % 3 != 0;
    assert p > 5 ==> p % 5 != 0;
    assert p > 7 ==> p % 7 != 0;
    assert p > 11 ==> p % 11 != 0;
  }

  lemma SmallSieved(p: nat)
    requires 3 <= p < 13 && Sieved(p)
    ensures p in ROCA_PRIMES && Prime(p)
  {
    SievedTo11(p);
    FirstPrimes();
  }

  lemma SievedTo11(p: nat)
    requires 3 <= p < 13 && Sieved(p)
    ensures p == 3 || p == 5 || p == 7 || p == 11
  {
  }

  lemma FirstPrimes()
    ensures Prime(3) && Prime(5) && Prime(7) && Prime(11)
  {
  }

  /** The listed numbers are the odd primes up to 167. */
  lemma ListedIffPrime(p: nat)
    ensures p in ROCA_PRIMES <==> p <= 167 && p % 2 == 1 && Prime(p)
  {
    hide Prime, Sieved;
    ListedAreSieved();
    ListedRange();
    if p in ROCA_PRIMES {
      OddWhenSieved(p);
      if p < 13 { SmallSieved(p); } else { SievedIsPrime(p); }
    }
    if p <= 167 && p % 2 == 1 && Prime(p) {
      PrimeIsSieved(p);
      if p < 13 { SmallSieved(p); } else { SievedIsListed(p); }
    }
  }

  lemma OddWhenSieved(p: nat)
    requires Sieved(p)
    ensures p % 2 == 1
  {
  }

  method ResiduesOfPowers(prime: nat, order: nat) returns (powers: set<int>)
    requires prime > 1 && IsOrder(GENERATOR, prime, order)
    ensures forall n: nat :: n % prime in powers <==> PowerResidue(n, prime)
  {
    powers := {};
    var val := 1;
    ModOfMultiple(0, 1, prime);
    for k := 0 to order
      invariant val == PowMod(GENERATOR, prime, k)
      invariant forall j: nat :: j < k ==> PowMod(GENERATOR, prime, j) in powers
      invariant forall r :: r in powers ==> exists j: nat :: r == PowMod(GENERATOR, prime, j)
    {
      powers := powers + {val};
      NextPower(GENERATOR, prime, k);
      val := (val * GENERATOR) % prime;
    }
    forall n: nat | PowerResidue(n, prime)
      ensures n % prime in powers
    {
      var k: nat :| n % prime == PowMod(GENERATOR, prime, k);
      PowPeriodic(GENERATOR, prime, order, k);
    }
  }

  /** `is_roca_vulnerable`: the finite residue-set test decides the fingerprint exactly. */
  method TestFingerprint(modulus: int, primes: seq<nat>) returns (vulnerable: bool)
    requires Units(primes)
    ensures vulnerable <==> Fingerprint(modulus, primes)
  {
    if modulus < 3 {
      return false;
    }
    for i := 0 to |primes|
      invariant forall j :: 0 <= j < i ==> PowerResidue(modulus, primes[j])
    {
      var order := MultiplicativeOrder(GENERATOR, primes[i]);
      if order == 0 {
        continue;
      }
      var residue := modulus % primes[i];
      var powers := ResiduesOfPowers(primes[i], order);
      if residue !in powers {
        return false;
      }
    }
    return true;
  }

  method IsRocaVulnerable(modulus: int) returns (vulnerable: bool)
    ensures Units(ROCA_PRIMES)
    ensures vulnerable <==> Fingerprint(modulus, ROCA_PRIMES)
  {
    ListedAreUnits();
    vulnerable := TestFingerprint(modulus, ROCA_PRIMES);
  }

  lemma ResidueIff(n: int, p: nat)
    requires p > 0
    ensures PowerResidue(n, p) <==> exists k: nat :: n % p == Pow(65537, k) % p
  {
    hide Pow;
    if PowerResidue(n, p) {
      var k: nat :| n % p == PowMod(GENERATOR, p, k);
      assert n % p == Pow(65537, k) % p;
    }
    if k: nat :| n % p == Pow(65537, k) % p {
      assert n % p == PowMod(GENERATOR, p, k);
    }
  }

  ghost predicate PowerModuloOddPrimes(n: int) {
    forall p: nat :: p <= 167 && p % 2 == 1 && Prime(p) ==> exists k: nat :: n % p == Pow(65537, k) % p
  }

  lemma FingerprintOfMembers(n: int, primes: seq<nat>)
    requires forall i :: 0 <= i < |primes| ==> primes[i] > 0
    ensures Fingerprint(n, primes) <==> n >= 3 && forall p :: p in primes ==> PowerResidue(n, p)
  {
    hide PowerResidue;
    assert forall i :: 0 <= i < |primes| ==> primes[i] in primes;
  }

  /** What the verdict says: modulo every odd prime up to 167 the modulus is a power of 65537. */
  lemma FingerprintIff(n: int)
    requires Units(ROCA_PRIMES)
    ensures Fingerprint(n, ROCA_PRIMES) <==> n >= 3 && PowerModuloOddPrimes(n)
  {
    hide Pow, Prime, PowerResidue, Fingerprint, ROCA_PRIMES;
    FingerprintOfMembers(n, ROCA_PRIMES);
    forall p: nat ensures p in ROCA_PRIMES <==> p <= 167 && p % 2 == 1 && Prime(p) { ListedIffPrime(p); }
    forall p: nat | p > 0 ensures PowerResidue(n, p) <==> exists k: nat :: n % p == Pow(65537, k) % p {
      ResidueIff(n, p);
    }
  }

  /** A modulus whose two factors have the Infineon form, for any common multiple of the listed
      primes, carries the fingerprint: the test never misses one. */
  lemma RocaFormIsFlagged(big: nat, k: nat, a: nat, l: nat, b: nat, primes: seq<nat>)
    requires big > 0
    requires forall i :: 0 <= i < |primes| ==> primes[i] > 0 && big % primes[i] == 0
    requires (k * big + PowMod(GENERATOR, big, a)) * (l * big + PowMod(GENERATOR, big, b)) >= 3
    ensures Fingerprint((k * big + PowMod(GENERATOR, big, a)) * (l * big + PowMod(GENERATOR, big, b)), primes)
  {
    var x, y := k * big + PowMod(GENERATOR, big, a), l * big + PowMod(GENERATOR, big, b);
    forall i | 0 <= i < |primes|
      ensures PowerResidue(x * y, primes[i])
    {
      ProductResidue(big, primes[i], k, a, l, b);
    }
  }

  lemma ProductResidue(big: nat, p: nat, k: nat, a: nat, l: nat, b: nat)
    requires p > 0 && big > 0 && big % p == 0
    ensures PowerResidue((k * big + PowMod(GENERATOR, big, a)) * (l * big + PowMod(GENERATOR, big, b)), p)
  {
    hide Pow, PowerResidue, Congruent;
    FactorResidue(big, p, k, Pow(GENERATOR, a));
    FactorResidue(big, p, l, Pow(GENERATOR, b));
    ProductOfPowers(k * big + PowMod(GENERATOR, big, a), l * big + PowMod(GENERATOR, big, b), p, a, b);
  }

  lemma ProductOfPowers(x: nat, y: nat, p: nat, a: nat, b: nat)
    requires p > 0 && Congruent(x, Pow(GENERATOR, a), p) && Congruent(y, Pow(GENERATOR, b), p)
    ensures PowerResidue(x * y, p)
  {
    CongruentMul(x, Pow(GENERATOR, a), y, Pow(GENERATOR, b), p);
    PowSum(GENERATOR, a, b);
    assert (x * y) % p == PowMod(GENERATOR, p, a + b);
  }

  lemma FactorResidue(big: nat, p: nat, k: nat, g: nat)
    requires p > 0 && big > 0 && big % p == 0
    ensures Congruent(k * big + g % big, g, p)
  {
    var q, d := big / p, g / big;
    FactorDifference(big, p, k, g, q, d);
    CongruentIffDivides(k * big + g % big, g, p, (k - d) * q);
  }

  lemma FactorDifference(big: int, p: int, k: int, g: int, q: int, d: int)
    requires big > 0 && big == q * p && g == d * big + g % big
    ensures k * big + g % big - g == ((k - d) * q) * p
  {
    assert (k - d) * (q * p) == ((k - d) * q) * p;
  }
}
