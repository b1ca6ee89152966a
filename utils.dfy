/**
 * Hashing and prime helpers of the compiler (compiler/src/utils.rs):
 * the polynomial string hash used by the symbol tables, the trial-division
 * primality test and the search for the next prime used when a table grows.
 */
module Utils {

  /** 2^64: the modulus of Rust's wrapping `u64` arithmetic. */
  const U64_MODULUS: int := 0x1_0000_0000_0000_0000

  /** Rust's `u64`. */
  newtype u64 = x: int | 0 <= x < 0x1_0000_0000_0000_0000

  // ---------------------------------------------------------------------------
  // hash_str
  // ---------------------------------------------------------------------------

  /**
   * `hash_str`: a left fold over the Unicode scalar values of `s`, starting at 7
   * and computing `hash * 31 + c` with wrap-around at 2^64 after each step.
   */
  function HashStr(s: string): u64
    decreases |s|
  {
    if s == [] then 7
    else ((HashStr(s[..|s| - 1]) as int * 31 + s[|s| - 1] as int) % U64_MODULUS) as u64
  }

  function Pow(b: int, e: nat): int
  {
    if e == 0 then 1 else b * Pow(b, e - 1)
  }

  /** The weighted sum `s[0]*31^(n-1) + ... + s[n-1]*31^0` without any wrap-around. */
  function CodeSum(s: string): int
  {
    if s == [] then 0 else s[0] as int * Pow(31, |s| - 1) + CodeSum(s[1..])
  }

  /**
   * Reference definition of the hash: the exact polynomial `7*31^n + sum c_i*31^(n-1-i)`,
   * reduced once modulo 2^64 at the end.
   */
  function HashPolynomial(s: string): int
  {
    (7 * Pow(31, |s|) + CodeSum(s)) % U64_MODULUS
  }

  lemma {:induction false} CodeSumAppend(s: string, c: char)
    ensures CodeSum(s + [c]) == CodeSum(s) * 31 + c as int
  {
    if s == [] {
      assert [c][1..] == [];
    } else {
      calc {
        CodeSum(s + [c]);
        { assert (s + [c])[1..] == s[1..] + [c]; }
        s[0] as int * Pow(31, |s|) + CodeSum(s[1..] + [c]);
        { CodeSumAppend(s[1..], c); }
        s[0] as int * Pow(31, |s|) + CodeSum(s[1..]) * 31 + c as int;
        { assert Pow(31, |s|) == 31 * Pow(31, |s| - 1); }
        (s[0] as int * Pow(31, |s| - 1) + CodeSum(s[1..])) * 31 + c as int;
      }
    }
  }

  lemma ModMulAdd(a: int, k: int, c: int, m: int)
    requires m > 0
    ensures ((a % m) * k + c) % m == (a * k + c) % m
  {
    DivMod(a, m);
    var q, r := a / m, a % m;
    var x := r * k + c;
    DivMod(x, m);
    assert a * k + c == m * (q * k + x / m) + x % m;
    DivUnique(a * k + c, m, q * k + x / m, x % m);
  }

  /** The wrapping fold computes the exact polynomial hash reduced modulo 2^64. */
  lemma {:induction false} HashStrIsPolynomial(s: string)
    ensures HashStr(s) as int == HashPolynomial(s)
    decreases |s|
  {
    if s == [] {
    } else {
      var t, c := s[..|s| - 1], s[|s| - 1];
      assert s == t + [c];
      HashStrIsPolynomial(t);
      CodeSumAppend(t, c);
      var p := 7 * Pow(31, |t|) + CodeSum(t);
      assert 7 * Pow(31, |s|) + CodeSum(s) == p * 31 + c as int;
      ModMulAdd(p, 31, c as int, U64_MODULUS);
    }
  }

  // ---------------------------------------------------------------------------
  // is_prime and next_prime
  // ---------------------------------------------------------------------------

  predicate Divides(d: int, n: int)
    requires d > 0
  {
    n % d == 0
  }

  lemma DivMod(n: int, d: int)
    requires d > 0
    ensures n == d * (n / d) + n % d && 0 <= n % d < d
  {
  }

  lemma MulAtLeast(a: int, b: int)
    requires a > 0 && b >= 1
    ensures a * b >= a
  {
  }

  lemma MulMonotonic(a: int, b: int, c: int, e: int)
    requires a >= c >= 0 && b >= e >= 0
    ensures a * b >= c * e
  {
    assert a * b - c * e == (a - c) * b + c * (b - e);
  }

  /** Quotient and remainder are unique. */
  lemma DivUnique(n: int, d: int, q: int, r: int)
    requires d > 0 && 0 <= r < d && n == d * q + r
    ensures n % d == r && n / d == q
  {
    DivMod(n, d);
    assert d * (q - n / d) == n % d - r;
    if q - n / d >= 1 {
      MulAtLeast(d, q - n / d);
    } else if q - n / d <= -1 {
      MulAtLeast(d, n / d - q);
    }
  }

  lemma DividesElim(d: int, n: int)
    requires d > 0 && Divides(d, n)
    ensures n == d * (n / d)
  {
    DivMod(n, d);
  }

  lemma DividesIntro(d: int, n: int, k: int)
    requires d > 0 && n == d * k
    ensures Divides(d, n)
  {
    DivUnique(n, d, k, 0);
  }

  /** Mathematical primality. */
  ghost predicate Prime(n: int)
  {
    n >= 2 && forall d :: 2 <= d < n ==> !Divides(d, n)
  }

  /** `p` is the least prime that is at least `n`. */
  ghost predicate IsLeastPrimeFrom(n: int, p: int)
  {
    Prime(p) && n <= p && forall q :: n <= q < p ==> !Prime(q)
  }

  lemma OddHasNoEvenDivisor(n: int, d: int)
    requires n % 2 == 1 && d > 0 && d % 2 == 0
    ensures !Divides(d, n)
  {
    if Divides(d, n) {
      DividesElim(d, n);
      var k := n / d;
      DivMod(d, 2);
      var h := d / 2;
      assert n == 2 * (h * k);
      DivUnique(n, 2, h * k, 0);
    }
  }

  /** Trial division up to the square root suffices. */
  lemma NoSmallDivisorMeansPrime(n: int, i: int)
    requires n >= 2 && i >= 2 && i * i > n
    requires forall d :: 2 <= d < i ==> !Divides(d, n)
    ensures Prime(n)
  {
    forall d | 2 <= d < n
      ensures !Divides(d, n)
    {
      if d >= i && Divides(d, n) {
        DividesElim(d, n);
        var e := n / d;
        if e >= i {
          MulMonotonic(d, e, i, i);
        } else if e >= 2 {
          DividesIntro(e, n, d);
        }
      }
    }
  }

  /**
   * `is_prime`: false below 2, true for 2 and 3, false for other even numbers, and for
   * odd numbers trial division by 3, 5, 7, ... while the divisor's square is at most `n`.
   */
  method IsPrime(n: nat) returns (r: bool)
    ensures r == Prime(n)
  {
    if n <= 1 {
      return false;
    } else if n <= 3 {
      return true;
    } else if n % 2 == 0 {
      assert Divides(2, n);
      return false;
    } else {
      var i := 3;
      while i * i <= n
        invariant 3 <= i && i % 2 == 1
        invariant forall d :: 2 <= d < i ==> !Divides(d, n)
      {
        if n % i == 0 {
          assert i < n by {
            MulMonotonic(i, i, i, 3);
          }
          assert Divides(i, n);
          return false;
        }
        OddHasNoEvenDivisor(n, i + 1);
        i := i + 2;
      }
      NoSmallDivisorMeansPrime(n, i);
      return true;
    }
  }

  function Fact(n: nat): nat
  {
    if n == 0 then 1 else n * Fact(n - 1)
  }

  lemma {:induction false} FactPositive(n: nat)
    ensures Fact(n) >= 1
  {
    if n > 0 {
      FactPositive(n - 1);
    }
  }

  lemma {:induction false} FactDivisible(n: nat, k: int)
    requires 1 <= k <= n
    ensures Divides(k, Fact(n))
  {
    if k == n {
      DividesIntro(k, Fact(n), Fact(n - 1));
    } else {
      FactDivisible(n - 1, k);
      DividesElim(k, Fact(n - 1));
      var q := Fact(n - 1) / k;
      assert Fact(n) == k * (n * q);
      DividesIntro(k, Fact(n), n * q);
    }
  }

  lemma DividesTransitive(a: int, b: int, c: int)
    requires a > 0 && b > 0 && Divides(a, b) && Divides(b, c)
    ensures Divides(a, c)
  {
    DividesElim(a, b);
    DividesElim(b, c);
    var x, y := b / a, c / b;
    assert c == a * (x * y);
    DividesIntro(a, c, x * y);
  }

  lemma {:induction false} PrimeDivisor(m: int) returns (p: int)
    requires m >= 2
    ensures Prime(p) && Divides(p, m)
    decreases m
  {
    if Prime(m) {
      p := m;
    } else {
      var d :| 2 <= d < m && Divides(d, m);
      p := PrimeDivisor(d);
      DividesTransitive(p, d, m);
    }
  }

  lemma NoDivisorOfConsecutive(p: int, a: int)
    requires p >= 2 && Divides(p, a)
    ensures !Divides(p, a + 1)
  {
    DividesElim(p, a);
    if Divides(p, a + 1) {
      DividesElim(p, a + 1);
      var q, q' := a / p, (a + 1) / p;
      assert p * (q' - q) == 1;
      if q' - q >= 1 {
        MulAtLeast(p, q' - q);
      } else {
        MulMonotonic(p, q - q', 0, 0);
      }
    }
  }

  /** Euclid: there is a prime at least `n`, so the search of `next_prime` terminates. */
  lemma PrimeAtLeast(n: nat) returns (p: int)
    ensures Prime(p) && p >= n
  {
    FactPositive(n);
    p := PrimeDivisor(Fact(n) + 1);
    if p <= n {
      FactDivisible(n, p);
      NoDivisorOfConsecutive(p, Fact(n));
    }
  }

  /** `next_prime`: scans `n, n+1, ...` and returns the first value `is_prime` accepts. */
  method NextPrime(n: nat) returns (p: nat)
    ensures IsLeastPrimeFrom(n, p)
  {
    ghost var bound := PrimeAtLeast(n);
    var i := n;
    while true
      invariant n <= i <= bound
      invariant forall q :: n <= q < i ==> !Prime(q)
      decreases bound - i
    {
      var isPrime := IsPrime(i);
      if isPrime {
        return i;
      }
      i := i + 1;
    }
  }

  /** The values the unit tests of `is_prime` and `next_prime` check. */
  lemma PrimeExamples()
    ensures Prime(2) && Prime(5) && Prime(7)
    ensures !Prime(0) && !Prime(1) && !Prime(4)
    ensures IsLeastPrimeFrom(2, 2) && IsLeastPrimeFrom(4, 5) && IsLeastPrimeFrom(5, 5)
  {
    assert Divides(2, 4);
    assert forall d :: 2 <= d < 5 ==> !Divides(d, 5);
    assert forall d :: 2 <= d < 7 ==> !Divides(d, 7);
  }

  /** A sequence without repetitions has as many distinct elements as entries. */
  lemma {:induction false} DistinctCard(s: seq<string>)
    requires forall i, j :: 0 <= i < j < |s| ==> s[i] != s[j]
    ensures |set x | x in s| == |s|
  {
    if s != [] {
      var t := s[..|s| - 1];
      DistinctCard(t);
      assert (set x | x in s) == (set x | x in t) + {s[|s| - 1]};
    }
  }
}
