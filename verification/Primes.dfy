/** Counting primes with several processes: each scans its share of the odd numbers by
    trial division, and the first process adds up the counts and takes the largest
    result. */
module Primes {

  ghost predicate Divides(d: nat, n: nat)
    requires d > 0
  {
    n % d == 0
  }

  ghost predicate IsPrime(n: nat) {
    n >= 2 && forall d :: 2 <= d < n ==> !Divides(d, n)
  }

  // ----- trial division -----

  /** A number that is not prime has a divisor up to its square root. */
  lemma SmallDivisor(n: nat) returns (d: nat)
    requires n >= 2 && !IsPrime(n)
    ensures 2 <= d < n && d * d <= n && Divides(d, n)
  {
    d :| 2 <= d < n && Divides(d, n);
    var e := n / d;
    assert n == d * e;
    if d * d > n {
      Cofactor(n, d, e);
      d := e;
    }
  }

  lemma Cofactor(n: nat, d: nat, e: nat)
    requires 2 <= d < n && n == d * e && d * d > n
    ensures 2 <= e < n && e * e <= n && Divides(e, n)
  {
    if e >= d {
      Grows(d, e, d);
    }
    if e <= 1 {
      Grows(e, 1, d);
    }
    Grows(e, d, e);
    Exact(d, e);
  }

  lemma {:induction false} Grows(a: nat, b: nat, k: nat)
    requires a <= b
    ensures a * k <= b * k
  {
    if k > 0 {
      Grows(a, b, k - 1);
      assert a * k == a * (k - 1) + a && b * k == b * (k - 1) + b;
    }
  }

  lemma Exact(d: nat, e: nat)
    requires e > 0
    ensures d * e % e == 0
  {
    var n := d * e;
    var k, r := n / e, n % e;
    assert n == k * e + r;
    Difference(d, k, e, r);
  }

  lemma Difference(d: int, k: int, e: nat, r: nat)
    requires e > 0 && d * e == k * e + r && r < e
    ensures r == 0
  {
    var g := d - k;
    assert g * e == r;
  }

  /** An even divisor makes the number even. */
  lemma EvenDivisor(n: nat, d: nat)
    requires d > 0 && d % 2 == 0 && Divides(d, n)
    ensures n % 2 == 0
  {
    var q, h := n / d, d / 2;
    assert n == d * q && d == 2 * h;
    assert n == 2 * (h * q);
  }

  /** Trial division by odd numbers; numbers up to ten are turned away, as the caller
      accounts for them separately. */
  method TrialDivision(n: nat) returns (prime: bool)
    ensures n <= 10 ==> !prime
    ensures n > 10 && n % 2 == 1 ==> (prime <==> IsPrime(n))
  {
    if n <= 10 {
      return false;
    }
    var i := 3;
    while i * i <= n
      invariant 3 <= i && i % 2 == 1 && NoneBelow(n, i)
      decreases n - i
    {
      Grows(3, i, i);
      if n % i == 0 {
        assert Divides(i, n);
        return false;
      }
      OneMore(n, i);
      i := i + 2;
    }
    prime := true;
    Survives(n, i);
  }

  /** No odd number below `i` divides `n`. */
  ghost predicate NoneBelow(n: nat, i: nat) {
    forall d: nat :: 3 <= d < i && d % 2 == 1 ==> !Divides(d, n)
  }

  lemma OneMore(n: nat, i: nat)
    requires i >= 3 && i % 2 == 1 && NoneBelow(n, i) && n % i != 0
    ensures NoneBelow(n, i + 2)
  {
    forall d: nat | 3 <= d < i + 2 && d % 2 == 1 ensures !Divides(d, n) {
      assert d < i || d == i;
    }
  }

  lemma Survives(n: nat, i: nat)
    requires n > 10 && i * i > n && NoneBelow(n, i)
    ensures n % 2 == 1 ==> IsPrime(n)
  {
    if n % 2 == 1 && !IsPrime(n) {
      var d := SmallDivisor(n);
      if d % 2 == 0 {
        EvenDivisor(n, d);
      }
      NotBeyond(d, i, n);
    }
  }

  lemma NotBeyond(d: nat, i: nat, n: nat)
    requires d * d <= n < i * i
    ensures d < i
  {
    if d >= i {
      Grows(i, d, i);
      Grows(i, d, d);
    }
  }

  // ----- the shares -----

  ghost function One(b: bool): nat {
    if b then 1 else 0
  }

  /** The `j`-th odd number from 11 on is a prime within the limit. */
  ghost predicate Hit(limit: nat, j: nat) {
    11 + 2 * j <= limit && IsPrime(11 + 2 * j)
  }

  /** The primes among the first `k` odd numbers that a process has to scan. */
  ghost function Share(limit: nat, size: nat, rank: nat, k: nat): nat
    requires size > 0
  {
    if k == 0 then 0 else Share(limit, size, rank, k - 1) + One((k - 1) % size == rank && Hit(limit, k - 1))
  }

  /** The largest of them, or 11 if there is none. */
  ghost function Best(limit: nat, size: nat, rank: nat, k: nat): nat
    requires size > 0
  {
    if k == 0 then 11
    else if (k - 1) % size == rank && Hit(limit, k - 1) then 11 + 2 * (k - 1)
    else Best(limit, size, rank, k - 1)
  }

  ghost predicate Mine(k: nat, size: nat, rank: nat)
    requires size > 0
  {
    k % size == rank
  }

  /** Between one number of a process and its next there is none of its own. */
  lemma {:induction false} Skip(limit: nat, size: nat, rank: nat, k: nat, j: nat)
    requires size > 0 && k % size == rank && 1 <= j <= size
    ensures Share(limit, size, rank, k + j) == Share(limit, size, rank, k) + One(Hit(limit, k))
    ensures Best(limit, size, rank, k + j) == if Hit(limit, k) then 11 + 2 * k else Best(limit, size, rank, k)
  {
    hide Hit;
    if j > 1 {
      Skip(limit, size, rank, k, j - 1);
      OtherRank(k, j - 1, size);
    }
  }

  lemma OtherRank(k: nat, j: nat, size: nat)
    requires 0 < j < size
    ensures (k + j) % size != k % size
  {
    var q, r := k / size, k % size;
    assert k + j == size * q + (r + j);
    if r + j < size {
      Remainder(size, q, r + j);
    } else {
      assert k + j == size * (q + 1) + (r + j - size);
      Remainder(size, q + 1, r + j - size);
    }
  }

  lemma Remainder(size: nat, q: nat, r: nat)
    requires r < size
    ensures (size * q + r) % size == r
  {
    var n := size * q + r;
    var k, t := n / size, n % size;
    assert n == size * k + t;
    Same(q - k, size, r, t);
  }

  lemma Same(g: int, size: nat, r: nat, t: nat)
    requires r < size && t < size && size * g == t - r
    ensures r == t
  {
    if g >= 1 {
      Grows(1, g, size);
    } else if g <= -1 {
      Grows(1, -g, size);
    }
  }

  /** Beyond the limit nothing is added. */
  lemma {:induction false} Beyond(limit: nat, size: nat, rank: nat, k: nat, j: nat)
    requires size > 0 && 11 + 2 * k > limit && k <= j
    ensures Share(limit, size, rank, j) == Share(limit, size, rank, k) &&
            Best(limit, size, rank, j) == Best(limit, size, rank, k)
  {
    if k < j {
      Beyond(limit, size, rank, k, j - 1);
    }
  }

  /** One process scans every `size`-th odd number. */
  method Scan(limit: nat, size: nat, rank: nat) returns (pc: nat, result: nat)
    requires rank < size
    ensures pc == Share(limit, size, rank, limit) && result == Best(limit, size, rank, limit)
  {
    hide IsPrime, Mine, Share, Best;
    pc, result := 0, 11;
    ghost var k := rank;
    var n := 11 + rank * 2;
    Before(limit, size, rank, rank);
    while n <= limit
      invariant n == 11 + 2 * k && Mine(k, size, rank)
      invariant pc == Share(limit, size, rank, k) && result == Best(limit, size, rank, k)
      decreases limit - n
    {
      var prime := TrialDivision(n);
      Passed(limit, size, rank, k);
      if prime {
        pc := pc + 1;
        result := n;
      }
      n := n + 2 * size;
      k := k + size;
    }
    if k <= limit {
      Beyond(limit, size, rank, k, limit);
    } else {
      Beyond(limit, size, rank, limit, k);
    }
  }

  lemma Passed(limit: nat, size: nat, rank: nat, k: nat)
    requires size > 0 && Mine(k, size, rank)
    ensures Mine(k + size, size, rank)
    ensures Share(limit, size, rank, k + size) == Share(limit, size, rank, k) + One(Hit(limit, k))
    ensures Best(limit, size, rank, k + size) == if Hit(limit, k) then 11 + 2 * k else Best(limit, size, rank, k)
  {
    hide Hit, Share, Best;
    Skip(limit, size, rank, k, size);
    var q, r := k / size, k % size;
    assert k + size == size * (q + 1) + r;
    Remainder(size, q + 1, r);
  }

  /** Before its first number a process has nothing to count. */
  lemma {:induction false} Before(limit: nat, size: nat, rank: nat, k: nat)
    requires k <= rank < size
    ensures Share(limit, size, rank, k) == 0 && Best(limit, size, rank, k) == 11 && Mine(k, size, k)
  {
    Remainder(size, 0, k);
    if k > 0 {
      Before(limit, size, rank, k - 1);
    }
  }

  // ----- all shares together -----

  ghost function Shares(limit: nat, size: nat, ranks: nat, k: nat): nat
    requires size > 0
  {
    if ranks == 0 then 0 else Shares(limit, size, ranks - 1, k) + Share(limit, size, ranks - 1, k)
  }

  ghost function Hits(limit: nat, k: nat): nat {
    if k == 0 then 0 else Hits(limit, k - 1) + One(Hit(limit, k - 1))
  }

  lemma {:induction false} SharesStep(limit: nat, size: nat, ranks: nat, k: nat)
    requires size > 0
    ensures Shares(limit, size, ranks, k + 1) == Shares(limit, size, ranks, k) + One(k % size < ranks && Hit(limit, k))
  {
    hide Hit;
    if ranks > 0 {
      SharesStep(limit, size, ranks - 1, k);
    }
  }

  lemma {:induction false} SharesNone(limit: nat, size: nat, ranks: nat)
    requires size > 0
    ensures Shares(limit, size, ranks, 0) == 0
  {
    if ranks > 0 {
      SharesNone(limit, size, ranks - 1);
    }
  }

  /** Every number is some process's, and only one's. */
  lemma {:induction false} SharesAreAll(limit: nat, size: nat, k: nat)
    requires size > 0
    ensures Shares(limit, size, size, k) == Hits(limit, k)
  {
    if k == 0 {
      SharesNone(limit, size, size);
    } else {
      SharesAreAll(limit, size, k - 1);
      SharesStep(limit, size, size, k - 1);
    }
  }

  // ----- the primes up to the limit -----

  ghost function PrimesUpTo(n: nat): nat {
    if n == 0 then 0 else PrimesUpTo(n - 1) + One(IsPrime(n))
  }

  lemma TinyPrimes()
    ensures PrimesUpTo(5) == 3
  {
    assert !IsPrime(0) && !IsPrime(1) && IsPrime(2) && IsPrime(3) && IsPrime(5);
    assert Divides(2, 4);
    assert PrimesUpTo(0) == 0 && PrimesUpTo(1) == 0 && PrimesUpTo(2) == 1 && PrimesUpTo(3) == 2;
  }

  lemma SmallPrimes()
    ensures PrimesUpTo(6) == 3 && PrimesUpTo(7) == PrimesUpTo(8) == PrimesUpTo(9) == PrimesUpTo(10) == 4
  {
    TinyPrimes();
    assert IsPrime(7);
    assert Divides(2, 6) && Divides(2, 8) && Divides(3, 9) && Divides(2, 10);
  }

  /** Up to 10 + 2k there are the four small primes and those among the first k odd
      numbers from 11 on. */
  lemma {:induction false} OddPrimes(limit: nat, k: nat)
    requires 9 + 2 * k <= limit
    ensures PrimesUpTo(10 + 2 * k) == 4 + Hits(limit, k)
  {
    if k == 0 {
      SmallPrimes();
    } else {
      OddPrimes(limit, k - 1);
      assert Divides(2, 10 + 2 * k);
      hide IsPrime;
      assert PrimesUpTo(9 + 2 * k) == PrimesUpTo(8 + 2 * k) + One(IsPrime(9 + 2 * k));
    }
  }

  lemma {:induction false} HitsBeyond(limit: nat, k: nat, j: nat)
    requires 11 + 2 * k > limit && k <= j
    ensures Hits(limit, j) == Hits(limit, k)
  {
    if k < j {
      HitsBeyond(limit, k, j - 1);
    }
  }

  /** All hits together, with the four small primes, are the primes up to the limit. */
  lemma AllPrimes(limit: nat)
    requires limit >= 10
    ensures PrimesUpTo(limit) == 4 + Hits(limit, limit)
  {
    var k := (limit - 9) / 2;
    OddPrimes(limit, k);
    HitsBeyond(limit, k, limit);
    if limit % 2 == 1 {
      assert Divides(2, limit + 1);
      assert limit + 1 == 10 + 2 * k;
    }
  }

  lemma {:induction false} Monotone(m: nat, n: nat)
    requires m <= n
    ensures PrimesUpTo(m) <= PrimesUpTo(n)
  {
    hide IsPrime;
    if m < n {
      Monotone(m, n - 1);
    }
  }

  lemma {:induction false} NoHits(limit: nat, k: nat)
    requires limit < 11
    ensures Hits(limit, k) == 0
  {
    if k > 0 {
      NoHits(limit, k - 1);
    }
  }

  /** The count is right exactly from the limit 7 on. */
  lemma CountIsRight(limit: nat)
    ensures 4 + Hits(limit, limit) == PrimesUpTo(limit) <==> limit >= 7
  {
    hide IsPrime, Hits, PrimesUpTo;
    SmallPrimes();
    if limit >= 10 {
      AllPrimes(limit);
    } else {
      NoHits(limit, limit);
      if limit < 7 {
        Monotone(limit, 6);
      }
    }
  }

  // ----- the largest -----

  ghost predicate IsLargest(p: nat, limit: nat) {
    IsPrime(p) && p <= limit && forall q: nat :: IsPrime(q) && q <= limit ==> q <= p
  }

  lemma {:induction false} BestIsPrime(limit: nat, size: nat, rank: nat, k: nat)
    requires size > 0 && limit >= 11
    ensures IsPrime(Best(limit, size, rank, k)) && 11 <= Best(limit, size, rank, k) <= limit
  {
    if k == 0 {
      Eleven();
    } else {
      BestIsPrime(limit, size, rank, k - 1);
    }
  }

  lemma Eleven()
    ensures IsPrime(11)
  {
  }

  lemma {:induction false} BestIsLargest(limit: nat, size: nat, rank: nat, k: nat, j: nat)
    requires size > 0 && j < k && j % size == rank && Hit(limit, j)
    ensures 11 + 2 * j <= Best(limit, size, rank, k)
  {
    hide Hit;
    if j < k - 1 {
      BestIsLargest(limit, size, rank, k - 1, j);
      BestGrows(limit, size, rank, k - 1);
    }
  }

  lemma {:induction false} BestGrows(limit: nat, size: nat, rank: nat, k: nat)
    requires size > 0
    ensures Best(limit, size, rank, k) <= Best(limit, size, rank, k + 1) && Best(limit, size, rank, k) <= 11 + 2 * k
  {
    hide Hit;
    if k > 0 {
      BestGrows(limit, size, rank, k - 1);
    }
  }

  lemma BestOfNone(limit: nat, size: nat, rank: nat)
    requires size > 0 && limit < 11
    ensures Best(limit, size, rank, limit) == 11
  {
    Beyond(limit, size, rank, 0, limit);
  }

  /** `top` is at least what each of the first `ranks` processes has found, and is what one
      of them has found. */
  ghost predicate IsTop(limit: nat, size: nat, ranks: nat, top: nat)
    requires size > 0
  {
    && (forall r: nat :: r < ranks ==> Best(limit, size, r, limit) <= top)
    && (exists r: nat :: r < ranks && Best(limit, size, r, limit) == top)
  }

  lemma {:induction false} TopIsLargest(limit: nat, size: nat, top: nat)
    requires size > 0 && IsTop(limit, size, size, top)
    ensures limit >= 11 ==> IsLargest(top, limit)
    ensures limit < 11 ==> top == 11
  {
    hide IsPrime, Best;
    var r: nat :| r < size && Best(limit, size, r, limit) == top;
    if limit < 11 {
      BestOfNone(limit, size, r);
    } else {
      BestIsPrime(limit, size, r, limit);
      forall q: nat | IsPrime(q) && q <= limit ensures q <= top {
        if q > 11 {
          OddPrime(q);
          var j := (q - 11) / 2;
          BestIsLargest(limit, size, j % size, limit, j);
        }
      }
    }
  }

  lemma OddPrime(q: nat)
    requires IsPrime(q) && q > 2
    ensures q % 2 == 1
  {
    assert !Divides(2, q);
  }

  /** Scan with `size` processes and gather the results.  The count is the number of primes
      up to the limit exactly if the limit is at least 7, and the result is the largest
      prime up to the limit if it is at least 11; below it is 11 all the same. */
  method CountPrimes(limit: nat, size: nat) returns (finalPc: nat, finalResult: nat)
    requires size > 0
    ensures finalPc == PrimesUpTo(limit) <==> limit >= 7
    ensures limit >= 11 ==> IsLargest(finalResult, limit)
    ensures limit < 11 ==> finalPc == 4 && finalResult == 11
  {
    hide Best, Share, Hits, PrimesUpTo;
    var pc, result := Scan(limit, size, 0);
    finalPc := pc + 4;
    finalResult := result;
    var i := 1;
    while i < size
      invariant 1 <= i <= size && finalPc == 4 + Shares(limit, size, i, limit) && IsTop(limit, size, i, finalResult)
    {
      pc, result := Scan(limit, size, i);
      finalPc := finalPc + pc;
      ghost var was := finalResult;
      if result > finalResult {
        finalResult := result;
      }
      TopStep(limit, size, i, was, finalResult);
      i := i + 1;
    }
    SharesAreAll(limit, size, limit);
    CountIsRight(limit);
    if limit < 11 {
      NoHits(limit, limit);
    }
    TopIsLargest(limit, size, finalResult);
  }

  lemma {:induction false} TopStep(limit: nat, size: nat, i: nat, was: nat, top: nat)
    requires size > 0 && IsTop(limit, size, i, was)
    requires var b := Best(limit, size, i, limit); top == if b > was then b else was
    ensures IsTop(limit, size, i + 1, top)
  {
    hide Best;
    var r: nat :| r < i && Best(limit, size, r, limit) == was;
    assert Best(limit, size, i, limit) <= top;
  }
}
