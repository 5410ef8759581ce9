/**
 * The prime tables of the bundled samples: trial division, trial division by odd numbers, the
 * sieve, and the hybrid of a sieve with trial division. All are judged by one definition of primality.
 * Integers are mathematical: the machine overflow of `i*i` and of the search is not modelled.
 */
module PrimeTables {
  import opened Arithmetic

  // ----- Primality -----

  ghost predicate Divides(d: int, n: int)
    requires d != 0
  {
    n % d == 0
  }

  ghost predicate Prime(n: int) {
    n >= 2 && forall d :: 2 <= d < n ==> !Divides(d, n)
  }

  /** `q` is the least prime above `p`. */
  ghost predicate NextPrime(p: int, q: int) {
    p < q && Prime(q) && forall n :: p < n < q ==> !Prime(n)
  }

  lemma {:induction false} MultipleIsDivisible(d: int, k: nat)
    requires d >= 1
    ensures (d * k) % d == 0
  {
    if k > 0 {
      MultipleIsDivisible(d, k - 1);
      var m := d * (k - 1);
      assert d * k == m + d;
      assert (m + d) % d == m % d by {
        var q := m / d;
        assert m == d * q;
        assert m + d == d * (q + 1);
        DivModUnique(m + d, d, q + 1, 0);
      }
    }
  }

  lemma DividesTransitive(a: int, b: int, c: int)
    requires a >= 1 && b >= 1 && c >= 0 && Divides(a, b) && Divides(b, c)
    ensures Divides(a, c)
  {
    var j, k := b / a, c / b;
    assert b == a * j && c == b * k;
    assert c == a * (j * k);
    assert j * k >= 0;
    MultipleIsDivisible(a, j * k);
  }

  lemma SmallerFactor(d: int, k: int)
    requires d >= 0 && k >= 0
    ensures d <= k ==> d * d <= d * k
    ensures k <= d ==> k * k <= d * k
  {
  }

  /** A composite number has a divisor whose square does not exceed it. */
  lemma SmallDivisor(n: int, d: int) returns (e: int)
    requires 2 <= d < n && Divides(d, n)
    ensures 2 <= e && e * e <= n && Divides(e, n)
  {
    var k := n / d;
    assert n == d * k && k >= 2;
    e := if d <= k then d else k;
    SmallerFactor(d, k);
    MultipleIsDivisible(k, d);
  }

  /** The least divisor above one is prime. */
  lemma PrimeDivisor(n: int) returns (q: int)
    requires n >= 2
    ensures Prime(q) && q <= n && Divides(q, n)
    decreases n
  {
    if Prime(n) {
      assert n == n * 1;
      MultipleIsDivisible(n, 1);
      return n;
    }
    var d :| 2 <= d < n && Divides(d, n);
    q := PrimeDivisor(d);
    DividesTransitive(q, d, n);
  }

  // ----- Euclid's theorem, which bounds the search for a next prime -----

  ghost function Factorial(n: nat): (f: nat)
    ensures f >= 1
  {
    if n == 0 then 1 else
      var f := Factorial(n - 1);
      assert n * f >= f;
      n * f
  }

  lemma {:induction false} DividesFactorial(d: nat, n: nat)
    requires 1 <= d <= n
    ensures Divides(d, Factorial(n))
  {
    if d == n {
      MultipleIsDivisible(n, Factorial(n - 1));
    } else {
      DividesFactorial(d, n - 1);
      var f := Factorial(n - 1);
      var k := f / d;
      assert f == d * k;
      assert n * f == d * (n * k);
      assert n * k >= 0;
      MultipleIsDivisible(d, n * k);
    }
  }

  /** There is a prime above every number. */
  lemma Euclid(p: nat) returns (q: int)
    ensures Prime(q) && q > p
  {
    var f := Factorial(p);
    q := PrimeDivisor(f + 1);
    if q <= p {
      DividesFactorial(q, p);
      var j, k := f / q, (f + 1) / q;
      assert f == q * j && f + 1 == q * k;
      assert q * (k - j) == q * k - q * j;
      SmallMultipleIsZero(q, k - j);
      assert false;
    }
  }

  // ----- Trial division -----

  class OnTheFlyPrimeTable {
    constructor () { }

    method IsPrime(n: int) returns (r: bool)
      ensures r <==> Prime(n)
    {
      if n <= 1 {
        return false;
      }
      var i := 2;
      while i * i <= n
        invariant i >= 2
        invariant forall d :: 2 <= d < i ==> !Divides(d, n)
        decreases n - i
      {
        assert i * i >= 2 * i;
        if n % i == 0 {
          assert Divides(i, n);
          return false;
        }
        i := i + 1;
      }
      NoSmallDivisor(n, i);
      return true;
    }

    /** Searches upward from `p + 1`, which must be positive for the search to start. */
    method GetNextPrime(p: int) returns (q: int)
      ensures p < 0 ==> q == -1
      ensures p >= 0 ==> NextPrime(p, q)
    {
      if p < 0 {
        return -1;
      }
      ghost var bound := Euclid(p);
      var n := p + 1;
      while n > 0
        invariant p < n <= bound
        invariant forall m :: p < m < n ==> !Prime(m)
        decreases bound - n
      {
        var found := IsPrime(n);
        if found {
          return n;
        }
        n := n + 1;
      }
      return -1;
    }
  }

  lemma SquareMonotone(i: int, e: int)
    requires 0 <= i <= e
    ensures i * i <= e * e
  {
    assert i * i <= i * e <= e * e;
  }

  lemma NoSmallDivisor(n: int, i: int)
    requires n >= 2 && i >= 2 && i * i > n
    requires forall d :: 2 <= d < i ==> !Divides(d, n)
    ensures Prime(n)
  {
    if !Prime(n) {
      var d :| 2 <= d < n && Divides(d, n);
      var e := SmallDivisor(n, d);
      if e >= i {
        SquareMonotone(i, e);
      }
      assert false;
    }
  }

  // ----- Trial division by odd numbers -----

  lemma OddHasNoEvenDivisor(d: int, n: int)
    requires d >= 2 && n >= 0 && d % 2 == 0 && n % 2 != 0
    ensures !Divides(d, n)
  {
    if Divides(d, n) {
      DividesTransitive(2, d, n);
      assert false;
    }
  }

  /** The loop's square-root test, free of multiplication, is the usual one. */
  lemma QuotientBoundsSquare(n: int, i: int)
    requires n >= 1 && i >= 1
    ensures i > n / i <==> i * i > n
    ensures i >= 2 && i <= n / i ==> n >= 2 * i
  {
    var q, r := n / i, n % i;
    assert n == i * q + r;
    if i > q {
      MultiplicationIsMonotone(i, q, i - 1);
      assert i * (i - 1) == i * i - i;
    } else {
      MultiplicationIsMonotone(i, i, q);
      if i >= 2 {
        MultiplicationIsMonotone(i, 2, i);
      }
    }
  }

  lemma EvenPrime(n: int)
    requires n >= 2 && n % 2 == 0
    ensures Prime(n) <==> n == 2
  {
    assert Divides(2, n);
  }

  lemma DividedIsComposite(n: int, i: int)
    requires 2 <= i < n && n % i == 0
    ensures !Prime(n)
  {
    assert Divides(i, n);
  }

  lemma NextOddStep(n: int, i: int)
    requires i >= 3 && i % 2 == 1 && n >= 1 && n % 2 != 0 && n % i != 0
    requires forall d :: 2 <= d < i ==> !Divides(d, n)
    ensures forall d :: 2 <= d < i + 2 ==> !Divides(d, n)
  {
    OddHasNoEvenDivisor(i + 1, n);
  }

  method IsPrimeByOddSteps(n: int) returns (r: bool)
    ensures r <==> Prime(n)
  {
    if n <= 1 {
      return false;
    }
    if n % 2 == 0 {
      EvenPrime(n);
      return n == 2;
    }
    var i := 3;
    while true
      invariant i >= 3 && i % 2 == 1
      invariant forall d :: 2 <= d < i ==> !Divides(d, n)
      decreases n - i
    {
      if i > n / i {
        break;
      }
      QuotientBoundsSquare(n, i);
      if n % i == 0 {
        DividedIsComposite(n, i);
        return false;
      }
      NextOddStep(n, i);
      i := i + 2;
    }
    QuotientBoundsSquare(n, i);
    NoSmallDivisor(n, i);
    return true;
  }

  // ----- The sieve -----

  /** What the sieve knows once the multiples of every prime below `i` are struck out. */
  ghost predicate Sieved(n: int, i: int) {
    n >= 2 && forall d :: 2 <= d < i && d < n ==> !Divides(d, n)
  }

  /** Striking out the multiples of a prime `i` accounts for every divisor up to `i`. */
  lemma SieveStep(n: int, i: int)
    requires 2 <= i
    ensures Sieved(n, i + 1) <==> Sieved(n, i) && !(n > i && Divides(i, n))
  {
  }

  /** A composite `i` needs no striking out: a smaller divisor has already done the work. */
  lemma CompositeStep(n: int, i: int)
    requires 2 <= i && !Sieved(i, i)
    ensures Sieved(n, i + 1) <==> Sieved(n, i)
  {
    if Sieved(n, i) && n > i && Divides(i, n) {
      var d :| 2 <= d < i && Divides(d, i);
      DividesTransitive(d, i, n);
      assert false;
    }
    SieveStep(n, i);
  }

  class PreCalculatedPrimeTable {
    const isPrimeSize: int
    const isPrime: array<bool>

    ghost predicate Valid()
      reads this, isPrime
    {
      && isPrimeSize == isPrime.Length >= 2
      && forall n :: 0 <= n < isPrimeSize ==> (isPrime[n] <==> Prime(n))
    }

    constructor (max: int)
      requires max >= 1
      ensures Valid() && isPrimeSize == max + 1 && fresh(isPrime)
    {
      isPrimeSize := max + 1;
      isPrime := new bool[max + 1];
      new;
      CalculatePrimesUpTo(max);
    }

    method IsPrime(n: int) returns (r: bool)
      requires Valid()
      ensures r <==> n < isPrimeSize && Prime(n)
    {
      return 0 <= n && n < isPrimeSize && isPrime[n];
    }

    /** The table is read from index `p + 1`, which may not be negative. */
    method GetNextPrime(p: int) returns (q: int)
      requires Valid() && p >= -1
      ensures q == -1 || (NextPrime(p, q) && q < isPrimeSize)
      ensures q == -1 ==> forall n :: p < n < isPrimeSize ==> !Prime(n)
    {
      var n := p + 1;
      while n < isPrimeSize
        invariant p < n
        invariant forall m :: p < m < n && m < isPrimeSize ==> !Prime(m)
      {
        if isPrime[n] {
          return n;
        }
        n := n + 1;
      }
      return -1;
    }

    method CalculatePrimesUpTo(max: int)
      requires max >= 1 && isPrimeSize == isPrime.Length == max + 1
      modifies isPrime
      ensures Valid()
    {
      var k := 0;
      while k < isPrimeSize
        invariant 0 <= k <= isPrimeSize
        invariant forall n :: 0 <= n < k ==> isPrime[n]
      {
        isPrime[k] := true;
        k := k + 1;
      }
      isPrime[0], isPrime[1] := false, false;
      var i := 2;
      while i <= max
        invariant 2 <= i <= max + 1
        invariant forall n :: 0 <= n <= max ==> (isPrime[n] <==> Sieved(n, i))
      {
        if !isPrime[i] {
          forall n ensures Sieved(n, i + 1) <==> Sieved(n, i) {
            CompositeStep(n, i);
          }
        } else {
          StrikeOut(i, max);
          forall n ensures Sieved(n, i + 1) <==> Sieved(n, i) && !(n > i && Divides(i, n)) {
            SieveStep(n, i);
          }
        }
        i := i + 1;
      }
      assert forall n :: 0 <= n <= max ==> (Sieved(n, max + 1) <==> Prime(n));
    }

    /** The inner loop: marks the proper multiples of `i` as non-prime. */
    method StrikeOut(i: int, max: int)
      requires 2 <= i <= max && isPrimeSize == isPrime.Length == max + 1
      modifies isPrime
      ensures forall n :: 0 <= n <= max ==>
        (isPrime[n] <==> old(isPrime[n]) && !(n > i && Divides(i, n)))
    {
      var j := 2 * i;
      ghost var k := 2;
      while j <= max
        invariant k >= 2 && j == i * k
        invariant forall n :: 0 <= n <= max ==>
          (isPrime[n] <==> old(isPrime[n]) && !(i < n < j && Divides(i, n)))
      {
        MultipleIsDivisible(i, k);
        assert Divides(i, j);
        forall n | j < n < j + i ensures !Divides(i, n) {
          DivModUnique(n, i, k, n - j);
        }
        isPrime[j] := false;
        j := j + i;
        k := k + 1;
        assert j == i * k;
      }
    }
  }

  // ----- The hybrid table -----

  class HybridPrimeTable {
    const onTheFlyImpl: OnTheFlyPrimeTable
    const precalcImpl: PreCalculatedPrimeTable?
    const maxPrecalculated: int

    ghost predicate Valid()
      reads this, precalcImpl, if precalcImpl == null then {} else {precalcImpl.isPrime}
    {
      precalcImpl != null ==>
        maxPrecalculated >= 1 && precalcImpl.Valid() && precalcImpl.isPrimeSize == maxPrecalculated + 1
    }

    constructor (forceOnTheFly: bool, maxPrecalculated: int)
      requires !forceOnTheFly ==> maxPrecalculated >= 1
      ensures Valid() && this.maxPrecalculated == maxPrecalculated
      ensures precalcImpl == null <==> forceOnTheFly
    {
      onTheFlyImpl := new OnTheFlyPrimeTable();
      if forceOnTheFly {
        precalcImpl := null;
      } else {
        var table := new PreCalculatedPrimeTable(maxPrecalculated);
        precalcImpl := table;
      }
      this.maxPrecalculated := maxPrecalculated;
    }

    /** The hybrid decides primality, whatever the capacity of its table. */
    method IsPrime(n: int) returns (r: bool)
      requires Valid()
      ensures r <==> Prime(n)
    {
      if precalcImpl != null && n < maxPrecalculated {
        r := precalcImpl.IsPrime(n);
      } else {
        r := onTheFlyImpl.IsPrime(n);
      }
    }

    /**
     * The hybrid finds the same next prime as trial division, except at -1 with a table that
     * reaches 2: there the table answers 2 and trial division answers -1.
     */
    method GetNextPrime(p: int) returns (q: int)
      requires Valid() && (precalcImpl != null ==> p >= -1)
      ensures p >= 0 ==> NextPrime(p, q)
      ensures p < 0 ==> q == if p == -1 && precalcImpl != null && maxPrecalculated >= 2 then 2 else -1
    {
      var nextPrime := -1;
      if precalcImpl != null && p < maxPrecalculated {
        nextPrime := precalcImpl.GetNextPrime(p);
        TwoIsTheLeastPrime();
        if p == -1 {
          assert nextPrime != -1 ==> nextPrime == 2 by {
            assert nextPrime != -1 && nextPrime != 2 ==> Prime(nextPrime) && nextPrime > 2 && !Prime(2);
          }
        }
      }
      if nextPrime != -1 {
        q := nextPrime;
      } else {
        q := onTheFlyImpl.GetNextPrime(p);
      }
    }
  }

  lemma TwoIsTheLeastPrime()
    ensures Prime(2) && forall n :: Prime(n) ==> n >= 2
  {
  }

  /** The next prime is unique, so any two tables that meet the specification agree. */
  lemma NextPrimeUnique(p: int, q: int, q': int)
    requires NextPrime(p, q) && NextPrime(p, q')
    ensures q == q'
  {
  }
}
