/** Prime numbers: divisibility, the square-root bound, and that there is always a next one. */
module PrimeNumbers {
  import opened Arithmetic

  ghost predicate IsPrimeNumber(n: int) {
    n >= 2 && forall d :: 2 <= d < n ==> n % d != 0
  }

  lemma MultipleDivides(d: int, k: int)
    requires d > 0
    ensures (d * k) % d == 0
  {
    QuotientUnique(d * k, d, k, 0);
  }

  lemma DividesTransitive(a: int, b: int, c: int)
    requires a > 0 && b > 0 && b % a == 0 && c % b == 0
    ensures c % a == 0
  {
    var x, y := b / a, c / b;
    assert c == b * y && b == a * x;
    assert c == a * (x * y);
    MultipleDivides(a, x * y);
  }

  lemma Cofactor(n: int, d: int)
    requires n > 0 && 2 <= d < n && n % d == 0
    ensures 2 <= n / d < n && n == d * (n / d) && n % (n / d) == 0
  {
    var e := n / d;
    Quotient(n, d);
    MultipleGap(d, e, 2);
    MultipleGap(e, 1, d);
    assert n == e * d;
    MultipleDivides(e, d);
  }

  lemma SmallerFactor(d: int, e: int)
    requires d >= 0 && e >= 0
    ensures d <= e ==> d * d <= d * e
    ensures e <= d ==> e * e <= d * e
  {
    MultipleGap(d, d, e);
    MultipleGap(e, e, d);
  }

  lemma DivisorBelow(n: int)
    requires n >= 2 && !IsPrimeNumber(n)
    ensures exists q :: 2 <= q && q * q <= n && n % q == 0
  {
    var d :| 2 <= d < n && n % d == 0;
    Cofactor(n, d);
    var e := n / d;
    SmallerFactor(d, e);
    assert d * d <= n || e * e <= n;
  }

  /** It is enough to divide by numbers up to the square root. */
  lemma SquareRootSuffices(n: int)
    ensures IsPrimeNumber(n) <==> n >= 2 && forall q :: 2 <= q && q * q <= n ==> n % q != 0
  {
    if n >= 2 && !IsPrimeNumber(n) { DivisorBelow(n); }
    forall q | 2 <= q && q * q <= n
      ensures q < n
    {
      SquareAbove(q);
    }
  }

  lemma SquareAbove(q: int)
    requires q >= 2
    ensures q + q <= q * q
  {
    MultipleGap(q, 1, q);
  }

  /** Every number from 2 on has a prime divisor. */
  lemma {:induction false} PrimeDivisor(n: int) returns (p: int)
    requires n >= 2
    ensures IsPrimeNumber(p) && n % p == 0 && p <= n
    decreases n
  {
    if IsPrimeNumber(n) {
      p := n;
    } else {
      var d :| 2 <= d < n && n % d == 0;
      p := PrimeDivisor(d);
      DividesTransitive(p, d, n);
    }
  }

  function Factorial(n: nat): (f: nat)
    ensures f >= 1
  {
    if n == 0 then 1 else n * Factorial(n - 1)
  }

  lemma {:induction false} FactorialDivides(n: nat, d: int)
    requires 1 <= d <= n
    ensures Factorial(n) % d == 0
  {
    if d == n {
      MultipleDivides(n, Factorial(n - 1));
    } else {
      FactorialDivides(n - 1, d);
      var k := Factorial(n - 1) / d;
      assert n * Factorial(n - 1) == d * (n * k) by { assert Factorial(n - 1) == d * k; }
      MultipleDivides(d, n * k);
    }
  }

  /** Euclid: beyond any number there is a prime. */
  lemma PrimeBeyond(n: nat) returns (p: int)
    ensures IsPrimeNumber(p) && p > n
  {
    var m := Factorial(n) + 1;
    p := PrimeDivisor(m);
    if p <= n {
      FactorialDivides(n, p);
      var k := Factorial(n) / p;
      QuotientUnique(m, p, k, 1);
    }
  }

  ghost predicate IsNextPrime(p: int, q: int) {
    IsPrimeNumber(q) && q > p && forall n :: p < n < q ==> !IsPrimeNumber(n)
  }
}

/** The prime tables: on the fly, sieved, and the hybrid of the two. */
module PrimeTables {
  import opened Arithmetic
  import opened PrimeNumbers

  // ---------- on the fly ----------

  class OnTheFlyPrimeTable {
    constructor () {}

    method IsPrime(n: int) returns (r: bool)
      ensures r <==> IsPrimeNumber(n)
    {
      SquareRootSuffices(n);
      if n <= 1 { return false; }
      var i := 2;
      while i * i <= n
        invariant i >= 2
        invariant forall q :: 2 <= q < i ==> n % q != 0
        decreases n - i
      {
        SquareAbove(i);
        if n % i == 0 { return false; }
        i := i + 1;
      }
      forall q | 2 <= q && q * q <= n
        ensures q < i
      {
        SquareGrows(i, q);
      }
      return true;
    }

    method GetNextPrime(p: int) returns (q: int)
      ensures p < 0 ==> q == -1
      ensures p >= 0 ==> IsNextPrime(p, q)
    {
      if p < 0 { return -1; }
      ghost var beyond := PrimeBeyond(p);
      q := p + 1;
      while true
        invariant p < q <= beyond
        invariant forall n :: p < n < q ==> !IsPrimeNumber(n)
        decreases beyond - q
      {
        var prime := IsPrime(q);
        if prime { return; }
        q := q + 1;
      }
    }
  }

  // ---------- the sieve ----------

  /** Not crossed out by any divisor below `i` that is at most its square root. */
  ghost predicate Survives(m: int, i: int) {
    m >= 2 && forall q :: 2 <= q < i && q * q <= m ==> m % q != 0
  }

  /** A divisor that is crossed out itself crosses out nothing new. */
  lemma CompositeAddsNothing(i: int, m: int)
    requires i >= 2 && !Survives(i, i)
    ensures Survives(m, i) <==> Survives(m, i + 1)
  {
    var r :| 2 <= r < i && r * r <= i && i % r == 0;
    if m >= 2 && i * i <= m && m % i == 0 {
      DividesTransitive(r, i, m);
      SquareGrows(r, i);
    }
  }

  lemma EvenIsCrossedOut(i: int)
    requires i > 2 && i % 2 == 0
    ensures !Survives(i, i)
  {
    assert 2 * 2 <= i;
  }

  lemma SkipComposite(i: int, next: int, max: int)
    requires i >= 2 && !Survives(i, i) && next == i + 1
    ensures forall m :: 0 <= m <= max ==> (Survives(m, i) <==> Survives(m, next))
  {
    forall m | 0 <= m <= max
      ensures Survives(m, i) <==> Survives(m, next)
    {
      CompositeAddsNothing(i, m);
    }
  }

  /** The step over the even numbers. */
  lemma SkipEven(i: int, next: int, max: int)
    requires i >= 2 && (i % 2 == 1 || i == 2) && next == i + i % 2 + 1
    ensures next % 2 == 1
    ensures forall m :: 0 <= m <= max ==> (Survives(m, i + 1) <==> Survives(m, next))
  {
    if i % 2 == 1 {
      EvenIsCrossedOut(i + 1);
      SkipComposite(i + 1, next, max);
    }
  }

  lemma SurvivesNext(m: int, i: int)
    requires i >= 2
    ensures Survives(m, i + 1) <==> Survives(m, i) && !(i * i <= m && m % i == 0)
  {
  }

  lemma SurvivorsArePrime(m: int, i: int)
    requires i >= 2 && m < i * i
    ensures Survives(m, i) <==> IsPrimeNumber(m)
  {
    SquareRootSuffices(m);
    forall q | 2 <= q && q * q <= m
      ensures q < i
    {
      SquareGrows(i, q);
    }
  }

  lemma NextMultiple(i: int, j: int, m: int)
    requires i > 0 && j % i == 0 && j <= m < j + i && m % i == 0
    ensures m == j
  {
    Quotient(j, i);
    Quotient(m, i);
    MultipleGap(i, j / i, m / i);
    MultipleGap(i, m / i, j / i);
  }

  class PreCalculatedPrimeTable {
    const isPrime: array<bool>
    const max: nat

    ghost predicate Valid()
      reads isPrime
    {
      isPrime.Length == max + 1 && forall m :: 0 <= m <= max ==> (isPrime[m] <==> IsPrimeNumber(m))
    }

    /** The table must hold 0 and 1. */
    constructor (max: nat)
      requires max >= 1
      ensures Valid() && this.max == max && fresh(isPrime)
    {
      this.max := max;
      isPrime := new bool[max + 1];
      new;
      CalculatePrimesUpTo(isPrime, max);
    }

    static method CalculatePrimesUpTo(table: array<bool>, max: nat)
      requires max >= 1 && table.Length == max + 1
      modifies table
      ensures forall m :: 0 <= m <= max ==> (table[m] <==> IsPrimeNumber(m))
    {
      Fill(table);
      var i := 2;
      while i * i <= max
        invariant i >= 2 && (i % 2 == 1 || i == 2)
        invariant forall m :: 0 <= m <= max ==> (table[m] <==> Survives(m, i))
        decreases max - i
      {
        SquareAbove(i);
        if table[i] {
          MarkMultiples(table, max, i);
        } else {
          SkipComposite(i, i + 1, max);
        }
        var next := i + i % 2 + 1;
        SkipEven(i, next, max);
        i := next;
      }
      forall m | 0 <= m <= max
        ensures Survives(m, i) <==> IsPrimeNumber(m)
      {
        SurvivorsArePrime(m, i);
      }
    }

    static method Fill(table: array<bool>)
      requires table.Length >= 2
      modifies table
      ensures forall m :: 0 <= m < table.Length ==> (table[m] <==> Survives(m, 2))
    {
      for k := 0 to table.Length
        invariant forall m :: 0 <= m < k ==> table[m]
      {
        table[k] := true;
      }
      table[0], table[1] := false, false;
    }

    /** Crosses out the multiples from the square on. */
    static method MarkMultiples(table: array<bool>, max: nat, i: nat)
      requires i >= 2 && i * i <= max && table.Length == max + 1
      requires forall m :: 0 <= m <= max ==> (table[m] <==> Survives(m, i))
      modifies table
      ensures forall m :: 0 <= m <= max ==> (table[m] <==> Survives(m, i + 1))
    {
      var j := i * i;
      MultipleDivides(i, i);
      while j <= max
        invariant i * i <= j && j % i == 0
        invariant forall m :: 0 <= m <= max ==> (table[m] <==> Survives(m, i) && !Marked(m, i, j))
      {
        MarkedNext(i, j, max);
        table[j] := false;
        j := j + i;
      }
      forall m | 0 <= m <= max
        ensures Survives(m, i + 1) <==> Survives(m, i) && !Marked(m, i, j)
      {
        SurvivesNext(m, i);
      }
    }

    method IsPrime(n: int) returns (r: bool)
      requires Valid()
      ensures r <==> n <= max && IsPrimeNumber(n)
    {
      r := 0 <= n < isPrime.Length && isPrime[n];
    }

    /** The array is read from p + 1 on. */
    method GetNextPrime(p: int) returns (q: int)
      requires Valid() && p >= -1
      ensures q == -1 <==> forall n :: p < n <= max ==> !IsPrimeNumber(n)
      ensures q != -1 ==> IsNextPrime(p, q) && q <= max
    {
      var n := p + 1;
      while n < isPrime.Length
        invariant p < n
        invariant forall k :: p < k < n && k <= max ==> !IsPrimeNumber(k)
      {
        if isPrime[n] { return n; }
        n := n + 1;
      }
      return -1;
    }
  }

  /** A multiple of `i` from its square up to, but not including, `j`. */
  ghost predicate Marked(m: int, i: int, j: int)
    requires i > 0
  {
    i * i <= m < j && m % i == 0
  }

  lemma MarkedNext(i: int, j: int, max: int)
    requires i > 0 && i * i <= j && j % i == 0
    ensures (j + i) % i == 0
    ensures forall m :: 0 <= m <= max ==> (Marked(m, i, j + i) <==> Marked(m, i, j) || m == j)
  {
    assert j + i == i * (j / i + 1);
    MultipleDivides(i, j / i + 1);
    forall m | 0 <= m <= max
      ensures Marked(m, i, j + i) <==> Marked(m, i, j) || m == j
    {
      if j <= m < j + i && m % i == 0 { NextMultiple(i, j, m); }
    }
  }

  // ---------- the hybrid ----------

  /** What the hybrid answers, from its configuration. */
  ghost predicate HybridAnswers(forced: bool, max: nat, p: int, q: int) {
    if p >= 0 then IsNextPrime(p, q) else q == if !forced && max >= 2 && p == -1 then 2 else -1
  }

  class HybridPrimeTable {
    const onTheFly: OnTheFlyPrimeTable
    const precalc: PreCalculatedPrimeTable?
    const maxPrecalculated: nat

    ghost predicate Valid()
      reads if precalc == null then {} else {precalc.isPrime}
    {
      precalc != null ==> precalc.Valid() && precalc.max == maxPrecalculated >= 1
    }

    constructor (forceOnTheFly: bool, maxPrecalculated: nat)
      requires forceOnTheFly || maxPrecalculated >= 1
      ensures Valid() && (precalc == null <==> forceOnTheFly) && this.maxPrecalculated == maxPrecalculated
    {
      onTheFly := new OnTheFlyPrimeTable();
      this.maxPrecalculated := maxPrecalculated;
      if forceOnTheFly {
        precalc := null;
      } else {
        precalc := new PreCalculatedPrimeTable(maxPrecalculated);
      }
    }

    method IsPrime(n: int) returns (r: bool)
      requires Valid()
      ensures r <==> IsPrimeNumber(n)
    {
      if precalc != null && n < maxPrecalculated {
        r := precalc.IsPrime(n);
      } else {
        r := onTheFly.IsPrime(n);
      }
    }

    /** Where a table is consulted, its array is read from p + 1 on. */
    method GetNextPrime(p: int) returns (q: int)
      requires Valid() && (precalc != null ==> p >= -1)
      ensures HybridAnswers(precalc == null, maxPrecalculated, p, q)
    {
      q := -1;
      if precalc != null && p < maxPrecalculated {
        q := precalc.GetNextPrime(p);
        if p == -1 { FirstPrime(maxPrecalculated); }
      }
      if q == -1 {
        q := onTheFly.GetNextPrime(p);
      }
    }
  }

  lemma FirstPrime(max: nat)
    ensures IsPrimeNumber(2) && forall q :: IsNextPrime(-1, q) ==> q == 2
    ensures max < 2 ==> forall n :: -1 < n <= max ==> !IsPrimeNumber(n)
  {
    assert IsPrimeNumber(2);
    forall q | IsNextPrime(-1, q)
      ensures q == 2
    {
      assert 2 < q ==> !IsPrimeNumber(2);
    }
  }

  lemma NextPrimeUnique(p: int, a: int, b: int)
    requires IsNextPrime(p, a) && IsNextPrime(p, b)
    ensures a == b
  {
  }

  /** The answer is the same for every configuration if and only if p >= 0. */
  lemma HybridIndependentExactly(p: int)
    requires p >= -1
    ensures (forall f, g, m: nat, n: nat, a, b :: HybridAnswers(f, m, p, a) && HybridAnswers(g, n, p, b) ==> a == b)
      <==> p >= 0
  {
    if p >= 0 {
      forall f, g, m: nat, n: nat, a, b | HybridAnswers(f, m, p, a) && HybridAnswers(g, n, p, b)
        ensures a == b
      {
        NextPrimeUnique(p, a, b);
      }
    }
    assert HybridAnswers(true, 2, -1, -1) && HybridAnswers(false, 2, -1, 2);
  }

  // ---------- odd trial division ----------

  /** An odd number has no even divisor. */
  lemma OddDivisor(n: int, q: int)
    requires n % 2 == 1 && q > 0 && n % q == 0
    ensures q % 2 == 1
  {
    if q % 2 == 0 { DividesTransitive(2, q, n); }
  }

  ghost predicate NoOddBelow(n: int, i: int) {
    forall q :: 3 <= q < i && q % 2 == 1 ==> n % q != 0
  }

  lemma NoOddNext(n: int, i: int)
    requires i >= 3 && i % 2 == 1 && NoOddBelow(n, i) && n % i != 0
    ensures NoOddBelow(n, i + 2) && (i + 2) % 2 == 1
  {
    assert (i + 1) % 2 == 0;
    assert forall q :: 3 <= q < i + 2 && q % 2 == 1 ==> q < i || q == i;
  }

  /** No odd divisor up to the root is enough for an odd number. */
  lemma OddDivisorsSuffice(n: int, i: int)
    requires n > 1 && n % 2 == 1 && i >= 3 && i > n / i && NoOddBelow(n, i)
    ensures IsPrimeNumber(n)
  {
    forall q | 2 <= q && q * q <= n
      ensures n % q != 0
    {
      AboveRoot(n, i, q);
      if n % q == 0 { OddDivisor(n, q); }
    }
    SquareRootSuffices(n);
  }

  lemma DivisorFound(n: int, d: int)
    requires 2 <= d < n && n % d == 0
    ensures !IsPrimeNumber(n)
  {
  }

  method IsPrimeByOddDivision(n: int) returns (r: bool)
    ensures r <==> IsPrimeNumber(n)
  {
    assert n <= 1 ==> !IsPrimeNumber(n);
    assert NoOddBelow(n, 3);
    hide IsPrimeNumber, NoOddBelow;
    if n <= 1 { return false; }
    if n % 2 == 0 {
      if n == 2 { FirstPrime(2); } else { DivisorFound(n, 2); }
      return n == 2;
    }
    var i := 3;
    while true
      invariant i >= 3 && i % 2 == 1 && NoOddBelow(n, i)
      decreases n - i
    {
      if i > n / i { break; }
      BelowRoot(n, i);
      if n % i == 0 {
        DivisorFound(n, i);
        return false;
      }
      NoOddNext(n, i);
      i := i + 2;
    }
    OddDivisorsSuffice(n, i);
    return true;
  }

  lemma BelowRoot(n: int, i: int)
    requires n > 0 && 2 <= i <= n / i
    ensures i < n && i * i <= n
  {
    Quotient(n, i);
    MultipleGap(i, i, n / i);
    SquareAbove(i);
  }

  lemma AboveRoot(n: int, i: int, q: int)
    requires n > 0 && i > 0 && i > n / i && q > 0 && q * q <= n
    ensures q < i
  {
    Quotient(n, i);
    MultipleGap(i, n / i, i);
    SquareGrows(i, q);
  }
}
