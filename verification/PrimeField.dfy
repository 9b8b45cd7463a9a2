/** Arithmetic modulo a prime, up to Fermat's little theorem and the inverse a^(p-2). */
module PrimeField {
  import opened Modular

  predicate Divides(d: int, x: int)
    requires d > 0
  {
    x % d == 0
  }

  ghost predicate IsPrime(p: int) {
    p >= 2 && forall d {:trigger Divides(d, p)} :: 2 <= d < p ==> !Divides(d, p)
  }

  /** A prime that divides a product divides a factor. */
  lemma {:induction false} EuclidSmall(a: int, b: int, p: int)
    requires IsPrime(p) && 0 < a < p && (a * b) % p == 0
    ensures b % p == 0
    decreases a
  {
    if a > 1 {
      var r, q := p % a, p / a;
      assert !Divides(a, p);
      assert r * b == p * b - q * (a * b) by {
        assert p == q * a + r;
        assert (q * a) * b == q * (a * b);
      }
      var k := a * b / p;
      assert q * (a * b) == (q * k) * p by { assert a * b == k * p; }
      assert r * b == 0 + (b - q * k) * p by {
        assert (b - q * k) * p == b * p - (q * k) * p;
      }
      AddMultiple(0, b - q * k, p);
      EuclidSmall(r, b, p);
    }
  }

  lemma Euclid(a: int, b: int, p: int)
    requires IsPrime(p) && (a * b) % p == 0
    ensures a % p == 0 || b % p == 0
  {
    if a % p != 0 {
      CongMod(a, p);
      CongMul(a % p, a, b, b, p);
      EuclidSmall(a % p, b, p);
    }
  }

  lemma Cancel(a: int, x: int, y: int, p: int)
    requires IsPrime(p) && a % p != 0 && Cong(a * x, a * y, p)
    ensures Cong(x, y, p)
  {
    CongAdd(a * x, a * y, a * y, a * y, p);
    assert a * (x - y) == a * x - a * y;
    Euclid(a, x - y, p);
    CongAdd(x - y, 0, y, y, p);
  }

  function Product(s: seq<int>): int {
    if s == [] then 1 else s[0] * Product(s[1..])
  }

  lemma {:induction false} ProductSplit(s: seq<int>, i: nat)
    requires i < |s|
    ensures Product(s) == s[i] * Product(s[..i] + s[i + 1..])
  {
    var rest := s[..i] + s[i + 1..];
    if i == 0 {
      assert rest == s[1..];
    } else {
      ProductSplit(s[1..], i - 1);
      assert rest[1..] == s[1..][..i - 1] + s[1..][i..];
      var u := Product(rest[1..]);
      assert s[0] * (s[i] * u) == s[i] * (s[0] * u);
    }
  }

  lemma CountsWithout(s: seq<int>, i: nat)
    requires i < |s|
    ensures multiset(s[..i] + s[i + 1..]) == multiset(s) - multiset{s[i]}
  {
    assert s == s[..i] + [s[i]] + s[i + 1..];
  }

  lemma {:induction false} ProductPermutation(s: seq<int>, t: seq<int>)
    requires multiset(s) == multiset(t)
    ensures Product(s) == Product(t)
  {
    if s == [] {
      assert |multiset(t)| == 0;
    } else {
      assert s[0] in multiset(t);
      var i :| 0 <= i < |t| && t[i] == s[0];
      ProductSplit(t, i);
      var rest := t[..i] + t[i + 1..];
      CountsWithout(s, 0);
      CountsWithout(t, i);
      assert s[..0] + s[1..] == s[1..];
      ProductPermutation(s[1..], rest);
    }
  }

  ghost predicate Distinct(t: seq<int>) {
    forall i, j :: 0 <= i < j < |t| ==> t[i] != t[j]
  }

  lemma {:induction false} DistinctSize(t: seq<int>)
    requires Distinct(t)
    ensures |set x | x in t| == |t|
  {
    if t != [] {
      var rest := t[1..];
      DistinctSize(rest);
      assert t == [t[0]] + rest && t[0] !in rest;
      assert (set x | x in t) == {t[0]} + (set x | x in rest);
    }
  }

  lemma {:induction false} DistinctCounts(t: seq<int>)
    requires Distinct(t)
    ensures forall x :: x in t ==> multiset(t)[x] == 1
  {
    if t != [] {
      var rest := t[1..];
      DistinctCounts(rest);
      assert t == [t[0]] + rest && t[0] !in rest;
      assert multiset(t) == multiset{t[0]} + multiset(rest);
    }
  }

  /** The numbers 1 to n. */
  function UpTo(n: nat): (s: seq<int>)
    ensures |s| == n
  {
    seq(n, i => i + 1)
  }

  lemma DistinctFillsRange(t: seq<int>)
    requires Distinct(t) && forall x :: x in t ==> 1 <= x <= |t|
    ensures multiset(t) == multiset(UpTo(|t|))
  {
    var s := UpTo(|t|);
    DistinctSize(t);
    DistinctCounts(t);
    DistinctSize(s);
    DistinctCounts(s);
    var setS, setT := set x | x in s, set x | x in t;
    forall x | 1 <= x <= |t| ensures x in s { assert s[x - 1] == x; }
    assert setT <= setS;
    SubsetSameSize(setT, setS);
    forall x ensures multiset(t)[x] == multiset(s)[x] {
      if x in setS { assert x in s && x in t; } else { assert x !in s && x !in t; }
    }
  }

  lemma SubsetSameSize(a: set<int>, b: set<int>)
    requires a <= b && |a| == |b|
    ensures a == b
  {
    assert |b - a| == |b| - |a|;
  }

  /** The list a*1, ..., a*(n) reduced modulo p. */
  function Multiples(a: int, n: nat, p: int): (t: seq<int>)
    requires p > 0
    ensures |t| == n && forall i :: 0 <= i < n ==> t[i] == Multiple(a, i + 1, p)
  {
    seq(n, i => Multiple(a, i + 1, p))
  }

  function Multiple(a: int, i: int, p: int): int
    requires p > 0
  {
    (a * i) % p
  }

  lemma {:induction false} ProductOfMultiples(a: int, n: nat, p: int)
    requires p > 0
    ensures Cong(Product(Multiples(a, n, p)), Pow(a, n) * Product(UpTo(n)), p)
  {
    if n > 0 {
      ProductOfMultiples(a, n - 1, p);
      var t, s := Multiples(a, n, p), UpTo(n);
      ProductSplit(t, n - 1);
      ProductSplit(s, n - 1);
      assert t[..n - 1] + t[n..] == Multiples(a, n - 1, p);
      assert s[..n - 1] + s[n..] == UpTo(n - 1);
      CongMod(a * n, p);
      var u, f := Product(Multiples(a, n - 1, p)), Pow(a, n - 1);
      var g := Product(UpTo(n - 1));
      CongMul(t[n - 1], a * n, u, f * g, p);
      Interchange(a, n, f, g);
    }
  }

  lemma {:induction false} FactorialNotDivisible(n: nat, p: int)
    requires IsPrime(p) && n < p
    ensures Product(UpTo(n)) % p != 0
  {
    if n > 0 {
      FactorialNotDivisible(n - 1, p);
      var s := UpTo(n);
      ProductSplit(s, n - 1);
      assert s[..n - 1] + s[n..] == UpTo(n - 1);
      if Product(s) % p == 0 {
        EuclidSmall(n, Product(UpTo(n - 1)), p);
      }
    }
  }

  lemma ElementInRange(a: int, n: nat, p: int, i: nat)
    requires IsPrime(p) && a % p != 0 && n == p - 1 && i < n
    ensures 1 <= Multiples(a, n, p)[i] <= n
  {
    MultipleNonzero(a, i + 1, p);
    hide *;
  }

  lemma ElementsDiffer(a: int, n: nat, p: int, i: nat, j: nat)
    requires IsPrime(p) && a % p != 0 && n == p - 1 && i < j < n
    ensures Multiples(a, n, p)[i] != Multiples(a, n, p)[j]
  {
    MultiplesDiffer(a, i + 1, j + 1, p);
    hide *;
  }

  lemma MultiplesShape(a: int, n: nat, p: int)
    requires IsPrime(p) && a % p != 0 && n == p - 1
    ensures var t := Multiples(a, n, p); |t| == n && Distinct(t) && forall x :: x in t ==> 1 <= x <= n
  {
    hide Multiple, Multiples, IsPrime;
    var t := Multiples(a, n, p);
    forall i | 0 <= i < n ensures 1 <= t[i] <= n { ElementInRange(a, n, p, i); }
    forall i, j | 0 <= i < j < n ensures t[i] != t[j] { ElementsDiffer(a, n, p, i, j); }
  }

  /** Multiplying by a permutes the nonzero residues. */
  lemma MultiplesPermute(a: int, p: int)
    requires IsPrime(p) && a % p != 0
    ensures multiset(Multiples(a, p - 1, p)) == multiset(UpTo(p - 1))
  {
    assert p >= 2;
    hide *;
    MultiplesShape(a, p - 1, p);
    DistinctFillsRange(Multiples(a, p - 1, p));
  }

  lemma MultipleNonzero(a: int, i: int, p: int)
    requires IsPrime(p) && a % p != 0 && 0 < i < p
    ensures 1 <= Multiple(a, i, p) <= p - 1
  {
    if (a * i) % p == 0 {
      Euclid(a, i, p);
    }
  }

  lemma MultiplesDiffer(a: int, i: int, j: int, p: int)
    requires IsPrime(p) && a % p != 0 && 0 < i < j < p
    ensures Multiple(a, i, p) != Multiple(a, j, p)
  {
    SmallMod(i, p);
    SmallMod(j, p);
    if Cong(a * i, a * j, p) {
      Cancel(a, i, j, p);
    }
  }

  /** Fermat's little theorem. */
  lemma Fermat(a: int, p: int)
    requires IsPrime(p) && a % p != 0
    ensures Pow(a, p - 1) % p == 1
  {
    MultiplesPermute(a, p);
    ProductPermutation(Multiples(a, p - 1, p), UpTo(p - 1));
    ProductOfMultiples(a, p - 1, p);
    FactorialNotDivisible(p - 1, p);
    var f := Product(UpTo(p - 1));
    CancelToOne(f, Pow(a, p - 1), p);
  }

  lemma CancelToOne(f: int, x: int, p: int)
    requires IsPrime(p) && f % p != 0 && Cong(f, x * f, p)
    ensures x % p == 1
  {
    assert f * x == x * f;
    Cancel(f, 1, x, p);
    SmallMod(1, p);
  }

  /** pow(a, p - 2, p), the inverse of a modulo the prime p. */
  function Inverse(a: int, p: int): (r: int)
    requires p >= 2
    ensures 0 <= r < p
  {
    PowMod(a, p - 2, p)
  }

  lemma InverseIsInverse(a: int, p: int)
    requires IsPrime(p) && a % p != 0
    ensures (a * Inverse(a, p)) % p == 1
    ensures Inverse(a, p) % p != 0
  {
    Fermat(a, p);
    CongMod(Pow(a, p - 2), p);
    CongMul(a, a, Inverse(a, p), Pow(a, p - 2), p);
    MulByZero(a, Inverse(a, p), p);
  }

  lemma MulByZero(a: int, b: int, p: int)
    requires p > 0
    ensures b % p == 0 ==> (a * b) % p == 0
  {
    if b % p == 0 {
      CongMul(a, a, b, 0, p);
    }
  }

  /** Dividing by d undoes multiplying by d. */
  lemma DivideOut(x: int, d: int, p: int)
    requires IsPrime(p) && d % p != 0
    ensures Cong((x * d) * Inverse(d, p), x, p)
    ensures Cong((x * Inverse(d, p)) * d, x, p)
  {
    InverseIsInverse(d, p);
    SmallMod(1, p);
    CongMul(x, x, d * Inverse(d, p), 1, p);
    assert x * (d * Inverse(d, p)) == (x * d) * Inverse(d, p) == (x * Inverse(d, p)) * d;
  }
}
