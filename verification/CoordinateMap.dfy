/** The map from X25519 public keys (u) to Ed25519 coordinates (y), as in section 4.1 of RFC 7748. */
module CoordinateMap {
  import opened Results
  import opened ByteStrings
  import opened Modular
  import opened PrimeField

  /** u to y = (u - 1) / (u + 1), with the pole u = -1 sent to 1. */
  function ToEdwards(u: nat, p: nat): (y: nat)
    requires p >= 2
    ensures y < p
  {
    if u == (p - 1) % p then 1 else (((u - 1) % p) * PowMod((u + 1) % p, p - 2, p)) % p
  }

  /** y to u = (1 + y) / (1 - y), with 1 sent back to the pole. */
  function ToMontgomery(y: nat, p: nat): (u: nat)
    requires p >= 2
    ensures u < p
  {
    if y == 1 then p - 1 else (((1 + y) % p) * Inverse((1 - y) % p, p)) % p
  }

  function X25519ToEd25519(p: nat, key: Bytes): Result<Bytes>
    requires p >= 2
  {
    EncodeLE(ToEdwards(FromLE(key) % p, p), 32)
  }

  /** The quotient a / d modulo p is the one residue that times d gives a. */
  lemma QuotientTimes(a: int, d: int, q: int, p: nat)
    requires IsPrime(p) && d % p != 0 && q == ((a % p) * Inverse(d % p, p)) % p
    ensures Cong(q * d, a, p)
  {
    var i := Inverse(d % p, p);
    CongMod(d, p);
    CongMod(a, p);
    SmallMod(d % p, p);
    DivideOut(a % p, d % p, p);
    CongMod((a % p) * i, p);
    CongMul(q, (a % p) * i, d, d % p, p);
  }

  lemma NotPole(u: nat, p: nat)
    requires p >= 2 && u < p && u != p - 1
    ensures (u + 1) % p != 0
  {
    SmallMod(u + 1, p);
  }

  lemma ToEdwardsEquation(u: nat, p: nat)
    requires IsPrime(p) && u < p && u != p - 1
    ensures Cong(ToEdwards(u, p) * (u + 1), u - 1, p)
  {
    hide PowMod;
    SmallMod(p - 1, p);
    NotPole(u, p);
    QuotientTimes(u - 1, u + 1, ToEdwards(u, p), p);
  }

  lemma OneMinus(y: nat, p: nat)
    requires p >= 2 && y < p && y != 1
    ensures (1 - y) % p != 0
  {
    if y == 0 {
      SmallMod(1, p);
    } else {
      AddMultiple(1 - y, 1, p);
      SmallMod(p + 1 - y, p);
    }
  }

  lemma ToMontgomeryEquation(y: nat, p: nat)
    requires IsPrime(p) && y < p && y != 1
    ensures Cong(ToMontgomery(y, p) * (1 - y), 1 + y, p)
  {
    hide Inverse;
    OneMinus(y, p);
    QuotientTimes(1 + y, 1 - y, ToMontgomery(y, p), p);
  }

  /** y(u + 1) = u - 1 and u(1 - y) = 1 + y say the same. */
  lemma EquationsAgree(u: int, y: int, p: nat)
    requires p > 0
    ensures Cong(y * (u + 1), u - 1, p) <==> Cong(u * (1 - y), 1 + y, p)
  {
    var t := u * y;
    assert y * (u + 1) == t + y && u * (1 - y) == u - t by { assert u * y == y * u; }
    if Cong(t + y, u - 1, p) {
      CongAdd(u - 1, t + y, 1 - t, 1 - t, p);
    }
    if Cong(u - t, 1 + y, p) {
      CongAdd(1 + y, u - t, t - 1, t - 1, p);
    }
  }

  /** y is the image of u, said without division. */
  ghost predicate Related(u: int, y: int, p: nat)
    requires p > 0
  {
    Cong(y * (u + 1), u - 1, p)
  }

  lemma ToEdwardsRelated(u: nat, p: nat)
    requires IsPrime(p) && u < p && u != p - 1
    ensures Related(u, ToEdwards(u, p), p)
  {
    ToEdwardsEquation(u, p);
  }

  lemma ToMontgomeryRelated(y: nat, p: nat)
    requires IsPrime(p) && y < p && y != 1
    ensures Related(ToMontgomery(y, p), y, p)
  {
    hide ToMontgomery;
    ToMontgomeryEquation(y, p);
    EquationsAgree(ToMontgomery(y, p), y, p);
  }

  /** A residue is determined by its product with a nonzero one. */
  lemma Determined(x: nat, x': nat, d: int, a: int, p: nat)
    requires IsPrime(p) && d % p != 0 && x < p && x' < p && Cong(x * d, a, p) && Cong(x' * d, a, p)
    ensures x == x'
  {
    assert x * d == d * x && x' * d == d * x';
    Cancel(d, x, x', p);
    SmallMod(x, p);
    SmallMod(x', p);
  }

  lemma RelatedDeterminesU(u: nat, u': nat, y: nat, p: nat)
    requires IsPrime(p) && u < p && u' < p && y < p && y != 1 && Related(u, y, p) && Related(u', y, p)
    ensures u == u'
  {
    EquationsAgree(u, y, p);
    EquationsAgree(u', y, p);
    OneMinus(y, p);
    Determined(u, u', 1 - y, 1 + y, p);
  }

  lemma RelatedDeterminesY(u: nat, y: nat, y': nat, p: nat)
    requires IsPrime(p) && u < p && u != p - 1 && y < p && y' < p && Related(u, y, p) && Related(u, y', p)
    ensures y == y'
  {
    NotPole(u, p);
    Determined(y, y', u + 1, u - 1, p);
  }

  /** Only the pole is sent to 1, because 2 is not 0. */
  lemma OneOnlyFromPole(u: nat, p: nat)
    requires IsPrime(p) && p > 2 && u < p
    ensures ToEdwards(u, p) == 1 <==> u == p - 1
  {
    hide ToEdwards;
    assert ToEdwards(p - 1, p) == 1 by { PoleToOne(p); }
    if u != p - 1 {
      ToEdwardsEquation(u, p);
      TwoIsNotZero(u, p);
    }
  }

  lemma PoleToOne(p: nat)
    requires p >= 2
    ensures ToEdwards(p - 1, p) == 1
  {
    SmallMod(p - 1, p);
  }

  lemma TwoIsNotZero(u: int, p: nat)
    requires p > 2
    ensures !Cong(u + 1, u - 1, p)
  {
    SmallMod(2, p);
    if Cong(u + 1, u - 1, p) {
      CongAdd(u + 1, u - 1, u - 1, u - 1, p);
    }
  }

  lemma PoleFromOneOnly(y: nat, p: nat)
    requires IsPrime(p) && p > 2 && y < p
    ensures ToMontgomery(y, p) == p - 1 <==> y == 1
  {
    hide ToMontgomery;
    if y != 1 {
      ToMontgomeryEquation(y, p);
      AddMultiple(y - 1, 1 - y, p);
      assert (p - 1) * (1 - y) == (y - 1) + (1 - y) * p;
      TwoIsNotZero(y, p);
    } else {
      assert ToMontgomery(1, p) == p - 1 by { OneToPole(p); }
    }
  }

  lemma OneToPole(p: nat)
    requires p >= 2
    ensures ToMontgomery(1, p) == p - 1
  {
  }

  /** For an odd prime p the map is a permutation of the residues: ToMontgomery undoes it ... */
  lemma ToMontgomeryUndoes(u: nat, p: nat)
    requires IsPrime(p) && p > 2 && u < p
    ensures ToMontgomery(ToEdwards(u, p), p) == u
  {
    hide ToEdwards, ToMontgomery, Related;
    var y := ToEdwards(u, p);
    OneOnlyFromPole(u, p);
    if u == p - 1 {
      OneToPole(p);
    } else {
      ToEdwardsRelated(u, p);
      ToMontgomeryRelated(y, p);
      RelatedDeterminesU(ToMontgomery(y, p), u, y, p);
    }
  }

  /** ... and is undone by it. */
  lemma ToEdwardsUndoes(y: nat, p: nat)
    requires IsPrime(p) && p > 2 && y < p
    ensures ToEdwards(ToMontgomery(y, p), p) == y
  {
    hide ToEdwards, ToMontgomery, Related;
    var u := ToMontgomery(y, p);
    PoleFromOneOnly(y, p);
    if y == 1 {
      PoleToOne(p);
    } else {
      ToMontgomeryRelated(y, p);
      ToEdwardsRelated(u, p);
      RelatedDeterminesY(u, ToEdwards(u, p), y, p);
    }
  }

  /** What comes out: 32 bytes, least significant first, of the residue y that solves y (u + 1) = u - 1 for the
      residue u that the key stands for, or of 1 if u is the pole. */
  lemma PointHasCoordinate(p: nat, key: Bytes)
    requires IsPrime(p) && p <= Pow256(32)
    ensures var r := X25519ToEd25519(p, key);
            var u := FromLE(key) % p;
            && r.Ok? && |r.value| == 32 && FromLE(r.value) < p
            && if u == p - 1 then FromLE(r.value) == 1 else Cong(FromLE(r.value) * (u + 1), u - 1, p)
  {
    hide ToEdwards, Pow256, FromLE, ToLE;
    var u := FromLE(key) % p;
    CongMod(FromLE(key), p);
    if u == p - 1 {
      PoleToOne(p);
    } else {
      ToEdwardsEquation(u, p);
    }
  }

  /** Two encoded keys are mapped to the same point exactly when they encode the same residue. */
  lemma KeysCollideIffCongruent(p: nat, a: Bytes, b: Bytes)
    requires IsPrime(p) && 2 < p <= Pow256(32)
    ensures X25519ToEd25519(p, a).Ok? && |X25519ToEd25519(p, a).value| == 32
    ensures X25519ToEd25519(p, a) == X25519ToEd25519(p, b) <==> Cong(FromLE(a), FromLE(b), p)
  {
    hide ToEdwards, ToMontgomery, Pow256, FromLE, ToLE;
    CongMod(FromLE(a), p);
    CongMod(FromLE(b), p);
    var u, v := FromLE(a) % p, FromLE(b) % p;
    ToMontgomeryUndoes(u, p);
    ToMontgomeryUndoes(v, p);
    assert FromLE(ToLE(ToEdwards(u, p), 32)) == ToEdwards(u, p);
    assert FromLE(ToLE(ToEdwards(v, p), 32)) == ToEdwards(v, p);
  }

  lemma {:induction false} LastByteCounts(b: Bytes, x: Byte)
    requires b != []
    ensures FromLE(b[|b| - 1 := x]) == FromLE(b) + (x as int - b[|b| - 1] as int) * Pow256(|b| - 1)
  {
    var n := |b| - 1;
    var b' := b[n := x];
    if n == 0 {
      assert b[1..] == [] && b'[1..] == [];
    } else {
      LastByteCounts(b[1..], x);
      assert b'[1..] == b[1..][n - 1 := x];
      var d := x as int - b[n] as int;
      assert 256 * (d * Pow256(n - 1)) == d * (256 * Pow256(n - 1));
    }
  }

  lemma NoFactorTwo(a: int, p: int)
    requires IsPrime(p) && p > 2 && a % p != 0
    ensures (2 * a) % p != 0
  {
    SmallMod(2, p);
    if (2 * a) % p == 0 { Euclid(2, a, p); }
  }

  lemma DoubledSevenTimes(a: int, p: int)
    requires IsPrime(p) && p > 2 && a % p != 0
    ensures (128 * a) % p != 0
  {
    NoFactorTwo(a, p);
    NoFactorTwo(2 * a, p);
    NoFactorTwo(4 * a, p);
    NoFactorTwo(8 * a, p);
    NoFactorTwo(16 * a, p);
    NoFactorTwo(32 * a, p);
    NoFactorTwo(64 * a, p);
  }

  lemma {:induction false} NeverDivides(k: nat, p: int)
    requires IsPrime(p) && p > 2
    ensures Pow256(k) % p != 0
  {
    if k == 0 {
      SmallMod(1, p);
    } else {
      NeverDivides(k - 1, p);
      DoubledSevenTimes(Pow256(k - 1), p);
      NoFactorTwo(128 * Pow256(k - 1), p);
    }
  }

  /** The top bit of a key is not masked: two keys that differ only in it are never mapped to the same point,
      although they stand for the same number in section 5 of RFC 7748. */
  lemma TopBitMatters(p: nat, key: Bytes)
    requires IsPrime(p) && 2 < p <= Pow256(32) && |key| == 32 && key[31] < 128
    ensures X25519ToEd25519(p, key) != X25519ToEd25519(p, key[31 := key[31] + 128])
  {
    hide Pow256, FromLE, X25519ToEd25519;
    var key' := key[31 := key[31] + 128];
    LastByteCounts(key, key[31] + 128);
    NeverDivides(31, p);
    DoubledSevenTimes(Pow256(31), p);
    KeysCollideIffCongruent(p, key, key');
    if Cong(FromLE(key), FromLE(key'), p) {
      CongAdd(FromLE(key'), FromLE(key), FromLE(key), FromLE(key), p);
      SmallMod(0, p);
    }
  }

  /** Modulo 2 both residues are sent to 1: oddness of the prime is needed. */
  lemma NotInjectiveModuloTwo()
    ensures ToEdwards(0, 2) == ToEdwards(1, 2) == 1
  {
    assert PowMod(1, 0, 2) == 1;
  }
}
