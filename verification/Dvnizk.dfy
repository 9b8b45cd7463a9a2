/** The prime-order group that the proofs live in, given by its addition alone. */
module CurveGroup {
  import opened ByteStrings
  import opened Modular
  import opened PrimeField

  /** Points are 32-byte encodings; subgroup holds of the points of the group generated by base. */
  datatype Curve = Curve(
    onCurve: Bytes -> bool,
    subgroup: Bytes -> bool,
    add: (Bytes, Bytes) -> Bytes,
    neg: Bytes -> Bytes,
    zero: Bytes,
    base: Bytes,
    n: nat,
    sha512: Bytes -> Bytes)

  /** Named in triggers, so that a law is used only where a proof mentions its points. */
  predicate At(p: Bytes, q: Bytes, r: Bytes) { true }

  ghost predicate AbelianGroup(c: Curve) {
    && c.onCurve(c.zero)
    && (forall p, q, r {:trigger At(p, q, r)} :: At(p, q, r) && c.onCurve(p) && c.onCurve(q) && c.onCurve(r) ==>
      c.add(c.add(p, q), r) == c.add(p, c.add(q, r)))
    && (forall p, q {:trigger c.add(p, q)} :: c.onCurve(p) && c.onCurve(q) ==>
      c.onCurve(c.add(p, q)) && c.add(p, q) == c.add(q, p))
    && (forall p {:trigger c.onCurve(p)} :: c.onCurve(p) ==> |p| == 32 && c.add(p, c.zero) == p)
    && (forall p {:trigger c.neg(p)} :: c.onCurve(p) ==>
      c.onCurve(c.neg(p)) && c.add(p, c.neg(p)) == c.zero)
  }

  /** k times p. */
  function Mul(c: Curve, k: nat, p: Bytes): Bytes {
    if k == 0 then c.zero else c.add(p, Mul(c, k - 1, p))
  }

  /** What is assumed of the curve: a subgroup of prime order n, generated by base. */
  ghost predicate Lawful(c: Curve) {
    && AbelianGroup(c)
    && IsPrime(c.n) && c.n <= Pow256(32)
    && (forall p {:trigger c.subgroup(p)} :: c.subgroup(p) ==> c.onCurve(p) && Mul(c, c.n, p) == c.zero)
    && (forall p, q {:trigger c.subgroup(c.add(p, q))} :: c.subgroup(p) && c.subgroup(q) ==> c.subgroup(c.add(p, q)))
    && c.subgroup(c.zero)
    && c.subgroup(c.base) && c.base != c.zero
  }

  function Sub(c: Curve, p: Bytes, q: Bytes): Bytes {
    c.add(p, c.neg(q))
  }

  lemma SubAdd(c: Curve, p: Bytes, q: Bytes)
    requires AbelianGroup(c) && c.onCurve(p) && c.onCurve(q)
    ensures c.onCurve(Sub(c, p, q))
    ensures c.add(Sub(c, p, q), q) == p
    ensures Sub(c, c.add(p, q), q) == p
  {
    assert c.onCurve(c.neg(q)) && c.add(c.neg(q), q) == c.zero;
    assert At(p, c.neg(q), q) && At(p, q, c.neg(q));
  }

  lemma AddInjective(c: Curve, p: Bytes, q: Bytes, r: Bytes)
    requires AbelianGroup(c) && c.onCurve(p) && c.onCurve(q) && c.onCurve(r)
    requires c.add(p, r) == c.add(q, r)
    ensures p == q
  {
    SubAdd(c, p, r);
    SubAdd(c, q, r);
  }

  lemma {:induction false} MulOnCurve(c: Curve, k: nat, p: Bytes)
    requires AbelianGroup(c) && c.onCurve(p)
    ensures c.onCurve(Mul(c, k, p))
  {
    if k > 0 { MulOnCurve(c, k - 1, p); }
  }

  lemma {:induction false} MulInSubgroup(c: Curve, k: nat, p: Bytes)
    requires Lawful(c) && c.subgroup(p)
    ensures c.subgroup(Mul(c, k, p))
  {
    if k > 0 { MulInSubgroup(c, k - 1, p); }
  }

  lemma {:induction false} MulAdd(c: Curve, j: nat, k: nat, p: Bytes)
    requires AbelianGroup(c) && c.onCurve(p)
    ensures Mul(c, j + k, p) == c.add(Mul(c, j, p), Mul(c, k, p))
  {
    MulOnCurve(c, k, p);
    if j > 0 {
      MulOnCurve(c, j - 1, p);
      MulAdd(c, j - 1, k, p);
      assert At(p, Mul(c, j - 1, p), Mul(c, k, p));
    } else {
      assert c.add(Mul(c, k, p), c.zero) == c.add(c.zero, Mul(c, k, p));
    }
  }

  lemma {:induction false} MulMul(c: Curve, j: nat, k: nat, p: Bytes)
    requires AbelianGroup(c) && c.onCurve(p)
    ensures j * k >= 0 && Mul(c, j, Mul(c, k, p)) == Mul(c, j * k, p)
  {
    if j > 0 {
      MulMul(c, j - 1, k, p);
      assert j * k == k + (j - 1) * k;
      MulAdd(c, k, (j - 1) * k, p);
    }
  }

  lemma {:induction false} MulZero(c: Curve, k: nat)
    requires AbelianGroup(c)
    ensures Mul(c, k, c.zero) == c.zero
  {
    if k > 0 { MulZero(c, k - 1); }
  }

  lemma MulWholeTurns(c: Curve, q: nat, r: nat, p: Bytes)
    requires Lawful(c) && c.subgroup(p)
    ensures q * c.n >= 0 && Mul(c, q * c.n + r, p) == Mul(c, r, p)
  {
    MulMul(c, q, c.n, p);
    MulZero(c, q);
    MulAdd(c, q * c.n, r, p);
    MulOnCurve(c, r, p);
    assert c.add(Mul(c, r, p), c.zero) == c.add(c.zero, Mul(c, r, p));
  }

  /** Scalars of subgroup points count modulo n only. */
  lemma MulMod(c: Curve, k: nat, p: Bytes)
    requires Lawful(c) && c.subgroup(p)
    ensures Mul(c, k % c.n, p) == Mul(c, k, p)
  {
    var q, r := DivideWithRemainder(k, c.n);
    MulWholeTurns(c, q, r, p);
  }

  lemma MulCong(c: Curve, j: nat, k: nat, p: Bytes)
    requires Lawful(c) && c.subgroup(p) && Cong(j, k, c.n)
    ensures Mul(c, j, p) == Mul(c, k, p)
  {
    MulMod(c, j, p);
    MulMod(c, k, p);
  }

  /** Multiplying by the inverse of k undoes multiplying by k. */
  lemma MulInverse(c: Curve, k: nat, p: Bytes)
    requires Lawful(c) && c.subgroup(p) && k % c.n != 0
    ensures Mul(c, Inverse(k, c.n), Mul(c, k, p)) == p
  {
    var i := Inverse(k, c.n);
    InverseIsInverse(k, c.n);
    assert i * k == k * i;
    MulMul(c, i, k, p);
    MulMod(c, i * k, p);
    assert Mul(c, 1, p) == c.add(p, Mul(c, 0, p)) == p;
  }

  /** In a group of prime order, k times p vanishes only if k does or p does. */
  lemma MulIsZero(c: Curve, k: nat, p: Bytes)
    requires Lawful(c) && c.subgroup(p) && p != c.zero
    ensures Mul(c, k, p) == c.zero <==> k % c.n == 0
  {
    MulMod(c, k, p);
    if k % c.n != 0 {
      MulInverse(c, k, p);
      MulZero(c, Inverse(k, c.n));
    }
  }

  /** Two multiples of a nonzero subgroup point are equal exactly when the scalars are congruent. */
  lemma MulInjective(c: Curve, j: nat, k: nat, p: Bytes)
    requires Lawful(c) && c.subgroup(p) && p != c.zero
    ensures Mul(c, j, p) == Mul(c, k, p) <==> Cong(j, k, c.n)
  {
    MulMod(c, j, p);
    MulMod(c, k, p);
    if Mul(c, j, p) == Mul(c, k, p) {
      if j >= k { MulEqualCong(c, j, k, p); } else { MulEqualCong(c, k, j, p); }
    }
  }

  lemma MulEqualCong(c: Curve, j: nat, k: nat, p: Bytes)
    requires Lawful(c) && c.subgroup(p) && p != c.zero && j >= k && Mul(c, j, p) == Mul(c, k, p)
    ensures Cong(j, k, c.n)
  {
    MulOnCurve(c, k, p);
    MulOnCurve(c, j - k, p);
    MulAdd(c, j - k, k, p);
    MulOnCurve(c, 0, p);
    assert c.add(c.zero, Mul(c, k, p)) == c.add(Mul(c, k, p), c.zero) == Mul(c, k, p);
    AddInjective(c, Mul(c, j - k, p), c.zero, Mul(c, k, p));
    MulIsZero(c, j - k, p);
    CongMod(j - k, c.n);
    CongAdd(j - k, 0, k, k, c.n);
  }
}

/** The designated-verifier proof: a Schnorr proof of "server key or client key". */
module Dvnizk {
  import opened Results
  import opened ByteStrings
  import opened Modular
  import opened PrimeField
  import opened CurveGroup

  /** The domain separator "DVNIZK-ECC". */
  const TAG: Bytes := [68, 86, 78, 73, 90, 75, 45, 69, 67, 67]

  datatype Proof = Proof(r1: Bytes, r2: Bytes, s1: nat, s2: nat, c2: nat)

  /** The public inputs of a proof. */
  datatype Statement = Statement(pServer: Bytes, pClient: Bytes, transcriptHash: Bytes)

  /** Multiplication as libsodium offers it: it raises where the result or an input is degenerate. */
  function PointMul(c: Curve, k: nat, p: Bytes): Result<Bytes>
    requires c.n > 0
  {
    var _ :- EncodeLE(k, 32);
    if !c.subgroup(p) || p == c.zero || k % c.n == 0 then Err(RuntimeError) else Ok(Mul(c, k, p))
  }

  function PointBaseMul(c: Curve, k: nat): Result<Bytes>
    requires c.n > 0
  {
    PointMul(c, k, c.base)
  }

  function PointAdd(c: Curve, p: Bytes, q: Bytes): Result<Bytes> {
    if c.onCurve(p) && c.onCurve(q) then Ok(c.add(p, q)) else Err(RuntimeError)
  }

  function PointSub(c: Curve, p: Bytes, q: Bytes): Result<Bytes> {
    if c.onCurve(p) && c.onCurve(q) then Ok(Sub(c, p, q)) else Err(RuntimeError)
  }

  function Challenge(c: Curve, r1: Bytes, r2: Bytes, st: Statement): (r: nat)
    requires c.n > 0
    ensures r < c.n
  {
    FromLE(c.sha512(TAG + r1 + r2 + st.pServer + st.pClient + st.transcriptHash)) % c.n
  }

  /** What is hashed: the tag, both commitments, both keys and the hash of the handshake, in this order. */
  predicate IsChallengeInput(x: Bytes, r1: Bytes, r2: Bytes, st: Statement) {
    && |x| == 138 + |st.transcriptHash|
    && x[..10] == Ascii("DVNIZK-ECC") && x[10..42] == r1 && x[42..74] == r2
    && x[74..106] == st.pServer && x[106..138] == st.pClient && x[138..] == st.transcriptHash
  }

  predicate PointsHaveLength(r1: Bytes, r2: Bytes, st: Statement) {
    |r1| == |r2| == |st.pServer| == |st.pClient| == 32
  }

  /** The challenge is the number, least significant byte first and modulo n, that the hash of this input encodes. */
  lemma ChallengeHashesAll(c: Curve, r1: Bytes, r2: Bytes, st: Statement, x: Bytes)
    requires c.n > 0 && PointsHaveLength(r1, r2, st) && IsChallengeInput(x, r1, r2, st)
    ensures Challenge(c, r1, r2, st) == FromLE(c.sha512(x)) % c.n
  {
    hide FromLE;
    assert Ascii("DVNIZK-ECC") == TAG;
    var y := TAG + r1 + r2 + st.pServer + st.pClient + st.transcriptHash;
    assert x == x[..10] + x[10..42] + x[42..74] + x[74..106] + x[106..138] + x[138..];
    assert x == y;
  }

  lemma InputExists(r1: Bytes, r2: Bytes, st: Statement) returns (x: Bytes)
    requires PointsHaveLength(r1, r2, st)
    ensures IsChallengeInput(x, r1, r2, st)
  {
    var tag := Ascii("DVNIZK-ECC");
    x := tag + r1 + r2 + st.pServer + st.pClient + st.transcriptHash;
    assert x[..10] == tag && x[10..42] == r1 && x[42..74] == r2;
    assert x[74..106] == st.pServer && x[106..138] == st.pClient && x[138..] == st.transcriptHash;
  }

  /** A hash that tells one input from all others. */
  function Marking(x: Bytes): Bytes -> Bytes {
    (y: Bytes) => if y == x then [1] else [0]
  }

  /** The challenge depends on every single input: whichever of commitments, keys and handshake differ, some hash
      gives another challenge. */
  lemma ChallengeBindsAll(c: Curve, r1: Bytes, r2: Bytes, st: Statement, r1': Bytes, r2': Bytes, st': Statement) returns (h: Bytes -> Bytes)
    requires c.n >= 2 && PointsHaveLength(r1, r2, st) && PointsHaveLength(r1', r2', st')
    requires (r1, r2, st) != (r1', r2', st')
    ensures Challenge(c.(sha512 := h), r1, r2, st) != Challenge(c.(sha512 := h), r1', r2', st')
  {
    hide Challenge;
    var x := InputExists(r1, r2, st);
    var x' := InputExists(r1', r2', st');
    h := Marking(x);
    ChallengeHashesAll(c.(sha512 := h), r1, r2, st, x);
    ChallengeHashesAll(c.(sha512 := h), r1', r2', st', x');
    assert st == Statement(st.pServer, st.pClient, st.transcriptHash) && st' == Statement(st'.pServer, st'.pClient, st'.transcriptHash);
    assert x != x';
    OneByteLE(1);
    OneByteLE(0);
    SmallMod(1, c.n);
    SmallMod(0, c.n);
  }

  lemma OneByteLE(x: Byte)
    ensures FromLE([x]) == x
  {
    assert [x][1..] == [];
  }

  /** The share of the challenge that is left when the other branch took part. */
  function Share(n: nat, ch: nat, part: nat): (r: nat)
    requires n > 0
    ensures r < n
  {
    (ch - part) % n
  }

  /** A Schnorr response. */
  function Respond(n: nat, r: nat, e: nat, x: nat): (s: nat)
    requires n > 0
    ensures s < n
  {
    (r + e * x) % n
  }

  function GenerateProof(c: Curve, r1: nat, c2: nat, s2: nat, xServer: nat, st: Statement): Result<Proof>
    requires c.n > 0
  {
    var r1Point :- PointBaseMul(c, r1);
    var s2G :- PointBaseMul(c, s2);
    var c2Pc :- PointMul(c, c2, st.pClient);
    var r2Point :- PointSub(c, s2G, c2Pc);
    var ch := Challenge(c, r1Point, r2Point, st);
    var c1 := Share(c.n, ch, c2);
    Ok(Proof(r1Point, r2Point, Respond(c.n, r1, c1, xServer), s2, c2))
  }

  function SimulateProof(c: Curve, r2: nat, c1: nat, s1: nat, xClient: nat, st: Statement): Result<Proof>
    requires c.n > 0
  {
    var r2Point :- PointBaseMul(c, r2);
    var s1G :- PointBaseMul(c, s1);
    var c1Ps :- PointMul(c, c1, st.pServer);
    var r1Point :- PointSub(c, s1G, c1Ps);
    var ch := Challenge(c, r1Point, r2Point, st);
    var c2 := Share(c.n, ch, c1);
    Ok(Proof(r1Point, r2Point, s1, Respond(c.n, r2, c2, xClient), c2))
  }

  /** The verification equations under a given challenge. */
  function VerifyWith(c: Curve, proof: Proof, ch: nat, st: Statement): Result<bool>
    requires c.n > 0
  {
    var c1 := Share(c.n, ch, proof.c2);
    var lhs1 :- PointBaseMul(c, proof.s1);
    var c1Ps :- PointMul(c, c1, st.pServer);
    var rhs1 :- PointAdd(c, proof.r1, c1Ps);
    var lhs2 :- PointBaseMul(c, proof.s2);
    var c2Pc :- PointMul(c, proof.c2, st.pClient);
    var rhs2 :- PointAdd(c, proof.r2, c2Pc);
    Ok(lhs1 == rhs1 && lhs2 == rhs2)
  }

  function VerifyProof(c: Curve, proof: Proof, st: Statement): Result<bool>
    requires c.n > 0
  {
    VerifyWith(c, proof, Challenge(c, proof.r1, proof.r2, st), st)
  }

  /** p is the public key of the secret x, and is not the neutral element. */
  ghost predicate KeyPair(c: Curve, x: nat, p: Bytes)
    requires c.n > 0
  {
    x % c.n != 0 && p == Mul(c, x, c.base)
  }

  lemma KeyIsPoint(c: Curve, x: nat, p: Bytes)
    requires Lawful(c) && KeyPair(c, x, p)
    ensures c.subgroup(p) && p != c.zero
  {
    MulInSubgroup(c, x, c.base);
    MulIsZero(c, x, c.base);
  }

  /** s = r + t with t = e*x makes s*G = r*G + e*(x*G). */
  lemma ResponseBalances(c: Curve, r: nat, e: nat, x: nat, t: nat, s: nat)
    requires Lawful(c) && t == e * x && Cong(s, r + t, c.n)
    ensures Mul(c, s, c.base) == c.add(Mul(c, r, c.base), Mul(c, e, Mul(c, x, c.base)))
  {
    MulMul(c, e, x, c.base);
    MulAdd(c, r, t, c.base);
    MulCong(c, s, r + t, c.base);
  }

  /** The commitments and responses of the prover, before any rejection by the library. */
  function ProverTranscript(c: Curve, r1: nat, c2: nat, s2: nat, xServer: nat, st: Statement): Proof
    requires c.n > 0
  {
    var r1Point := Mul(c, r1, c.base);
    var r2Point := Sub(c, Mul(c, s2, c.base), Mul(c, c2, st.pClient));
    var c1 := Share(c.n, Challenge(c, r1Point, r2Point, st), c2);
    Proof(r1Point, r2Point, Respond(c.n, r1, c1, xServer), s2, c2)
  }

  function SimulatorTranscript(c: Curve, r2: nat, c1: nat, s1: nat, xClient: nat, st: Statement): Proof
    requires c.n > 0
  {
    var r2Point := Mul(c, r2, c.base);
    var r1Point := Sub(c, Mul(c, s1, c.base), Mul(c, c1, st.pServer));
    var c2 := Share(c.n, Challenge(c, r1Point, r2Point, st), c1);
    Proof(r1Point, r2Point, s1, Respond(c.n, r2, c2, xClient), c2)
  }

  /** The challenge share of the server branch. */
  function ServerShare(c: Curve, proof: Proof, st: Statement): (r: nat)
    requires c.n > 0
    ensures r < c.n
  {
    Share(c.n, Challenge(c, proof.r1, proof.r2, st), proof.c2)
  }

  /** A point that the library accepts as input. */
  ghost predicate Accepted(c: Curve, p: Bytes) {
    c.subgroup(p) && p != c.zero
  }

  lemma LawfulBasics(c: Curve)
    requires Lawful(c)
    ensures c.n >= 2 && c.n <= Pow256(32) && AbelianGroup(c) && Accepted(c, c.base)
  {
  }

  lemma PointMulOutcome(c: Curve, k: nat, p: Bytes)
    requires Lawful(c) && k < c.n && Accepted(c, p)
    ensures PointMul(c, k, p) == if k == 0 then Err(RuntimeError) else Ok(Mul(c, k, p))
    ensures c.subgroup(Mul(c, k, p)) && c.onCurve(Mul(c, k, p))
  {
    SmallMod(k, c.n);
    MulInSubgroup(c, k, p);
  }

  lemma GenerateOutcome(c: Curve, r1: nat, c2: nat, s2: nat, xServer: nat, st: Statement)
    requires Lawful(c) && r1 < c.n && c2 < c.n && s2 < c.n && Accepted(c, st.pClient)
    ensures GenerateProof(c, r1, c2, s2, xServer, st)
         == if r1 == 0 || c2 == 0 || s2 == 0 then Err(RuntimeError)
            else Ok(ProverTranscript(c, r1, c2, s2, xServer, st))
  {
    hide Lawful, AbelianGroup, Mul, PointMul, Challenge, Share, Respond;
    LawfulBasics(c);
    PointMulOutcome(c, r1, c.base);
    PointMulOutcome(c, s2, c.base);
    PointMulOutcome(c, c2, st.pClient);
  }

  lemma SimulateOutcome(c: Curve, r2: nat, c1: nat, s1: nat, xClient: nat, st: Statement)
    requires Lawful(c) && r2 < c.n && c1 < c.n && s1 < c.n && Accepted(c, st.pServer)
    ensures SimulateProof(c, r2, c1, s1, xClient, st)
         == if r2 == 0 || c1 == 0 || s1 == 0 then Err(RuntimeError)
            else Ok(SimulatorTranscript(c, r2, c1, s1, xClient, st))
  {
    hide Lawful, AbelianGroup, Mul, PointMul, Challenge, Share, Respond;
    LawfulBasics(c);
    PointMulOutcome(c, r2, c.base);
    PointMulOutcome(c, s1, c.base);
    PointMulOutcome(c, c1, st.pServer);
  }

  /** The two equations that verification checks. */
  ghost predicate Balanced(c: Curve, proof: Proof, c1: nat, st: Statement) {
    && Mul(c, proof.s1, c.base) == c.add(proof.r1, Mul(c, c1, st.pServer))
    && Mul(c, proof.s2, c.base) == c.add(proof.r2, Mul(c, proof.c2, st.pClient))
  }

  lemma VerifyOutcome(c: Curve, proof: Proof, st: Statement)
    requires Lawful(c) && proof.s1 < c.n && proof.s2 < c.n && proof.c2 < c.n
    requires Accepted(c, st.pServer) && Accepted(c, st.pClient) && c.onCurve(proof.r1) && c.onCurve(proof.r2)
    ensures var c1 := ServerShare(c, proof, st);
            VerifyProof(c, proof, st) == (
              if c1 == 0 || proof.s1 == 0 || proof.c2 == 0 || proof.s2 == 0 then Err(RuntimeError)
              else Ok(Balanced(c, proof, c1, st)))
  {
    var c1 := ServerShare(c, proof, st);
    PointMulOutcome(c, proof.s1, c.base);
    PointMulOutcome(c, proof.s2, c.base);
    PointMulOutcome(c, c1, st.pServer);
    PointMulOutcome(c, proof.c2, st.pClient);
  }

  lemma ProverBalances(c: Curve, r1: nat, c2: nat, s2: nat, xServer: nat, st: Statement)
    requires Lawful(c) && KeyPair(c, xServer, st.pServer) && Accepted(c, st.pClient)
    ensures var proof := ProverTranscript(c, r1, c2, s2, xServer, st);
            && Balanced(c, proof, ServerShare(c, proof, st), st)
            && c.onCurve(proof.r1) && c.onCurve(proof.r2)
  {
    var proof := ProverTranscript(c, r1, c2, s2, xServer, st);
    var c1 := ServerShare(c, proof, st);
    ResponseOfServer(c, r1, c1, xServer);
    MulInSubgroup(c, r1, c.base);
    MulInSubgroup(c, s2, c.base);
    MulInSubgroup(c, c2, st.pClient);
    SubAdd(c, Mul(c, s2, c.base), Mul(c, c2, st.pClient));
  }

  lemma RespondIs(n: nat, r: nat, e: nat, x: nat) returns (t: nat)
    requires n > 0
    ensures t == e * x && Cong(Respond(n, r, e, x), r + t, n)
  {
    t := e * x;
    CongMod(r + t, n);
  }

  lemma ResponseOfServer(c: Curve, r: nat, e: nat, x: nat)
    requires Lawful(c)
    ensures Mul(c, Respond(c.n, r, e, x), c.base) == c.add(Mul(c, r, c.base), Mul(c, e, Mul(c, x, c.base)))
  {
    hide Lawful, Mul, Respond;
    LawfulBasics(c);
    var t := RespondIs(c.n, r, e, x);
    ResponseBalances(c, r, e, x, t, Respond(c.n, r, e, x));
  }

  /** What the prover makes, the verifier accepts, unless a scalar of the server branch vanishes. */
  lemma Completeness(c: Curve, r1: nat, c2: nat, s2: nat, xServer: nat, st: Statement)
    requires Lawful(c) && r1 < c.n && c2 < c.n && s2 < c.n
    requires KeyPair(c, xServer, st.pServer) && Accepted(c, st.pClient)
    ensures var made := GenerateProof(c, r1, c2, s2, xServer, st);
            && (made.Ok? <==> r1 != 0 && c2 != 0 && s2 != 0)
            && (made.Ok? ==>
                  VerifyProof(c, made.value, st) == (
                    if ServerShare(c, made.value, st) == 0 || made.value.s1 == 0 then Err(RuntimeError) else Ok(true)))
  {
    KeyIsPoint(c, xServer, st.pServer);
    GenerateOutcome(c, r1, c2, s2, xServer, st);
    ProverBalances(c, r1, c2, s2, xServer, st);
    VerifyOutcome(c, ProverTranscript(c, r1, c2, s2, xServer, st), st);
  }

  lemma SimulatorBalances(c: Curve, r2: nat, c1: nat, s1: nat, xClient: nat, st: Statement)
    requires Lawful(c) && c1 < c.n && KeyPair(c, xClient, st.pClient) && Accepted(c, st.pServer)
    ensures var proof := SimulatorTranscript(c, r2, c1, s1, xClient, st);
            && ServerShare(c, proof, st) == c1 && Balanced(c, proof, c1, st)
            && c.onCurve(proof.r1) && c.onCurve(proof.r2)
  {
    var proof := SimulatorTranscript(c, r2, c1, s1, xClient, st);
    ShareTwice(c.n, Challenge(c, proof.r1, proof.r2, st), c1);
    ResponseOfServer(c, r2, proof.c2, xClient);
    MulInSubgroup(c, r2, c.base);
    MulInSubgroup(c, s1, c.base);
    MulInSubgroup(c, c1, st.pServer);
    SubAdd(c, Mul(c, s1, c.base), Mul(c, c1, st.pServer));
  }

  /** Taking both shares out of the challenge leaves what was taken first. */
  lemma ShareTwice(n: nat, ch: nat, part: nat)
    requires n > 0 && part < n
    ensures Share(n, ch, Share(n, ch, part)) == part
  {
    var rest := Share(n, ch, part);
    CongMod(ch - part, n);
    CongAdd(ch, ch, rest, ch - part, n);
    SmallMod(part, n);
  }

  /** Without any secret key: commitments made for the shares c1 and c2 are accepted exactly if the challenge that
      is hashed from them happens to be c1 + c2. */
  lemma AcceptedIffChallengeMet(c: Curve, proof: Proof, c1: nat, st: Statement)
    requires Lawful(c) && 0 < proof.s1 < c.n && 0 < proof.s2 < c.n && 0 < proof.c2 < c.n && 0 < c1 < c.n
    requires Accepted(c, st.pServer) && Accepted(c, st.pClient)
    requires proof.r1 == Sub(c, Mul(c, proof.s1, c.base), Mul(c, c1, st.pServer))
    requires proof.r2 == Sub(c, Mul(c, proof.s2, c.base), Mul(c, proof.c2, st.pClient))
    ensures VerifyProof(c, proof, st) == Ok(true) <==> Cong(Challenge(c, proof.r1, proof.r2, st), c1 + proof.c2, c.n)
  {
    hide Lawful, AbelianGroup, Mul, Challenge, Share, VerifyProof;
    LawfulBasics(c);
    CommitmentOf(c, proof.s1, c1, st.pServer, proof.r1);
    CommitmentOf(c, proof.s2, proof.c2, st.pClient, proof.r2);
    VerifyOutcome(c, proof, st);
    var ch := Challenge(c, proof.r1, proof.r2, st);
    var e := Share(c.n, ch, proof.c2);
    ShareMeets(c.n, ch, proof.c2, c1);
    OnlyOneShare(c, proof.r1, st.pServer, e, c1);
  }

  /** A commitment made backwards from response and share balances with them. */
  lemma CommitmentOf(c: Curve, s: nat, e: nat, p: Bytes, r: Bytes)
    requires Lawful(c) && Accepted(c, p) && r == Sub(c, Mul(c, s, c.base), Mul(c, e, p))
    ensures c.onCurve(r) && Mul(c, s, c.base) == c.add(r, Mul(c, e, p))
  {
    hide Lawful, AbelianGroup, Mul;
    LawfulBasics(c);
    PointOf(c, s, c.base);
    PointOf(c, e, p);
    SubAdd(c, Mul(c, s, c.base), Mul(c, e, p));
  }

  lemma OnlyOneShare(c: Curve, r: Bytes, p: Bytes, e: nat, e': nat)
    requires Lawful(c) && Accepted(c, p) && c.onCurve(r) && e < c.n && e' < c.n
    ensures c.add(r, Mul(c, e, p)) == c.add(r, Mul(c, e', p)) <==> e == e'
  {
    hide Lawful, AbelianGroup, Mul;
    LawfulBasics(c);
    PointOf(c, e, p);
    PointOf(c, e', p);
    MulInjective(c, e, e', p);
    SmallMod(e, c.n);
    SmallMod(e', c.n);
    if c.add(r, Mul(c, e, p)) == c.add(r, Mul(c, e', p)) {
      SameSummand(c, r, Mul(c, e, p), Mul(c, e', p));
    }
  }

  lemma SameSummand(c: Curve, r: Bytes, p: Bytes, q: Bytes)
    requires AbelianGroup(c) && c.onCurve(r) && c.onCurve(p) && c.onCurve(q) && c.add(r, p) == c.add(r, q)
    ensures p == q
  {
    assert c.add(p, r) == c.add(r, p) && c.add(q, r) == c.add(r, q);
    AddInjective(c, p, q, r);
  }

  lemma ShareMeets(n: nat, ch: nat, part: nat, e: nat)
    requires n > 0 && e < n
    ensures Share(n, ch, part) == e <==> Cong(ch, e + part, n)
  {
    CongMod(ch - part, n);
    SmallMod(e, n);
    SmallMod(Share(n, ch, part), n);
    if Share(n, ch, part) == e {
      CongAdd(e, ch - part, part, part, n);
    }
    if Cong(ch, e + part, n) {
      CongAdd(ch, e + part, part, part, n);
    }
  }

  /** The client can simulate: the verifier accepts the simulation under the same condition. */
  lemma SimulationAccepted(c: Curve, r2: nat, c1: nat, s1: nat, xClient: nat, st: Statement)
    requires Lawful(c) && r2 < c.n && c1 < c.n && s1 < c.n
    requires KeyPair(c, xClient, st.pClient) && Accepted(c, st.pServer)
    ensures var made := SimulateProof(c, r2, c1, s1, xClient, st);
            && (made.Ok? <==> r2 != 0 && c1 != 0 && s1 != 0)
            && (made.Ok? ==>
                  VerifyProof(c, made.value, st) == (
                    if made.value.c2 == 0 || made.value.s2 == 0 then Err(RuntimeError) else Ok(true)))
  {
    KeyIsPoint(c, xClient, st.pClient);
    SimulateOutcome(c, r2, c1, s1, xClient, st);
    SimulatorBalances(c, r2, c1, s1, xClient, st);
    VerifyOutcome(c, SimulatorTranscript(c, r2, c1, s1, xClient, st), st);
  }

  /** The coins of one run: (r1, c2, s2) of the prover or (r2, c1, s1) of the simulator. */
  datatype Coins = Coins(nonce: nat, share: nat, response: nat)

  ghost predicate InRange(n: nat, coins: Coins) {
    coins.nonce < n && coins.share < n && coins.response < n
  }

  function Prove(c: Curve, coins: Coins, xServer: nat, st: Statement): Proof
    requires c.n > 0
  {
    ProverTranscript(c, coins.nonce, coins.share, coins.response, xServer, st)
  }

  function Simulate(c: Curve, coins: Coins, xClient: nat, st: Statement): Proof
    requires c.n > 0
  {
    SimulatorTranscript(c, coins.nonce, coins.share, coins.response, xClient, st)
  }

  /** The nonce that makes response answer the challenge share e under the key x. */
  function NonceOf(n: nat, response: nat, e: nat, x: nat): (r: nat)
    requires n > 0
    ensures r < n
  {
    (response - e * x) % n
  }

  /** The simulator coins that reproduce a run of the prover. */
  function ToSimulator(c: Curve, coins: Coins, xServer: nat, xClient: nat, st: Statement): (sim: Coins)
    requires c.n > 0
    ensures InRange(c.n, sim)
  {
    var proof := Prove(c, coins, xServer, st);
    Coins(NonceOf(c.n, proof.s2, proof.c2, xClient), ServerShare(c, proof, st), proof.s1)
  }

  /** The prover coins that reproduce a run of the simulator. */
  function ToProver(c: Curve, sim: Coins, xServer: nat, xClient: nat, st: Statement): (coins: Coins)
    requires c.n > 0
    ensures InRange(c.n, coins)
  {
    var proof := Simulate(c, sim, xClient, st);
    Coins(NonceOf(c.n, proof.s1, ServerShare(c, proof, st), xServer), proof.c2, proof.s2)
  }

  lemma NonceInverts(n: nat, r: nat, s: nat, e: nat, x: nat)
    requires n > 0
    ensures r < n && s == Respond(n, r, e, x) ==> NonceOf(n, s, e, x) == r
    ensures s < n && r == NonceOf(n, s, e, x) ==> Respond(n, r, e, x) == s
  {
    hide Respond, NonceOf;
    var t := RespondIs(n, r, e, x);
    NonceIs(n, s, e, x, t);
    if r < n && s == Respond(n, r, e, x) {
      CongAdd(s, r + t, t, t, n);
      SmallMod(r, n);
    }
    if s < n && r == NonceOf(n, s, e, x) {
      CongMod(s - t, n);
      CongAdd(r, s - t, t, t, n);
      SmallMod(s, n);
      SmallMod(Respond(n, r, e, x), n);
    }
  }

  lemma NonceIs(n: nat, s: nat, e: nat, x: nat, t: nat)
    requires n > 0 && t == e * x
    ensures NonceOf(n, s, e, x) == (s - t) % n
  {
  }

  /** The simulated commitment s*G - e*P is the real one r*G when r answers for P = x*G. */
  lemma CommitmentsAgree(c: Curve, r: nat, s: nat, e: nat, x: nat, p: Bytes)
    requires Lawful(c) && p == Mul(c, x, c.base) && r < c.n && s == Respond(c.n, r, e, x)
    ensures Sub(c, Mul(c, s, c.base), Mul(c, e, p)) == Mul(c, r, c.base)
  {
    hide Respond;
    ResponseOfServer(c, r, e, x);
    MulInSubgroup(c, r, c.base);
    MulInSubgroup(c, x, c.base);
    MulInSubgroup(c, e, p);
    SubAdd(c, Mul(c, r, c.base), Mul(c, e, p));
  }

  /** Exact simulation: on the mapped coins the simulator makes the prover's transcript, and the map undoes. */
  lemma SimulatorReproducesProver(c: Curve, coins: Coins, xServer: nat, xClient: nat, st: Statement)
    requires Lawful(c) && InRange(c.n, coins)
    requires st.pServer == Mul(c, xServer, c.base) && st.pClient == Mul(c, xClient, c.base)
    ensures var sim := ToSimulator(c, coins, xServer, xClient, st);
            && Simulate(c, sim, xClient, st) == Prove(c, coins, xServer, st)
            && ToProver(c, sim, xServer, xClient, st) == coins
  {
    hide Lawful, AbelianGroup, Mul, Share, Respond, NonceOf, Challenge;
    LawfulBasics(c);
    var proof := Prove(c, coins, xServer, st);
    var sim := ToSimulator(c, coins, xServer, xClient, st);
    NonceInverts(c.n, sim.nonce, coins.response, coins.share, xClient);
    NonceInverts(c.n, coins.nonce, proof.s1, sim.share, xServer);
    CommitmentsAgree(c, sim.nonce, coins.response, coins.share, xClient, st.pClient);
    CommitmentsAgree(c, coins.nonce, proof.s1, sim.share, xServer, st.pServer);
    ShareTwice(c.n, Challenge(c, proof.r1, proof.r2, st), coins.share);
  }

  /** The other half of the bijection. */
  lemma ProverReproducesSimulator(c: Curve, sim: Coins, xServer: nat, xClient: nat, st: Statement)
    requires Lawful(c) && InRange(c.n, sim)
    requires st.pServer == Mul(c, xServer, c.base) && st.pClient == Mul(c, xClient, c.base)
    ensures var coins := ToProver(c, sim, xServer, xClient, st);
            && Prove(c, coins, xServer, st) == Simulate(c, sim, xClient, st)
            && ToSimulator(c, coins, xServer, xClient, st) == sim
  {
    hide Lawful, AbelianGroup, Mul, Share, Respond, NonceOf, Challenge;
    LawfulBasics(c);
    var proof := Simulate(c, sim, xClient, st);
    var coins := ToProver(c, sim, xServer, xClient, st);
    ShareTwice(c.n, Challenge(c, proof.r1, proof.r2, st), sim.share);
    NonceInverts(c.n, coins.nonce, sim.response, sim.share, xServer);
    NonceInverts(c.n, sim.nonce, proof.s2, coins.share, xClient);
    CommitmentsAgree(c, coins.nonce, sim.response, sim.share, xServer, st.pServer);
    CommitmentsAgree(c, sim.nonce, proof.s2, coins.share, xClient, st.pClient);
  }

  /** With the library's rejections: the simulator yields the prover's proof exactly when the
      verifier accepts that proof and its second commitment is not the neutral element. */
  lemma SimulatableIffAccepted(c: Curve, coins: Coins, xServer: nat, xClient: nat, st: Statement)
    requires Lawful(c) && InRange(c.n, coins)
    requires KeyPair(c, xServer, st.pServer) && KeyPair(c, xClient, st.pClient)
    ensures var made := GenerateProof(c, coins.nonce, coins.share, coins.response, xServer, st);
            var sim := ToSimulator(c, coins, xServer, xClient, st);
            made.Ok? ==>
              SimulateProof(c, sim.nonce, sim.share, sim.response, xClient, st) == (
                if VerifyProof(c, made.value, st) == Ok(true) && made.value.r2 != c.zero then made
                else Err(RuntimeError))
  {
    hide Lawful, AbelianGroup, Mul, Share, Respond, NonceOf, Challenge, GenerateProof, SimulateProof, VerifyProof;
    LawfulBasics(c);
    var sim := ToSimulator(c, coins, xServer, xClient, st);
    KeyIsPoint(c, xServer, st.pServer);
    KeyIsPoint(c, xClient, st.pClient);
    Completeness(c, coins.nonce, coins.share, coins.response, xServer, st);
    GenerateOutcome(c, coins.nonce, coins.share, coins.response, xServer, st);
    SimulateOutcome(c, sim.nonce, sim.share, sim.response, xClient, st);
    SimulatorReproducesProver(c, coins, xServer, xClient, st);
    MulIsZero(c, sim.nonce, c.base);
    SmallMod(sim.nonce, c.n);
  }

  /** (a - b) modulo n. */
  function Difference(n: nat, a: nat, b: nat): (r: nat)
    requires n > 0
    ensures r < n
  {
    (a - b) % n
  }

  lemma DifferenceAdds(n: nat, a: nat, b: nat)
    requires n > 0
    ensures Cong(Difference(n, a, b) + b, a, n)
    ensures Difference(n, a, b) == 0 <==> Cong(a, b, n)
  {
    CongMod(a - b, n);
    CongAdd(Difference(n, a, b), a - b, b, b, n);
    if Cong(a, b, n) { CongAdd(a, b, b, b, n); }
  }

  /** (s - s') / (e - e'), the secret that two responses to one commitment reveal. */
  function Extract(n: nat, s: nat, s': nat, e: nat, e': nat): nat
    requires n >= 2
  {
    Inverse(Difference(n, e, e'), n) * Difference(n, s, s')
  }

  /** Two balanced responses to the commitment r under distinct shares reveal the key of p. */
  lemma BranchExtracts(c: Curve, r: Bytes, p: Bytes, s: nat, s': nat, e: nat, e': nat)
    requires Lawful(c) && c.onCurve(r) && c.subgroup(p)
    requires Mul(c, s, c.base) == c.add(r, Mul(c, e, p))
    requires Mul(c, s', c.base) == c.add(r, Mul(c, e', p))
    requires Difference(c.n, e, e') != 0
    ensures Mul(c, Extract(c.n, s, s', e, e'), c.base) == p
  {
    hide Difference, Inverse;
    LawfulBasics(c);
    var ds, de := Difference(c.n, s, s'), Difference(c.n, e, e');
    DifferencesBalance(c, r, p, s, s', e, e');
    SmallMod(de, c.n);
    MulInverse(c, de, p);
    MulMul(c, Inverse(de, c.n), ds, c.base);
  }

  lemma DifferencesBalance(c: Curve, r: Bytes, p: Bytes, s: nat, s': nat, e: nat, e': nat)
    requires Lawful(c) && c.onCurve(r) && c.subgroup(p)
    requires Mul(c, s, c.base) == c.add(r, Mul(c, e, p))
    requires Mul(c, s', c.base) == c.add(r, Mul(c, e', p))
    ensures Mul(c, Difference(c.n, s, s'), c.base) == Mul(c, Difference(c.n, e, e'), p)
  {
    hide Difference, Lawful, Mul;
    LawfulBasics(c);
    var x, d := Mul(c, Difference(c.n, s, s'), c.base), Mul(c, Difference(c.n, e, e'), p);
    var f, g := Mul(c, e', p), Mul(c, s', c.base);
    DifferenceSplits(c, s, s', c.base);
    DifferenceSplits(c, e, e', p);
    Exchange(c, r, d, f);
    AddInjective(c, x, d, g);
  }

  lemma DifferenceSplits(c: Curve, a: nat, b: nat, p: Bytes)
    requires Lawful(c) && c.subgroup(p)
    ensures Mul(c, a, p) == c.add(Mul(c, Difference(c.n, a, b), p), Mul(c, b, p))
    ensures c.onCurve(Mul(c, Difference(c.n, a, b), p)) && c.onCurve(Mul(c, b, p))
  {
    hide Difference, Lawful, Mul;
    LawfulBasics(c);
    var d := Difference(c.n, a, b);
    PointOf(c, d, p);
    PointOf(c, b, p);
    DifferenceAdds(c.n, a, b);
    MulAdd(c, d, b, p);
    MulCong(c, d + b, a, p);
  }

  lemma PointOf(c: Curve, k: nat, p: Bytes)
    requires Lawful(c) && c.subgroup(p)
    ensures c.onCurve(Mul(c, k, p)) && c.onCurve(p)
  {
    MulInSubgroup(c, k, p);
  }

  lemma Exchange(c: Curve, r: Bytes, d: Bytes, f: Bytes)
    requires AbelianGroup(c) && c.onCurve(r) && c.onCurve(d) && c.onCurve(f)
    ensures c.add(r, c.add(d, f)) == c.add(d, c.add(r, f))
  {
    assert At(r, d, f) && At(d, r, f);
    assert c.add(r, d) == c.add(d, r);
  }

  lemma AcceptanceMeans(c: Curve, proof: Proof, ch: nat, st: Statement)
    requires c.n > 0 && VerifyWith(c, proof, ch, st) == Ok(true)
    ensures c.onCurve(proof.r1) && c.onCurve(proof.r2) && c.subgroup(st.pServer) && c.subgroup(st.pClient)
    ensures Balanced(c, proof, Share(c.n, ch, proof.c2), st)
  {
    hide Share, Mul;
  }

  /** Special soundness: two accepting proofs on the same commitments but for different challenges
      reveal the secret key of the server or that of the client. */
  lemma SpecialSoundness(c: Curve, proof: Proof, proof': Proof, ch: nat, ch': nat, st: Statement)
    requires Lawful(c) && proof.r1 == proof'.r1 && proof.r2 == proof'.r2
    requires VerifyWith(c, proof, ch, st) == Ok(true) && VerifyWith(c, proof', ch', st) == Ok(true)
    requires !Cong(ch, ch', c.n)
    ensures var c1, c1' := Share(c.n, ch, proof.c2), Share(c.n, ch', proof'.c2);
            && (Difference(c.n, c1, c1') != 0 || Difference(c.n, proof.c2, proof'.c2) != 0)
            && (Difference(c.n, c1, c1') != 0 ==>
                  Mul(c, Extract(c.n, proof.s1, proof'.s1, c1, c1'), c.base) == st.pServer)
            && (Difference(c.n, proof.c2, proof'.c2) != 0 ==>
                  Mul(c, Extract(c.n, proof.s2, proof'.s2, proof.c2, proof'.c2), c.base) == st.pClient)
  {
    hide Lawful, Share, Difference, Extract, VerifyWith, Mul;
    LawfulBasics(c);
    AcceptanceMeans(c, proof, ch, st);
    AcceptanceMeans(c, proof', ch', st);
    var c1, c1' := Share(c.n, ch, proof.c2), Share(c.n, ch', proof'.c2);
    SharesDiffer(c.n, ch, ch', proof.c2, proof'.c2);
    if Difference(c.n, c1, c1') != 0 {
      BranchExtracts(c, proof.r1, st.pServer, proof.s1, proof'.s1, c1, c1');
    }
    if Difference(c.n, proof.c2, proof'.c2) != 0 {
      BranchExtracts(c, proof.r2, st.pClient, proof.s2, proof'.s2, proof.c2, proof'.c2);
    }
  }

  /** What is extracted is no other number than a secret key, modulo n: a point has one logarithm only. */
  lemma ExtractedKeyIsTheKey(c: Curve, proof: Proof, proof': Proof, ch: nat, ch': nat, st: Statement, xServer: nat, xClient: nat)
    requires Lawful(c) && proof.r1 == proof'.r1 && proof.r2 == proof'.r2
    requires VerifyWith(c, proof, ch, st) == Ok(true) && VerifyWith(c, proof', ch', st) == Ok(true)
    requires !Cong(ch, ch', c.n)
    requires st.pServer == Mul(c, xServer, c.base) && st.pClient == Mul(c, xClient, c.base)
    ensures var c1, c1' := Share(c.n, ch, proof.c2), Share(c.n, ch', proof'.c2);
            || (Difference(c.n, c1, c1') != 0 && Cong(Extract(c.n, proof.s1, proof'.s1, c1, c1'), xServer, c.n))
            || (Difference(c.n, proof.c2, proof'.c2) != 0
                && Cong(Extract(c.n, proof.s2, proof'.s2, proof.c2, proof'.c2), xClient, c.n))
  {
    hide AbelianGroup, Share, Difference, Extract, VerifyWith, Mul;
    var c1, c1' := Share(c.n, ch, proof.c2), Share(c.n, ch', proof'.c2);
    SpecialSoundness(c, proof, proof', ch, ch', st);
    MulInjective(c, Extract(c.n, proof.s1, proof'.s1, c1, c1'), xServer, c.base);
    MulInjective(c, Extract(c.n, proof.s2, proof'.s2, proof.c2, proof'.c2), xClient, c.base);
  }

  lemma SharesDiffer(n: nat, ch: nat, ch': nat, part: nat, part': nat)
    requires n > 0 && !Cong(ch, ch', n)
    ensures Difference(n, Share(n, ch, part), Share(n, ch', part')) != 0 || Difference(n, part, part') != 0
  {
    hide Difference;
    var e, e' := Share(n, ch, part), Share(n, ch', part');
    DifferenceAdds(n, e, e');
    DifferenceAdds(n, part, part');
    SharesAddUp(n, ch, part);
    SharesAddUp(n, ch', part');
    if Cong(e, e', n) && Cong(part, part', n) {
      CongAdd(e, e', part, part', n);
    }
  }

  lemma SharesAddUp(n: nat, ch: nat, part: nat)
    requires n > 0
    ensures Cong(Share(n, ch, part) + part, ch, n)
  {
    CongMod(ch - part, n);
    CongAdd(Share(n, ch, part), ch - part, part, part, n);
  }

  function SerializeProof(proof: Proof): Result<Bytes> {
    var s1 :- EncodeLE(proof.s1, 32);
    var s2 :- EncodeLE(proof.s2, 32);
    var c2 :- EncodeLE(proof.c2, 32);
    Ok(proof.r1 + proof.r2 + s1 + s2 + c2)
  }

  function DeserializeProof(n: nat, data: Bytes): Result<Proof>
    requires n > 0
  {
    if |data| != 160 then Err(ValueError)
    else Ok(Proof(data[0..32], data[32..64],
                  FromLE(data[64..96]) % n, FromLE(data[96..128]) % n, FromLE(data[128..160]) % n))
  }

  /** A proof with reduced scalars survives the wire. */
  lemma WireRoundTrip(n: nat, proof: Proof)
    requires 0 < n <= Pow256(32) && |proof.r1| == 32 && |proof.r2| == 32
    requires proof.s1 < n && proof.s2 < n && proof.c2 < n
    ensures var wire := SerializeProof(proof);
            && wire.Ok? && |wire.value| == 160 && DeserializeProof(n, wire.value) == Ok(proof)
            && wire.value[..32] == proof.r1 && wire.value[32..64] == proof.r2 && FromLE(wire.value[64..96]) == proof.s1
            && FromLE(wire.value[96..128]) == proof.s2 && FromLE(wire.value[128..]) == proof.c2
  {
    hide Pow256, FromLE, ToLE;
    var s1, s2, c2 := ToLE(proof.s1, 32), ToLE(proof.s2, 32), ToLE(proof.c2, 32);
    var data := proof.r1 + proof.r2 + s1 + s2 + c2;
    assert data[0..32] == proof.r1 && data[32..64] == proof.r2;
    assert data[64..96] == s1 && data[96..128] == s2 && data[128..160] == c2 == data[128..];
    assert data[..32] == data[0..32];
    SmallMod(proof.s1, n);
    SmallMod(proof.s2, n);
    SmallMod(proof.c2, n);
  }

  /** Decoding and encoding again gives the same bytes exactly when no scalar was reduced. */
  lemma ReencodeIffReduced(n: nat, data: Bytes)
    requires 0 < n <= Pow256(32) && |data| == 160
    ensures SerializeProof(DeserializeProof(n, data).value) == Ok(data)
       <==> FromLE(data[64..96]) < n && FromLE(data[96..128]) < n && FromLE(data[128..160]) < n
  {
    hide Pow256, FromLE, ToLE;
    var a, b, d := data[64..96], data[96..128], data[128..160];
    ScalarBlock(n, a);
    ScalarBlock(n, b);
    ScalarBlock(n, d);
    var again := data[0..32] + data[32..64] + ToLE(FromLE(a) % n, 32) + ToLE(FromLE(b) % n, 32) + ToLE(FromLE(d) % n, 32);
    assert again[64..96] == ToLE(FromLE(a) % n, 32);
    assert again[96..128] == ToLE(FromLE(b) % n, 32);
    assert again[128..160] == ToLE(FromLE(d) % n, 32);
    assert data == data[0..32] + data[32..64] + a + b + d;
    assert SerializeProof(DeserializeProof(n, data).value) == Ok(again);
  }

  lemma ScalarBlock(n: nat, b: Bytes)
    requires 0 < n <= Pow256(32) && |b| == 32
    ensures FromLE(b) % n < Pow256(32)
    ensures ToLE(FromLE(b) % n, 32) == b <==> FromLE(b) < n
  {
    hide Pow256, FromLE, ToLE;
    ToLEFromLE(b);
    CongMod(FromLE(b), n);
    if FromLE(b) < n { SmallMod(FromLE(b), n); }
  }

  /** What the prover makes is judged by the verifier as it was before the wire. */
  lemma TransportKeepsProof(c: Curve, r1: nat, c2: nat, s2: nat, xServer: nat, st: Statement)
    requires Lawful(c) && r1 < c.n && c2 < c.n && s2 < c.n
    requires KeyPair(c, xServer, st.pServer) && Accepted(c, st.pClient)
    ensures var made := GenerateProof(c, r1, c2, s2, xServer, st);
            made.Ok? ==>
              var wire := SerializeProof(made.value);
              wire.Ok? && |wire.value| == 160 && DeserializeProof(c.n, wire.value) == made
  {
    hide SerializeProof, DeserializeProof, GenerateProof, Mul, Challenge, Share, Respond;
    GenerateOutcome(c, r1, c2, s2, xServer, st);
    var proof := ProverTranscript(c, r1, c2, s2, xServer, st);
    ProverBalances(c, r1, c2, s2, xServer, st);
    WireRoundTrip(c.n, proof);
  }
}

/** The integers modulo a prime, encoded in 32 bytes: a curve that meets every assumption. */
module IntegersModulo {
  import opened Results
  import opened ByteStrings
  import opened Modular
  import opened PrimeField
  import opened CurveGroup
  import opened Dvnizk

  function Reduced(n: nat, p: Bytes): bool {
    |p| == 32 && FromLE(p) < n
  }

  function Residue(n: nat, x: int): (p: Bytes)
    requires 0 < n <= Pow256(32)
    ensures Reduced(n, p) && FromLE(p) == x % n
  {
    ToLE(x % n, 32)
  }

  function Sum(n: nat, p: Bytes, q: Bytes): (r: Bytes)
    requires 0 < n <= Pow256(32)
    ensures Reduced(n, r)
  {
    Residue(n, FromLE(p) + FromLE(q))
  }

  function Negation(n: nat, p: Bytes): (r: Bytes)
    requires 0 < n <= Pow256(32)
    ensures Reduced(n, r)
  {
    Residue(n, 0 - (FromLE(p) as int))
  }

  function Residues(n: nat): Curve
    requires 0 < n <= Pow256(32)
  {
    Curve(p => Reduced(n, p), p => Reduced(n, p),
          (p, q) => Sum(n, p, q), p => Negation(n, p),
          Residue(n, 0), Residue(n, 1), n, x => Zeros(64))
  }

  lemma SameResidue(n: nat, x: int, y: int)
    requires 0 < n <= Pow256(32) && Cong(x, y, n)
    ensures Residue(n, x) == Residue(n, y)
  {
  }

  lemma ResidueOf(n: nat, p: Bytes)
    requires 0 < n <= Pow256(32) && Reduced(n, p)
    ensures Residue(n, FromLE(p)) == p && Cong(FromLE(p), FromLE(p), n)
  {
    hide Pow256, FromLE, ToLE;
    SmallMod(FromLE(p), n);
    ToLEFromLE(p);
  }

  lemma {:induction false} MulIsProduct(n: nat, k: nat, p: Bytes)
    requires 0 < n <= Pow256(32) && Reduced(n, p)
    ensures Mul(Residues(n), k, p) == Residue(n, k * FromLE(p))
  {
    hide Pow256, FromLE, ToLE;
    var x := FromLE(p);
    if k == 0 {
      assert 0 * x == 0;
    } else {
      MulIsProduct(n, k - 1, p);
      assert k * x == x + (k - 1) * x;
      CongMod((k - 1) * x, n);
      CongAdd(x, x, (k - 1) * x % n, (k - 1) * x, n);
      SameResidue(n, x + (k - 1) * x % n, k * x);
    }
  }

  lemma SumAssociates(n: nat, p: Bytes, q: Bytes, r: Bytes)
    requires 0 < n <= Pow256(32)
    ensures Sum(n, Sum(n, p, q), r) == Sum(n, p, Sum(n, q, r))
  {
    hide Pow256, FromLE, ToLE, Residue;
    var x, y, z := FromLE(p), FromLE(q), FromLE(r);
    CongMod(x + y, n);
    CongMod(y + z, n);
    CongAdd((x + y) % n, x + y, z, z, n);
    CongAdd((y + z) % n, y + z, x, x, n);
    SameResidue(n, (x + y) % n + z, x + (y + z) % n);
  }

  lemma SumCommutes(n: nat, p: Bytes, q: Bytes)
    requires 0 < n <= Pow256(32)
    ensures Sum(n, p, q) == Sum(n, q, p)
  {
    hide Pow256, FromLE, ToLE, Residue;
    assert FromLE(p) + FromLE(q) == FromLE(q) + FromLE(p);
  }

  lemma SumCancels(n: nat, p: Bytes)
    requires 0 < n <= Pow256(32) && Reduced(n, p)
    ensures Sum(n, p, Residue(n, 0)) == p && Sum(n, p, Negation(n, p)) == Residue(n, 0)
  {
    hide Pow256, FromLE, ToLE, Residue;
    var x: int := FromLE(p);
    ResidueOf(n, p);
    SmallMod(0, n);
    CongMod(0 - x, n);
    CongAdd((0 - x) % n, 0 - x, x, x, n);
    SameResidue(n, x + (0 - x) % n, 0);
  }

  lemma ResiduesFormGroup(n: nat)
    requires 0 < n <= Pow256(32)
    ensures AbelianGroup(Residues(n))
  {
    hide Pow256, FromLE, ToLE, Residue, Sum, Negation;
    var c := Residues(n);
    assert c.onCurve(c.zero);
    assert forall p, q, r {:trigger At(p, q, r)} :: At(p, q, r) && c.onCurve(p) && c.onCurve(q) && c.onCurve(r) ==>
      c.add(c.add(p, q), r) == c.add(p, c.add(q, r)) by
    {
      forall p, q, r ensures c.add(c.add(p, q), r) == c.add(p, c.add(q, r)) { SumAssociates(n, p, q, r); }
    }
    assert forall p, q {:trigger c.add(p, q)} :: c.onCurve(p) && c.onCurve(q) ==>
      c.onCurve(c.add(p, q)) && c.add(p, q) == c.add(q, p) by
    {
      forall p, q ensures Sum(n, p, q) == Sum(n, q, p) { SumCommutes(n, p, q); }
    }
    assert forall p {:trigger c.onCurve(p)} :: c.onCurve(p) ==> |p| == 32 && c.add(p, c.zero) == p by {
      forall p | Reduced(n, p) ensures Sum(n, p, Residue(n, 0)) == p { SumCancels(n, p); }
    }
    assert forall p {:trigger c.neg(p)} :: c.onCurve(p) ==> c.onCurve(c.neg(p)) && c.add(p, c.neg(p)) == c.zero by {
      forall p | Reduced(n, p) ensures Sum(n, p, Negation(n, p)) == Residue(n, 0) { SumCancels(n, p); }
    }
  }

  /** The assumptions on the curve can be met, for every prime order below 2^256. */
  lemma ResiduesAreLawful(n: nat)
    requires IsPrime(n) && n <= Pow256(32)
    ensures Lawful(Residues(n))
  {
    hide Pow256, FromLE, ToLE;
    var c := Residues(n);
    ResiduesFormGroup(n);
    forall p | Reduced(n, p) ensures Mul(c, n, p) == c.zero {
      MulIsProduct(n, n, p);
      var x := FromLE(p);
      AddMultiple(0, x, n);
      assert n * x == 0 + x * n;
      SameResidue(n, n * x, 0);
    }
    SmallMod(0, n);
    SmallMod(1, n);
    assert FromLE(c.zero) == 0 && FromLE(c.base) == 1;
  }

  //
  // An honest proof that the verifier raises on
  //

  lemma {:induction false} ZerosAreZero(k: nat)
    ensures FromLE(Zeros(k)) == 0
  {
    if k > 0 {
      assert Zeros(k)[1..] == Zeros(k - 1);
      ZerosAreZero(k - 1);
    }
  }

  lemma ResponseVanishes(n: nat, r: nat)
    requires 0 < r < n
    ensures Respond(n, r, Share(n, 0, r), 1) == 0
  {
    AddMultiple(0 - r, 1, n);
    SmallMod(n - r, n);
    AddMultiple(0, 1, n);
    SmallMod(0, n);
    assert r + (n - r) * 1 == 0 + 1 * n;
  }

  /** The prover is honest and succeeds, yet the verifier raises. */
  ghost predicate HonestYetRaising(c: Curve, r1: nat, c2: nat, s2: nat, xServer: nat, st: Statement)
    requires c.n > 0
  {
    var made := GenerateProof(c, r1, c2, s2, xServer, st);
    KeyPair(c, xServer, st.pServer) && made.Ok? && VerifyProof(c, made.value, st) == Err(RuntimeError)
  }

  /** Where the challenge is 0 and the secret key 1, an honest prover whose nonce is the other share makes a
      proof with a vanishing response, and the verifier raises instead of accepting. */
  lemma HonestProofRaises(n: nat, r1: nat, s2: nat, transcriptHash: Bytes)
    requires IsPrime(n) && n <= Pow256(32) && 0 < r1 < n && 0 < s2 < n
    ensures var c := Residues(n);
            Lawful(c) && HonestYetRaising(c, r1, r1, s2, 1, Statement(c.base, c.base, transcriptHash))
  {
    hide Pow256, FromLE, ToLE, Lawful, AbelianGroup, VerifyProof, GenerateProof;
    var c := Residues(n);
    var st := Statement(c.base, c.base, transcriptHash);
    ResiduesAreLawful(n);
    LawfulBasics(c);
    BaseIsKey(n);
    GenerateOutcome(c, r1, r1, s2, 1, st);
    Completeness(c, r1, r1, s2, 1, st);
    ZerosAreZero(64);
    SmallMod(0, n);
    ResponseVanishes(n, r1);
  }

  lemma BaseIsKey(n: nat)
    requires IsPrime(n) && n <= Pow256(32)
    ensures var c := Residues(n); KeyPair(c, 1, c.base)
  {
    hide Pow256, FromLE, ToLE;
    var c := Residues(n);
    SmallMod(1, n);
    MulIsProduct(n, 1, c.base);
    assert 1 * FromLE(c.base) == 1;
  }
}
