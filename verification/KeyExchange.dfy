/** Numbers as byte strings of their own length. */
module Numbers {
  import opened ByteStrings

  function ByteLength(n: nat): nat {
    if n == 0 then 0 else 1 + ByteLength(n / 256)
  }

  function BitLength(n: nat): nat {
    if n == 0 then 0 else 1 + BitLength(n / 2)
  }

  lemma {:induction false} FitsByteLength(n: nat)
    ensures n < Pow256(ByteLength(n))
  {
    if n != 0 {
      FitsByteLength(n / 256);
      assert n < 256 * (n / 256 + 1) <= 256 * Pow256(ByteLength(n / 256));
    }
  }

  /** A shorter string encodes a smaller number. */
  lemma {:induction false} ByteLengthMonotone(m: nat, n: nat)
    requires m <= n
    ensures ByteLength(m) <= ByteLength(n)
  {
    if m != 0 {
      ByteLengthMonotone(m / 256, n / 256);
    }
  }

  lemma {:induction false} ByteLengthLeast(n: nat, k: nat)
    requires n < Pow256(k)
    ensures ByteLength(n) <= k
  {
    if n != 0 {
      assert k > 0;
      ByteLengthLeast(n / 256, k - 1);
    }
  }

  /** numberToByteArray without a length: as few bytes as possible, but one for zero. */
  function NumberToBytes(n: nat): (b: Bytes)
    ensures FromBE(b) == n && b != []
  {
    FitsByteLength(n);
    if n == 0 then
      assert [0][..0] == [];
      [0]
    else ToBE(n, ByteLength(n))
  }

  /** numberToByteArray in k bytes: padded with zeros, or cut to the low bytes. */
  function NumberToFixedBytes(n: nat, k: nat): (b: Bytes)
    ensures |b| == k
    ensures n < Pow256(k) ==> FromBE(b) == n
  {
    FitsByteLength(n);
    if k < ByteLength(n) then
      if n < Pow256(k) then
        ByteLengthLeast(n, k);
        assert false;
        Zeros(k)
      else ToBE(n, ByteLength(n))[ByteLength(n) - k..]
    else
      Pow256Monotone(ByteLength(n), k);
      ToBE(n, k)
  }

  lemma {:induction false} Pow256Monotone(j: nat, k: nat)
    requires j <= k
    ensures Pow256(j) <= Pow256(k)
  {
    if j < k {
      Pow256Monotone(j, k - 1);
    }
  }
}

/** SRP (section 2.6 of RFC 5054) on both sides. */
module Srp {
  import opened Results
  import opened ByteStrings
  import opened Modular
  import opened PrimeField
  import opened Numbers

  /** The verifier database's entry for a user: group, salt and verifier. */
  datatype Entry = Entry(N: nat, g: nat, salt: Bytes, v: nat)

  /** What the server sends. */
  datatype Params = Params(N: nat, g: nat, salt: Bytes, B: nat)

  datatype Limits = Limits(known: set<(nat, nat)>, minKeySize: nat, maxKeySize: nat)

  const COLON: Byte := 58

  function MakeX(sha1: Bytes -> Bytes, salt: Bytes, username: Bytes, password: Bytes): Result<nat> {
    if |username| >= 256 || |salt| >= 256 then Err(ValueError)
    else Ok(FromBE(sha1(salt + sha1(username + [COLON] + password))))
  }

  /** x in at least as many bytes as n has. */
  function Pad(n: nat, x: nat): (b: Bytes)
    ensures FromBE(b) == x && |b| >= |NumberToBytes(n)|
  {
    var length, b := |NumberToBytes(n)|, NumberToBytes(x);
    if |b| < length then
      LeadingZeros(length - |b|, b);
      Zeros(length - |b|) + b
    else b
  }

  function MakeU(sha1: Bytes -> Bytes, N: nat, A: nat, B: nat): nat {
    FromBE(sha1(Pad(N, A) + Pad(N, B)))
  }

  function MakeK(sha1: Bytes -> Bytes, N: nat, g: nat): nat {
    FromBE(sha1(NumberToBytes(N) + Pad(N, g)))
  }

  lemma PadLength(n: nat, x: nat)
    requires x <= n
    ensures |Pad(n, x)| == |NumberToBytes(n)|
  {
    ByteLengthMonotone(x, n);
  }

  /** What padding is for: residues are told apart by what is hashed, each in its own place. */
  lemma ScramblingInputInjective(N: nat, A: nat, B: nat, A': nat, B': nat)
    requires A < N && B < N && A' < N && B' < N && Pad(N, A) + Pad(N, B) == Pad(N, A') + Pad(N, B')
    ensures A == A' && B == B'
  {
    PadLength(N, A);
    PadLength(N, A');
    var a, b, a', b' := Pad(N, A), Pad(N, B), Pad(N, A'), Pad(N, B');
    assert (a + b)[..|a|] == a && (a' + b')[..|a|] == a';
    assert (a + b)[|a|..] == b && (a' + b')[|a|..] == b';
  }

  /** Of what the three hashes are taken: salt and the hash of user and password (section 2.4 of RFC 5054), the two
      public values, and group and generator (sections 2.6 and 2.5.3), the values padded to the length of N. */
  lemma HashInputs(sha1: Bytes -> Bytes, N: nat, g: nat, A: nat, B: nat, salt: Bytes, user: Bytes, password: Bytes, x: Bytes, y: Bytes)
    requires A < N && B < N && g < N && |user| < 256 && |salt| < 256
    requires var n := |NumberToBytes(N)|;
             |x| == |y| == 2 * n && FromBE(x[..n]) == A && FromBE(x[n..]) == B && FromBE(y[..n]) == N && FromBE(y[n..]) == g
    ensures MakeU(sha1, N, A, B) == FromBE(sha1(x)) && MakeK(sha1, N, g) == FromBE(sha1(y))
    ensures MakeX(sha1, salt, user, password) == Ok(FromBE(sha1(salt + sha1(user + Ascii(":") + password))))
  {
    hide FromBE, ToBE, NumberToBytes, Pad;
    var n := |NumberToBytes(N)|;
    PadLength(N, A);
    PadLength(N, B);
    PadLength(N, g);
    SameNumber(x[..n], Pad(N, A));
    SameNumber(x[n..], Pad(N, B));
    SameNumber(y[..n], NumberToBytes(N));
    SameNumber(y[n..], Pad(N, g));
    assert x == x[..n] + x[n..] && y == y[..n] + y[n..];
    assert Ascii(":") == [COLON];
  }

  lemma SameNumber(a: Bytes, b: Bytes)
    requires |a| == |b| && FromBE(a) == FromBE(b)
    ensures a == b
  {
    ToBEFromBE(a);
    ToBEFromBE(b);
  }

  /** B - k v modulo N. */
  function Unmask(N: nat, B: nat, k: nat, v: nat): (r: nat)
    requires N >= 1
  {
    (B - k * v) % N
  }

  /** a + u x. */
  function ClientExponent(a: nat, u: nat, x: nat): nat {
    ProductNonnegative(u, x);
    a + u * x
  }

  /** A v^u modulo N. */
  function ServerBase(N: nat, A: nat, v: nat, u: nat): (r: nat)
    requires N >= 1
  {
    (A * PowMod(v, u, N)) % N
  }

  function ServerPublic(sha1: Bytes -> Bytes, entry: Entry, b: nat): (B: nat)
    requires entry.N >= 1
    ensures B < entry.N
  {
    (PowMod(entry.g, b, entry.N) + MakeK(sha1, entry.N, entry.g) * entry.v) % entry.N
  }

  /** The server's premaster secret from the client's public value. */
  function ServerSecret(sha1: Bytes -> Bytes, N: nat, v: nat, b: nat, B: nat, A: nat): Result<Bytes>
    requires N >= 1
  {
    if A % N == 0 then Err(IllegalParameter)
    else Ok(NumberToBytes(PowMod(ServerBase(N, A, v, MakeU(sha1, N, A, B)), b, N)))
  }

  /** The client's public value and premaster secret from what the server sent. */
  function ClientSecret(sha1: Bytes -> Bytes, limits: Limits, p: Params, username: Bytes, password: Bytes, a: nat)
    : Result<(nat, Bytes)>
    requires forall k :: k in limits.known ==> k.1 >= 1
  {
    if (p.g, p.N) !in limits.known then Err(InsufficientSecurity)
    else if BitLength(p.N) < limits.minKeySize || BitLength(p.N) > limits.maxKeySize then Err(InsufficientSecurity)
    else if p.B % p.N == 0 then Err(IllegalParameter)
    else
      var A := PowMod(p.g, a, p.N);
      var x :- MakeX(sha1, p.salt, username, password);
      var v := PowMod(p.g, x, p.N);
      var u := MakeU(sha1, p.N, A, p.B);
      var k := MakeK(sha1, p.N, p.g);
      Ok((A, NumberToBytes(PowMod(Unmask(p.N, p.B, k, v), ClientExponent(a, u, x), p.N))))
  }

  /** What a client goes along with: a group it knows, of a size within its limits, and a public value that is not
      zero modulo N, from a user and a salt that are not too long. */
  lemma ClientGoesAlongIff(sha1: Bytes -> Bytes, limits: Limits, p: Params, username: Bytes, password: Bytes, a: nat)
    requires forall k :: k in limits.known ==> k.1 >= 1
    ensures ClientSecret(sha1, limits, p, username, password, a).Ok? <==>
              && (p.g, p.N) in limits.known && limits.minKeySize <= BitLength(p.N) <= limits.maxKeySize
              && p.B % p.N != 0 && |username| <= 255 && |p.salt| <= 255
    ensures ClientSecret(sha1, limits, p, username, password, a).Ok? ==>
              ClientSecret(sha1, limits, p, username, password, a).value.0 == Pow(p.g, a) % p.N
  {
    hide Pow, MakeU, MakeK, NumberToBytes, Unmask, ClientExponent, BitLength;
  }

  lemma ProductNonnegative(u: nat, x: nat)
    ensures u * x >= 0
  {
  }

  /** The two formulas raise the generator to the same power. */
  lemma ExponentsAgree(N: nat, g: nat, x: nat, a: nat, b: nat, u: nat, k: nat)
    requires N >= 1
    ensures var v := PowMod(g, x, N);
            var A := PowMod(g, a, N);
            var B := (PowMod(g, b, N) + k * v) % N;
            PowMod(Unmask(N, B, k, v), ClientExponent(a, u, x), N) == PowMod(ServerBase(N, A, v, u), b, N)
  {
    ProductNonnegative(u, x);
    ClientPower(N, g, x, a, b, u, k);
    ServerPower(N, g, x, a, b, u);
  }

  /** The client computes g to the power b(a + ux). */
  lemma ClientPower(N: nat, g: nat, x: nat, a: nat, b: nat, u: nat, k: nat)
    requires N >= 1
    ensures u * x >= 0 && b * (a + u * x) >= 0
    ensures var v := PowMod(g, x, N);
            var B := (PowMod(g, b, N) + k * v) % N;
            Cong(Pow((B - k * v) % N, a + u * x), Pow(g, b * (a + u * x)), N)
  {
    var v := PowMod(g, x, N);
    var kv := k * v;
    var G := PowMod(g, b, N);
    var B := (G + kv) % N;
    CongMod(G + kv, N);
    CongAdd(B, G + kv, kv, kv, N);
    CongMod(B - kv, N);
    CongMod(Pow(g, b), N);
    assert Cong((B - kv) % N, Pow(g, b), N);
    ProductNonnegative(u, x);
    CongPow((B - kv) % N, Pow(g, b), a + u * x, N);
    PowPow(g, b, a + u * x);
  }

  /** The server computes (g^a g^(xu))^b. */
  lemma ServerPower(N: nat, g: nat, x: nat, a: nat, b: nat, u: nat)
    requires N >= 1
    ensures u * x >= 0 && b * (a + u * x) >= 0
    ensures var v := PowMod(g, x, N);
            var A := PowMod(g, a, N);
            Cong(Pow((A * PowMod(v, u, N)) % N, b), Pow(g, b * (a + u * x)), N)
  {
    var v, A := PowMod(g, x, N), PowMod(g, a, N);
    var V := PowMod(v, u, N);
    CongMod(Pow(g, x), N);
    CongPow(v, Pow(g, x), u, N);
    CongMod(Pow(v, u), N);
    PowPow(g, x, u);
    assert x * u == u * x;
    assert Cong(V, Pow(g, u * x), N);
    CongMod(Pow(g, a), N);
    CongMul(A, Pow(g, a), V, Pow(g, u * x), N);
    PowAdd(g, a, u * x);
    CongMod(A * V, N);
    var base := (A * V) % N;
    assert Cong(base, Pow(g, a + u * x), N);
    CongPow(base, Pow(g, a + u * x), b, N);
    PowPow(g, a + u * x, b);
    assert (a + u * x) * b == b * (a + u * x);
  }

  /** SRP agreement: with the password that the verifier was made from, the server accepts whatever the client
      sends but a multiple of N, and then both have the same premaster secret, whatever the group and the coins. */
  lemma SrpAgreementIff(sha1: Bytes -> Bytes, limits: Limits, entry: Entry, username: Bytes, password: Bytes, a: nat, b: nat)
    requires entry.N >= 1 && forall k :: k in limits.known ==> k.1 >= 1
    requires MakeX(sha1, entry.salt, username, password).Ok?
    requires entry.v == PowMod(entry.g, MakeX(sha1, entry.salt, username, password).value, entry.N)
    requires ClientSecret(sha1, limits, Params(entry.N, entry.g, entry.salt, ServerPublic(sha1, entry, b)), username, password, a).Ok?
    ensures var B := ServerPublic(sha1, entry, b);
            var (A, secret) := ClientSecret(sha1, limits, Params(entry.N, entry.g, entry.salt, B), username, password, a).value;
            ServerSecret(sha1, entry.N, entry.v, b, B, A) == Ok(secret) <==> A % entry.N != 0
  {
    hide PowMod, MakeU, MakeK, MakeX, NumberToBytes, Unmask, ClientExponent, ServerBase;
    var x := MakeX(sha1, entry.salt, username, password).value;
    var B := ServerPublic(sha1, entry, b);
    var A := PowMod(entry.g, a, entry.N);
    ExponentsAgree(entry.N, entry.g, x, a, b, MakeU(sha1, entry.N, A, B), MakeK(sha1, entry.N, entry.g));
  }

  /** Modulo a prime, powers of a generator are never zero: an honest client is never rejected. */
  lemma {:induction false} PowerNonzero(g: nat, e: nat, N: nat)
    requires IsPrime(N) && g % N != 0
    ensures Pow(g, e) % N != 0
  {
    if e == 0 {
      SmallMod(1, N);
    } else {
      PowerNonzero(g, e - 1, N);
      if Pow(g, e) % N == 0 {
        Euclid(g, Pow(g, e - 1), N);
      }
    }
  }

  lemma HonestClientAccepted(g: nat, a: nat, N: nat)
    requires IsPrime(N) && g % N != 0
    ensures PowMod(g, a, N) % N != 0
  {
    PowerNonzero(g, a, N);
    CongMod(Pow(g, a), N);
  }

  /** A key exchange object keeps what one message leaves for the next. */
  class SrpKeyExchange {
    const sha1: Bytes -> Bytes
    var N: nat
    var v: nat
    var b: nat
    var B: nat
    var A: nat

    constructor (sha1: Bytes -> Bytes)
      ensures this.sha1 == sha1
    {
      this.sha1 := sha1;
      N, v, b, B, A := 0, 0, 0, 0, 0;
    }

    /** The server's first message; coins is its random exponent. */
    method MakeServerKeyExchange(db: map<Bytes, Entry>, username: Bytes, coins: nat) returns (r: Result<Params>)
      requires forall u :: u in db ==> db[u].N >= 1
      modifies this
      ensures r.Ok? <==> username in db
      ensures r.Ok? ==>
                var e := db[username];
                N == e.N && v == e.v && b == coins && B == ServerPublic(sha1, e, coins) && r.value == Params(e.N, e.g, e.salt, B)
      ensures r.Err? ==> r.error == UnknownPskIdentity && (N, v, b, B, A) == old((N, v, b, B, A))
    {
      hide PowMod, MakeK;
      if username !in db { return Err(UnknownPskIdentity); }
      var entry := db[username];
      N, v, b := entry.N, entry.v, coins;
      var k := MakeK(sha1, N, entry.g);
      B := (PowMod(entry.g, b, N) + k * v) % N;
      return Ok(Params(N, entry.g, entry.salt, B));
    }

    method ProcessClientKeyExchange(clientPublic: nat) returns (r: Result<Bytes>)
      requires N >= 1
      ensures r == ServerSecret(sha1, N, v, b, B, clientPublic)
    {
      if clientPublic % N == 0 { return Err(IllegalParameter); }
      var u := MakeU(sha1, N, clientPublic, B);
      var S := PowMod(ServerBase(N, clientPublic, v, u), b, N);
      return Ok(NumberToBytes(S));
    }

    /** The client's side; coins is its random exponent. */
    method ProcessServerKeyExchange(limits: Limits, p: Params, username: Bytes, password: Bytes, coins: nat) returns (r: Result<Bytes>)
      requires forall k :: k in limits.known ==> k.1 >= 1
      modifies this`A
      ensures match ClientSecret(sha1, limits, p, username, password, coins)
              case Err(e) => r == Err(e)
              case Ok((public, secret)) => r == Ok(secret) && A == public
    {
      hide PowMod, MakeU, MakeK, MakeX, NumberToBytes, Unmask, ClientExponent, BitLength;
      if (p.g, p.N) !in limits.known { return Err(InsufficientSecurity); }
      if BitLength(p.N) < limits.minKeySize { return Err(InsufficientSecurity); }
      if BitLength(p.N) > limits.maxKeySize { return Err(InsufficientSecurity); }
      if p.B % p.N == 0 { return Err(IllegalParameter); }
      A := PowMod(p.g, coins, p.N);
      var x :- MakeX(sha1, p.salt, username, password);
      var verifier := PowMod(p.g, x, p.N);
      var u := MakeU(sha1, p.N, A, p.B);
      var k := MakeK(sha1, p.N, p.g);
      var S := PowMod(Unmask(p.N, p.B, k, verifier), ClientExponent(coins, u, x), p.N);
      return Ok(NumberToBytes(S));
    }
  }
}

/** Finite-field Diffie-Hellman. */
module FiniteFieldDh {
  import opened Results
  import opened ByteStrings
  import opened Modular
  import opened PrimeField
  import opened Numbers
  import opened Srp

  /** A group, and whether shares are strings of fixed length, as in TLS 1.3. */
  datatype Group = Group(g: nat, p: nat, fixedLength: bool)

  /** What the constructor checks. */
  predicate Proper(group: Group) {
    1 < group.g < group.p
  }

  /** A share on its way to the peer. */
  datatype PublicShare = Number(n: nat) | Encoded(b: Bytes)

  function CalcPublicValue(group: Group, private: nat): Result<PublicShare>
    requires Proper(group)
  {
    var Y := PowMod(group.g, private, group.p);
    if Y == 1 || Y == group.p - 1 then Err(IllegalParameter)
    else if group.fixedLength then Ok(Encoded(NumberToFixedBytes(Y, ByteLength(group.p))))
    else Ok(Number(Y))
  }

  function NormalisePeerShare(group: Group, s: PublicShare): Result<nat> {
    match s
    case Number(n) => Ok(n)
    case Encoded(b) => if ByteLength(group.p) != |b| then Err(IllegalParameter) else Ok(FromBE(b))
  }

  function CalcSharedKey(group: Group, private: nat, peer: PublicShare): Result<Bytes>
    requires Proper(group)
  {
    var Y :- NormalisePeerShare(group, peer);
    if !(2 <= Y < group.p - 1) then Err(IllegalParameter)
    else
      var S := PowMod(Y, private, group.p);
      if S == 1 || S == group.p - 1 then Err(IllegalParameter)
      else if group.fixedLength then Ok(NumberToFixedBytes(S, ByteLength(group.p)))
      else Ok(NumberToBytes(S))
  }

  /** A share is read back as the power it was made from. */
  lemma ShareArrives(group: Group, private: nat)
    requires Proper(group) && CalcPublicValue(group, private).Ok?
    ensures NormalisePeerShare(group, CalcPublicValue(group, private).value) == Ok(PowMod(group.g, private, group.p))
  {
    FitsByteLength(group.p);
    hide PowMod, Pow256, ByteLength, FromBE;
  }

  /** Whatever share a peer sends, a key that is accepted comes from a share and a secret outside of the trivial
      subgroup, and in TLS 1.3 both have exactly the length of the prime. */
  lemma SharedKeyNeverTrivial(group: Group, private: nat, peer: PublicShare)
    requires Proper(group) && CalcSharedKey(group, private, peer).Ok?
    ensures var key := CalcSharedKey(group, private, peer).value;
            && FromBE(key) < group.p && FromBE(key) != 1 && FromBE(key) != group.p - 1
            && (group.fixedLength ==> |key| == ByteLength(group.p))
            && (peer.Encoded? ==> |peer.b| == ByteLength(group.p))
            && 2 <= NormalisePeerShare(group, peer).value < group.p - 1
  {
    FitsByteLength(group.p);
    hide PowMod, Pow256, ByteLength, FromBE;
  }

  /** The key is the power of the share of the peer: with the length of the prime in TLS 1.3, and without zeros in
      front before (section 8.1.2 of RFC 5246). */
  lemma SharedKeyIsPower(group: Group, private: nat, peer: PublicShare)
    requires Proper(group) && CalcSharedKey(group, private, peer).Ok?
    ensures var key := CalcSharedKey(group, private, peer).value;
            && FromBE(key) == PowMod(NormalisePeerShare(group, peer).value, private, group.p)
            && (!group.fixedLength && |key| > 1 ==> key[0] != 0)
  {
    hide PowMod, Pow256, FromBE;
    FitsByteLength(group.p);
    var S := PowMod(NormalisePeerShare(group, peer).value, private, group.p);
    if !group.fixedLength && S != 0 {
      NoLeadingZero(S);
    }
  }

  lemma NoLeadingZero(n: nat)
    requires n != 0
    ensures NumberToBytes(n)[0] != 0
  {
    var b := NumberToBytes(n);
    if b[0] == 0 {
      assert b == Zeros(1) + b[1..];
      LeadingZeros(1, b[1..]);
      ByteLengthLeast(n, |b| - 1);
    }
  }

  lemma SharedPower(g: nat, p: nat, a: nat, b: nat)
    requires p >= 1
    ensures PowMod(PowMod(g, a, p), b, p) == PowMod(PowMod(g, b, p), a, p)
  {
    CongMod(Pow(g, a), p);
    CongPow(PowMod(g, a, p), Pow(g, a), b, p);
    PowPow(g, a, b);
    CongMod(Pow(g, b), p);
    CongPow(PowMod(g, b, p), Pow(g, b), a, p);
    PowPow(g, b, a);
    assert a * b == b * a;
  }

  /** Zero to any positive power, and anything to a power whose base is already zero. */
  lemma ZeroPower(g: nat, p: nat, a: nat, b: nat)
    requires p >= 1 && PowMod(g, a, p) == 0 && b >= 1
    ensures PowMod(PowMod(g, b, p), a, p) == 0
  {
    SharedPower(g, p, a, b);
    assert Pow(0, b) == 0 * Pow(0, b - 1);
  }

  /** Both sides get the same outcome, the same key bytes or the same refusal, exactly if both shares are zero or
      neither is. */
  lemma OutcomesAgreeIff(group: Group, a: nat, b: nat)
    requires Proper(group) && CalcPublicValue(group, a).Ok? && CalcPublicValue(group, b).Ok?
    ensures CalcSharedKey(group, a, CalcPublicValue(group, b).value) == CalcSharedKey(group, b, CalcPublicValue(group, a).value)
            <==> (PowMod(group.g, a, group.p) == 0 <==> PowMod(group.g, b, group.p) == 0)
  {
    ShareArrives(group, a);
    ShareArrives(group, b);
    SharedPower(group.g, group.p, a, b);
    var Ya, Yb := PowMod(group.g, a, group.p), PowMod(group.g, b, group.p);
    PowerZero(group, a);
    PowerZero(group, b);
    if Ya == 0 { ZeroPower(group.g, group.p, a, b); }
    if Yb == 0 { ZeroPower(group.g, group.p, b, a); }
    hide PowMod, NumberToFixedBytes, NumberToBytes, ByteLength, NormalisePeerShare;
  }

  lemma PowerZero(group: Group, private: nat)
    requires Proper(group) && CalcPublicValue(group, private).Ok?
    ensures private >= 1 && PowMod(group.g, private, group.p) < group.p
  {
    if private == 0 {
      SmallMod(1, group.p);
    }
  }

  /** Modulo a prime no share is zero, so the two sides always agree. */
  lemma PrimeOutcomesAgree(group: Group, a: nat, b: nat)
    requires Proper(group) && IsPrime(group.p) && CalcPublicValue(group, a).Ok? && CalcPublicValue(group, b).Ok?
    ensures CalcSharedKey(group, a, CalcPublicValue(group, b).value) == CalcSharedKey(group, b, CalcPublicValue(group, a).value)
  {
    SmallMod(group.g, group.p);
    PowerNonzero(group.g, a, group.p);
    PowerNonzero(group.g, b, group.p);
    OutcomesAgreeIff(group, a, b);
  }

  /** Modulo 8, with generator 2 and exponents 3 and 1, one side gets a key and the other refuses. */
  lemma CompositeOutcomesDiffer()
    ensures var group := Group(2, 8, false);
            && CalcPublicValue(group, 3).Ok? && CalcPublicValue(group, 1).Ok?
            && CalcSharedKey(group, 3, CalcPublicValue(group, 1).value).Ok?
            && CalcSharedKey(group, 1, CalcPublicValue(group, 3).value).Err?
  {
    assert Pow(2, 1) == 2 * Pow(2, 0) == 2;
    assert Pow(2, 3) == 2 * Pow(2, 2) == 8;
  }
}
