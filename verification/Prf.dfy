/** The pseudorandom functions of SSL 3.0 and TLS (section 5 of RFC 5246). */
module PrfLoops {
  import opened Results
  import opened ByteStrings
  import opened Modular

  /** A hash for HMAC. */
  datatype Mac = Mac(size: nat, hmac: (Bytes, Bytes) -> Bytes)

  /** HMACs of one hash all have its size, which is not zero. */
  ghost predicate Sound(mac: Mac) {
    mac.size >= 1 && forall key: Bytes, data: Bytes :: |mac.hmac(key, data)| == mac.size
  }

  /** A(0) of the RFC is the seed, A(i) the HMAC of A(i - 1). */
  function Feed(mac: Mac, secret: Bytes, seed: Bytes, i: nat): Bytes {
    if i == 0 then seed else mac.hmac(secret, Feed(mac, secret, seed, i - 1))
  }

  /** The i-th block of the infinite stream, from 0. */
  function Block(mac: Mac, secret: Bytes, seed: Bytes, i: nat): Bytes {
    mac.hmac(secret, Feed(mac, secret, seed, i + 1) + seed)
  }

  /** The k-th byte of the infinite stream. */
  function StreamByte(mac: Mac, secret: Bytes, seed: Bytes, k: nat): Byte
    requires Sound(mac)
  {
    Block(mac, secret, seed, k / mac.size)[k % mac.size]
  }

  /** The first bytes of the stream. */
  function Stream(mac: Mac, secret: Bytes, seed: Bytes, length: nat): (r: Bytes)
    requires Sound(mac)
    ensures |r| == length
  {
    seq(length, k requires 0 <= k < length => StreamByte(mac, secret, seed, k))
  }

  /** Bytes of the i-th block lie at its offset in the stream. */
  lemma BlockInStream(mac: Mac, secret: Bytes, seed: Bytes, i: nat, j: nat)
    requires Sound(mac) && j < mac.size
    ensures i * mac.size + j >= 0 && StreamByte(mac, secret, seed, i * mac.size + j) == Block(mac, secret, seed, i)[j]
  {
    var k := i * mac.size + j;
    assert i * mac.size >= 0;
    QuotientUnique(k, i, j, mac.size);
  }

  /** P_hash fills a buffer block by block with the stream. */
  method PHash(mac: Mac, secret: Bytes, seed: Bytes, length: nat) returns (ret: array<Byte>)
    requires Sound(mac)
    ensures fresh(ret) && ret[..] == Stream(mac, secret, seed, length)
  {
    hide Block;
    ret := new Byte[length](_ => 0);
    var a := seed;
    var index := 0;
    ghost var i: nat := 0;
    while index < length
      invariant 0 <= index <= length && a == Feed(mac, secret, seed, i)
      invariant index < length ==> index == i * mac.size
      invariant forall k :: 0 <= k < index ==> ret[k] == StreamByte(mac, secret, seed, k)
    {
      a := mac.hmac(secret, a);
      var output := mac.hmac(secret, a + seed);
      assert output == Block(mac, secret, seed, i) by { BlockIs(mac, secret, seed, i, a); }
      var howMany := if length - index < |output| then length - index else |output|;
      forall j | 0 <= j < howMany ensures StreamByte(mac, secret, seed, index + j) == output[j] {
        BlockInStream(mac, secret, seed, i, j);
      }
      NextIndex(i, mac.size);
      CopyInto(ret, index, output[..howMany]);
      index := index + howMany;
      i := i + 1;
    }
    assert ret[..] == Stream(mac, secret, seed, length);
  }

  lemma BlockIs(mac: Mac, secret: Bytes, seed: Bytes, i: nat, a: Bytes)
    requires a == Feed(mac, secret, seed, i + 1)
    ensures mac.hmac(secret, a + seed) == Block(mac, secret, seed, i)
  {
  }

  lemma NextIndex(i: nat, m: nat)
    ensures (i + 1) * m == i * m + m
  {
  }

  /** Assignment to a slice. */
  method CopyInto(a: array<Byte>, at: nat, data: Bytes)
    requires at + |data| <= a.Length
    modifies a
    ensures forall k :: 0 <= k < a.Length ==> a[k] == if at <= k < at + |data| then data[k - at] else old(a[k])
  {
    forall j | 0 <= j < |data| {
      a[at + j] := data[j];
    }
  }

  /** A shorter output is the beginning of a longer one. */
  lemma StreamPrefix(mac: Mac, secret: Bytes, seed: Bytes, short: nat, long: nat)
    requires Sound(mac) && short <= long
    ensures Stream(mac, secret, seed, short) <= Stream(mac, secret, seed, long)
  {
  }

  //
  // TLS 1.0 and 1.1
  //

  /** The two halves of a secret, which share the middle byte if the length is odd. */
  function FirstHalf(secret: Bytes): Bytes {
    secret[..(|secret| + 1) / 2]
  }

  function SecondHalf(secret: Bytes): Bytes {
    secret[|secret| / 2..]
  }

  /** The halves have the same length, and between them miss nothing of the secret. */
  lemma HalvesCover(secret: Bytes)
    ensures |FirstHalf(secret)| == |SecondHalf(secret)| == (|secret| + 1) / 2
    ensures FirstHalf(secret) + SecondHalf(secret)[|secret| % 2..] == secret
    ensures |secret| % 2 == 1 ==> FirstHalf(secret)[|secret| / 2] == SecondHalf(secret)[0]
  {
    var n := (|secret| + 1) / 2;
    assert SecondHalf(secret)[|secret| % 2..] == secret[n..];
  }

  function Xored(md5: Mac, sha1: Mac, secret: Bytes, seed: Bytes, length: nat): (r: Bytes)
    requires Sound(md5) && Sound(sha1)
    ensures |r| == length
  {
    XorBytes(Stream(md5, FirstHalf(secret), seed, length), Stream(sha1, SecondHalf(secret), seed, length))
  }

  method Prf(md5: Mac, sha1: Mac, secret: Bytes, purpose: Bytes, seed: Bytes, length: nat) returns (pMd5: array<Byte>)
    requires Sound(md5) && Sound(sha1)
    ensures fresh(pMd5) && pMd5[..] == Xored(md5, sha1, secret, purpose + seed, length)
  {
    hide StreamByte;
    var n := |secret|;
    pMd5 := PHash(md5, secret[..(n + 1) / 2], purpose + seed, length);
    var pSha1 := PHash(sha1, secret[n / 2..], purpose + seed, length);
    ghost var first, second := pMd5[..], pSha1[..];
    for x := 0 to length
      invariant pMd5.Length == length && pSha1[..] == second
      invariant forall k :: 0 <= k < x ==> pMd5[k] == XorByte(first[k], second[k])
      invariant forall k :: x <= k < length ==> pMd5[k] == first[k]
    {
      pMd5[x] := XorByte(pMd5[x], pSha1[x]);
    }
    assert pMd5[..] == XorBytes(first, second);
  }

  lemma XoredPrefix(md5: Mac, sha1: Mac, secret: Bytes, seed: Bytes, short: nat, long: nat)
    requires Sound(md5) && Sound(sha1) && short <= long
    ensures Xored(md5, sha1, secret, seed, short) <= Xored(md5, sha1, secret, seed, long)
  {
    hide StreamByte, XorByte;
  }

  //
  // SSL 3.0
  //

  const ROUNDS := 26
  const LETTER_A: Byte := 65
  const MD5_SIZE := 16

  /** The hashes of SSL 3.0, MD5 with its 16 bytes. */
  datatype OldHashes = OldHashes(md5: Bytes -> Bytes, sha1: Bytes -> Bytes)

  ghost predicate SoundOld(h: OldHashes) {
    forall data: Bytes :: |h.md5(data)| == MD5_SIZE
  }

  /** Round x: the letter number x, x + 1 times, opens the inner hash. */
  function Round(h: OldHashes, secret: Bytes, seed: Bytes, x: nat): Bytes
    requires x < ROUNDS
  {
    h.md5(secret + h.sha1(seq(x + 1, _ => LETTER_A + x) + secret + seed))
  }

  function OldByte(h: OldHashes, secret: Bytes, seed: Bytes, k: nat): Byte
    requires SoundOld(h)
  {
    if k < ROUNDS * MD5_SIZE then Round(h, secret, seed, k / MD5_SIZE)[k % MD5_SIZE] else 0
  }

  /** The first 416 bytes come from the rounds; what lies beyond stays zero. */
  function OldStream(h: OldHashes, secret: Bytes, seed: Bytes, length: nat): (r: Bytes)
    requires SoundOld(h)
    ensures |r| == length
  {
    seq(length, k requires 0 <= k < length => OldByte(h, secret, seed, k))
  }

  method PrfSsl(h: OldHashes, secret: Bytes, seed: Bytes, length: nat) returns (bytes: array<Byte>)
    requires SoundOld(h)
    ensures fresh(bytes) && bytes[..] == OldStream(h, secret, seed, length)
  {
    bytes := new Byte[length](_ => 0);
    var index := 0;
    for x := 0 to ROUNDS
      invariant index == x * MD5_SIZE <= length
      invariant forall k :: 0 <= k < length ==> bytes[k] == if k < index then OldByte(h, secret, seed, k) else 0
    {
      var output := h.md5(secret + h.sha1(seq(x + 1, _ => LETTER_A + x) + secret + seed));
      assert output == Round(h, secret, seed, x);
      hide Round;
      for j := 0 to |output|
        invariant index == x * MD5_SIZE + j <= length
        invariant forall k :: 0 <= k < length ==> bytes[k] == if k < index then OldByte(h, secret, seed, k) else 0
      {
        if index >= length {
          assert bytes[..] == OldStream(h, secret, seed, length);
          return;
        }
        QuotientUnique(index, x, j, MD5_SIZE);
        bytes[index] := output[j];
        index := index + 1;
      }
    }
    assert bytes[..] == OldStream(h, secret, seed, length);
  }

  /** Every byte comes from a hash exactly up to length 416. */
  lemma OldStreamFilledIff(h: OldHashes, secret: Bytes, seed: Bytes, length: nat)
    requires SoundOld(h)
    ensures (length <= ROUNDS * MD5_SIZE) <==>
              forall k :: 0 <= k < length ==> InRounds(k)
    ensures forall k :: 0 <= k < length && InRounds(k) ==>
              OldStream(h, secret, seed, length)[k] == Round(h, secret, seed, k / MD5_SIZE)[k % MD5_SIZE]
    ensures forall k :: 0 <= k < length && !InRounds(k) ==> OldStream(h, secret, seed, length)[k] == 0
  {
    hide Round;
    if length > ROUNDS * MD5_SIZE {
      assert !InRounds(ROUNDS * MD5_SIZE);
    }
  }

  predicate InRounds(k: nat) {
    k / MD5_SIZE < ROUNDS
  }

  lemma OldStreamPrefix(h: OldHashes, secret: Bytes, seed: Bytes, short: nat, long: nat)
    requires SoundOld(h) && short <= long
    ensures OldStream(h, secret, seed, short) <= OldStream(h, secret, seed, long)
  {
    hide OldByte;
  }

  //
  // calc_key
  //

  datatype Purpose = KeyExpansion | MasterSecret | ExtendedMasterSecret | ClientFinished | ServerFinished

  /** The hash functions that the versions use. */
  datatype PrfHashes = PrfHashes(md5: Mac, sha1: Mac, sha256: Mac, sha384: Mac, legacy: OldHashes)

  ghost predicate SoundHashes(h: PrfHashes) {
    Sound(h.md5) && Sound(h.sha1) && Sound(h.sha256) && Sound(h.sha384) && SoundOld(h.legacy)
  }

  /** What the handshake hashes give; ssl is the SSL 3.0 construction from secret and sender. */
  datatype Transcript = Transcript(md5: Bytes, sha1: Bytes, sha256: Bytes, sha384: Bytes, ssl: (Bytes, Bytes) -> Bytes)

  const SSL3_VERSION := 0x300
  const TLS10_VERSION := 0x301
  const TLS11_VERSION := 0x302
  const TLS12_VERSION := 0x303

  const CLIENT_SENDER: Bytes := [0x43, 0x4C, 0x4E, 0x54]
  const SERVER_SENDER: Bytes := [0x53, 0x52, 0x56, 0x52]

  /** The ASCII labels. */
  function PurposeBytes(p: Purpose): Bytes {
    match p
    case KeyExpansion => [107, 101, 121, 32, 101, 120, 112, 97, 110, 115, 105, 111, 110]
    case MasterSecret => [109, 97, 115, 116, 101, 114, 32, 115, 101, 99, 114, 101, 116]
    case ExtendedMasterSecret =>
      [101, 120, 116, 101, 110, 100, 101, 100, 32, 109, 97, 115, 116, 101, 114, 32, 115, 101, 99, 114, 101, 116]
    case ClientFinished => [99, 108, 105, 101, 110, 116, 32, 102, 105, 110, 105, 115, 104, 101, 100]
    case ServerFinished => [115, 101, 114, 118, 101, 114, 32, 102, 105, 110, 105, 115, 104, 101, 100]
  }

  function Seed(version: nat, sha384: bool, p: Purpose, t: Transcript, clientRandom: Bytes, serverRandom: Bytes): Bytes {
    match p
    case KeyExpansion => serverRandom + clientRandom
    case MasterSecret => clientRandom + serverRandom
    case _ => if version <= TLS11_VERSION then t.md5 + t.sha1 else if sha384 then t.sha384 else t.sha256
  }

  /** calc_key as a function: an SSL 3.0 Finished value has its own construction and takes no length. */
  function Key(h: PrfHashes, version: nat, secret: Bytes, sha384: bool, p: Purpose, t: Transcript,
               clientRandom: Bytes, serverRandom: Bytes, length: nat): Result<Bytes>
    requires SoundHashes(h)
  {
    var seed := Seed(version, sha384, p, t, clientRandom, serverRandom);
    if version == SSL3_VERSION then
      match p
      case ClientFinished => Ok(t.ssl(secret, CLIENT_SENDER))
      case ServerFinished => Ok(t.ssl(secret, SERVER_SENDER))
      case ExtendedMasterSecret => Err(AssertionError)
      case _ => Ok(OldStream(h.legacy, secret, seed, length))
    else if version == TLS10_VERSION || version == TLS11_VERSION then
      Ok(Xored(h.md5, h.sha1, secret, PurposeBytes(p) + seed, length))
    else if version == TLS12_VERSION then
      Ok(Stream(if sha384 then h.sha384 else h.sha256, secret, PurposeBytes(p) + seed, length))
    else Err(AssertionError)
  }

  method CalcKey(h: PrfHashes, version: nat, secret: Bytes, sha384: bool, p: Purpose, t: Transcript,
                 clientRandom: Bytes, serverRandom: Bytes, length: nat) returns (r: Result<Bytes>)
    requires SoundHashes(h)
    ensures r == Key(h, version, secret, sha384, p, t, clientRandom, serverRandom, length)
  {
    hide OldStream, Xored, Stream, PurposeBytes;
    var seed := Seed(version, sha384, p, t, clientRandom, serverRandom);
    if version == SSL3_VERSION {
      match p
      case ClientFinished => return Ok(t.ssl(secret, CLIENT_SENDER));
      case ServerFinished => return Ok(t.ssl(secret, SERVER_SENDER));
      case ExtendedMasterSecret => return Err(AssertionError);
      case _ =>
        var out := PrfSsl(h.legacy, secret, seed, length);
        return Ok(out[..]);
    } else if version == TLS10_VERSION || version == TLS11_VERSION {
      var out := Prf(h.md5, h.sha1, secret, PurposeBytes(p), seed, length);
      return Ok(out[..]);
    } else if version == TLS12_VERSION {
      var out := PHash(if sha384 then h.sha384 else h.sha256, secret, PurposeBytes(p) + seed, length);
      return Ok(out[..]);
    }
    return Err(AssertionError);
  }

  /** Labels and seeds as the standards spell them: the key expansion takes the randoms in reverse order. */
  lemma SeedsAndLabels(version: nat, sha384: bool, t: Transcript, clientRandom: Bytes, serverRandom: Bytes)
    ensures PurposeBytes(KeyExpansion) == Ascii("key expansion") && PurposeBytes(MasterSecret) == Ascii("master secret")
    ensures PurposeBytes(ExtendedMasterSecret) == Ascii("extended master secret")
    ensures PurposeBytes(ClientFinished) == Ascii("client finished") && PurposeBytes(ServerFinished) == Ascii("server finished")
    ensures CLIENT_SENDER == Ascii("CLNT") && SERVER_SENDER == Ascii("SRVR")
    ensures var expansion := Seed(version, sha384, KeyExpansion, t, clientRandom, serverRandom);
            var master := Seed(version, sha384, MasterSecret, t, clientRandom, serverRandom);
            && |expansion| == |master| == |clientRandom| + |serverRandom|
            && expansion[..|serverRandom|] == serverRandom && expansion[|serverRandom|..] == clientRandom
            && master[..|clientRandom|] == clientRandom && master[|clientRandom|..] == serverRandom
    ensures forall p :: p in {ExtendedMasterSecret, ClientFinished, ServerFinished} ==>
              Seed(version, sha384, p, t, clientRandom, serverRandom)
              == if version <= 0x302 then t.md5 + t.sha1 else if sha384 then t.sha384 else t.sha256
  {
  }

  /** Which function makes the keys of which version. */
  lemma KeyByVersion(h: PrfHashes, version: nat, secret: Bytes, sha384: bool, p: Purpose, t: Transcript,
                     clientRandom: Bytes, serverRandom: Bytes, length: nat, k: nat)
    requires SoundHashes(h) && 0x301 <= version <= 0x303 && k < length
    ensures var key := Key(h, version, secret, sha384, p, t, clientRandom, serverRandom, length);
            var seed := PurposeBytes(p) + Seed(version, sha384, p, t, clientRandom, serverRandom);
            && key.Ok? && |key.value| == length
            && if version == 0x303 then key.value[k] == StreamByte(if sha384 then h.sha384 else h.sha256, secret, seed, k)
               else XorByte(key.value[k], StreamByte(h.sha1, SecondHalf(secret), seed, k)) == StreamByte(h.md5, FirstHalf(secret), seed, k)
  {
    hide StreamByte, PurposeBytes, Seed, FirstHalf, SecondHalf, XorByte;
    var seed := PurposeBytes(p) + Seed(version, sha384, p, t, clientRandom, serverRandom);
    if version != 0x303 {
      XorBack(StreamByte(h.md5, FirstHalf(secret), seed, k), StreamByte(h.sha1, SecondHalf(secret), seed, k));
    }
  }

  /** The stream is HMAC(secret, A(1) + seed), HMAC(secret, A(2) + seed), ... with A(i) = HMAC(secret, A(i-1)). */
  lemma StreamBegins(mac: Mac, secret: Bytes, seed: Bytes)
    requires Sound(mac)
    ensures var a1 := mac.hmac(secret, seed);
            var a2 := mac.hmac(secret, a1);
            Stream(mac, secret, seed, 2 * mac.size) == mac.hmac(secret, a1 + seed) + mac.hmac(secret, a2 + seed)
  {
    hide Block;
    var first, second := Block(mac, secret, seed, 0), Block(mac, secret, seed, 1);
    assert first == mac.hmac(secret, mac.hmac(secret, seed) + seed) by { FirstBlocks(mac, secret, seed); }
    assert second == mac.hmac(secret, mac.hmac(secret, mac.hmac(secret, seed)) + seed) by { FirstBlocks(mac, secret, seed); }
    var s := Stream(mac, secret, seed, 2 * mac.size);
    forall j | 0 <= j < mac.size ensures s[j] == first[j] && s[mac.size + j] == second[j] {
      BlockInStream(mac, secret, seed, 0, j);
      BlockInStream(mac, secret, seed, 1, j);
    }
    assert s[..mac.size] == first && s[mac.size..] == second;
    assert s == s[..mac.size] + s[mac.size..];
  }

  lemma FirstBlocks(mac: Mac, secret: Bytes, seed: Bytes)
    ensures Block(mac, secret, seed, 0) == mac.hmac(secret, mac.hmac(secret, seed) + seed)
    ensures Block(mac, secret, seed, 1) == mac.hmac(secret, mac.hmac(secret, mac.hmac(secret, seed)) + seed)
  {
    assert Feed(mac, secret, seed, 1) == mac.hmac(secret, Feed(mac, secret, seed, 0));
    assert Feed(mac, secret, seed, 2) == mac.hmac(secret, Feed(mac, secret, seed, 1));
  }

  /** The rounds of SSL 3.0 open with A, BB, CCC and so on to 26 Zs. */
  lemma RoundsSpelled(h: OldHashes, secret: Bytes, seed: Bytes)
    ensures Round(h, secret, seed, 0) == h.md5(secret + h.sha1(Ascii("A") + secret + seed))
    ensures Round(h, secret, seed, 1) == h.md5(secret + h.sha1(Ascii("BB") + secret + seed))
    ensures Round(h, secret, seed, 25) == h.md5(secret + h.sha1(Ascii("ZZZZZZZZZZZZZZZZZZZZZZZZZZ") + secret + seed))
  {
    assert Ascii("A") == seq(1, _ => LETTER_A + 0);
    assert Ascii("BB") == seq(2, _ => LETTER_A + 1);
    assert Ascii("ZZZZZZZZZZZZZZZZZZZZZZZZZZ") == seq(26, _ => LETTER_A + 25);
  }

  /** In every version, keying material has the length asked for, and asking for less gives a prefix. */
  lemma KeyPrefix(h: PrfHashes, version: nat, secret: Bytes, sha384: bool, p: Purpose, t: Transcript,
                  clientRandom: Bytes, serverRandom: Bytes, short: nat, long: nat)
    requires SoundHashes(h) && short <= long
    requires version == SSL3_VERSION ==> p.KeyExpansion? || p.MasterSecret?
    ensures var a := Key(h, version, secret, sha384, p, t, clientRandom, serverRandom, short);
            var b := Key(h, version, secret, sha384, p, t, clientRandom, serverRandom, long);
            && (a.Ok? <==> b.Ok?) && (a.Ok? <==> SSL3_VERSION <= version <= TLS12_VERSION)
            && (a.Ok? ==> |a.value| == short && a.value <= b.value)
  {
    hide OldStream, Xored, Stream, PurposeBytes;
    var seed := Seed(version, sha384, p, t, clientRandom, serverRandom);
    OldStreamPrefix(h.legacy, secret, seed, short, long);
    XoredPrefix(h.md5, h.sha1, secret, PurposeBytes(p) + seed, short, long);
    StreamPrefix(if sha384 then h.sha384 else h.sha256, secret, PurposeBytes(p) + seed, short, long);
  }
}
