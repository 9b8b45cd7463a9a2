/** The cryptographic primitives, known only by what they compute, not by their mathematics. */
module Primitives {
  import opened Results
  import opened ByteStrings

  datatype CipherName = AesGcm | AesCcm | Chacha20Poly1305

  /** An AEAD context. */
  datatype Aead = Aead(name: CipherName, key: Bytes, tagLength: nat, nonceLength: nat)

  /** A block or stream cipher context; chain is the state that every use updates. */
  datatype Cipher = Cipher(key: Bytes, chain: Bytes, isBlockCipher: bool, blockSize: nat)

  datatype MacKey = MacKey(key: Bytes, digestSize: nat)

  datatype Crypto = Crypto(
    seal: (Aead, Bytes, Bytes, Bytes) -> Bytes,
    open: (Aead, Bytes, Bytes, Bytes) -> Option<Bytes>,
    encrypt: (Cipher, Bytes) -> (Cipher, Bytes),
    decrypt: (Cipher, Bytes) -> (Cipher, Bytes),
    mac: (MacKey, Bytes) -> Bytes,
    expandLabel: (Prf, Bytes, Bytes, Bytes, nat) -> Bytes)

  /** The hashes that key derivation is built on. */
  datatype Prf = Sha256 | Sha384

  /** Functional correctness: opening inverts sealing, decrypting inverts encrypting, lengths are as declared. */
  ghost predicate Correct(c: Crypto) {
    && (forall k: Aead, nonce: Bytes, plain: Bytes, ad: Bytes {:trigger c.seal(k, nonce, plain, ad)} ::
          && c.open(k, nonce, c.seal(k, nonce, plain, ad), ad) == Some(plain)
          && |c.seal(k, nonce, plain, ad)| == |plain| + k.tagLength)
    && (forall k: Cipher, plain: Bytes {:trigger c.encrypt(k, plain)} ::
          (k.isBlockCipher ==> k.blockSize > 0 && |plain| % k.blockSize == 0) ==>
            var (k', out) := c.encrypt(k, plain);
            && c.decrypt(k, out) == (k', plain)
            && |out| == |plain|
            && k'.isBlockCipher == k.isBlockCipher && k'.blockSize == k.blockSize)
    && (forall k: Cipher, data: Bytes {:trigger c.decrypt(k, data)} ::
          var k' := c.decrypt(k, data).0; k'.isBlockCipher == k.isBlockCipher && k'.blockSize == k.blockSize)
    && (forall k: MacKey, data: Bytes {:trigger c.mac(k, data)} :: |c.mac(k, data)| == k.digestSize)
    && (forall prf: Prf, secret: Bytes, purpose: Bytes, context: Bytes, n: nat
          {:trigger c.expandLabel(prf, secret, purpose, context, n)} ::
          |c.expandLabel(prf, secret, purpose, context, n)| == n)
  }

  /** Primitives that leave data in the clear: the assumptions can be met. */
  function Transparent(): Crypto {
    Crypto((k: Aead, nonce: Bytes, plain: Bytes, ad: Bytes) => plain + Zeros(k.tagLength),
           (k: Aead, nonce: Bytes, sealed: Bytes, ad: Bytes) =>
             if |sealed| < k.tagLength then None else Some(sealed[..|sealed| - k.tagLength]),
           (k: Cipher, data: Bytes) => (k, data),
           (k: Cipher, data: Bytes) => (k, data),
           (k: MacKey, data: Bytes) => Zeros(k.digestSize),
           (prf: Prf, secret: Bytes, purpose: Bytes, context: Bytes, n: nat) => Zeros(n))
  }

  lemma TransparentIsCorrect()
    ensures Correct(Transparent())
  {
    var c := Transparent();
    forall k: Aead, nonce: Bytes, plain: Bytes, ad: Bytes
      ensures c.open(k, nonce, c.seal(k, nonce, plain, ad), ad) == Some(plain)
    {
      assert (plain + Zeros(k.tagLength))[..|plain|] == plain;
    }
  }
}

/** How one record is protected and unprotected, for every construction the record layer offers. */
module RecordProtection {
  import opened Results
  import opened ByteStrings
  import opened Primitives

  const CHANGE_CIPHER_SPEC := 20
  const ALERT := 21
  const HANDSHAKE := 22
  const APPLICATION_DATA := 23
  const HEARTBEAT := 24

  // Protocol versions are written major * 256 + minor.
  const SSL3 := 0x300
  const TLS11 := 0x302
  const TLS12 := 0x303
  const TLS13 := 0x304

  const SEQ_LIMIT: nat := 0x1_0000_0000_0000_0000

  datatype Enc = NoCipher | AeadCipher(aead: Aead) | LegacyCipher(cipher: Cipher)

  /** A connection state for one direction. */
  datatype CState = CState(
    mac: Option<MacKey>,
    enc: Enc,
    fixedNonce: Bytes,
    seqnum: nat,
    encryptThenMac: bool)

  const INITIAL_STATE := CState(None, NoCipher, [], 0, false)

  /** The settings of the record layer that do not change from record to record. */
  datatype Config = Config(version: nat, tls13record: bool, ivBlock: Option<Bytes>)

  predicate IsTls13(cfg: Config) {
    cfg.version > TLS12 && cfg.tls13record
  }

  /** The version put on the wire: TLS 1.3 records carry that of TLS 1.2. */
  function WireVersion(cfg: Config): nat {
    if IsTls13(cfg) then TLS12 else cfg.version
  }

  /** The result of a step together with the connection state it leaves behind. */
  datatype Step<+T> = Step(res: Result<T>, st: CState)

  function VersionBytes(v: nat): Result<Bytes> {
    Encode(v, 2)
  }

  function GetSeqNumBytes(st: CState): Step<Bytes> {
    if st.seqnum < SEQ_LIMIT then
      assert Pow256(8) == SEQ_LIMIT;
      Step(Ok(ToBE(st.seqnum, 8)), st.(seqnum := st.seqnum + 1))
    else Step(Err(ValueError), st)
  }

  function AddPadding(data: Bytes, blockSize: nat): (r: Bytes)
    requires 0 < blockSize <= 256
    ensures |r| % blockSize == 0 && |r| > |data|
  {
    var n := blockSize - 1 - |data| % blockSize;
    PaddedLength(|data|, blockSize);
    data + seq(n + 1, _ => n)
  }

  lemma PaddedLength(length: nat, b: nat)
    requires b > 0
    ensures (length + (b - 1 - length % b) + 1) % b == 0
  {
    var q := length / b;
    assert length + (b - 1 - length % b) + 1 == (q + 1) * b;
    MultipleOf(q + 1, b);
  }

  lemma MultipleOf(q: nat, b: nat)
    requires b > 0
    ensures (q * b) % b == 0
  {
    var x := q * b;
    var d := x / b - q;
    assert d * b == -(x % b) by { assert x == (x / b) * b + x % b; assert d * b == (x / b) * b - q * b; }
  }

  /** The bytes under a MAC: sequence number, type, version (not in SSL 3.0), length and data. */
  function MacInput(cfg: Config, seqnumBytes: Bytes, ctype: Byte, data: Bytes): Result<Bytes> {
    if !(SSL3 <= cfg.version <= TLS12) then Err(AssertionError)
    else
      var version :- if cfg.version == SSL3 then Ok([]) else VersionBytes(cfg.version);
      var length :- Encode(|data|, 2);
      Ok(seqnumBytes + [ctype] + version + length + data)
  }

  function GetNonce(cfg: Config, aead: Aead, fixedNonce: Bytes, seqBytes: Bytes): Result<Bytes> {
    if (aead.name == Chacha20Poly1305 && |fixedNonce| == 12) || IsTls13(cfg) then
      if |fixedNonce| < |seqBytes| then Err(ValueError)
      else Ok(XorBytes(Zeros(|fixedNonce| - |seqBytes|) + seqBytes, fixedNonce))
    else Ok(fixedNonce + seqBytes)
  }

  /** AES in TLS 1.2 sends the variable half of the nonce with the record. */
  predicate ExplicitNonce(cfg: Config, aead: Aead) {
    aead.name != Chacha20Poly1305 && !IsTls13(cfg)
  }

  function SealAuthData(cfg: Config, aead: Aead, seqBytes: Bytes, ctype: Byte, length: nat): Result<Bytes> {
    if !IsTls13(cfg) then
      var version :- VersionBytes(cfg.version);
      var lengthBytes :- Encode(length, 2);
      Ok(seqBytes + [ctype] + version + lengthBytes)
    else
      var version :- VersionBytes(WireVersion(cfg));
      var lengthBytes :- Encode(length + aead.tagLength, 2);
      Ok([ctype] + version + lengthBytes)
  }

  function EncryptThenSeal(c: Crypto, cfg: Config, st: CState, buf: Bytes, ctype: Byte): Step<Bytes>
    requires st.enc.AeadCipher?
  {
    var aead := st.enc.aead;
    var s := GetSeqNumBytes(st);
    Step(
      match s.res
      case Err(e) => Err(e)
      case Ok(seqBytes) =>
        var authData :- SealAuthData(cfg, aead, seqBytes, ctype, |buf|);
        var nonce :- GetNonce(cfg, aead, st.fixedNonce, seqBytes);
        if |nonce| != aead.nonceLength then Err(AssertionError)
        else
          var sealed := c.seal(aead, nonce, buf, authData);
          Ok(if ExplicitNonce(cfg, aead) then seqBytes + sealed else sealed),
      s.st)
  }

  /** The initialisation vector that CBC in TLS 1.1 and later puts in front of the data. */
  function WithIv(cfg: Config, data: Bytes): Result<Bytes> {
    if cfg.version < TLS11 then Ok(data)
    else if cfg.ivBlock.None? then Err(TypeError)
    else Ok(cfg.ivBlock.value + data)
  }

  /** Encrypting advances the cipher's own state. */
  function EncryptWith(c: Crypto, st: CState, data: Bytes): Step<Bytes>
    requires st.enc.LegacyCipher?
  {
    var (cipher, out) := c.encrypt(st.enc.cipher, data);
    Step(Ok(out), st.(enc := LegacyCipher(cipher)))
  }

  function DecryptWith(c: Crypto, st: CState, data: Bytes): Step<Bytes>
    requires st.enc.LegacyCipher?
  {
    var (cipher, out) := c.decrypt(st.enc.cipher, data);
    Step(Ok(out), st.(enc := LegacyCipher(cipher)))
  }

  /** The MAC of data, which uses up a sequence number. */
  function ComputeMac(c: Crypto, cfg: Config, st: CState, ctype: Byte, data: Bytes): Step<Bytes>
    requires st.mac.Some?
  {
    var s := GetSeqNumBytes(st);
    Step(
      match s.res
      case Err(e) => Err(e)
      case Ok(seqBytes) =>
        var input :- MacInput(cfg, seqBytes, ctype, data);
        Ok(c.mac(st.mac.value, input)),
      s.st)
  }

  predicate ValidBlockSize(st: CState) {
    st.enc.LegacyCipher? && st.enc.cipher.isBlockCipher ==> 0 < st.enc.cipher.blockSize <= 256
  }

  function AppendMac(c: Crypto, cfg: Config, st: CState, ctype: Byte, data: Bytes): Step<Bytes> {
    if st.mac.None? then Step(Ok(data), st)
    else
      var s := ComputeMac(c, cfg, st, ctype, data);
      Step(match s.res case Err(e) => Err(e) case Ok(mac) => Ok(data + mac), s.st)
  }

  function PadAndEncrypt(c: Crypto, cfg: Config, st: CState, data: Bytes): Step<Bytes>
    requires ValidBlockSize(st)
  {
    if !st.enc.LegacyCipher? then Step(Ok(data), st)
    else if !st.enc.cipher.isBlockCipher then EncryptWith(c, st, data)
    else
      match WithIv(cfg, data)
      case Err(e) => Step(Err(e), st)
      case Ok(withIv) => EncryptWith(c, st, AddPadding(withIv, st.enc.cipher.blockSize))
  }

  function MacThenEncrypt(c: Crypto, cfg: Config, st: CState, data: Bytes, ctype: Byte): Step<Bytes>
    requires ValidBlockSize(st)
  {
    var s := AppendMac(c, cfg, st, ctype, data);
    match s.res
    case Err(e) => s
    case Ok(macced) => PadAndEncrypt(c, cfg, s.st, macced)
  }

  function EncryptThenMac(c: Crypto, cfg: Config, st: CState, buf: Bytes, ctype: Byte): Step<Bytes>
    requires ValidBlockSize(st)
  {
    if st.enc.LegacyCipher? && !st.enc.cipher.isBlockCipher then Step(Err(TypeError), st)
    else
      var s := PadAndEncrypt(c, cfg, st, buf);
      match s.res
      case Err(e) => s
      case Ok(encrypted) => AppendMac(c, cfg, s.st, ctype, encrypted)
  }

  /** The inner plaintext of TLS 1.3: content, type and zero padding. */
  function InnerPlaintext(data: Bytes, ctype: Byte, padding: nat): Bytes {
    data + [ctype] + Zeros(padding)
  }

  /** A record on the wire. */
  datatype Record = Record(ctype: Byte, version: nat, payload: Bytes)

  /** TLS 1.3 hides the type of everything but change_cipher_spec once a cipher is set. */
  predicate HidesType(cfg: Config, st: CState, ctype: Byte) {
    IsTls13(cfg) && st.enc != NoCipher && ctype != CHANGE_CIPHER_SPEC
  }

  /** What is protected in place of the data, and under which type. */
  function Disguise(cfg: Config, st: CState, ctype: Byte, data: Bytes, padding: nat): (Byte, Bytes) {
    if HidesType(cfg, st, ctype) then (APPLICATION_DATA, InnerPlaintext(data, ctype, padding)) else (ctype, data)
  }

  /** The dispatch of sendRecord. */
  function Protect(c: Crypto, cfg: Config, st: CState, ctype: Byte, data: Bytes): Step<Bytes>
    requires ValidBlockSize(st)
  {
    if cfg.version > TLS12 && ctype == CHANGE_CIPHER_SPEC then Step(Ok(data), st)
    else if st.enc.AeadCipher? then EncryptThenSeal(c, cfg, st, data, ctype)
    else if st.encryptThenMac then EncryptThenMac(c, cfg, st, data, ctype)
    else MacThenEncrypt(c, cfg, st, data, ctype)
  }

  /** sendRecord: disguise, protect and frame; the length field of the frame has two bytes. */
  function Send(c: Crypto, cfg: Config, st: CState, ctype: Byte, data: Bytes, padding: nat): Step<Record>
    requires ValidBlockSize(st)
  {
    var (wireType, inner) := Disguise(cfg, st, ctype, data, padding);
    var s := Protect(c, cfg, st, wireType, inner);
    Step(
      match s.res
      case Err(e) => Err(e)
      case Ok(payload) =>
        var _ :- VersionBytes(WireVersion(cfg));
        var _ :- Encode(|payload|, 2);
        Ok(Record(wireType, WireVersion(cfg), payload)),
      s.st)
  }

  //
  // Receiving
  //

  function DecryptAndUnseal(c: Crypto, cfg: Config, st: CState, rec: Record): Step<Bytes>
    requires st.enc.AeadCipher?
  {
    var aead := st.enc.aead;
    var s := GetSeqNumBytes(st);
    Step(
      match s.res
      case Err(e) => Err(e)
      case Ok(seqBytes) =>
        var (nonce, buf) :- NonceAndBody(cfg, aead, st.fixedNonce, seqBytes, rec.payload);
        if aead.tagLength > |buf| then Err(BadRecordMac)
        else
          var authData :- OpenAuthData(cfg, aead, seqBytes, rec, buf);
          match c.open(aead, nonce, buf, authData)
          case None => Err(BadRecordMac)
          case Some(plain) => Ok(plain),
      s.st)
  }

  function NonceAndBody(cfg: Config, aead: Aead, fixedNonce: Bytes, seqBytes: Bytes, payload: Bytes)
    : Result<(Bytes, Bytes)>
  {
    if ExplicitNonce(cfg, aead) then
      if 8 > |payload| then Err(BadRecordMac) else Ok((fixedNonce + payload[..8], payload[8..]))
    else
      var nonce :- GetNonce(cfg, aead, fixedNonce, seqBytes);
      Ok((nonce, payload))
  }

  function OpenAuthData(cfg: Config, aead: Aead, seqBytes: Bytes, rec: Record, buf: Bytes): Result<Bytes>
    requires |buf| >= aead.tagLength
  {
    if !IsTls13(cfg) then
      var version :- VersionBytes(cfg.version);
      var lengthBytes :- Encode(|buf| - aead.tagLength, 2);
      Ok(seqBytes + [rec.ctype] + version + lengthBytes)
    else if rec.ctype != APPLICATION_DATA then Err(UnexpectedMessage)
    else if rec.version != TLS12 then Err(IllegalParameter)
    else
      var version :- VersionBytes(rec.version);
      var lengthBytes :- Encode(|rec.payload|, 2);
      Ok([rec.ctype] + version + lengthBytes)
  }

  /** Split off a MAC at the end of buf and compare it. */
  function CheckMac(c: Crypto, cfg: Config, st: CState, ctype: Byte, buf: Bytes): Step<Bytes> {
    if st.mac.None? then Step(Ok(buf), st)
    else if st.mac.value.digestSize > |buf| then Step(Err(BadRecordMac), st)
    else
      var cut := |buf| - st.mac.value.digestSize;
      var s := ComputeMac(c, cfg, st, ctype, buf[..cut]);
      Step(
        match s.res
        case Err(e) => Err(e)
        case Ok(mac) => if mac == buf[cut..] then Ok(buf[..cut]) else Err(BadRecordMac),
        s.st)
  }

  function StripIv(cfg: Config, blockSize: nat, buf: Bytes): Bytes {
    if cfg.version < TLS11 then buf else if blockSize <= |buf| then buf[blockSize..] else []
  }

  /** Remove padding: every byte of it (but in SSL 3.0 only the last) must name its length. */
  function RemovePadding(cfg: Config, buf: Bytes): Result<Bytes> {
    if buf == [] then Err(BadRecordMac)
    else
      var n := buf[|buf| - 1];
      if n + 1 > |buf| then Err(BadRecordMac)
      else if cfg.version != SSL3 && exists i :: |buf| - (n + 1) <= i < |buf| - 1 && buf[i] != n then Err(BadRecordMac)
      else Ok(buf[..|buf| - (n + 1)])
  }

  function DecryptAndUnpad(c: Crypto, cfg: Config, st: CState, buf: Bytes): Step<Bytes>
    requires ValidBlockSize(st)
  {
    if !st.enc.LegacyCipher? then Step(Ok(buf), st)
    else if !st.enc.cipher.isBlockCipher then Step(Err(TypeError), st)
    else if |buf| % st.enc.cipher.blockSize != 0 then Step(Err(DecryptionFailed), st)
    else
      var s := DecryptWith(c, st, buf);
      Step(RemovePadding(cfg, StripIv(cfg, st.enc.cipher.blockSize, s.res.value)), s.st)
  }

  /** The receiving side of encrypt-then-MAC. */
  function MacThenDecrypt(c: Crypto, cfg: Config, st: CState, ctype: Byte, buf: Bytes): Step<Bytes>
    requires ValidBlockSize(st)
  {
    var s := CheckMac(c, cfg, st, ctype, buf);
    match s.res
    case Err(e) => s
    case Ok(encrypted) => DecryptAndUnpad(c, cfg, s.st, encrypted)
  }

  /** The receiving side of stream ciphers and of the null cipher. */
  function DecryptStreamThenMac(c: Crypto, cfg: Config, st: CState, ctype: Byte, buf: Bytes): Step<Bytes> {
    if st.enc.LegacyCipher? then
      if !(SSL3 <= cfg.version <= TLS12) then Step(Err(AssertionError), st)
      else
        var s := DecryptWith(c, st, buf);
        CheckMac(c, cfg, s.st, ctype, s.res.value)
    else CheckMac(c, cfg, st, ctype, buf)
  }

  function Max0(x: int): nat { if x < 0 then 0 else x }

  /** Whether the padding from start on names its own length; SSL 3.0 only bounds it by the block. */
  predicate CbcPaddingOk(cfg: Config, blockSize: nat, data: Bytes, padStart: nat)
    requires data != []
  {
    var n := data[|data| - 1];
    if cfg.version == SSL3 then n <= blockSize else forall i :: padStart <= i < |data| ==> data[i] == n
  }

  /** What the check of padding and MAC in MAC-then-encrypt decides. */
  predicate CbcMacAndPadOk(c: Crypto, cfg: Config, key: MacKey, seqBytes: Bytes, ctype: Byte, data: Bytes, blockSize: nat) {
    && key.digestSize + 1 <= |data|
    && var padStart := Max0(|data| - data[|data| - 1] - 1);
       var macStart := Max0(padStart - key.digestSize);
       && CbcPaddingOk(cfg, blockSize, data, padStart)
       && var input := MacInput(cfg, seqBytes, ctype, data[..macStart]);
          input.Ok? && c.mac(key, input.value) == data[macStart..macStart + key.digestSize]
  }

  /** The receiving side of MAC-then-encrypt with a block cipher. */
  function DecryptThenMac(c: Crypto, cfg: Config, st: CState, ctype: Byte, buf: Bytes): Step<Bytes>
    requires ValidBlockSize(st) && st.enc.LegacyCipher? && st.enc.cipher.isBlockCipher
  {
    if !(SSL3 <= cfg.version <= TLS12) || st.mac.None? then Step(Err(AssertionError), st)
    else if |buf| % st.enc.cipher.blockSize != 0 then Step(Err(DecryptionFailed), st)
    else
      var s := DecryptWith(c, st, buf);
      var data := StripIv(cfg, st.enc.cipher.blockSize, s.res.value);
      var t := GetSeqNumBytes(s.st);
      Step(
        match t.res
        case Err(e) => Err(e)
        case Ok(seqBytes) =>
          if CbcMacAndPadOk(c, cfg, st.mac.value, seqBytes, ctype, data, st.enc.cipher.blockSize) then
            Ok(data[..Max0(|data| - (data[|data| - 1] + 1 + st.mac.value.digestSize))])
          else Err(BadRecordMac),
        t.st)
  }

  /** TLS 1.3 lets change_cipher_spec, and alerts before the first protected record, pass in the clear. */
  predicate PassesInClear(cfg: Config, st: CState, rec: Record) {
    IsTls13(cfg) && (
      rec.ctype == CHANGE_CIPHER_SPEC ||
      (rec.ctype == ALERT && |rec.payload| < 3 && st.enc != NoCipher && st.seqnum == 0))
  }

  /** The dispatch of recvRecord. */
  function Unprotect(c: Crypto, cfg: Config, st: CState, rec: Record): Step<Bytes>
    requires ValidBlockSize(st)
  {
    if PassesInClear(cfg, st, rec) then Step(Ok(rec.payload), st)
    else if st.enc.AeadCipher? then DecryptAndUnseal(c, cfg, st, rec)
    else if st.encryptThenMac then MacThenDecrypt(c, cfg, st, rec.ctype, rec.payload)
    else if st.enc.LegacyCipher? && st.enc.cipher.isBlockCipher then DecryptThenMac(c, cfg, st, rec.ctype, rec.payload)
    else DecryptStreamThenMac(c, cfg, st, rec.ctype, rec.payload)
  }

  /** Split an inner plaintext at its last nonzero byte, the content type. */
  function DePad(data: Bytes): Result<(Bytes, Byte)> {
    if data == [] then Err(UnexpectedMessage)
    else if data[|data| - 1] != 0 then Ok((data[..|data| - 1], data[|data| - 1]))
    else DePad(data[..|data| - 1])
  }
}
