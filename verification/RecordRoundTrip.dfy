/** What one side protects, the other side recovers, and both states advance alike. */
module RecordRoundTrip {
  import opened Results
  import opened ByteStrings
  import opened Modular
  import opened Primitives
  import opened RecordProtection

  /** The settings that calcPendingStates and the version setter establish. */
  ghost predicate Usable(cfg: Config, st: CState) {
    && (cfg.version > TLS12 ==> cfg.tls13record)
    && ValidBlockSize(st)
    && (st.enc.LegacyCipher? ==> SSL3 <= cfg.version <= TLS12)
    && (st.enc.LegacyCipher? && st.enc.cipher.isBlockCipher ==>
          && (cfg.version >= TLS11 ==> cfg.ivBlock.Some? && |cfg.ivBlock.value| == st.enc.cipher.blockSize)
          && (!st.encryptThenMac ==> st.mac.Some?))
  }

  lemma SealOpens(c: Crypto, cfg: Config, st: CState, data: Bytes, ctype: Byte)
    requires Correct(c) && st.enc.AeadCipher? && (IsTls13(cfg) ==> ctype == APPLICATION_DATA)
    requires EncryptThenSeal(c, cfg, st, data, ctype).res.Ok?
    ensures var s := EncryptThenSeal(c, cfg, st, data, ctype);
            DecryptAndUnseal(c, cfg, st, Record(ctype, WireVersion(cfg), s.res.value)) == Step(Ok(data), s.st)
  {
    hide Pow256, FromBE, ToBE;
    var aead := st.enc.aead;
    var s := EncryptThenSeal(c, cfg, st, data, ctype);
    var seqBytes := GetSeqNumBytes(st).res.value;
    var authData := SealAuthData(cfg, aead, seqBytes, ctype, |data|).value;
    var nonce := GetNonce(cfg, aead, st.fixedNonce, seqBytes).value;
    var sealed := c.seal(aead, nonce, data, authData);
    var rec := Record(ctype, WireVersion(cfg), s.res.value);
    if ExplicitNonce(cfg, aead) {
      assert rec.payload == seqBytes + sealed;
      assert rec.payload[..8] == seqBytes && rec.payload[8..] == sealed;
    } else {
      assert rec.payload == sealed;
    }
    assert NonceAndBody(cfg, aead, st.fixedNonce, seqBytes, rec.payload) == Ok((nonce, sealed));
    assert OpenAuthData(cfg, aead, seqBytes, rec, sealed) == Ok(authData);
  }

  lemma AppendedMacChecks(c: Crypto, cfg: Config, st: CState, ctype: Byte, data: Bytes)
    requires Correct(c) && AppendMac(c, cfg, st, ctype, data).res.Ok?
    ensures var s := AppendMac(c, cfg, st, ctype, data);
            && CheckMac(c, cfg, st, ctype, s.res.value) == Step(Ok(data), s.st)
            && s.st.enc == st.enc
  {
    hide Pow256, FromBE, ToBE, MacInput;
    if st.mac.Some? {
      var mac := ComputeMac(c, cfg, st, ctype, data).res.value;
      var buf := AppendMac(c, cfg, st, ctype, data).res.value;
      assert buf == data + mac && |mac| == st.mac.value.digestSize;
      assert buf[..|data|] == data && buf[|data|..] == mac;
    }
  }

  lemma PaddingRemoved(cfg: Config, data: Bytes, blockSize: nat)
    requires 0 < blockSize <= 256
    ensures RemovePadding(cfg, AddPadding(data, blockSize)) == Ok(data)
  {
    var padded := AddPadding(data, blockSize);
    var n := blockSize - 1 - |data| % blockSize;
    assert padded == data + seq(n + 1, _ => n);
    assert padded[..|data|] == data;
  }

  /** Encrypting with a block cipher and its initialisation vector is undone, and the cipher states agree. */
  lemma BlockEncryptionInverts(c: Crypto, cfg: Config, st: CState, data: Bytes)
    requires Correct(c) && Usable(cfg, st) && st.enc.LegacyCipher? && st.enc.cipher.isBlockCipher
    ensures var b := st.enc.cipher.blockSize;
            var s := PadAndEncrypt(c, cfg, st, data);
            && s.res.Ok? && |s.res.value| % b == 0
            && var t := DecryptWith(c, st, s.res.value);
               t.st == s.st && StripIv(cfg, b, t.res.value) == AddPadding(data, b)
  {
    hide Correct;
    var b := st.enc.cipher.blockSize;
    var withIv := WithIv(cfg, data).value;
    var padded := AddPadding(withIv, b);
    EncryptionInverts(c, st, padded);
    if cfg.version >= TLS11 {
      var iv := cfg.ivBlock.value;
      SamePadding(|iv|, |data|, b);
      assert padded == iv + AddPadding(data, b);
      assert padded[b..] == AddPadding(data, b);
    }
  }

  lemma SamePadding(iv: nat, length: nat, b: nat)
    requires iv == b > 0
    ensures (iv + length) % b == length % b
  {
    AddMultiple(length, 1, b);
  }

  lemma EncryptionInverts(c: Crypto, st: CState, data: Bytes)
    requires Correct(c) && st.enc.LegacyCipher?
    requires st.enc.cipher.isBlockCipher ==> st.enc.cipher.blockSize > 0 && |data| % st.enc.cipher.blockSize == 0
    ensures var s := EncryptWith(c, st, data);
            DecryptWith(c, st, s.res.value) == Step(Ok(data), s.st) && |s.res.value| == |data|
  {
  }

  /** MACs use the sequence number, ciphers their own state: the two do not see each other. */
  lemma CheckMacIgnoresCipher(c: Crypto, cfg: Config, st: CState, enc: Enc, ctype: Byte, buf: Bytes)
    ensures CheckMac(c, cfg, st.(enc := enc), ctype, buf)
         == var s := CheckMac(c, cfg, st, ctype, buf); Step(s.res, s.st.(enc := enc))
  {
    hide MacInput, ToBE, Pow256;
  }

  lemma CheckMacAdvances(c: Crypto, cfg: Config, st: CState, ctype: Byte, buf: Bytes)
    ensures var s := CheckMac(c, cfg, st, ctype, buf); s.st == st.(seqnum := s.st.seqnum)
  {
    hide MacInput, ToBE, Pow256;
  }

  lemma DecryptIgnoresSeqnum(c: Crypto, st: CState, seqnum: nat, buf: Bytes)
    requires st.enc.LegacyCipher?
    ensures DecryptWith(c, st.(seqnum := seqnum), buf)
         == var s := DecryptWith(c, st, buf); Step(s.res, s.st.(seqnum := seqnum))
  {
  }

  lemma EncryptThenMacInverts(c: Crypto, cfg: Config, st: CState, data: Bytes, ctype: Byte)
    requires Correct(c) && Usable(cfg, st) && !st.enc.AeadCipher?
    requires EncryptThenMac(c, cfg, st, data, ctype).res.Ok?
    ensures var s := EncryptThenMac(c, cfg, st, data, ctype);
            MacThenDecrypt(c, cfg, st, ctype, s.res.value) == Step(Ok(data), s.st)
  {
    hide Correct, AppendMac, CheckMac, AddPadding, RemovePadding, DecryptWith, StripIv, PadAndEncrypt;
    var s := EncryptThenMac(c, cfg, st, data, ctype);
    var p := PadAndEncrypt(c, cfg, st, data);
    AppendedMacChecks(c, cfg, p.st, ctype, p.res.value);
    EncryptChangesCipherOnly(c, cfg, st, data);
    CheckMacIgnoresCipher(c, cfg, st, p.st.enc, ctype, s.res.value);
    CheckMacAdvances(c, cfg, st, ctype, s.res.value);
    if st.enc.LegacyCipher? {
      BlockEncryptionInverts(c, cfg, st, data);
      DecryptIgnoresSeqnum(c, st, s.st.seqnum, p.res.value);
      PaddingRemoved(cfg, data, st.enc.cipher.blockSize);
    }
  }

  lemma EncryptChangesCipherOnly(c: Crypto, cfg: Config, st: CState, data: Bytes)
    requires ValidBlockSize(st)
    ensures var p := PadAndEncrypt(c, cfg, st, data);
            p.st == st.(enc := p.st.enc) && (!st.enc.LegacyCipher? ==> p == Step(Ok(data), st))
  {
  }

  lemma StreamInverts(c: Crypto, cfg: Config, st: CState, data: Bytes, ctype: Byte)
    requires Correct(c) && Usable(cfg, st) && !st.enc.AeadCipher?
    requires st.enc.LegacyCipher? ==> !st.enc.cipher.isBlockCipher && SSL3 <= cfg.version <= TLS12
    requires MacThenEncrypt(c, cfg, st, data, ctype).res.Ok?
    ensures var s := MacThenEncrypt(c, cfg, st, data, ctype);
            DecryptStreamThenMac(c, cfg, st, ctype, s.res.value) == Step(Ok(data), s.st)
  {
    hide Correct, AppendMac, CheckMac, EncryptWith, DecryptWith;
    var m := AppendMac(c, cfg, st, ctype, data);
    AppendedMacChecks(c, cfg, st, ctype, data);
    CheckMacAdvances(c, cfg, st, ctype, m.res.value);
    if st.enc.LegacyCipher? {
      EncryptionInverts(c, m.st, m.res.value);
      DecryptIgnoresSeqnum(c, st, m.st.seqnum, EncryptWith(c, m.st, m.res.value).res.value);
      CheckMacIgnoresCipher(c, cfg, st, EncryptWith(c, m.st, m.res.value).st.enc, ctype, m.res.value);
      EncryptWithChangesCipherOnly(c, m.st, m.res.value);
      DecryptWithChangesCipherOnly(c, st, EncryptWith(c, m.st, m.res.value).res.value);
    }
  }

  lemma EncryptWithChangesCipherOnly(c: Crypto, st: CState, data: Bytes)
    requires st.enc.LegacyCipher?
    ensures var s := EncryptWith(c, st, data); s.res.Ok? && s.st == st.(enc := s.st.enc)
  {
  }

  lemma DecryptWithChangesCipherOnly(c: Crypto, st: CState, data: Bytes)
    requires st.enc.LegacyCipher?
    ensures var s := DecryptWith(c, st, data); s.res.Ok? && s.st == st.(enc := s.st.enc)
  {
  }

  /** A padded plaintext with its MAC passes the combined check, which finds the data again. */
  lemma CbcCheckAccepts(c: Crypto, cfg: Config, key: MacKey, seqBytes: Bytes, ctype: Byte, data: Bytes, blockSize: nat)
    requires Correct(c) && 0 < blockSize <= 256 && MacInput(cfg, seqBytes, ctype, data).Ok?
    ensures var mac := c.mac(key, MacInput(cfg, seqBytes, ctype, data).value);
            var padded := AddPadding(data + mac, blockSize);
            && CbcMacAndPadOk(c, cfg, key, seqBytes, ctype, padded, blockSize)
            && padded[..Max0(|padded| - (padded[|padded| - 1] + 1 + key.digestSize))] == data
  {
    var mac := c.mac(key, MacInput(cfg, seqBytes, ctype, data).value);
    var padded := AddPadding(data + mac, blockSize);
    assert |mac| == key.digestSize;
    hide Correct, MacInput;
    var n := blockSize - 1 - |data + mac| % blockSize;
    assert padded == data + mac + seq(n + 1, _ => n);
    assert padded[|padded| - 1] == n;
    assert padded[..|data|] == data && padded[|data|..|data| + |mac|] == mac;
  }

  lemma BlockMacThenEncryptInverts(c: Crypto, cfg: Config, st: CState, data: Bytes, ctype: Byte)
    requires Correct(c) && Usable(cfg, st) && st.enc.LegacyCipher? && st.enc.cipher.isBlockCipher && !st.encryptThenMac
    requires MacThenEncrypt(c, cfg, st, data, ctype).res.Ok?
    ensures var s := MacThenEncrypt(c, cfg, st, data, ctype);
            DecryptThenMac(c, cfg, st, ctype, s.res.value) == Step(Ok(data), s.st)
  {
    hide Correct, AddPadding, DecryptWith, StripIv, PadAndEncrypt, CbcMacAndPadOk, ToBE, Pow256;
    var b := st.enc.cipher.blockSize;
    var seqBytes := GetSeqNumBytes(st).res.value;
    var m := AppendMac(c, cfg, st, ctype, data);
    var s := MacThenEncrypt(c, cfg, st, data, ctype);
    BlockEncryptionInverts(c, cfg, m.st, m.res.value);
    DecryptIgnoresSeqnum(c, st, m.st.seqnum, s.res.value);
    DecryptWithChangesCipherOnly(c, st, s.res.value);
    CbcCheckAccepts(c, cfg, st.mac.value, seqBytes, ctype, data, b);
    assert SSL3 <= cfg.version <= TLS12;
    assert StripIv(cfg, b, DecryptWith(c, st, s.res.value).res.value) == AddPadding(m.res.value, b);
  }

  /** DePad returns exactly the content and type that were padded. */
  lemma {:induction false} DePadInverts(data: Bytes, ctype: Byte, padding: nat)
    requires ctype != 0
    ensures DePad(InnerPlaintext(data, ctype, padding)) == Ok((data, ctype))
  {
    var inner := InnerPlaintext(data, ctype, padding);
    if padding == 0 {
      assert inner == data + [ctype];
      assert inner[..|inner| - 1] == data;
    } else {
      assert inner[..|inner| - 1] == InnerPlaintext(data, ctype, padding - 1);
      DePadInverts(data, ctype, padding - 1);
    }
  }

  /** The record protection round trip, for every construction: what sendRecord makes from a state,
      recvRecord takes apart from an equal state, to the same plaintext and the same next state. */
  lemma ProtectionRoundTrip(c: Crypto, cfg: Config, st: CState, ctype: Byte, data: Bytes, padding: nat)
    requires Correct(c) && Usable(cfg, st) && Send(c, cfg, st, ctype, data, padding).res.Ok?
    ensures var s := Send(c, cfg, st, ctype, data, padding);
            && Unprotect(c, cfg, st, s.res.value) == Step(Ok(Disguise(cfg, st, ctype, data, padding).1), s.st)
            && (HidesType(cfg, st, ctype) && ctype != 0 ==>
                  DePad(Disguise(cfg, st, ctype, data, padding).1) == Ok((data, ctype)))
  {
    hide Correct, EncryptThenSeal, EncryptThenMac, MacThenEncrypt, InnerPlaintext, DePad;
    hide DecryptAndUnseal, MacThenDecrypt, DecryptThenMac, DecryptStreamThenMac, Encode;
    var (wireType, inner) := Disguise(cfg, st, ctype, data, padding);
    if HidesType(cfg, st, ctype) && ctype != 0 {
      DePadInverts(data, ctype, padding);
    }
    if cfg.version > TLS12 && wireType == CHANGE_CIPHER_SPEC {
    } else if st.enc.AeadCipher? {
      SealOpens(c, cfg, st, inner, wireType);
    } else if st.encryptThenMac {
      EncryptThenMacInverts(c, cfg, st, inner, wireType);
    } else if st.enc.LegacyCipher? && st.enc.cipher.isBlockCipher {
      BlockMacThenEncryptInverts(c, cfg, st, inner, wireType);
    } else {
      StreamInverts(c, cfg, st, inner, wireType);
    }
  }
}
