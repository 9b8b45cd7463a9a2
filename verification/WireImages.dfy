/** Records byte for byte: what is put under MACs and seals, and what of it goes on the wire. */
module WireImages {
  import opened Results
  import opened ByteStrings
  import opened Primitives
  import opened RecordProtection
  import opened NonceUniqueness
  import opened KeyBlocks

  /** Sequence number, type, version and length, as sections 6.2.3.1 and 6.2.3.3 of RFC 5246 put them. */
  predicate IsHeader(b: Bytes, seqnum: nat, ctype: Byte, version: nat, length: nat) {
    && |b| == 13 && FromBE(b[..8]) == seqnum && b[8] == ctype && FromBE(b[9..11]) == version && FromBE(b[11..]) == length
  }

  /** The same in SSL 3.0, which leaves out the version. */
  predicate IsOldHeader(b: Bytes, seqnum: nat, ctype: Byte, length: nat) {
    |b| == 11 && FromBE(b[..8]) == seqnum && b[8] == ctype && FromBE(b[9..]) == length
  }

  /** What a MAC is computed over: the header of the plaintext, then the plaintext. */
  lemma MacInputImage(cfg: Config, seqnum: nat, ctype: Byte, data: Bytes)
    requires seqnum < Pow256(8) && MacInput(cfg, ToBE(seqnum, 8), ctype, data).Ok?
    ensures var m := MacInput(cfg, ToBE(seqnum, 8), ctype, data).value;
            if cfg.version == SSL3 then |m| == 11 + |data| && IsOldHeader(m[..11], seqnum, ctype, |data|) && m[11..] == data
            else |m| == 13 + |data| && IsHeader(m[..13], seqnum, ctype, cfg.version, |data|) && m[13..] == data
  {
    hide Pow256, ToBE, FromBE;
    var m, s, l := MacInput(cfg, ToBE(seqnum, 8), ctype, data).value, ToBE(seqnum, 8), ToBE(|data|, 2);
    if cfg.version == SSL3 {
      assert m == s + [ctype] + [] + l + data;
      assert m[..11][..8] == s && m[..11][9..] == l && m[11..] == data;
    } else {
      var v := ToBE(cfg.version, 2);
      assert m == s + [ctype] + v + l + data;
      assert m[..13][..8] == s && m[..13][9..11] == v && m[..13][11..] == l && m[13..] == data;
    }
  }

  /** The additional data of AEAD before TLS 1.3 is the same header; in TLS 1.3 it is that of the record. */
  lemma AuthDataImage(cfg: Config, aead: Aead, seqnum: nat, ctype: Byte, length: nat)
    requires seqnum < Pow256(8) && SealAuthData(cfg, aead, ToBE(seqnum, 8), ctype, length).Ok?
    ensures var ad := SealAuthData(cfg, aead, ToBE(seqnum, 8), ctype, length).value;
            if IsTls13(cfg) then
              |ad| == 5 && ad[0] == ctype && FromBE(ad[1..3]) == 0x303 && FromBE(ad[3..]) == length + aead.tagLength
            else IsHeader(ad, seqnum, ctype, cfg.version, length)
  {
    hide Pow256, ToBE, FromBE;
    var ad, s := SealAuthData(cfg, aead, ToBE(seqnum, 8), ctype, length).value, ToBE(seqnum, 8);
    if IsTls13(cfg) {
      var v, l := ToBE(TLS12, 2), ToBE(length + aead.tagLength, 2);
      assert ad == [ctype] + v + l;
      assert ad[1..3] == v && ad[3..] == l;
    } else {
      var v, l := ToBE(cfg.version, 2), ToBE(length, 2);
      assert ad == s + [ctype] + v + l;
      assert ad[..8] == s && ad[9..11] == v && ad[11..] == l;
    }
  }

  /** The nonce: the sequence number xored into the fixed part (TLS 1.3, and ChaCha20 of RFC 7905), or put behind
      it (RFC 5288). */
  lemma NonceImage(cfg: Config, st: CState, k: nat)
    requires st.enc.AeadCipher? && k < SEQ_LIMIT && NonceAt(cfg, st, k).Ok?
    ensures var nonce := NonceAt(cfg, st, k).value;
            if (st.enc.aead.name == Chacha20Poly1305 && |st.fixedNonce| == 12) || IsTls13(cfg) then
              |nonce| == |st.fixedNonce| && XorBytes(nonce, st.fixedNonce) == Zeros(|st.fixedNonce| - 8) + ToBE(k, 8)
            else nonce == st.fixedNonce + ToBE(k, 8)
  {
    assert Pow256(8) == SEQ_LIMIT;
    hide Pow256, ToBE, XorByte;
    if (st.enc.aead.name == Chacha20Poly1305 && |st.fixedNonce| == 12) || IsTls13(cfg) {
      XorBytesBack(Zeros(|st.fixedNonce| - 8) + ToBE(k, 8), st.fixedNonce);
    }
  }

  /** Only AES before TLS 1.3 sends the sequence number along, in front of what is sealed. */
  lemma ExplicitNonceSent(c: Crypto, cfg: Config, st: CState, ctype: Byte, data: Bytes)
    requires Correct(c) && st.enc.AeadCipher? && EncryptThenSeal(c, cfg, st, data, ctype).res.Ok?
    ensures var payload := EncryptThenSeal(c, cfg, st, data, ctype).res.value;
            if !IsTls13(cfg) && (st.enc.aead.name == AesGcm || st.enc.aead.name == AesCcm) then
              |payload| == 8 + |data| + st.enc.aead.tagLength && FromBE(payload[..8]) == st.seqnum
            else |payload| == |data| + st.enc.aead.tagLength
  {
    hide Pow256, ToBE, FromBE, GetNonce, SealAuthData;
  }

  /** plain is content and MAC, with the fewest bytes of padding that fill blocks, each naming their number. */
  predicate IsPaddedTo(plain: Bytes, content: Bytes, b: nat)
    requires b > 0
  {
    && |content| < |plain| <= |content| + b && |plain| % b == 0 && plain[..|content|] == content
    && forall i :: |content| <= i < |plain| ==> plain[i] == |plain| - |content| - 1
  }

  lemma PaddingImage(data: Bytes, b: nat)
    requires 0 < b <= 256
    ensures IsPaddedTo(AddPadding(data, b), data, b)
  {
  }

  /** MAC-then-encrypt with a block cipher: content, MAC and padding are encrypted, behind the initialisation
      vector that TLS 1.1 and later send. */
  lemma BlockImage(c: Crypto, cfg: Config, st: CState, data: Bytes, ctype: Byte)
    requires ValidBlockSize(st) && st.enc.LegacyCipher? && st.enc.cipher.isBlockCipher && st.mac.Some?
    requires MacThenEncrypt(c, cfg, st, data, ctype).res.Ok?
    ensures var (b, iv) := (st.enc.cipher.blockSize, if cfg.version < 0x302 then [] else cfg.ivBlock.value);
            && st.seqnum < SEQ_LIMIT && (cfg.version >= 0x302 ==> cfg.ivBlock.Some?)
            && MacInput(cfg, ToBE(st.seqnum, 8), ctype, data).Ok?
            && MacThenEncrypt(c, cfg, st, data, ctype).res.value
            == c.encrypt(st.enc.cipher, AddPadding(
                 iv + (data + c.mac(st.mac.value, MacInput(cfg, ToBE(st.seqnum, 8), ctype, data).value)), b)).1
  {
    assert Pow256(8) == SEQ_LIMIT;
    hide Pow256, ToBE, FromBE, MacInput, AddPadding;
    if cfg.version < 0x302 {
      var x := data + c.mac(st.mac.value, MacInput(cfg, ToBE(st.seqnum, 8), ctype, data).value);
      assert [] + x == x;
    }
  }

  /** Encrypt-then-MAC: content and padding are encrypted behind the initialisation vector, and the MAC of that
      follows (RFC 7366). */
  lemma EncryptThenMacImage(c: Crypto, cfg: Config, st: CState, data: Bytes, ctype: Byte)
    requires ValidBlockSize(st) && st.enc.LegacyCipher? && st.enc.cipher.isBlockCipher && st.mac.Some?
    requires cfg.version >= 0x302 && cfg.ivBlock.Some? && EncryptThenMac(c, cfg, st, data, ctype).res.Ok?
    ensures var encrypted := c.encrypt(st.enc.cipher, AddPadding(cfg.ivBlock.value + data, st.enc.cipher.blockSize)).1;
            && st.seqnum < SEQ_LIMIT && MacInput(cfg, ToBE(st.seqnum, 8), ctype, encrypted).Ok?
            && EncryptThenMac(c, cfg, st, data, ctype).res.value
            == encrypted + c.mac(st.mac.value, MacInput(cfg, ToBE(st.seqnum, 8), ctype, encrypted).value)
  {
    assert Pow256(8) == SEQ_LIMIT;
    hide Pow256, ToBE, FromBE, MacInput, AddPadding;
  }

  lemma CutSlices(z: KeySizes, block: Bytes)
    requires |block| == OutputLength(z)
    ensures var (p, m, k, v) := (Cut(z, block), z.macLength, z.keyLength, z.ivLength);
            && p.clientMac == block[..m] && p.serverMac == block[m..2 * m]
            && p.clientKey == block[2 * m..2 * m + k] && p.serverKey == block[2 * m + k..2 * m + 2 * k]
            && p.clientIv == block[2 * m + 2 * k..2 * m + 2 * k + v] && p.serverIv == block[2 * m + 2 * k + v..]
  {
  }

  /** A state that is made of the given secrets alone. */
  predicate MadeOf(z: KeySizes, st: CState, mac: Bytes, key: Bytes, iv: Bytes) {
    && st.seqnum == 0 && st.mac == (if z.kind.AeadKind? then None else Some(MacKey(mac, z.macLength)))
    && match z.kind
       case AeadKind(name, tag) => st.enc == AeadCipher(Aead(name, key, tag, 12)) && st.fixedNonce == iv
       case BlockKind => st.enc == LegacyCipher(Cipher(key, iv, true, z.ivLength))
       case StreamKind => st.enc == LegacyCipher(Cipher(key, iv, false, 0))
       case NullKind => st.enc == NoCipher
  }

  /** Where the secrets of the client lie in the key block, and where those of the server: behind those of the
      client, each kind by itself (section 6.3 of RFC 5246). */
  lemma KeysFromBlock(z: KeySizes, block: Bytes, client: bool, encryptThenMac: bool)
    requires |block| == OutputLength(z)
    ensures var (m, k, v) := (z.macLength, z.keyLength, z.ivLength);
            var st := WritingState(z, block, client, encryptThenMac);
            if client then MadeOf(z, st, block[..m], block[2 * m..2 * m + k], block[2 * m + 2 * k..2 * m + 2 * k + v])
            else MadeOf(z, st, block[m..2 * m], block[2 * m + k..2 * m + 2 * k], block[2 * m + 2 * k + v..])
  {
    hide Cut;
    CutSlices(z, block);
  }
}
