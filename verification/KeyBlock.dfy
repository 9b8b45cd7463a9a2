/** Slicing the key block into the states of both directions (section 6.3 of RFC 5246). */
module KeyBlocks {
  import opened Results
  import opened ByteStrings
  import opened Primitives
  import opened RecordProtection
  import opened RecordRoundTrip

  datatype CipherKind = AeadKind(name: CipherName, tagLength: nat) | BlockKind | StreamKind | NullKind

  /** The sizes that a cipher suite before TLS 1.3 fixes; AEAD suites have no MAC, and block ciphers an
      initialisation vector as long as their blocks. */
  datatype KeySizes = KeySizes(kind: CipherKind, macLength: nat, keyLength: nat, ivLength: nat)

  predicate Proper(z: KeySizes) {
    && (z.kind.AeadKind? <==> z.macLength == 0)
    && (z.kind.BlockKind? ==> 0 < z.ivLength <= 256)
  }

  function OutputLength(z: KeySizes): nat {
    2 * z.macLength + 2 * z.keyLength + 2 * z.ivLength
  }

  /** The pieces of a key block: MAC keys, cipher keys and initialisation vectors, client first. */
  datatype Pieces = Pieces(clientMac: Bytes, serverMac: Bytes, clientKey: Bytes, serverKey: Bytes, clientIv: Bytes, serverIv: Bytes)

  function Cut(z: KeySizes, block: Bytes): (p: Pieces)
    requires |block| == OutputLength(z)
  {
    var rest1 := block[z.macLength..];
    var rest2 := rest1[z.macLength..];
    var rest3 := rest2[z.keyLength..];
    var rest4 := rest3[z.keyLength..];
    var rest5 := rest4[z.ivLength..];
    Pieces(block[..z.macLength], rest1[..z.macLength], rest2[..z.keyLength], rest3[..z.keyLength], rest4[..z.ivLength], rest5)
  }

  /** The pieces are the whole block, with nothing left over, and of equal sizes for both sides. */
  lemma CutConsumesBlock(z: KeySizes, block: Bytes)
    requires |block| == OutputLength(z)
    ensures var p := Cut(z, block);
            && Flatten([p.clientMac, p.serverMac, p.clientKey, p.serverKey, p.clientIv, p.serverIv]) == block
            && |p.clientMac| == |p.serverMac| == z.macLength && |p.clientKey| == |p.serverKey| == z.keyLength
            && |p.clientIv| == |p.serverIv| == z.ivLength
  {
    hide Flatten;
    var p := Cut(z, block);
    var rest1 := block[z.macLength..];
    var rest2 := rest1[z.macLength..];
    var rest3 := rest2[z.keyLength..];
    var rest4 := rest3[z.keyLength..];
    FlattenTwo(p.clientIv, p.serverIv);
    Rejoin(z.ivLength, rest4);
    var l2 := [p.clientIv, p.serverIv];
    var l3 := [p.serverKey] + l2;
    FlattenMore(p.serverKey, l2);
    Rejoin(z.keyLength, rest3);
    var l4 := [p.clientKey] + l3;
    FlattenMore(p.clientKey, l3);
    Rejoin(z.keyLength, rest2);
    var l5 := [p.serverMac] + l4;
    FlattenMore(p.serverMac, l4);
    Rejoin(z.macLength, rest1);
    FlattenMore(p.clientMac, l5);
    assert [p.clientMac] + l5 == [p.clientMac, p.serverMac, p.clientKey, p.serverKey, p.clientIv, p.serverIv];
    Rejoin(z.macLength, block);
  }

  lemma Rejoin(n: nat, s: Bytes)
    requires n <= |s|
    ensures s[..n] + s[n..] == s
  {
  }

  lemma FlattenMore(a: Bytes, later: seq<Bytes>)
    ensures Flatten([a] + later) == a + Flatten(later)
  {
    assert ([a] + later)[1..] == later;
  }

  lemma FlattenTwo(a: Bytes, b: Bytes)
    ensures Flatten([a, b]) == a + b
  {
    assert Flatten([a, b]) == a + Flatten([b]) && Flatten([b]) == b + Flatten([]);
  }

  /** The state of one side from its pieces; the flag is that of the state that was pending before. */
  function StateFrom(z: KeySizes, mac: Bytes, key: Bytes, iv: Bytes, encryptThenMac: bool): CState {
    match z.kind
    case AeadKind(name, tagLength) => CState(None, AeadCipher(Aead(name, key, tagLength, 12)), iv, 0, encryptThenMac)
    case BlockKind => CState(Some(MacKey(mac, z.macLength)), LegacyCipher(Cipher(key, iv, true, z.ivLength)), [], 0, encryptThenMac)
    case StreamKind => CState(Some(MacKey(mac, z.macLength)), LegacyCipher(Cipher(key, iv, false, 0)), [], 0, encryptThenMac)
    case NullKind => CState(Some(MacKey(mac, z.macLength)), NoCipher, [], 0, encryptThenMac)
  }

  /** The state under which the client, or the server, writes. */
  function WritingState(z: KeySizes, block: Bytes, client: bool, encryptThenMac: bool): CState
    requires |block| == OutputLength(z)
  {
    var p := Cut(z, block);
    if client then StateFrom(z, p.clientMac, p.clientKey, p.clientIv, encryptThenMac)
    else StateFrom(z, p.serverMac, p.serverKey, p.serverIv, encryptThenMac)
  }

  /** Receiving takes no notice of the initialisation vector that would be sent. */
  lemma UnprotectIgnoresIv(c: Crypto, cfg: Config, iv: Option<Bytes>, st: CState, rec: Record)
    requires ValidBlockSize(st)
    ensures Unprotect(c, cfg.(ivBlock := iv), st, rec) == Unprotect(c, cfg, st, rec)
  {
    hide DecryptAndUnseal, MacThenDecrypt, DecryptThenMac, DecryptStreamThenMac;
    if st.enc.AeadCipher? {
      UnsealIgnoresIv(c, cfg, iv, st, rec);
    } else if st.encryptThenMac {
      MacFirstIgnoresIv(c, cfg, iv, st, rec.ctype, rec.payload);
    } else if st.enc.LegacyCipher? && st.enc.cipher.isBlockCipher {
      BlockIgnoresIv(c, cfg, iv, st, rec.ctype, rec.payload);
    } else {
      StreamIgnoresIv(c, cfg, iv, st, rec.ctype, rec.payload);
    }
  }

  lemma UnsealIgnoresIv(c: Crypto, cfg: Config, iv: Option<Bytes>, st: CState, rec: Record)
    requires st.enc.AeadCipher?
    ensures DecryptAndUnseal(c, cfg.(ivBlock := iv), st, rec) == DecryptAndUnseal(c, cfg, st, rec)
  {
    hide Pow256, ToBE, XorBytes;
  }

  lemma CheckIgnoresIv(c: Crypto, cfg: Config, iv: Option<Bytes>, st: CState, ctype: Byte, buf: Bytes)
    ensures CheckMac(c, cfg.(ivBlock := iv), st, ctype, buf) == CheckMac(c, cfg, st, ctype, buf)
  {
    hide Pow256, ToBE;
  }

  lemma MacFirstIgnoresIv(c: Crypto, cfg: Config, iv: Option<Bytes>, st: CState, ctype: Byte, buf: Bytes)
    requires ValidBlockSize(st)
    ensures MacThenDecrypt(c, cfg.(ivBlock := iv), st, ctype, buf) == MacThenDecrypt(c, cfg, st, ctype, buf)
  {
    hide CheckMac;
    CheckIgnoresIv(c, cfg, iv, st, ctype, buf);
  }

  lemma StreamIgnoresIv(c: Crypto, cfg: Config, iv: Option<Bytes>, st: CState, ctype: Byte, buf: Bytes)
    ensures DecryptStreamThenMac(c, cfg.(ivBlock := iv), st, ctype, buf) == DecryptStreamThenMac(c, cfg, st, ctype, buf)
  {
    hide CheckMac;
    CheckIgnoresIv(c, cfg, iv, st, ctype, buf);
    if st.enc.LegacyCipher? {
      var s := DecryptWith(c, st, buf);
      CheckIgnoresIv(c, cfg, iv, s.st, ctype, s.res.value);
    }
  }

  lemma BlockIgnoresIv(c: Crypto, cfg: Config, iv: Option<Bytes>, st: CState, ctype: Byte, buf: Bytes)
    requires ValidBlockSize(st) && st.enc.LegacyCipher? && st.enc.cipher.isBlockCipher
    ensures DecryptThenMac(c, cfg.(ivBlock := iv), st, ctype, buf) == DecryptThenMac(c, cfg, st, ctype, buf)
  {
    hide Pow256, ToBE, CbcMacAndPadOk;
    var data := StripIv(cfg, st.enc.cipher.blockSize, DecryptWith(c, st, buf).res.value);
    if st.mac.Some? && GetSeqNumBytes(st).res.Ok? {
      CbcIgnoresIv(c, cfg, iv, st.mac.value, GetSeqNumBytes(st).res.value, ctype, data, st.enc.cipher.blockSize);
    }
  }

  lemma CbcIgnoresIv(c: Crypto, cfg: Config, iv: Option<Bytes>, key: MacKey, seqBytes: Bytes, ctype: Byte, data: Bytes, blockSize: nat)
    ensures CbcMacAndPadOk(c, cfg.(ivBlock := iv), key, seqBytes, ctype, data, blockSize)
         == CbcMacAndPadOk(c, cfg, key, seqBytes, ctype, data, blockSize)
  {
    hide Pow256, ToBE;
    if key.digestSize + 1 <= |data| {
      var padStart := Max0(|data| - data[|data| - 1] - 1);
      assert CbcPaddingOk(cfg.(ivBlock := iv), blockSize, data, padStart) == CbcPaddingOk(cfg, blockSize, data, padStart);
    }
  }

  lemma WritingStateUsable(z: KeySizes, block: Bytes, version: nat, client: bool, encryptThenMac: bool, iv: Bytes)
    requires Proper(z) && |block| == OutputLength(z) && SSL3 <= version <= TLS12 && |iv| == z.ivLength
    ensures Usable(Config(version, false, Some(iv)), WritingState(z, block, client, encryptThenMac))
  {
    hide Cut;
  }

  /** Two endpoints that derive their states from one key block understand each other in both directions, under
      every kind of cipher, with initialisation vectors that each draws for itself. */
  lemma PendingStatesInteroperate(c: Crypto, z: KeySizes, block: Bytes, version: nat, clientWrites: bool, encryptThenMac: bool,
                                  senderIv: Bytes, receiverIv: Option<Bytes>, ctype: Byte, data: Bytes)
    requires Correct(c) && Proper(z) && |block| == OutputLength(z) && SSL3 <= version <= TLS12 && |senderIv| == z.ivLength
    requires Send(c, Config(version, false, Some(senderIv)), WritingState(z, block, clientWrites, encryptThenMac), ctype, data, 0).res.Ok?
    ensures var st := WritingState(z, block, clientWrites, encryptThenMac);
            var s := Send(c, Config(version, false, Some(senderIv)), st, ctype, data, 0);
            Unprotect(c, Config(version, false, receiverIv), st, s.res.value) == Step(Ok(data), s.st)
  {
    var cfg := Config(version, false, Some(senderIv));
    var st := WritingState(z, block, clientWrites, encryptThenMac);
    hide Correct, Send, Unprotect, WritingState, Usable;
    WritingStateUsable(z, block, version, clientWrites, encryptThenMac, senderIv);
    ProtectionRoundTrip(c, cfg, st, ctype, data, 0);
    UnprotectIgnoresIv(c, cfg, receiverIv, st, Send(c, cfg, st, ctype, data, 0).res.value);
  }
}
