/** No write state ever seals two records under one nonce. */
module NonceUniqueness {
  import opened Results
  import opened ByteStrings
  import opened Primitives
  import opened RecordProtection

  /** The nonce of the record with sequence number k. */
  function NonceAt(cfg: Config, st: CState, k: nat): Result<Bytes>
    requires st.enc.AeadCipher? && k < SEQ_LIMIT
  {
    assert Pow256(8) == SEQ_LIMIT;
    GetNonce(cfg, st.enc.aead, st.fixedNonce, ToBE(k, 8))
  }

  lemma NonceInjective(cfg: Config, st: CState, j: nat, k: nat)
    requires st.enc.AeadCipher? && j < SEQ_LIMIT && k < SEQ_LIMIT
    requires NonceAt(cfg, st, j).Ok? && NonceAt(cfg, st, j) == NonceAt(cfg, st, k)
    ensures j == k
  {
    hide ToBE, FromBE, XorByte;
    assert Pow256(8) == SEQ_LIMIT;
    hide Pow256;
    var fixedNonce, a, b := st.fixedNonce, ToBE(j, 8), ToBE(k, 8);
    var nonce := NonceAt(cfg, st, j).value;
    if (st.enc.aead.name == Chacha20Poly1305 && |fixedNonce| == 12) || IsTls13(cfg) {
      var pad := Zeros(|fixedNonce| - 8);
      XorBytesBack(pad + a, fixedNonce);
      XorBytesBack(pad + b, fixedNonce);
      assert (pad + a)[|pad|..] == a && (pad + b)[|pad|..] == b;
    } else {
      assert nonce[|fixedNonce|..] == a && nonce[|fixedNonce|..] == b;
    }
    assert FromBE(a) == j && FromBE(b) == k;
  }

  /** A message handed to sendRecord, with the padding its callback asks for. */
  datatype Outgoing = Outgoing(ctype: Byte, data: Bytes, padding: nat)

  /** Whether sending m from st reaches the cipher with a nonce. */
  predicate Seals(cfg: Config, st: CState, m: Outgoing) {
    && st.enc.AeadCipher? && st.seqnum < SEQ_LIMIT
    && !(cfg.version > TLS12 && m.ctype == CHANGE_CIPHER_SPEC)
    && NonceAt(cfg, st, st.seqnum).Ok?
  }

  /** The nonces that a run of sendRecord calls uses, in order. */
  function RunNonces(c: Crypto, cfg: Config, st: CState, run: seq<Outgoing>): seq<Bytes>
    requires ValidBlockSize(st) && st.enc.AeadCipher?
    decreases |run|
  {
    if run == [] then []
    else
      var m := run[0];
      var s := Send(c, cfg, st, m.ctype, m.data, m.padding);
      (if Seals(cfg, st, m) then [NonceAt(cfg, st, st.seqnum).value] else []) +
      RunNonces(c, cfg, s.st, run[1..])
  }

  /** A record that is sent under an AEAD cipher is sealed under the nonce of its sequence number. */
  lemma SendSealsUnderNonce(c: Crypto, cfg: Config, st: CState, m: Outgoing)
    requires st.enc.AeadCipher? && (cfg.version > TLS12 ==> cfg.tls13record)
    requires Send(c, cfg, st, m.ctype, m.data, m.padding).res.Ok? && m.ctype != CHANGE_CIPHER_SPEC
    ensures Seals(cfg, st, m)
    ensures var nonce := NonceAt(cfg, st, st.seqnum).value;
            var (wireType, inner) := Disguise(cfg, st, m.ctype, m.data, m.padding);
            var ad := SealAuthData(cfg, st.enc.aead, ToBE(st.seqnum, 8), wireType, |inner|);
            && ad.Ok?
            && Send(c, cfg, st, m.ctype, m.data, m.padding).res.value.payload
            == (if ExplicitNonce(cfg, st.enc.aead) then ToBE(st.seqnum, 8) else [])
               + c.seal(st.enc.aead, nonce, inner, ad.value)
  {
    hide Pow256, ToBE, FromBE, Encode, InnerPlaintext, SealAuthData, GetNonce;
  }

  lemma SendAdvances(c: Crypto, cfg: Config, st: CState, m: Outgoing)
    requires ValidBlockSize(st) && st.enc.AeadCipher?
    ensures var s := Send(c, cfg, st, m.ctype, m.data, m.padding);
            && s.st == st.(seqnum := s.st.seqnum) && s.st.seqnum >= st.seqnum
            && (Seals(cfg, st, m) ==> s.st.seqnum == st.seqnum + 1)
  {
    hide Pow256, ToBE, FromBE, Encode, InnerPlaintext, SealAuthData, GetNonce;
  }

  /** Every nonce of a run belongs to a sequence number not used before the run. */
  lemma {:induction false} RunUsesLaterNonces(c: Crypto, cfg: Config, st: CState, run: seq<Outgoing>, i: nat)
    returns (k: nat)
    requires st.enc.AeadCipher? && i < |RunNonces(c, cfg, st, run)|
    ensures st.seqnum <= k < SEQ_LIMIT
    ensures NonceAt(cfg, st, k) == Ok(RunNonces(c, cfg, st, run)[i])
    decreases |run|
  {
    hide Pow256, ToBE, FromBE, GetNonce, Send;
    var m := run[0];
    var s := Send(c, cfg, st, m.ctype, m.data, m.padding);
    SendAdvances(c, cfg, st, m);
    if Seals(cfg, st, m) {
      if i == 0 {
        k := st.seqnum;
      } else {
        k := RunUsesLaterNonces(c, cfg, s.st, run[1..], i - 1);
      }
    } else {
      k := RunUsesLaterNonces(c, cfg, s.st, run[1..], i);
    }
  }

  /** Nonce uniqueness: whatever is sent from a state, no two of the nonces used are equal. */
  lemma {:induction false} NoncesNeverRepeat(c: Crypto, cfg: Config, st: CState, run: seq<Outgoing>, i: nat, j: nat)
    requires st.enc.AeadCipher? && i < j < |RunNonces(c, cfg, st, run)|
    ensures RunNonces(c, cfg, st, run)[i] != RunNonces(c, cfg, st, run)[j]
    decreases |run|
  {
    hide Pow256, ToBE, FromBE, GetNonce, Send, NonceAt;
    var m := run[0];
    var s := Send(c, cfg, st, m.ctype, m.data, m.padding);
    SendAdvances(c, cfg, st, m);
    if Seals(cfg, st, m) {
      if i == 0 {
        var k := RunUsesLaterNonces(c, cfg, s.st, run[1..], j - 1);
        SameNonces(cfg, st, s.st.seqnum, k);
        NonceDiffers(cfg, st, st.seqnum, k);
      } else {
        NoncesNeverRepeat(c, cfg, s.st, run[1..], i - 1, j - 1);
      }
    } else {
      NoncesNeverRepeat(c, cfg, s.st, run[1..], i, j);
    }
  }

  lemma SameNonces(cfg: Config, st: CState, seqnum: nat, k: nat)
    requires st.enc.AeadCipher? && k < SEQ_LIMIT
    ensures NonceAt(cfg, st.(seqnum := seqnum), k) == NonceAt(cfg, st, k)
  {
  }

  lemma NonceDiffers(cfg: Config, st: CState, j: nat, k: nat)
    requires st.enc.AeadCipher? && j < k < SEQ_LIMIT && NonceAt(cfg, st, j).Ok?
    ensures NonceAt(cfg, st, j) != NonceAt(cfg, st, k)
  {
    hide NonceAt;
    if NonceAt(cfg, st, j) == NonceAt(cfg, st, k) {
      NonceInjective(cfg, st, j, k);
    }
  }
}
