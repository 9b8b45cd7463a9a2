/** What can be received at all, whatever the network delivers. */
module RecordSoundness {
  import opened Results
  import opened ByteStrings
  import opened Primitives
  import opened RecordProtection
  import opened RecordReception
  import opened Defragmentation
  import opened Messaging
  import opened KeySchedule
  import opened Reading

  /** What is put under a MAC determines sequence number, type and content: no two records share it. */
  lemma MacInputInjective(cfg: Config, s: Bytes, t: Byte, d: Bytes, s': Bytes, t': Byte, d': Bytes)
    requires |s| == |s'| == 8 && MacInput(cfg, s, t, d).Ok? && MacInput(cfg, s', t', d') == MacInput(cfg, s, t, d)
    ensures s == s' && t == t' && d == d'
  {
    hide Pow256, ToBE;
    var m := MacInput(cfg, s, t, d).value;
    var version := if cfg.version == SSL3 then [] else VersionBytes(cfg.version).value;
    var n := 9 + |version| + 2;
    var head, head' := s + [t] + version + Encode(|d|, 2).value, s' + [t'] + version + Encode(|d'|, 2).value;
    assert m == head + d && m == head' + d';
    assert |head| == n == |head'|;
    assert m[n..] == d && m[n..] == d';
    assert m[..8] == s && m[..8] == s';
    assert m[8] == t && m[8] == t';
  }

  /** The header that goes in front of a record. */
  function Header(rec: Record): Result<Bytes> {
    var version :- VersionBytes(rec.version);
    var length :- Encode(|rec.payload|, 2);
    Ok([rec.ctype] + version + length)
  }

  /** In TLS 1.3 every protected record is sealed with its own header as additional data (section 5.2 of RFC 8446). */
  lemma SealedWithOwnHeader(c: Crypto, cfg: Config, st: CState, ctype: Byte, data: Bytes, padding: nat)
    requires Correct(c) && IsTls13(cfg) && st.enc.AeadCipher? && ctype != CHANGE_CIPHER_SPEC
    requires Send(c, cfg, st, ctype, data, padding).res.Ok?
    ensures var rec := Send(c, cfg, st, ctype, data, padding).res.value;
            SealAuthData(cfg, st.enc.aead, [], APPLICATION_DATA, |InnerPlaintext(data, ctype, padding)|) == Header(rec)
            && Header(rec).Ok? && rec.ctype == 23 && rec.version == 0x303
  {
    hide Pow256, ToBE, GetNonce, InnerPlaintext;
  }

  /** What passes the check of a MAC is followed by the MAC of just that content, under the current sequence
      number and the type of the record. */
  lemma OnlyMacedPasses(c: Crypto, cfg: Config, st: CState, ctype: Byte, buf: Bytes)
    requires st.mac.Some? && CheckMac(c, cfg, st, ctype, buf).res.Ok?
    ensures var data := CheckMac(c, cfg, st, ctype, buf).res.value;
            && GetSeqNumBytes(st).res.Ok?
            && CheckMac(c, cfg, st, ctype, buf).st == st.(seqnum := st.seqnum + 1)
            && (var input := MacInput(cfg, GetSeqNumBytes(st).res.value, ctype, data);
                input.Ok? && buf == data + c.mac(st.mac.value, input.value))
  {
    hide Pow256, ToBE, MacInput;
    var cut := |buf| - st.mac.value.digestSize;
    assert buf == buf[..cut] + buf[cut..];
  }

  /** From start on, every byte names the number of bytes of padding before the last. */
  predicate PaddedFrom(plain: Bytes, start: int)
    requires plain != []
  {
    forall i :: start <= i < |plain| && 0 <= i ==> plain[i] == plain[|plain| - 1]
  }

  /** Padding, as encrypt-then-MAC checks it after TLS 1.0: exactly n + 1 bytes of the value n. */
  lemma PaddingAcceptedIff(cfg: Config, buf: Bytes, data: Bytes)
    requires cfg.version != SSL3
    ensures RemovePadding(cfg, buf) == Ok(data) <==> exists n: Byte :: IsPadded(buf, data, n)
  {
    if RemovePadding(cfg, buf) == Ok(data) {
      var n := buf[|buf| - 1];
      assert buf == data + buf[|data|..];
      assert IsPadded(buf, data, n);
    }
    if n: Byte :| IsPadded(buf, data, n) {
      assert buf[|buf| - 1] == n;
      assert buf[..|data|] == data;
    }
  }

  predicate IsPadded(buf: Bytes, data: Bytes, n: Byte) {
    buf == data + seq(n + 1, _ => n)
  }

  /** The same for MAC-then-encrypt with a block cipher: the decrypted content is followed by its MAC, and that by
      bytes that all name the length of the padding. */
  lemma OnlyMacedBlocksPass(c: Crypto, cfg: Config, st: CState, ctype: Byte, buf: Bytes)
    requires ValidBlockSize(st) && st.enc.LegacyCipher? && st.enc.cipher.isBlockCipher
    requires DecryptThenMac(c, cfg, st, ctype, buf).res.Ok?
    ensures var data := DecryptThenMac(c, cfg, st, ctype, buf).res.value;
            var plain := StripIv(cfg, st.enc.cipher.blockSize, DecryptWith(c, st, buf).res.value);
            && st.mac.Some? && GetSeqNumBytes(st).res.Ok?
            && DecryptThenMac(c, cfg, st, ctype, buf).st.seqnum == st.seqnum + 1
            && (var input := MacInput(cfg, GetSeqNumBytes(st).res.value, ctype, data);
                var n := st.mac.value.digestSize;
                && input.Ok? && |data| + n < |plain| && plain[..|data|] == data
                && plain[|data|..|data| + n] == c.mac(st.mac.value, input.value))
            && (cfg.version != SSL3 ==> PaddedFrom(plain, |plain| - plain[|plain| - 1] - 1))
  {
    hide Pow256, ToBE, MacInput;
  }

  /** What reached a TLS 1.3 reader: the record itself, passed in the clear, or what the AEAD opened it to. */
  ghost predicate Opened(c: Crypto, st: CState, rec: Record, inner: Bytes) {
    Keyed(st) && DecryptAndUnseal(c, TLS13_CONFIG, st, rec) == Step(Ok(inner), st.(seqnum := st.seqnum + 1))
    && rec.ctype == APPLICATION_DATA && rec.version == TLS12
  }

  lemma UnsealAdvances(c: Crypto, st: CState, rec: Record)
    requires Keyed(st) && DecryptAndUnseal(c, TLS13_CONFIG, st, rec).res.Ok?
    ensures Opened(c, st, rec, DecryptAndUnseal(c, TLS13_CONFIG, st, rec).res.value)
  {
    hide Pow256, ToBE, GetNonce;
  }

  /** Whatever the network delivers, and however much of it is skipped as early data: what a TLS 1.3 reader
      receives is either a change_cipher_spec or a first short alert in the clear, which leave its state alone,
      or the content of a record that opened under the key and sequence number held all along, within the limits. */
  lemma {:induction false} OnlyOpenedIsReceived(c: Crypto, side: ReadSide, input: seq<Record>)
    requires Keyed(side.st) && ReceiveRecord(c, TLS13_CONFIG, side, input).Received?
    ensures var r := ReceiveRecord(c, TLS13_CONFIG, side, input);
            && |r.rest| < |input| && |r.data| <= side.recvLimit
            && var rec := input[|input| - |r.rest| - 1];
               && |rec.payload| <= side.recvLimit + 256 && r.rest == input[|input| - |r.rest|..]
               && if PassesInClear(TLS13_CONFIG, side.st, rec) then
                    r.side.st == side.st && r.data == rec.payload && r.ctype == rec.ctype
                  else
                    && r.side.st == side.st.(seqnum := side.st.seqnum + 1) && r.ctype != 0
                    && exists inner :: Opened(c, side.st, rec, inner) && |inner| <= side.recvLimit + 1
                                       && DePad(inner) == Ok((r.data, r.ctype))
    decreases |input|
  {
    hide DecryptAndUnseal, DePad;
    var rec, rest := input[0], input[1..];
    if Skippable(c, TLS13_CONFIG, side, rec) {
      OnlyOpenedIsReceived(c, side.(earlyDone := side.earlyDone + |rec.payload|), rest);
    } else if !PassesInClear(TLS13_CONFIG, side.st, rec) {
      UnsealAdvances(c, side.st, rec);
      var inner := DecryptAndUnseal(c, TLS13_CONFIG, side.st, rec).res.value;
      DePadType(inner);
      assert Opened(c, side.st, rec, inner);
    }
  }

  /** Content and type are split at the last byte that is not zero. */
  lemma {:induction false} DePadType(data: Bytes)
    ensures DePad(data).Ok? ==>
              var (content, t) := DePad(data).value;
              t != 0 && |content| < |data| && content == data[..|content|] && data[|content|] == t
              && forall i :: |content| < i < |data| ==> data[i] == 0
  {
    if data != [] && data[|data| - 1] == 0 {
      DePadType(data[..|data| - 1]);
    }
  }

  /** Whatever the network delivers: a message handed on between handshakes is nonempty application data while no
      handshake message is half received, or a ticket, or a KeyUpdate that ends its record with nothing buffered. */
  ghost predicate ProperMessage(m: Message, d: Defrag)
    requires HANDSHAKE in d.buffers
  {
    if m.ctype == APPLICATION_DATA then m.data != [] && d.buffers[HANDSHAKE] == []
    else
      && m.ctype == HANDSHAKE && m.data != []
      && (m.data[0] == NEW_SESSION_TICKET || (m.data[0] == KEY_UPDATE && IsEmpty(d)))
  }

  lemma {:induction false} OnlyProperMessages(c: Crypto, r: Reader, input: seq<Record>)
    requires Live(r) && GetMsg(c, r, input).Fetched?
    ensures var f := GetMsg(c, r, input); HANDSHAKE in f.reader.defrag.buffers && ProperMessage(f.m, f.reader.defrag)
    decreases |input|, Buffered(r.defrag, 0)
  {
    hide NextRecord, Take, Buffered, Proper, CcsFault, IsEmpty;
    var f := NextRecord(c, r, input);
    LiveBuffers(f.reader);
    if Sift(f).Again? {
      OnlyProperMessages(c, f.reader, f.rest);
    }
  }
}
