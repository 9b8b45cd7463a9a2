/** What one sendRecord becomes at the other end before TLS 1.3. */
module RecordDelivery {
  import opened Results
  import opened ByteStrings
  import opened Primitives
  import opened RecordProtection
  import opened RecordReception
  import opened RecordRoundTrip
  import opened KeyBlocks

  /** The lengths that a reader accepts: of the content, and of the record around it. */
  predicate WithinLimits(cfg: Config, recvLimit: nat, content: nat, payload: nat) {
    content <= recvLimit && payload <= recvLimit + 2048 && (cfg.tls13record ==> payload <= recvLimit + 256)
  }

  /** Without TLS 1.3, a record is received as the very type and content that were sent, and the reader is left in
      the state of the writer, exactly if both lengths are within the limits; else it overflows. */
  lemma RecordDelivered(c: Crypto, cfg: Config, side: ReadSide, ctype: Byte, data: Bytes, rest: seq<Record>)
    requires Correct(c) && Usable(cfg, side.st) && !IsTls13(cfg) && !side.earlyOk && side.earlyDone == 0
    requires Send(c, cfg, side.st, ctype, data, 0).res.Ok?
    ensures var s := Send(c, cfg, side.st, ctype, data, 0);
            var r := ReceiveRecord(c, cfg, side, [s.res.value] + rest);
            if WithinLimits(cfg, side.recvLimit, |data|, |s.res.value.payload|) then
              r == Received(ctype, data, side.(st := s.st), rest)
            else r.Raised? && r.error == RecordOverflow && r.rest == rest
  {
    hide Correct, Protect, Unprotect;
    ProtectionRoundTrip(c, cfg, side.st, ctype, data, 0);
    var rec := Send(c, cfg, side.st, ctype, data, 0).res.value;
    OpenedAccepted(c, cfg, side, rec, data, Send(c, cfg, side.st, ctype, data, 0).st, rest);
  }

  lemma OpenedAccepted(c: Crypto, cfg: Config, side: ReadSide, rec: Record, data: Bytes, st: CState, rest: seq<Record>)
    requires ValidBlockSize(side.st) && !IsTls13(cfg) && !side.earlyOk && side.earlyDone == 0
    requires Unprotect(c, cfg, side.st, rec) == Step(Ok(data), st)
    ensures var r := ReceiveRecord(c, cfg, side, [rec] + rest);
            if WithinLimits(cfg, side.recvLimit, |data|, |rec.payload|) then
              r == Received(rec.ctype, data, side.(st := st), rest)
            else r.Raised? && r.error == RecordOverflow && r.rest == rest
  {
    hide Unprotect;
    var input := [rec] + rest;
    assert input[0] == rec && input[1..] == rest;
  }

  /** So it is under the states that both sides derive from one key block, under every kind of cipher. */
  lemma DerivedRecordDelivered(c: Crypto, z: KeySizes, block: Bytes, version: nat, clientWrites: bool, encryptThenMac: bool,
                               senderIv: Bytes, receiverIv: Option<Bytes>, side: ReadSide, ctype: Byte, data: Bytes, rest: seq<Record>)
    requires Correct(c) && Proper(z) && |block| == OutputLength(z) && SSL3 <= version <= TLS12 && |senderIv| == z.ivLength
    requires side.st == WritingState(z, block, clientWrites, encryptThenMac) && !side.earlyOk && side.earlyDone == 0
    requires Send(c, Config(version, false, Some(senderIv)), side.st, ctype, data, 0).res.Ok?
    ensures var s := Send(c, Config(version, false, Some(senderIv)), side.st, ctype, data, 0);
            |data| <= side.recvLimit && |s.res.value.payload| <= side.recvLimit + 2048 ==>
              ReceiveRecord(c, Config(version, false, receiverIv), side, [s.res.value] + rest)
              == Received(ctype, data, side.(st := s.st), rest)
  {
    var cfg := Config(version, false, Some(senderIv));
    hide Correct, Protect, Unprotect, WritingState;
    PendingStatesInteroperate(c, z, block, version, clientWrites, encryptThenMac, senderIv, receiverIv, ctype, data);
    WritingStateUsable(z, block, version, clientWrites, encryptThenMac, senderIv);
    var s := Send(c, cfg, side.st, ctype, data, 0);
    OpenedAccepted(c, Config(version, false, receiverIv), side, s.res.value, data, s.st, rest);
  }

  /** Before any protected record, a TLS 1.3 reader takes a short alert in the clear. */
  lemma FirstAlertHeard(c: Crypto, cfg: Config, side: ReadSide, version: nat, alert: Bytes, rest: seq<Record>)
    requires ValidBlockSize(side.st) && IsTls13(cfg) && side.st.enc.AeadCipher? && side.st.seqnum == 0
    requires |alert| <= 2 && |alert| <= side.recvLimit
    ensures ReceiveRecord(c, cfg, side, [Record(21, version, alert)] + rest)
         == Received(21, alert, side.(earlyOk := false, earlyDone := 0), rest)
  {
    var input := [Record(ALERT, version, alert)] + rest;
    assert input[0] == Record(ALERT, version, alert) && input[1..] == rest;
  }
}
