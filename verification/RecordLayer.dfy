/** The record layer as the original has it: connection states that every record changes. */
module RecordLayers {
  import opened Results
  import opened ByteStrings
  import opened Primitives
  import opened RecordProtection
  import opened RecordReception
  import opened KeySchedule
  import opened Sending
  import Codec
  import KeyBlocks
  import PrfLoops

  class ConnectionState {
    var macContext: Option<MacKey>
    var encContext: Enc
    var fixedNonce: Bytes
    var seqnum: nat
    var encryptThenMac: bool

    function Value(): CState
      reads this
    {
      CState(macContext, encContext, fixedNonce, seqnum, encryptThenMac)
    }

    constructor ()
      ensures Value() == INITIAL_STATE
    {
      macContext, encContext, fixedNonce, seqnum, encryptThenMac := None, NoCipher, [], 0, false;
    }

    constructor Of(st: CState)
      ensures Value() == st
    {
      macContext, encContext, fixedNonce, seqnum, encryptThenMac := st.mac, st.enc, st.fixedNonce, st.seqnum, st.encryptThenMac;
    }

    /** The encoded sequence number, which is then used up. */
    method GetSeqNumBytes() returns (r: Result<Bytes>)
      modifies this
      ensures Step(r, Value()) == RecordProtection.GetSeqNumBytes(old(Value()))
    {
      if seqnum >= SEQ_LIMIT { return Err(ValueError); }
      assert Pow256(8) == SEQ_LIMIT;
      r := Ok(ToBE(seqnum, 8));
      seqnum := seqnum + 1;
    }

    method Copy() returns (copy: ConnectionState)
      ensures fresh(copy) && copy.Value() == Value()
    {
      copy := new ConnectionState();
      copy.macContext := macContext;
      copy.encContext := encContext;
      copy.fixedNonce := fixedNonce;
      copy.seqnum := seqnum;
      copy.encryptThenMac := encryptThenMac;
    }

    /** Run the block or stream cipher, whose own state moves on. */
    method Encrypt(c: Crypto, data: Bytes) returns (out: Bytes)
      requires encContext.LegacyCipher?
      modifies this
      ensures Step(Ok(out), Value()) == EncryptWith(c, old(Value()), data)
    {
      var (cipher, encrypted) := c.encrypt(encContext.cipher, data);
      encContext := LegacyCipher(cipher);
      return encrypted;
    }

    method Decrypt(c: Crypto, data: Bytes) returns (out: Bytes)
      requires encContext.LegacyCipher?
      modifies this
      ensures Step(Ok(out), Value()) == DecryptWith(c, old(Value()), data)
    {
      var (cipher, decrypted) := c.decrypt(encContext.cipher, data);
      encContext := LegacyCipher(cipher);
      return decrypted;
    }

    /** Append the MAC of data to it. */
    method AppendMac(c: Crypto, cfg: Config, ctype: Byte, data: Bytes) returns (r: Result<Bytes>)
      modifies this
      ensures Step(r, Value()) == RecordProtection.AppendMac(c, cfg, old(Value()), ctype, data)
    {
      if macContext.None? { return Ok(data); }
      var seqnumBytes :- GetSeqNumBytes();
      var input :- MacInput(cfg, seqnumBytes, ctype, data);
      return Ok(data + c.mac(macContext.value, input));
    }

    /** Compare and remove the MAC at the end of buf. */
    method CheckMac(c: Crypto, cfg: Config, ctype: Byte, buf: Bytes) returns (r: Result<Bytes>)
      modifies this
      ensures Step(r, Value()) == RecordProtection.CheckMac(c, cfg, old(Value()), ctype, buf)
    {
      if macContext.None? { return Ok(buf); }
      if macContext.value.digestSize > |buf| { return Err(BadRecordMac); }
      var cut := |buf| - macContext.value.digestSize;
      var seqnumBytes :- GetSeqNumBytes();
      var input :- MacInput(cfg, seqnumBytes, ctype, buf[..cut]);
      if c.mac(macContext.value, input) != buf[cut..] { return Err(BadRecordMac); }
      return Ok(buf[..cut]);
    }
  }

  class RecordLayer {
    const c: Crypto
    var client: bool
    var cfg: Config
    var writeState: ConnectionState
    var readState: ConnectionState
    var pendingWriteState: ConnectionState
    var pendingReadState: ConnectionState
    var settings: Settings
    var earlyDataOk: bool
    var maxEarlyData: nat
    var earlyDataProcessed: nat
    var recvLimit: nat
    /** What the network has to deliver, and what it has been given. */
    var input: seq<Record>
    var output: seq<Record>

    ghost function Repr(): set<object>
      reads this
    {
      {this, writeState, readState, pendingWriteState, pendingReadState}
    }

    ghost predicate Valid()
      reads this, Repr()
    {
      && writeState != readState && pendingWriteState != pendingReadState
      && writeState !in {pendingWriteState, pendingReadState} && readState !in {pendingWriteState, pendingReadState}
      && ValidBlockSize(writeState.Value()) && ValidBlockSize(readState.Value())
    }

    /** The reading half. */
    ghost function Side(): ReadSide
      reads this, readState
    {
      ReadSide(readState.Value(), earlyDataOk, maxEarlyData, earlyDataProcessed, recvLimit)
    }

    constructor (c: Crypto, cfg: Config, client: bool, settings: Settings, maxEarlyData: nat, recvLimit: nat)
      ensures Valid() && fresh(Repr()) && input == [] && output == []
      ensures this.c == c && this.cfg == cfg && this.client == client && this.settings == settings
      ensures writeState.Value() == INITIAL_STATE && pendingWriteState.Value() == INITIAL_STATE
      ensures pendingReadState.Value() == INITIAL_STATE
      ensures Side() == ReadSide(INITIAL_STATE, false, maxEarlyData, 0, recvLimit)
    {
      this.c, this.cfg, this.client, this.settings := c, cfg, client, settings;
      writeState := new ConnectionState();
      readState := new ConnectionState();
      pendingWriteState := new ConnectionState();
      pendingReadState := new ConnectionState();
      earlyDataOk, earlyDataProcessed := false, 0;
      this.maxEarlyData, this.recvLimit := maxEarlyData, recvLimit;
      input, output := [], [];
    }

    /** Setting the flag restarts the count of skipped bytes. */
    method SetEarlyDataOk(val: bool)
      modifies this`earlyDataOk, this`earlyDataProcessed
      ensures earlyDataOk == val && earlyDataProcessed == 0
    {
      earlyDataProcessed := 0;
      earlyDataOk := val;
    }

    //
    // Sending
    //

    method EncryptThenSeal(buf: Bytes, ctype: Byte) returns (r: Result<Bytes>)
      requires Valid() && writeState.encContext.AeadCipher?
      modifies writeState
      ensures Step(r, writeState.Value()) == RecordProtection.EncryptThenSeal(c, cfg, old(writeState.Value()), buf, ctype)
    {
      var seqnumBytes :- writeState.GetSeqNumBytes();
      var aead := writeState.encContext.aead;
      var authData :- SealAuthData(cfg, aead, seqnumBytes, ctype, |buf|);
      var nonce :- GetNonce(cfg, aead, writeState.fixedNonce, seqnumBytes);
      if |nonce| != aead.nonceLength { return Err(AssertionError); }
      var sealed := c.seal(aead, nonce, buf, authData);
      return Ok(if ExplicitNonce(cfg, aead) then seqnumBytes + sealed else sealed);
    }

    /** Pad for a block cipher and encrypt. */
    method PadAndEncrypt(data: Bytes) returns (r: Result<Bytes>)
      requires Valid()
      modifies writeState
      ensures Step(r, writeState.Value()) == RecordProtection.PadAndEncrypt(c, cfg, old(writeState.Value()), data)
    {
      var buf := data;
      if !writeState.encContext.LegacyCipher? { return Ok(buf); }
      if writeState.encContext.cipher.isBlockCipher {
        buf :- WithIv(cfg, buf);
        buf := AddPadding(buf, writeState.encContext.cipher.blockSize);
      }
      buf := writeState.Encrypt(c, buf);
      return Ok(buf);
    }

    method MacThenEncrypt(data: Bytes, ctype: Byte) returns (r: Result<Bytes>)
      requires Valid()
      modifies writeState
      ensures Step(r, writeState.Value()) == RecordProtection.MacThenEncrypt(c, cfg, old(writeState.Value()), data, ctype)
    {
      hide RecordProtection.AppendMac, RecordProtection.PadAndEncrypt;
      MacKeepsCipher(c, cfg, writeState.Value(), ctype, data);
      var buf :- writeState.AppendMac(c, cfg, ctype, data);
      r := PadAndEncrypt(buf);
    }

    method EncryptThenMac(data: Bytes, ctype: Byte) returns (r: Result<Bytes>)
      requires Valid()
      modifies writeState
      ensures Step(r, writeState.Value()) == RecordProtection.EncryptThenMac(c, cfg, old(writeState.Value()), data, ctype)
    {
      hide RecordProtection.AppendMac, RecordProtection.PadAndEncrypt;
      if writeState.encContext.LegacyCipher? && !writeState.encContext.cipher.isBlockCipher { return Err(TypeError); }
      var buf :- PadAndEncrypt(data);
      r := writeState.AppendMac(c, cfg, ctype, buf);
    }

    /** The dispatch of sendRecord on the kind of protection. */
    method Protect(ctype: Byte, data: Bytes) returns (r: Result<Bytes>)
      requires Valid()
      modifies writeState
      ensures Step(r, writeState.Value()) == RecordProtection.Protect(c, cfg, old(writeState.Value()), ctype, data)
    {
      hide RecordProtection.EncryptThenSeal, RecordProtection.EncryptThenMac, RecordProtection.MacThenEncrypt;
      if cfg.version > TLS12 && ctype == CHANGE_CIPHER_SPEC {
        return Ok(data);
      } else if writeState.encContext.AeadCipher? {
        r := EncryptThenSeal(data, ctype);
      } else if writeState.encryptThenMac {
        r := EncryptThenMac(data, ctype);
      } else {
        r := MacThenEncrypt(data, ctype);
      }
    }

    /** sendRecord. */
    method SendRecord(ctype: Byte, data: Bytes) returns (r: Result<()>)
      requires Valid() && Correct(c)
      modifies writeState, this`output
      ensures Valid()
      ensures var s := SendPadded(c, cfg, settings, old(writeState.Value()), ctype, data);
              && writeState.Value() == s.st
              && match s.res
                 case Err(e) => r == Err(e) && output == old(output)
                 case Ok(rec) => r == Ok(()) && output == old(output) + [rec]
    {
      hide Correct, RecordProtection.Protect, Encode, ValidBlockSize;
      ghost var s := SendPadded(c, cfg, settings, writeState.Value(), ctype, data);
      var wireType, buf := ctype, data;
      if IsTls13(cfg) && writeState.encContext != NoCipher && ctype != CHANGE_CIPHER_SPEC {
        var padding :- PaddingFor(settings, ctype, data);
        buf := data + [ctype] + Zeros(padding);
        wireType := APPLICATION_DATA;
      }
      buf :- Protect(wireType, buf);
      var _ :- VersionBytes(WireVersion(cfg));
      var _ :- Encode(|buf|, 2);
      output := output + [Record(wireType, WireVersion(cfg), buf)];
      return Ok(());
    }

    //
    // Receiving
    //

    method DecryptAndUnseal(rec: Record) returns (r: Result<Bytes>)
      requires Valid() && readState.encContext.AeadCipher?
      modifies readState
      ensures Step(r, readState.Value()) == RecordProtection.DecryptAndUnseal(c, cfg, old(readState.Value()), rec)
    {
      var seqnumBytes :- readState.GetSeqNumBytes();
      var aead := readState.encContext.aead;
      var split :- NonceAndBody(cfg, aead, readState.fixedNonce, seqnumBytes, rec.payload);
      var (nonce, buf) := split;
      if aead.tagLength > |buf| { return Err(BadRecordMac); }
      var authData :- OpenAuthData(cfg, aead, seqnumBytes, rec, buf);
      match c.open(aead, nonce, buf, authData)
      case None => return Err(BadRecordMac);
      case Some(plain) => return Ok(plain);
    }

    /** The padding check of encrypt-then-MAC, byte by byte. */
    method StripPadding(buf: Bytes) returns (r: Result<Bytes>)
      ensures r == RemovePadding(cfg, buf)
    {
      if buf == [] { return Err(BadRecordMac); }
      var paddingLength := buf[|buf| - 1];
      if paddingLength + 1 > |buf| { return Err(BadRecordMac); }
      var paddingGood := true;
      if cfg.version != SSL3 {
        for i := |buf| - (paddingLength + 1) to |buf| - 1
          invariant paddingGood <==> forall j :: |buf| - (paddingLength + 1) <= j < i ==> buf[j] == paddingLength
        {
          if buf[i] != paddingLength { paddingGood := false; }
        }
      }
      if !paddingGood { return Err(BadRecordMac); }
      return Ok(buf[..|buf| - (paddingLength + 1)]);
    }

    method DecryptAndUnpad(buf: Bytes) returns (r: Result<Bytes>)
      requires Valid()
      modifies readState
      ensures Step(r, readState.Value()) == RecordProtection.DecryptAndUnpad(c, cfg, old(readState.Value()), buf)
    {
      hide RemovePadding;
      if !readState.encContext.LegacyCipher? { return Ok(buf); }
      var blockSize := readState.encContext.cipher.blockSize;
      if !readState.encContext.cipher.isBlockCipher { return Err(TypeError); }
      if |buf| % blockSize != 0 { return Err(DecryptionFailed); }
      var data := readState.Decrypt(c, buf);
      data := StripIv(cfg, blockSize, data);
      r := StripPadding(data);
    }

    method MacThenDecrypt(ctype: Byte, buf: Bytes) returns (r: Result<Bytes>)
      requires Valid()
      modifies readState
      ensures Step(r, readState.Value()) == RecordProtection.MacThenDecrypt(c, cfg, old(readState.Value()), ctype, buf)
    {
      hide RecordProtection.CheckMac, RecordProtection.DecryptAndUnpad;
      CheckMacKeepsCipher(c, cfg, readState.Value(), ctype, buf);
      var data :- readState.CheckMac(c, cfg, ctype, buf);
      r := DecryptAndUnpad(data);
    }

    method DecryptStreamThenMac(ctype: Byte, buf: Bytes) returns (r: Result<Bytes>)
      requires Valid()
      modifies readState
      ensures Step(r, readState.Value()) == RecordProtection.DecryptStreamThenMac(c, cfg, old(readState.Value()), ctype, buf)
    {
      hide RecordProtection.CheckMac;
      var data := buf;
      if readState.encContext.LegacyCipher? {
        if !(SSL3 <= cfg.version <= TLS12) { return Err(AssertionError); }
        data := readState.Decrypt(c, data);
      }
      r := readState.CheckMac(c, cfg, ctype, data);
    }

    method DecryptThenMac(ctype: Byte, buf: Bytes) returns (r: Result<Bytes>)
      requires Valid() && readState.encContext.LegacyCipher? && readState.encContext.cipher.isBlockCipher
      modifies readState
      ensures Step(r, readState.Value()) == RecordProtection.DecryptThenMac(c, cfg, old(readState.Value()), ctype, buf)
    {
      hide CbcMacAndPadOk, ToBE;
      if !(SSL3 <= cfg.version <= TLS12) || readState.macContext.None? { return Err(AssertionError); }
      var blockSize := readState.encContext.cipher.blockSize;
      if |buf| % blockSize != 0 { return Err(DecryptionFailed); }
      var data := readState.Decrypt(c, buf);
      data := StripIv(cfg, blockSize, data);
      var seqnumBytes :- readState.GetSeqNumBytes();
      var key := readState.macContext.value;
      if !CbcMacAndPadOk(c, cfg, key, seqnumBytes, ctype, data, blockSize) { return Err(BadRecordMac); }
      CbcOkNonempty(c, cfg, key, seqnumBytes, ctype, data, blockSize);
      var endLength := data[|data| - 1] + 1 + key.digestSize;
      return Ok(data[..Max0(|data| - endLength)]);
    }

    /** The dispatch of recvRecord on the kind of protection. */
    method Unprotect(rec: Record) returns (r: Result<Bytes>)
      requires Valid()
      modifies readState
      ensures Step(r, readState.Value()) == RecordProtection.Unprotect(c, cfg, old(readState.Value()), rec)
    {
      hide RecordProtection.DecryptAndUnseal, RecordProtection.MacThenDecrypt, RecordProtection.DecryptThenMac, RecordProtection.DecryptStreamThenMac;
      if IsTls13(cfg) && rec.ctype == CHANGE_CIPHER_SPEC {
        return Ok(rec.payload);
      } else if IsTls13(cfg) && rec.ctype == ALERT && |rec.payload| < 3
             && readState.encContext != NoCipher && readState.seqnum == 0 {
        return Ok(rec.payload);
      } else if readState.encContext.AeadCipher? {
        r := DecryptAndUnseal(rec);
      } else if readState.encryptThenMac {
        r := MacThenDecrypt(rec.ctype, rec.payload);
      } else if readState.encContext.LegacyCipher? && readState.encContext.cipher.isBlockCipher {
        r := DecryptThenMac(rec.ctype, rec.payload);
      } else {
        r := DecryptStreamThenMac(rec.ctype, rec.payload);
      }
    }

    /** Find the last nonzero byte from the end. */
    static method Tls13DePad(data: Bytes) returns (r: Result<(Bytes, Byte)>)
      ensures r == DePad(data)
    {
      var pos := |data|;
      assert data[..pos] == data;
      while pos > 0
        invariant 0 <= pos <= |data| && DePad(data) == DePad(data[..pos])
      {
        pos := pos - 1;
        assert data[..pos + 1][..pos] == data[..pos];
        if data[pos] != 0 { return Ok((data[..pos], data[pos])); }
      }
      return Err(UnexpectedMessage);
    }

    /** Unprotect a record; application data before any key is known counts as early data. */
    method Open(rec: Record) returns (r: Result<Bytes>)
      requires Valid()
      modifies readState
      ensures Step(r, readState.Value()) == RecordReception.Open(c, cfg, old(Side()), rec)
    {
      hide RecordProtection.Unprotect;
      r := Unprotect(rec);
      if r.Ok? && readState.encContext == NoCipher && readState.macContext.None? && earlyDataOk && rec.ctype == APPLICATION_DATA {
        r := Err(BadRecordMac);
      }
    }

    /** The plaintext limits, and the type hidden behind the padding. */
    method Accept(wireType: Byte, plain: Bytes) returns (r: Result<(Byte, Bytes)>)
      requires Valid()
      ensures match RecordReception.Accept(cfg, Side(), wireType, plain, input)
              case Received(t, data, _, _) => r == Ok((t, data))
              case Raised(e, _, _) => r == Err(e)
              case Blocked(_) => false
    {
      var data, ctype := plain, wireType;
      if IsTls13(cfg) && readState.encContext != NoCipher && ctype == APPLICATION_DATA {
        if |data| > recvLimit + 1 { return Err(RecordOverflow); }
        var inner :- Tls13DePad(data);
        data, ctype := inner.0, inner.1;
      }
      if |data| > recvLimit { return Err(RecordOverflow); }
      return Ok((ctype, data));
    }

    /** One pass of the loop of recvRecord; None sends it round again. */
    method RecvPass() returns (done: Option<Result<(Byte, Bytes)>>)
      requires Valid() && Correct(c) && input != []
      modifies this`readState, this`input, this`earlyDataOk, this`earlyDataProcessed, readState
      ensures Valid() && (readState == old(readState) || fresh(readState)) && |input| < |old(input)|
      ensures ReceiveRecord(c, cfg, old(Side()), old(input)) ==
                match done
                case None => ReceiveRecord(c, cfg, Side(), input)
                case Some(Err(e)) => Raised(e, Side(), input)
                case Some(Ok(p)) => Received(p.0, p.1, Side(), input)
    {
      hide Correct, TooLong, ValidBlockSize, RecordReception.Open, RecordReception.Accept, ReceiveRecord;
      ReceiveStep(c, cfg, Side(), input);
      var rec := input[0];
      input := input[1..];
      if TooLong(cfg, recvLimit, rec) { return Some(Err(RecordOverflow)); }
      var stateCopy := readState;
      if earlyDataOk { stateCopy := readState.Copy(); }
      OpenKeepsBlockSize(c, cfg, Side(), rec);
      var plain := Open(rec);
      if plain == Err(BadRecordMac) && earlyDataOk && earlyDataProcessed + |rec.payload| < maxEarlyData {
        earlyDataProcessed := earlyDataProcessed + |rec.payload|;
        readState := stateCopy;
        return None;
      }
      if plain.Err? { return Some(Err(plain.error)); }
      SetEarlyDataOk(false);
      var accepted := Accept(rec.ctype, plain.value);
      AcceptChangesNothing(cfg, Side(), rec.ctype, plain.value, input);
      return Some(accepted);
    }

    /** recvRecord: undecryptable records are skipped, and the state restored from a copy, while early data is
        expected and within its allowance. Without records the original waits for the network. */
    method RecvRecord() returns (received: Option<Result<(Byte, Bytes)>>)
      requires Valid() && Correct(c)
      modifies this`readState, this`input, this`earlyDataOk, this`earlyDataProcessed, readState
      ensures Valid() && (readState == old(readState) || fresh(readState))
      ensures ReceiveRecord(c, cfg, old(Side()), old(input)) ==
                match received
                case None => Blocked(Side())
                case Some(Err(e)) => Raised(e, Side(), input)
                case Some(Ok(p)) => Received(p.0, p.1, Side(), input)
      ensures received.None? ==> input == []
    {
      hide Correct, ReceiveRecord, ValidBlockSize;
      received := None;
      while input != [] && received.None?
        invariant Valid() && (readState == old(readState) || fresh(readState))
        invariant ReceiveRecord(c, cfg, old(Side()), old(input)) ==
                    match received
                    case None => ReceiveRecord(c, cfg, Side(), input)
                    case Some(Err(e)) => Raised(e, Side(), input)
                    case Some(Ok(p)) => Received(p.0, p.1, Side(), input)
        decreases |input|
      {
        received := RecvPass();
      }
      if received.None? { ReceiveNothing(c, cfg, Side()); }
    }

    //
    // Changing states
    //

    method ChangeWriteState()
      requires Valid() && ValidBlockSize(pendingWriteState.Value())
      modifies this`writeState, this`pendingWriteState
      ensures Valid() && fresh(Repr() - old(Repr()))
      ensures writeState.Value() == old(pendingWriteState.Value()) && pendingWriteState.Value() == INITIAL_STATE
    {
      writeState := pendingWriteState;
      pendingWriteState := new ConnectionState();
    }

    method ChangeReadState()
      requires Valid() && ValidBlockSize(pendingReadState.Value())
      modifies this`readState, this`pendingReadState
      ensures Valid() && fresh(Repr() - old(Repr()))
      ensures readState.Value() == old(pendingReadState.Value()) && pendingReadState.Value() == INITIAL_STATE
    {
      readState := pendingReadState;
      pendingReadState := new ConnectionState();
    }

    /** Each side writes under its own pieces and reads under the other's; flags set before are kept. */
    method InstallPendingStates(z: KeyBlocks.KeySizes, keyBlock: Bytes)
      requires Valid() && |keyBlock| == KeyBlocks.OutputLength(z)
      modifies this`pendingWriteState, this`pendingReadState
      ensures Valid() && fresh(pendingWriteState) && fresh(pendingReadState)
      ensures pendingWriteState.Value() == KeyBlocks.WritingState(z, keyBlock, client, old(pendingWriteState.encryptThenMac))
      ensures pendingReadState.Value() == KeyBlocks.WritingState(z, keyBlock, !client, old(pendingReadState.encryptThenMac))
    {
      hide KeyBlocks.StateFrom, KeyBlocks.Cut;
      var p := SliceKeyBlock(z, keyBlock);
      var writeEtm, readEtm := pendingWriteState.encryptThenMac, pendingReadState.encryptThenMac;
      if client {
        pendingWriteState := new ConnectionState.Of(KeyBlocks.StateFrom(z, p.clientMac, p.clientKey, p.clientIv, writeEtm));
        pendingReadState := new ConnectionState.Of(KeyBlocks.StateFrom(z, p.serverMac, p.serverKey, p.serverIv, readEtm));
      } else {
        pendingWriteState := new ConnectionState.Of(KeyBlocks.StateFrom(z, p.serverMac, p.serverKey, p.serverIv, writeEtm));
        pendingReadState := new ConnectionState.Of(KeyBlocks.StateFrom(z, p.clientMac, p.clientKey, p.clientIv, readEtm));
      }
    }

    /** calcPendingStates: derive a key block, slice it, and set up both directions; in TLS 1.1 and later an
        initialisation vector is drawn for sending. */
    method CalcPendingStates(z: KeyBlocks.KeySizes, h: PrfLoops.PrfHashes, sha384: bool, masterSecret: Bytes,
                             clientRandom: Bytes, serverRandom: Bytes, randomIv: Bytes) returns (r: Result<()>)
      requires Valid() && KeyBlocks.Proper(z) && PrfLoops.SoundHashes(h)
      modifies this`pendingWriteState, this`pendingReadState, this`cfg
      ensures Valid()
      ensures pendingWriteState == old(pendingWriteState) || fresh(pendingWriteState)
      ensures pendingReadState == old(pendingReadState) || fresh(pendingReadState)
      ensures match PrfLoops.Key(h, old(cfg).version, masterSecret, sha384, PrfLoops.KeyExpansion, NO_TRANSCRIPT,
                                 clientRandom, serverRandom, KeyBlocks.OutputLength(z))
              case Err(e) => r == Err(e) && cfg == old(cfg) && pendingWriteState == old(pendingWriteState)
              case Ok(block) =>
                && r == Ok(()) && |block| == KeyBlocks.OutputLength(z)
                && pendingWriteState.Value() == KeyBlocks.WritingState(z, block, client, old(pendingWriteState.encryptThenMac))
                && pendingReadState.Value() == KeyBlocks.WritingState(z, block, !client, old(pendingReadState.encryptThenMac))
                && cfg == if old(cfg).version >= TLS11 && z.ivLength > 0 then old(cfg).(ivBlock := Some(randomIv)) else old(cfg)
    {
      hide PrfLoops.Key, PrfLoops.SoundHashes, KeyBlocks.WritingState, ValidBlockSize;
      var outputLength := 2 * z.macLength + 2 * z.keyLength + 2 * z.ivLength;
      ghost var key := PrfLoops.Key(h, cfg.version, masterSecret, sha384, PrfLoops.KeyExpansion, NO_TRANSCRIPT,
                                    clientRandom, serverRandom, outputLength);
      var keyBlock :- PrfLoops.CalcKey(h, cfg.version, masterSecret, sha384, PrfLoops.KeyExpansion, NO_TRANSCRIPT,
                                       clientRandom, serverRandom, outputLength);
      KeyLength(h, cfg.version, masterSecret, sha384, clientRandom, serverRandom, outputLength);
      InstallPendingStates(z, keyBlock);
      if cfg.version >= TLS11 && z.ivLength > 0 {
        cfg := cfg.(ivBlock := Some(randomIv));
      }
      return Ok(());
    }

    /** A piece for the client, then one for the server. */
    static method TakeTwo(parser: Codec.Parser, n: nat) returns (client: Bytes, server: Bytes)
      requires parser.Valid() && |parser.Rest()| >= 2 * n
      modifies parser`index
      ensures parser.Valid()
      ensures client == old(parser.Rest())[..n] && server == old(parser.Rest())[n..][..n]
      ensures parser.Rest() == old(parser.Rest())[n..][n..]
    {
      var first := parser.GetFixBytes(n);
      var second := parser.GetFixBytes(n);
      client, server := first.value, second.value;
    }

    /** The parser takes the six pieces one after the other. */
    static method SliceKeyBlock(z: KeyBlocks.KeySizes, keyBlock: Bytes) returns (p: KeyBlocks.Pieces)
      requires |keyBlock| == KeyBlocks.OutputLength(z)
      ensures p == KeyBlocks.Cut(z, keyBlock)
    {
      var parser := new Codec.Parser(keyBlock);
      var clientMac, serverMac := TakeTwo(parser, z.macLength);
      var clientKey, serverKey := TakeTwo(parser, z.keyLength);
      ghost var rest := parser.Rest();
      assert |rest| == 2 * z.ivLength;
      var clientIv, serverIv := TakeTwo(parser, z.ivLength);
      assert rest[z.ivLength..][..z.ivLength] == rest[z.ivLength..];
      p := KeyBlocks.Pieces(clientMac, serverMac, clientKey, serverKey, clientIv, serverIv);
    }

    method TrafficStateOf(suite: Suite, secret: Bytes) returns (st: ConnectionState)
      ensures fresh(st) && st.Value() == TrafficState(c, suite, secret)
    {
      st := new ConnectionState();
      st.encContext := AeadCipher(Aead(suite.cipher, c.expandLabel(suite.prf, secret, KEY, [], suite.keyLength), suite.tagLength, 12));
      st.fixedNonce := c.expandLabel(suite.prf, secret, IV, [], 12);
    }

    /** calcTLS1_3PendingState: each side writes under its own secret and reads under the other's. */
    method CalcTls13PendingState(suite: Suite, clSecret: Bytes, srSecret: Bytes)
      requires Valid()
      modifies this`pendingWriteState, this`pendingReadState
      ensures Valid() && fresh(Repr() - old(Repr()))
      ensures pendingWriteState.Value() == TrafficState(c, suite, if client then clSecret else srSecret)
      ensures pendingReadState.Value() == TrafficState(c, suite, if client then srSecret else clSecret)
    {
      var clientState := TrafficStateOf(suite, clSecret);
      var serverState := TrafficStateOf(suite, srSecret);
      if client {
        pendingWriteState, pendingReadState := clientState, serverState;
      } else {
        pendingWriteState, pendingReadState := serverState, clientState;
      }
    }

    /** A KeyUpdate from the peer: the reading key moves on. */
    method CalcKeyUpdateSender(suite: Suite, clSecret: Bytes, srSecret: Bytes) returns (cl: Bytes, sr: Bytes)
      requires Valid()
      modifies this`readState
      ensures Valid() && fresh(readState)
      ensures cl == (if client then clSecret else NextSecret(c, suite, clSecret))
      ensures sr == (if client then NextSecret(c, suite, srSecret) else srSecret)
      ensures readState.Value() == TrafficState(c, suite, if client then sr else cl)
    {
      if client {
        cl, sr := clSecret, NextSecret(c, suite, srSecret);
        readState := TrafficStateOf(suite, sr);
      } else {
        cl, sr := NextSecret(c, suite, clSecret), srSecret;
        readState := TrafficStateOf(suite, cl);
      }
    }

    /** Our own KeyUpdate has been sent: the writing key moves on. */
    method CalcKeyUpdateReceiver(suite: Suite, clSecret: Bytes, srSecret: Bytes) returns (cl: Bytes, sr: Bytes)
      requires Valid()
      modifies this`writeState
      ensures Valid() && fresh(writeState)
      ensures cl == (if client then NextSecret(c, suite, clSecret) else clSecret)
      ensures sr == (if client then srSecret else NextSecret(c, suite, srSecret))
      ensures writeState.Value() == TrafficState(c, suite, if client then cl else sr)
    {
      if client {
        cl, sr := NextSecret(c, suite, clSecret), srSecret;
        writeState := TrafficStateOf(suite, cl);
      } else {
        cl, sr := clSecret, NextSecret(c, suite, srSecret);
        writeState := TrafficStateOf(suite, sr);
      }
    }
  }

  /** Key expansion takes nothing from the handshake messages. */
  const NO_TRANSCRIPT := PrfLoops.Transcript([], [], [], [], (secret: Bytes, sender: Bytes) => [])

  lemma KeyLength(h: PrfLoops.PrfHashes, version: nat, secret: Bytes, sha384: bool, clientRandom: Bytes, serverRandom: Bytes, n: nat)
    requires PrfLoops.SoundHashes(h)
    ensures var k := PrfLoops.Key(h, version, secret, sha384, PrfLoops.KeyExpansion, NO_TRANSCRIPT, clientRandom, serverRandom, n);
            k.Ok? ==> |k.value| == n
  {
    PrfLoops.KeyPrefix(h, version, secret, sha384, PrfLoops.KeyExpansion, NO_TRANSCRIPT, clientRandom, serverRandom, n, n);
  }

  lemma AcceptChangesNothing(cfg: Config, side: ReadSide, ctype: Byte, data: Bytes, rest: seq<Record>)
    ensures var r := RecordReception.Accept(cfg, side, ctype, data, rest);
            r.side == side && !r.Blocked? && r.rest == rest
  {
    hide DePad;
  }

  lemma OpenKeepsBlockSize(c: Crypto, cfg: Config, side: ReadSide, rec: Record)
    requires Correct(c) && ValidBlockSize(side.st)
    ensures ValidBlockSize(RecordReception.Open(c, cfg, side, rec).st)
  {
    hide MacInput, ToBE, Pow256, CbcMacAndPadOk, RemovePadding, OpenAuthData, NonceAndBody;
  }

  lemma MacKeepsCipher(c: Crypto, cfg: Config, st: CState, ctype: Byte, data: Bytes)
    ensures RecordProtection.AppendMac(c, cfg, st, ctype, data).st.enc == st.enc
  {
    hide MacInput, ToBE, Pow256;
  }

  lemma CheckMacKeepsCipher(c: Crypto, cfg: Config, st: CState, ctype: Byte, buf: Bytes)
    ensures RecordProtection.CheckMac(c, cfg, st, ctype, buf).st.enc == st.enc
  {
    hide MacInput, ToBE, Pow256;
  }

  lemma CbcOkNonempty(c: Crypto, cfg: Config, key: MacKey, seqBytes: Bytes, ctype: Byte, data: Bytes, blockSize: nat)
    requires CbcMacAndPadOk(c, cfg, key, seqBytes, ctype, data, blockSize)
    ensures data != []
  {
  }
}
