/** Sending messages as records: fragmentation, padding, KeyUpdate. */
module Sending {
  import opened Results
  import opened ByteStrings
  import opened Primitives
  import opened RecordProtection
  import opened KeySchedule
  import opened Reading

  const TLS10 := 0x301

  /** How an endpoint cuts and pads: the callback sees the length so far, the type and the room left. */
  datatype Settings = Settings(recordSize: nat, sendLimit: nat, paddingCb: Option<(nat, Byte, int) -> int>)

  function PaddingFor(settings: Settings, ctype: Byte, data: Bytes): Result<nat> {
    if settings.paddingCb.None? then Ok(0)
    else
      var n := |data| + 1;
      var padding := settings.paddingCb.value(n, ctype, settings.sendLimit - n - 1);
      if padding < 0 then Err(ValueError) else Ok(padding)
  }

  /** sendRecord with the padding that the callback chooses. */
  function SendPadded(c: Crypto, cfg: Config, settings: Settings, st: CState, ctype: Byte, data: Bytes): (s: Step<Record>)
    requires Correct(c) && ValidBlockSize(st)
    ensures ValidBlockSize(s.st)
  {
    hide Correct, Send, ValidBlockSize;
    if !HidesType(cfg, st, ctype) then
      SendKeepsBlockSize(c, cfg, st, ctype, data, 0);
      Send(c, cfg, st, ctype, data, 0)
    else
      match PaddingFor(settings, ctype, data)
      case Err(e) => Step(Err(e), st)
      case Ok(padding) =>
        SendKeepsBlockSize(c, cfg, st, ctype, data, padding);
        Send(c, cfg, st, ctype, data, padding)
  }

  lemma SendKeepsBlockSize(c: Crypto, cfg: Config, st: CState, ctype: Byte, data: Bytes, padding: nat)
    requires Correct(c) && ValidBlockSize(st)
    ensures ValidBlockSize(Send(c, cfg, st, ctype, data, padding).st)
  {
    hide Pow256, ToBE, InnerPlaintext, AddPadding;
  }

  /** The fragments of a message: at most recordSize bytes each, and one even of an empty message. */
  function Fragments(recordSize: nat, buf: Bytes): seq<Bytes>
    requires recordSize >= 1
    decreases |buf|
  {
    if |buf| <= recordSize then [buf] else [buf[..recordSize]] + Fragments(recordSize, buf[recordSize..])
  }

  /** As few fragments as possible: all but the last are full. */
  lemma {:induction false} FragmentsFull(recordSize: nat, buf: Bytes, i: nat)
    requires recordSize >= 1 && i + 1 < |Fragments(recordSize, buf)|
    ensures |Fragments(recordSize, buf)[i]| == recordSize
    decreases |buf|
  {
    if i > 0 {
      FragmentsFull(recordSize, buf[recordSize..], i - 1);
    }
  }

  /** A callback that keeps to the room it is shown never makes the inner plaintext exceed the limit for sending. */
  lemma PaddingKeepsLimit(settings: Settings, ctype: Byte, data: Bytes)
    requires settings.paddingCb.Some? && |data| < settings.sendLimit && PaddingFor(settings, ctype, data).Ok?
    requires forall n: nat, t: Byte, room: int :: room >= 0 ==> settings.paddingCb.value(n, t, room) <= room
    requires forall n: nat, t: Byte, room: int :: room < 0 ==> settings.paddingCb.value(n, t, room) <= 0
    ensures |InnerPlaintext(data, ctype, PaddingFor(settings, ctype, data).value)| <= settings.sendLimit
    ensures |data| + 2 <= settings.sendLimit ==>
              |InnerPlaintext(data, ctype, PaddingFor(settings, ctype, data).value)| < settings.sendLimit
  {
  }

  /** Up to TLS 1.0, application data in CBC mode is sent with its first byte in a record of its own. */
  predicate SplitsFirstByte(cfg: Config, st: CState, ctype: Byte) {
    cfg.version <= TLS10 && st.enc.LegacyCipher? && st.enc.cipher.isBlockCipher && ctype == APPLICATION_DATA
  }

  function Pieces(cfg: Config, recordSize: nat, st: CState, ctype: Byte, buf: Bytes): seq<Bytes>
    requires recordSize >= 1
  {
    if !SplitsFirstByte(cfg, st, ctype) then Fragments(recordSize, buf)
    else if |buf| <= 1 then [buf]
    else [buf[..1]] + Fragments(recordSize, buf[1..])
  }

  /** A cut of buf: nothing is lost or moved, no piece is longer than allowed, none is empty but the only one. */
  ghost predicate CutOf(pieces: seq<Bytes>, size: nat, buf: Bytes) {
    && Flatten(pieces) == buf && pieces != []
    && (forall p :: p in pieces ==> |p| <= size)
    && (buf != [] ==> forall p :: p in pieces ==> p != [])
  }

  lemma {:induction false} FragmentsCut(recordSize: nat, buf: Bytes)
    requires recordSize >= 1
    ensures CutOf(Fragments(recordSize, buf), recordSize, buf)
    decreases |buf|
  {
    if |buf| <= recordSize {
      assert Flatten([buf]) == buf + Flatten([]);
    } else {
      FragmentsCut(recordSize, buf[recordSize..]);
      CutFirst(buf[..recordSize], Fragments(recordSize, buf[recordSize..]), recordSize, buf[recordSize..]);
      assert buf == buf[..recordSize] + buf[recordSize..];
    }
  }

  lemma CutFirst(first: Bytes, later: seq<Bytes>, size: nat, rest: Bytes)
    requires CutOf(later, size, rest) && 1 <= |first| <= size && rest != []
    ensures CutOf([first] + later, size, first + rest)
  {
    assert ([first] + later)[1..] == later;
  }

  /** Whatever the version and the cipher, sending cuts a message and changes nothing of it. */
  lemma PiecesCut(cfg: Config, recordSize: nat, st: CState, ctype: Byte, buf: Bytes)
    requires recordSize >= 1
    ensures CutOf(Pieces(cfg, recordSize, st, ctype, buf), recordSize, buf)
  {
    FragmentsCut(recordSize, buf);
    if SplitsFirstByte(cfg, st, ctype) {
      if |buf| <= 1 {
        assert Flatten([buf]) == buf + Flatten([]);
      } else {
        FragmentsCut(recordSize, buf[1..]);
        CutFirst(buf[..1], Fragments(recordSize, buf[1..]), recordSize, buf[1..]);
        assert buf == buf[..1] + buf[1..];
      }
    }
  }

  /** The first byte goes ahead in a record of its own just where the initialisation vector of a record could be
      known beforehand: application data under a block cipher up to TLS 1.0. */
  lemma FirstByteAloneIff(cfg: Config, recordSize: nat, st: CState, ctype: Byte, buf: Bytes)
    requires recordSize >= 2 && |buf| >= 2
    ensures |Pieces(cfg, recordSize, st, ctype, buf)[0]| == 1
            <==> cfg.version <= 0x301 && st.enc.LegacyCipher? && st.enc.cipher.isBlockCipher && ctype == APPLICATION_DATA
  {
  }

  /** The error that ended the sending, if any, the state left, and the records sent. */
  datatype Sent = Sent(res: Result<()>, st: CState, records: seq<Record>)

  function SendPieces(c: Crypto, cfg: Config, settings: Settings, st: CState, ctype: Byte, pieces: seq<Bytes>): (s: Sent)
    requires Correct(c) && ValidBlockSize(st)
    ensures ValidBlockSize(s.st)
    decreases |pieces|
  {
    hide Correct, SendPadded, ValidBlockSize;
    if pieces == [] then Sent(Ok(()), st, [])
    else
      var s := SendPadded(c, cfg, settings, st, ctype, pieces[0]);
      match s.res
      case Err(e) => Sent(Err(e), s.st, [])
      case Ok(rec) =>
        var later := SendPieces(c, cfg, settings, s.st, ctype, pieces[1..]);
        Sent(later.res, later.st, [rec] + later.records)
  }

  /** _sendMsg. */
  function SendMsg(c: Crypto, cfg: Config, settings: Settings, st: CState, ctype: Byte, buf: Bytes): (s: Sent)
    requires Correct(c) && ValidBlockSize(st) && settings.recordSize >= 1
    ensures ValidBlockSize(s.st)
  {
    SendPieces(c, cfg, settings, st, ctype, Pieces(cfg, settings.recordSize, st, ctype, buf))
  }

  /** The writing secret and state. */
  datatype Writer = Writer(secret: Bytes, st: CState)

  function TypeOf(ev: Event): Byte {
    if ev.Data? then APPLICATION_DATA else HANDSHAKE
  }

  function Written(ev: Event): Bytes {
    match ev
    case Data(bytes) => bytes
    case Ticket(bytes) => bytes
    case Update(requested) => [KEY_UPDATE, 0, 0, 1, if requested then 1 else 0]
  }

  datatype Dispatch = Dispatch(res: Result<()>, writer: Writer, records: seq<Record>)

  /** Send what an event stands for; a KeyUpdate that has been sent takes the writer to its next secret. */
  function SendEvent(c: Crypto, suite: Suite, settings: Settings, w: Writer, ev: Event): (d: Dispatch)
    requires Correct(c) && Keyed(w.st) && settings.recordSize >= 1
  {
    var s := SendMsg(c, TLS13_CONFIG, settings, w.st, TypeOf(ev), Written(ev));
    var next := NextSecret(c, suite, w.secret);
    if s.res.Ok? && ev.Update? then Dispatch(s.res, Writer(next, TrafficState(c, suite, next)), s.records)
    else Dispatch(s.res, w.(st := s.st), s.records)
  }
}

/** What one message becomes at the other end. */
module Delivery {
  import opened Results
  import opened ByteStrings
  import opened Primitives
  import opened RecordProtection
  import opened RecordReception
  import opened RecordRoundTrip
  import opened Defragmentation
  import opened Messaging
  import opened KeySchedule
  import opened Reading
  import opened Sending

  const HANDSHAKE_DECODER := DynamicSize(1, 3)

  /** Record sizes and padding keep within what the peer accepts. */
  ghost predicate Considerate(settings: Settings, limit: nat) {
    && 1 <= settings.recordSize <= limit
    && (forall ctype: Byte, data: Bytes {:trigger PaddingFor(settings, ctype, data)} ::
          |data| <= settings.recordSize && PaddingFor(settings, ctype, data).Ok? ==>
            |data| + PaddingFor(settings, ctype, data).value <= limit)
  }

  /** A state as the suites of TLS 1.3 have it: tags of 8 or 16 bytes, nonces of 12. */
  predicate SuiteState(st: CState) {
    Keyed(st) && st.enc.aead.tagLength <= 255 && st.enc.aead.nonceLength == 12 && |st.fixedNonce| == 12
  }

  lemma TrafficStateIsSuiteState(c: Crypto, suite: Suite, secret: Bytes)
    requires Correct(c) && suite.tagLength <= 255
    ensures SuiteState(TrafficState(c, suite, secret))
  {
  }

  /** A reader with nothing buffered and no early data to skip. */
  ghost predicate Idle(r: Reader) {
    && Quiet(r) && Empty(r.defrag) && r.defrag.decoders[HANDSHAKE] == HANDSHAKE_DECODER
  }

  lemma SealedLength(c: Crypto, st: CState, ctype: Byte, data: Bytes, padding: nat)
    requires Correct(c) && Keyed(st) && ctype != CHANGE_CIPHER_SPEC
    requires Send(c, TLS13_CONFIG, st, ctype, data, padding).res.Ok?
    ensures var s := Send(c, TLS13_CONFIG, st, ctype, data, padding);
            && |s.res.value.payload| == |data| + 1 + padding + st.enc.aead.tagLength
            && s.res.value.ctype == APPLICATION_DATA && s.st == st.(seqnum := s.st.seqnum)
  {
    hide Pow256, ToBE, GetNonce, SealAuthData;
  }

  /** A record opens in the state that sealed it, to the type and content it was made from. */
  lemma PieceReceived(c: Crypto, settings: Settings, side: ReadSide, ctype: Byte, data: Bytes, rest: seq<Record>)
    requires Correct(c) && SuiteState(side.st) && !side.earlyOk && side.earlyDone == 0
    requires Considerate(settings, side.recvLimit) && |data| <= settings.recordSize
    requires ctype == HANDSHAKE || ctype == APPLICATION_DATA
    requires SendPadded(c, TLS13_CONFIG, settings, side.st, ctype, data).res.Ok?
    ensures var s := SendPadded(c, TLS13_CONFIG, settings, side.st, ctype, data);
            && ReceiveRecord(c, TLS13_CONFIG, side, [s.res.value] + rest)
            == Received(ctype, data, side.(st := s.st), rest)
            && SuiteState(s.st)
  {
    hide Correct, Send, Unprotect, DePad, PaddingFor, InnerPlaintext;
    var s := SendPadded(c, TLS13_CONFIG, settings, side.st, ctype, data);
    var padding := PaddingFor(settings, ctype, data).value;
    assert |data| + padding <= side.recvLimit;
    SealedLength(c, side.st, ctype, data, padding);
    ProtectionRoundTrip(c, TLS13_CONFIG, side.st, ctype, data, padding);
    assert |InnerPlaintext(data, ctype, padding)| == |data| + 1 + padding by { InnerLength(data, ctype, padding); }
    OpenedReceived(c, side, s.res.value, data, ctype, InnerPlaintext(data, ctype, padding), s.st, rest);
  }

  lemma InnerLength(data: Bytes, ctype: Byte, padding: nat)
    ensures |InnerPlaintext(data, ctype, padding)| == |data| + 1 + padding
  {
  }

  lemma OpenedReceived(c: Crypto, side: ReadSide, rec: Record, data: Bytes, ctype: Byte, inner: Bytes, st: CState, rest: seq<Record>)
    requires Keyed(side.st) && Keyed(st) && !side.earlyOk && side.earlyDone == 0 && rec.ctype == APPLICATION_DATA
    requires |rec.payload| <= side.recvLimit + 256 && |inner| <= side.recvLimit + 1 && |data| <= side.recvLimit
    requires Unprotect(c, TLS13_CONFIG, side.st, rec) == Step(Ok(inner), st) && DePad(inner) == Ok((data, ctype))
    ensures ReceiveRecord(c, TLS13_CONFIG, side, [rec] + rest) == Received(ctype, data, side.(st := st), rest)
  {
    hide Unprotect, DePad;
    var input := [rec] + rest;
    assert input[0] == rec && input[1..] == rest;
  }

  function Advanced(r: Reader, st: CState): Reader {
    r.(side := r.side.(st := st))
  }

  lemma AdvancedIdle(r: Reader, st: CState)
    requires Idle(r) && Keyed(st)
    ensures Idle(Advanced(r, st))
  {
    hide Proper, Take;
  }

  //
  // Application data
  //

  /** The events that pieces of application data become: empty ones none. */
  function DataEvents(pieces: seq<Bytes>): seq<Event> {
    if pieces == [] then []
    else (if pieces[0] == [] then [] else [Data(pieces[0])]) + DataEvents(pieces[1..])
  }

  lemma DataFetched(c: Crypto, settings: Settings, r: Reader, data: Bytes, rest: seq<Record>)
    requires Correct(c) && Idle(r) && SuiteState(r.side.st)
    requires Considerate(settings, r.side.recvLimit) && |data| <= settings.recordSize
    requires SendPadded(c, TLS13_CONFIG, settings, r.side.st, APPLICATION_DATA, data).res.Ok?
    ensures var s := SendPadded(c, TLS13_CONFIG, settings, r.side.st, APPLICATION_DATA, data);
            && SuiteState(s.st)
            && NextRecord(c, r, [s.res.value] + rest) == Fetched(Message(APPLICATION_DATA, data), Advanced(r, s.st), rest)
  {
    hide Correct, SendPadded, ReceiveRecord, Take, Buffered, Proper, Considerate, Empty;
    PieceReceived(c, settings, r.side, APPLICATION_DATA, data, rest);
    NothingTaken(r.defrag);
  }

  lemma DataStep(c: Crypto, suite: Suite, settings: Settings, r: Reader, data: Bytes, rest: seq<Record>)
    requires Correct(c) && Idle(r) && SuiteState(r.side.st)
    requires Considerate(settings, r.side.recvLimit) && |data| <= settings.recordSize
    requires SendPadded(c, TLS13_CONFIG, settings, r.side.st, APPLICATION_DATA, data).res.Ok?
    ensures var s := SendPadded(c, TLS13_CONFIG, settings, r.side.st, APPLICATION_DATA, data);
            var r' := Advanced(r, s.st);
            && Idle(r') && SuiteState(s.st)
            && ReadEvent(c, suite, r, [s.res.value] + rest) ==
                 if data == [] then ReadEvent(c, suite, r', rest) else Heard(Data(data), r', rest)
  {
    hide Correct, SendPadded, NextRecord, Take, Buffered, Proper, Considerate, SameSettings;
    DataFetched(c, settings, r, data, rest);
    AdvancedIdle(r, SendPadded(c, TLS13_CONFIG, settings, r.side.st, APPLICATION_DATA, data).st);
    LiveBuffers(r);
  }

  /** Application data arrives as its nonempty pieces, and the reader ends in the state of the writer. */
  lemma {:induction false} DataDelivered(c: Crypto, suite: Suite, settings: Settings, r: Reader, pieces: seq<Bytes>)
    requires Correct(c) && Idle(r) && SuiteState(r.side.st) && Considerate(settings, r.side.recvLimit)
    requires forall p :: p in pieces ==> |p| <= settings.recordSize
    requires SendPieces(c, TLS13_CONFIG, settings, r.side.st, APPLICATION_DATA, pieces).res.Ok?
    ensures var s := SendPieces(c, TLS13_CONFIG, settings, r.side.st, APPLICATION_DATA, pieces);
            && SuiteState(s.st)
            && ReadThrough(c, suite, r, s.records) == Trace(DataEvents(pieces), Waiting(Advanced(r, s.st)))
    decreases |pieces|
  {
    hide Correct, SendPadded, ReadEvent, Proper, Considerate, SameSettings, Take, Empty;
    if pieces == [] {
      NothingRead(c, suite, r);
    } else {
      var data := pieces[0];
      var s := SendPadded(c, TLS13_CONFIG, settings, r.side.st, APPLICATION_DATA, data);
      var r' := Advanced(r, s.st);
      var later := SendPieces(c, TLS13_CONFIG, settings, s.st, APPLICATION_DATA, pieces[1..]).records;
      DataStep(c, suite, settings, r, data, later);
      DataDelivered(c, suite, settings, r', pieces[1..]);
      if data == [] {
        ReadIsSame(c, suite, r, [s.res.value] + later, r', later);
        assert [] + DataEvents(pieces[1..]) == DataEvents(pieces[1..]);
      }
    }
  }

  lemma NothingRead(c: Crypto, suite: Suite, r: Reader)
    requires Quiet(r)
    ensures ReadThrough(c, suite, r, []) == Trace([], Waiting(r))
  {
    hide Take, Proper;
    NothingTaken(r.defrag);
  }

  //
  // Handshake messages
  //

  /** The bytes of a handshake message that have arrived so far. */
  function Partial(r: Reader, buf: Bytes): Reader
    requires Proper(r.defrag) && HANDSHAKE in r.defrag.priorities
  {
    r.(defrag := With(r.defrag, HANDSHAKE, buf))
  }

  lemma PartialQuiet(r: Reader, buf: Bytes)
    requires Idle(r)
    ensures Live(Partial(r, buf))
    ensures Take(Partial(r, buf).defrag) ==
              match CompleteLength(HANDSHAKE_DECODER, buf)
              case None => (None, Partial(r, buf).defrag)
              case Some(n) => (Some(Message(HANDSHAKE, buf[..n])), Partial(r, buf[n..]).defrag)
    ensures Partial(r, []) == r
    ensures HANDSHAKE in Partial(r, buf).defrag.buffers
  {
    hide CompleteLength, Take;
    TakeSingle(r.defrag, HANDSHAKE, buf);
    WithEmpty(r.defrag, HANDSHAKE);
  }

  lemma PrefixIncomplete(d: Decoder, first: Bytes, rest: Bytes)
    requires ProperDecoder(d) && WholeMessage(d, first + rest) && rest != []
    ensures CompleteLength(d, first).None?
  {
    if CompleteLength(d, first).Some? {
      CompleteStaysComplete(d, first, rest);
    }
  }

  lemma PieceBuffered(c: Crypto, settings: Settings, r: Reader, buf: Bytes, data: Bytes, rest: seq<Record>)
    requires Correct(c) && Idle(r) && SuiteState(r.side.st) && CompleteLength(HANDSHAKE_DECODER, buf).None?
    requires Considerate(settings, r.side.recvLimit) && |data| <= settings.recordSize && data != []
    requires SendPadded(c, TLS13_CONFIG, settings, r.side.st, HANDSHAKE, data).res.Ok?
    ensures var s := SendPadded(c, TLS13_CONFIG, settings, r.side.st, HANDSHAKE, data);
            var r' := Advanced(r, s.st);
            && Idle(r') && SuiteState(s.st)
            && Live(Partial(r, buf)) && Live(Partial(r', buf + data))
            && NextRecord(c, Partial(r, buf), [s.res.value] + rest) == NextRecord(c, Partial(r', buf + data), rest)
  {
    hide Correct, SendPadded, ReceiveRecord, Take, Buffered, Proper, Considerate, Empty, CompleteLength, Append, With;
    var s := SendPadded(c, TLS13_CONFIG, settings, r.side.st, HANDSHAKE, data);
    PartialQuiet(r, buf);
    PieceReceived(c, settings, r.side, HANDSHAKE, data, rest);
    AdvancedIdle(r, s.st);
    PartialQuiet(Advanced(r, s.st), buf + data);
    AppendPartial(r.defrag, buf, data);
  }

  lemma AppendPartial(d: Defrag, buf: Bytes, data: Bytes)
    requires Proper(d) && HANDSHAKE in d.priorities
    ensures Append(With(d, HANDSHAKE, buf), HANDSHAKE, data) == Ok(With(d, HANDSHAKE, buf + data))
  {
    assert d.buffers[HANDSHAKE := buf][HANDSHAKE := buf + data] == d.buffers[HANDSHAKE := buf + data];
  }

  /** However a handshake message was cut, it is fetched whole with its last piece, leaving the buffers empty. */
  lemma {:induction false} HandshakeFetched(c: Crypto, settings: Settings, r: Reader, buf: Bytes, pieces: seq<Bytes>)
    requires Correct(c) && Idle(r) && SuiteState(r.side.st) && Considerate(settings, r.side.recvLimit)
    requires forall p :: p in pieces ==> 1 <= |p| <= settings.recordSize
    requires WholeMessage(HANDSHAKE_DECODER, buf + Flatten(pieces))
    requires SendPieces(c, TLS13_CONFIG, settings, r.side.st, HANDSHAKE, pieces).res.Ok?
    ensures var s := SendPieces(c, TLS13_CONFIG, settings, r.side.st, HANDSHAKE, pieces);
            && SuiteState(s.st) && Live(Partial(r, buf))
            && NextRecord(c, Partial(r, buf), s.records)
            == Fetched(Message(HANDSHAKE, buf + Flatten(pieces)), Advanced(r, s.st), [])
    decreases |pieces|
  {
    hide Correct, SendPadded, NextRecord, Proper, Considerate, SameSettings, Take, Empty, CompleteLength, With;
    PartialQuiet(r, buf);
    if pieces == [] {
      assert buf + Flatten(pieces) == buf && buf[..|buf|] == buf && buf[|buf|..] == [];
      LastFetched(c, r, buf);
    } else {
      var s := SendPadded(c, TLS13_CONFIG, settings, r.side.st, HANDSHAKE, pieces[0]);
      var later := SendPieces(c, TLS13_CONFIG, settings, s.st, HANDSHAKE, pieces[1..]).records;
      assert Flatten(pieces) == pieces[0] + Flatten(pieces[1..]);
      PrefixIncomplete(HANDSHAKE_DECODER, buf, Flatten(pieces));
      FlattenFirst(buf, pieces);
      PieceBuffered(c, settings, r, buf, pieces[0], later);
      HandshakeFetched(c, settings, Advanced(r, s.st), buf + pieces[0], pieces[1..]);
    }
  }

  lemma LastFetched(c: Crypto, r: Reader, buf: Bytes)
    requires Idle(r) && WholeMessage(HANDSHAKE_DECODER, buf)
    ensures Live(Partial(r, buf)) && NextRecord(c, Partial(r, buf), []) == Fetched(Message(HANDSHAKE, buf), r, [])
  {
    hide Proper, Take, CompleteLength, With;
    PartialQuiet(r, buf);
    assert buf[..|buf|] == buf && buf[|buf|..] == [];
  }

  /** A handshake message, whole and of a kind that is read between handshakes, is heard as its event. */
  lemma HandshakeHeard(c: Crypto, suite: Suite, settings: Settings, r: Reader, ev: Event)
    requires Correct(c) && Idle(r) && SuiteState(r.side.st) && Considerate(settings, r.side.recvLimit)
    requires !ev.Data? && WellFormed(ev)
    requires SendMsg(c, TLS13_CONFIG, settings, r.side.st, HANDSHAKE, Written(ev)).res.Ok?
    ensures var s := SendMsg(c, TLS13_CONFIG, settings, r.side.st, HANDSHAKE, Written(ev));
            && SuiteState(s.st) && Idle(Advanced(r, s.st))
            && ReadEvent(c, suite, r, s.records) == Heard(ev, Absorb(c, suite, Advanced(r, s.st), ev), [])
  {
    var m := Written(ev);
    WellFormedWhole(ev);
    PiecesCut(TLS13_CONFIG, settings.recordSize, r.side.st, HANDSHAKE, m);
    var pieces := Pieces(TLS13_CONFIG, settings.recordSize, r.side.st, HANDSHAKE, m);
    assert [] + Flatten(pieces) == m;
    PartialQuiet(r, []);
    HandshakeFetched(c, settings, r, [], pieces);
    var r' := Advanced(r, SendPieces(c, TLS13_CONFIG, settings, r.side.st, HANDSHAKE, pieces).st);
    AdvancedIdle(r, r'.side.st);
    LiveBuffers(r');
    EmptyIsEmpty(r'.defrag);
    hide Correct, NextRecord, Proper, Considerate, SameSettings, Take, Empty, CompleteLength, With, IsEmpty, SendPieces, Absorb;
  }

  lemma EmptyIsEmpty(d: Defrag)
    requires Empty(d)
    ensures IsEmpty(d) && (HANDSHAKE in d.buffers ==> d.buffers[HANDSHAKE] == [])
  {
  }

  /** A ticket message is one whole handshake message of its type. */
  predicate WellFormed(ev: Event) {
    ev.Ticket? ==> WholeMessage(HANDSHAKE_DECODER, ev.bytes) && ev.bytes[0] == NEW_SESSION_TICKET
  }

  lemma WellFormedWhole(ev: Event)
    requires WellFormed(ev) && !ev.Data?
    ensures WholeMessage(HANDSHAKE_DECODER, Written(ev)) && Interpret(Message(HANDSHAKE, Written(ev))) == Ok(ev)
    ensures Written(ev) != [] && (Written(ev)[0] == NEW_SESSION_TICKET || Written(ev)[0] == KEY_UPDATE)
    ensures Fault(Message(HANDSHAKE, Written(ev)), EMPTY_BUFFERS).None?
  {
    if ev.Update? {
      var m := Written(ev);
      assert m[1..4] == [0, 0, 1];
      assert FromBE([0, 0, 1]) == 1 by {
        assert [0, 0, 1][..2] == [0, 0] && [0, 0][..1] == [0] && [0][..0] == [];
      }
    }
  }

  const EMPTY_BUFFERS := Defrag([HANDSHAKE], map[HANDSHAKE := []], map[HANDSHAKE := HANDSHAKE_DECODER])

  //
  // Any message
  //

  /** What the other end hears when an event is sent: application data comes in pieces. */
  function Expected(settings: Settings, ev: Event): seq<Event>
    requires settings.recordSize >= 1
  {
    if ev.Data? then DataEvents(Fragments(settings.recordSize, ev.bytes)) else [ev]
  }

  /** A reader with the secret and the state of a writer. */
  function InStep(r: Reader, w: Writer): Reader {
    r.(secret := w.secret, side := r.side.(st := w.st))
  }

  /** An idle reader and a writer in the same state, whose settings suit the reader. */
  ghost predicate Attuned(suite: Suite, settings: Settings, r: Reader, w: Writer) {
    && Idle(r) && r == InStep(r, w) && SuiteState(w.st) && suite.tagLength <= 255
    && Considerate(settings, r.side.recvLimit)
  }

  lemma DataCase(c: Crypto, suite: Suite, settings: Settings, r: Reader, w: Writer, ev: Event)
    requires Correct(c) && Attuned(suite, settings, r, w) && ev.Data?
    requires SendEvent(c, suite, settings, w, ev).res.Ok?
    ensures var d := SendEvent(c, suite, settings, w, ev);
            && Attuned(suite, settings, InStep(r, d.writer), d.writer)
            && ReadThrough(c, suite, r, d.records) == Trace(Expected(settings, ev), Waiting(InStep(r, d.writer)))
  {
    var pieces := Fragments(settings.recordSize, ev.bytes);
    FragmentsCut(settings.recordSize, ev.bytes);
    DataDelivered(c, suite, settings, r, pieces);
    InStepIdle(r, SendEvent(c, suite, settings, w, ev).writer);
    hide Correct, Proper, Considerate, SameSettings, Take, Empty, ReadEvent, ReadThrough, SendPieces, CompleteLength;
  }

  lemma LastHeard(c: Crypto, suite: Suite, r: Reader, input: seq<Record>, ev: Event, r': Reader)
    requires Live(r) && Quiet(r') && ReadEvent(c, suite, r, input) == Heard(ev, r', [])
    ensures ReadThrough(c, suite, r, input) == Trace([ev], Waiting(r'))
  {
    hide Take, ReadEvent, Proper, SameSettings;
    NothingRead(c, suite, r');
  }

  lemma AbsorbedInStep(c: Crypto, suite: Suite, settings: Settings, r: Reader, w: Writer, ev: Event)
    requires Correct(c) && Attuned(suite, settings, r, w) && !ev.Data?
    requires SendEvent(c, suite, settings, w, ev).res.Ok?
    ensures var s := SendMsg(c, TLS13_CONFIG, settings, w.st, HANDSHAKE, Written(ev));
            SuiteState(s.st) ==>
              && Absorb(c, suite, Advanced(r, s.st), ev) == InStep(r, SendEvent(c, suite, settings, w, ev).writer)
              && Attuned(suite, settings, InStep(r, SendEvent(c, suite, settings, w, ev).writer), SendEvent(c, suite, settings, w, ev).writer)
  {
    var s := SendMsg(c, TLS13_CONFIG, settings, w.st, HANDSHAKE, Written(ev));
    if SuiteState(s.st) {
      var d := SendEvent(c, suite, settings, w, ev);
      InStepIdle(r, d.writer);
      TrafficStateIsSuiteState(c, suite, NextSecret(c, suite, w.secret));
      hide Correct, Proper, Idle, Considerate, SendMsg, SameSettings;
      AdvancedIdle(r, s.st);
    }
  }

  lemma HandshakeCase(c: Crypto, suite: Suite, settings: Settings, r: Reader, w: Writer, ev: Event)
    requires Correct(c) && Attuned(suite, settings, r, w) && !ev.Data? && WellFormed(ev)
    requires SendEvent(c, suite, settings, w, ev).res.Ok?
    ensures var d := SendEvent(c, suite, settings, w, ev);
            && Attuned(suite, settings, InStep(r, d.writer), d.writer)
            && ReadThrough(c, suite, r, d.records) == Trace([ev], Waiting(InStep(r, d.writer)))
  {
    assert settings.recordSize >= 1;
    hide Correct, Proper, Considerate, SameSettings, Take, Empty, ReadEvent, ReadThrough, SendMsg, Absorb, Expected, NextSecret, TrafficState;
    AbsorbedInStep(c, suite, settings, r, w, ev);
    HandshakeHeard(c, suite, settings, r, ev);
    var d := SendEvent(c, suite, settings, w, ev);
    LastHeard(c, suite, r, d.records, ev, InStep(r, d.writer));
  }

  /** What is sent from a state is heard by an idle reader in that state, who ends in step with the writer. */
  lemma EventDelivered(c: Crypto, suite: Suite, settings: Settings, r: Reader, w: Writer, ev: Event)
    requires Correct(c) && Attuned(suite, settings, r, w) && WellFormed(ev)
    requires SendEvent(c, suite, settings, w, ev).res.Ok?
    ensures var d := SendEvent(c, suite, settings, w, ev);
            && Attuned(suite, settings, InStep(r, d.writer), d.writer)
            && ReadThrough(c, suite, r, d.records) == Trace(Expected(settings, ev), Waiting(InStep(r, d.writer)))
  {
    if ev.Data? {
      DataCase(c, suite, settings, r, w, ev);
    } else {
      HandshakeCase(c, suite, settings, r, w, ev);
    }
    hide Correct, Proper, Idle, Considerate, ReadThrough, SendEvent;
  }

  lemma InStepIdle(r: Reader, w: Writer)
    requires Idle(r) && Keyed(w.st)
    ensures Idle(InStep(r, w))
  {
    hide Proper, Take;
  }

  function DataIn(ev: Event): Bytes {
    if ev.Data? then ev.bytes else []
  }

  /** The bytes of application data among events. */
  function DataOf(events: seq<Event>): Bytes {
    if events == [] then [] else DataIn(events[0]) + DataOf(events[1..])
  }

  lemma {:induction false} DataOfAppend(a: seq<Event>, b: seq<Event>)
    ensures DataOf(a + b) == DataOf(a) + DataOf(b)
  {
    if a == [] {
      assert a + b == b;
    } else {
      hide DataOf, DataIn;
      DataOfAppend(a[1..], b);
      assert a + b == [a[0]] + (a[1..] + b);
      DataOfFirst(a[0], a[1..] + b);
      DataOfFirst(a[0], a[1..]);
      assert a == [a[0]] + a[1..];
      Regroup(DataIn(a[0]), DataOf(a[1..]), DataOf(b));
    }
  }

  lemma Regroup(x: Bytes, y: Bytes, z: Bytes)
    ensures x + (y + z) == (x + y) + z
  {
  }

  lemma DataOfFirst(ev: Event, events: seq<Event>)
    ensures DataOf([ev] + events) == DataIn(ev) + DataOf(events)
  {
    assert ([ev] + events)[1..] == events;
  }

  lemma {:induction false} DataOfPieces(pieces: seq<Bytes>)
    ensures DataOf(DataEvents(pieces)) == Flatten(pieces)
  {
    if pieces != [] {
      DataOfPieces(pieces[1..]);
      var first := if pieces[0] == [] then [] else [Data(pieces[0])];
      DataOfAppend(first, DataEvents(pieces[1..]));
    }
  }

  /** Cutting does not show in the bytes: what is heard of application data is what was written. */
  lemma ExpectedBytes(settings: Settings, ev: Event)
    requires settings.recordSize >= 1
    ensures DataOf(Expected(settings, ev)) == if ev.Data? then ev.bytes else []
  {
    if ev.Data? {
      FragmentsCut(settings.recordSize, ev.bytes);
      DataOfPieces(Fragments(settings.recordSize, ev.bytes));
    }
  }
}
