/** A TLS 1.3 connection between handshakes as the original has it, over a record layer and a defragmenter. */
module TlsConnections {
  import opened Results
  import opened ByteStrings
  import opened Primitives
  import opened RecordProtection
  import opened RecordReception
  import opened Defragmentation
  import opened Messaging
  import opened KeySchedule
  import opened Reading
  import opened Sending
  import opened Channel
  import opened RecordLayers

  class TlsConnection {
    const suite: Suite
    const recordLayer: RecordLayer
    const defragmenter: Defragmenter
    var clAppSecret: Bytes
    var srAppSecret: Bytes
    const middleboxCompat: bool
    var readBuffer: Bytes
    var tickets: seq<Bytes>

    ghost function Repr(): set<object>
      reads this, recordLayer
    {
      {this, defragmenter} + recordLayer.Repr()
    }

    ghost predicate Valid()
      reads this, recordLayer, Repr()
    {
      && recordLayer.Valid() && defragmenter.Valid()
      && this !in recordLayer.Repr() && defragmenter !in recordLayer.Repr()
      && recordLayer.settings.recordSize >= 1 && recordLayer.cfg == TLS13_CONFIG
      && Keyed(recordLayer.writeState.Value()) && Keyed(recordLayer.readState.Value())
      && HANDSHAKE in defragmenter.priorities
    }

    /** The endpoint that the connection is. */
    ghost function Value(): Endpoint
      reads this, recordLayer, Repr()
    {
      Endpoint(recordLayer.client, clAppSecret, srAppSecret, recordLayer.writeState.Value(), recordLayer.Side(),
               defragmenter.Value(), middleboxCompat, recordLayer.settings)
    }

    /** Take over a record layer after the handshake. */
    constructor (suite: Suite, recordLayer: RecordLayer, defragmenter: Defragmenter, clSecret: Bytes, srSecret: Bytes, compat: bool)
      requires recordLayer.Valid() && defragmenter.Valid() && defragmenter !in recordLayer.Repr()
      requires recordLayer.settings.recordSize >= 1 && recordLayer.cfg == TLS13_CONFIG
      requires Keyed(recordLayer.writeState.Value()) && Keyed(recordLayer.readState.Value())
      requires HANDSHAKE in defragmenter.priorities
      ensures Valid()
      ensures Value() == Endpoint(recordLayer.client, clSecret, srSecret, recordLayer.writeState.Value(), recordLayer.Side(),
                                  defragmenter.Value(), compat, recordLayer.settings)
      ensures this.suite == suite && this.recordLayer == recordLayer && this.defragmenter == defragmenter
    {
      this.suite, this.recordLayer, this.defragmenter := suite, recordLayer, defragmenter;
      clAppSecret, srAppSecret, middleboxCompat := clSecret, srSecret, compat;
      readBuffer, tickets := [], [];
    }

    //
    // Sending
    //

    /** The loop of _sendMsg: cut what is longer than a record, and send. */
    static method SendFragments(layer: RecordLayer, ctype: Byte, data: Bytes) returns (r: Result<()>)
      requires layer.Valid() && Correct(layer.c) && layer.settings.recordSize >= 1
      modifies layer.writeState, layer`output
      ensures layer.Valid()
      ensures var s := SendPieces(layer.c, layer.cfg, layer.settings, old(layer.writeState.Value()), ctype,
                                  Fragments(layer.settings.recordSize, data));
              r == s.res && layer.writeState.Value() == s.st && layer.output == old(layer.output) + s.records
    {
      hide Correct, SendPadded, ValidBlockSize, SendPieces;
      var c, cfg, settings := layer.c, layer.cfg, layer.settings;
      ghost var whole := SendPieces(c, cfg, settings, layer.writeState.Value(), ctype, Fragments(settings.recordSize, data));
      var buf := data;
      while |buf| > settings.recordSize
        invariant layer.Valid()
        invariant var later := SendPieces(c, cfg, settings, layer.writeState.Value(), ctype, Fragments(settings.recordSize, buf));
                  && whole.res == later.res && whole.st == later.st
                  && old(layer.output) + whole.records == layer.output + later.records
        decreases |buf|
      {
        var newB := buf[..settings.recordSize];
        buf := buf[settings.recordSize..];
        PiecesUnfold(c, cfg, settings, layer.writeState.Value(), ctype, newB, Fragments(settings.recordSize, buf), layer.output);
        var _ :- layer.SendRecord(ctype, newB);
      }
      PiecesUnfold(c, cfg, settings, layer.writeState.Value(), ctype, buf, [], layer.output);
      NothingLeft(c, cfg, settings, SendPadded(c, cfg, settings, layer.writeState.Value(), ctype, buf).st, ctype);
      assert [buf] + [] == [buf];
      r := layer.SendRecord(ctype, buf);
    }

    /** _sendMsg, for every version: up to TLS 1.0 the first byte of application data goes ahead in CBC mode. */
    static method SendMsg(layer: RecordLayer, ctype: Byte, data: Bytes) returns (r: Result<()>)
      requires layer.Valid() && Correct(layer.c) && layer.settings.recordSize >= 1
      modifies layer.writeState, layer`output
      ensures layer.Valid()
      ensures var s := Sending.SendMsg(layer.c, layer.cfg, layer.settings, old(layer.writeState.Value()), ctype, data);
              r == s.res && layer.writeState.Value() == s.st && layer.output == old(layer.output) + s.records
    {
      hide Correct, SendPadded, ValidBlockSize, SendPieces, Fragments;
      var buf := data;
      if SplitsFirstByte(layer.cfg, layer.writeState.Value(), ctype) {
        var n := if |buf| < 1 then |buf| else 1;
        ghost var later := if |buf| <= 1 then [] else Fragments(layer.settings.recordSize, buf[1..]);
        PiecesUnfold(layer.c, layer.cfg, layer.settings, layer.writeState.Value(), ctype, buf[..n], later, layer.output);
        NothingLeft(layer.c, layer.cfg, layer.settings,
                    SendPadded(layer.c, layer.cfg, layer.settings, layer.writeState.Value(), ctype, buf[..n]).st, ctype);
        assert |buf| <= 1 ==> buf[..n] == buf && [buf] == [buf] + later;
        assert Pieces(layer.cfg, layer.settings.recordSize, layer.writeState.Value(), ctype, buf) == [buf[..n]] + later;
        var _ :- layer.SendRecord(ctype, buf[..n]);
        buf := buf[n..];
        if buf == [] { return Ok(()); }
      }
      r := SendFragments(layer, ctype, buf);
    }

    //
    // Reading
    //

    ghost function CurrentReader(): Reader
      reads this, recordLayer, Repr()
    {
      ReaderOf(Value())
    }

    /** Hand a received record on, or put it into the buffers. */
    method PlaceRecord(early: bool, t: Byte, data: Bytes) returns (done: bool, r: Option<Result<Message>>)
      requires Valid()
      modifies recordLayer`earlyDataOk, recordLayer`earlyDataProcessed, defragmenter
      ensures Valid() && (done ==> r.Some?)
      ensures Place(old(CurrentReader()).(side := old(recordLayer.Side()).(earlyOk := early)), old(recordLayer.Side()),
                    t, data, recordLayer.input) ==
                if done then Done(FetchedAs(r, CurrentReader(), recordLayer.input))
                else Again(CurrentReader(), recordLayer.input)
    {
      hide Append, Proper;
      if (t != APPLICATION_DATA && data == []) || !(CHANGE_CIPHER_SPEC <= t <= HEARTBEAT) {
        return true, Some(Err(UnexpectedMessage));
      }
      if PassedOn(t) {
        if t == CHANGE_CIPHER_SPEC { recordLayer.SetEarlyDataOk(early); }
        return true, Some(Ok(Message(t, data)));
      }
      var added := defragmenter.AddData(t, data);
      if added.Err? { return true, Some(Err(added.error)); }
      return false, None;
    }

    /** Receive a record and place it. */
    method SocketPass() returns (done: bool, r: Option<Result<Message>>)
      requires Valid() && Correct(recordLayer.c) && Take(defragmenter.Value()).0.None?
      modifies recordLayer`readState, recordLayer`input, recordLayer`earlyDataOk, recordLayer`earlyDataProcessed
      modifies recordLayer.readState, defragmenter
      ensures Valid() && (recordLayer.readState == old(recordLayer.readState) || fresh(recordLayer.readState))
      ensures Reading.SocketPass(recordLayer.c, old(CurrentReader()), old(recordLayer.input)) ==
                if done then Done(FetchedAs(r, CurrentReader(), recordLayer.input))
                else Again(CurrentReader(), recordLayer.input)
      ensures done && r.None? ==> recordLayer.input == []
    {
      hide Correct, ReceiveRecord, Take, Append, Proper, Place;
      ReceiveKeeps(recordLayer.c, recordLayer.Side(), recordLayer.input);
      ghost var before := CurrentReader();
      var early := recordLayer.earlyDataOk;
      var received := recordLayer.RecvRecord();
      if received.None? { return true, None; }
      if received.value.Err? { return true, Some(Err(received.value.error)); }
      ghost var side := recordLayer.Side();
      PlaceSees(before, before.(side := side.(earlyOk := early)), side, received.value.value.0, received.value.value.1, recordLayer.input);
      done, r := PlaceRecord(early, received.value.value.0, received.value.value.1);
    }

    /** One pass of the loop of _getNextRecord: done, or round again after data went to the buffers. */
    method NextPass() returns (done: bool, r: Option<Result<Message>>)
      requires Valid() && Correct(recordLayer.c)
      modifies recordLayer`readState, recordLayer`input, recordLayer`earlyDataOk, recordLayer`earlyDataProcessed
      modifies recordLayer.readState, defragmenter
      ensures Valid() && (recordLayer.readState == old(recordLayer.readState) || fresh(recordLayer.readState))
      ensures Reading.NextPass(recordLayer.c, old(CurrentReader()), old(recordLayer.input)) ==
                if done then Done(FetchedAs(r, CurrentReader(), recordLayer.input))
                else Again(CurrentReader(), recordLayer.input)
      ensures done && r.None? ==> recordLayer.input == []
    {
      hide Correct, Take, Proper, Reading.SocketPass, Keyed;
      var m := defragmenter.GetMessage();
      if m.Some? { return true, Some(Ok(m.value)); }
      NothingTaken(old(defragmenter.Value()));
      done, r := SocketPass();
    }

    /** _getNextRecord. Without records the original waits for the network. */
    method GetNextRecord() returns (r: Option<Result<Message>>)
      requires Valid() && Correct(recordLayer.c)
      modifies recordLayer`readState, recordLayer`input, recordLayer`earlyDataOk, recordLayer`earlyDataProcessed
      modifies recordLayer.readState, defragmenter
      ensures Valid() && (recordLayer.readState == old(recordLayer.readState) || fresh(recordLayer.readState))
      ensures Reading.NextRecord(recordLayer.c, old(CurrentReader()), old(recordLayer.input))
           == FetchedAs(r, CurrentReader(), recordLayer.input)
      ensures r.None? ==> recordLayer.input == []
    {
      hide Correct, Reading.NextPass;
      var done := false;
      r := None;
      while !done
        invariant Valid() && (recordLayer.readState == old(recordLayer.readState) || fresh(recordLayer.readState))
        invariant Reading.NextRecord(recordLayer.c, old(CurrentReader()), old(recordLayer.input)) ==
                    if done then FetchedAs(r, CurrentReader(), recordLayer.input)
                    else Reading.NextRecord(recordLayer.c, CurrentReader(), recordLayer.input)
        invariant done && r.None? ==> recordLayer.input == []
        decreases !done, |recordLayer.input|
      {
        done, r := NextPass();
      }
    }
    /** _getMsg between handshakes: pass over tolerated change_cipher_spec records and empty application data. */
    method GetMsg() returns (r: Option<Result<Message>>)
      requires Valid() && Correct(recordLayer.c)
      modifies recordLayer`readState, recordLayer`input, recordLayer`earlyDataOk, recordLayer`earlyDataProcessed
      modifies recordLayer.readState, defragmenter
      ensures Valid() && (recordLayer.readState == old(recordLayer.readState) || fresh(recordLayer.readState))
      ensures Reading.GetMsg(recordLayer.c, old(CurrentReader()), old(recordLayer.input))
           == FetchedAs(r, CurrentReader(), recordLayer.input)
      ensures r.None? ==> recordLayer.input == []
    {
      hide Correct, Reading.NextRecord, Buffered, Fault, CcsFault, Proper;
      var again := true;
      r := None;
      while again
        invariant Valid() && (recordLayer.readState == old(recordLayer.readState) || fresh(recordLayer.readState))
        invariant Reading.GetMsg(recordLayer.c, old(CurrentReader()), old(recordLayer.input)) ==
                    if again then Reading.GetMsg(recordLayer.c, CurrentReader(), recordLayer.input)
                    else FetchedAs(r, CurrentReader(), recordLayer.input)
        invariant !again && r.None? ==> recordLayer.input == []
        decreases again, |recordLayer.input|, Buffered(CurrentReader().defrag, 0)
      {
        r := GetNextRecord();
        again := false;
        if r.Some? && r.value.Ok? {
          var m := r.value.value;
          LiveBuffers(CurrentReader());
          if middleboxCompat && m.ctype == CHANGE_CIPHER_SPEC {
            var fault := CcsFault(m.data);
            if fault.Some? { r := Some(Err(fault.value)); } else { again := true; }
          } else {
            var fault := Fault(m, defragmenter.Value());
            if fault.Some? { r := Some(Err(fault.value)); }
            else if m.ctype == APPLICATION_DATA && m.data == [] { again := true; }
          }
        }
      }
    }

    //
    // KeyUpdate
    //

    /** send_keyupdate_request: the message goes out under the old key, then the writing key moves on. */
    method SendKeyUpdateRequest(requested: bool) returns (r: Result<()>)
      requires Valid() && Correct(recordLayer.c)
      modifies recordLayer`output, recordLayer`writeState, recordLayer.writeState, this`clAppSecret, this`srAppSecret
      ensures Valid() && CurrentReader() == old(CurrentReader())
      ensures recordLayer.writeState == old(recordLayer.writeState) || fresh(recordLayer.writeState)
      ensures var d := SendEvent(recordLayer.c, suite, recordLayer.settings, old(WriterOf(Value())), Update(requested));
              r == d.res && WriterOf(Value()) == d.writer && recordLayer.output == old(recordLayer.output) + d.records
    {
      hide Correct, SendPieces, NextSecret, Proper;
      SendStaysKeyed(recordLayer.c, recordLayer.settings, recordLayer.writeState.Value(), Update(requested));
      var _ :- SendMsg(recordLayer, HANDSHAKE, Written(Update(requested)));
      clAppSecret, srAppSecret := recordLayer.CalcKeyUpdateReceiver(suite, clAppSecret, srAppSecret);
      return Ok(());
    }

    /** writeAsync on an open connection. */
    method Write(data: Bytes) returns (r: Result<()>)
      requires Valid() && Correct(recordLayer.c)
      modifies recordLayer`output, recordLayer.writeState
      ensures Valid() && CurrentReader() == old(CurrentReader())
      ensures var d := SendEvent(recordLayer.c, suite, recordLayer.settings, old(WriterOf(Value())), Data(data));
              r == d.res && WriterOf(Value()) == d.writer && recordLayer.output == old(recordLayer.output) + d.records
    {
      hide Correct, SendPieces, NextSecret, Proper;
      SendStaysKeyed(recordLayer.c, recordLayer.settings, recordLayer.writeState.Value(), Data(data));
      r := SendMsg(recordLayer, APPLICATION_DATA, data);
    }

    /** _handle_keyupdate_request: the reading key moves on, and a request is answered. */
    method HandleKeyUpdateRequest(requested: bool) returns (r: Result<()>)
      requires Valid() && Correct(recordLayer.c)
      modifies recordLayer`output, recordLayer`writeState, recordLayer.writeState, recordLayer`readState
      modifies this`clAppSecret, this`srAppSecret
      ensures Valid()
      ensures recordLayer.readState == old(recordLayer.readState) || fresh(recordLayer.readState)
      ensures recordLayer.writeState == old(recordLayer.writeState) || fresh(recordLayer.writeState)
      ensures CurrentReader() == Absorb(recordLayer.c, suite, old(CurrentReader()), Update(requested))
      ensures Answered(recordLayer.c, suite, old(Value()), old(recordLayer.output), Update(requested), ErrorOf(r), WriterOf(Value()), recordLayer.output)
    {
      hide Correct, SendEvent, NextSecret, Proper;
      clAppSecret, srAppSecret := recordLayer.CalcKeyUpdateSender(suite, clAppSecret, srAppSecret);
      if requested {
        r := SendKeyUpdateRequest(false);
      } else {
        r := Ok(());
      }
    }
    /** What readAsync does with each kind of message. */
    method HandleEvent(ev: Event) returns (r: Result<()>)
      requires Valid() && Correct(recordLayer.c)
      modifies recordLayer`output, recordLayer`writeState, recordLayer.writeState, recordLayer`readState
      modifies this
      ensures Valid()
      ensures recordLayer.readState == old(recordLayer.readState) || fresh(recordLayer.readState)
      ensures recordLayer.writeState == old(recordLayer.writeState) || fresh(recordLayer.writeState)
      ensures CurrentReader() == Absorb(recordLayer.c, suite, old(CurrentReader()), ev)
      ensures Answered(recordLayer.c, suite, old(Value()), old(recordLayer.output), ev, ErrorOf(r), WriterOf(Value()), recordLayer.output)
      ensures readBuffer == old(readBuffer) + if ev.Data? then ev.bytes else []
      ensures tickets == old(tickets) + if ev.Ticket? then [ev.bytes] else []
    {
      hide Correct, SendEvent, Proper, NextSecret, TrafficState;
      r := Ok(());
      match ev {
        case Data(bytes) => readBuffer := readBuffer + bytes;
        case Ticket(bytes) => tickets := tickets + [bytes];
        case Update(requested) => r := HandleKeyUpdateRequest(requested);
      }
    }

    /** The next message, parsed. */
    method GetEvent() returns (r: Option<Result<Event>>)
      requires Valid() && Correct(recordLayer.c)
      modifies recordLayer`readState, recordLayer`input, recordLayer`earlyDataOk, recordLayer`earlyDataProcessed
      modifies recordLayer.readState, defragmenter
      ensures Valid() && (recordLayer.readState == old(recordLayer.readState) || fresh(recordLayer.readState))
      ensures ReadEvent(recordLayer.c, suite, old(CurrentReader()), old(recordLayer.input)) ==
                match r
                case None => Waiting(CurrentReader())
                case Some(Err(e)) => Stopped(e, CurrentReader())
                case Some(Ok(ev)) => Heard(ev, Absorb(recordLayer.c, suite, CurrentReader(), ev), recordLayer.input)
      ensures r.None? ==> recordLayer.input == []
    {
      hide Correct, Reading.GetMsg, Interpret, Proper, Absorb;
      var m := GetMsg();
      if m.None? { return None; }
      if m.value.Err? { return Some(Err(m.value.error)); }
      r := Some(Interpret(m.value.value));
    }

    /** One turn of the loop of readAsync. */
    method ReadTurn() returns (r: Option<Result<Event>>)
      requires Valid() && Correct(recordLayer.c)
      modifies recordLayer`output, recordLayer`writeState, recordLayer.writeState, this, defragmenter
      modifies recordLayer`readState, recordLayer`input, recordLayer`earlyDataOk, recordLayer`earlyDataProcessed
      modifies recordLayer.readState
      ensures Valid()
      ensures recordLayer.readState == old(recordLayer.readState) || fresh(recordLayer.readState)
      ensures recordLayer.writeState == old(recordLayer.writeState) || fresh(recordLayer.writeState)
      ensures readBuffer == old(readBuffer) + DataRead(r) && tickets == old(tickets) + TicketsRead(r)
      ensures TurnSpec(recordLayer.c, suite, old(Value()), old(recordLayer.input), old(recordLayer.output),
                       r, Value(), recordLayer.input, recordLayer.output)
    {
      hide Correct, ReadEvent, SendEvent, Proper, Absorb, Answered, Keyed;
      r := GetEvent();
      if r.Some? && r.value.Ok? {
        var ev := r.value.value;
        AnsweredFrom(recordLayer.c, suite, old(Value()), Value(), old(recordLayer.output), ev);
        var handled := HandleEvent(ev);
        RepliesOnly(recordLayer.c, suite, old(Value()), old(recordLayer.output), ev, ErrorOf(handled), WriterOf(Value()), recordLayer.output);
        if handled.Err? { r := Some(Err(handled.error)); }
      }
    }
  }

  function DataRead(r: Option<Result<Event>>): Bytes {
    if r.Some? && r.value.Ok? && r.value.value.Data? then r.value.value.bytes else []
  }

  function TicketsRead(r: Option<Result<Event>>): seq<Bytes> {
    if r.Some? && r.value.Ok? && r.value.value.Ticket? then [r.value.value.bytes] else []
  }

  /** Reading half and writing half do not see each other. */
  lemma AnsweredFrom(c: Crypto, suite: Suite, e: Endpoint, e': Endpoint, output: seq<Record>, ev: Event)
    requires Correct(c) && Keyed(e.write) && Keyed(e'.write) && e.settings.recordSize >= 1
    requires e'.settings == e.settings && WriterOf(e') == WriterOf(e)
    ensures forall error, w, output' ::
              Answered(c, suite, e', output, ev, error, w, output') <==> Answered(c, suite, e, output, ev, error, w, output')
  {
    hide Correct, SendEvent;
  }

  lemma RepliesOnly(c: Crypto, suite: Suite, e: Endpoint, output: seq<Record>, ev: Event, error: Option<Error>, w: Writer,
                    output': seq<Record>)
    requires Correct(c) && Keyed(e.write) && e.settings.recordSize >= 1
    requires Answered(c, suite, e, output, ev, error, w, output')
    ensures error.Some? ==> ev.Update?
  {
    hide Correct, SendEvent;
  }

  /** What a turn does, in terms of the values of the endpoint and the queues before and after. */
  ghost predicate TurnSpec(c: Crypto, suite: Suite, e: Endpoint, input: seq<Record>, output: seq<Record>,
                           r: Option<Result<Event>>, e': Endpoint, input': seq<Record>, output': seq<Record>)
    requires Correct(c) && Working(e)
  {
    && e'.client == e.client && e'.settings == e.settings
    && match ReadEvent(c, suite, ReaderOf(e), input)
       case Waiting(rd) =>
         r == None && input' == [] && ReaderOf(e') == rd && WriterOf(e') == WriterOf(e) && output' == output
       case Stopped(error, rd) =>
         r == Some(Err(error)) && ReaderOf(e') == rd && WriterOf(e') == WriterOf(e) && output' == output
       case Heard(ev, rd, rest) =>
         && r.Some? && (r.value.Ok? ==> r.value.value == ev) && input' == rest && ReaderOf(e') == rd
         && Answered(c, suite, e, output, ev, ErrorOf(r.value), WriterOf(e'), output')
  }

  /** The turn of the class is the reading move of the channel, from which its properties follow. */
  lemma TurnIsMove(c: Crypto, suite: Suite, s: System, r: Option<Result<Event>>, e': Endpoint, input': seq<Record>,
                   output': seq<Record>)
    requires Correct(c) && Working(s.a)
    requires TurnSpec(c, suite, s.a, s.ba, s.ab, r, e', input', output')
    ensures var t := Act(c, suite, s, Read(|s.ba|));
            && (t.Err? <==> r.Some? && r.value.Err?)
            && (t.Ok? ==> t.value.a == e' && t.value.ba == input' && t.value.ab == output')
            && (t.Ok? ==> t.value.heardA == s.heardA + if r.Some? then [r.value.value] else [])
  {
    hide Correct, ReadEvent, SendEvent, Keyed, Proper, Take;
    assert s.ba[..|s.ba|] == s.ba && s.ba[|s.ba|..] == [];
  }

  function ErrorOf<T>(r: Result<T>): Option<Error> {
    if r.Ok? then None else Some(r.error)
  }

  /** The writing half after an event has been heard: only a KeyUpdate request makes it do anything. */
  ghost predicate Answered(c: Crypto, suite: Suite, e: Endpoint, output: seq<Record>, ev: Event, error: Option<Error>, w: Writer,
                           output': seq<Record>)
    requires Correct(c) && Keyed(e.write) && e.settings.recordSize >= 1
  {
    if ev == Update(true) then
      var d := SendEvent(c, suite, e.settings, WriterOf(e), Update(false));
      error == ErrorOf(d.res) && w == d.writer && output' == output + d.records
    else error == None && w == WriterOf(e) && output' == output
  }

  /** What a fetching method has done, as the specification says it. */
  function FetchedAs(r: Option<Result<Message>>, reader: Reader, rest: seq<Record>): Fetched {
    match r
    case None => Starved(reader)
    case Some(Err(e)) => Refused(e, reader, rest)
    case Some(Ok(m)) => Fetched(m, reader, rest)
  }

  /** Of the old reading half, placing a record looks at the early data flag alone. */
  lemma PlaceSees(r: Reader, r': Reader, side: ReadSide, t: Byte, data: Bytes, rest: seq<Record>)
    requires Live(r) && Live(r') && r' == r.(side := r'.side) && r'.side.earlyOk == r.side.earlyOk
    ensures Place(r, side, t, data, rest) == Place(r', side, t, data, rest)
  {
    hide Append, Proper;
  }

  lemma SendStaysKeyed(c: Crypto, settings: Settings, st: CState, ev: Event)
    requires Correct(c) && Keyed(st) && settings.recordSize >= 1
    ensures Keyed(Sending.SendMsg(c, TLS13_CONFIG, settings, st, TypeOf(ev), Written(ev)).st)
  {
    hide Correct, SendPieces;
    PiecesStayKeyed(c, settings, st, TypeOf(ev), Pieces(TLS13_CONFIG, settings.recordSize, st, TypeOf(ev), Written(ev)));
  }

  lemma {:induction false} PiecesStayKeyed(c: Crypto, settings: Settings, st: CState, ctype: Byte, pieces: seq<Bytes>)
    requires Correct(c) && Keyed(st) && ctype != CHANGE_CIPHER_SPEC
    ensures Keyed(SendPieces(c, TLS13_CONFIG, settings, st, ctype, pieces).st)
    decreases |pieces|
  {
    if pieces != [] {
      SealStaysKeyed(c, settings, st, ctype, pieces[0]);
      hide Correct, SendPadded;
      if SendPadded(c, TLS13_CONFIG, settings, st, ctype, pieces[0]).res.Ok? {
        PiecesStayKeyed(c, settings, SendPadded(c, TLS13_CONFIG, settings, st, ctype, pieces[0]).st, ctype, pieces[1..]);
      }
    }
  }

  lemma SealStaysKeyed(c: Crypto, settings: Settings, st: CState, ctype: Byte, data: Bytes)
    requires Correct(c) && Keyed(st) && ctype != CHANGE_CIPHER_SPEC
    ensures Keyed(SendPadded(c, TLS13_CONFIG, settings, st, ctype, data).st)
  {
    hide Correct, Pow256, ToBE, InnerPlaintext, SealAuthData, GetNonce;
  }

  lemma NothingLeft(c: Crypto, cfg: Config, settings: Settings, st: CState, ctype: Byte)
    requires Correct(c) && ValidBlockSize(st)
    ensures SendPieces(c, cfg, settings, st, ctype, []) == Sent(Ok(()), st, [])
  {
  }

  lemma PiecesUnfold(c: Crypto, cfg: Config, settings: Settings, st: CState, ctype: Byte, piece: Bytes, later: seq<Bytes>,
                     output: seq<Record>)
    requires Correct(c) && ValidBlockSize(st)
    ensures var s := SendPadded(c, cfg, settings, st, ctype, piece);
            var all := SendPieces(c, cfg, settings, st, ctype, [piece] + later);
            if s.res.Err? then all == Sent(Err(s.res.error), s.st, [])
            else
              var rest := SendPieces(c, cfg, settings, s.st, ctype, later);
              && all.res == rest.res && all.st == rest.st
              && output + all.records == (output + [s.res.value]) + rest.records
  {
    hide Correct, SendPadded, ValidBlockSize;
    assert ([piece] + later)[1..] == later;
  }
}
