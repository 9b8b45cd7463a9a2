/** The reading half of an established TLS 1.3 connection: records, messages, KeyUpdate. */
module Reading {
  import opened Results
  import opened ByteStrings
  import opened Primitives
  import opened RecordProtection
  import opened RecordReception
  import opened Defragmentation
  import opened Messaging
  import opened KeySchedule

  const NEW_SESSION_TICKET: Byte := 4
  const KEY_UPDATE: Byte := 24

  /** The reading secret and state, the partial messages, and whether change_cipher_spec is put up with. */
  datatype Reader = Reader(secret: Bytes, side: ReadSide, defrag: Defrag, compat: bool)

  ghost predicate Live(r: Reader) {
    Keyed(r.side.st) && Proper(r.defrag) && HANDSHAKE in r.defrag.priorities
  }

  /** Nothing of a reader changes but its secret, state, counters and buffers. */
  ghost predicate SameSettings(r: Reader, r': Reader) {
    && r'.side.maxEarly == r.side.maxEarly && r'.side.recvLimit == r.side.recvLimit && r'.compat == r.compat
    && r'.defrag.priorities == r.defrag.priorities && r'.defrag.decoders == r.defrag.decoders
    && (!r.side.earlyOk && r.side.earlyDone == 0 ==> !r'.side.earlyOk && r'.side.earlyDone == 0)
  }

  lemma ReceiveKeeps(c: Crypto, side: ReadSide, input: seq<Record>)
    requires Keyed(side.st)
    ensures var r := ReceiveRecord(c, TLS13_CONFIG, side, input);
            && r.side == side.(st := side.st.(seqnum := r.side.st.seqnum), earlyOk := r.side.earlyOk, earlyDone := r.side.earlyDone)
            && (!side.earlyOk ==> !r.side.earlyOk)
            && (!side.earlyOk && side.earlyDone == 0 ==> r.side.earlyDone == 0)
            && (r.Blocked? ==> r.side == side.(earlyDone := r.side.earlyDone))
            && (!r.Blocked? ==> |r.rest| < |input|)
    decreases |input|
  {
    hide TooLong, Pow256, ToBE, DePad, Accept;
    if input != [] {
      var rec := input[0];
      OpenKeeps(c, side, rec);
      if Skippable(c, TLS13_CONFIG, side, rec) {
        ReceiveKeeps(c, side.(earlyDone := side.earlyDone + |rec.payload|), input[1..]);
      } else {
        var s := Open(c, TLS13_CONFIG, side, rec);
        if s.res.Ok? {
          AcceptKeeps(TLS13_CONFIG, side.(st := s.st, earlyOk := false, earlyDone := 0), rec.ctype, s.res.value, input[1..]);
        }
      }
    }
  }

  lemma OpenKeeps(c: Crypto, side: ReadSide, rec: Record)
    requires Keyed(side.st)
    ensures var s := Open(c, TLS13_CONFIG, side, rec); s.st == side.st.(seqnum := s.st.seqnum)
  {
    hide Pow256, ToBE;
  }

  lemma AcceptKeeps(cfg: Config, side: ReadSide, ctype: Byte, data: Bytes, rest: seq<Record>)
    ensures var r := Accept(cfg, side, ctype, data, rest); r.side == side && !r.Blocked? && r.rest == rest
  {
  }

  datatype Fetched =
    | Fetched(m: Message, reader: Reader, rest: seq<Record>)
    | Starved(reader: Reader)
    | Refused(error: Error, reader: Reader, rest: seq<Record>)

  /** Records of these types are not made of messages that could be cut. */
  predicate PassedOn(ctype: nat) {
    ctype == APPLICATION_DATA || ctype == CHANGE_CIPHER_SPEC || ctype == HEARTBEAT
  }

  /** What has been got before anything is left of the input: fewer records, or as many and fewer buffered bytes. */
  ghost predicate Shorter(d: Defrag, input: seq<Record>, d': Defrag, rest: seq<Record>) 
    requires Proper(d) && Proper(d')
  {
    |rest| < |input| || (|rest| == |input| && Buffered(d', 0) < Buffered(d, 0))
  }

  /** One pass of a reading loop: done, or round again with what is left. */
  datatype Pass = Done(f: Fetched) | Again(reader: Reader, rest: seq<Record>)

  /** Where a received record goes: to the caller, to the buffers, or nowhere. */
  function Place(r: Reader, side: ReadSide, t: Byte, data: Bytes, rest: seq<Record>): Pass
    requires Live(r)
  {
    var r' := r.(side := side);
    if (t != APPLICATION_DATA && data == []) || !(CHANGE_CIPHER_SPEC <= t <= HEARTBEAT) then
      Done(Refused(UnexpectedMessage, r', rest))
    else if t == CHANGE_CIPHER_SPEC then
      Done(Fetched(Message(t, data), r.(side := side.(earlyOk := r.side.earlyOk, earlyDone := 0)), rest))
    else if PassedOn(t) then Done(Fetched(Message(t, data), r', rest))
    else
      match Append(r.defrag, t, data)
      case Err(e) => Done(Refused(e, r', rest))
      case Ok(d) => Again(r'.(defrag := d), rest)
  }

  /** Nothing of the reader changes but its reading state and its buffers, and going round again uses up input. */
  ghost predicate PassKeeps(r: Reader, input: seq<Record>, p: Pass) {
    var r' := if p.Again? then p.reader else p.f.reader;
    Live(r') && SameSettings(r, r') && r'.secret == r.secret && (p.Again? ==> |p.rest| < |input|)
  }

  lemma PlaceKeeps(r: Reader, side: ReadSide, t: Byte, data: Bytes, rest: seq<Record>, input: seq<Record>)
    requires Live(r) && Live(r.(side := side)) && SameSettings(r, r.(side := side)) && |rest| < |input|
    ensures var p := Place(r, side, t, data, rest);
            PassKeeps(r, input, p) && (p.Done? ==> !p.f.Starved? && (p.f.Fetched? ==> |p.f.rest| < |input|))
  {
    hide Proper;
  }

  /** The next record, placed. */
  function SocketPass(c: Crypto, r: Reader, input: seq<Record>): (p: Pass)
    requires Live(r) && Take(r.defrag).0.None?
    ensures PassKeeps(r, input, p)
    ensures p.Done? && p.f.Fetched? ==> |p.f.rest| < |input|
    ensures p.Done? && p.f.Starved? ==> p.f.reader.defrag == r.defrag
  {
    hide ReceiveRecord, Take, Proper, Append, Place;
    ReceiveKeeps(c, r.side, input);
    match ReceiveRecord(c, TLS13_CONFIG, r.side, input)
    case Blocked(side) => Done(Starved(r.(side := side)))
    case Raised(e, side, rest) => Done(Refused(e, r.(side := side), rest))
    case Received(t, data, side, rest) =>
      PlaceKeeps(r, side, t, data, rest, input);
      Place(r, side, t, data, rest)
  }

  /** A buffered message, or the next record. */
  function NextPass(c: Crypto, r: Reader, input: seq<Record>): (p: Pass)
    requires Live(r)
    ensures PassKeeps(r, input, p)
    ensures p.Done? && p.f.Fetched? ==> Shorter(r.defrag, input, p.f.reader.defrag, p.f.rest)
    ensures p.Done? && p.f.Starved? ==> Take(p.f.reader.defrag) == (None, p.f.reader.defrag)
  {
    hide SocketPass, Take, Buffered, Proper;
    TakeDecreases(r.defrag);
    var (m, d) := Take(r.defrag);
    if m.Some? then Done(Fetched(m.value, r.(defrag := d), input))
    else
      NothingTaken(r.defrag);
      SocketPass(c, r, input)
  }

  /** _getNextRecord: go on until there is a message to hand over. */
  function NextRecord(c: Crypto, r: Reader, input: seq<Record>): (f: Fetched)
    requires Live(r)
    ensures Live(f.reader) && SameSettings(r, f.reader) && f.reader.secret == r.secret
    ensures f.Fetched? ==> Shorter(r.defrag, input, f.reader.defrag, f.rest)
    ensures f.Starved? ==> Take(f.reader.defrag) == (None, f.reader.defrag)
    decreases |input|
  {
    hide NextPass, Take, Buffered, Proper;
    match NextPass(c, r, input)
    case Done(f) => f
    case Again(r', rest) => NextRecord(c, r', rest)
  }

  lemma NothingTaken(d: Defrag)
    requires Proper(d) && Take(d).0.None?
    ensures Take(d) == (None, d)
  {
  }

  predicate IsEmpty(d: Defrag) {
    forall t :: t in d.buffers ==> d.buffers[t] == []
  }

  /** What parsing a change_cipher_spec record, type byte and all, finds wrong with it. */
  function CcsFault(data: Bytes): Option<Error> {
    if |data| != 1 then Some(DecodeError) else if data[0] != 1 then Some(UnexpectedMessage) else None
  }

  /** What is wrong with a message between the handshakes, given what the buffers hold besides it. */
  function Fault(m: Message, d: Defrag): Option<Error>
    requires HANDSHAKE in d.buffers
  {
    if m.ctype != HANDSHAKE && d.buffers[HANDSHAKE] != [] then Some(UnexpectedMessage)
    else if m.ctype == ALERT then Some(RemoteAlert)
    else if m.ctype != APPLICATION_DATA && m.ctype != HANDSHAKE then Some(UnexpectedMessage)
    else if m.ctype == APPLICATION_DATA then None
    else if m.data == [] then Some(DecodeError)
    else if m.data[0] != NEW_SESSION_TICKET && m.data[0] != KEY_UPDATE then Some(UnexpectedMessage)
    else if m.data[0] == KEY_UPDATE && !IsEmpty(d) then Some(UnexpectedMessage)
    else None
  }

  /** What becomes of a fetched message: tolerated change_cipher_spec records and empty application data are
      passed over. */
  function Sift(f: Fetched): (p: Pass)
    requires Live(f.reader) && f.Fetched?
    ensures p == (if p.Again? then Again(f.reader, f.rest) else if p.f.Refused? then Done(Refused(p.f.error, f.reader, f.rest)) else Done(f))
  {
    LiveBuffers(f.reader);
    if f.reader.compat && f.m.ctype == CHANGE_CIPHER_SPEC then
      match CcsFault(f.m.data)
      case Some(e) => Done(Refused(e, f.reader, f.rest))
      case None => Again(f.reader, f.rest)
    else
      match Fault(f.m, f.reader.defrag)
      case Some(e) => Done(Refused(e, f.reader, f.rest))
      case None =>
        if f.m.ctype == APPLICATION_DATA && f.m.data == [] then Again(f.reader, f.rest) else Done(f)
  }

  /** _getMsg between handshakes. */
  function GetMsg(c: Crypto, r: Reader, input: seq<Record>): (f: Fetched)
    requires Live(r)
    ensures Live(f.reader) && SameSettings(r, f.reader) && f.reader.secret == r.secret
    ensures f.Fetched? ==> Shorter(r.defrag, input, f.reader.defrag, f.rest)
    ensures f.Starved? ==> Take(f.reader.defrag) == (None, f.reader.defrag)
    decreases |input|, Buffered(r.defrag, 0)
  {
    hide NextRecord, Take, Buffered, Proper, Sift;
    var f := NextRecord(c, r, input);
    if !f.Fetched? then f
    else
      match Sift(f)
      case Done(f') => f'
      case Again(r', rest) => GetMsg(c, r', rest)
  }

  lemma LiveBuffers(r: Reader)
    requires Live(r)
    ensures HANDSHAKE in r.defrag.buffers
  {
  }

  /** What the user of a connection sees of a message. */
  datatype Event = Data(bytes: Bytes) | Ticket(bytes: Bytes) | Update(requested: bool)

  /** The event that a message stands for; a KeyUpdate has a body of one byte, 0 or 1. */
  function Interpret(m: Message): Result<Event> {
    if m.ctype == APPLICATION_DATA then Ok(Data(m.data))
    else if m.data != [] && m.data[0] == NEW_SESSION_TICKET then Ok(Ticket(m.data))
    else if |m.data| != 5 || m.data[1..4] != [0, 0, 1] then Err(DecodeError)
    else if m.data[4] > 1 then Err(IllegalParameter)
    else Ok(Update(m.data[4] == 1))
  }

  /** A KeyUpdate that is heard has the five bytes of section 4.6.3 of RFC 8446 and no others. */
  lemma UpdateImage(m: Message, requested: bool)
    requires m.ctype == HANDSHAKE && m.data != [] && m.data[0] == 24
    ensures Interpret(m) == Ok(Update(requested)) <==> m.data == [24, 0, 0, 1, if requested then 1 else 0]
  {
    var d := m.data;
    if |d| == 5 {
      assert d[1..4] == [d[1], d[2], d[3]] && d == [d[0], d[1], d[2], d[3], d[4]];
    }
  }

  /** A ticket is any handshake message of its type, and application data is what it is. */
  lemma OthersImage(m: Message, bytes: Bytes)
    requires m.data != []
    ensures m.ctype == 22 && m.data[0] == 4 ==> Interpret(m) == Ok(Ticket(m.data))
    ensures m.ctype == 23 ==> Interpret(m) == Ok(Data(m.data))
    ensures Interpret(m) == Ok(Ticket(bytes)) || Interpret(m) == Ok(Data(bytes)) ==> bytes == m.data && (m.ctype == 23 || m.data[0] == 4)
  {
  }

  datatype Outcome =
    | Heard(event: Event, reader: Reader, rest: seq<Record>)
    | Waiting(reader: Reader)
    | Stopped(error: Error, reader: Reader)

  /** A KeyUpdate takes the reader to its next secret and a fresh state under it. */
  function Absorb(c: Crypto, suite: Suite, r: Reader, ev: Event): (r': Reader)
    requires Live(r)
    ensures Live(r') && SameSettings(r, r') && r'.defrag == r.defrag
  {
    if ev.Update? then
      var next := NextSecret(c, suite, r.secret);
      r.(secret := next, side := r.side.(st := TrafficState(c, suite, next)))
    else r
  }

  /** One turn of the reading loop, as far as it concerns the reading half. */
  function ReadEvent(c: Crypto, suite: Suite, r: Reader, input: seq<Record>): (o: Outcome)
    requires Live(r)
    ensures Live(o.reader) && SameSettings(r, o.reader)
    ensures o.Heard? ==> Shorter(r.defrag, input, o.reader.defrag, o.rest)
    ensures o.Waiting? ==> o.reader.secret == r.secret && Take(o.reader.defrag) == (None, o.reader.defrag)
  {
    hide GetMsg, Take, Buffered, Proper, Interpret, Keyed;
    match GetMsg(c, r, input)
    case Starved(r') => Waiting(r')
    case Refused(e, r', _) => Stopped(e, r')
    case Fetched(m, r', rest) =>
      match Interpret(m)
      case Err(e) => Stopped(e, r')
      case Ok(ev) => Heard(ev, Absorb(c, suite, r', ev), rest)
  }

  /** All that a reader gets from its input, and how it ends. */
  datatype Trace = Trace(events: seq<Event>, end: Outcome)

  function ReadThrough(c: Crypto, suite: Suite, r: Reader, input: seq<Record>): (t: Trace)
    requires Live(r)
    ensures Live(t.end.reader) && SameSettings(r, t.end.reader) && !t.end.Heard?
    ensures t.end.Waiting? ==> Take(t.end.reader.defrag) == (None, t.end.reader.defrag)
    decreases |input|, Buffered(r.defrag, 0)
  {
    hide ReadEvent, Take, Buffered, Proper, Keyed;
    var o := ReadEvent(c, suite, r, input);
    if o.Heard? then
      var later := ReadThrough(c, suite, o.reader, o.rest);
      Trace([o.event] + later.events, later.end)
    else Trace([], o)
  }

  //
  // Reading may pause anywhere between records
  //

  lemma {:induction false} ReceiveAppend(c: Crypto, side: ReadSide, first: seq<Record>, second: seq<Record>)
    requires Keyed(side.st)
    ensures Keyed(ReceiveRecord(c, TLS13_CONFIG, side, first).side.st)
    ensures ReceiveRecord(c, TLS13_CONFIG, side, first + second) ==
              match ReceiveRecord(c, TLS13_CONFIG, side, first)
              case Received(t, data, side', rest) => Received(t, data, side', rest + second)
              case Raised(e, side', rest) => Raised(e, side', rest + second)
              case Blocked(side') => ReceiveRecord(c, TLS13_CONFIG, side', second)
    decreases |first|
  {
    ReceiveKeeps(c, side, first);
    hide ReceiveRecord, Open, TooLong, Accept;
    if first == [] {
      assert first + second == second;
      ReceiveNothing(c, TLS13_CONFIG, side);
    } else {
      var rec := first[0];
      assert (first + second)[0] == rec && (first + second)[1..] == first[1..] + second;
      ReceiveStep(c, TLS13_CONFIG, side, first);
      ReceiveStep(c, TLS13_CONFIG, side, first + second);
      if Skippable(c, TLS13_CONFIG, side, rec) {
        ReceiveAppend(c, side.(earlyDone := side.earlyDone + |rec.payload|), first[1..], second);
      } else if !TooLong(TLS13_CONFIG, side.recvLimit, rec) {
        var s := Open(c, TLS13_CONFIG, side, rec);
        if s.res.Ok? {
          AcceptAppend(TLS13_CONFIG, side.(st := s.st, earlyOk := false, earlyDone := 0), rec.ctype, s.res.value, first[1..], second);
        }
      }
    }
  }

  lemma AcceptAppend(cfg: Config, side: ReadSide, ctype: Byte, data: Bytes, rest: seq<Record>, second: seq<Record>)
    ensures Accept(cfg, side, ctype, data, rest + second) ==
              match Accept(cfg, side, ctype, data, rest)
              case Received(t, d, s, _) => Received(t, d, s, rest + second)
              case Raised(e, s, _) => Raised(e, s, rest + second)
              case Blocked(s) => Blocked(s)
    ensures !Accept(cfg, side, ctype, data, rest).Blocked? && Accept(cfg, side, ctype, data, rest).rest == rest
  {
    hide DePad;
  }

  /** What was got from the start of an input, seen in the whole of it. */
  function Over(f: Fetched, second: seq<Record>): Fetched {
    match f
    case Fetched(m, r, rest) => Fetched(m, r, rest + second)
    case Refused(e, r, rest) => Refused(e, r, rest + second)
    case Starved(r) => f
  }

  function PassOver(p: Pass, second: seq<Record>): Pass {
    match p
    case Done(f) => Done(Over(f, second))
    case Again(r, rest) => Again(r, rest + second)
  }

  lemma PassAppend(c: Crypto, r: Reader, first: seq<Record>, second: seq<Record>)
    requires Live(r)
    ensures var p := NextPass(c, r, first);
            NextPass(c, r, first + second)
            == if p.Done? && p.f.Starved? then NextPass(c, p.f.reader, second) else PassOver(p, second)
  {
    hide ReceiveRecord, Take, Buffered, Proper, Append;
    if Take(r.defrag).0.None? {
      NothingTaken(r.defrag);
      ReceiveKeeps(c, r.side, first);
      ReceiveAppend(c, r.side, first, second);
    }
  }

  lemma {:induction false} NextAppend(c: Crypto, r: Reader, first: seq<Record>, second: seq<Record>)
    requires Live(r)
    ensures var f := NextRecord(c, r, first);
            NextRecord(c, r, first + second) == if f.Starved? then NextRecord(c, f.reader, second) else Over(f, second)
    decreases |first|
  {
    hide NextPass, Take, Buffered, Proper;
    PassAppend(c, r, first, second);
    var p := NextPass(c, r, first);
    if p.Again? {
      NextAppend(c, p.reader, p.rest, second);
    } else if p.f.Starved? {
      NextIsSame(c, r, first + second, p.f.reader, second);
    }
  }

  lemma NextIsSame(c: Crypto, r: Reader, input: seq<Record>, r': Reader, input': seq<Record>)
    requires Live(r) && Live(r') && NextPass(c, r, input) == NextPass(c, r', input')
    ensures NextRecord(c, r, input) == NextRecord(c, r', input')
  {
    hide NextPass, Take, Buffered, Proper;
  }

  lemma {:induction false} GetAppend(c: Crypto, r: Reader, first: seq<Record>, second: seq<Record>)
    requires Live(r)
    ensures var f := GetMsg(c, r, first);
            GetMsg(c, r, first + second) == if f.Starved? then GetMsg(c, f.reader, second) else Over(f, second)
    decreases |first|, Buffered(r.defrag, 0)
  {
    hide NextRecord, Take, Buffered, Proper, Sift;
    NextAppend(c, r, first, second);
    var f := NextRecord(c, r, first);
    if f.Starved? {
      GetIsSame(c, r, first + second, f.reader, second);
    } else if f.Fetched? {
      SiftOver(f, second);
      if Sift(f).Again? {
        GetAppend(c, f.reader, f.rest, second);
      }
    }
  }

  lemma SiftOver(f: Fetched, second: seq<Record>)
    requires Live(f.reader) && f.Fetched?
    ensures Sift(Over(f, second)) == PassOver(Sift(f), second)
  {
    hide Fault, CcsFault, Proper;
    LiveBuffers(f.reader);
  }

  lemma GetIsSame(c: Crypto, r: Reader, input: seq<Record>, r': Reader, input': seq<Record>)
    requires Live(r) && Live(r') && NextRecord(c, r, input) == NextRecord(c, r', input')
    ensures GetMsg(c, r, input) == GetMsg(c, r', input')
  {
    hide NextRecord, Take, Buffered, Proper, Sift;
  }

  /** The outcome of reading the start of an input, seen in the whole of it. */
  function OutcomeOver(o: Outcome, second: seq<Record>): Outcome {
    if o.Heard? then o.(rest := o.rest + second) else o
  }

  lemma EventAppend(c: Crypto, suite: Suite, r: Reader, first: seq<Record>, second: seq<Record>)
    requires Live(r)
    ensures var o := ReadEvent(c, suite, r, first);
            ReadEvent(c, suite, r, first + second)
            == if o.Waiting? then ReadEvent(c, suite, o.reader, second) else OutcomeOver(o, second)
  {
    hide GetMsg, Interpret, Absorb, Live, SameSettings, Take;
    GetAppend(c, r, first, second);
  }

  /** Reading an input whole is reading its start, then its end from where that left off. */
  lemma {:induction false} ReadAppend(c: Crypto, suite: Suite, r: Reader, first: seq<Record>, second: seq<Record>)
    requires Live(r)
    ensures var t := ReadThrough(c, suite, r, first);
            ReadThrough(c, suite, r, first + second) ==
              if t.end.Waiting? then
                var u := ReadThrough(c, suite, t.end.reader, second);
                Trace(t.events + u.events, u.end)
              else t
    decreases |first|, Buffered(r.defrag, 0)
  {
    hide ReadEvent, Take, Buffered, Proper, Keyed, SameSettings;
    EventAppend(c, suite, r, first, second);
    var o := ReadEvent(c, suite, r, first);
    if o.Heard? {
      ReadAppend(c, suite, o.reader, o.rest, second);
      var t := ReadThrough(c, suite, o.reader, o.rest);
      if t.end.Waiting? {
        var u := ReadThrough(c, suite, t.end.reader, second);
        assert [o.event] + (t.events + u.events) == ([o.event] + t.events) + u.events;
      }
    } else if o.Waiting? {
      ReadIsSame(c, suite, r, first + second, o.reader, second);
      var u := ReadThrough(c, suite, o.reader, second);
      assert [] + u.events == u.events;
    }
  }

  lemma ReadUnfolds(c: Crypto, suite: Suite, r: Reader, input: seq<Record>)
    requires Live(r)
    ensures var o := ReadEvent(c, suite, r, input);
            ReadThrough(c, suite, r, input) ==
              if o.Heard? then
                var later := ReadThrough(c, suite, o.reader, o.rest);
                Trace([o.event] + later.events, later.end)
              else Trace([], o)
  {
    hide ReadEvent, Take, Buffered, Proper, Keyed, SameSettings;
  }

  lemma ReadIsSame(c: Crypto, suite: Suite, r: Reader, input: seq<Record>, r': Reader, input': seq<Record>)
    requires Live(r) && Live(r') && ReadEvent(c, suite, r, input) == ReadEvent(c, suite, r', input')
    ensures ReadThrough(c, suite, r, input) == ReadThrough(c, suite, r', input')
  {
    hide ReadEvent, Take, Buffered, Proper, Keyed, SameSettings;
  }

  //
  // change_cipher_spec in the clear
  //

  /** A reader that no longer skips early data, with no message to take. */
  ghost predicate Quiet(r: Reader) {
    Live(r) && !r.side.earlyOk && r.side.earlyDone == 0 && r.side.recvLimit >= 1 && Take(r.defrag).0.None?
  }

  function Ccs(version: nat, payload: Bytes): Record {
    Record(CHANGE_CIPHER_SPEC, version, payload)
  }

  lemma CcsReceived(c: Crypto, side: ReadSide, version: nat, payload: Bytes, rest: seq<Record>)
    requires Keyed(side.st) && |payload| <= side.recvLimit
    ensures ReceiveRecord(c, TLS13_CONFIG, side, [Ccs(version, payload)] + rest)
         == Received(CHANGE_CIPHER_SPEC, payload, side.(earlyOk := false, earlyDone := 0), rest)
  {
    hide DePad;
    var input := [Ccs(version, payload)] + rest;
    assert input[0] == Ccs(version, payload) && input[1..] == rest;
  }

  /** A change_cipher_spec record leaves early data as acceptable as it was, but it restarts the count of what
      has been skipped: the limit holds from one such record to the next, not over the whole connection. */
  lemma CcsFetched(c: Crypto, r: Reader, version: nat, payload: Bytes, rest: seq<Record>)
    requires Live(r) && Take(r.defrag).0.None? && 1 <= |payload| <= r.side.recvLimit
    ensures NextRecord(c, r, [Ccs(version, payload)] + rest)
         == Fetched(Message(CHANGE_CIPHER_SPEC, payload), r.(side := r.side.(earlyDone := 0)), rest)
  {
    hide ReceiveRecord, Take, Buffered, Proper, Append;
    CcsReceived(c, r.side, version, payload, rest);
    NothingTaken(r.defrag);
  }

  /** Between the messages, a change_cipher_spec record is put up with exactly when the connection is in
      compatibility mode and the record holds the one byte 1; else it ends the connection. */
  lemma CcsToleratedIff(c: Crypto, suite: Suite, r: Reader, version: nat, payload: Bytes, rest: seq<Record>)
    requires Quiet(r) && 1 <= |payload| <= r.side.recvLimit
    ensures var o := ReadEvent(c, suite, r, [Ccs(version, payload)] + rest);
            if r.compat && payload == [1] then o == ReadEvent(c, suite, r, rest)
            else o.Stopped? && o.error in {UnexpectedMessage, DecodeError} && o.reader == r
  {
    hide NextRecord, Take, Buffered, Proper, Interpret, Absorb, Keyed;
    CcsFetched(c, r, version, payload, rest);
    LiveBuffers(r);
  }
}
