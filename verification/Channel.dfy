/** Two endpoints of a TLS 1.3 connection over two queues of records. */
module Channel {
  import opened Results
  import opened ByteStrings
  import opened Primitives
  import opened RecordProtection
  import opened RecordReception
  import opened Defragmentation
  import opened Messaging
  import opened KeySchedule
  import opened Reading
  import opened Sending
  import opened Delivery

  /** An endpoint; both secrets are kept, as the session has them. */
  datatype Endpoint = Endpoint(
    client: bool, clSecret: Bytes, srSecret: Bytes, write: CState, side: ReadSide, defrag: Defrag, compat: bool,
    settings: Settings)

  function ReaderOf(e: Endpoint): Reader {
    Reader(if e.client then e.srSecret else e.clSecret, e.side, e.defrag, e.compat)
  }

  function WriterOf(e: Endpoint): Writer {
    Writer(if e.client then e.clSecret else e.srSecret, e.write)
  }

  function WithReader(e: Endpoint, r: Reader): (e': Endpoint)
    requires r.compat == e.compat
    ensures ReaderOf(e') == r && WriterOf(e') == WriterOf(e)
  {
    if e.client then e.(srSecret := r.secret, side := r.side, defrag := r.defrag)
    else e.(clSecret := r.secret, side := r.side, defrag := r.defrag)
  }

  function WithWriter(e: Endpoint, w: Writer): (e': Endpoint)
    ensures WriterOf(e') == w && ReaderOf(e') == ReaderOf(e)
  {
    if e.client then e.(clSecret := w.secret, write := w.st) else e.(srSecret := w.secret, write := w.st)
  }

  /** Both endpoints, the records under way, and what has been sent and heard in each direction. */
  datatype System = System(
    a: Endpoint, b: Endpoint, ab: seq<Record>, ba: seq<Record>,
    sentA: seq<Event>, heardB: seq<Event>, sentB: seq<Event>, heardA: seq<Event>)

  /** The same system with the endpoints named the other way round. */
  function Flip(s: System): System {
    System(s.b, s.a, s.ba, s.ab, s.sentB, s.heardA, s.sentA, s.heardB)
  }

  /** What may happen at the first endpoint: it sends, it reads with some of the records still held back by
      the network, its record size or its padding is set anew, or a change_cipher_spec in the clear slips in
      among the records that it sent. */
  datatype Move = Send(ev: Event) | Read(arrived: nat) | Configure(settings: Settings) | Insert(at: nat, version: nat)

  /** What every endpoint has to be for its operations to be defined. */
  ghost predicate Working(e: Endpoint) {
    Keyed(e.write) && e.settings.recordSize >= 1 && Live(ReaderOf(e))
  }

  function Transmit(c: Crypto, suite: Suite, s: System, ev: Event): Result<System>
    requires Correct(c) && Working(s.a)
  {
    var d := SendEvent(c, suite, s.a.settings, WriterOf(s.a), ev);
    match d.res
    case Err(e) => Err(e)
    case Ok(_) => Ok(s.(a := WithWriter(s.a, d.writer), ab := s.ab + d.records, sentA := s.sentA + Expected(s.a.settings, ev)))
  }

  function Arrived(k: nat, queue: seq<Record>): nat {
    if k <= |queue| then k else |queue|
  }

  /** What the first endpoint would hear now. */
  function Hears(c: Crypto, suite: Suite, s: System, arrived: nat): Outcome
    requires Live(ReaderOf(s.a))
  {
    ReadEvent(c, suite, ReaderOf(s.a), s.ba[..Arrived(arrived, s.ba)])
  }

  /** The reading half of a turn of the reading loop. */
  function Listen(c: Crypto, suite: Suite, s: System, arrived: nat): Result<System>
    requires Live(ReaderOf(s.a))
  {
    var held := s.ba[Arrived(arrived, s.ba)..];
    match Hears(c, suite, s, arrived)
    case Waiting(r) => Ok(s.(a := WithReader(s.a, r), ba := held))
    case Stopped(e, _) => Err(e)
    case Heard(ev, r, rest) => Ok(s.(a := WithReader(s.a, r), ba := rest + held, heardA := s.heardA + [ev]))
  }

  function Act(c: Crypto, suite: Suite, s: System, move: Move): Result<System>
    requires Correct(c) && Working(s.a)
  {
    match move
    case Send(ev) => Transmit(c, suite, s, ev)
    case Read(k) =>
      var s' :- Listen(c, suite, s, k);
      var o := Hears(c, suite, s, k);
      if o.Heard? && o.event == Update(true) then Transmit(c, suite, s', Update(false)) else Ok(s')
    case Configure(settings) => Ok(s.(a := s.a.(settings := settings)))
    case Insert(at, version) =>
      var i := Arrived(at, s.ab);
      Ok(s.(ab := s.ab[..i] + ([Ccs(version, [1])] + s.ab[i..])))
  }

  //
  // The invariant
  //

  /** One direction: reading all that is under way, KeyUpdates included, takes the reader exactly to the
      secret and the state of the writer, and yields just what was sent and not yet heard. */
  ghost predicate Direction(c: Crypto, suite: Suite, w: Writer, settings: Settings, queue: seq<Record>, r: Reader,
                            sent: seq<Event>, heard: seq<Event>) {
    && Live(r) && !r.side.earlyOk && r.side.earlyDone == 0
    && var t := ReadThrough(c, suite, r, queue);
       && t.end.Waiting? && Attuned(suite, settings, t.end.reader, w)
       && heard + t.events == sent
  }

  ghost predicate Inv(c: Crypto, suite: Suite, s: System) {
    && Direction(c, suite, WriterOf(s.a), s.a.settings, s.ab, ReaderOf(s.b), s.sentA, s.heardB)
    && Direction(c, suite, WriterOf(s.b), s.b.settings, s.ba, ReaderOf(s.a), s.sentB, s.heardA)
  }

  lemma InvWorks(c: Crypto, suite: Suite, s: System)
    requires Inv(c, suite, s)
    ensures Working(s.a) && Working(s.b) && Inv(c, suite, Flip(s))
  {
    hide ReadThrough, Idle;
  }

  lemma SendKeeps(c: Crypto, suite: Suite, w: Writer, settings: Settings, queue: seq<Record>, r: Reader,
                  sent: seq<Event>, heard: seq<Event>, ev: Event, d: Dispatch, said: seq<Event>)
    requires Correct(c) && Keyed(w.st) && settings.recordSize >= 1 && WellFormed(ev)
    requires d == SendEvent(c, suite, settings, w, ev) && d.res.Ok? && said == Expected(settings, ev)
    requires Direction(c, suite, w, settings, queue, r, sent, heard)
    ensures Direction(c, suite, d.writer, settings, queue + d.records, r, sent + said, heard)
  {
    hide Correct, ReadThrough, SendEvent, Attuned, Live, Expected, SameSettings, InStep, Take;
    var t := ReadThrough(c, suite, r, queue);
    EventDelivered(c, suite, settings, t.end.reader, w, ev);
    ReadAppend(c, suite, r, queue, d.records);
    assert heard + (t.events + said) == (heard + t.events) + said;
  }

  lemma HearKeeps(c: Crypto, suite: Suite, w: Writer, settings: Settings, first: seq<Record>, held: seq<Record>,
                  r: Reader, sent: seq<Event>, heard: seq<Event>)
    requires Direction(c, suite, w, settings, first + held, r, sent, heard)
    ensures var o := ReadEvent(c, suite, r, first);
            match o
            case Waiting(r') => Direction(c, suite, w, settings, held, r', sent, heard)
            case Heard(ev, r', rest) => Direction(c, suite, w, settings, rest + held, r', sent, heard + [ev])
            case Stopped(_, _) => false
  {
    hide ReadEvent, Attuned, Live, Take, Buffered, Shorter, ReadThrough;
    var o := ReadEvent(c, suite, r, first);
    EventAppend(c, suite, r, first, held);
    ReadUnfolds(c, suite, r, first + held);
    if o.Heard? {
      var later := ReadThrough(c, suite, o.reader, o.rest + held);
      assert heard + ([o.event] + later.events) == (heard + [o.event]) + later.events;
    } else if o.Waiting? {
      ReadIsSame(c, suite, r, first + held, o.reader, held);
    }
  }

  /** A change_cipher_spec in the clear goes unnoticed wherever it is put. */
  lemma InsertKeeps(c: Crypto, suite: Suite, w: Writer, settings: Settings, first: seq<Record>, second: seq<Record>,
                    r: Reader, sent: seq<Event>, heard: seq<Event>, version: nat)
    requires Direction(c, suite, w, settings, first + second, r, sent, heard) && r.compat
    ensures Direction(c, suite, w, settings, first + ([Ccs(version, [1])] + second), r, sent, heard)
  {
    var t := ReadThrough(c, suite, r, first);
    ReadAppend(c, suite, r, first, second);
    ReadAppend(c, suite, r, first, [Ccs(version, [1])] + second);
    if t.end.Waiting? {
      var r' := t.end.reader;
      var end := ReadThrough(c, suite, r, first + second).end.reader;
      assert end.side.recvLimit == r'.side.recvLimit;
      CcsToleratedIff(c, suite, r', version, [1], second);
      ReadIsSame(c, suite, r', [Ccs(version, [1])] + second, r', second);
    }
    hide ReadThrough, Attuned;
  }

  /** Settings may change between any two messages: those under way are read all the same. */
  lemma ConfigureKeeps(c: Crypto, suite: Suite, w: Writer, settings: Settings, queue: seq<Record>, r: Reader,
                       sent: seq<Event>, heard: seq<Event>, settings': Settings)
    requires Direction(c, suite, w, settings, queue, r, sent, heard) && Considerate(settings', r.side.recvLimit)
    ensures Direction(c, suite, w, settings', queue, r, sent, heard)
  {
    assert ReadThrough(c, suite, r, queue).end.reader.side.recvLimit == r.side.recvLimit;
    hide ReadThrough, Considerate, Idle, Live;
  }

  //
  // Runs
  //

  /** What the invariant needs of a move: messages are well formed, settings suit the receiver, and
      change_cipher_spec records appear only where the receiver is in compatibility mode. */
  ghost predicate Admissible(s: System, move: Move) {
    match move
    case Send(ev) => WellFormed(ev)
    case Read(_) => true
    case Configure(settings) => Considerate(settings, s.b.side.recvLimit)
    case Insert(_, _) => s.b.compat
  }

  lemma TransmitKeeps(c: Crypto, suite: Suite, s: System, ev: Event)
    requires Correct(c) && Working(s.a) && WellFormed(ev) && Inv(c, suite, s)
    ensures Transmit(c, suite, s, ev).Ok? ==> Inv(c, suite, Transmit(c, suite, s, ev).value)
  {
    hide Correct, Direction, SendEvent, WellFormed, Expected, Live, Keyed;
    if Transmit(c, suite, s, ev).Ok? {
      var d := SendEvent(c, suite, s.a.settings, WriterOf(s.a), ev);
      SendKeeps(c, suite, WriterOf(s.a), s.a.settings, s.ab, ReaderOf(s.b), s.sentA, s.heardB, ev, d,
                Expected(s.a.settings, ev));
    }
  }

  /** Reading is never stopped by what the peer has sent. */
  lemma ListenKeeps(c: Crypto, suite: Suite, s: System, k: nat)
    requires Live(ReaderOf(s.a)) && Inv(c, suite, s)
    ensures Listen(c, suite, s, k).Ok? && Inv(c, suite, Listen(c, suite, s, k).value)
  {
    hide Direction, Live, ReadEvent, Shorter, Take;
    var n := Arrived(k, s.ba);
    assert s.ba == s.ba[..n] + s.ba[n..];
    HearKeeps(c, suite, WriterOf(s.b), s.b.settings, s.ba[..n], s.ba[n..], ReaderOf(s.a), s.sentB, s.heardA);
  }

  lemma InsertionKeeps(c: Crypto, suite: Suite, s: System, at: nat, version: nat)
    requires s.b.compat && Inv(c, suite, s)
    ensures var i := Arrived(at, s.ab);
            Inv(c, suite, s.(ab := s.ab[..i] + ([Ccs(version, [1])] + s.ab[i..])))
  {
    hide Direction;
    var i := Arrived(at, s.ab);
    assert s.ab == s.ab[..i] + s.ab[i..];
    InsertKeeps(c, suite, WriterOf(s.a), s.a.settings, s.ab[..i], s.ab[i..], ReaderOf(s.b), s.sentA, s.heardB, version);
  }

  lemma ConfigurationKeeps(c: Crypto, suite: Suite, s: System, settings: Settings)
    requires Inv(c, suite, s) && Considerate(settings, s.b.side.recvLimit)
    ensures Inv(c, suite, s.(a := s.a.(settings := settings)))
  {
    hide Direction, Considerate;
    ConfigureKeeps(c, suite, WriterOf(s.a), s.a.settings, s.ab, ReaderOf(s.b), s.sentA, s.heardB, settings);
  }

  /** Every move keeps the invariant; and only sending can fail, be it on behalf of a KeyUpdate request. */
  lemma ActKeeps(c: Crypto, suite: Suite, s: System, move: Move)
    requires Correct(c) && Working(s.a) && Inv(c, suite, s) && Admissible(s, move)
    ensures Act(c, suite, s, move).Ok? ==> Inv(c, suite, Act(c, suite, s, move).value)
    ensures Act(c, suite, s, move).Err? ==> !move.Insert? && !move.Configure? && (move.Read? ==>
              var o := Hears(c, suite, s, move.arrived); o.Heard? && o.event == Update(true))
  {
    hide Correct, Inv, Listen, Transmit, WellFormed, Hears, Live, Keyed, Considerate;
    match move
    case Send(ev) => TransmitKeeps(c, suite, s, ev);
    case Configure(settings) => ConfigurationKeeps(c, suite, s, settings);
    case Insert(at, version) => InsertionKeeps(c, suite, s, at, version);
    case Read(k) =>
      ListenKeeps(c, suite, s, k);
      var s' := Listen(c, suite, s, k).value;
      InvWorks(c, suite, s');
      UpdateIsWellFormed();
      TransmitKeeps(c, suite, s', Update(false));
  }

  lemma UpdateIsWellFormed()
    ensures WellFormed(Update(false))
  {
  }

  /** A move of either endpoint. */
  datatype Turn = Turn(bySecond: bool, move: Move)

  function Do(c: Crypto, suite: Suite, s: System, turn: Turn): Result<System>
    requires Correct(c) && Working(s.a) && Working(s.b)
  {
    if turn.bySecond then
      var t :- Act(c, suite, Flip(s), turn.move);
      Ok(Flip(t))
    else Act(c, suite, s, turn.move)
  }

  /** The system that acts in a turn, its own endpoint first. */
  function Facing(s: System, turn: Turn): System {
    if turn.bySecond then Flip(s) else s
  }

  /** s' is reached from s by the turns, none of which fails. */
  ghost predicate Reaches(c: Crypto, suite: Suite, s: System, turns: seq<Turn>, s': System)
    requires Correct(c)
    decreases |turns|
  {
    if turns == [] then s == s'
    else
      && Working(s.a) && Working(s.b) && Admissible(Facing(s, turns[0]), turns[0].move)
      && Do(c, suite, s, turns[0]).Ok? && Reaches(c, suite, Do(c, suite, s, turns[0]).value, turns[1..], s')
  }

  lemma DoKeeps(c: Crypto, suite: Suite, s: System, turn: Turn)
    requires Correct(c) && Inv(c, suite, s) && Working(s.a) && Working(s.b) && Admissible(Facing(s, turn), turn.move)
    ensures Do(c, suite, s, turn).Ok? ==> Inv(c, suite, Do(c, suite, s, turn).value)
  {
    hide Correct, Inv, Act, Working;
    InvWorks(c, suite, s);
    ActKeeps(c, suite, Facing(s, turn), turn.move);
    if turn.bySecond && Do(c, suite, s, turn).Ok? {
      InvWorks(c, suite, Act(c, suite, Flip(s), turn.move).value);
    }
  }

  /** The invariant holds in every reachable state. */
  lemma {:induction false} RunKeepsInvariant(c: Crypto, suite: Suite, s: System, turns: seq<Turn>, s': System)
    requires Correct(c) && Inv(c, suite, s) && Reaches(c, suite, s, turns, s')
    ensures Inv(c, suite, s')
    decreases |turns|
  {
    hide Correct, Inv, Do, Working, Admissible;
    if turns != [] {
      DoKeeps(c, suite, s, turns[0]);
      RunKeepsInvariant(c, suite, Do(c, suite, s, turns[0]).value, turns[1..], s');
    }
  }

  /** An endpoint as the handshake leaves it: states derived from both traffic secrets, nothing buffered. */
  function Fresh(c: Crypto, suite: Suite, client: bool, clSecret: Bytes, srSecret: Bytes, recvLimit: nat, maxEarly: nat,
                 compat: bool, settings: Settings): Endpoint {
    var clState, srState := TrafficState(c, suite, clSecret), TrafficState(c, suite, srSecret);
    Endpoint(client, clSecret, srSecret, if client then clState else srState,
             ReadSide(if client then srState else clState, false, maxEarly, 0, recvLimit), STANDARD_DEFRAG, compat, settings)
  }

  /** The three kinds of messages that the record layer's user defragments. */
  const STANDARD_DEFRAG :=
    Register(Register(Register(EMPTY_DEFRAG, CHANGE_CIPHER_SPEC, StaticSize(1)), ALERT, StaticSize(2)),
             HANDSHAKE, HANDSHAKE_DECODER)

  lemma FreshIdle(r: Reader)
    requires Keyed(r.side.st) && !r.side.earlyOk && r.side.earlyDone == 0 && r.side.recvLimit >= 1
    requires r.defrag == STANDARD_DEFRAG
    ensures Idle(r)
  {
    var d := STANDARD_DEFRAG;
    assert d.priorities == [CHANGE_CIPHER_SPEC, ALERT, HANDSHAKE];
    assert forall t :: t in d.buffers ==> d.buffers[t] == [];
    assert Proper(d);
    assert With(d, HANDSHAKE, []) == d by { WithEmpty(d, HANDSHAKE); }
    NothingInEmpty(HANDSHAKE_DECODER);
    TakeSingle(d, HANDSHAKE, []);
  }

  lemma FreshDirection(c: Crypto, suite: Suite, w: Writer, settings: Settings, r: Reader)
    requires Correct(c) && suite.tagLength <= 255 && Considerate(settings, r.side.recvLimit)
    requires w.st == TrafficState(c, suite, w.secret) && r == InStep(r, w)
    requires !r.side.earlyOk && r.side.earlyDone == 0 && r.defrag == STANDARD_DEFRAG
    ensures Direction(c, suite, w, settings, [], r, [], [])
  {
    TrafficStateIsSuiteState(c, suite, w.secret);
    assert r.side.recvLimit >= 1;
    hide Correct, Considerate, TrafficState, Take, Proper, ReadThrough;
    FreshIdle(r);
    NothingRead(c, suite, r);
  }

  lemma StartSatisfiesInvariant(c: Crypto, suite: Suite, a: Endpoint, b: Endpoint, clSecret: Bytes, srSecret: Bytes)
    requires Correct(c) && suite.tagLength <= 255 && a.client != b.client
    requires a == Fresh(c, suite, a.client, clSecret, srSecret, a.side.recvLimit, a.side.maxEarly, a.compat, a.settings)
    requires b == Fresh(c, suite, b.client, clSecret, srSecret, b.side.recvLimit, b.side.maxEarly, b.compat, b.settings)
    requires Considerate(a.settings, b.side.recvLimit) && Considerate(b.settings, a.side.recvLimit)
    ensures Inv(c, suite, System(a, b, [], [], [], [], [], []))
  {
    hide Correct, Considerate, TrafficState, Direction;
    FreshDirection(c, suite, WriterOf(a), a.settings, ReaderOf(b));
    FreshDirection(c, suite, WriterOf(b), b.settings, ReaderOf(a));
  }

  /** What the invariant means to the users: what has been heard is a prefix of what has been sent, to the
      byte for application data, and the rest is what reading the records under way will yield. */
  lemma InvMeansFaithful(c: Crypto, suite: Suite, s: System)
    requires Inv(c, suite, s)
    ensures s.heardB <= s.sentA && s.heardA <= s.sentB
    ensures DataOf(s.heardB) <= DataOf(s.sentA) && DataOf(s.heardA) <= DataOf(s.sentB)
    ensures Live(ReaderOf(s.a)) && Live(ReaderOf(s.b))
    ensures s.sentA == s.heardB + PendingB(c, suite, s) && s.sentB == s.heardA + PendingA(c, suite, s)
  {
    InvWorks(c, suite, s);
    hide ReadThrough, Attuned, Live, Keyed;
    DataOfAppend(s.heardB, PendingB(c, suite, s));
    DataOfAppend(s.heardA, PendingA(c, suite, s));
  }

  function PendingA(c: Crypto, suite: Suite, s: System): seq<Event>
    requires Live(ReaderOf(s.a))
  {
    ReadThrough(c, suite, ReaderOf(s.a), s.ba).events
  }

  function PendingB(c: Crypto, suite: Suite, s: System): seq<Event>
    requires Live(ReaderOf(s.b))
  {
    ReadThrough(c, suite, ReaderOf(s.b), s.ab).events
  }

  /** Safety of the channel: in every state that two endpoints reach from the end of a handshake, by sending,
      reading and updating keys in any order, with other settings and change_cipher_spec records in between. */
  lemma ChannelIsFaithful(c: Crypto, suite: Suite, a: Endpoint, b: Endpoint, clSecret: Bytes, srSecret: Bytes,
                          turns: seq<Turn>, s: System)
    requires Correct(c) && suite.tagLength <= 255 && a.client != b.client
    requires a == Fresh(c, suite, a.client, clSecret, srSecret, a.side.recvLimit, a.side.maxEarly, a.compat, a.settings)
    requires b == Fresh(c, suite, b.client, clSecret, srSecret, b.side.recvLimit, b.side.maxEarly, b.compat, b.settings)
    requires Considerate(a.settings, b.side.recvLimit) && Considerate(b.settings, a.side.recvLimit)
    requires Reaches(c, suite, System(a, b, [], [], [], [], [], []), turns, s)
    ensures s.heardB <= s.sentA && s.heardA <= s.sentB
    ensures DataOf(s.heardB) <= DataOf(s.sentA) && DataOf(s.heardA) <= DataOf(s.sentB)
    ensures Inv(c, suite, s)
  {
    hide Correct, Considerate, Inv, Reaches, Fresh;
    StartSatisfiesInvariant(c, suite, a, b, clSecret, srSecret);
    RunKeepsInvariant(c, suite, System(a, b, [], [], [], [], [], []), turns, s);
    InvMeansFaithful(c, suite, s);
  }

  const AES_SUITE := Suite(Sha256, AesGcm, 16, 16)
  const DEFAULT_SETTINGS := Settings(0x4000, 0x4000, None)

  /** The hypotheses can be met: with the default record size and a suite of TLS 1.3, two fresh endpoints satisfy
      the invariant, and the run without turns reaches them. */
  lemma HypothesesCanBeMet(clSecret: Bytes, srSecret: Bytes)
    ensures var c := Transparent();
            var a := Fresh(c, AES_SUITE, true, clSecret, srSecret, 0x4000, 0, true, DEFAULT_SETTINGS);
            var b := Fresh(c, AES_SUITE, false, clSecret, srSecret, 0x4000, 0, true, DEFAULT_SETTINGS);
            var s := System(a, b, [], [], [], [], [], []);
            Correct(c) && Inv(c, AES_SUITE, s) && Working(s.a) && Working(s.b) && Reaches(c, AES_SUITE, s, [], s)
  {
    TransparentIsCorrect();
    var c := Transparent();
    hide Transparent, Inv, Correct, TrafficState, Working;
    var a := Fresh(c, AES_SUITE, true, clSecret, srSecret, 0x4000, 0, true, DEFAULT_SETTINGS);
    var b := Fresh(c, AES_SUITE, false, clSecret, srSecret, 0x4000, 0, true, DEFAULT_SETTINGS);
    StartSatisfiesInvariant(c, AES_SUITE, a, b, clSecret, srSecret);
    InvWorks(c, AES_SUITE, System(a, b, [], [], [], [], [], []));
  }
}
