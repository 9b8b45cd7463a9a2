/** Messages over records: queueing, coalescing, cutting, and putting together again. */
module Messaging {
  import opened Results
  import opened ByteStrings
  import opened Defragmentation

  /** Types that are handed on record by record: application data and heartbeat. */
  predicate Unfragmented(t: nat) {
    t == 23 || t == 24
  }

  /** The pieces of at most size bytes that a flush cuts buf into. */
  function Chunks(size: nat, buf: Bytes): seq<Bytes>
    requires size >= 1
    decreases |buf|
  {
    if buf == [] then []
    else if |buf| <= size then [buf]
    else [buf[..size]] + Chunks(size, buf[size..])
  }

  lemma {:induction false} ChunksCut(size: nat, buf: Bytes)
    requires size >= 1
    ensures Flatten(Chunks(size, buf)) == buf
    ensures forall c :: c in Chunks(size, buf) ==> 0 < |c| <= size
    decreases |buf|
  {
    if |buf| > size {
      var first, rest := buf[..size], Chunks(size, buf[size..]);
      ChunksCut(size, buf[size..]);
      assert Chunks(size, buf) == [first] + rest;
      FlattenAppend([first], rest);
      assert Flatten([first]) == first + Flatten([]) == first;
      assert buf == first + buf[size..];
    } else if buf != [] {
      assert Flatten([buf]) == buf + Flatten([]);
    }
  }

  /** In as few records as possible: all but the last are full. */
  lemma {:induction false} ChunksFull(size: nat, buf: Bytes, i: nat)
    requires size >= 1 && i + 1 < |Chunks(size, buf)|
    ensures |Chunks(size, buf)[i]| == size
    decreases |buf|
  {
    if i > 0 {
      ChunksFull(size, buf[size..], i - 1);
    }
  }

  lemma ChunksFirst(size: nat, buf: Bytes, before: seq<Bytes>)
    requires size >= 1 && buf != []
    ensures var n := if size <= |buf| then size else |buf|;
            before + Chunks(size, buf) == (before + [buf[..n]]) + Chunks(size, buf[n..])
  {
    var n := if size <= |buf| then size else |buf|;
    if |buf| <= size {
      assert buf[..n] == buf && buf[n..] == [];
    }
    assert Chunks(size, buf) == [buf[..n]] + Chunks(size, buf[n..]);
    assert before + ([buf[..n]] + Chunks(size, buf[n..])) == (before + [buf[..n]]) + Chunks(size, buf[n..]);
  }

  /** The pieces as records of type t. A record is written as a message: its type and its payload. */
  function AsRecords(t: nat, pieces: seq<Bytes>): (r: seq<Message>)
    ensures |r| == |pieces| && forall i :: 0 <= i < |r| ==> r[i] == Message(t, pieces[i])
  {
    seq(|pieces|, i requires 0 <= i < |pieces| => Message(t, pieces[i]))
  }

  /** The queue of the sending side. */
  datatype Queue = Queue(ctype: Option<nat>, buffer: Bytes)

  const EMPTY_QUEUE := Queue(None, [])

  /** Data is queued only under a type. */
  predicate ProperQueue(q: Queue) {
    q.ctype.None? ==> q.buffer == []
  }

  function FlushRecords(size: nat, q: Queue): seq<Message>
    requires size >= 1 && ProperQueue(q)
  {
    if q.ctype.None? then [] else AsRecords(q.ctype.value, Chunks(size, q.buffer))
  }

  /** The records that queueing m sends, and the queue afterwards. */
  function Enqueue(size: nat, q: Queue, m: Message): (seq<Message>, Queue)
    requires size >= 1 && ProperQueue(q)
  {
    if q.ctype.None? || q.ctype.value == m.ctype then ([], Queue(Some(m.ctype), q.buffer + m.data))
    else (FlushRecords(size, q), Queue(Some(m.ctype), m.data))
  }

  datatype SendOp = QueueOp(m: Message) | FlushOp | SendOp(m: Message)

  function SendStep(size: nat, q: Queue, op: SendOp): (r: (seq<Message>, Queue))
    requires size >= 1 && ProperQueue(q)
    ensures ProperQueue(r.1)
  {
    match op
    case QueueOp(m) => Enqueue(size, q, m)
    case FlushOp => (FlushRecords(size, q), EMPTY_QUEUE)
    case SendOp(m) =>
      var (records, q') := Enqueue(size, q, m);
      (records + FlushRecords(size, q'), EMPTY_QUEUE)
  }

  function SendRun(size: nat, q: Queue, ops: seq<SendOp>): (r: (seq<Message>, Queue))
    requires size >= 1 && ProperQueue(q)
    ensures ProperQueue(r.1)
    decreases |ops|
  {
    if ops == [] then ([], q)
    else
      var (records, q') := SendStep(size, q, ops[0]);
      var (later, q'') := SendRun(size, q', ops[1..]);
      (records + later, q'')
  }

  /** The messages handed over by a run of send operations. */
  function Handed(ops: seq<SendOp>): seq<Message> {
    if ops == [] then []
    else if ops[0].FlushOp? then Handed(ops[1..])
    else [ops[0].m] + Handed(ops[1..])
  }

  //
  // Receiving
  //

  datatype Recv = Got(m: Message, d: Defrag, rest: seq<Message>) | NeedMore(d: Defrag) | Failed(error: Error, d: Defrag, rest: seq<Message>)

  /** The next message: from the buffers if one is complete there, else from further records. */
  function RecvMessage(d: Defrag, records: seq<Message>): (r: Recv)
    requires Proper(d)
    ensures Proper(r.d) && r.d.priorities == d.priorities && r.d.decoders == d.decoders
    ensures r.Got? ==> |r.rest| < |records| || (r.rest == records && Take(d) == (Some(r.m), r.d))
    decreases |records|
  {
    var (m, d') := Take(d);
    if m.Some? then Got(m.value, d', records)
    else if records == [] then NeedMore(d)
    else if Unfragmented(records[0].ctype) then Got(records[0], d, records[1..])
    else
      match Append(d, records[0].ctype, records[0].data)
      case Err(e) => Failed(e, d, records[1..])
      case Ok(d'') => RecvMessage(d'', records[1..])
  }

  /** The number of bytes buffered under the priorities from i on. */
  function Buffered(d: Defrag, i: nat): nat
    requires Proper(d) && i <= |d.priorities|
    decreases |d.priorities| - i
  {
    if i == |d.priorities| then 0 else |d.buffers[d.priorities[i]]| + Buffered(d, i + 1)
  }

  lemma {:induction false} TakeShrinks(d: Defrag, i: nat)
    requires Proper(d) && i <= |d.priorities| && Take(d).0.Some?
    ensures Buffered(Take(d).1, i) <= Buffered(d, i)
    ensures Take(d).0.value.ctype in d.priorities[i..] ==> Buffered(Take(d).1, i) < Buffered(d, i)
    decreases |d.priorities| - i
  {
    if i < |d.priorities| {
      TakeShrinks(d, i + 1);
      var t := d.priorities[i];
      TakeOfType(d, t);
      assert d.priorities[i..] == [t] + d.priorities[i + 1..];
    }
  }

  /** Everything that can be received from the buffers and the records. */
  function ReceiveAll(d: Defrag, records: seq<Message>): (r: (seq<Message>, Recv))
    requires Proper(d)
    ensures Proper(r.1.d)
    decreases |records|, Buffered(d, 0)
  {
    var r := RecvMessage(d, records);
    if r.Got? then
      TakeDecreases(d);
      var (later, end) := ReceiveAll(r.d, r.rest);
      ([r.m] + later, end)
    else ([], r)
  }

  lemma TakeDecreases(d: Defrag)
    requires Proper(d)
    ensures Take(d).0.Some? ==> Buffered(Take(d).1, 0) < Buffered(d, 0)
  {
    if Take(d).0.Some? {
      TakeShrinks(d, 0);
      assert d.priorities[0..] == d.priorities;
    }
  }

  //
  // Reception does not depend on how the stream was cut
  //

  ghost predicate Empty(d: Defrag) {
    Proper(d) && forall t :: t in d.buffers ==> d.buffers[t] == []
  }

  function With(d: Defrag, t: nat, buf: Bytes): (r: Defrag)
    requires Proper(d) && t in d.priorities
    ensures Proper(r) && r.priorities == d.priorities && r.decoders == d.decoders && r.buffers[t] == buf
  {
    d.(buffers := d.buffers[t := buf])
  }

  lemma WithEmpty(d: Defrag, t: nat)
    requires Empty(d) && t in d.priorities
    ensures With(d, t, []) == d
  {
    assert d.buffers[t := []] == d.buffers;
  }

  lemma NothingInEmpty(decoder: Decoder)
    requires ProperDecoder(decoder)
    ensures CompleteLength(decoder, []).None?
  {
  }

  lemma {:induction false} FirstReadySingle(d: Defrag, t: nat, buf: Bytes, i: nat)
    requires Empty(d) && t in d.priorities && i <= |d.priorities|
    ensures FirstReady(With(d, t, buf), i)
         == if t in d.priorities[i..] && CompleteLength(d.decoders[t], buf).Some? then Some(t) else None
    decreases |d.priorities| - i
  {
    hide CompleteLength;
    if i < |d.priorities| {
      var u := d.priorities[i];
      NothingInEmpty(d.decoders[u]);
      FirstReadySingle(d, t, buf, i + 1);
      assert d.priorities[i..] == [u] + d.priorities[i + 1..];
    }
  }

  lemma TakeSingle(d: Defrag, t: nat, buf: Bytes)
    requires Empty(d) && t in d.priorities
    ensures Take(With(d, t, buf)) ==
            match CompleteLength(d.decoders[t], buf)
            case None => (None, With(d, t, buf))
            case Some(n) => (Some(Message(t, buf[..n])), With(d, t, buf[n..]))
  {
    hide CompleteLength, FirstReady;
    FirstReadySingle(d, t, buf, 0);
    assert d.priorities[0..] == d.priorities;
    if CompleteLength(d.decoders[t], buf).Some? {
      var n := CompleteLength(d.decoders[t], buf).value;
      assert d.buffers[t := buf][t := buf[n..]] == d.buffers[t := buf[n..]];
    }
  }

  /** The effect of one more record on a buffer. */
  lemma RecvSingle(d: Defrag, t: nat, buf: Bytes, records: seq<Message>)
    requires Empty(d) && t in d.priorities && !Unfragmented(t)
    requires CompleteLength(d.decoders[t], buf).None? && records != [] && records[0].ctype == t
    ensures RecvMessage(With(d, t, buf), records) == RecvMessage(With(d, t, buf + records[0].data), records[1..])
  {
    hide CompleteLength, Take;
    TakeSingle(d, t, buf);
    assert d.buffers[t := buf][t := buf + records[0].data] == d.buffers[t := buf + records[0].data];
  }

  lemma RecvMessageStep(d: Defrag, records: seq<Message>)
    requires Proper(d)
    ensures RecvMessage(d, records) ==
              var (m, d') := Take(d);
              if m.Some? then Got(m.value, d', records)
              else if records == [] then NeedMore(d)
              else if Unfragmented(records[0].ctype) then Got(records[0], d, records[1..])
              else
                match Append(d, records[0].ctype, records[0].data)
                case Err(e) => Failed(e, d, records[1..])
                case Ok(d'') => RecvMessage(d'', records[1..])
    ensures Take(d).0.None? ==> Take(d).1 == d
  {
  }

  lemma ReceiveAllStep(d: Defrag, records: seq<Message>)
    requires Proper(d)
    ensures var r := RecvMessage(d, records);
            ReceiveAll(d, records) ==
              if r.Got? then ([r.m] + ReceiveAll(r.d, r.rest).0, ReceiveAll(r.d, r.rest).1) else ([], r)
  {
  }

  lemma ReceiveAllSame(d: Defrag, records: seq<Message>, d': Defrag, records': seq<Message>)
    requires Proper(d) && Proper(d') && RecvMessage(d, records) == RecvMessage(d', records')
    ensures ReceiveAll(d, records) == ReceiveAll(d', records')
  {
    hide RecvMessage;
    ReceiveAllStep(d, records);
    ReceiveAllStep(d', records');
  }

  /** Records of one type deliver the messages of their joined payloads. */
  lemma {:induction false} ReceiveSingle(d: Defrag, t: nat, buf: Bytes, pieces: seq<Bytes>)
    requires Empty(d) && t in d.priorities && !Unfragmented(t)
    ensures var (messages, rest) := Split(d.decoders[t], buf + Flatten(pieces));
            ReceiveAll(With(d, t, buf), AsRecords(t, pieces)) == (AsRecords(t, messages), NeedMore(With(d, t, rest)))
    decreases |pieces|, |buf|
  {
    ProperAt(d, t);
    hide CompleteLength, Take, RecvMessage, Proper, Split, Flatten, ReceiveAll;
    var decoder := d.decoders[t];
    if CompleteLength(decoder, buf).Some? {
      ReceiveSingle(d, t, buf[CompleteLength(decoder, buf).value..], pieces);
      ReceiveTaken(d, t, buf, AsRecords(t, pieces));
      DeliveredFirst(decoder, buf, Flatten(pieces), CompleteLength(decoder, buf).value);
      AsRecordsFirst(t, buf[..CompleteLength(decoder, buf).value],
                     Split(decoder, buf[CompleteLength(decoder, buf).value..] + Flatten(pieces)).0);
    } else if pieces == [] {
      RecvNothing(d, t, buf);
      SplitNothing(decoder, buf, pieces);
    } else {
      ReceiveSingle(d, t, buf + pieces[0], pieces[1..]);
      ReceiveCut(d, t, buf, pieces);
      FlattenFirst(buf, pieces);
    }
  }

  lemma ReceiveTaken(d: Defrag, t: nat, buf: Bytes, records: seq<Message>)
    requires Empty(d) && t in d.priorities && CompleteLength(d.decoders[t], buf).Some?
    ensures var n := CompleteLength(d.decoders[t], buf).value;
            var (later, end) := ReceiveAll(With(d, t, buf[n..]), records);
            ReceiveAll(With(d, t, buf), records) == ([Message(t, buf[..n])] + later, end)
  {
    hide CompleteLength, Take, ReceiveAll;
    TakeSingle(d, t, buf);
    RecvTaken(With(d, t, buf), records);
    ReceiveAllStep(With(d, t, buf), records);
  }

  lemma ReceiveCut(d: Defrag, t: nat, buf: Bytes, pieces: seq<Bytes>)
    requires Empty(d) && t in d.priorities && !Unfragmented(t)
    requires CompleteLength(d.decoders[t], buf).None? && pieces != []
    ensures ReceiveAll(With(d, t, buf), AsRecords(t, pieces))
         == ReceiveAll(With(d, t, buf + pieces[0]), AsRecords(t, pieces[1..]))
  {
    hide CompleteLength, Take, ReceiveAll, RecvMessage;
    var records := AsRecords(t, pieces);
    RecvSingle(d, t, buf, records);
    assert records[1..] == AsRecords(t, pieces[1..]);
    ReceiveAllSame(With(d, t, buf), records, With(d, t, buf + pieces[0]), records[1..]);
  }

  lemma RecvTaken(d: Defrag, records: seq<Message>)
    requires Proper(d) && Take(d).0.Some?
    ensures RecvMessage(d, records) == Got(Take(d).0.value, Take(d).1, records)
  {
  }

  lemma RecvNothing(d: Defrag, t: nat, buf: Bytes)
    requires Empty(d) && t in d.priorities && CompleteLength(d.decoders[t], buf).None?
    ensures ReceiveAll(With(d, t, buf), AsRecords(t, [])) == ([], NeedMore(With(d, t, buf)))
  {
    hide CompleteLength, Take;
    TakeSingle(d, t, buf);
  }

  lemma SplitNothing(decoder: Decoder, buf: Bytes, pieces: seq<Bytes>)
    requires ProperDecoder(decoder) && CompleteLength(decoder, buf).None? && pieces == []
    ensures Split(decoder, buf + Flatten(pieces)) == ([], buf)
  {
    assert buf + Flatten(pieces) == buf;
  }

  lemma AsRecordsFirst(t: nat, first: Bytes, later: seq<Bytes>)
    ensures AsRecords(t, [first] + later) == [Message(t, first)] + AsRecords(t, later)
  {
  }

  lemma FlattenFirst(buf: Bytes, pieces: seq<Bytes>)
    requires pieces != []
    ensures buf + Flatten(pieces) == (buf + pieces[0]) + Flatten(pieces[1..])
  {
    assert buf + (pieces[0] + Flatten(pieces[1..])) == (buf + pieces[0]) + Flatten(pieces[1..]);
  }

  /** Reception can pause between records. */
  lemma {:induction false} RecvAppend(d: Defrag, first: seq<Message>, second: seq<Message>)
    requires Proper(d)
    ensures var r := RecvMessage(d, first);
            RecvMessage(d, first + second) ==
              match r
              case Got(m, d', rest) => Got(m, d', rest + second)
              case NeedMore(d') => RecvMessage(d', second)
              case Failed(e, d', rest) => Failed(e, d', rest + second)
    decreases |first|
  {
    hide Proper, Take;
    if Take(d).0.None? {
      if first == [] {
        assert first + second == second;
      } else {
        assert (first + second)[0] == first[0] && (first + second)[1..] == first[1..] + second;
        if !Unfragmented(first[0].ctype) && Append(d, first[0].ctype, first[0].data).Ok? {
          RecvAppend(Append(d, first[0].ctype, first[0].data).value, first[1..], second);
        }
      }
    }
  }

  lemma {:induction false} ReceiveAppend(d: Defrag, first: seq<Message>, second: seq<Message>)
    requires Proper(d) && ReceiveAll(d, first).1.NeedMore?
    ensures var (messages, end) := ReceiveAll(d, first);
            ReceiveAll(d, first + second)
            == (messages + ReceiveAll(end.d, second).0, ReceiveAll(end.d, second).1)
    decreases |first|, Buffered(d, 0)
  {
    hide Proper, RecvMessage, ReceiveAll, Buffered;
    var r := RecvMessage(d, first);
    RecvAppend(d, first, second);
    ReceiveAllStep(d, first);
    ReceiveAllStep(d, first + second);
    if r.Got? {
      TakeDecreases(d);
      ReceiveAppend(r.d, r.rest, second);
      var tail := ReceiveAll(ReceiveAll(d, first).1.d, second).0;
      assert [r.m] + (ReceiveAll(r.d, r.rest).0 + tail) == ([r.m] + ReceiveAll(r.d, r.rest).0) + tail;
    } else {
      ReceiveAllSame(d, first + second, r.d, second);
      assert [] + ReceiveAll(r.d, second).0 == ReceiveAll(r.d, second).0;
    }
  }

  /** Whole messages of one type, and any pieces that their bytes were cut into. */
  datatype Batch = Batch(ctype: nat, messages: seq<Bytes>, pieces: seq<Bytes>)

  ghost predicate GoodBatch(d: Defrag, b: Batch)
    requires Proper(d)
  {
    && b.ctype in d.priorities && !Unfragmented(b.ctype)
    && (forall m :: m in b.messages ==> WholeMessage(d.decoders[b.ctype], m))
    && Flatten(b.pieces) == Flatten(b.messages)
  }

  function RecordsOf(batches: seq<Batch>): seq<Message> {
    if batches == [] then [] else AsRecords(batches[0].ctype, batches[0].pieces) + RecordsOf(batches[1..])
  }

  function MessagesOf(batches: seq<Batch>): seq<Message> {
    if batches == [] then [] else AsRecords(batches[0].ctype, batches[0].messages) + MessagesOf(batches[1..])
  }

  lemma ReceiveBatch(d: Defrag, b: Batch)
    requires Empty(d) && GoodBatch(d, b)
    ensures ReceiveAll(d, AsRecords(b.ctype, b.pieces)) == (AsRecords(b.ctype, b.messages), NeedMore(d))
  {
    ProperAt(d, b.ctype);
    hide ReceiveAll, Split, Flatten, CompleteLength;
    WithEmpty(d, b.ctype);
    ReceiveSingle(d, b.ctype, [], b.pieces);
    SplitMessages(d.decoders[b.ctype], b.messages);
    assert [] + Flatten(b.pieces) == Flatten(b.pieces);
  }

  /** Any list of messages, of any mixture of types, cut anywhere between or inside the messages of each
      stretch of one type, is received as the same list in the same order, and nothing stays behind. */
  lemma {:induction false} CutsDoNotMatter(d: Defrag, batches: seq<Batch>)
    requires Empty(d) && forall b :: b in batches ==> GoodBatch(d, b)
    ensures ReceiveAll(d, RecordsOf(batches)) == (MessagesOf(batches), NeedMore(d))
  {
    hide ReceiveAll, Empty, GoodBatch, Proper;
    if batches == [] {
      NothingToReceive(d);
    } else {
      var b := batches[0];
      ReceiveBatch(d, b);
      ReceiveAppend(d, AsRecords(b.ctype, b.pieces), RecordsOf(batches[1..]));
      CutsDoNotMatter(d, batches[1..]);
    }
  }

  lemma NothingToReceive(d: Defrag)
    requires Empty(d)
    ensures ReceiveAll(d, []) == ([], NeedMore(d))
  {
    forall t | t in d.priorities ensures MessageAt(d, t).None? {
      NothingInEmpty(d.decoders[t]);
    }
    assert FirstReady(d, 0).None?;
  }

  //
  // Types that are not made of messages: only their bytes count
  //

  function Singles(b: Bytes): (r: seq<Bytes>)
    ensures |r| == |b| && forall i :: 0 <= i < |r| ==> r[i] == [b[i]]
  {
    seq(|b|, i requires 0 <= i < |b| => [b[i]])
  }

  /** What the peer can tell of a message: of an unfragmented type the bytes, of others the message. */
  function AtomsOf(m: Message): seq<Message> {
    if Unfragmented(m.ctype) then AsRecords(m.ctype, Singles(m.data)) else [m]
  }

  function Atoms(ms: seq<Message>): seq<Message> {
    if ms == [] then [] else AtomsOf(ms[0]) + Atoms(ms[1..])
  }

  /** No message of an unfragmented type is empty. */
  predicate Solid(ms: seq<Message>) {
    forall m :: m in ms && Unfragmented(m.ctype) ==> m.data != []
  }

  lemma {:induction false} AtomsAppend(a: seq<Message>, b: seq<Message>)
    ensures Atoms(a + b) == Atoms(a) + Atoms(b)
  {
    hide AtomsOf;
    if a == [] {
      assert a + b == b;
    } else {
      AtomsAppend(a[1..], b);
      assert (a + b)[0] == a[0] && (a + b)[1..] == a[1..] + b;
      assert AtomsOf(a[0]) + (Atoms(a[1..]) + Atoms(b)) == (AtomsOf(a[0]) + Atoms(a[1..])) + Atoms(b);
    }
  }

  /** How bytes of an unfragmented type are cut does not show. */
  lemma {:induction false} AtomsOfPieces(t: nat, pieces: seq<Bytes>)
    requires Unfragmented(t)
    ensures Atoms(AsRecords(t, pieces)) == AsRecords(t, Singles(Flatten(pieces)))
  {
    if pieces != [] {
      AtomsOfPieces(t, pieces[1..]);
      assert AsRecords(t, pieces)[1..] == AsRecords(t, pieces[1..]);
      var b, rest := pieces[0], Flatten(pieces[1..]);
      assert AsRecords(t, Singles(b + rest)) == AsRecords(t, Singles(b)) + AsRecords(t, Singles(rest));
    }
  }

  lemma AtomsEmptyIff(ms: seq<Message>)
    requires Solid(ms)
    ensures Atoms(ms) == [] <==> ms == []
  {
    if ms != [] {
      assert ms[0] in ms;
      assert |AtomsOf(ms[0])| >= 1;
    }
  }

  /** Messages of the other types are told apart one by one. */
  lemma {:induction false} AtomsOfMessages(ms: seq<Message>, got: seq<Message>)
    requires forall m :: m in ms ==> !Unfragmented(m.ctype)
    requires Solid(got) && Atoms(got) == Atoms(ms)
    ensures got == ms
  {
    AtomsEmptyIff(ms);
    AtomsEmptyIff(got);
    if got != [] {
      assert ms[0] in ms && got[0] in got;
      assert Atoms(ms)[0] == ms[0] && Atoms(got)[0] == AtomsOf(got[0])[0];
      assert Atoms(ms)[1..] == Atoms(ms[1..]) && Atoms(got)[1..] == Atoms(got[1..]);
      AtomsOfMessages(ms[1..], got[1..]);
    }
  }

  lemma {:induction false} ReceivePlain(d: Defrag, t: nat, pieces: seq<Bytes>)
    requires Empty(d) && Unfragmented(t)
    ensures ReceiveAll(d, AsRecords(t, pieces)) == (AsRecords(t, pieces), NeedMore(d))
  {
    NothingToReceive(d);
    hide Empty, Proper, ReceiveAll, Take;
    if pieces == [] {
      assert AsRecords(t, pieces) == [];
    } else {
      ReceivePlain(d, t, pieces[1..]);
      var records := AsRecords(t, pieces);
      assert records[1..] == AsRecords(t, pieces[1..]);
      EmptyTakes(d);
      RecvMessageStep(d, records);
      ReceiveAllStep(d, records);
      assert [records[0]] + records[1..] == records;
    }
  }

  lemma EmptyTakes(d: Defrag)
    requires Empty(d)
    ensures Proper(d) && Take(d).0.None?
  {
    NothingToReceive(d);
    ReceiveAllStep(d, []);
    RecvMessageStep(d, []);
  }

  /** m can be received by d: a whole message, or any bytes of an unfragmented type. */
  ghost predicate Receivable(d: Defrag, m: Message)
    requires Proper(d)
  {
    Unfragmented(m.ctype) || (m.ctype in d.priorities && WholeMessage(d.decoders[m.ctype], m.data))
  }

  /** q holds the bytes of the messages ms. */
  ghost predicate Holds(d: Defrag, q: Queue, ms: seq<Message>)
    requires Proper(d) && ProperQueue(q)
  {
    && (q.ctype.None? ==> ms == [])
    && (forall m :: m in ms ==> Receivable(d, m) && Some(m.ctype) == q.ctype)
    && q.buffer == Flatten(Payloads(ms))
  }

  function Payloads(ms: seq<Message>): (r: seq<Bytes>)
    ensures |r| == |ms| && forall i :: 0 <= i < |ms| ==> r[i] == ms[i].data
  {
    seq(|ms|, i requires 0 <= i < |ms| => ms[i].data)
  }

  /** The same messages to the peer, none of them an empty piece. */
  predicate Arrives(got: seq<Message>, ms: seq<Message>) {
    Atoms(got) == Atoms(ms) && Solid(got)
  }

  lemma FlushDelivers(d: Defrag, size: nat, q: Queue, ms: seq<Message>) returns (got: seq<Message>)
    requires Empty(d) && size >= 1 && ProperQueue(q) && Holds(d, q, ms)
    ensures ReceiveAll(d, FlushRecords(size, q)) == (got, NeedMore(d)) && Arrives(got, ms)
  {
    hide ReceiveAll, Empty, Proper, Flatten, WholeMessage, Atoms;
    if q.ctype.None? || ms == [] {
      assert q.buffer == [] by { EmptyFlatten(); }
      NothingToReceive(d);
      got := [];
    } else {
      var t, pieces := q.ctype.value, Chunks(size, q.buffer);
      ChunksCut(size, q.buffer);
      assert ms[0] in ms;
      assert AsRecords(t, Payloads(ms)) == ms;
      if Unfragmented(t) {
        got := AsRecords(t, pieces);
        ReceivePlain(d, t, pieces);
        AtomsOfPieces(t, pieces);
        AtomsOfPieces(t, Payloads(ms));
      } else {
        got := ms;
        ReceiveBatch(d, Batch(t, Payloads(ms), pieces));
      }
    }
  }

  lemma EmptyFlatten()
    ensures Flatten([]) == []
  {
  }

  lemma HoldsMore(d: Defrag, q: Queue, ms: seq<Message>, m: Message)
    requires Proper(d) && ProperQueue(q) && Holds(d, q, ms) && Receivable(d, m) && (q.ctype.None? || q.ctype.value == m.ctype)
    ensures Holds(d, Queue(Some(m.ctype), q.buffer + m.data), ms + [m])
  {
    assert Payloads(ms + [m]) == Payloads(ms) + [m.data];
    FlattenAppend(Payloads(ms), [m.data]);
    assert Flatten([m.data]) == m.data + Flatten([]);
  }

  lemma HoldsOne(d: Defrag, m: Message)
    requires Proper(d) && Receivable(d, m)
    ensures Holds(d, Queue(Some(m.ctype), m.data), [m])
  {
    HoldsMore(d, EMPTY_QUEUE, [], m);
    assert [] + m.data == m.data;
    assert [] + [m] == [m];
  }

  /** The messages that op hands over. */
  function HandedBy(op: SendOp): seq<Message> {
    if op.FlushOp? then [] else [op.m]
  }

  lemma ArrivesAppend(a: seq<Message>, x: seq<Message>, b: seq<Message>, y: seq<Message>)
    requires Arrives(a, x) && Arrives(b, y)
    ensures Arrives(a + b, x + y)
  {
    hide Atoms;
    AtomsAppend(a, b);
    AtomsAppend(x, y);
  }

  lemma NothingArrives()
    ensures Arrives([], [])
  {
  }

  /** One operation of the sender: what it sends is received, the rest is still queued. */
  lemma StepDelivers(d: Defrag, size: nat, q: Queue, ms: seq<Message>, op: SendOp)
    returns (got: seq<Message>, done: seq<Message>, left: seq<Message>)
    requires Empty(d) && size >= 1 && ProperQueue(q) && Holds(d, q, ms) && forall m :: m in HandedBy(op) ==> Receivable(d, m)
    ensures var (records, q') := SendStep(size, q, op);
            && ReceiveAll(d, records) == (got, NeedMore(d))
            && Holds(d, q', left)
            && Arrives(got, done) && done + left == ms + HandedBy(op)
  {
    hide ReceiveAll, Empty, Proper, FlushRecords, Holds, Receivable, Arrives;
    NothingToReceive(d);
    HoldsNothing(d);
    NothingArrives();
    var flushed := FlushDelivers(d, size, q, ms);
    match op
    case FlushOp =>
      got, done, left := flushed, ms, [];
    case QueueOp(m) =>
      if q.ctype.None? || q.ctype.value == m.ctype {
        HoldsMore(d, q, ms, m);
        got, done, left := [], [], ms + [m];
      } else {
        HoldsOne(d, m);
        got, done, left := flushed, ms, [m];
      }
    case SendOp(m) =>
      var (records, q') := Enqueue(size, q, m);
      if q.ctype.None? || q.ctype.value == m.ctype {
        HoldsMore(d, q, ms, m);
        got := FlushDelivers(d, size, q', ms + [m]);
        assert records + FlushRecords(size, q') == FlushRecords(size, q');
      } else {
        HoldsOne(d, m);
        var second := FlushDelivers(d, size, q', [m]);
        ReceiveAppend(d, records, FlushRecords(size, q'));
        ArrivesAppend(flushed, ms, second, [m]);
        got := flushed + second;
      }
      done, left := ms + [m], [];
  }

  lemma HoldsNothing(d: Defrag)
    requires Proper(d)
    ensures Holds(d, EMPTY_QUEUE, [])
  {
  }

  lemma {:induction false} RunDelivers(d: Defrag, size: nat, q: Queue, ms: seq<Message>, ops: seq<SendOp>) returns (got: seq<Message>)
    requires Empty(d) && size >= 1 && ProperQueue(q) && Holds(d, q, ms) && forall m :: m in Handed(ops) ==> Receivable(d, m)
    ensures var (records, q') := SendRun(size, q, ops);
            ReceiveAll(d, records + FlushRecords(size, q')) == (got, NeedMore(d)) && Arrives(got, ms + Handed(ops))
    decreases |ops|
  {
    hide ReceiveAll, Empty, Proper, FlushRecords, Holds, Receivable, SendStep, Arrives;
    if ops == [] {
      got := FlushDelivers(d, size, q, ms);
      assert [] + FlushRecords(size, q) == FlushRecords(size, q);
      assert ms + Handed(ops) == ms;
    } else {
      assert Handed(ops) == HandedBy(ops[0]) + Handed(ops[1..]);
      var first, done, left := StepDelivers(d, size, q, ms, ops[0]);
      var (records, q') := SendStep(size, q, ops[0]);
      var second := RunDelivers(d, size, q', left, ops[1..]);
      var (later, q'') := SendRun(size, q', ops[1..]);
      ReceiveAppend(d, records, later + FlushRecords(size, q''));
      assert records + (later + FlushRecords(size, q'')) == (records + later) + FlushRecords(size, q'');
      got := first + second;
      var more := Handed(ops[1..]);
      ArrivesAppend(first, done, second, left + more);
      assert done + (left + more) == (done + left) + more;
      assert (ms + HandedBy(ops[0])) + more == ms + (HandedBy(ops[0]) + more);
    }
  }

  /** End to end: whatever is queued, flushed and sent in whatever order, and whatever the record size, after a
      final flush the peer has received what was handed over, in order: the very messages of the types that
      are made of messages, and in between the very bytes of the others. */
  lemma EndToEnd(d: Defrag, size: nat, ops: seq<SendOp>)
    requires Empty(d) && size >= 1 && forall m :: m in Handed(ops) ==> Receivable(d, m)
    ensures var (records, q) := SendRun(size, EMPTY_QUEUE, ops);
            var (got, end) := ReceiveAll(d, records + FlushRecords(size, q));
            Arrives(got, Handed(ops)) && end == NeedMore(d)
  {
    hide ReceiveAll, Proper, FlushRecords, Receivable, SendStep, Arrives;
    HoldsNothing(d);
    var got := RunDelivers(d, size, EMPTY_QUEUE, [], ops);
    assert [] + Handed(ops) == Handed(ops);
  }

  /** Without messages of the other types, it is the same list of messages. */
  lemma MessagesArriveWhole(d: Defrag, size: nat, ops: seq<SendOp>)
    requires Empty(d) && size >= 1 && forall m :: m in Handed(ops) ==> Receivable(d, m) && !Unfragmented(m.ctype)
    ensures var (records, q) := SendRun(size, EMPTY_QUEUE, ops);
            ReceiveAll(d, records + FlushRecords(size, q)) == (Handed(ops), NeedMore(d))
  {
    hide ReceiveAll, Empty, Proper, FlushRecords, Receivable, SendStep, Atoms, Solid;
    EndToEnd(d, size, ops);
    var (records, q) := SendRun(size, EMPTY_QUEUE, ops);
    AtomsOfMessages(Handed(ops), ReceiveAll(d, records + FlushRecords(size, q)).0);
  }

  /** The message socket of the original, over a record layer seen only by the plaintext records that it
      sends and receives. */
  class MessageSocket {
    const defragmenter: Defragmenter
    var sendBuffer: Bytes
    var sendBufferType: Option<nat>
    var recordSize: nat
    var sent: seq<Message>
    var incoming: seq<Message>

    ghost function Value(): Queue
      reads this
    {
      Queue(sendBufferType, sendBuffer)
    }

    ghost predicate Valid()
      reads this, defragmenter
    {
      defragmenter.Valid() && ProperQueue(Value()) && recordSize >= 1
    }

    constructor (defragmenter: Defragmenter, incoming: seq<Message>)
      requires defragmenter.Valid()
      ensures Valid() && this.defragmenter == defragmenter
      ensures Value() == EMPTY_QUEUE && recordSize == 16384 && sent == [] && this.incoming == incoming
    {
      this.defragmenter := defragmenter;
      sendBuffer, sendBufferType, recordSize := [], None, 16384;
      sent, this.incoming := [], incoming;
    }

    method Flush()
      requires Valid()
      modifies this
      ensures Valid() && recordSize == old(recordSize) && incoming == old(incoming)
      ensures Value() == EMPTY_QUEUE && sent == old(sent) + FlushRecords(recordSize, old(Value()))
    {
      ghost var pieces: seq<Bytes> := [];
      while |sendBuffer| > 0
        invariant Valid() && recordSize == old(recordSize) && incoming == old(incoming)
        invariant sendBufferType == old(sendBufferType)
        invariant sendBufferType.None? ==> pieces == []
        invariant sent == old(sent) + (if sendBufferType.None? then [] else AsRecords(sendBufferType.value, pieces))
        invariant Chunks(recordSize, old(sendBuffer)) == pieces + Chunks(recordSize, sendBuffer)
        decreases |sendBuffer|
      {
        ChunksFirst(recordSize, sendBuffer, pieces);
        var size := if recordSize <= |sendBuffer| then recordSize else |sendBuffer|;
        var recordPayload := sendBuffer[..size];
        sent := sent + [Message(sendBufferType.value, recordPayload)];
        sendBuffer := sendBuffer[size..];
        pieces := pieces + [recordPayload];
      }
      sendBufferType := None;
    }

    method QueueMessage(m: Message)
      requires Valid()
      modifies this
      ensures Valid() && recordSize == old(recordSize) && incoming == old(incoming)
      ensures var (records, q) := Enqueue(recordSize, old(Value()), m);
              Value() == q && sent == old(sent) + records
    {
      if sendBufferType.None? {
        sendBufferType := Some(m.ctype);
      }
      if sendBufferType.value == m.ctype {
        sendBuffer := sendBuffer + m.data;
        return;
      }
      Flush();
      sendBufferType := Some(m.ctype);
      sendBuffer := sendBuffer + m.data;
    }

    method SendMessage(m: Message)
      requires Valid()
      modifies this
      ensures Valid() && recordSize == old(recordSize) && incoming == old(incoming)
      ensures var (records, q) := SendStep(recordSize, old(Value()), SendOp(m));
              Value() == q && sent == old(sent) + records
    {
      hide Chunks, Flatten;
      QueueMessage(m);
      ghost var q, records := Value(), Enqueue(recordSize, old(Value()), m).0;
      assert sent == old(sent) + records;
      Flush();
      assert (old(sent) + records) + FlushRecords(recordSize, q) == old(sent) + (records + FlushRecords(recordSize, q));
    }

    /** The next message, or None where the original would wait for the network. */
    method RecvMessageBlocking() returns (r: Result<Option<Message>>)
      requires Valid()
      modifies this, defragmenter
      ensures Valid() && Value() == old(Value()) && recordSize == old(recordSize) && sent == old(sent)
      ensures defragmenter.Value() == RecvMessage(old(defragmenter.Value()), old(incoming)).d
      ensures match RecvMessage(old(defragmenter.Value()), old(incoming))
              case Got(m, _, rest) => r == Ok(Some(m)) && incoming == rest
              case NeedMore(_) => r == Ok(None) && incoming == []
              case Failed(e, _, rest) => r == Err(e) && incoming == rest
    {
      hide Take, CompleteLength, Chunks, Flatten, RecvMessage, Append, Proper;
      ghost var goal := RecvMessage(defragmenter.Value(), incoming);
      while true
        invariant Valid() && Value() == old(Value()) && recordSize == old(recordSize) && sent == old(sent)
        invariant RecvMessage(defragmenter.Value(), incoming) == goal
        decreases |incoming|
      {
        RecvMessageStep(defragmenter.Value(), incoming);
        var m := defragmenter.GetMessage();
        if m.Some? { return Ok(m); }
        if incoming == [] { return Ok(None); }
        var record := incoming[0];
        incoming := incoming[1..];
        if Unfragmented(record.ctype) { return Ok(Some(record)); }
        var added := defragmenter.AddData(record.ctype, record.data);
        if added.Err? { return Err(added.error); }
      }
    }
  }
}
