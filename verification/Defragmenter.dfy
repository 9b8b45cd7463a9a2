/** Demultiplexing of messages that arrive in pieces. */
module Defragmentation {
  import opened Results
  import opened ByteStrings

  /** How the length of a message of some type is found. */
  datatype Decoder = StaticSize(size: nat) | DynamicSize(sizeOffset: nat, sizeOfSize: nat)

  /** The length of the message at the start of data, once all of it is there. */
  function CompleteLength(d: Decoder, data: Bytes): (r: Option<nat>)
    ensures r.Some? ==> r.value <= |data|
    ensures r.Some? && ProperDecoder(d) ==> r.value >= 1
  {
    match d
    case StaticSize(size) => if |data| < size then None else Some(size)
    case DynamicSize(offset, n) =>
      if |data| < offset + n then None
      else
        var payload := FromBE(data[offset..offset + n]);
        if |data| - (offset + n) < payload then None else Some(offset + n + payload)
  }

  /** Sizes that the add methods accept: a complete message has at least one byte. */
  predicate ProperDecoder(d: Decoder) {
    match d
    case StaticSize(size) => size >= 1
    case DynamicSize(_, n) => n >= 1
  }

  /** The contents of a defragmenter. */
  datatype Defrag = Defrag(priorities: seq<nat>, buffers: map<nat, Bytes>, decoders: map<nat, Decoder>)

  ghost predicate Proper(d: Defrag) {
    && (forall i, j :: 0 <= i < j < |d.priorities| ==> d.priorities[i] != d.priorities[j])
    && (forall t :: t in d.priorities <==> t in d.buffers)
    && (forall t :: t in d.priorities <==> t in d.decoders)
    && (forall t :: t in d.decoders ==> ProperDecoder(d.decoders[t]))
  }

  const EMPTY_DEFRAG := Defrag([], map[], map[])

  function Register(d: Defrag, t: nat, decoder: Decoder): Defrag {
    Defrag(d.priorities + [t], d.buffers[t := []], d.decoders[t := decoder])
  }

  function Append(d: Defrag, t: nat, data: Bytes): (r: Result<Defrag>)
    requires Proper(d)
    ensures r.Ok? ==> Proper(r.value) && r.value.priorities == d.priorities && r.value.decoders == d.decoders
  {
    if t !in d.priorities then Err(ValueError)
    else Ok(d.(buffers := d.buffers[t := d.buffers[t] + data]))
  }

  /** A message as it is handed on: its content type and its bytes. */
  datatype Message = Message(ctype: nat, data: Bytes)

  function MessageAt(d: Defrag, t: nat): Option<nat>
    requires Proper(d) && t in d.priorities
  {
    CompleteLength(d.decoders[t], d.buffers[t])
  }

  /** The first type from index i on, in order of priority, that has a complete message. */
  function FirstReady(d: Defrag, i: nat): (r: Option<nat>)
    requires Proper(d) && i <= |d.priorities|
    ensures r.Some? ==> r.value in d.priorities && MessageAt(d, r.value).Some?
    ensures r.None? ==> forall j :: i <= j < |d.priorities| ==> MessageAt(d, d.priorities[j]).None?
    decreases |d.priorities| - i
  {
    if i == |d.priorities| then None
    else if MessageAt(d, d.priorities[i]).Some? then Some(d.priorities[i])
    else FirstReady(d, i + 1)
  }

  /** Extract the most urgent complete message. */
  function Take(d: Defrag): (r: (Option<Message>, Defrag))
    requires Proper(d)
    ensures Proper(r.1) && r.1.priorities == d.priorities && r.1.decoders == d.decoders
  {
    match FirstReady(d, 0)
    case None => (None, d)
    case Some(t) =>
      var n := MessageAt(d, t).value;
      (Some(Message(t, d.buffers[t][..n])), d.(buffers := d.buffers[t := d.buffers[t][n..]]))
  }

  /** What is extracted comes from the first type, in the order of registration, that has a complete message. */
  lemma {:induction false} FirstReadyIsUrgent(d: Defrag, i: nat) returns (j: nat)
    requires Proper(d) && i <= |d.priorities| && FirstReady(d, i).Some?
    ensures i <= j < |d.priorities| && FirstReady(d, i) == Some(d.priorities[j]) && MessageAt(d, d.priorities[j]).Some?
    ensures forall l :: i <= l < j ==> MessageAt(d, d.priorities[l]).None?
    decreases |d.priorities| - i
  {
    if MessageAt(d, d.priorities[i]).Some? {
      j := i;
    } else {
      j := FirstReadyIsUrgent(d, i + 1);
    }
  }

  /** The defragmenter as the original has it. */
  class Defragmenter {
    var priorities: seq<nat>
    var buffers: map<nat, Bytes>
    var decoders: map<nat, Decoder>

    function Value(): Defrag
      reads this
    {
      Defrag(priorities, buffers, decoders)
    }

    ghost predicate Valid()
      reads this
    {
      Proper(Value())
    }

    constructor ()
      ensures Valid() && Value() == EMPTY_DEFRAG
    {
      priorities, buffers, decoders := [], map[], map[];
    }

    method AddStaticSize(t: nat, size: int) returns (r: Result<()>)
      requires Valid()
      modifies this
      ensures Valid()
      ensures r.Ok? <==> t !in old(priorities) && size >= 1
      ensures r.Ok? ==> Value() == Register(old(Value()), t, StaticSize(size))
      ensures r.Err? ==> r == Err(ValueError) && Value() == old(Value())
    {
      if t in priorities || size < 1 { return Err(ValueError); }
      priorities := priorities + [t];
      buffers := buffers[t := []];
      decoders := decoders[t := StaticSize(size)];
      return Ok(());
    }

    method AddDynamicSize(t: nat, sizeOffset: int, sizeOfSize: int) returns (r: Result<()>)
      requires Valid()
      modifies this
      ensures Valid()
      ensures r.Ok? <==> t !in old(priorities) && sizeOfSize >= 1 && sizeOffset >= 0
      ensures r.Ok? ==> Value() == Register(old(Value()), t, DynamicSize(sizeOffset, sizeOfSize))
      ensures r.Err? ==> r == Err(ValueError) && Value() == old(Value())
    {
      if t in priorities || sizeOfSize < 1 || sizeOffset < 0 { return Err(ValueError); }
      priorities := priorities + [t];
      buffers := buffers[t := []];
      decoders := decoders[t := DynamicSize(sizeOffset, sizeOfSize)];
      return Ok(());
    }

    method AddData(t: nat, data: Bytes) returns (r: Result<()>)
      requires Valid()
      modifies this
      ensures Valid()
      ensures match Append(old(Value()), t, data)
              case Err(e) => r == Err(e) && Value() == old(Value())
              case Ok(d) => r == Ok(()) && Value() == d
    {
      if t !in priorities { return Err(ValueError); }
      buffers := buffers[t := buffers[t] + data];
      return Ok(());
    }

    method GetMessage() returns (r: Option<Message>)
      requires Valid()
      modifies this
      ensures Valid() && (r, Value()) == Take(old(Value()))
    {
      var i := 0;
      while i < |priorities|
        invariant 0 <= i <= |priorities| && Value() == old(Value()) && Valid()
        invariant FirstReady(Value(), 0) == FirstReady(Value(), i)
      {
        var t := priorities[i];
        var buf := buffers[t];
        var length := CompleteLength(decoders[t], buf);
        if length.Some? {
          buffers := buffers[t := buf[length.value..]];
          return Some(Message(t, buf[..length.value]));
        }
        i := i + 1;
      }
      return None;
    }

    method ClearBuffers()
      requires Valid()
      modifies this
      ensures Valid() && priorities == old(priorities) && decoders == old(decoders)
      ensures forall t :: t in buffers ==> buffers[t] == []
    {
      buffers := map t | t in buffers :: [];
    }

    method IsEmpty() returns (empty: bool)
      requires Valid()
      ensures empty <==> forall t :: t in buffers ==> buffers[t] == []
    {
      empty := forall t | t in buffers :: buffers[t] == [];
    }
  }

  //
  // One type: splitting a stream into messages
  //

  /** All complete messages at the start of a stream, and what is left. */
  function Split(d: Decoder, data: Bytes): (seq<Bytes>, Bytes)
    requires ProperDecoder(d)
    decreases |data|
  {
    match CompleteLength(d, data)
    case None => ([], data)
    case Some(n) =>
      var (later, rest) := Split(d, data[n..]);
      ([data[..n]] + later, rest)
  }

  /** Splitting loses and invents nothing. */
  lemma {:induction false} SplitConserves(d: Decoder, data: Bytes)
    requires ProperDecoder(d)
    ensures Flatten(Split(d, data).0) + Split(d, data).1 == data
    decreases |data|
  {
    match CompleteLength(d, data)
    case None =>
    case Some(n) =>
      SplitConserves(d, data[n..]);
      var (later, rest) := Split(d, data[n..]);
      assert ([data[..n]] + later)[1..] == later;
      assert data == data[..n] + data[n..];
  }

  lemma CompleteStaysComplete(d: Decoder, a: Bytes, b: Bytes)
    requires ProperDecoder(d) && CompleteLength(d, a).Some?
    ensures CompleteLength(d, a + b) == CompleteLength(d, a)
  {
    if d.DynamicSize? {
      var i, j := d.sizeOffset, d.sizeOffset + d.sizeOfSize;
      assert (a + b)[i..j] == a[i..j];
    }
  }

  /** The results of splitting, with messages put in front. */
  function Before(first: seq<Bytes>, split: (seq<Bytes>, Bytes)): (seq<Bytes>, Bytes) {
    (first + split.0, split.1)
  }

  lemma SplitFirst(d: Decoder, data: Bytes, n: nat)
    requires ProperDecoder(d) && CompleteLength(d, data) == Some(n)
    ensures n <= |data| && Split(d, data) == Before([data[..n]], Split(d, data[n..]))
  {
  }

  lemma BeforeBefore(first: seq<Bytes>, second: seq<Bytes>, split: (seq<Bytes>, Bytes))
    ensures Before(first, Before(second, split)) == Before(first + second, split)
    ensures Before([], split) == split
  {
    assert first + (second + split.0) == (first + second) + split.0;
    assert [] + split.0 == split.0;
  }

  /** Splitting may stop anywhere and go on when more has arrived: the messages are the same. */
  lemma {:induction false} SplitAppend(d: Decoder, a: Bytes, b: Bytes)
    requires ProperDecoder(d)
    ensures Split(d, a + b) == Before(Split(d, a).0, Split(d, Split(d, a).1 + b))
    decreases |a|
  {
    hide CompleteLength;
    match CompleteLength(d, a)
    case None =>
      BeforeBefore([], [], Split(d, a + b));
    case Some(n) =>
      CompleteStaysComplete(d, a, b);
      SplitAppend(d, a[n..], b);
      assert (a + b)[..n] == a[..n] && (a + b)[n..] == a[n..] + b;
      SplitFirst(d, a + b, n);
      SplitFirst(d, a, n);
      BeforeBefore([a[..n]], Split(d, a[n..]).0, Split(d, Split(d, a).1 + b));
  }

  /** m is exactly one message. */
  predicate WholeMessage(d: Decoder, m: Bytes) {
    CompleteLength(d, m) == Some(|m|)
  }

  /** A whole message has the static size, or as many bytes behind its length field as that says. */
  lemma WholeMessageIff(d: Decoder, m: Bytes)
    requires ProperDecoder(d)
    ensures WholeMessage(d, m) <==>
              match d
              case StaticSize(size) => |m| == size
              case DynamicSize(offset, n) => |m| >= offset + n && FromBE(m[offset..offset + n]) == |m| - offset - n
  {
    hide FromBE;
  }

  /** The messages of a stream are the messages that were put into it. */
  lemma {:induction false} SplitMessages(d: Decoder, messages: seq<Bytes>)
    requires ProperDecoder(d) && forall m :: m in messages ==> WholeMessage(d, m)
    ensures Split(d, Flatten(messages)) == (messages, [])
  {
    if messages == [] {
      assert CompleteLength(d, []).None?;
    } else {
      var m, rest := messages[0], Flatten(messages[1..]);
      assert WholeMessage(d, m);
      CompleteStaysComplete(d, m, rest);
      SplitMessages(d, messages[1..]);
      assert (m + rest)[..|m|] == m && (m + rest)[|m|..] == rest;
      assert messages == [m] + messages[1..];
    }
  }

  //
  // Runs of a defragmenter
  //

  datatype Op = Add(ctype: nat, data: Bytes) | Get

  /** What a run delivers, and the contents it ends with; data of an unknown type is refused. */
  function Run(d: Defrag, ops: seq<Op>): (r: (seq<Message>, Defrag))
    requires Proper(d)
    ensures Proper(r.1) && r.1.priorities == d.priorities && r.1.decoders == d.decoders
    decreases |ops|
  {
    if ops == [] then ([], d)
    else
      match ops[0]
      case Add(t, data) =>
        var a := Append(d, t, data);
        Run(if a.Ok? then a.value else d, ops[1..])
      case Get =>
        var (m, d') := Take(d);
        var (later, d'') := Run(d', ops[1..]);
        (if m.Some? then [m.value] + later else later, d'')
  }

  /** The messages of type t among those delivered. */
  function OfType(t: nat, messages: seq<Message>): seq<Bytes> {
    if messages == [] then []
    else if messages[0].ctype == t then [messages[0].data] + OfType(t, messages[1..])
    else OfType(t, messages[1..])
  }

  /** The bytes of type t that a run adds. */
  function Added(t: nat, ops: seq<Op>): Bytes {
    if ops == [] then []
    else if ops[0].Add? && ops[0].ctype == t then ops[0].data + Added(t, ops[1..])
    else Added(t, ops[1..])
  }

  lemma ProperAt(d: Defrag, t: nat)
    requires Proper(d) && t in d.priorities
    ensures t in d.buffers && t in d.decoders && ProperDecoder(d.decoders[t])
  {
  }

  lemma AppendAt(d: Defrag, t: nat, t': nat, data: Bytes)
    requires Proper(d) && t in d.priorities
    ensures var a := Append(d, t', data);
            var next := if a.Ok? then a.value else d;
            next.buffers[t] == if t == t' then d.buffers[t] + data else d.buffers[t]
  {
  }

  lemma TakeOfType(d: Defrag, t: nat)
    requires Proper(d) && t in d.priorities
    ensures var (m, d') := Take(d);
            var buf := d.buffers[t];
            if m.Some? && m.value.ctype == t then
              var n := |m.value.data|;
              && CompleteLength(d.decoders[t], buf) == Some(n)
              && m.value.data == buf[..n] && d'.buffers[t] == buf[n..]
            else d'.buffers[t] == buf
  {
    hide CompleteLength;
  }

  /** Whatever the interleaving of additions and extractions, the messages of a type come out as they would
      from the whole stream at once. */
  lemma {:induction false} RunDeliversStream(d: Defrag, ops: seq<Op>, t: nat)
    requires Proper(d) && t in d.priorities
    ensures var (out, d') := Run(d, ops);
            Split(d.decoders[t], d.buffers[t] + Added(t, ops))
            == Before(OfType(t, out), Split(d.decoders[t], d'.buffers[t]))
    decreases |ops|
  {
    ProperAt(d, t);
    ProperAt(Run(d, ops).1, t);
    hide CompleteLength, Take, Split, Proper, Append;
    if ops == [] {
      assert d.buffers[t] + Added(t, ops) == d.buffers[t];
      BeforeBefore([], [], Split(d.decoders[t], d.buffers[t]));
    } else if ops[0].Add? {
      var a := Append(d, ops[0].ctype, ops[0].data);
      var next := if a.Ok? then a.value else d;
      RunDeliversStream(next, ops[1..], t);
      StreamAfterAdd(d, ops, t, next);
    } else {
      RunDeliversStream(Take(d).1, ops[1..], t);
      StreamAfterTake(d, ops, t);
    }
  }

  lemma StreamAfterAdd(d: Defrag, ops: seq<Op>, t: nat, next: Defrag)
    requires Proper(d) && Proper(next) && t in d.priorities && ops != [] && ops[0].Add?
    requires var a := Append(d, ops[0].ctype, ops[0].data); next == if a.Ok? then a.value else d
    ensures t in next.buffers && next.decoders == d.decoders && Run(d, ops) == Run(next, ops[1..])
    ensures next.buffers[t] + Added(t, ops[1..]) == d.buffers[t] + Added(t, ops)
  {
    ProperAt(d, t);
    AppendAt(d, t, ops[0].ctype, ops[0].data);
    ProperAt(next, t);
    hide CompleteLength, Take, Split, Proper, Append;
    AddedFirst(t, ops, d.buffers[t]);
  }

  lemma AddedFirst(t: nat, ops: seq<Op>, buf: Bytes)
    requires ops != [] && ops[0].Add?
    ensures buf + Added(t, ops)
         == (if t == ops[0].ctype then buf + ops[0].data else buf) + Added(t, ops[1..])
  {
    if t == ops[0].ctype {
      assert buf + (ops[0].data + Added(t, ops[1..])) == (buf + ops[0].data) + Added(t, ops[1..]);
    }
  }

  lemma StreamAfterTake(d: Defrag, ops: seq<Op>, t: nat)
    requires Proper(d) && t in d.priorities && ops != [] && ops[0].Get?
    requires var next := Take(d).1;
             Split(next.decoders[t], next.buffers[t] + Added(t, ops[1..]))
             == Before(OfType(t, Run(next, ops[1..]).0), Split(next.decoders[t], Run(next, ops[1..]).1.buffers[t]))
    ensures var (out, d') := Run(d, ops);
            Split(d.decoders[t], d.buffers[t] + Added(t, ops))
            == Before(OfType(t, out), Split(d.decoders[t], d'.buffers[t]))
  {
    ProperAt(d, t);
    ProperAt(Take(d).1, t);
    ProperAt(Run(d, ops).1, t);
    hide CompleteLength, Take, Split, Proper, Append;
    var (m, next) := Take(d);
    TakeOfType(d, t);
    var (later, d') := Run(next, ops[1..]);
    if m.Some? && m.value.ctype == t {
      DeliveredFirst(d.decoders[t], d.buffers[t], Added(t, ops), |m.value.data|);
      assert Run(d, ops).0 == [m.value] + later;
      assert ([m.value] + later)[1..] == later;
      BeforeBefore([m.value.data], OfType(t, later), Split(d.decoders[t], d'.buffers[t]));
    } else if m.Some? {
      assert ([m.value] + later)[1..] == later;
    }
  }

  lemma DeliveredFirst(decoder: Decoder, buf: Bytes, added: Bytes, n: nat)
    requires ProperDecoder(decoder) && CompleteLength(decoder, buf) == Some(n)
    ensures n <= |buf|
    ensures Split(decoder, buf + added) == Before([buf[..n]], Split(decoder, buf[n..] + added))
  {
    CompleteStaysComplete(decoder, buf, added);
    assert (buf + added)[..n] == buf[..n] && (buf + added)[n..] == buf[n..] + added;
    SplitFirst(decoder, buf + added, n);
  }

  /** Per type, the bytes extracted and the bytes still buffered are the bytes added. */
  lemma RunConservesBytes(d: Defrag, ops: seq<Op>, t: nat)
    requires Proper(d) && t in d.priorities
    ensures var (out, d') := Run(d, ops);
            Flatten(OfType(t, out)) + d'.buffers[t] == d.buffers[t] + Added(t, ops)
  {
    ProperAt(d, t);
    ProperAt(Run(d, ops).1, t);
    hide *;
    RunDeliversStream(d, ops, t);
    SplitBytes(d.decoders[t], d.buffers[t] + Added(t, ops), OfType(t, Run(d, ops).0), Run(d, ops).1.buffers[t]);
  }

  lemma SplitBytes(decoder: Decoder, stream: Bytes, first: seq<Bytes>, buf: Bytes)
    requires ProperDecoder(decoder) && Split(decoder, stream) == Before(first, Split(decoder, buf))
    ensures Flatten(first) + buf == stream
  {
    hide Split, Flatten;
    var left := Split(decoder, buf);
    SplitConserves(decoder, stream);
    SplitConserves(decoder, buf);
    FlattenAppend(first, left.0);
    assert Flatten(first) + (Flatten(left.0) + left.1) == (Flatten(first) + Flatten(left.0)) + left.1;
  }
}
