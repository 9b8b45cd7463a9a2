/** The state machine that drives TLS operations from socket events, with callbacks that may start new ones. */
module AsyncStateMachines {
  import opened Results
  import opened ByteStrings

  /** What a generator may yield: nothing, a number, or a buffer. */
  datatype Val = Nothing | Number(n: int) | Buffer(b: Bytes)

  datatype Outcome = Yields(v: Val) | Stops | Raises

  /** A generator is known by what it will do, call by call; afterwards it only stops. */
  type Generator = seq<Outcome>

  function Next(g: Generator): (Outcome, Generator) {
    if g == [] then (Stops, []) else (g[0], if g[0].Yields? then g[1..] else [])
  }

  datatype Machine = Machine(
    result: Val, handshaker: Option<Generator>, closer: Option<Generator>, reader: Option<Generator>, writer: Option<Generator>)

  const CLEARED := Machine(Nothing, None, None, None, None)

  predicate Waits(v: Val) {
    v == Number(0) || v == Number(1)
  }

  function ActiveOps(s: Machine): nat {
    (if s.handshaker.Some? then 1 else 0) + (if s.closer.Some? then 1 else 0)
      + (if s.reader.Some? then 1 else 0) + (if s.writer.Some? then 1 else 0)
  }

  /** _checkAssert */
  predicate Check(s: Machine, maxActive: nat) {
    var active := ActiveOps(s);
    && (if s.result == Nothing then active == 0 else if Waits(s.result) then active == 1 else false)
    && active <= maxActive
  }

  /** At most one operation is active, and the result tells what it waits for, or that there is none. */
  predicate Clean(s: Machine) {
    && ActiveOps(s) <= 1
    && (s.result == Nothing <==> ActiveOps(s) == 0)
    && (s.result != Nothing ==> Waits(s.result))
  }

  /** The run-time checker decides the invariant exactly; with no operation allowed, that none is active. */
  lemma CheckIffClean(s: Machine)
    ensures Check(s, 1) <==> Clean(s)
    ensures Check(s, 0) <==> Clean(s) && ActiveOps(s) == 0
  {
  }

  datatype Op = InRead(started: Generator) | InWrite | SetHandshake(g: Generator) | SetClose(g: Generator) | SetWrite(g: Generator)

  /** What a callback does: it returns or raises, or first calls an operation of the machine, during which
      another callback may run, and whose exception it may catch. */
  datatype Reaction = Finish(raises: bool) | Call(op: Op, inside: Reaction, catches: bool, rest: Reaction)

  /** A callback runs from a state to a state and an exception, if any. */
  function React(s: Machine, r: Reaction): (Machine, Option<Error>)
    decreases r, 0
  {
    match r
    case Finish(raises) => (s, if raises then Some(RuntimeError) else None)
    case Call(op, inside, catches, rest) =>
      var (s', e) := Perform(s, op, inside);
      if e.Some? && !catches then (s', e) else React(s', rest)
  }

  /** Handshake and close: a generator that stops has finished, which is reported. */
  function DoHandshake(s: Machine, r: Reaction): (Machine, Option<Error>)
    requires s.handshaker.Some?
    decreases r, 1
  {
    var (o, g) := Next(s.handshaker.value);
    match o
    case Yields(v) => (s.(result := v, handshaker := Some(g)), None)
    case Stops => React(s.(result := Nothing, handshaker := None), r)
    case Raises => (s.(handshaker := Some(g)), Some(RuntimeError))
  }

  function DoClose(s: Machine, r: Reaction): (Machine, Option<Error>)
    requires s.closer.Some?
    decreases r, 1
  {
    var (o, g) := Next(s.closer.value);
    match o
    case Yields(v) => (s.(result := v, closer := Some(g)), None)
    case Stops => React(s.(result := Nothing, closer := None), r)
    case Raises => (s.(closer := Some(g)), Some(RuntimeError))
  }

  /** Reading: whatever is not a wait is what has been read; a generator that just stops is an error. */
  function DoRead(s: Machine, r: Reaction): (Machine, Option<Error>)
    requires s.reader.Some?
    decreases r, 1
  {
    var (o, g) := Next(s.reader.value);
    match o
    case Yields(v) =>
      if Waits(v) then (s.(result := v, reader := Some(g)), None) else React(s.(result := Nothing, reader := None), r)
    case Stops => (s.(reader := Some(g)), Some(StopIteration))
    case Raises => (s.(reader := Some(g)), Some(RuntimeError))
  }

  /** Writing: finishing is not reported. */
  function DoWrite(s: Machine): (Machine, Option<Error>)
    requires s.writer.Some?
  {
    var (o, g) := Next(s.writer.value);
    match o
    case Yields(v) => (s.(result := v, writer := Some(g)), None)
    case Stops => (s.(result := Nothing, writer := None), None)
    case Raises => (s.(writer := Some(g)), Some(RuntimeError))
  }

  /** The bodies of the event and set methods, inside their try. */
  function Attempt(s: Machine, op: Op, r: Reaction): (Machine, Option<Error>)
    decreases r, 2
  {
    if !Check(s, if op.InRead? || op.InWrite? then 1 else 0) then (s, Some(AssertionError))
    else
      if op.SetHandshake? then DoHandshake(s.(handshaker := Some(op.g)), r)
      else if op.SetClose? then DoClose(s.(closer := Some(op.g)), r)
      else if op.SetWrite? then DoWrite(s.(writer := Some(op.g)))
      else if s.handshaker.Some? then DoHandshake(s, r)
      else if s.closer.Some? then DoClose(s, r)
      else if s.reader.Some? then DoRead(s, r)
      else if s.writer.Some? then DoWrite(s)
      else if op.InRead? then DoRead(s.(reader := Some(op.started)), r)
      else React(s, r)
  }

  /** Any exception clears the machine and goes on to the caller. */
  function Perform(s: Machine, op: Op, r: Reaction): (Machine, Option<Error>)
    decreases r, 3
  {
    var (s', e) := Attempt(s, op, r);
    if e.Some? then (CLEARED, e) else (s', None)
  }

  /** Progress: while an operation waits, either event takes its generator one step on and touches nothing else. */
  lemma EventsDriveOperation(s: Machine, op: Op, r: Reaction, g: Generator, v: Val)
    requires (op.InRead? || op.InWrite?) && Waits(s.result) && ActiveOps(s) == 1
    requires Waits(v) && g != [] && g[0] == Yields(v)
    ensures s.handshaker == Some(g) ==> Perform(s, op, r) == (s.(result := v, handshaker := Some(g[1..])), None)
    ensures s.closer == Some(g) ==> Perform(s, op, r) == (s.(result := v, closer := Some(g[1..])), None)
    ensures s.reader == Some(g) ==> Perform(s, op, r) == (s.(result := v, reader := Some(g[1..])), None)
    ensures s.writer == Some(g) ==> Perform(s, op, r) == (s.(result := v, writer := Some(g[1..])), None)
  {
    hide React;
    assert Check(s, 1);
    if s.handshaker == Some(g) {
      assert Attempt(s, op, r) == DoHandshake(s, r);
    } else if s.closer == Some(g) {
      assert Attempt(s, op, r) == DoClose(s, r);
    } else if s.reader == Some(g) {
      assert Attempt(s, op, r) == DoRead(s, r);
    } else if s.writer == Some(g) {
      assert Attempt(s, op, r) == DoWrite(s);
    }
  }

  /** A set method starts the operation of its name, and a readable socket starts reading, with the first step. */
  lemma OperationsStart(r: Reaction, g: Generator, v: Val)
    requires Waits(v) && g != [] && g[0] == Yields(v)
    ensures Perform(CLEARED, SetHandshake(g), r) == (CLEARED.(result := v, handshaker := Some(g[1..])), None)
    ensures Perform(CLEARED, SetClose(g), r) == (CLEARED.(result := v, closer := Some(g[1..])), None)
    ensures Perform(CLEARED, SetWrite(g), r) == (CLEARED.(result := v, writer := Some(g[1..])), None)
    ensures Perform(CLEARED, InRead(g), r) == (CLEARED.(result := v, reader := Some(g[1..])), None)
  {
    hide React;
    assert Attempt(CLEARED, SetHandshake(g), r) == DoHandshake(CLEARED.(handshaker := Some(g)), r);
    assert Attempt(CLEARED, SetClose(g), r) == DoClose(CLEARED.(closer := Some(g)), r);
    assert Attempt(CLEARED, SetWrite(g), r) == DoWrite(CLEARED.(writer := Some(g)));
    assert Attempt(CLEARED, InRead(g), r) == DoRead(CLEARED.(reader := Some(g)), r);
  }

  //
  // Honest generators
  //

  /** Handshake, close and write generators yield nothing but waits. */
  predicate Honest(g: Generator) {
    forall i :: 0 <= i < |g| && g[i].Yields? ==> Waits(g[i].v)
  }

  predicate HonestOption(o: Option<Generator>) {
    o.Some? ==> Honest(o.value)
  }

  predicate HonestMachine(s: Machine) {
    HonestOption(s.handshaker) && HonestOption(s.closer) && HonestOption(s.writer)
  }

  predicate HonestOp(op: Op) {
    op.SetHandshake? || op.SetClose? || op.SetWrite? ==> Honest(op.g)
  }

  predicate HonestReaction(r: Reaction) {
    r.Call? ==> HonestOp(r.op) && HonestReaction(r.inside) && HonestReaction(r.rest)
  }

  predicate Fine(s: Machine) {
    Clean(s) && HonestMachine(s)
  }

  /** Whatever callbacks do, and whatever is raised: a callback leaves the machine clean, and so does every
      operation. */
  lemma {:induction false} ReactionKeepsClean(s: Machine, r: Reaction)
    requires Fine(s) && HonestReaction(r)
    ensures Fine(React(s, r).0)
    decreases r, 0
  {
    hide Perform, Clean, HonestMachine;
    if r.Call? {
      OperationKeepsClean(s, r.op, r.inside);
      ReactionKeepsClean(Perform(s, r.op, r.inside).0, r.rest);
    }
  }

  lemma {:induction false} OperationKeepsClean(s: Machine, op: Op, r: Reaction)
    requires Fine(s) && HonestOp(op) && HonestReaction(r)
    ensures Fine(Perform(s, op, r).0)
    decreases r, 1
  {
    CallbackStartsCleared(s, op, r);
    if CallsBack(s, op) {
      hide Attempt, CallsBack;
      ClearedIsFine();
      ReactionKeepsClean(CLEARED, r);
    } else {
      hide React, CallsBack, Next, Honest;
      HonestyKept(s, op);
    }
  }

  /** What the machine holds after one more step of the active, or of the new, generator. */
  lemma HonestyKept(s: Machine, op: Op)
    requires HonestMachine(s) && HonestOp(op)
    ensures s.handshaker.Some? ==> HonestStep(s.handshaker.value)
    ensures s.closer.Some? ==> HonestStep(s.closer.value)
    ensures s.writer.Some? ==> HonestStep(s.writer.value)
    ensures op.SetHandshake? || op.SetClose? || op.SetWrite? ==> HonestStep(op.g)
  {
  }

  predicate HonestStep(g: Generator) {
    Honest(Next(g).1) && (Next(g).0.Yields? ==> Waits(Next(g).0.v))
  }

  /** The run-time check passes at every boundary: when a callback is entered and when it calls an operation. */
  predicate Boundaries(s: Machine, r: Reaction)
    decreases r, 0
  {
    Check(s, 1) && (r.Call? ==>
      && BoundariesInside(s, r.op, r.inside)
      && var (s', e) := Perform(s, r.op, r.inside);
         (e.Some? && !r.catches) || Boundaries(s', r.rest))
  }

  /** The same within an operation, whose only callback, if one runs, starts from a machine without operation. */
  predicate BoundariesInside(s: Machine, op: Op, r: Reaction)
    decreases r, 1
  {
    CallsBack(s, op) ==> Boundaries(CLEARED, r)
  }

  /** Whether an operation gets as far as its callback: something finished, or there is nothing to write. */
  predicate CallsBack(s: Machine, op: Op) {
    && Check(s, if op.InRead? || op.InWrite? then 1 else 0)
    && if op.SetHandshake? || op.SetClose? then Next(op.g).0.Stops?
       else if op.SetWrite? then false
       else if s.handshaker.Some? then Next(s.handshaker.value).0.Stops?
       else if s.closer.Some? then Next(s.closer.value).0.Stops?
       else if s.reader.Some? then HasRead(s.reader.value)
       else if s.writer.Some? then false
       else op.InRead? ==> HasRead(op.started)
  }

  predicate HasRead(g: Generator) {
    Next(g).0.Yields? && !Waits(Next(g).0.v)
  }

  /** A callback always starts from a machine with nothing active: it may start any operation. */
  lemma CallbackStartsCleared(s: Machine, op: Op, r: Reaction)
    ensures Attempt(s, op, r) ==
              if CallsBack(s, op) then React(CLEARED, r) else Attempt(s, op, Finish(false))
  {
    CheckIffClean(s);
    hide React, Next;
  }

  lemma {:induction false} BoundariesHold(s: Machine, r: Reaction)
    requires Fine(s) && HonestReaction(r)
    ensures Boundaries(s, r)
    decreases r
  {
    CheckIffClean(s);
    hide Perform, Clean, Check, HonestMachine, CallsBack;
    if r.Call? {
      ClearedIsFine();
      BoundariesHold(CLEARED, r.inside);
      OperationKeepsClean(s, r.op, r.inside);
      BoundariesHold(Perform(s, r.op, r.inside).0, r.rest);
    }
  }

  lemma ClearedIsFine()
    ensures Fine(CLEARED)
  {
  }

  /** An event as the outside world delivers it, with the reactions of the callbacks it leads to. */
  datatype Event = Event(op: Op, reaction: Reaction)

  /** The check passes before and after every event and at every callback during it. */
  predicate SafeThroughout(s: Machine, events: seq<Event>)
    decreases |events|
  {
    Check(s, 1) && (events != [] ==>
      && BoundariesInside(s, events[0].op, events[0].reaction)
      && SafeThroughout(Perform(s, events[0].op, events[0].reaction).0, events[1..]))
  }

  /** Safety of every run: whatever events come, whatever callbacks start or raise, at most one operation is
      active, and the result is set exactly when one is. */
  lemma {:induction false} RunsStaySafe(s: Machine, events: seq<Event>)
    requires Fine(s)
    requires forall i :: 0 <= i < |events| ==> HonestOp(events[i].op) && HonestReaction(events[i].reaction)
    ensures SafeThroughout(s, events)
    decreases |events|
  {
    CheckIffClean(s);
    hide Perform, Clean, Check, HonestMachine, CallsBack, HonestOp;
    if events != [] {
      var e := events[0];
      ClearedIsFine();
      BoundariesHold(CLEARED, e.reaction);
      OperationKeepsClean(s, e.op, e.reaction);
      RunsStaySafe(Perform(s, e.op, e.reaction).0, events[1..]);
    }
  }

  lemma FirstStep(s: Machine, op: Op, r: Reaction, v: Val)
    requires Check(s, 0) && (op.SetHandshake? || op.SetClose? || op.SetWrite?) && Next(op.g).0 == Yields(v)
    ensures var (s', e) := Attempt(s, op, r); e.None? && ActiveOps(s') == 1 && s'.result == v
  {
    hide React, Next;
    if op.SetHandshake? {
      assert Attempt(s, op, r) == DoHandshake(s.(handshaker := Some(op.g)), r);
    } else if op.SetClose? {
      assert Attempt(s, op, r) == DoClose(s.(closer := Some(op.g)), r);
    } else {
      assert Attempt(s, op, r) == DoWrite(s.(writer := Some(op.g)));
    }
  }

  /** The condition on generators is exact: a machine that was clean stays so over a step in which a handshake,
      close or write generator yields exactly if what it yields is a wait. */
  lemma YieldKeepsCleanIff(s: Machine, op: Op, r: Reaction, v: Val, started: Generator, r': Reaction)
    requires Clean(s) && (op.SetHandshake? || op.SetClose? || op.SetWrite?) && ActiveOps(s) == 0
    requires Next(op.g).0 == Yields(v)
    ensures Clean(Perform(s, op, r).0) <==> Waits(v)
    ensures !Waits(v) ==> Perform(Perform(s, op, r).0, InRead(started), r') == (CLEARED, Some(AssertionError))
  {
    hide React;
    CheckIffClean(s);
    var s' := Attempt(s, op, r).0;
    FirstStep(s, op, r, v);
    hide Attempt;
    assert Perform(s, op, r).0 == s';
    CheckIffClean(s');
    assert !Waits(v) ==> !Check(s', 1);
  }

  /** Starting an operation while one is active fails, and takes the active one down with it. */
  lemma OnlyOneOperation(s: Machine, op: Op, r: Reaction)
    requires Clean(s) && (op.SetHandshake? || op.SetClose? || op.SetWrite?)
    ensures ActiveOps(s) == 1 ==> Perform(s, op, r) == (CLEARED, Some(AssertionError))
    ensures ActiveOps(s) == 0 <==> Check(s, 0)
  {
    hide React;
  }

  //
  // The object
  //

  class AsyncStateMachine {
    var result: Val
    var handshaker: Option<Generator>
    var closer: Option<Generator>
    var reader: Option<Generator>
    var writer: Option<Generator>

    function Value(): Machine
      reads this
    {
      Machine(result, handshaker, closer, reader, writer)
    }

    constructor ()
      ensures Value() == CLEARED
    {
      result, handshaker, closer, reader, writer := Nothing, None, None, None, None;
    }

    method Clear()
      modifies this
      ensures Value() == CLEARED
    {
      handshaker, closer, reader, writer := None, None, None, None;
      result := Nothing;
    }

    /** True when the active operation waits to read, False when it does not, None when there is none. */
    method WantsReadEvent() returns (r: Option<bool>)
      ensures Clean(Value()) ==> (r.None? <==> ActiveOps(Value()) == 0) && (r == Some(true) <==> result == Number(0))
    {
      if result != Nothing { return Some(result == Number(0)); }
      return None;
    }

    method WantsWriteEvent() returns (r: Option<bool>)
      ensures Clean(Value()) ==> (r.None? <==> ActiveOps(Value()) == 0) && (r == Some(true) <==> result == Number(1))
    {
      if result != Nothing { return Some(result == Number(1)); }
      return None;
    }

    /** Whatever the subclass does in a callback. */
    method Callback(r: Reaction) returns (e: Option<Error>)
      modifies this
      ensures (Value(), e) == React(old(Value()), r)
      decreases r, 0
    {
      match r
      case Finish(raises) =>
        return if raises then Some(RuntimeError) else None;
      case Call(op, inside, catches, rest) =>
        e := Handle(op, inside);
        if e.Some? && !catches { return; }
        e := Callback(rest);
    }

    method DoHandshakeOp(r: Reaction) returns (e: Option<Error>)
      requires handshaker.Some?
      modifies this
      ensures (Value(), e) == DoHandshake(old(Value()), r)
      decreases r, 1
    {
      var (o, g) := Next(handshaker.value);
      handshaker := Some(g);
      match o
      case Yields(v) =>
        result := v;
        return None;
      case Stops =>
        handshaker := None;
        result := Nothing;
        e := Callback(r);
      case Raises => return Some(RuntimeError);
    }

    method DoCloseOp(r: Reaction) returns (e: Option<Error>)
      requires closer.Some?
      modifies this
      ensures (Value(), e) == DoClose(old(Value()), r)
      decreases r, 1
    {
      var (o, g) := Next(closer.value);
      closer := Some(g);
      match o
      case Yields(v) =>
        result := v;
        return None;
      case Stops =>
        closer := None;
        result := Nothing;
        e := Callback(r);
      case Raises => return Some(RuntimeError);
    }

    method DoReadOp(r: Reaction) returns (e: Option<Error>)
      requires reader.Some?
      modifies this
      ensures (Value(), e) == DoRead(old(Value()), r)
      decreases r, 1
    {
      var (o, g) := Next(reader.value);
      reader := Some(g);
      match o
      case Yields(v) =>
        result := v;
        if !Waits(result) {
          reader := None;
          result := Nothing;
          e := Callback(r);
        } else {
          return None;
        }
      case Stops => return Some(StopIteration);
      case Raises => return Some(RuntimeError);
    }

    method DoWriteOp() returns (e: Option<Error>)
      requires writer.Some?
      modifies this
      ensures (Value(), e) == DoWrite(old(Value()))
    {
      var (o, g) := Next(writer.value);
      writer := Some(g);
      match o
      case Yields(v) =>
        result := v;
        return None;
      case Stops =>
        writer := None;
        result := Nothing;
        return None;
      case Raises => return Some(RuntimeError);
    }

    /** The event and set methods, inside their try. */
    method Dispatch(op: Op, r: Reaction) returns (e: Option<Error>)
      modifies this
      ensures (Value(), e) == Attempt(old(Value()), op, r)
      decreases r, 2
    {
      if !Check(Value(), if op.InRead? || op.InWrite? then 1 else 0) { return Some(AssertionError); }
      if op.SetHandshake? {
        handshaker := Some(op.g);
        e := DoHandshakeOp(r);
      } else if op.SetClose? {
        closer := Some(op.g);
        e := DoCloseOp(r);
      } else if op.SetWrite? {
        writer := Some(op.g);
        e := DoWriteOp();
      } else if handshaker.Some? {
        e := DoHandshakeOp(r);
      } else if closer.Some? {
        e := DoCloseOp(r);
      } else if reader.Some? {
        e := DoReadOp(r);
      } else if writer.Some? {
        e := DoWriteOp();
      } else if op.InRead? {
        reader := Some(op.started);
        e := DoReadOp(r);
      } else {
        e := Callback(r);
      }
    }

    method Handle(op: Op, r: Reaction) returns (e: Option<Error>)
      modifies this
      ensures (Value(), e) == Perform(old(Value()), op, r)
      decreases r, 3
    {
      e := Dispatch(op, r);
      if e.Some? { Clear(); }
    }
  }
}
