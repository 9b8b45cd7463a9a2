/** KeyUpdate replies end, and then both endpoints have the same secrets. */
module Convergence {
  import opened Results
  import opened ByteStrings
  import opened Primitives
  import opened RecordProtection
  import opened Defragmentation
  import opened Messaging
  import opened KeySchedule
  import opened Reading
  import opened Sending
  import opened Delivery
  import opened Channel
  import opened SendingLimits

  /** A requested KeyUpdate will cost two readings, its own and that of the reply; anything else one. */
  function Weight(events: seq<Event>): nat {
    if events == [] then 0 else (if events[0] == Update(true) then 2 else 1) + Weight(events[1..])
  }

  lemma {:induction false} WeightAppend(a: seq<Event>, b: seq<Event>)
    ensures Weight(a + b) == Weight(a) + Weight(b)
  {
    if a == [] {
      assert a + b == b;
    } else {
      WeightAppend(a[1..], b);
      assert (a + b)[0] == a[0] && (a + b)[1..] == a[1..] + b;
    }
  }

  /** The work left in a system. */
  function Remaining(c: Crypto, suite: Suite, s: System): nat
    requires Live(ReaderOf(s.a)) && Live(ReaderOf(s.b))
  {
    Weight(PendingA(c, suite, s)) + Weight(PendingB(c, suite, s))
  }

  function HeardCount(s: System): nat {
    |s.heardA| + |s.heardB|
  }

  /** The replies that the requests among events ask for. */
  function Replies(events: seq<Event>): seq<Event> {
    if events == [] then []
    else (if events[0] == Update(true) then [Update(false)] else []) + Replies(events[1..])
  }

  lemma {:induction false} RepliesAppend(a: seq<Event>, b: seq<Event>)
    ensures Replies(a + b) == Replies(a) + Replies(b)
  {
    if a == [] {
      assert a + b == b;
    } else {
      RepliesAppend(a[1..], b);
      assert a + b == [a[0]] + (a[1..] + b);
      assert (a + b)[1..] == a[1..] + b;
      var first := if a[0] == Update(true) then [Update(false)] else [];
      assert first + (Replies(a[1..]) + Replies(b)) == (first + Replies(a[1..])) + Replies(b);
    }
  }

  /** What one turn of the reading loop does to the histories: it hears some event, or none, and answers a
      request with one KeyUpdate that requests nothing. */
  ghost predicate ReadEffect(s: System, s': System, heard: seq<Event>) {
    && |heard| <= 1 && s'.heardA == s.heardA + heard && s'.heardB == s.heardB
    && s'.sentB == s.sentB && s'.sentA == s.sentA + Replies(heard)
  }

  lemma ReadHasEffect(c: Crypto, suite: Suite, s: System, k: nat) returns (heard: seq<Event>)
    requires Correct(c) && Working(s.a) && Act(c, suite, s, Read(k)).Ok?
    ensures ReadEffect(s, Act(c, suite, s, Read(k)).value, heard)
    ensures heard == [] <==> !Hears(c, suite, s, k).Heard?
  {
    hide Correct, SendEvent, Live, Keyed, ReadEvent;
    var o := Hears(c, suite, s, k);
    heard := if o.Heard? then [o.event] else [];
    if o.Heard? { OneEvent(o.event); }
  }

  lemma OneEvent(ev: Event)
    ensures Replies([ev]) == if ev == Update(true) then [Update(false)] else []
    ensures Weight([ev]) == 1 + Weight(Replies([ev]))
  {
    assert Weight([Update(false)]) == 1;
  }

  lemma ActCost(c: Crypto, suite: Suite, s: System, s': System, heard: seq<Event>)
    requires Inv(c, suite, s) && Inv(c, suite, s') && ReadEffect(s, s', heard)
    ensures Live(ReaderOf(s.a)) && Live(ReaderOf(s.b)) && Live(ReaderOf(s'.a)) && Live(ReaderOf(s'.b))
    ensures Remaining(c, suite, s) == Remaining(c, suite, s') + |heard|
  {
    hide Inv, Live, PendingA, PendingB;
    InvMeansFaithful(c, suite, s);
    InvMeansFaithful(c, suite, s');
    WeightAppend(s.heardA, PendingA(c, suite, s));
    WeightAppend(s'.heardA, PendingA(c, suite, s'));
    WeightAppend(s.heardB, PendingB(c, suite, s));
    WeightAppend(s'.heardB, PendingB(c, suite, s'));
    WeightAppend(s.heardA, heard);
    WeightAppend(s.sentA, Replies(heard));
    if heard != [] {
      assert heard == [heard[0]];
      OneEvent(heard[0]);
    }
  }

  /** A run in which the endpoints only read. */
  predicate OnlyReads(turns: seq<Turn>) {
    forall i :: 0 <= i < |turns| ==> turns[i].move.Read?
  }

  lemma DoCost(c: Crypto, suite: Suite, s: System, turn: Turn)
    requires Correct(c) && Inv(c, suite, s) && turn.move.Read? && Working(s.a) && Working(s.b)
    requires Do(c, suite, s, turn).Ok?
    ensures var s' := Do(c, suite, s, turn).value;
            && Inv(c, suite, s')
            && Live(ReaderOf(s.a)) && Live(ReaderOf(s.b)) && Live(ReaderOf(s'.a)) && Live(ReaderOf(s'.b))
            && Remaining(c, suite, s) == Remaining(c, suite, s') + (HeardCount(s') - HeardCount(s))
            && HeardCount(s') >= HeardCount(s)
  {
    hide Correct, Inv, Act, Working, Live, PendingA, PendingB, Weight;
    var f := Facing(s, turn);
    InvWorks(c, suite, s);
    ActKeeps(c, suite, f, turn.move);
    var heard := ReadHasEffect(c, suite, f, turn.move.arrived);
    var f' := Act(c, suite, f, turn.move).value;
    ActCost(c, suite, f, f', heard);
    InvWorks(c, suite, f');
    FlipRemaining(c, suite, f);
    FlipRemaining(c, suite, f');
  }

  lemma FlipRemaining(c: Crypto, suite: Suite, s: System)
    requires Live(ReaderOf(s.a)) && Live(ReaderOf(s.b))
    ensures Remaining(c, suite, Flip(s)) == Remaining(c, suite, s)
    ensures Flip(Flip(s)) == s
  {
    hide Live, ReadThrough, Weight;
  }

  /** With no new calls from the users, reading ends: however the two endpoints read, requests and replies
      crossing each other, the events they hear are paid for one by one out of the work left at the start. */
  lemma {:induction false} RepliesTerminate(c: Crypto, suite: Suite, s: System, turns: seq<Turn>, s': System)
    requires Correct(c) && Inv(c, suite, s) && OnlyReads(turns) && Reaches(c, suite, s, turns, s')
    ensures Inv(c, suite, s') && Live(ReaderOf(s.a)) && Live(ReaderOf(s.b)) && Live(ReaderOf(s'.a)) && Live(ReaderOf(s'.b))
    ensures HeardCount(s') - HeardCount(s) == Remaining(c, suite, s) - Remaining(c, suite, s')
    ensures HeardCount(s) <= HeardCount(s') <= HeardCount(s) + Remaining(c, suite, s)
    decreases |turns|
  {
    hide Correct, Inv, Do, Working, Remaining, HeardCount, Live;
    InvWorks(c, suite, s);
    InvMeansFaithful(c, suite, s);
    if turns != [] {
      DoCost(c, suite, s, turns[0]);
      RepliesTerminate(c, suite, Do(c, suite, s, turns[0]).value, turns[1..], s');
    }
  }

  /** Reading makes progress: as long as something is pending, reading all that has arrived hears it. */
  lemma PendingIsHeard(c: Crypto, suite: Suite, s: System)
    requires Live(ReaderOf(s.a)) && PendingA(c, suite, s) != []
    ensures var o := Hears(c, suite, s, |s.ba|); o.Heard? && o.event == PendingA(c, suite, s)[0]
  {
    hide Live, ReadThrough, ReadEvent;
    assert s.ba[..|s.ba|] == s.ba;
    ReadUnfolds(c, suite, ReaderOf(s.a), s.ba);
  }

  /** The effect of a reading turn on the histories, whoever takes it. */
  lemma TurnHasEffect(c: Crypto, suite: Suite, s: System, turn: Turn) returns (heard: seq<Event>)
    requires Correct(c) && Working(s.a) && Working(s.b) && turn.move.Read? && Do(c, suite, s, turn).Ok?
    ensures ReadEffect(Facing(s, turn), Facing(Do(c, suite, s, turn).value, turn), heard)
  {
    hide Correct, Act, Working;
    heard := ReadHasEffect(c, suite, Facing(s, turn), turn.move.arrived);
  }

  /** Every request is answered by exactly one reply, and nothing else is sent by reading. */
  lemma {:induction false} RepliesAnswerRequests(c: Crypto, suite: Suite, s: System, turns: seq<Turn>, s': System)
    requires Correct(c) && OnlyReads(turns) && Reaches(c, suite, s, turns, s')
    ensures Answers(s.sentA, s.heardA, s'.sentA, s'.heardA) && Answers(s.sentB, s.heardB, s'.sentB, s'.heardB)
    decreases |turns|
  {
    hide Correct, Do, Working, Answers, Admissible;
    if turns == [] {
      NoReplies(s.sentA, s.heardA);
      NoReplies(s.sentB, s.heardB);
    } else {
      var heard := TurnHasEffect(c, suite, s, turns[0]);
      var next := Do(c, suite, s, turns[0]).value;
      RepliesAnswerRequests(c, suite, next, turns[1..], s');
      if turns[0].bySecond {
        RepliesStep(s.sentB, s.heardB, heard, s'.sentB, s'.heardB);
      } else {
        RepliesStep(s.sentA, s.heardA, heard, s'.sentA, s'.heardA);
      }
    }
  }

  /** What has been sent since is just the replies to the requests heard since. */
  predicate Answers(sent: seq<Event>, heard: seq<Event>, sent': seq<Event>, heard': seq<Event>) {
    heard <= heard' && sent' == sent + Replies(heard'[|heard|..])
  }

  lemma NoReplies(sent: seq<Event>, heard: seq<Event>)
    ensures Answers(sent, heard, sent, heard)
  {
  }

  lemma RepliesStep(sent: seq<Event>, before: seq<Event>, heard: seq<Event>, sent': seq<Event>, all: seq<Event>)
    requires Answers(sent + Replies(heard), before + heard, sent', all)
    ensures Answers(sent, before, sent', all)
  {
    hide Replies;
    var later := all[|before + heard|..];
    assert all == before + heard + later;
    assert all[|before|..] == heard + later;
    RepliesAppend(heard, later);
    assert (sent + Replies(heard)) + Replies(later) == sent + (Replies(heard) + Replies(later));
  }

  /** No KeyUpdate among events. */
  predicate NoUpdates(events: seq<Event>) {
    forall i :: 0 <= i < |events| ==> !events[i].Update?
  }

  lemma {:induction false} SecretKept(c: Crypto, suite: Suite, r: Reader, input: seq<Record>)
    requires Live(r) && ReadThrough(c, suite, r, input).end.Waiting? && NoUpdates(ReadThrough(c, suite, r, input).events)
    ensures ReadThrough(c, suite, r, input).end.reader.secret == r.secret
    decreases |input|, Buffered(r.defrag, 0)
  {
    hide ReadEvent, ReadThrough, Live, Buffered, Shorter, SameSettings, Take;
    ReadUnfolds(c, suite, r, input);
    HeardSecret(c, suite, r, input);
    var o := ReadEvent(c, suite, r, input);
    if o.Heard? {
      var t, later := ReadThrough(c, suite, r, input), ReadThrough(c, suite, o.reader, o.rest);
      assert t.events == [o.event] + later.events;
      assert !t.events[0].Update?;
      forall i | 0 <= i < |later.events| ensures !later.events[i].Update? { assert later.events[i] == t.events[i + 1]; }
      SecretKept(c, suite, o.reader, o.rest);
    }
  }

  lemma HeardSecret(c: Crypto, suite: Suite, r: Reader, input: seq<Record>)
    requires Live(r)
    ensures var o := ReadEvent(c, suite, r, input);
            o.Heard? ==>
              && (|o.rest| < |input| || (|o.rest| == |input| && Buffered(o.reader.defrag, 0) < Buffered(r.defrag, 0)))
              && (!o.event.Update? ==> o.reader.secret == r.secret)
  {
    hide GetMsg, Buffered, Proper, Interpret, Take;
  }

  /** Quiescence: once no KeyUpdate is pending, both sessions hold the same two secrets. */
  lemma SecretsAgree(c: Crypto, suite: Suite, s: System)
    requires Inv(c, suite, s) && s.a.client != s.b.client
    requires Live(ReaderOf(s.a)) && Live(ReaderOf(s.b))
    requires NoUpdates(PendingA(c, suite, s)) && NoUpdates(PendingB(c, suite, s))
    ensures s.a.clSecret == s.b.clSecret && s.a.srSecret == s.b.srSecret
  {
    hide ReadThrough, Live, Idle, NoUpdates;
    SecretKept(c, suite, ReaderOf(s.a), s.ba);
    SecretKept(c, suite, ReaderOf(s.b), s.ab);
  }

  /** And once nothing at all is under way, each reads in the very state that the other writes in. */
  lemma StatesAgree(c: Crypto, suite: Suite, s: System)
    requires Inv(c, suite, s) && s.ab == [] && s.ba == []
    requires Live(ReaderOf(s.a)) && Live(ReaderOf(s.b))
    requires PendingA(c, suite, s) == [] && PendingB(c, suite, s) == []
    ensures s.a.side.st == s.b.write && s.b.side.st == s.a.write
  {
    EmptyRead(c, suite, ReaderOf(s.a));
    EmptyRead(c, suite, ReaderOf(s.b));
    hide ReadThrough, Live, Idle;
  }

  lemma {:induction false} NothingOpened(c: Crypto, r: Reader)
    requires Live(r)
    ensures GetMsg(c, r, []).reader.side.st == r.side.st
    decreases Buffered(r.defrag, 0)
  {
    FetchedFromBuffers(c, r);
    hide NextRecord, Take, Buffered, Proper, Sift;
    var f := NextRecord(c, r, []);
    if f.Fetched? && Sift(f).Again? {
      NothingOpened(c, f.reader);
    }
  }

  lemma FetchedFromBuffers(c: Crypto, r: Reader)
    requires Live(r)
    ensures var f := NextRecord(c, r, []);
            f.reader.side == r.side && (f.Fetched? ==> f.rest == [] && Buffered(f.reader.defrag, 0) < Buffered(r.defrag, 0))
  {
    hide Take, Buffered, Proper;
    TakeDecreases(r.defrag);
  }

  lemma EmptyRead(c: Crypto, suite: Suite, r: Reader)
    requires Live(r) && ReadThrough(c, suite, r, []).end.Waiting? && ReadThrough(c, suite, r, []).events == []
    ensures ReadThrough(c, suite, r, []).end.reader.side.st == r.side.st
  {
    hide ReadThrough, Live, GetMsg, Shorter, Take, Interpret;
    ReadUnfolds(c, suite, r, []);
    NothingOpened(c, r);
  }

  //
  // Coming to rest
  //

  /** Whoever has something pending reads all that has arrived. */
  function NextTurn(c: Crypto, suite: Suite, s: System): Turn
    requires Live(ReaderOf(s.a))
  {
    if PendingA(c, suite, s) != [] then Turn(false, Read(|s.ba|)) else Turn(true, Read(|s.ab|))
  }

  ghost predicate AtRest(c: Crypto, suite: Suite, s: System)
    requires Live(ReaderOf(s.a)) && Live(ReaderOf(s.b))
  {
    PendingA(c, suite, s) == [] && PendingB(c, suite, s) == []
  }

  /** At rest, with both sessions holding the same two secrets. */
  ghost predicate Agreed(c: Crypto, suite: Suite, s: System) {
    && Inv(c, suite, s) && Working(s.a) && Working(s.b) && AtRest(c, suite, s)
    && s.a.clSecret == s.b.clSecret && s.a.srSecret == s.b.srSecret
  }

  /** Such a turn hears just one event, if it does not fail. */
  lemma NextTurnHears(c: Crypto, suite: Suite, s: System)
    requires Correct(c) && Working(s.a) && Working(s.b) && !AtRest(c, suite, s)
    ensures var f := Facing(s, NextTurn(c, suite, s));
            var o := Hears(c, suite, f, NextTurn(c, suite, s).move.arrived);
            Live(ReaderOf(f.a)) && o.Heard?
    ensures var r := Do(c, suite, s, NextTurn(c, suite, s)); r.Ok? ==> HeardCount(r.value) == HeardCount(s) + 1
  {
    hide Correct, Act, Keyed, Live, ReadThrough, Hears;
    var turn := NextTurn(c, suite, s);
    var f := Facing(s, turn);
    assert PendingA(c, suite, f) != [];
    PendingIsHeard(c, suite, f);
    if Do(c, suite, s, turn).Ok? {
      var heard := ReadHasEffect(c, suite, f, turn.move.arrived);
    }
  }

  /** An endpoint that has a sequence number for each piece of a KeyUpdate. */
  predicate CanAnswer(e: Endpoint) {
    Plain(e.settings) && e.write.seqnum + 5 <= SEQ_LIMIT
  }

  /** A reading turn leaves roles, and the ability to answer, as they were. */
  lemma ReadKeepsEnds(c: Crypto, suite: Suite, s: System, k: nat)
    requires Correct(c) && Working(s.a) && Act(c, suite, s, Read(k)).Ok?
    ensures var s' := Act(c, suite, s, Read(k)).value;
            && s'.a.client == s.a.client && s'.b == s.b
            && (CanAnswer(s.a) ==> CanAnswer(s'.a))
  {
    hide Correct, SendMsg, Live, Keyed, ReadEvent;
  }

  lemma TurnKeepsEnds(c: Crypto, suite: Suite, s: System, turn: Turn)
    requires Correct(c) && Working(s.a) && Working(s.b) && turn.move.Read? && Do(c, suite, s, turn).Ok?
    ensures var s' := Do(c, suite, s, turn).value;
            && s'.a.client == s.a.client && s'.b.client == s.b.client
            && (CanAnswer(s.a) && CanAnswer(s.b) ==> CanAnswer(s'.a) && CanAnswer(s'.b))
  {
    hide Correct, Act, Working, CanAnswer;
    ReadKeepsEnds(c, suite, Facing(s, turn), turn.move.arrived);
  }

  /** Who can answer does not fail. */
  lemma AnswersAreSent(c: Crypto, suite: Suite, s: System, turn: Turn)
    requires Correct(c) && Working(s.a) && Working(s.b) && turn.move.Read?
    requires CanAnswer(s.a) && CanAnswer(s.b) && Inv(c, suite, s)
    ensures Do(c, suite, s, turn).Ok?
  {
    hide Correct, Inv, Live, Keyed, Hears, Sendable;
    InvWorks(c, suite, s);
    var f := Facing(s, turn);
    WriteStateFits(c, suite, f);
    UpdateSendable(f.a.settings, f.a.write, false);
    ReadFailsIff(c, suite, f, turn.move.arrived, Hears(c, suite, f, turn.move.arrived), Act(c, suite, f, turn.move));
    hide Act;
  }

  /** Convergence: from every reachable state, reading in turns comes to rest within the work left, and then both
      sessions hold the same secrets, unless a turn fails because an answer cannot be sent; none fails if both
      ends can answer at the start. */
  lemma {:induction false} Converges(c: Crypto, suite: Suite, s: System)
    returns (turns: seq<Turn>, s': System, failing: Option<Turn>)
    requires Correct(c) && Inv(c, suite, s) && s.a.client != s.b.client
    ensures Working(s.a) && Working(s.b) && Inv(c, suite, s') && Working(s'.a) && Working(s'.b)
    ensures OnlyReads(turns) && Reaches(c, suite, s, turns, s') && |turns| <= Remaining(c, suite, s)
    ensures failing.None? ==> Agreed(c, suite, s')
    ensures failing.Some? ==> failing.value.move.Read? && Do(c, suite, s', failing.value).Err?
    ensures CanAnswer(s.a) && CanAnswer(s.b) ==> failing.None?
    decreases RemainingWork(c, suite, s)
  {
    hide Correct, Inv, Do, Keyed, Live, Remaining, HeardCount, CanAnswer, ReadThrough, PendingA, PendingB;
    InvWorks(c, suite, s);
    RemainingIsWork(c, suite, s);
    turns, s', failing := [], s, None;
    if AtRest(c, suite, s) {
      SecretsAgree(c, suite, s);
    } else {
      var turn := NextTurn(c, suite, s);
      if Do(c, suite, s, turn).Err? {
        failing := Some(turn);
        if CanAnswer(s.a) && CanAnswer(s.b) {
          AnswersAreSent(c, suite, s, turn);
        }
      } else {
        var next := Do(c, suite, s, turn).value;
        NextTurnHears(c, suite, s);
        DoCost(c, suite, s, turn);
        TurnKeepsEnds(c, suite, s, turn);
        InvWorks(c, suite, next);
        RemainingIsWork(c, suite, next);
        var later, end, stuck := Converges(c, suite, next);
        turns, s', failing := [turn] + later, end, stuck;
        FirstTurn(c, suite, s, turn, later, s');
      }
    }
  }

  /** The work left, for any system. */
  ghost function RemainingWork(c: Crypto, suite: Suite, s: System): nat {
    if Live(ReaderOf(s.a)) && Live(ReaderOf(s.b)) then Remaining(c, suite, s) else 0
  }

  lemma RemainingIsWork(c: Crypto, suite: Suite, s: System)
    requires Live(ReaderOf(s.a)) && Live(ReaderOf(s.b))
    ensures RemainingWork(c, suite, s) == Remaining(c, suite, s)
  {
    hide Live, Remaining;
  }

  lemma FirstTurn(c: Crypto, suite: Suite, s: System, turn: Turn, later: seq<Turn>, s': System)
    requires Correct(c) && Working(s.a) && Working(s.b) && Admissible(Facing(s, turn), turn.move) && turn.move.Read?
    requires Do(c, suite, s, turn).Ok? && OnlyReads(later) && Reaches(c, suite, Do(c, suite, s, turn).value, later, s')
    ensures OnlyReads([turn] + later) && Reaches(c, suite, s, [turn] + later, s')
  {
    hide Correct, Do, Working, Admissible;
    assert ([turn] + later)[1..] == later;
  }

  //
  // One request and its answer
  //

  lemma {:induction false} NoRepliesToReplies(events: seq<Event>)
    ensures Replies(Replies(events)) == []
  {
    if events != [] {
      NoRepliesToReplies(events[1..]);
      var first := if events[0] == Update(true) then [Update(false)] else [];
      RepliesAppend(first, Replies(events[1..]));
      OneEvent(Update(false));
    }
  }

  /** What each side hears of one request: y at one end, and the replies x at the other. */
  lemma OneRoundOnly(x: seq<Event>, y: seq<Event>)
    requires y == [Update(true)] + Replies(x) && x == Replies(y)
    ensures x == [Update(false)] && y == [Update(true)]
  {
    RepliesAppend([Update(true)], Replies(x));
    NoRepliesToReplies(x);
    OneEvent(Update(true));
    OneEvent(Update(false));
  }

  /** Where all that has been sent has been heard, before a request and after it, there was one answer. */
  lemma AnsweredOnce(atA: seq<Event>, atB: seq<Event>, atB': seq<Event>, atA': seq<Event>)
    requires Answers(atB + [Update(true)], atA, atB', atA') && Answers(atA, atB, atA', atB')
    ensures atB' == atB + [Update(true)] && atA' == atA + [Update(false)]
  {
    hide Replies;
    var x, y := atA'[|atA|..], atB'[|atB|..];
    assert atA' == atA + x && atB' == atB + y;
    assert atB' == atB + ([Update(true)] + Replies(x));
    OneRoundOnly(x, y);
  }

  lemma RestMeansAllHeard(c: Crypto, suite: Suite, s: System)
    requires Inv(c, suite, s) && Live(ReaderOf(s.a)) && Live(ReaderOf(s.b)) && AtRest(c, suite, s)
    ensures s.heardB == s.sentA && s.heardA == s.sentB
  {
    hide Inv, Live, PendingA, PendingB;
    InvMeansFaithful(c, suite, s);
    assert s.heardB + [] == s.heardB && s.heardA + [] == s.heardA;
  }

  lemma RequestSent(c: Crypto, suite: Suite, s: System)
    requires Correct(c) && Working(s.a) && CanAnswer(s.a) && Inv(c, suite, s)
    ensures var r := Act(c, suite, s, Send(Update(true)));
            && r.Ok? && Inv(c, suite, r.value)
            && r.value.sentA == s.sentA + [Update(true)] && r.value.sentB == s.sentB
            && r.value.heardA == s.heardA && r.value.heardB == s.heardB
            && CanAnswer(r.value.a) && r.value.b == s.b && r.value.a.client == s.a.client
  {
    hide Correct, Inv, SendMsg, Sendable, Live, Keyed;
    WriteStateFits(c, suite, s);
    UpdateSendable(s.a.settings, s.a.write, true);
    EventSentIff(c, suite, s.a.settings, WriterOf(s.a), Update(true));
    ActKeeps(c, suite, s, Send(Update(true)));
  }

  /** From s to s', one request of the first endpoint and one answer, and nothing else, were sent and heard. */
  predicate OneExchange(s: System, s': System) {
    && s'.heardB == s.heardB + [Update(true)] && s'.heardA == s.heardA + [Update(false)]
    && s'.sentA == s'.heardB && s'.sentB == s'.heardA
  }

  /** A request for a KeyUpdate, sent while all is at rest, is heard once and answered once, and then all is at
      rest again with both sessions holding the same secrets. */
  lemma RequestIsAnswered(c: Crypto, suite: Suite, s: System) returns (turns: seq<Turn>, s': System)
    requires Correct(c) && Inv(c, suite, s) && s.a.client != s.b.client && Working(s.a) && Working(s.b)
    requires CanAnswer(s.a) && CanAnswer(s.b) && AtRest(c, suite, s)
    ensures Reaches(c, suite, s, [Turn(false, Send(Update(true)))] + turns, s') && OnlyReads(turns)
    ensures Agreed(c, suite, s') && OneExchange(s, s')
  {
    hide Correct, Inv, Keyed, Live, Act, AtRest, Answers, CanAnswer, Remaining, Reaches;
    RestMeansAllHeard(c, suite, s);
    RequestSent(c, suite, s);
    var first := Turn(false, Send(Update(true)));
    var s1 := Do(c, suite, s, first).value;
    var later, end, failing := Converges(c, suite, s1);
    s' := end;
    turns := later;
    RestMeansAllHeard(c, suite, s');
    RepliesAnswerRequests(c, suite, s1, later, s');
    AnsweredOnce(s.sentB, s.sentA, s'.sentA, s'.sentB);
    FirstSent(c, suite, s, first, later, s');
  }

  lemma FirstSent(c: Crypto, suite: Suite, s: System, turn: Turn, later: seq<Turn>, s': System)
    requires Correct(c) && Working(s.a) && Working(s.b) && Admissible(Facing(s, turn), turn.move)
    requires Do(c, suite, s, turn).Ok? && Reaches(c, suite, Do(c, suite, s, turn).value, later, s')
    ensures Reaches(c, suite, s, [turn] + later, s')
  {
    hide Correct, Do, Working, Admissible;
    assert ([turn] + later)[1..] == later;
  }

  /** The hypotheses cover such a run: two fresh endpoints, one request, one answer. */
  lemma UpdateRunExists(clSecret: Bytes, srSecret: Bytes) returns (turns: seq<Turn>, s': System)
    ensures var c := Transparent();
            var a := Fresh(c, AES_SUITE, true, clSecret, srSecret, 0x4000, 0, true, DEFAULT_SETTINGS);
            var b := Fresh(c, AES_SUITE, false, clSecret, srSecret, 0x4000, 0, true, DEFAULT_SETTINGS);
            var s := System(a, b, [], [], [], [], [], []);
            Correct(c) && Reaches(c, AES_SUITE, s, turns, s') && Agreed(c, AES_SUITE, s') && OneExchange(s, s')
  {
    hide Correct, Inv, Working, Transparent, AtRest, CanAnswer, Fresh;
    var c := Transparent();
    HypothesesCanBeMet(clSecret, srSecret);
    var a := Fresh(c, AES_SUITE, true, clSecret, srSecret, 0x4000, 0, true, DEFAULT_SETTINGS);
    var b := Fresh(c, AES_SUITE, false, clSecret, srSecret, 0x4000, 0, true, DEFAULT_SETTINGS);
    FreshAtRest(c, clSecret, srSecret);
    var later: seq<Turn>;
    later, s' := RequestIsAnswered(c, AES_SUITE, System(a, b, [], [], [], [], [], []));
    turns := [Turn(false, Send(Update(true)))] + later;
  }

  lemma FreshAtRest(c: Crypto, clSecret: Bytes, srSecret: Bytes)
    requires Correct(c)
    ensures var a := Fresh(c, AES_SUITE, true, clSecret, srSecret, 0x4000, 0, true, DEFAULT_SETTINGS);
            var b := Fresh(c, AES_SUITE, false, clSecret, srSecret, 0x4000, 0, true, DEFAULT_SETTINGS);
            && a.client && !b.client && CanAnswer(a) && CanAnswer(b)
            && Live(ReaderOf(a)) && Live(ReaderOf(b)) && AtRest(c, AES_SUITE, System(a, b, [], [], [], [], [], []))
  {
    hide Correct, Take, Proper;
    var a := Fresh(c, AES_SUITE, true, clSecret, srSecret, 0x4000, 0, true, DEFAULT_SETTINGS);
    var b := Fresh(c, AES_SUITE, false, clSecret, srSecret, 0x4000, 0, true, DEFAULT_SETTINGS);
    FreshIdle(ReaderOf(a));
    FreshIdle(ReaderOf(b));
    NothingRead(c, AES_SUITE, ReaderOf(a));
    NothingRead(c, AES_SUITE, ReaderOf(b));
  }
}
