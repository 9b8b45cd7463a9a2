/** How much undecryptable early data a reader passes over before the first record it can open. */
module EarlyDataLimits {
  import opened Results
  import opened ByteStrings
  import opened Primitives
  import opened RecordProtection
  import opened RecordReception
  import opened Defragmentation
  import opened Messaging
  import opened KeySchedule
  import opened Reading
  import opened Sending
  import opened Delivery
  import opened Channel
  import opened SendingLimits

  /** A reader that skips early data and has not skipped any yet. */
  ghost predicate Skipping(r: Reader) {
    Live(r) && r.side.earlyOk && r.side.earlyDone == 0 && r.side.recvLimit >= 1 && Take(r.defrag).0.None?
  }

  predicate Junk(c: Crypto, side: ReadSide, block: seq<Record>)
    requires Keyed(side.st)
  {
    forall rec :: rec in block ==> Undecryptable(c, TLS13_CONFIG, side, rec)
  }

  predicate AllJunk(c: Crypto, side: ReadSide, blocks: seq<seq<Record>>)
    requires Keyed(side.st)
  {
    forall i :: 0 <= i < |blocks| ==> Junk(c, side, blocks[i])
  }

  /** A block of early data below the limit. */
  predicate Fits(limit: nat, block: seq<Record>) {
    block != [] ==> PayloadSize(block) < limit
  }

  predicate AllFit(limit: nat, blocks: seq<seq<Record>>) {
    forall i :: 0 <= i < |blocks| ==> Fits(limit, blocks[i])
  }

  /** Blocks of records with one change_cipher_spec record between each and the next. */
  function Separated(version: nat, blocks: seq<seq<Record>>): seq<Record>
    requires blocks != []
  {
    if |blocks| == 1 then blocks[0] else blocks[0] + ([Ccs(version, [1])] + Separated(version, blocks[1..]))
  }

  function TotalSize(blocks: seq<seq<Record>>): nat {
    if blocks == [] then 0 else PayloadSize(blocks[0]) + TotalSize(blocks[1..])
  }

  function Counted(r: Reader, n: nat): Reader {
    r.(side := r.side.(earlyDone := n))
  }

  //
  // One block
  //

  lemma BlockPassed(c: Crypto, r: Reader, block: seq<Record>, rest: seq<Record>)
    requires Skipping(r) && Junk(c, r.side, block) && Fits(r.side.maxEarly, block)
    ensures GetMsg(c, r, block + rest) == GetMsg(c, Counted(r, PayloadSize(block)), rest)
  {
    hide ReceiveRecord, Take, Buffered, Proper, PayloadSize, Undecryptable, GetMsg, NextRecord;
    var r' := Counted(r, PayloadSize(block));
    SkipsJunk(c, TLS13_CONFIG, r.side, block, rest);
    assert NextPass(c, r, block + rest) == NextPass(c, r', rest);
    NextIsSame(c, r, block + rest, r', rest);
    GetIsSame(c, r, block + rest, r', rest);
  }

  lemma {:induction false} JunkRaises(c: Crypto, side: ReadSide, block: seq<Record>, rest: seq<Record>)
    requires Keyed(side.st) && side.earlyOk && Junk(c, side, block)
    requires block != [] && side.earlyDone + PayloadSize(block) >= side.maxEarly
    ensures var p := ReceiveRecord(c, TLS13_CONFIG, side, block + rest); p.Raised? && p.error == BadRecordMac
    decreases |block|
  {
    hide Open, TooLong, ReceiveRecord;
    var rec := block[0];
    var input := block + rest;
    assert input[0] == rec && input[1..] == block[1..] + rest;
    assert Undecryptable(c, TLS13_CONFIG, side, rec);
    ReceiveStep(c, TLS13_CONFIG, side, input);
    if side.earlyDone + |rec.payload| < side.maxEarly {
      var next := side.(earlyDone := side.earlyDone + |rec.payload|);
      forall r | r in block[1..] ensures Undecryptable(c, TLS13_CONFIG, next, r) {
        assert r in block;
        OpenIgnoresCounters(c, TLS13_CONFIG, side, r, next.earlyDone);
      }
      JunkRaises(c, next, block[1..], rest);
    }
  }

  lemma BlockRefused(c: Crypto, r: Reader, block: seq<Record>, rest: seq<Record>)
    requires Skipping(r) && Junk(c, r.side, block) && !Fits(r.side.maxEarly, block)
    ensures var f := GetMsg(c, r, block + rest); f.Refused? && f.error == BadRecordMac
  {
    hide ReceiveRecord, Take, Buffered, Proper, PayloadSize, Undecryptable;
    JunkRaises(c, r.side, block, rest);
    NothingTaken(r.defrag);
  }

  /** A tolerated change_cipher_spec record clears the count; any other ends the connection. */
  lemma CcsPassed(c: Crypto, r: Reader, n: nat, version: nat, rest: seq<Record>)
    requires Skipping(r)
    ensures var f := GetMsg(c, Counted(r, n), [Ccs(version, [1])] + rest);
            if r.compat then f == GetMsg(c, r, rest) else f.Refused? && f.error == UnexpectedMessage
  {
    hide NextRecord, Take, Buffered, Proper;
    CcsFetched(c, Counted(r, n), version, [1], rest);
    LiveBuffers(r);
  }

  /** A block below the limit, with a tolerated change_cipher_spec record behind it, leaves no trace at all. */
  lemma BlockForgotten(c: Crypto, suite: Suite, r: Reader, block: seq<Record>, version: nat, rest: seq<Record>)
    requires Skipping(r) && r.compat && Junk(c, r.side, block) && Fits(r.side.maxEarly, block)
    ensures ReadEvent(c, suite, r, block + [Ccs(version, [1])] + rest) == ReadEvent(c, suite, r, rest)
  {
    hide GetMsg, Take, Junk, Fits, Live, PayloadSize;
    BlockPassed(c, r, block, [Ccs(version, [1])] + rest);
    CcsPassed(c, r, PayloadSize(block), version, rest);
    assert block + [Ccs(version, [1])] + rest == block + ([Ccs(version, [1])] + rest);
  }

  //
  // Blocks between change_cipher_spec records
  //

  /** Blocks of undecryptable records are passed over exactly if each of them by itself is below the limit and
      what separates them is tolerated; what comes after is read as it would have been at first. */
  lemma {:induction false} BlocksPassed(c: Crypto, r: Reader, version: nat, blocks: seq<seq<Record>>, rest: seq<Record>)
    requires Skipping(r) && blocks != [] && AllJunk(c, r.side, blocks)
    ensures var f := GetMsg(c, r, Separated(version, blocks) + rest);
            if AllFit(r.side.maxEarly, blocks) && (r.compat || |blocks| == 1) then
              f == GetMsg(c, Counted(r, PayloadSize(blocks[|blocks| - 1])), rest)
            else f.Refused? && f.error in {BadRecordMac, UnexpectedMessage}
    decreases |blocks|
  {
    hide GetMsg, PayloadSize, Junk, Fits, Take, Live;
    if |blocks| == 1 {
      if Fits(r.side.maxEarly, blocks[0]) {
        BlockPassed(c, r, blocks[0], rest);
      } else {
        BlockRefused(c, r, blocks[0], rest);
      }
    } else {
      var later := Separated(version, blocks[1..]) + rest;
      assert Separated(version, blocks) + rest == blocks[0] + ([Ccs(version, [1])] + later);
      if Fits(r.side.maxEarly, blocks[0]) {
        BlockPassed(c, r, blocks[0], [Ccs(version, [1])] + later);
        CcsPassed(c, r, PayloadSize(blocks[0]), version, later);
        BlocksPassed(c, r, version, blocks[1..], rest);
        assert AllFit(r.side.maxEarly, blocks) <==> AllFit(r.side.maxEarly, blocks[1..]) by {
          FitFirst(r.side.maxEarly, blocks);
        }
      } else {
        BlockRefused(c, r, blocks[0], [Ccs(version, [1])] + later);
      }
    }
  }

  lemma FitFirst(limit: nat, blocks: seq<seq<Record>>)
    requires blocks != []
    ensures AllFit(limit, blocks) <==> Fits(limit, blocks[0]) && AllFit(limit, blocks[1..])
  {
    hide Fits;
    if Fits(limit, blocks[0]) && AllFit(limit, blocks[1..]) {
      forall i | 0 <= i < |blocks| ensures Fits(limit, blocks[i]) {
        if i > 0 { assert blocks[i] == blocks[1..][i - 1]; }
      }
    }
    if AllFit(limit, blocks) {
      forall i | 0 <= i < |blocks[1..]| ensures Fits(limit, blocks[1..][i]) { assert blocks[1..][i] == blocks[i + 1]; }
    }
  }

  /** The blocks are skipped, and the reader waits for more. */
  ghost predicate PassedOver(c: Crypto, suite: Suite, r: Reader, version: nat, blocks: seq<seq<Record>>)
    requires Live(r) && blocks != []
  {
    ReadEvent(c, suite, r, Separated(version, blocks)).Waiting?
  }

  lemma PassedOverIff(c: Crypto, suite: Suite, r: Reader, version: nat, blocks: seq<seq<Record>>)
    requires Skipping(r) && blocks != [] && AllJunk(c, r.side, blocks)
    ensures PassedOver(c, suite, r, version, blocks)
            <==> AllFit(r.side.maxEarly, blocks) && (r.compat || |blocks| == 1)
  {
    BlocksPassed(c, r, version, blocks, []);
    assert Separated(version, blocks) + [] == Separated(version, blocks);
    NothingTaken(r.defrag);
    hide Take, Junk, Fits, AllFit, AllJunk, PayloadSize, Separated, Live, SameSettings;
    NothingFetched(c, Counted(r, PayloadSize(blocks[|blocks| - 1])));
  }

  lemma NothingFetched(c: Crypto, r: Reader)
    requires Live(r) && Take(r.defrag).0.None?
    ensures GetMsg(c, r, []) == Starved(r)
  {
    hide Take, Proper;
    NothingTaken(r.defrag);
  }

  //
  // The total
  //

  /** All the early data that is ever passed over stays below the limit, whatever comes in. */
  ghost predicate TotalLimited(c: Crypto, suite: Suite, r: Reader)
    requires Live(r)
  {
    forall version: nat, blocks: seq<seq<Record>> ::
      blocks != [] && AllJunk(c, r.side, blocks) && PassedOver(c, suite, r, version, blocks) && TotalSize(blocks) > 0 ==>
        TotalSize(blocks) < r.side.maxEarly
  }

  /** The total is limited exactly if change_cipher_spec records are not put up with, or the limit lets no byte
      pass, or the state can open nothing any more. */
  lemma TotalLimitedIff(c: Crypto, suite: Suite, r: Reader)
    requires Skipping(r) && SuiteState(r.side.st) && r.side.st.enc.aead.tagLength >= 2
    ensures TotalLimited(c, suite, r) <==> !r.compat || r.side.maxEarly <= 1 || r.side.st.seqnum >= SEQ_LIMIT
  {
    hide Take, PassedOver, Junk, Fits, Proper;
    if r.compat && r.side.maxEarly > 1 && r.side.st.seqnum < SEQ_LIMIT {
      ManyBlocksPass(c, suite, r);
    } else {
      forall version: nat, blocks: seq<seq<Record>> |
        blocks != [] && AllJunk(c, r.side, blocks) && PassedOver(c, suite, r, version, blocks) && TotalSize(blocks) > 0
        ensures TotalSize(blocks) < r.side.maxEarly
      {
        PassedOverIff(c, suite, r, version, blocks);
        TotalOfFew(c, r, blocks);
      }
    }
  }

  /** A record of one byte, too short for any tag. */
  const SHORT_RECORD := Record(APPLICATION_DATA, TLS12, [0])

  lemma ShortIsJunk(c: Crypto, side: ReadSide)
    requires SuiteState(side.st) && side.st.enc.aead.tagLength >= 2 && side.st.seqnum < SEQ_LIMIT
    ensures Junk(c, side, [SHORT_RECORD])
  {
    hide XorBytes, ToBE;
  }

  lemma ManyBlocksPass(c: Crypto, suite: Suite, r: Reader)
    requires Skipping(r) && SuiteState(r.side.st) && r.side.st.enc.aead.tagLength >= 2
    requires r.compat && r.side.maxEarly > 1 && r.side.st.seqnum < SEQ_LIMIT
    ensures !TotalLimited(c, suite, r)
  {
    hide Take, PassedOver, Junk, Undecryptable, Proper;
    var blocks := seq(r.side.maxEarly, _ => [SHORT_RECORD]);
    ShortIsJunk(c, r.side);
    assert PayloadSize([SHORT_RECORD]) == 1;
    PassedOverIff(c, suite, r, TLS12, blocks);
    TotalOfShort(blocks);
  }

  lemma {:induction false} TotalOfShort(blocks: seq<seq<Record>>)
    requires forall i :: 0 <= i < |blocks| ==> blocks[i] == [SHORT_RECORD]
    ensures TotalSize(blocks) == |blocks|
  {
    if blocks != [] {
      assert PayloadSize([SHORT_RECORD]) == 1;
      TotalOfShort(blocks[1..]);
    }
  }

  lemma TotalOfFew(c: Crypto, r: Reader, blocks: seq<seq<Record>>)
    requires Live(r) && SuiteState(r.side.st) && blocks != [] && AllJunk(c, r.side, blocks)
    requires AllFit(r.side.maxEarly, blocks)
    requires |blocks| == 1 || r.side.maxEarly <= 1 || r.side.st.seqnum >= SEQ_LIMIT
    ensures TotalSize(blocks) == 0 || TotalSize(blocks) < r.side.maxEarly
  {
    hide Junk, PayloadSize, Proper;
    if |blocks| == 1 {
      assert TotalSize(blocks[1..]) == 0;
      assert Fits(r.side.maxEarly, blocks[0]);
      assert PayloadSize([]) == 0 by { NoPayload(); }
    } else {
      forall i | 0 <= i < |blocks| ensures PayloadSize(blocks[i]) == 0 {
        assert Fits(r.side.maxEarly, blocks[i]);
        NoPayload();
        if r.side.st.seqnum >= SEQ_LIMIT {
          assert Junk(c, r.side, blocks[i]);
          NoJunkLeft(c, r.side, blocks[i]);
        }
      }
      TotalOfNothing(blocks);
    }
  }

  lemma NoPayload()
    ensures PayloadSize([]) == 0
  {
  }

  lemma NoJunkLeft(c: Crypto, side: ReadSide, block: seq<Record>)
    requires Keyed(side.st) && side.st.seqnum >= SEQ_LIMIT && Junk(c, side, block)
    ensures block == []
  {
    hide Undecryptable;
    if block != [] {
      NeverJunk(c, side, block[0]);
    }
  }

  lemma NeverJunk(c: Crypto, side: ReadSide, rec: Record)
    requires Keyed(side.st) && side.st.seqnum >= SEQ_LIMIT
    ensures !Undecryptable(c, TLS13_CONFIG, side, rec)
  {
    hide TooLong;
  }

  lemma {:induction false} TotalOfNothing(blocks: seq<seq<Record>>)
    requires forall i :: 0 <= i < |blocks| ==> PayloadSize(blocks[i]) == 0
    ensures TotalSize(blocks) == 0
  {
    if blocks != [] {
      hide PayloadSize;
      TotalOfNothing(blocks[1..]);
    }
  }

  /** For one input: the total that is passed over is below the limit if only one block has any bytes. */
  lemma OneBlockLimited(c: Crypto, suite: Suite, r: Reader, version: nat, blocks: seq<seq<Record>>, k: nat)
    requires Skipping(r) && AllJunk(c, r.side, blocks) && k < |blocks| && PassedOver(c, suite, r, version, blocks)
    requires forall i :: 0 <= i < |blocks| && i != k ==> PayloadSize(blocks[i]) == 0
    ensures TotalSize(blocks) == PayloadSize(blocks[k]) && Fits(r.side.maxEarly, blocks[k])
  {
    hide Junk, PayloadSize, PassedOver, Take, Live;
    PassedOverIff(c, suite, r, version, blocks);
    TotalOfOne(blocks, k);
  }

  lemma {:induction false} TotalOfOne(blocks: seq<seq<Record>>, k: nat)
    requires k < |blocks| && forall i :: 0 <= i < |blocks| && i != k ==> PayloadSize(blocks[i]) == 0
    ensures TotalSize(blocks) == PayloadSize(blocks[k])
  {
    hide PayloadSize;
    if k == 0 {
      TotalOfNothing(blocks[1..]);
    } else {
      TotalOfOne(blocks[1..], k - 1);
    }
  }

  //
  // The first genuine message
  //

  /** The reader once it has opened a record: early data is over. */
  function Calm(r: Reader): Reader {
    r.(side := r.side.(earlyOk := false, earlyDone := 0))
  }

  lemma ReceivedAlike(c: Crypto, side: ReadSide, input: seq<Record>)
    requires Keyed(side.st) && input != []
    requires ReceiveRecord(c, TLS13_CONFIG, side.(earlyOk := false, earlyDone := 0), input).Received?
    ensures ReceiveRecord(c, TLS13_CONFIG, side, input)
         == ReceiveRecord(c, TLS13_CONFIG, side.(earlyOk := false, earlyDone := 0), input)
  {
    hide Open, Accept, TooLong, ReceiveRecord;
    var calm := side.(earlyOk := false, earlyDone := 0);
    ReceiveStep(c, TLS13_CONFIG, side, input);
    ReceiveStep(c, TLS13_CONFIG, calm, input);
    OpensAlike(c, side, input[0]);
  }

  lemma OpensAlike(c: Crypto, side: ReadSide, rec: Record)
    requires Keyed(side.st)
    ensures Open(c, TLS13_CONFIG, side.(earlyOk := false, earlyDone := 0), rec) == Open(c, TLS13_CONFIG, side, rec)
  {
    OpenKeeps(c, side, rec);
    hide Unprotect;
  }

  lemma GenuineGot(c: Crypto, r: Reader, input: seq<Record>)
    requires Live(r) && Take(r.defrag).0.None? && input != []
    requires var p := ReceiveRecord(c, TLS13_CONFIG, Calm(r).side, input); p.Received? && p.ctype != CHANGE_CIPHER_SPEC
    ensures GetMsg(c, r, input) == GetMsg(c, Calm(r), input)
  {
    hide ReceiveRecord, Take, Buffered, Proper, Append, GetMsg, NextRecord;
    ReceivedAlike(c, r.side, input);
    assert NextPass(c, r, input) == NextPass(c, Calm(r), input);
    NextIsSame(c, r, input, Calm(r), input);
    GetIsSame(c, r, input, Calm(r), input);
  }

  lemma FirstRecordOpens(c: Crypto, suite: Suite, settings: Settings, r: Reader, w: Writer, ev: Event)
    requires Correct(c) && Attuned(suite, settings, r, w) && SendEvent(c, suite, settings, w, ev).res.Ok?
    ensures var d := SendEvent(c, suite, settings, w, ev);
            && d.records != []
            && var p := ReceiveRecord(c, TLS13_CONFIG, r.side, d.records); p.Received? && p.ctype == TypeOf(ev)
  {
    var pieces := Fragments(settings.recordSize, Written(ev));
    FragmentsCut(settings.recordSize, Written(ev));
    var s := SendPadded(c, TLS13_CONFIG, settings, w.st, TypeOf(ev), pieces[0]);
    assert pieces[0] in pieces;
    assert s.res.Ok? && SendEvent(c, suite, settings, w, ev).records
        == [s.res.value] + SendPieces(c, TLS13_CONFIG, settings, s.st, TypeOf(ev), pieces[1..]).records;
    var later := SendPieces(c, TLS13_CONFIG, settings, s.st, TypeOf(ev), pieces[1..]).records;
    PieceReceived(c, settings, r.side, TypeOf(ev), pieces[0], later);
    hide *;
  }

  lemma EventIsSame(c: Crypto, suite: Suite, r: Reader, input: seq<Record>, r': Reader, input': seq<Record>)
    requires Live(r) && Live(r') && GetMsg(c, r, input) == GetMsg(c, r', input')
    ensures ReadThrough(c, suite, r, input) == ReadThrough(c, suite, r', input')
  {
    hide GetMsg, Live, SameSettings, Take, Interpret;
    ReadIsSame(c, suite, r, input, r', input');
  }

  lemma BothWork(suite: Suite, settings: Settings, r: Reader, w: Writer, n: nat)
    requires Skipping(r) && Attuned(suite, settings, Calm(r), w)
    ensures settings.recordSize >= 1 && Keyed(w.st) && Live(Calm(r)) && Live(Counted(r, n))
    ensures Take(Counted(r, n).defrag).0.None? && Calm(Counted(r, n)) == Calm(r)
  {
    hide Take, Proper;
  }

  /** However many blocks came before, a message sent in the state that the reader waits for is heard whole,
      and the reader ends in step with the writer. */
  lemma HeardAfterBlocks(c: Crypto, suite: Suite, settings: Settings, r: Reader, w: Writer, ev: Event,
                         version: nat, blocks: seq<seq<Record>>)
    requires Correct(c) && Skipping(r) && Attuned(suite, settings, Calm(r), w) && WellFormed(ev)
    requires blocks != [] && AllJunk(c, r.side, blocks) && PassedOver(c, suite, r, version, blocks)
    requires SendEvent(c, suite, settings, w, ev).res.Ok?
    ensures var d := SendEvent(c, suite, settings, w, ev);
            ReadThrough(c, suite, r, Separated(version, blocks) + d.records)
            == Trace(Expected(settings, ev), Waiting(InStep(Calm(r), d.writer)))
  {
    hide Correct, Idle, Attuned, SendEvent, Expected, Take, Junk, Fits, AllFit, PassedOver, PayloadSize, Separated, GetMsg,
         ReadThrough, Live, ReceiveRecord, AllJunk;
    BothWork(suite, settings, r, w, PayloadSize(blocks[|blocks| - 1]));
    var d := SendEvent(c, suite, settings, w, ev);
    var r' := Counted(r, PayloadSize(blocks[|blocks| - 1]));
    PassedOverIff(c, suite, r, version, blocks);
    BlocksPassed(c, r, version, blocks, d.records);
    FirstRecordOpens(c, suite, settings, Calm(r), w, ev);
    GenuineGot(c, r', d.records);
    EventIsSame(c, suite, r, Separated(version, blocks) + d.records, Calm(r), d.records);
    EventDelivered(c, suite, settings, Calm(r), w, ev);
  }

  //
  // A failing input
  //

  const EIGHT_BYTES := Record(APPLICATION_DATA, TLS12, Zeros(8))

  /** A server that lets ten bytes of early data pass, as the handshake leaves it. */
  function SkippingServer(clSecret: Bytes, srSecret: Bytes): Reader {
    var r := ReaderOf(Fresh(Transparent(), AES_SUITE, false, clSecret, srSecret, 0x4000, 10, true, DEFAULT_SETTINGS));
    r.(side := r.side.(earlyOk := true))
  }

  function FirstWriter(clSecret: Bytes): Writer {
    Writer(clSecret, TrafficState(Transparent(), AES_SUITE, clSecret))
  }

  lemma ServerSkips(clSecret: Bytes, srSecret: Bytes)
    ensures var r := SkippingServer(clSecret, srSecret);
            && Skipping(r) && Attuned(AES_SUITE, DEFAULT_SETTINGS, Calm(r), FirstWriter(clSecret))
            && Junk(Transparent(), r.side, [EIGHT_BYTES])
    ensures SuiteState(FirstWriter(clSecret).st) && Correct(Transparent())
  {
    TransparentIsCorrect();
    var c, r := Transparent(), SkippingServer(clSecret, srSecret);
    TrafficStateIsSuiteState(c, AES_SUITE, clSecret);
    FreshIdle(Calm(r));
    EightIsJunk(c, r.side);
    hide Transparent, Correct, Take, Proper, Junk;
  }

  lemma EightIsJunk(c: Crypto, side: ReadSide)
    requires SuiteState(side.st) && side.st.enc.aead.tagLength > 8 && side.st.seqnum < SEQ_LIMIT
    ensures Junk(c, side, [EIGHT_BYTES])
  {
    hide XorBytes, ToBE;
  }

  lemma SixteenBytes()
    ensures PayloadSize([EIGHT_BYTES]) == 8 && PayloadSize([EIGHT_BYTES, EIGHT_BYTES]) == 16
    ensures TotalSize([[EIGHT_BYTES], [EIGHT_BYTES]]) == 16
  {
    var both := [EIGHT_BYTES, EIGHT_BYTES];
    assert both[1..] == [EIGHT_BYTES] && PayloadSize(both) == 8 + PayloadSize(both[1..]);
    var blocks := [[EIGHT_BYTES], [EIGHT_BYTES]];
    assert blocks[1..] == [[EIGHT_BYTES]] && TotalSize(blocks[1..]) == 8 + TotalSize(blocks[1..][1..]);
  }

  lemma SevenSends(c: Crypto, w: Writer)
    requires Correct(c) && SuiteState(w.st) && w.st.seqnum == 0
    ensures SendEvent(c, AES_SUITE, DEFAULT_SETTINGS, w, Data([7])).res.Ok?
    ensures Expected(DEFAULT_SETTINGS, Data([7])) == [Data([7])]
  {
    assert Fragments(0x4000, [7]) == [[7]];
    PlainSendableIff(DEFAULT_SETTINGS, w.st, Data([7]));
    EventSentIff(c, AES_SUITE, DEFAULT_SETTINGS, w, Data([7]));
    hide Correct, SendEvent;
  }

  lemma BothSides(c: Crypto, r: Reader, records: seq<Record>)
    requires Skipping(r) && Junk(c, r.side, [EIGHT_BYTES]) && r.compat && r.side.maxEarly == 10
    ensures var blocks := [[EIGHT_BYTES], [EIGHT_BYTES]];
            AllJunk(c, r.side, blocks) && PassedOver(c, AES_SUITE, r, TLS12, blocks)
    ensures ReadEvent(c, AES_SUITE, r, [EIGHT_BYTES, EIGHT_BYTES] + records).Stopped?
  {
    hide Take, Proper, PassedOver, Undecryptable, PayloadSize, TotalSize, GetMsg, Interpret, Absorb, SameSettings;
    SixteenBytes();
    PassedOverIff(c, AES_SUITE, r, TLS12, [[EIGHT_BYTES], [EIGHT_BYTES]]);
    BlockRefused(c, r, [EIGHT_BYTES, EIGHT_BYTES], records);
  }

  /** With a limit of ten bytes, sixteen are skipped, eight on each side of a change_cipher_spec record, and the
      first genuine record is still heard; without that record the same bytes end the connection. */
  lemma SixteenBytesPass(clSecret: Bytes, srSecret: Bytes)
    ensures var c, r, blocks := Transparent(), SkippingServer(clSecret, srSecret), [[EIGHT_BYTES], [EIGHT_BYTES]];
            && Live(r) && Correct(c) && r.side.maxEarly == 10 && TotalSize(blocks) == 16
            && var d := SendEvent(c, AES_SUITE, DEFAULT_SETTINGS, FirstWriter(clSecret), Data([7]));
               && ReadThrough(c, AES_SUITE, r, Separated(TLS12, blocks) + d.records).events == [Data([7])]
               && ReadEvent(c, AES_SUITE, r, [EIGHT_BYTES, EIGHT_BYTES] + d.records).Stopped?
  {
    hide Correct, Transparent, SendEvent, ReadThrough, PassedOver, AllJunk, Junk, PayloadSize, TotalSize, Separated,
         Attuned, Take, Proper;
    var c, r, w := Transparent(), SkippingServer(clSecret, srSecret), FirstWriter(clSecret);
    ServerSkips(clSecret, srSecret);
    SixteenBytes();
    SevenSends(c, w);
    var d := SendEvent(c, AES_SUITE, DEFAULT_SETTINGS, w, Data([7]));
    BothSides(c, r, d.records);
    HeardAfterBlocks(c, AES_SUITE, DEFAULT_SETTINGS, r, w, Data([7]), TLS12, [[EIGHT_BYTES], [EIGHT_BYTES]]);
  }
}
