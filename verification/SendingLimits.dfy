/** When sending fails. */
module SendingLimits {
  import opened Results
  import opened ByteStrings
  import opened Primitives
  import opened RecordProtection
  import opened KeySchedule
  import opened Reading
  import opened Sending
  import opened Delivery
  import opened Channel

  /** A piece whose padding is not negative, and whose record has a length that fits the length field. */
  predicate PieceFits(settings: Settings, tagLength: nat, ctype: Byte, data: Bytes) {
    var padding := PaddingFor(settings, ctype, data);
    padding.Ok? && |data| + 1 + padding.value + tagLength < 0x1_0000
  }

  /** Every piece of a message fits, and there is a sequence number left for each. */
  predicate Sendable(settings: Settings, st: CState, ev: Event)
    requires settings.recordSize >= 1 && st.enc.AeadCipher?
  {
    var pieces := Fragments(settings.recordSize, Written(ev));
    && st.seqnum + |pieces| <= SEQ_LIMIT
    && forall p :: p in pieces ==> PieceFits(settings, st.enc.aead.tagLength, TypeOf(ev), p)
  }

  /** The record layer seals what has a length that fits and a sequence number. */
  lemma InnerSealed(c: Crypto, st: CState, inner: Bytes)
    requires Correct(c) && SuiteState(st)
    ensures var s := EncryptThenSeal(c, TLS13_CONFIG, st, inner, APPLICATION_DATA);
            && (s.res.Ok? <==> st.seqnum < SEQ_LIMIT && |inner| + st.enc.aead.tagLength < 0x1_0000)
            && (s.res.Ok? ==> |s.res.value| == |inner| + st.enc.aead.tagLength && s.st == st.(seqnum := st.seqnum + 1))
  {
    assert Pow256(2) == 0x1_0000;
    hide Pow256, ToBE, XorBytes;
  }

  lemma PieceSealed(c: Crypto, st: CState, ctype: Byte, data: Bytes, padding: nat)
    requires Correct(c) && SuiteState(st) && (ctype == HANDSHAKE || ctype == APPLICATION_DATA)
    ensures var s := RecordProtection.Send(c, TLS13_CONFIG, st, ctype, data, padding);
            && (s.res.Ok? <==> st.seqnum < SEQ_LIMIT && |data| + 1 + padding + st.enc.aead.tagLength < 0x1_0000)
            && (s.res.Ok? ==> s.st == st.(seqnum := st.seqnum + 1))
  {
    assert Pow256(2) == 0x1_0000;
    hide Correct, EncryptThenSeal, Pow256, ToBE, InnerPlaintext;
    InnerLength(data, ctype, padding);
    InnerSealed(c, st, InnerPlaintext(data, ctype, padding));
  }

  lemma PieceSent(c: Crypto, settings: Settings, st: CState, ctype: Byte, data: Bytes)
    requires Correct(c) && SuiteState(st) && (ctype == HANDSHAKE || ctype == APPLICATION_DATA)
    ensures var s := SendPadded(c, TLS13_CONFIG, settings, st, ctype, data);
            && (s.res.Ok? <==> st.seqnum < SEQ_LIMIT && PieceFits(settings, st.enc.aead.tagLength, ctype, data))
            && (s.res.Ok? ==> s.st == st.(seqnum := st.seqnum + 1))
  {
    hide Correct, RecordProtection.Send, PaddingFor;
    if PaddingFor(settings, ctype, data).Ok? {
      PieceSealed(c, st, ctype, data, PaddingFor(settings, ctype, data).value);
    }
  }

  /** Pieces are all sent exactly when every one of them fits and gets a sequence number below 2^64. */
  lemma {:induction false} PiecesSentIff(c: Crypto, settings: Settings, st: CState, ctype: Byte, pieces: seq<Bytes>)
    requires Correct(c) && SuiteState(st) && (ctype == HANDSHAKE || ctype == APPLICATION_DATA) && st.seqnum <= SEQ_LIMIT
    ensures var s := SendPieces(c, TLS13_CONFIG, settings, st, ctype, pieces);
            && (s.res.Ok? <==>
                  && st.seqnum + |pieces| <= SEQ_LIMIT
                  && forall p :: p in pieces ==> PieceFits(settings, st.enc.aead.tagLength, ctype, p))
            && (s.res.Ok? ==> s.st == st.(seqnum := st.seqnum + |pieces|))
    decreases |pieces|
  {
    hide Correct, SendPadded, PieceFits;
    if pieces != [] {
      PieceSent(c, settings, st, ctype, pieces[0]);
      assert pieces[0] in pieces && pieces == [pieces[0]] + pieces[1..];
      var s := SendPadded(c, TLS13_CONFIG, settings, st, ctype, pieces[0]);
      if s.res.Ok? {
        PiecesSentIff(c, settings, s.st, ctype, pieces[1..]);
      }
    }
  }

  /** A message is sent exactly when its pieces fit, below the end of the sequence numbers too. */
  lemma EventSentIff(c: Crypto, suite: Suite, settings: Settings, w: Writer, ev: Event)
    requires Correct(c) && SuiteState(w.st) && settings.recordSize >= 1 && w.st.seqnum <= SEQ_LIMIT
    ensures SendEvent(c, suite, settings, w, ev).res.Ok? <==> Sendable(settings, w.st, ev)
  {
    hide Correct, SendPieces, PieceFits;
    PiecesSentIff(c, settings, w.st, TypeOf(ev), Fragments(settings.recordSize, Written(ev)));
  }

  /** In a reachable state, a turn of the reading loop fails exactly when it hears a request whose answer cannot
      be sent. */
  lemma ReadFailsIff(c: Crypto, suite: Suite, s: System, k: nat, o: Outcome, r: Result<System>)
    requires Correct(c) && Working(s.a) && s.a.write.seqnum <= SEQ_LIMIT
    requires o == Hears(c, suite, s, k) && r == Act(c, suite, s, Read(k))
    requires Inv(c, suite, s)
    ensures r.Err? <==>
            o.Heard? && o.event == Update(true) && !Sendable(s.a.settings, s.a.write, Update(false))
  {
    hide Correct, Inv, SendEvent, ReadEvent, Sendable, Live;
    WriteStateFits(c, suite, s);
    ListenKeeps(c, suite, s, k);
    EventSentIff(c, suite, s.a.settings, WriterOf(s.a), Update(false));
  }

  lemma WriteStateFits(c: Crypto, suite: Suite, s: System)
    requires Inv(c, suite, s)
    ensures SuiteState(s.a.write)
  {
    hide ReadThrough, Idle;
  }

  /** Without a padding callback, and with records whose length fits the length field, only sequence numbers
      can run out. */
  predicate Plain(settings: Settings) {
    settings.paddingCb.None? && 1 <= settings.recordSize < 0x1_0000 - 256
  }

  lemma PlainSendableIff(settings: Settings, st: CState, ev: Event)
    requires Plain(settings) && SuiteState(st)
    ensures Sendable(settings, st, ev) <==> st.seqnum + |Fragments(settings.recordSize, Written(ev))| <= SEQ_LIMIT
  {
    FragmentsCut(settings.recordSize, Written(ev));
  }

  lemma {:induction false} CountAtMostBytes(pieces: seq<Bytes>)
    requires forall i :: 0 <= i < |pieces| ==> pieces[i] != []
    ensures |pieces| <= |Flatten(pieces)|
  {
    if pieces != [] {
      assert pieces[0] != [];
      CountAtMostBytes(pieces[1..]);
    }
  }

  /** A KeyUpdate has five bytes, and so five pieces at most. */
  lemma UpdateSendable(settings: Settings, st: CState, requested: bool)
    requires Plain(settings) && SuiteState(st) && st.seqnum + 5 <= SEQ_LIMIT
    ensures Sendable(settings, st, Update(requested))
  {
    var m := Written(Update(requested));
    assert |m| == 5 && m != [];
    FragmentsCut(settings.recordSize, m);
    var pieces := Fragments(settings.recordSize, m);
    assert forall i :: 0 <= i < |pieces| ==> pieces[i] in pieces;
    CountAtMostBytes(pieces);
    PlainSendableIff(settings, st, Update(requested));
  }
}
